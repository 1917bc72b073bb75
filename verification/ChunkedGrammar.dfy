/**
 Which bytes are a chunked message for this decoder, and which are refused: more than what RFC 7230 allows.  A newline
 may be LF alone, any number of CRs may stand before it, and extensions and trailers hold anything else.
 */
module ChunkedGrammar {
  import opened Arith
  import opened ChunkedSpec
  import opened ChunkedRoundTrip
  import opened Hexadecimal

  // ---------- forms ----------

  predicate OnlyCr(s: string) {
    forall i :: 0 <= i < |s| ==> s[i] == '\r'
  }

  /** Digits, what comes after them in the line, data, and the CRs before the last LF. */
  datatype Loose = Loose(digits: string, extension: string, data: string, crs: string)

  function SizeText(c: Loose): string {
    c.digits + c.extension + "\n"
  }

  function LooseText(c: Loose): string {
    SizeText(c) + c.data + c.crs + "\n"
  }

  predicate LooseGood(c: Loose) {
    GoodSize(c.digits, c.extension) && HexValue(c.digits) == |c.data| > 0 && OnlyCr(c.crs)
  }

  predicate AllGood(chunks: seq<Loose>) {
    forall i :: 0 <= i < |chunks| ==> LooseGood(chunks[i])
  }

  function LooseTexts(chunks: seq<Loose>): string {
    if |chunks| == 0 then "" else LooseText(chunks[0]) + LooseTexts(chunks[1..])
  }

  function LooseData(chunks: seq<Loose>): string {
    if |chunks| == 0 then "" else chunks[0].data + LooseData(chunks[1..])
  }

  /** A trailer line is any line that does not consist of CRs. */
  predicate GoodLine(line: string) {
    NoNewline(line) && !OnlyCr(line)
  }

  function LinesText(lines: seq<string>): string {
    if |lines| == 0 then "" else lines[0] + "\n" + LinesText(lines[1..])
  }

  predicate TrailersParts(lines: seq<string>, crs: string) {
    (forall i :: 0 <= i < |lines| ==> GoodLine(lines[i])) && OnlyCr(crs)
  }

  ghost predicate TrailersForm(t: string) {
    exists lines: seq<string>, crs: string :: TrailersParts(lines, crs) && t == LinesText(lines) + (crs + "\n")
  }

  /** A size of zero, and the trailers if they are to be consumed. */
  ghost predicate EndParts(consumeTrailer: bool, digits: string, extension: string, trailers: string) {
    GoodLast(digits, extension) && (if consumeTrailer then TrailersForm(trailers) else trailers == "")
  }

  ghost predicate EndForm(consumeTrailer: bool, t: string) {
    exists digits: string, extension: string, trailers: string ::
      EndParts(consumeTrailer, digits, extension, trailers) && t == digits + extension + "\n" + trailers
  }

  /** `t` is refused after `n` bytes, `out` being data of a chunk that is not ended. */
  ghost predicate Fault(t: string, n: nat, out: string) {
    || (n == 0 < |t| && out == "" && !IsHex(t[0]))
    || (n == 16 < |t| && out == "" && AllHex(t[..17]))
    || (n < |t| && t[n] != '\r' && t[n] != '\n'
        && exists c: Loose :: LooseGood(c) && out == c.data && t[..n] == SizeText(c) + c.data + c.crs)
  }

  // ---------- what the decoder makes of them ----------

  /** After the digits, and after the extension: the same to what follows, if it is no digit. */
  function Sized(d: Decoder, digits: string, extension: string): Decoder
    requires AllHex(digits)
  {
    if |extension| == 0 then d.(left := HexValue(digits), hexCount := |digits|)
    else d.(left := HexValue(digits), phase := Extension)
  }

  lemma SizedLeads(d: Decoder, digits: string, extension: string)
    requires d == Fresh(d.consumeTrailer) && GoodSize(digits, extension)
    ensures Leads(d, digits + extension, Sized(d, digits, extension), "")
  {
    var e := d.(left := HexValue(digits), hexCount := |digits|);
    Digits(d, digits);
    if |extension| == 0 {
      assert digits + extension == digits;
    } else {
      var f := d.(left := HexValue(digits), phase := Extension);
      LeadsByte(e, extension[0], f, "");
      Extensions(f, extension[1..]);
      LeadsOn(e, [extension[0]], f, "", extension[1..], f, "");
      assert extension == [extension[0]] + extension[1..];
      LeadsOn(d, digits, e, "", extension, f, "");
    }
  }

  lemma SizedNewline(d: Decoder, digits: string, extension: string)
    requires d == Fresh(d.consumeTrailer) && GoodSize(digits, extension)
    ensures HexValue(digits) > 0 ==> Step(Sized(d, digits, extension), '\n') == Go(d.(left := HexValue(digits), phase := Data), "")
    ensures HexValue(digits) == 0 && d.consumeTrailer ==> Step(Sized(d, digits, extension), '\n') == Go(d.(phase := TrailerHead), "")
    ensures HexValue(digits) == 0 && !d.consumeTrailer ==> Step(Sized(d, digits, extension), '\n') == Complete(d.(phase := Extension))
  {
    assert DecodeHex('\n') == -1;
  }

  lemma {:induction false} CrsLead(d: Decoder, crs: string)
    requires (d.phase.Crlf? || d.phase.TrailerHead?) && OnlyCr(crs)
    ensures Leads(d, crs, d, "")
  {
    if |crs| > 0 {
      CrsLead(d, crs[..|crs| - 1]);
      LeadsByte(d, '\r', d, "");
      LeadsOn(d, crs[..|crs| - 1], d, "", "\r", d, "");
      assert crs == crs[..|crs| - 1] + "\r";
    }
  }

  /** A chunk up to its last LF. */
  lemma LooseHeadLeads(d: Decoder, c: Loose)
    requires d == Fresh(d.consumeTrailer) && LooseGood(c)
    ensures Leads(d, SizeText(c) + c.data + c.crs, d.(phase := Crlf), c.data)
  {
    var e, f, g := Sized(d, c.digits, c.extension), d.(left := |c.data|, phase := Data), d.(phase := Crlf);
    SizedLeads(d, c.digits, c.extension);
    SizedNewline(d, c.digits, c.extension);
    LeadsByte(e, '\n', f, "");
    LeadsOn(d, c.digits + c.extension, e, "", "\n", f, "");
    DataLeads(f, c.data);
    LeadsOn(d, SizeText(c), f, "", c.data, g, c.data);
    CrsLead(g, c.crs);
    assert "" + c.data == c.data && c.data + "" == c.data;
    LeadsOn(d, SizeText(c) + c.data, g, c.data, c.crs, g, "");
  }

  lemma LooseLeads(d: Decoder, c: Loose)
    requires d == Fresh(d.consumeTrailer) && LooseGood(c)
    ensures Leads(d, LooseText(c), d, c.data)
  {
    LooseHeadLeads(d, c);
    LeadsByte(d.(phase := Crlf), '\n', d, "");
    LeadsOn(d, SizeText(c) + c.data + c.crs, d.(phase := Crlf), c.data, "\n", d, "");
    assert c.data + "" == c.data;
  }

  lemma {:induction false} LooseAllLead(d: Decoder, chunks: seq<Loose>)
    requires d == Fresh(d.consumeTrailer) && AllGood(chunks)
    ensures Leads(d, LooseTexts(chunks), d, LooseData(chunks))
  {
    if |chunks| > 0 {
      LooseLeads(d, chunks[0]);
      LooseAllLead(d, chunks[1..]);
      LeadsOn(d, LooseText(chunks[0]), d, chunks[0].data, LooseTexts(chunks[1..]), d, LooseData(chunks[1..]));
    }
  }

  // ---------- trailers ----------

  lemma {:induction false} Until(s: string, i: nat, stop: char -> bool) returns (j: nat)
    requires i <= |s|
    ensures i <= j <= |s| && (forall k :: i <= k < j ==> !stop(s[k])) && (j < |s| ==> stop(s[j]))
    decreases |s| - i
  {
    if i == |s| || stop(s[i]) {
      j := i;
    } else {
      j := Until(s, i + 1, stop);
    }
  }

  /** A line that has begun with something other than a CR. */
  lemma LineLeads(d: Decoder, line: string)
    requires d.phase.TrailerHead? && GoodLine(line)
    ensures Leads(d, line, d.(phase := TrailerMiddle), "")
  {
    var i := Until(line, 0, c => c != '\r');
    var e := d.(phase := TrailerMiddle);
    CrsLead(d, line[..i]);
    LeadsByte(d, line[i], e, "");
    LeadsOn(d, line[..i], d, "", [line[i]], e, "");
    Middle(e, line[i + 1..]);
    LeadsOn(d, line[..i] + [line[i]], e, "", line[i + 1..], e, "");
    assert line == line[..i] + [line[i]] + line[i + 1..];
  }

  lemma WholeLineLeads(d: Decoder, line: string)
    requires d.phase.TrailerHead? && GoodLine(line)
    ensures Leads(d, line + "\n", d, "")
  {
    var e := d.(phase := TrailerMiddle);
    LineLeads(d, line);
    LeadsByte(e, '\n', d, "");
    LeadsOn(d, line, e, "", "\n", d, "");
  }

  lemma {:induction false} LinesLead(d: Decoder, lines: seq<string>)
    requires d.phase.TrailerHead? && forall i :: 0 <= i < |lines| ==> GoodLine(lines[i])
    ensures Leads(d, LinesText(lines), d, "")
  {
    if |lines| > 0 {
      WholeLineLeads(d, lines[0]);
      LinesLead(d, lines[1..]);
      LeadsOn(d, lines[0] + "\n", d, "", LinesText(lines[1..]), d, "");
    }
  }

  lemma EmptyLineCompletes(d: Decoder, crs: string, rest: string)
    requires d.phase.TrailerHead? && OnlyCr(crs)
    ensures Run(d, crs + "\n" + rest) == Result(d, "", Done, |crs| + 1)
  {
    CrsLead(d, crs);
    LeadsThen(d, crs, d, "", "\n" + rest);
    assert crs + "\n" + rest == crs + ("\n" + rest);
  }

  lemma TrailersComplete(d: Decoder, t: string, rest: string)
    requires d.phase.TrailerHead? && TrailersForm(t)
    ensures Run(d, t + rest) == Result(d, "", Done, |t|)
  {
    var lines: seq<string>, crs: string :| TrailersParts(lines, crs) && t == LinesText(lines) + (crs + "\n");
    LinesLead(d, lines);
    EmptyLineCompletes(d, crs, rest);
    SeqAssoc(LinesText(lines), crs + "\n", rest);
    LeadsThen(d, LinesText(lines), d, "", crs + "\n" + rest);
  }

  lemma EmptyTrailers(crs: string)
    requires OnlyCr(crs)
    ensures TrailersForm(crs + "\n")
  {
    var lines: seq<string> := [];
    assert TrailersParts(lines, crs);
    assert crs + "\n" == LinesText(lines) + (crs + "\n");
  }

  lemma OneMoreLine(line: string, t: string)
    requires GoodLine(line) && TrailersForm(t)
    ensures TrailersForm(line + "\n" + t)
  {
    var lines: seq<string>, crs: string :| TrailersParts(lines, crs) && t == LinesText(lines) + (crs + "\n");
    var all := [line] + lines;
    assert all[1..] == lines && TrailersParts(all, crs);
    assert line + "\n" + t == LinesText(all) + (crs + "\n");
  }

  /** What trailers may come to. */
  ghost predicate TrailersEnd(d: Decoder, s: string) {
    var r := Run(d, s);
    r.verdict != Error && r.out == "" && (r.verdict == Done ==> TrailersForm(s[..r.used]))
  }

  lemma CrsEnd(d: Decoder, crs: string, rest: string)
    requires d.phase.TrailerHead? && OnlyCr(crs) && (|rest| > 0 ==> rest[0] == '\n')
    ensures TrailersEnd(d, crs + rest)
  {
    CrsLead(d, crs);
    LeadsThen(d, crs, d, "", rest);
    EmptyTrailers(crs);
    assert |rest| > 0 ==> (crs + rest)[..|crs| + 1] == crs + "\n";
  }

  lemma LineEnd(d: Decoder, line: string, rest: string)
    requires d.phase.TrailerHead? && GoodLine(line) && TrailersEnd(d, rest)
    ensures TrailersEnd(d, line + "\n" + rest)
  {
    WholeLineLeads(d, line);
    LeadsThen(d, line + "\n", d, "", rest);
    var used := Run(d, rest).used;
    if Run(d, rest).verdict == Done {
      OneMoreLine(line, rest[..used]);
      assert (line + "\n" + rest)[..|line| + 1 + used] == line + "\n" + rest[..used];
    }
  }

  /** Trailers are never refused, and what is complete has their form. */
  lemma {:induction false} TrailersHaveForm(d: Decoder, s: string)
    requires d.phase.TrailerHead?
    ensures TrailersEnd(d, s)
    decreases |s|
  {
    var l := Until(s, 0, c => c == '\n');
    if OnlyCr(s[..l]) {
      CrsEnd(d, s[..l], s[l..]);
      assert s == s[..l] + s[l..];
    } else if l == |s| {
      LineLeads(d, s[..l]);
      assert s == s[..l];
    } else {
      TrailersHaveForm(d, s[l + 1..]);
      LineEnd(d, s[..l], s[l + 1..]);
      assert s == s[..l] + "\n" + s[l + 1..];
    }
  }

  // ---------- the end of a message ----------

  lemma ZeroCompletes(d: Decoder, digits: string, extension: string, rest: string)
    requires d == Fresh(false) && GoodLast(digits, extension)
    ensures Run(d, digits + extension + "\n" + rest) == Result(d.(phase := Extension), "", Done, |digits + extension| + 1)
  {
    SizedLeads(d, digits, extension);
    SizedNewline(d, digits, extension);
    LeadsThen(d, digits + extension, Sized(d, digits, extension), "", "\n" + rest);
    assert digits + extension + "\n" + rest == digits + extension + ("\n" + rest);
  }

  lemma ZeroLeads(d: Decoder, digits: string, extension: string)
    requires d == Fresh(true) && GoodLast(digits, extension)
    ensures Leads(d, digits + extension + "\n", d.(phase := TrailerHead), "")
  {
    var e := Sized(d, digits, extension);
    SizedLeads(d, digits, extension);
    SizedNewline(d, digits, extension);
    LeadsByte(e, '\n', d.(phase := TrailerHead), "");
    LeadsOn(d, digits + extension, e, "", "\n", d.(phase := TrailerHead), "");
  }

  lemma EndCompletes(d: Decoder, t: string, rest: string)
    requires d == Fresh(d.consumeTrailer) && EndForm(d.consumeTrailer, t)
    ensures var r := Run(d, t + rest);
            r.verdict == Done && r.out == "" && r.used == |t|
  {
    var digits: string, extension: string, trailers: string :|
      EndParts(d.consumeTrailer, digits, extension, trailers) && t == digits + extension + "\n" + trailers;
    var line := digits + extension + "\n";
    SeqAssoc(line, trailers, rest);
    if d.consumeTrailer {
      ZeroLeads(d, digits, extension);
      TrailersComplete(d.(phase := TrailerHead), trailers, rest);
      LeadsThen(d, line, d.(phase := TrailerHead), "", trailers + rest);
    } else {
      ZeroCompletes(d, digits, extension, trailers + rest);
    }
  }

  // ---------- what is refused ----------

  lemma LeadsToRefusal(d: Decoder, s: string, e: Decoder, out: string, c: char, rest: string)
    requires Leads(d, s, e, out) && Step(e, c).Refused?
    ensures var r := Run(d, s + ([c] + rest));
            r.verdict == Error && r.out == out && r.used == |s|
  {
    LeadsThen(d, s, e, out, [c] + rest);
    assert out + "" == out;
  }

  lemma FaultIsRefused(d: Decoder, t: string, n: nat, out: string)
    requires d == Fresh(d.consumeTrailer) && Fault(t, n, out)
    ensures var r := Run(d, t);
            r.verdict == Error && r.out == out && r.used == n
  {
    assert t == t[..n] + ([t[n]] + t[n + 1..]);
    if n == 0 < |t| && out == "" && !IsHex(t[0]) {
    } else if n == 16 < |t| && out == "" && AllHex(t[..17]) {
      Digits(d, t[..16]);
      LeadsToRefusal(d, t[..16], d.(left := HexValue(t[..16]), hexCount := 16), "", t[..17][16], t[17..]);
    } else {
      var c: Loose :| LooseGood(c) && out == c.data && t[..n] == SizeText(c) + c.data + c.crs;
      LooseHeadLeads(d, c);
      LeadsToRefusal(d, t[..n], d.(phase := Crlf), out, t[n], t[n + 1..]);
    }
  }

  // ---------- and nothing else ----------

  /** The bytes at the start of a message: a whole chunk, its end, a fault, or not enough to tell. */
  datatype Start = Whole(c: Loose) | Other

  ghost predicate StartIs(d: Decoder, s: string, start: Start) {
    var r := Run(d, s);
    match start
    case Whole(c) => LooseGood(c) && |LooseText(c)| <= |s| && s[..|LooseText(c)|] == LooseText(c)
    case Other =>
      && (r.verdict == Done ==> EndForm(d.consumeTrailer, s[..r.used]) && r.out == "")
      && (r.verdict == Error ==> Fault(s, r.used, r.out))
  }

  /** From the data on. */
  lemma DataStart(d: Decoder, s: string, c: Loose, rest: string) returns (start: Start)
    requires d == Fresh(d.consumeTrailer) && GoodSize(c.digits, c.extension) && HexValue(c.digits) > 0
    requires s == SizeText(c) + rest
    ensures StartIs(d, s, start)
  {
    var v, e := HexValue(c.digits), Sized(d, c.digits, c.extension);
    var f := d.(left := v, phase := Data);
    SizedLeads(d, c.digits, c.extension);
    SizedNewline(d, c.digits, c.extension);
    LeadsByte(e, '\n', f, "");
    LeadsOn(d, c.digits + c.extension, e, "", "\n", f, "");
    if |rest| < v {
      PartLeads(f, rest);
      LeadsThen(d, SizeText(c), f, "", rest);
      start := Other;
    } else {
      var q := Until(rest, v, x => x != '\r');
      var c' := Loose(c.digits, c.extension, rest[..v], rest[v..q]);
      start := ChunkStart(d, s, c', rest[q..]);
    }
  }

  lemma PartLeads(d: Decoder, data: string)
    requires d.phase.Data? && |data| < d.left
    ensures Leads(d, data, DataRead(d, |data|), data)
  {
    UnderStart(d, data);
    UnderData(d, data, d, 0, "", |data|, |data|);
    assert "" + data[0..|data|] == data;
    UnderEnd(d, data, DataRead(d, |data|), |data|, data);
  }

  /** From the byte after the data and its CRs on. */
  lemma ChunkStart(d: Decoder, s: string, c: Loose, rest: string) returns (start: Start)
    requires d == Fresh(d.consumeTrailer) && LooseGood(c) && s == SizeText(c) + c.data + c.crs + rest
    requires |rest| > 0 ==> rest[0] != '\r'
    ensures StartIs(d, s, start)
  {
    var head := SizeText(c) + c.data + c.crs;
    LooseHeadLeads(d, c);
    if |rest| == 0 {
      assert s == head;
      start := Other;
    } else if rest[0] == '\n' {
      assert s[..|LooseText(c)|] == LooseText(c);
      start := Whole(c);
    } else {
      assert s[..|head|] == SizeText(c) + c.data + c.crs && s[|head|] == rest[0];
      assert Fault(s, |head|, c.data);
      FaultIsRefused(d, s, |head|, c.data);
      start := Other;
    }
  }

  /** A line with a size of zero. */
  lemma ZeroStart(d: Decoder, s: string, digits: string, extension: string, rest: string)
    requires d == Fresh(d.consumeTrailer) && GoodLast(digits, extension) && s == digits + extension + "\n" + rest
    ensures StartIs(d, s, Other)
  {
    var line := digits + extension + "\n";
    if d.consumeTrailer {
      var e := d.(phase := TrailerHead);
      ZeroLeads(d, digits, extension);
      LeadsThen(d, line, e, "", rest);
      TrailersHaveForm(e, rest);
      if Run(e, rest).verdict == Done {
        EndIntro(d, digits, extension, rest[..Run(e, rest).used]);
        assert s[..|line| + Run(e, rest).used] == line + rest[..Run(e, rest).used];
      }
    } else {
      ZeroCompletes(d, digits, extension, rest);
      EndIntro(d, digits, extension, "");
      assert s[..|line|] == line + "";
    }
  }

  lemma EndIntro(d: Decoder, digits: string, extension: string, trailers: string)
    requires EndParts(d.consumeTrailer, digits, extension, trailers)
    ensures EndForm(d.consumeTrailer, digits + extension + "\n" + trailers)
  {
  }

  lemma FirstStart(d: Decoder, s: string) returns (start: Start)
    requires d == Fresh(d.consumeTrailer)
    ensures StartIs(d, s, start)
  {
    var k := Until(s, 0, c => !IsHex(c));
    start := Other;
    if k > 16 {
      assert forall i :: 0 <= i < 17 ==> IsHex(s[..17][i]);
      assert Fault(s, 16, "");
      FaultIsRefused(d, s, 16, "");
    } else if k == |s| {
      assert s == s[..k];
      Digits(d, s);
    } else if k == 0 {
      assert Fault(s, 0, "");
      FaultIsRefused(d, s, 0, "");
    } else {
      start := LineStart(d, s, k);
    }
  }

  /** From the end of the digits on. */
  lemma LineStart(d: Decoder, s: string, k: nat) returns (start: Start)
    requires d == Fresh(d.consumeTrailer) && 0 < k <= 16 && k < |s| && AllHex(s[..k]) && !IsHex(s[k])
    ensures StartIs(d, s, start)
  {
    var l := Until(s, k, c => c == '\n');
    var digits, extension := s[..k], s[k..l];
    assert GoodSize(digits, extension);
    if l == |s| {
      SizedLeads(d, digits, extension);
      assert s == digits + extension;
      start := Other;
    } else {
      assert s == digits + extension + "\n" + s[l + 1..];
      if HexValue(digits) == 0 {
        ZeroStart(d, s, digits, extension, s[l + 1..]);
        start := Other;
      } else {
        start := DataStart(d, s, Loose(digits, extension, "", ""), s[l + 1..]);
      }
    }
  }

  /** The chunks a message begins with, and the rest, which decides. */
  lemma {:induction false} Analysis(d: Decoder, s: string) returns (chunks: seq<Loose>, t: string)
    requires d == Fresh(d.consumeTrailer)
    ensures AllGood(chunks) && s == LooseTexts(chunks) + t && StartIs(d, t, Other)
    decreases |s|
  {
    var start := FirstStart(d, s);
    if start.Whole? {
      var n := |LooseText(start.c)|;
      chunks, t := Analysis(d, s[n..]);
      chunks := [start.c] + chunks;
      assert chunks[1..] + [] == chunks[1..];
      assert s == s[..n] + s[n..];
    } else {
      chunks, t := [], s;
    }
  }

  ghost predicate DoneForm(consumeTrailer: bool, s: string, n: nat, out: string) {
    exists chunks: seq<Loose>, t: string ::
      AllGood(chunks) && EndForm(consumeTrailer, t) && LooseTexts(chunks) + t <= s
      && n == |LooseTexts(chunks) + t| && out == LooseData(chunks)
  }

  ghost predicate ErrorForm(s: string, n: nat, out: string) {
    exists chunks: seq<Loose>, t: string, k: nat, piece: string ::
      AllGood(chunks) && Fault(t, k, piece) && s == LooseTexts(chunks) + t
      && n == |LooseTexts(chunks)| + k && out == LooseData(chunks) + piece
  }

  lemma DoneHasForm(d: Decoder, s: string)
    requires d == Fresh(d.consumeTrailer) && Run(d, s).verdict == Done
    ensures DoneForm(d.consumeTrailer, s, Run(d, s).used, Run(d, s).out)
  {
    var chunks, t := Analysis(d, s);
    var m, used := LooseTexts(chunks), Run(d, t).used;
    LooseAllLead(d, chunks);
    LeadsThen(d, m, d, LooseData(chunks), t);
    assert LooseData(chunks) + "" == LooseData(chunks);
    Prefix(m, t, used);
    assert AllGood(chunks) && EndForm(d.consumeTrailer, t[..used]);
  }

  lemma Prefix(m: string, t: string, k: nat)
    requires k <= |t|
    ensures m + t[..k] <= m + t && |m + t[..k]| == |m| + k
  {
  }

  lemma PrefixAndRest(m: string, s: string)
    requires m <= s
    ensures m + s[|m|..] == s
  {
  }

  lemma FormIsDone(d: Decoder, chunks: seq<Loose>, t: string, rest: string)
    requires d == Fresh(d.consumeTrailer) && AllGood(chunks) && EndForm(d.consumeTrailer, t)
    ensures var r := Run(d, LooseTexts(chunks) + t + rest);
            r.verdict == Done && r.used == |LooseTexts(chunks) + t| && r.out == LooseData(chunks)
  {
    LooseAllLead(d, chunks);
    EndCompletes(d, t, rest);
    LeadsThen(d, LooseTexts(chunks), d, LooseData(chunks), t + rest);
    SeqAssoc(LooseTexts(chunks), t, rest);
    assert LooseData(chunks) + "" == LooseData(chunks);
  }

  /** The decoder is done after `n` bytes if and only if these are chunks and the end of a message; the output is their data. */
  lemma DoneExactly(consumeTrailer: bool, s: string, n: nat, out: string)
    ensures var r := Run(Fresh(consumeTrailer), s);
            r.verdict == Done && r.used == n && r.out == out <==> DoneForm(consumeTrailer, s, n, out)
  {
    var d := Fresh(consumeTrailer);
    if Run(d, s).verdict == Done {
      DoneHasForm(d, s);
    }
    if DoneForm(consumeTrailer, s, n, out) {
      var chunks: seq<Loose>, t: string :|
        AllGood(chunks) && EndForm(consumeTrailer, t) && LooseTexts(chunks) + t <= s
        && n == |LooseTexts(chunks) + t| && out == LooseData(chunks);
      var m := LooseTexts(chunks) + t;
      FormIsDone(d, chunks, t, s[|m|..]);
      PrefixAndRest(m, s);
    }
  }

  /** It refuses byte `n` if and only if that is where whole chunks are followed by a fault. */
  lemma ErrorExactly(consumeTrailer: bool, s: string, n: nat, out: string)
    ensures var r := Run(Fresh(consumeTrailer), s);
            r.verdict == Error && r.used == n && r.out == out <==> ErrorForm(s, n, out)
  {
    var d := Fresh(consumeTrailer);
    var r := Run(d, s);
    if r.verdict == Error {
      var chunks, t := Analysis(d, s);
      LooseAllLead(d, chunks);
      LeadsThen(d, LooseTexts(chunks), d, LooseData(chunks), t);
      assert ErrorForm(s, |LooseTexts(chunks)| + Run(d, t).used, LooseData(chunks) + Run(d, t).out);
    }
    if ErrorForm(s, n, out) {
      var chunks: seq<Loose>, t: string, k: nat, piece: string :|
        AllGood(chunks) && Fault(t, k, piece) && s == LooseTexts(chunks) + t
        && n == |LooseTexts(chunks)| + k && out == LooseData(chunks) + piece;
      LooseAllLead(d, chunks);
      FaultIsRefused(d, t, k, piece);
      LeadsThen(d, LooseTexts(chunks), d, LooseData(chunks), t);
    }
  }
}
