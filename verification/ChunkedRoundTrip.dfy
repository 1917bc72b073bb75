/** Messages written in chunked coding decode to the data of their chunks. */
module ChunkedRoundTrip {
  import opened Arith
  import opened ChunkedSpec
  import opened Hexadecimal

  datatype Chunk = Chunk(digits: string, extension: string, data: string)

  predicate NoNewline(s: string) {
    forall i :: 0 <= i < |s| ==> s[i] != '\n'
  }

  /** 1 to 16 digits, and an extension that does not continue them. */
  predicate GoodSize(digits: string, extension: string) {
    && 1 <= |digits| <= 16 && AllHex(digits)
    && NoNewline(extension) && (|extension| > 0 ==> !IsHex(extension[0]))
  }

  predicate GoodChunk(c: Chunk) {
    GoodSize(c.digits, c.extension) && HexValue(c.digits) == |c.data| > 0
  }

  predicate GoodLast(digits: string, extension: string) {
    GoodSize(digits, extension) && HexValue(digits) == 0
  }

  /** A trailer line does not look like the empty line. */
  predicate GoodTrailer(line: string) {
    |line| > 0 && NoNewline(line) && line[0] != '\r'
  }

  function SizeLine(digits: string, extension: string): string {
    digits + (extension + "\r") + "\n"
  }

  function ChunkText(c: Chunk): string {
    SizeLine(c.digits, c.extension) + c.data + "\r\n"
  }

  function ChunksText(chunks: seq<Chunk>): string {
    if |chunks| == 0 then "" else ChunkText(chunks[0]) + ChunksText(chunks[1..])
  }

  function AllData(chunks: seq<Chunk>): string {
    if |chunks| == 0 then "" else chunks[0].data + AllData(chunks[1..])
  }

  function TrailersText(lines: seq<string>): string {
    if |lines| == 0 then "" else lines[0] + "\r\n" + TrailersText(lines[1..])
  }

  /** A whole message; its trailers count only for a decoder that is to consume them. */
  function Message(consumeTrailer: bool, chunks: seq<Chunk>, digits: string, extension: string, trailers: seq<string>): string {
    ChunksText(chunks) + SizeLine(digits, extension) + (if consumeTrailer then TrailersText(trailers) + "\r\n" else "")
  }

  /** All of `s` is used up on the way from `d` to `e`. */
  ghost predicate Leads(d: Decoder, s: string, e: Decoder, out: string) {
    Run(d, s) == Result(e, out, Incomplete, |s|)
  }

  lemma LeadsThen(d: Decoder, s: string, e: Decoder, out: string, t: string)
    requires Leads(d, s, e, out)
    ensures Run(d, s + t) == Then(out, |s|, Run(e, t))
  {
    RunAppend(d, s, t);
  }

  lemma LeadsOn(d: Decoder, s: string, e: Decoder, out: string, t: string, f: Decoder, out': string)
    requires Leads(d, s, e, out) && Leads(e, t, f, out')
    ensures Leads(d, s + t, f, out + out')
  {
    LeadsThen(d, s, e, out, t);
  }

  lemma LeadsByte(d: Decoder, c: char, e: Decoder, out: string)
    requires Step(d, c) == Go(e, out)
    ensures Leads(d, [c], e, out)
  {
    var s := [c];
    assert s[1..] == "";
    assert out + "" == out;
    assert Run(d, s) == Then(out, 1, Run(e, s[1..]));
  }

  lemma {:induction false} Digits(d: Decoder, digits: string)
    requires d.phase.Size? && d.left == 0 && d.hexCount == 0 && |digits| <= 16
    requires AllHex(digits)
    ensures Leads(d, digits, d.(left := HexValue(digits), hexCount := |digits|), "")
  {
    if |digits| > 0 {
      var n := |digits| - 1;
      var e := d.(left := HexValue(digits[..n]), hexCount := n);
      Digits(d, digits[..n]);
      LeadsByte(e, digits[n], d.(left := HexValue(digits), hexCount := |digits|), "");
      LeadsOn(d, digits[..n], e, "", [digits[n]], d.(left := HexValue(digits), hexCount := |digits|), "");
      assert digits == digits[..n] + [digits[n]];
    }
  }

  lemma {:induction false} Extensions(d: Decoder, s: string)
    requires d.phase.Extension? && NoNewline(s)
    ensures Leads(d, s, d, "")
  {
    if |s| > 0 {
      var n := |s| - 1;
      Extensions(d, s[..n]);
      LeadsByte(d, s[n], d, "");
      LeadsOn(d, s[..n], d, "", [s[n]], d, "");
      assert s == s[..n] + [s[n]];
    }
  }

  /** The size line up to its newline. */
  lemma SizeLineLeads(d: Decoder, digits: string, extension: string)
    requires d.phase.Size? && d.left == 0 && d.hexCount == 0 && GoodSize(digits, extension)
    ensures Leads(d, digits + (extension + "\r"), d.(left := HexValue(digits), phase := Extension), "")
  {
    var e := d.(left := HexValue(digits), hexCount := |digits|);
    var f := d.(left := HexValue(digits), phase := Extension);
    var s := extension + "\r";
    Digits(d, digits);
    LeadsByte(e, s[0], f, "");
    Extensions(f, s[1..]);
    LeadsOn(e, [s[0]], f, "", s[1..], f, "");
    assert s == [s[0]] + s[1..];
    LeadsOn(d, digits, e, "", s, f, "");
  }

  /** A chunk without the newline at its end. */
  lemma DataFollowsSize(d: Decoder, c: Chunk)
    requires d.phase.Size? && d.left == 0 && d.hexCount == 0 && GoodChunk(c)
    ensures Leads(d, SizeLine(c.digits, c.extension) + c.data, d.(phase := Crlf), c.data)
  {
    var e := d.(left := |c.data|, phase := Data);
    SizeLineLeads(d, c.digits, c.extension);
    LeadsByte(e.(phase := Extension), '\n', e, "");
    LeadsOn(d, c.digits + (c.extension + "\r"), e.(phase := Extension), "", "\n", e, "");
    DataLeads(e, c.data);
    LeadsOn(d, SizeLine(c.digits, c.extension), e, "", c.data, d.(phase := Crlf), c.data);
    assert "" + c.data == c.data;
  }

  lemma ChunkLeads(d: Decoder, c: Chunk)
    requires d.phase.Size? && d.left == 0 && d.hexCount == 0 && GoodChunk(c)
    ensures Leads(d, ChunkText(c), d, c.data)
  {
    var f := d.(phase := Crlf);
    DataFollowsSize(d, c);
    LeadsByte(f, '\r', f, "");
    LeadsByte(f, '\n', d, "");
    LeadsOn(f, "\r", f, "", "\n", d, "");
    assert "\r" + "\n" == "\r\n";
    LeadsOn(d, SizeLine(c.digits, c.extension) + c.data, f, c.data, "\r\n", d, "");
    assert c.data + "" == c.data;
  }

  lemma DataLeads(d: Decoder, data: string)
    requires d.phase.Data? && d.left == |data| > 0
    ensures Leads(d, data, d.(left := 0, phase := Crlf), data)
  {
    UnderStart(d, data);
    UnderData(d, data, d, 0, "", |data|, |data|);
    assert "" + data[0..|data|] == data;
    UnderEnd(d, data, d.(left := 0, phase := Crlf), |data|, data);
  }

  lemma {:induction false} ChunksLead(d: Decoder, chunks: seq<Chunk>)
    requires d.phase.Size? && d.left == 0 && d.hexCount == 0 && forall i :: 0 <= i < |chunks| ==> GoodChunk(chunks[i])
    ensures Leads(d, ChunksText(chunks), d, AllData(chunks))
  {
    if |chunks| > 0 {
      ChunkLeads(d, chunks[0]);
      ChunksLead(d, chunks[1..]);
      LeadsOn(d, ChunkText(chunks[0]), d, chunks[0].data, ChunksText(chunks[1..]), d, AllData(chunks[1..]));
    }
  }

  lemma {:induction false} Middle(d: Decoder, s: string)
    requires d.phase.TrailerMiddle? && NoNewline(s)
    ensures Leads(d, s, d, "")
  {
    if |s| > 0 {
      var n := |s| - 1;
      Middle(d, s[..n]);
      LeadsByte(d, s[n], d, "");
      LeadsOn(d, s[..n], d, "", [s[n]], d, "");
      assert s == s[..n] + [s[n]];
    }
  }

  lemma TrailerLeads(d: Decoder, line: string)
    requires d.phase.TrailerHead? && GoodTrailer(line)
    ensures Leads(d, line + "\r\n", d, "")
  {
    var e := d.(phase := TrailerMiddle);
    var s := line[1..] + "\r";
    LeadsByte(d, line[0], e, "");
    Middle(e, s);
    LeadsOn(d, [line[0]], e, "", s, e, "");
    LeadsByte(e, '\n', d, "");
    LeadsOn(d, [line[0]] + s, e, "", "\n", d, "");
    assert [line[0]] + s + "\n" == line + "\r\n";
  }

  lemma {:induction false} TrailersLead(d: Decoder, lines: seq<string>)
    requires d.phase.TrailerHead? && forall i :: 0 <= i < |lines| ==> GoodTrailer(lines[i])
    ensures Leads(d, TrailersText(lines), d, "")
  {
    if |lines| > 0 {
      TrailerLeads(d, lines[0]);
      TrailersLead(d, lines[1..]);
      LeadsOn(d, lines[0] + "\r\n", d, "", TrailersText(lines[1..]), d, "");
    }
  }

  /** The end of a message, after its last chunk with data. */
  lemma EndOfMessage(d: Decoder, digits: string, extension: string, trailers: seq<string>, rest: string)
    requires d == Fresh(d.consumeTrailer) && GoodLast(digits, extension)
    requires forall i :: 0 <= i < |trailers| ==> GoodTrailer(trailers[i])
    ensures var last := SizeLine(digits, extension) + (if d.consumeTrailer then TrailersText(trailers) + "\r\n" else "");
            var r := Run(d, last + rest);
            r.out == "" && r.verdict == Done && r.used == |last|
  {
    var line := digits + (extension + "\r");
    var e := d.(phase := Extension);
    SizeLineLeads(d, digits, extension);
    if d.consumeTrailer {
      var f := d.(phase := TrailerHead);
      LeadsByte(e, '\n', f, "");
      LeadsOn(d, line, e, "", "\n", f, "");
      TrailersLead(f, trailers);
      EndOfTrailers(d, line + "\n", f, TrailersText(trailers), rest);
    } else {
      LeadsThen(d, line, e, "", "\n" + rest);
      assert SizeLine(digits, extension) + "" + rest == line + ("\n" + rest);
    }
  }

  lemma EndOfTrailers(d: Decoder, line: string, f: Decoder, text: string, rest: string)
    requires f.phase.TrailerHead? && Leads(d, line, f, "") && Leads(f, text, f, "")
    ensures var r := Run(d, line + (text + "\r\n") + rest);
            r.out == "" && r.verdict == Done && r.used == |line + (text + "\r\n")|
  {
    LeadsOn(d, line, f, "", text, f, "");
    LeadsByte(f, '\r', f, "");
    LeadsOn(d, line + text, f, "", "\r", f, "");
    LeadsThen(d, line + text + "\r", f, "", "\n" + rest);
    assert line + (text + "\r\n") + rest == line + text + "\r" + ("\n" + rest);
  }

  /**
   A message followed by anything decodes to the data of its chunks, is complete, and what follows it is not touched.
   */
  lemma RoundTrip(consumeTrailer: bool, chunks: seq<Chunk>, digits: string, extension: string, trailers: seq<string>, rest: string)
    requires (forall i :: 0 <= i < |chunks| ==> GoodChunk(chunks[i])) && GoodLast(digits, extension)
    requires forall i :: 0 <= i < |trailers| ==> GoodTrailer(trailers[i])
    ensures var m := Message(consumeTrailer, chunks, digits, extension, trailers);
            var r := Run(Fresh(consumeTrailer), m + rest);
            r.out == AllData(chunks) && r.verdict == Done && r.used == |m| && (m + rest)[r.used..] == rest
  {
    var d := Fresh(consumeTrailer);
    var text, line := ChunksText(chunks), SizeLine(digits, extension);
    var tail := if consumeTrailer then TrailersText(trailers) + "\r\n" else "";
    ChunksLead(d, chunks);
    EndOfMessage(d, digits, extension, trailers, rest);
    SeqAssoc(text, line, tail);
    LeadsToEnd(d, text, AllData(chunks), line + tail, rest);
  }

  /** What leads back to the start, and then the end of a message. */
  lemma LeadsToEnd(d: Decoder, text: string, out: string, last: string, rest: string)
    requires Leads(d, text, d, out)
    requires Run(d, last + rest).out == "" && Run(d, last + rest).verdict == Done && Run(d, last + rest).used == |last|
    ensures var r := Run(d, text + last + rest);
            r.out == out && r.verdict == Done && r.used == |text + last| && (text + last + rest)[r.used..] == rest
  {
    LeadsThen(d, text, d, out, last + rest);
    SeqAssoc(text, last, rest);
    assert out + "" == out;
  }

  // ---------- sizes written as numbers ----------

  /** Data with an extension, the size of the data being written in base 16. */
  datatype Piece = Piece(data: string, extension: string)

  predicate GoodPiece(p: Piece) {
    0 < |p.data| < SIZE_LIMIT && NoNewline(p.extension) && (|p.extension| > 0 ==> !IsHex(p.extension[0]))
  }

  function ChunkOf(p: Piece, alphabet: string): Chunk
    requires |alphabet| == 16
  {
    Chunk(Hex(|p.data|, alphabet), p.extension, p.data)
  }

  function ChunksOf(pieces: seq<Piece>, alphabet: string): (chunks: seq<Chunk>)
    requires |alphabet| == 16
    ensures |chunks| == |pieces|
  {
    if |pieces| == 0 then [] else [ChunkOf(pieces[0], alphabet)] + ChunksOf(pieces[1..], alphabet)
  }

  function DataOf(pieces: seq<Piece>): string {
    if |pieces| == 0 then "" else pieces[0].data + DataOf(pieces[1..])
  }

  lemma GoodChunkOf(p: Piece, alphabet: string)
    requires GoodPiece(p) && IsAlphabet(alphabet)
    ensures GoodChunk(ChunkOf(p, alphabet))
  {
    HexReads(|p.data|, alphabet);
    HexFits(|p.data|, alphabet);
  }

  lemma {:induction false} GoodChunksOf(pieces: seq<Piece>, alphabet: string)
    requires IsAlphabet(alphabet) && forall i :: 0 <= i < |pieces| ==> GoodPiece(pieces[i])
    ensures forall i :: 0 <= i < |pieces| ==> GoodChunk(ChunksOf(pieces, alphabet)[i])
    ensures AllData(ChunksOf(pieces, alphabet)) == DataOf(pieces)
  {
    if |pieces| > 0 {
      GoodChunkOf(pieces[0], alphabet);
      GoodChunksOf(pieces[1..], alphabet);
      assert ChunksOf(pieces, alphabet)[1..] == ChunksOf(pieces[1..], alphabet);
    }
  }

  /** A body sent in pieces, each after its size in base 16, is received as it was. */
  lemma SizesRoundTrip(consumeTrailer: bool, pieces: seq<Piece>, alphabet: string, trailers: seq<string>, rest: string)
    requires IsAlphabet(alphabet) && forall i :: 0 <= i < |pieces| ==> GoodPiece(pieces[i])
    requires forall i :: 0 <= i < |trailers| ==> GoodTrailer(trailers[i])
    ensures var m := Message(consumeTrailer, ChunksOf(pieces, alphabet), "0", "", trailers);
            var r := Run(Fresh(consumeTrailer), m + rest);
            r.out == DataOf(pieces) && r.verdict == Done && r.used == |m|
  {
    GoodChunksOf(pieces, alphabet);
    ZeroIsLast();
    RoundTrip(consumeTrailer, ChunksOf(pieces, alphabet), "0", "", trailers, rest);
  }

  lemma ZeroIsLast()
    ensures GoodLast("0", "")
  {
    assert "0"[..0] == "";
    assert HexValue("0") == HexValue("") * 16 + Place('0');
  }

  /** A prefix of a message, whole chunks or not, leaves the decoder waiting. */
  lemma PrefixIsIncomplete(consumeTrailer: bool, chunks: seq<Chunk>, digits: string, extension: string, trailers: seq<string>, k: nat)
    requires (forall i :: 0 <= i < |chunks| ==> GoodChunk(chunks[i])) && GoodLast(digits, extension)
    requires forall i :: 0 <= i < |trailers| ==> GoodTrailer(trailers[i])
    requires k < |Message(consumeTrailer, chunks, digits, extension, trailers)|
    ensures Run(Fresh(consumeTrailer), Message(consumeTrailer, chunks, digits, extension, trailers)[..k]).verdict == Incomplete
  {
    var d, m := Fresh(consumeTrailer), Message(consumeTrailer, chunks, digits, extension, trailers);
    RoundTrip(consumeTrailer, chunks, digits, extension, trailers, "");
    assert m + "" == m && m[..k] + m[k..] == m;
    RunAppend(d, m[..k], m[k..]);
  }
}
