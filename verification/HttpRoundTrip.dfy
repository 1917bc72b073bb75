/** Heads that were printed are read back: same parts, same headers in order, and exactly their length. */
module HttpRoundTrip {
  import opened Options
  import opened Arith
  import opened HttpSyntax
  import opened HttpGrammar
  import opened HttpPrinter

  predicate GoodToken(t: string) {
    |t| > 0 && forall k :: 0 <= k < |t| ==> IsToken(t[k])
  }

  predicate GoodPath(p: string) {
    |p| > 0 && forall k :: 0 <= k < |p| ==> !EndsPath(p[k])
  }

  predicate GoodText(t: string) {
    forall k :: 0 <= k < |t| ==> !IsControl(t[k])
  }

  /** No blanks around the value. */
  predicate GoodField(f: Field) {
    GoodToken(f.0) && GoodText(f.1) && (|f.1| > 0 ==> !IsBlank(f.1[0]) && !IsBlank(f.1[|f.1| - 1]))
  }

  predicate GoodFields(fields: seq<Field>) {
    forall k :: 0 <= k < |fields| ==> GoodField(fields[k])
  }

  /** The bytes of a slice. */
  function Text(s: string, t: Slice): string {
    if t.from <= t.to <= |s| then s[t.from..t.to] else ""
  }

  /** Header `k` is field `k`. */
  predicate Reads(s: string, hs: seq<Header>, fields: seq<Field>) {
    && |hs| == |fields|
    && forall k :: 0 <= k < |hs| ==> ReadsField(s, hs[k], fields[k])
  }

  predicate ReadsField(s: string, h: Header, f: Field) {
    h.name.Some? && Text(s, h.name.value) == f.0 && Text(s, h.value) == f.1
  }

  /** The slices of fields printed from position `i` on. */
  function Slices(i: nat, fields: seq<Field>): (hs: seq<Header>)
    ensures |hs| == |fields|
    decreases |fields|
  {
    if |fields| == 0 then []
    else [HeaderOf(i, fields[0])] + Slices(i + LineLength(fields[0]), fields[1..])
  }

  function HeaderOf(i: nat, f: Field): Header {
    Header(Some(Slice(i, i + |f.0|)), Slice(i + |f.0| + 2, i + |f.0| + 2 + |f.1|))
  }

  function LineLength(f: Field): (n: nat)
    ensures n == |FieldLine(f)|
  {
    |f.0| + 2 + |f.1| + 2
  }

  /** `t` stands at position `i`. */
  predicate Stands(s: string, i: nat, t: string) {
    i + |t| <= |s| && forall k :: 0 <= k < |t| ==> s[i + k] == t[k]
  }

  lemma StandsParts(s: string, i: nat, a: string, b: string)
    requires Stands(s, i, a + b)
    ensures Stands(s, i, a) && Stands(s, i + |a|, b)
  {
    StandsSplit(s, i, a + b, a, b, i + |a|);
  }

  lemma StandsSplit(s: string, i: nat, t: string, a: string, b: string, j: nat)
    requires Stands(s, i, t) && t == a + b && j == i + |a|
    ensures Stands(s, i, a) && Stands(s, j, b)
  {
    forall k | 0 <= k < |a|
      ensures s[i + k] == a[k]
    {
      assert t[k] == a[k];
    }
    forall k | 0 <= k < |b|
      ensures s[j + k] == b[k]
    {
      assert t[|a| + k] == b[k];
      assert i + (|a| + k) == j + k;
    }
  }

  lemma StandsAt(s: string, i: nat, t: string, k: nat)
    requires Stands(s, i, t) && k < |t|
    ensures s[i + k] == t[k]
  {
  }

  lemma StandsAll(s: string, i: nat, t: string)
    requires Stands(s, i, t)
    ensures forall k :: i <= k < i + |t| ==> s[k] == t[k - i]
  {
    forall k | i <= k < i + |t|
      ensures s[k] == t[k - i]
    {
      StandsAt(s, i, t, k - i);
    }
  }

  lemma StandsText(s: string, i: nat, t: string, j: nat)
    requires Stands(s, i, t) && j == i + |t|
    ensures Text(s, Slice(i, j)) == t && s[i..j] == t
  {
    StandsAll(s, i, t);
  }

  lemma CrlfParses(s: string, i: nat)
    requires Stands(s, i, "\r\n")
    ensures Newline(s, i) == Done((), i + 2)
  {
    StandsAt(s, i, "\r\n", 0);
    StandsAt(s, i, "\r\n", 1);
  }

  /** Where the pieces of a header line stand. */
  predicate FieldPieces(s: string, i: nat, f: Field) {
    && Stands(s, i, f.0) && Stands(s, i + |f.0|, ": ") && Stands(s, i + |f.0| + 2, f.1)
    && Stands(s, i + |f.0| + 2 + |f.1|, "\r\n")
  }

  lemma FieldHasPieces(s: string, i: nat, f: Field)
    requires Stands(s, i, FieldLine(f))
    ensures FieldPieces(s, i, f)
  {
    StandsSplit(s, i, FieldLine(f), f.0 + ": " + f.1, "\r\n", i + |f.0| + 2 + |f.1|);
    StandsSplit(s, i, f.0 + ": " + f.1, f.0 + ": ", f.1, i + |f.0| + 2);
    StandsSplit(s, i, f.0 + ": ", f.0, ": ", i + |f.0|);
  }

  lemma FieldHasForm(s: string, i: nat, n: nat, f: Field)
    requires GoodField(f) && FieldPieces(s, i, f)
    ensures HeaderForm(s, i, n, HeaderOf(i, f), i + LineLength(f)) && IsToken(s[i])
    ensures ReadsField(s, HeaderOf(i, f), f)
  {
    var v := i + |f.0| + 2;
    FieldValue(s, v, f.1);
    FieldName(s, i, f, v);
    StandsText(s, i, f.0, i + |f.0|);
    StandsText(s, v, f.1, v + |f.1|);
  }

  lemma FieldValue(s: string, v: nat, value: string)
    requires GoodText(value) && (|value| > 0 ==> !IsBlank(value[|value| - 1]))
    requires Stands(s, v, value) && Stands(s, v + |value|, "\r\n")
    ensures ValueForm(s, v, Slice(v, v + |value|), v + |value|, v + |value| + 2)
  {
    CrlfParses(s, v + |value|);
    StandsAll(s, v, value);
  }

  lemma FieldName(s: string, i: nat, f: Field, v: nat)
    requires GoodField(f) && FieldPieces(s, i, f) && v == i + |f.0| + 2
    ensures NameForm(s, i, Slice(i, i + |f.0|), v) && IsToken(s[i])
  {
    StandsAll(s, i, f.0);
    StandsAt(s, i + |f.0|, ": ", 0);
    StandsAt(s, i + |f.0|, ": ", 1);
    FirstOfValue(s, v, f.1);
  }

  lemma FirstOfValue(s: string, v: nat, value: string)
    requires (|value| > 0 ==> !IsBlank(value[0])) && Stands(s, v, value) && Stands(s, v + |value|, "\r\n")
    ensures v < |s| && !IsBlank(s[v])
  {
    if |value| > 0 {
      StandsAt(s, v, value, 0);
    } else {
      StandsAt(s, v, "\r\n", 0);
    }
  }

  /** The fields and the empty line after them. */
  function Tail(fields: seq<Field>): (t: string)
    ensures |t| == |FieldLines(fields)| + 2
  {
    if |fields| == 0 then "\r\n" else FieldLine(fields[0]) + Tail(fields[1..])
  }

  lemma {:induction false} TailIs(fields: seq<Field>)
    ensures Tail(fields) == FieldLines(fields) + "\r\n"
  {
    if |fields| > 0 {
      TailIs(fields[1..]);
      SeqAssoc(FieldLine(fields[0]), FieldLines(fields[1..]), "\r\n");
    }
  }

  lemma TailStands(s: string, i: nat, fields: seq<Field>, k: nat)
    requires |fields| > 0 && Stands(s, i, Tail(fields)) && k == i + LineLength(fields[0])
    ensures Stands(s, i, FieldLine(fields[0])) && Stands(s, k, Tail(fields[1..]))
  {
    TailCons(fields);
    StandsSplit(s, i, Tail(fields), FieldLine(fields[0]), Tail(fields[1..]), k);
  }

  lemma TailCons(fields: seq<Field>)
    requires |fields| > 0
    ensures Tail(fields) == FieldLine(fields[0]) + Tail(fields[1..])
    ensures |Tail(fields)| == LineLength(fields[0]) + |Tail(fields[1..])|
  {
  }

  lemma FirstParses(s: string, i: nat, n: nat, fields: seq<Field>, k: nat)
    requires |fields| > 0 && GoodField(fields[0]) && Stands(s, i, Tail(fields)) && k == i + LineLength(fields[0])
    ensures i < k <= |s| && s[i] != '\r' && s[i] != '\n'
    ensures HeaderAt(s, i, n > 0) == Done(HeaderOf(i, fields[0]), k)
    ensures ReadsField(s, HeaderOf(i, fields[0]), fields[0])
    ensures Stands(s, k, Tail(fields[1..]))
  {
    TailStands(s, i, fields, k);
    FieldHasPieces(s, i, fields[0]);
    FieldHasForm(s, i, n, fields[0]);
    HeaderExactly(s, i, n, HeaderOf(i, fields[0]), k);
  }

  lemma {:induction false} FieldsParse(s: string, i: nat, n: nat, max: nat, fields: seq<Field>, e: nat)
    requires GoodFields(fields) && n + |fields| <= max && Stands(s, i, Tail(fields)) && e == i + |Tail(fields)|
    ensures Headers(s, i, n, max) == Done(Slices(i, fields), e)
    decreases |fields|
  {
    if |fields| == 0 {
      NoFieldsParse(s, i, n, max);
    } else {
      var k := i + LineLength(fields[0]);
      TailCons(fields);
      FirstParses(s, i, n, fields, k);
      FieldsParse(s, k, n + 1, max, fields[1..], e);
      SlicesCons(i, fields, k);
      HeadersCons(s, i, n, max, HeaderOf(i, fields[0]), k, Slices(k, fields[1..]), e);
    }
  }

  lemma {:induction false} FieldsAreRead(s: string, i: nat, fields: seq<Field>)
    requires GoodFields(fields) && Stands(s, i, Tail(fields))
    ensures Reads(s, Slices(i, fields), fields)
    decreases |fields|
  {
    if |fields| > 0 {
      var k := i + LineLength(fields[0]);
      FirstParses(s, i, 0, fields, k);
      FieldsAreRead(s, k, fields[1..]);
      SlicesCons(i, fields, k);
      ReadsCons(s, HeaderOf(i, fields[0]), Slices(k, fields[1..]), fields);
    }
  }

  lemma NoFieldsParse(s: string, i: nat, n: nat, max: nat)
    requires n <= max && Stands(s, i, "\r\n")
    ensures Headers(s, i, n, max) == Done([], i + 2)
  {
    CrlfParses(s, i);
    StandsAt(s, i, "\r\n", 0);
  }

  lemma SlicesCons(i: nat, fields: seq<Field>, k: nat)
    requires |fields| > 0 && k == i + LineLength(fields[0])
    ensures Slices(i, fields) == [HeaderOf(i, fields[0])] + Slices(k, fields[1..])
  {
  }

  lemma ReadsCons(s: string, h: Header, hs: seq<Header>, fields: seq<Field>)
    requires |fields| > 0 && Reads(s, hs, fields[1..]) && ReadsField(s, h, fields[0])
    ensures Reads(s, [h] + hs, fields)
  {
    var all := [h] + hs;
    forall k | 0 <= k < |all|
      ensures ReadsField(s, all[k], fields[k])
    {
      if k > 0 {
        assert all[k] == hs[k - 1] && fields[k] == fields[1..][k - 1];
      }
    }
  }

  lemma {:induction false} DecimalIsGood(n: nat)
    ensures GoodText(Decimal(n)) && forall k :: 0 <= k < |Decimal(n)| ==> !IsBlank(Decimal(n)[k])
  {
    assert forall k :: 0 <= k < |Decimal(n)| ==> IsDigit(Decimal(n)[k]);
  }

  lemma LengthIsGood(n: nat)
    ensures GoodField(("Content-Length", Decimal(n)))
  {
    DecimalIsGood(n);
  }

  /** What send_request prints is read as what it was given. */
  lemma RequestRoundTrip(verb: string, path: string, fields: seq<Field>, bodySize: nat, rest: string, max: nat)
    requires GoodToken(verb) && GoodPath(path) && GoodFields(WithValue(fields))
    requires |RequestFields(fields, bodySize)| <= max
    ensures var t := RequestText(verb, path, fields, bodySize);
            var r := Request(t + rest, max);
            && r.Done? && r.next == |t| && r.value.first.minor == 1
            && Text(t + rest, r.value.first.verb) == verb && Text(t + rest, r.value.first.path) == path
            && Reads(t + rest, r.value.headers, RequestFields(fields, bodySize))
  {
    var all := RequestFields(fields, bodySize);
    RequestFieldsGood(fields, bodySize);
    RequestStands(verb, path, fields, bodySize, rest);
    var s := RequestText(verb, path, fields, bodySize) + rest;
    LineHasPieces(s, verb, path);
    RequestLineParses(s, verb, path);
    RequestReads(s, verb, path, all, |verb| + |path| + 12, max);
  }

  lemma RequestFieldsGood(fields: seq<Field>, bodySize: nat)
    requires GoodFields(WithValue(fields))
    ensures GoodFields(RequestFields(fields, bodySize))
  {
    LengthIsGood(bodySize);
  }

  lemma RequestStands(verb: string, path: string, fields: seq<Field>, bodySize: nat, rest: string)
    ensures var t := RequestText(verb, path, fields, bodySize);
            var all := RequestFields(fields, bodySize);
            && Stands(t + rest, 0, verb + " " + path + " HTTP/1.1\r\n")
            && Stands(t + rest, |verb| + |path| + 12, Tail(all)) && |t| == |verb| + |path| + 12 + |Tail(all)|
  {
    var t, all := RequestText(verb, path, fields, bodySize), RequestFields(fields, bodySize);
    var line := verb + " " + path + " HTTP/1.1\r\n";
    TailIs(all);
    assert t == line + Tail(all);
    assert Stands(t + rest, 0, t);
    StandsParts(t + rest, 0, line, Tail(all));
  }

  lemma RequestReads(s: string, verb: string, path: string, all: seq<Field>, i: nat, max: nat)
    requires GoodFields(all) && |all| <= max && Stands(s, i, Tail(all))
    requires RequestLineOf(s) == Done(PrintedLine(verb, path), i)
    ensures Request(s, max) == Done(Head(PrintedLine(verb, path), Slices(i, all)), i + |Tail(all)|)
    ensures Reads(s, Slices(i, all), all)
  {
    FieldsParse(s, i, 0, max, all, i + |Tail(all)|);
    FieldsAreRead(s, i, all);
  }

  function PrintedLine(verb: string, path: string): RequestLine {
    RequestLine(Slice(0, |verb|), Slice(|verb| + 1, |verb| + 1 + |path|), 1)
  }

  /** Where the pieces of the request line stand. */
  predicate LinePieces(s: string, verb: string, path: string) {
    var v := |verb| + |path| + 2;
    && Stands(s, 0, verb) && Stands(s, |verb|, " ") && Stands(s, |verb| + 1, path) && Stands(s, v - 1, " ")
    && Stands(s, v, "HTTP/1.1") && Stands(s, v + 8, "\r\n")
  }

  lemma LineHasPieces(s: string, verb: string, path: string)
    requires Stands(s, 0, verb + " " + path + " HTTP/1.1\r\n")
    ensures LinePieces(s, verb, path)
  {
    var v := |verb| + |path| + 2;
    StandsSplit(s, 0, verb + " " + path + " HTTP/1.1\r\n", verb + " " + path, " HTTP/1.1\r\n", v - 1);
    StandsSplit(s, 0, verb + " " + path, verb + " ", path, |verb| + 1);
    StandsSplit(s, 0, verb + " ", verb, " ", |verb|);
    StandsSplit(s, v - 1, " HTTP/1.1\r\n", " ", "HTTP/1.1\r\n", v);
    StandsSplit(s, v, "HTTP/1.1\r\n", "HTTP/1.1", "\r\n", v + 8);
  }

  lemma RequestLineParses(s: string, verb: string, path: string)
    requires GoodToken(verb) && GoodPath(path) && LinePieces(s, verb, path)
    ensures var r := PrintedLine(verb, path);
            && RequestLineOf(s) == Done(r, |verb| + |path| + 12)
            && Text(s, r.verb) == verb && Text(s, r.path) == path
  {
    LineTexts(s, verb, path, PrintedLine(verb, path));
    LineHasForm(s, verb, path, |verb| + |path| + 2);
    FormIsRequestLine(s, PrintedLine(verb, path), |verb| + |path| + 2, |verb| + |path| + 12);
  }

  lemma LineTexts(s: string, verb: string, path: string, r: RequestLine)
    requires Stands(s, 0, verb) && Stands(s, |verb| + 1, path) && r == PrintedLine(verb, path)
    ensures Text(s, r.verb) == verb && Text(s, r.path) == path
  {
    StandsText(s, r.verb.from, verb, r.verb.to);
    StandsText(s, r.path.from, path, r.path.to);
  }

  lemma LineHasForm(s: string, verb: string, path: string, v: nat)
    requires GoodToken(verb) && GoodPath(path) && LinePieces(s, verb, path) && v == |verb| + |path| + 2
    ensures RequestLineForm(s, PrintedLine(verb, path), v, v + 10)
  {
    CrlfParses(s, v + 8);
    VersionParses(s, v);
    StandsAll(s, 0, verb);
    StandsAll(s, |verb|, " ");
    StandsAll(s, |verb| + 1, path);
    StandsAll(s, v - 1, " ");
  }

  lemma VersionParses(s: string, v: nat)
    requires Stands(s, v, "HTTP/1.1") && v + 8 < |s|
    ensures VersionForm(s, v, 1)
  {
    StandsSplit(s, v, "HTTP/1.1", "HTTP/1.", "1", v + 7);
    StandsAt(s, v + 7, "1", 0);
    StandsText(s, v, "HTTP/1.", v + 7);
  }

  // ---------- responses ----------

  /** How many spaces a text begins with. */
  function Lead(text: string): (n: nat)
    ensures n <= |text|
  {
    FirstStop(text, 0, NotSpace)
  }

  lemma ThreeDigits(code: nat)
    ensures |Decimal(code)| == 3 <==> 100 <= code <= 999
    ensures |Decimal(code)| < 3 <==> code < 100
    ensures 100 <= code <= 999 ==>
              var d := Decimal(code);
              100 * Digit(d[0]) + 10 * Digit(d[1]) + Digit(d[2]) == code
  {
    assert code >= 10 ==> Decimal(code) == Decimal(code / 10) + [('0' as int + code % 10) as char];
    var tens := code / 10;
    assert tens >= 10 ==> Decimal(tens) == Decimal(tens / 10) + [('0' as int + tens % 10) as char];
    var hundreds := tens / 10;
    assert hundreds >= 10 ==> Decimal(hundreds) == Decimal(hundreds / 10) + [('0' as int + hundreds % 10) as char];
    assert hundreds < 10 ==> Decimal(hundreds) == [('0' as int + hundreds % 10) as char];
  }

  /** Where the pieces of the status line stand. */
  predicate StatusPieces(s: string, code: nat, text: string) {
    var d := Decimal(code);
    && Stands(s, 0, "HTTP/1.1") && Stands(s, 8, " ") && Stands(s, 9, d) && Stands(s, 9 + |d|, " ")
    && Stands(s, 10 + |d|, text) && Stands(s, 10 + |d| + |text|, "\r\n")
  }

  lemma StatusHasPieces(s: string, code: nat, text: string)
    requires Stands(s, 0, "HTTP/1.1 " + Decimal(code) + " " + text + "\r\n")
    ensures StatusPieces(s, code, text)
  {
    var d := Decimal(code);
    StandsSplit(s, 0, "HTTP/1.1 " + d + " " + text + "\r\n", "HTTP/1.1 " + d + " " + text, "\r\n", 10 + |d| + |text|);
    StandsSplit(s, 0, "HTTP/1.1 " + d + " " + text, "HTTP/1.1 " + d + " ", text, 10 + |d|);
    StandsSplit(s, 0, "HTTP/1.1 " + d + " ", "HTTP/1.1 " + d, " ", 9 + |d|);
    StandsSplit(s, 0, "HTTP/1.1 " + d, "HTTP/1.1 ", d, 9);
    StandsSplit(s, 0, "HTTP/1.1 ", "HTTP/1.1", " ", 8);
  }

  function PrintedStatus(code: nat, text: string): StatusLine {
    StatusLine(1, code, Slice(13 + Lead(text), 13 + |text|))
  }

  lemma StatusTextParses(s: string, text: string)
    requires GoodText(text) && Stands(s, 12, " ") && Stands(s, 13, text) && Stands(s, 13 + |text|, "\r\n")
    ensures LineForm(s, 12, 13 + |text|, 15 + |text|) && 13 + |text| < |s|
    ensures SpacesIn(s, 12, 13 + Lead(text)) && s[13 + Lead(text)] != ' '
  {
    var l := 13 + |text|;
    CrlfParses(s, l);
    StandsAt(s, l, "\r\n", 0);
    StandsAll(s, 12, " ");
    StandsAll(s, 13, text);
    assert forall k :: 0 <= k < Lead(text) ==> !NotSpace(text[k]);
  }

  lemma StatusLineParses(s: string, code: nat, text: string)
    requires 100 <= code <= 999 && GoodText(text) && StatusPieces(s, code, text)
    ensures StatusLineOf(s) == Done(PrintedStatus(code, text), 15 + |text|)
    ensures Text(s, PrintedStatus(code, text).message) == text[Lead(text)..]
  {
    ThreeDigits(code);
    VersionParses(s, 0);
    StandsAll(s, 8, " ");
    StandsAll(s, 9, Decimal(code));
    StatusTextParses(s, text);
    FormIsStatusLine(s, PrintedStatus(code, text), 9, 15 + |text|);
    StandsText(s, 13, text, 13 + |text|);
    assert s[13 + Lead(text)..13 + |text|] == s[13..13 + |text|][Lead(text)..];
  }

  /** A code that does not have three digits is refused. */
  lemma StatusLineRefused(s: string, code: nat, text: string)
    requires !(100 <= code <= 999) && GoodText(text) && StatusPieces(s, code, text)
    requires 14 + |Decimal(code)| + |text| <= |s|
    ensures StatusLineOf(s).Bad?
  {
    var d := Decimal(code);
    ThreeDigits(code);
    VersionParses(s, 0);
    VersionExactly(s, 0, 1);
    StandsAll(s, 8, " ");
    StandsAll(s, 9, d);
    SpacesExactly(s, 8, 9);
    if |d| > 3 {
      LongCodeLine(s, d, text);
    } else {
      StandsAt(s, 9 + |d|, " ", 0);
    }
  }

  lemma LongCodeLine(s: string, d: string, text: string)
    requires |d| > 3 && (forall k :: 0 <= k < |d| ==> IsDigit(d[k])) && GoodText(text)
    requires Stands(s, 9, d) && Stands(s, 9 + |d|, " ") && Stands(s, 10 + |d|, text) && Stands(s, 10 + |d| + |text|, "\r\n")
    ensures Line(s, 12) == Done(Slice(12, 10 + |d| + |text|), 12 + |d| + |text|) && s[12] != ' '
  {
    var l := 10 + |d| + |text|;
    StandsAll(s, 9, d);
    StandsAll(s, 9 + |d|, " ");
    StandsAll(s, 10 + |d|, text);
    CrlfParses(s, l);
    LineExactly(s, 12, l, l + 2);
  }

  lemma ResponseStands(code: nat, text: string, fields: seq<Field>, bodySize: nat, rest: string)
    ensures var t := ResponseText(code, text, fields, bodySize);
            var all := ResponseFields(fields, bodySize);
            var i := 12 + |Decimal(code)| + |text|;
            && Stands(t + rest, 0, "HTTP/1.1 " + Decimal(code) + " " + text + "\r\n")
            && Stands(t + rest, i, Tail(all)) && |t| == i + |Tail(all)|
  {
    var t, all := ResponseText(code, text, fields, bodySize), ResponseFields(fields, bodySize);
    var line := "HTTP/1.1 " + Decimal(code) + " " + text + "\r\n";
    TailIs(all);
    assert t == line + Tail(all);
    assert Stands(t + rest, 0, t);
    StandsSplit(t + rest, 0, t, line, Tail(all), |line|);
  }

  lemma ResponseReads(s: string, first: StatusLine, all: seq<Field>, i: nat, max: nat)
    requires GoodFields(all) && |all| <= max && Stands(s, i, Tail(all)) && StatusLineOf(s) == Done(first, i)
    ensures Response(s, max) == Done(Head(first, Slices(i, all)), i + |Tail(all)|)
    ensures Reads(s, Slices(i, all), all)
  {
    FieldsParse(s, i, 0, max, all, i + |Tail(all)|);
    FieldsAreRead(s, i, all);
  }

  /** What send_response prints is read as what it was given, less the spaces the text begins with. */
  lemma ResponseRoundTrip(code: nat, text: string, fields: seq<Field>, bodySize: nat, rest: string, max: nat)
    requires 100 <= code <= 999 && GoodText(text) && GoodFields(fields)
    requires |ResponseFields(fields, bodySize)| <= max
    ensures var t := ResponseText(code, text, fields, bodySize);
            var r := Response(t + rest, max);
            && r.Done? && r.next == |t| && r.value.first.minor == 1 && r.value.first.status == code
            && Text(t + rest, r.value.first.message) == text[Lead(text)..]
            && Reads(t + rest, r.value.headers, ResponseFields(fields, bodySize))
  {
    var s := ResponseText(code, text, fields, bodySize) + rest;
    LengthIsGood(bodySize);
    ThreeDigits(code);
    ResponseStands(code, text, fields, bodySize, rest);
    StatusHasPieces(s, code, text);
    StatusLineParses(s, code, text);
    ResponseReads(s, PrintedStatus(code, text), ResponseFields(fields, bodySize), 15 + |text|, max);
  }

  /** A response is read back if and only if its code has three digits. */
  lemma ResponseReadExactly(code: nat, text: string, fields: seq<Field>, bodySize: nat, rest: string, max: nat)
    requires GoodText(text) && GoodFields(fields) && |ResponseFields(fields, bodySize)| <= max
    ensures Response(ResponseText(code, text, fields, bodySize) + rest, max).Done? <==> 100 <= code <= 999
  {
    var s := ResponseText(code, text, fields, bodySize) + rest;
    if 100 <= code <= 999 {
      ResponseRoundTrip(code, text, fields, bodySize, rest, max);
    } else {
      ResponseStands(code, text, fields, bodySize, rest);
      StatusHasPieces(s, code, text);
      StatusLineRefused(s, code, text);
    }
  }

  // ---------- the length of the body ----------

  /** A header that says `n` bytes follow the head. */
  predicate SaysLength(s: string, h: Header, n: nat) {
    && h.name.Some? && Text(s, h.name.value) == "Content-Length"
    && AllDigits(Text(s, h.value)) && DecimalValue(Text(s, h.value)) == n
  }

  lemma LastIsLength(s: string, hs: seq<Header>, all: seq<Field>, n: nat)
    requires Reads(s, hs, all) && |all| > 0 && all[|all| - 1] == ("Content-Length", Decimal(n))
    ensures SaysLength(s, hs[|hs| - 1], n)
  {
    DecimalReads(n);
    assert ReadsField(s, hs[|hs| - 1], all[|all| - 1]);
  }

  /** A request with a body and no length of the caller's: the reader finds one length, that of the body. */
  lemma RequestLengthIsRead(verb: string, path: string, fields: seq<Field>, bodySize: nat, rest: string, max: nat)
    requires GoodToken(verb) && GoodPath(path) && GoodFields(WithValue(fields))
    requires |RequestFields(fields, bodySize)| <= max && bodySize > 0 && !HasKey(fields, "Content-Length")
    ensures var s := RequestText(verb, path, fields, bodySize) + rest;
            && Request(s, max).Done?
            && var hs := Request(s, max).value.headers;
            && |hs| > 0 && SaysLength(s, hs[|hs| - 1], bodySize)
            && forall k :: 0 <= k < |hs| - 1 ==> hs[k].name.Some? && Text(s, hs[k].name.value) != "Content-Length"
  {
    var s, all := RequestText(verb, path, fields, bodySize) + rest, RequestFields(fields, bodySize);
    RequestRoundTrip(verb, path, fields, bodySize, rest, max);
    var hs := Request(s, max).value.headers;
    LastIsLength(s, hs, all, bodySize);
    NoKeyAdded(fields, "Content-Length");
    forall k | 0 <= k < |hs| - 1
      ensures hs[k].name.Some? && Text(s, hs[k].name.value) != "Content-Length"
    {
      assert ReadsField(s, hs[k], all[k]) && all[k] == WithValue(fields)[k];
    }
  }

  /** The last header of a response with a body is its length, also when the caller has given one. */
  lemma ResponseLengthIsRead(code: nat, text: string, fields: seq<Field>, bodySize: nat, rest: string, max: nat)
    requires 100 <= code <= 999 && GoodText(text) && GoodFields(fields)
    requires |ResponseFields(fields, bodySize)| <= max && bodySize > 0
    ensures var s := ResponseText(code, text, fields, bodySize) + rest;
            && Response(s, max).Done?
            && var hs := Response(s, max).value.headers;
            && |hs| == |fields| + 1 && SaysLength(s, hs[|hs| - 1], bodySize)
  {
    var s := ResponseText(code, text, fields, bodySize) + rest;
    ResponseRoundTrip(code, text, fields, bodySize, rest, max);
    LastIsLength(s, Response(s, max).value.headers, ResponseFields(fields, bodySize), bodySize);
  }
}
