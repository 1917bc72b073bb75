/**
 The head of an HTTP/1.x message, scanned a byte at a time: what the fast scanning loops of the parser
 must agree with.  Positions count from the start of the buffer.
 */
module HttpSyntax {
  import opened Options

  /** A parse gets to position `next`, is refused (-1), or needs more bytes to decide (-2). */
  datatype Res<+T> = Done(value: T, next: nat) | Bad | More
  {
    predicate IsFailure() {
      !Done?
    }

    function PropagateFailure<U>(): Res<U>
      requires IsFailure()
    {
      if Bad? then Bad else More
    }

    function Extract(): (r: Res<T>)
      requires !IsFailure()
      ensures r.Done?
    {
      this
    }
  }

  datatype Slice = Slice(from: nat, to: nat)

  /** Without a name, a header continues the one before it. */
  datatype Header = Header(name: Option<Slice>, value: Slice)

  datatype RequestLine = RequestLine(verb: Slice, path: Slice, minor: nat)

  datatype StatusLine = StatusLine(minor: nat, status: nat, message: Slice)

  // ---------- characters ----------

  const DEL: char := '\U{7f}'

  predicate IsDigit(c: char) {
    '0' <= c <= '9'
  }

  /** token_char_map */
  predicate IsToken(c: char) {
    || IsDigit(c) || 'A' <= c <= 'Z' || 'a' <= c <= 'z'
    || c == '!' || '#' <= c <= '\'' || c == '*' || c == '+' || c == '-' || c == '.'
    || '^' <= c <= '`' || c == '|' || c == '~'
  }

  predicate NonToken(c: char) {
    !IsToken(c)
  }

  /** Control characters, of which HT is accepted. */
  predicate IsControl(c: char) {
    (c < ' ' && c != '\t') || c == DEL
  }

  predicate EndsPath(c: char) {
    c <= ' ' || c == DEL
  }

  predicate NotSpace(c: char) {
    c != ' '
  }

  predicate IsBlank(c: char) {
    c == ' ' || c == '\t'
  }

  predicate NotBlank(c: char) {
    !IsBlank(c)
  }

  // ---------- pieces ----------

  /** The first position from `i` on whose byte satisfies `stop`, or the end. */
  function FirstStop(s: string, i: nat, stop: char -> bool): (j: nat)
    requires i <= |s|
    ensures i <= j <= |s|
    ensures forall k :: i <= k < j ==> !stop(s[k])
    ensures j < |s| ==> stop(s[j])
    decreases |s| - i
  {
    if i == |s| || stop(s[i]) then i else FirstStop(s, i + 1, stop)
  }

  /** CRLF or LF. */
  function Newline(s: string, i: nat): (r: Res<()>)
    requires i <= |s|
    ensures r.Done? ==> i < r.next <= |s|
  {
    if i == |s| then More
    else if s[i] == '\r' then
      if i + 1 == |s| then More else if s[i + 1] == '\n' then Done((), i + 2) else Bad
    else if s[i] == '\n' then Done((), i + 1)
    else Bad
  }

  /** parse_token: token characters up to the byte `end`. */
  function Token(s: string, i: nat, end: char): (r: Res<Slice>)
    requires i <= |s|
    ensures r.Done? ==> i <= r.next < |s| && r.value == Slice(i, r.next)
  {
    var j := FirstStop(s, i, NonToken);
    if j == |s| then More else if s[j] == end then Done(Slice(i, j), j) else Bad
  }

  /** get_token_to_eol: the rest of the line. */
  function Line(s: string, i: nat): (r: Res<Slice>)
    requires i <= |s|
    ensures r.Done? ==> i <= r.value.to < r.next <= |s| && r.value.from == i
  {
    var j := FirstStop(s, i, IsControl);
    var e :- Newline(s, j);
    Done(Slice(i, j), e.next)
  }

  /** ADVANCE_TOKEN: up to a space. */
  function Path(s: string, i: nat): (r: Res<Slice>)
    requires i <= |s|
    ensures r.Done? ==> i <= r.next < |s| && r.value == Slice(i, r.next)
  {
    var j := FirstStop(s, i, EndsPath);
    if j == |s| then More else if s[j] == ' ' then Done(Slice(i, j), j) else Bad
  }

  /** Past position `i` and the spaces after it. */
  function Spaces(s: string, i: nat): (r: Res<()>)
    requires i < |s|
    ensures r.Done? ==> i < r.next < |s|
  {
    var j := FirstStop(s, i + 1, NotSpace);
    if j == |s| then More else Done((), j)
  }

  function Digit(c: char): nat
    requires IsDigit(c)
  {
    (c as int) - ('0' as int)
  }

  /** parse_http_version: HTTP/1. and a digit, with at least one byte after it. */
  function Version(s: string, i: nat): (r: Res<nat>)
    requires i <= |s|
    ensures r.Done? ==> r.next == i + 8 < |s| && r.value < 10
  {
    if |s| < i + 9 then More
    else if s[i..i + 7] == "HTTP/1." && IsDigit(s[i + 7]) then Done(Digit(s[i + 7]), i + 8)
    else Bad
  }

  /** The end of a value without the blanks before it. */
  function TrimmedEnd(s: string, from: nat, to: nat): (e: nat)
    requires from <= to <= |s|
    ensures from <= e <= to
    ensures e > from ==> !IsBlank(s[e - 1])
    ensures forall k :: e <= k < to ==> IsBlank(s[k])
  {
    if from < to && IsBlank(s[to - 1]) then TrimmedEnd(s, from, to - 1) else to
  }

  // ---------- headers ----------

  /** A name, a colon and blanks. */
  function Name(s: string, i: nat): (r: Res<Slice>)
    requires i <= |s|
    ensures r.Done? ==> i < r.value.to < r.next < |s| && r.value.from == i
  {
    var name :- Token(s, i, ':');
    if name.next == i then Bad
    else
      var j := FirstStop(s, name.next + 1, NotBlank);
      if j == |s| then More else Done(name.value, j)
  }

  function Value(s: string, i: nat): (r: Res<Slice>)
    requires i <= |s|
    ensures r.Done? ==> i <= r.value.to < r.next <= |s| && r.value.from == i
  {
    var line :- Line(s, i);
    Done(Slice(i, TrimmedEnd(s, i, line.value.to)), line.next)
  }

  /** One header; all but the first may begin with a blank and have no name. */
  function HeaderAt(s: string, i: nat, later: bool): (r: Res<Header>)
    requires i < |s|
    ensures r.Done? ==> i < r.next <= |s|
  {
    if later && IsBlank(s[i]) then
      var value :- Value(s, i);
      Done(Header(None, value.value), value.next)
    else
      var name :- Name(s, i);
      var value :- Value(s, name.next);
      Done(Header(Some(name.value), value.value), value.next)
  }

  /** parse_headers: up to and with the empty line, when `n` headers were read before. */
  function Headers(s: string, i: nat, n: nat, max: nat): (r: Res<seq<Header>>)
    requires i <= |s| && n <= max
    ensures r.Done? ==> i < r.next <= |s| && n + |r.value| <= max
    decreases |s| - i
  {
    if i == |s| then More
    else if s[i] == '\r' || s[i] == '\n' then
      var e :- Newline(s, i);
      Done([], e.next)
    else if n == max then Bad
    else
      var h :- HeaderAt(s, i, n > 0);
      var hs :- Headers(s, h.next, n + 1, max);
      Done([h.value] + hs.value, hs.next)
  }

  // ---------- first lines ----------

  /** An empty line before a request is skipped. */
  function LeadingNewline(s: string): (r: Res<()>)
    ensures r.Done? ==> r.next <= |s|
  {
    if |s| == 0 then More
    else if s[0] == '\r' || s[0] == '\n' then Newline(s, 0)
    else Done((), 0)
  }

  function RequestLineOf(s: string): (r: Res<RequestLine>)
    ensures r.Done? ==> 0 < r.next <= |s|
  {
    var start :- LeadingNewline(s);
    var verb :- Token(s, start.next, ' ');
    var i :- Spaces(s, verb.next);
    var path :- Path(s, i.next);
    var j :- Spaces(s, path.next);
    if verb.value.from == verb.value.to || path.value.from == path.value.to then Bad
    else
      var minor :- Version(s, j.next);
      var e :- Newline(s, minor.next);
      Done(RequestLine(verb.value, path.value, minor.value), e.next)
  }

  /** The positions at which the parts of a request line end. */
  lemma RequestLineParts(s: string) returns (i0: nat, i1: nat, i2: nat, i3: nat, v: nat)
    requires RequestLineOf(s).Done?
    ensures i0 < i1 < i2 < i3 < v && v + 8 < |s|
    ensures LeadingNewline(s) == Done((), i0) && Token(s, i0, ' ') == Done(Slice(i0, i1), i1)
    ensures Spaces(s, i1) == Done((), i2) && Path(s, i2) == Done(Slice(i2, i3), i3) && Spaces(s, i3) == Done((), v)
    ensures var r := RequestLineOf(s);
            && r.value.verb == Slice(i0, i1) && r.value.path == Slice(i2, i3)
            && Version(s, v) == Done(r.value.minor, v + 8) && Newline(s, v + 8) == Done((), r.next)
  {
    i0, i1, i2 := VerbParts(s);
    i3, v := TargetParts(s, i0, i1, i2);
  }

  lemma VerbParts(s: string) returns (i0: nat, i1: nat, i2: nat)
    requires RequestLineOf(s).Done?
    ensures i0 < i1 < i2 < |s| && RequestLineOf(s).value.verb == Slice(i0, i1)
    ensures LeadingNewline(s) == Done((), i0) && Token(s, i0, ' ') == Done(Slice(i0, i1), i1) && Spaces(s, i1) == Done((), i2)
  {
    i0 := LeadingNewline(s).next;
    i1 := Token(s, i0, ' ').next;
    i2 := Spaces(s, i1).next;
  }

  lemma TargetParts(s: string, i0: nat, i1: nat, i2: nat) returns (i3: nat, v: nat)
    requires RequestLineOf(s).Done? && i0 < i1 < i2 < |s|
    requires LeadingNewline(s) == Done((), i0) && Token(s, i0, ' ') == Done(Slice(i0, i1), i1) && Spaces(s, i1) == Done((), i2)
    ensures i2 < i3 < v && v + 8 < |s| && Path(s, i2) == Done(Slice(i2, i3), i3) && Spaces(s, i3) == Done((), v)
    ensures var r := RequestLineOf(s);
            && r.value.path == Slice(i2, i3)
            && Version(s, v) == Done(r.value.minor, v + 8) && Newline(s, v + 8) == Done((), r.next)
  {
    i3 := Path(s, i2).next;
    v := Spaces(s, i3).next;
  }

  /** The message of a status line: nothing, or spaces and then the text. */
  function MessageOf(s: string, line: Slice): (r: Res<Slice>)
    requires line.from <= line.to < |s| && s[line.to] != ' '
    ensures r.Done? ==> line.from <= r.value.from <= r.value.to == line.to
  {
    if line.from == line.to then Done(line, line.to)
    else if s[line.from] == ' ' then Done(Slice(FirstStop(s, line.from, NotSpace), line.to), line.to)
    else Bad
  }

  function StatusCode(s: string, i: nat): (r: Res<nat>)
    requires i <= |s|
    ensures r.Done? ==> r.next == i + 3 < |s| && r.value < 1000
  {
    if |s| < i + 4 then More
    else if IsDigit(s[i]) && IsDigit(s[i + 1]) && IsDigit(s[i + 2]) then
      Done(100 * Digit(s[i]) + 10 * Digit(s[i + 1]) + Digit(s[i + 2]), i + 3)
    else Bad
  }

  function StatusLineOf(s: string): (r: Res<StatusLine>)
    ensures r.Done? ==> 0 < r.next <= |s|
  {
    var minor :- Version(s, 0);
    if s[minor.next] != ' ' then Bad
    else
      var i :- Spaces(s, minor.next);
      var status :- StatusCode(s, i.next);
      var line :- Line(s, status.next);
      var message :- MessageOf(s, line.value);
      Done(StatusLine(minor.value, status.value, message.value), line.next)
  }

  // ---------- heads ----------

  datatype Head<+F> = Head(first: F, headers: seq<Header>)

  function Request(s: string, max: nat): (r: Res<Head<RequestLine>>)
    ensures r.Done? ==> 0 < r.next <= |s| && |r.value.headers| <= max
  {
    var first :- RequestLineOf(s);
    var hs :- Headers(s, first.next, 0, max);
    Done(Head(first.value, hs.value), hs.next)
  }

  function Response(s: string, max: nat): (r: Res<Head<StatusLine>>)
    ensures r.Done? ==> 0 < r.next <= |s| && |r.value.headers| <= max
  {
    var first :- StatusLineOf(s);
    var hs :- Headers(s, first.next, 0, max);
    Done(Head(first.value, hs.value), hs.next)
  }

  // ---------- the check for completeness ----------

  /** is_complete: two newlines in a row, `count` of them being before position `i`. */
  function Complete(s: string, i: nat, count: nat): (r: Res<()>)
    requires i <= |s| && count < 2
    decreases |s| - i
  {
    if i == |s| then More
    else if s[i] == '\r' || s[i] == '\n' then
      var e :- Newline(s, i);
      if count == 1 then e else Complete(s, e.next, count + 1)
    else Complete(s, i + 1, 0)
  }

  /** What was there at the last call is not searched again. */
  function PreCheck(s: string, lastLen: nat): Res<()>
    requires lastLen <= |s|
  {
    Complete(s, if lastLen < 3 then 0 else lastLen - 3, 0)
  }

  function PhrRequest(s: string, max: nat, lastLen: nat): Res<Head<RequestLine>>
    requires lastLen <= |s|
  {
    if lastLen == 0 then Request(s, max)
    else
      var _ :- PreCheck(s, lastLen);
      Request(s, max)
  }

  function PhrResponse(s: string, max: nat, lastLen: nat): Res<Head<StatusLine>>
    requires lastLen <= |s|
  {
    if lastLen == 0 then Response(s, max)
    else
      var _ :- PreCheck(s, lastLen);
      Response(s, max)
  }

  function PhrHeaders(s: string, max: nat, lastLen: nat): Res<seq<Header>>
    requires lastLen <= |s|
  {
    if lastLen == 0 then Headers(s, 0, 0, max)
    else
      var _ :- PreCheck(s, lastLen);
      Headers(s, 0, 0, max)
  }
}
