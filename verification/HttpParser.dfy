/**
 The parser itself: a cursor moved by loops that skip 16 or 8 bytes at a time where they can.  Every method
 gives the answer of the byte-at-a-time function it is named after.
 */
module HttpParser {
  import opened Options
  import opened HttpSyntax
  import opened HttpGrammar

  /** C strings are made of bytes. */
  ghost predicate Octets(s: string) {
    forall i :: 0 <= i < |s| ==> s[i] as int < 256
  }

  // ---------- scanning ----------

  type Ranges = seq<(char, char)>

  predicate InRanges(c: char, ranges: Ranges) {
    exists r :: r in ranges && r.0 <= c <= r.1
  }

  const TOKEN_RANGES: Ranges := [('\0', ' '), ('"', '"'), ('(', ')'), (',', ','), ('/', '/'), (':', '@'), ('[', ']'), ('{', '\U{ff}')]
  const LINE_RANGES: Ranges := [('\0', '\U{08}'), ('\U{0a}', '\U{1f}'), (DEL, DEL)]
  const PATH_RANGES: Ranges := [('\0', ' '), (DEL, DEL)]

  /** The ranges cover every byte at which a token ends. */
  lemma TokenRanges(c: char)
    requires NonToken(c) && c as int < 256
    ensures InRanges(c, TOKEN_RANGES)
  {
    assert ('\0', ' ') in TOKEN_RANGES && ('"', '"') in TOKEN_RANGES && ('(', ')') in TOKEN_RANGES
        && (',', ',') in TOKEN_RANGES && ('/', '/') in TOKEN_RANGES && (':', '@') in TOKEN_RANGES
        && ('[', ']') in TOKEN_RANGES && ('{', '\U{ff}') in TOKEN_RANGES;
  }

  /** The ranges are the control characters. */
  lemma LineRanges(c: char)
    ensures IsControl(c) <==> InRanges(c, LINE_RANGES)
  {
    assert ('\0', '\U{08}') in LINE_RANGES && ('\U{0a}', '\U{1f}') in LINE_RANGES && (DEL, DEL) in LINE_RANGES;
  }

  lemma PathRanges(c: char)
    ensures EndsPath(c) <==> InRanges(c, PATH_RANGES)
  {
    assert ('\0', ' ') in PATH_RANGES && (DEL, DEL) in PATH_RANGES;
  }

  /** _mm_cmpestri: the first of 16 bytes that lies in a range, or 16. */
  method FirstOf16(s: string, i: nat, ranges: Ranges) returns (r: nat)
    requires i + 16 <= |s|
    ensures r <= 16 && (forall k :: i <= k < i + r ==> !InRanges(s[k], ranges))
    ensures r < 16 ==> InRanges(s[i + r], ranges)
  {
    r := 0;
    while r < 16 && !AnyRange(s[i + r], ranges)
      invariant r <= 16 && forall k :: i <= k < i + r ==> !InRanges(s[k], ranges)
    {
      r := r + 1;
    }
  }

  function AnyRange(c: char, ranges: Ranges): (b: bool)
    ensures b <==> InRanges(c, ranges)
  {
    if |ranges| == 0 then false
    else if ranges[0].0 <= c <= ranges[0].1 then
      assert ranges[0] in ranges;
      true
    else
      assert forall r :: r in ranges <==> r == ranges[0] || r in ranges[1..];
      AnyRange(c, ranges[1..])
  }

  /** findchar_fast; without the instruction nothing is skipped. */
  method FindCharFast(s: string, i: nat, ranges: Ranges, sse: bool) returns (j: nat, found: bool)
    requires i <= |s|
    ensures i <= j <= |s| && (forall k :: i <= k < j ==> !InRanges(s[k], ranges))
    ensures found ==> j < |s| && InRanges(s[j], ranges)
  {
    j, found := i, false;
    if sse && |s| - i >= 16 {
      var left := (|s| - i) / 16 * 16;
      while true
        invariant left % 16 == 0 && 0 < left && j + left <= |s|
        invariant i <= j && !found && forall k :: i <= k < j ==> !InRanges(s[k], ranges)
        decreases left
      {
        var r := FirstOf16(s, j, ranges);
        if r != 16 {
          j, found := j + r, true;
          break;
        }
        j := j + 16;
        left := left - 16;
        if left == 0 {
          break;
        }
      }
    }
  }

  method ParseToken(s: string, start: nat, end: char, sse: bool) returns (r: Res<Slice>)
    requires Octets(s) && start <= |s| && !IsToken(end)
    ensures r == Token(s, start, end)
  {
    var i, found := FindCharFast(s, start, TOKEN_RANGES, sse);
    forall k | start <= k < i
      ensures !NonToken(s[k])
    {
      if NonToken(s[k]) { TokenRanges(s[k]); }
    }
    if !found && i == |s| {
      FirstStopIs(s, start, NonToken, i);
      return More;
    }
    while true
      invariant start <= i < |s| && forall k :: start <= k < i ==> !NonToken(s[k])
      decreases |s| - i
    {
      if s[i] == end {
        FirstStopIs(s, start, NonToken, i);
        break;
      } else if !IsToken(s[i]) {
        FirstStopIs(s, start, NonToken, i);
        return Bad;
      }
      i := i + 1;
      if i == |s| {
        FirstStopIs(s, start, NonToken, i);
        return More;
      }
    }
    r := Done(Slice(start, i), i);
  }

  predicate IsPrintable(c: char) {
    ' ' <= c < DEL
  }

  /** The loop that looks at eight bytes a turn; it ends early at a control character. */
  method SkipEights(s: string, start: nat) returns (i: nat, found: bool)
    requires start <= |s|
    ensures start <= i <= |s| && (forall k :: start <= k < i ==> !IsControl(s[k]))
    ensures found ==> i < |s| && IsControl(s[i])
  {
    i, found := start, false;
    while |s| - i >= 8
      invariant start <= i <= |s| && forall k :: start <= k < i ==> !IsControl(s[k])
      decreases |s| - i
    {
      var n := 0;
      ghost var from := i;
      while n < 8 && IsPrintable(s[i])
        invariant 0 <= n <= 8 && i == from + n && start <= i && i + (8 - n) <= |s|
        invariant forall k :: start <= k < i ==> !IsControl(s[k])
        decreases 8 - n
      {
        i, n := i + 1, n + 1;
      }
      if n < 8 {
        if (s[i] < ' ' && s[i] != '\t') || s[i] == DEL {
          return i, true;
        }
        i := i + 1;
      }
    }
  }

  method GetTokenToEol(s: string, start: nat, sse: bool) returns (r: Res<Slice>)
    requires start <= |s|
    ensures r == Line(s, start)
  {
    var i, found;
    if sse {
      i, found := FindCharFast(s, start, LINE_RANGES, sse);
    } else {
      i, found := SkipEights(s, start);
    }
    forall k | start <= k < |s|
      ensures IsControl(s[k]) <==> InRanges(s[k], LINE_RANGES)
    {
      LineRanges(s[k]);
    }
    if !found {
      while true
        invariant start <= i <= |s| && forall k :: start <= k < i ==> !IsControl(s[k])
        decreases |s| - i
      {
        if i == |s| {
          FirstStopIs(s, start, IsControl, i);
          return More;
        }
        if !IsPrintable(s[i]) {
          if (s[i] < ' ' && s[i] != '\t') || s[i] == DEL {
            break;
          }
        }
        i := i + 1;
      }
    }
    FirstStopIs(s, start, IsControl, i);
    if s[i] == '\r' {
      if i + 1 == |s| {
        return More;
      }
      if s[i + 1] != '\n' {
        return Bad;
      }
      return Done(Slice(start, i), i + 2);
    } else if s[i] == '\n' {
      return Done(Slice(start, i), i + 1);
    }
    r := Bad;
  }

  method AdvanceToken(s: string, start: nat, sse: bool) returns (r: Res<Slice>)
    requires start <= |s|
    ensures r == Path(s, start)
  {
    var i, found := FindCharFast(s, start, PATH_RANGES, sse);
    forall k | start <= k < i
      ensures !EndsPath(s[k])
    {
      PathRanges(s[k]);
    }
    if !found && i == |s| {
      FirstStopIs(s, start, EndsPath, i);
      return More;
    }
    while true
      invariant start <= i < |s| && forall k :: start <= k < i ==> !EndsPath(s[k])
      decreases |s| - i
    {
      if s[i] == ' ' {
        FirstStopIs(s, start, EndsPath, i);
        break;
      } else if !IsPrintable(s[i]) {
        if s[i] < ' ' || s[i] == DEL {
          FirstStopIs(s, start, EndsPath, i);
          return Bad;
        }
      }
      i := i + 1;
      if i == |s| {
        FirstStopIs(s, start, EndsPath, i);
        return More;
      }
    }
    r := Done(Slice(start, i), i);
  }

  // do { ++buf; CHECK_EOF(); } while (*buf == ' ')
  method SkipSpaces(s: string, start: nat) returns (r: Res<()>)
    requires start < |s|
    ensures r == Spaces(s, start)
  {
    var i := start + 1;
    while true
      invariant start < i <= |s| && forall k :: start < k < i ==> !NotSpace(s[k])
      decreases |s| - i
    {
      if i == |s| {
        FirstStopIs(s, start + 1, NotSpace, i);
        return More;
      }
      if s[i] != ' ' {
        FirstStopIs(s, start + 1, NotSpace, i);
        return Done((), i);
      }
      i := i + 1;
    }
  }

  method IsComplete(s: string, lastLen: nat) returns (r: Res<()>)
    requires lastLen <= |s|
    ensures r == PreCheck(s, lastLen)
  {
    var count := 0;
    var i := if lastLen < 3 then 0 else lastLen - 3;
    while true
      invariant 0 <= i <= |s| && 0 <= count < 2 && PreCheck(s, lastLen) == Complete(s, i, count)
      decreases |s| - i
    {
      if i == |s| {
        return More;
      }
      if s[i] == '\r' {
        if i + 1 == |s| {
          return More;
        }
        if s[i + 1] != '\n' {
          return Bad;
        }
        i, count := i + 2, count + 1;
      } else if s[i] == '\n' {
        i, count := i + 1, count + 1;
      } else {
        i, count := i + 1, 0;
      }
      if count == 2 {
        return Done((), i);
      }
    }
  }

  method ParseHttpVersion(s: string, start: nat) returns (r: Res<nat>)
    requires start <= |s|
    ensures r == Version(s, start)
  {
    if |s| - start < 9 {
      return More;
    }
    var i := start;
    assert s[start..start + 7] == [s[i], s[i + 1], s[i + 2], s[i + 3], s[i + 4], s[i + 5], s[i + 6]];
    if s[i] != 'H' || s[i + 1] != 'T' || s[i + 2] != 'T' || s[i + 3] != 'P'
       || s[i + 4] != '/' || s[i + 5] != '1' || s[i + 6] != '.' {
      return Bad;
    }
    if s[i + 7] < '0' || '9' < s[i + 7] {
      return Bad;
    }
    r := Done((s[i + 7] as int) - ('0' as int), i + 8);
  }

  // ---------- headers ----------

  method SkipBlanks(s: string, start: nat) returns (i: nat)
    requires start <= |s|
    ensures i == FirstStop(s, start, NotBlank)
  {
    i := start;
    while i < |s| && (s[i] == ' ' || s[i] == '\t')
      invariant start <= i <= |s| && forall k :: start <= k < i ==> !NotBlank(s[k])
    {
      i := i + 1;
    }
    FirstStopIs(s, start, NotBlank, i);
  }

  method TrimEnd(s: string, from: nat, to: nat) returns (e: nat)
    requires from <= to <= |s|
    ensures e == TrimmedEnd(s, from, to)
  {
    e := to;
    while e != from
      invariant from <= e <= to && TrimmedEnd(s, from, to) == TrimmedEnd(s, from, e)
    {
      if !(s[e - 1] == ' ' || s[e - 1] == '\t') {
        break;
      }
      e := e - 1;
    }
  }

  method ParseName(s: string, start: nat, sse: bool) returns (r: Res<Slice>)
    requires Octets(s) && start <= |s|
    ensures r == Name(s, start)
  {
    var name := ParseToken(s, start, ':', sse);
    if !name.Done? {
      return name;
    }
    if name.next == start {
      return Bad;
    }
    var i := SkipBlanks(s, name.next + 1);
    if i == |s| {
      return More;
    }
    r := Done(name.value, i);
  }

  method ParseHeader(s: string, start: nat, n: nat, sse: bool) returns (r: Res<Header>)
    requires Octets(s) && start < |s|
    ensures r == HeaderAt(s, start, n > 0)
  {
    var i := start;
    var name := None;
    if !(n != 0 && (s[i] == ' ' || s[i] == '\t')) {
      var parsed := ParseName(s, i, sse);
      if !parsed.Done? {
        return parsed.PropagateFailure();
      }
      name := Some(parsed.value);
      i := parsed.next;
    }
    var line := GetTokenToEol(s, i, sse);
    if !line.Done? {
      return line.PropagateFailure();
    }
    var e := TrimEnd(s, i, line.value.to);
    r := Done(Header(name, Slice(i, e)), line.next);
  }

  function CountOf<T>(r: Res<seq<T>>): Res<nat> {
    match r
    case Done(hs, e) => Done(|hs|, e)
    case Bad => Bad
    case More => More
  }

  function After(hs: seq<Header>, r: Res<seq<Header>>): Res<seq<Header>> {
    if r.Done? then Done(hs + r.value, r.next) else r
  }

  lemma AfterNothing(r: Res<seq<Header>>)
    ensures After([], r) == r
  {
    assert r.Done? ==> [] + r.value == r.value;
  }

  lemma AfterTwice(hs: seq<Header>, h: Header, r: Res<seq<Header>>)
    ensures After(hs, After([h], r)) == After(hs + [h], r)
  {
    assert r.Done? ==> hs + ([h] + r.value) == (hs + [h]) + r.value;
  }

  lemma HeadersUnfold(s: string, i: nat, n: nat, max: nat)
    requires i < |s| && n < max && s[i] != '\r' && s[i] != '\n'
    ensures var h := HeaderAt(s, i, n > 0);
            Headers(s, i, n, max)
            == if h.Done? then After([h.value], Headers(s, h.next, n + 1, max)) else h.PropagateFailure()
  {
  }

  /** The headers go to the array the caller provides; its length is the most that is accepted. */
  method ParseHeaders(s: string, start: nat, headers: array<Header>, sse: bool) returns (r: Res<nat>)
    requires Octets(s) && start <= |s|
    modifies headers
    ensures r == CountOf(Headers(s, start, 0, headers.Length))
    ensures r.Done? ==> r.value <= headers.Length && headers[..r.value] == Headers(s, start, 0, headers.Length).value
  {
    var i, n: nat := start, 0;
    ghost var hs: seq<Header>, whole := [], Headers(s, start, 0, headers.Length);
    AfterNothing(whole);
    while true
      invariant start <= i <= |s| && n <= headers.Length
      invariant headers[..n] == hs && whole == After(hs, Headers(s, i, n, headers.Length))
      decreases |s| - i
    {
      if i == |s| {
        return More;
      }
      if s[i] == '\r' {
        if i + 1 == |s| {
          return More;
        }
        if s[i + 1] != '\n' {
          return Bad;
        }
        i := i + 2;
        break;
      } else if s[i] == '\n' {
        i := i + 1;
        break;
      }
      if n == headers.Length {
        return Bad;
      }
      var h := ParseHeader(s, i, n, sse);
      HeadersUnfold(s, i, n, headers.Length);
      if !h.Done? {
        return h.PropagateFailure();
      }
      AfterTwice(hs, h.value, Headers(s, h.next, n + 1, headers.Length));
      headers[n] := h.value;
      hs := hs + [h.value];
      i, n := h.next, n + 1;
    }
    r := Done(n, i);
  }

  // ---------- first lines ----------

  method ParseNewline(s: string, start: nat) returns (r: Res<()>)
    requires start < |s|
    ensures r == Newline(s, start)
  {
    if s[start] == '\r' {
      if start + 1 == |s| {
        return More;
      }
      if s[start + 1] != '\n' {
        return Bad;
      }
      return Done((), start + 2);
    } else if s[start] == '\n' {
      return Done((), start + 1);
    }
    r := Bad;
  }

  method ParseRequestLine(s: string, sse: bool) returns (r: Res<RequestLine>)
    requires Octets(s)
    ensures r == RequestLineOf(s)
  {
    if |s| == 0 {
      return More;
    }
    var start := Done((), 0);
    if s[0] == '\r' || s[0] == '\n' {
      start := ParseNewline(s, 0);
      if !start.Done? {
        return start.PropagateFailure();
      }
    }
    var verb := ParseToken(s, start.next, ' ', sse);
    if !verb.Done? {
      return verb.PropagateFailure();
    }
    var i := SkipSpaces(s, verb.next);
    if !i.Done? {
      return i.PropagateFailure();
    }
    var path := AdvanceToken(s, i.next, sse);
    if !path.Done? {
      return path.PropagateFailure();
    }
    var j := SkipSpaces(s, path.next);
    if !j.Done? {
      return j.PropagateFailure();
    }
    if verb.value.from == verb.value.to || path.value.from == path.value.to {
      return Bad;
    }
    var minor := ParseHttpVersion(s, j.next);
    if !minor.Done? {
      return minor.PropagateFailure();
    }
    var e := ParseNewline(s, minor.next);
    if !e.Done? {
      return e.PropagateFailure();
    }
    r := Done(RequestLine(verb.value, path.value, minor.value), e.next);
  }

  // PARSE_INT_3
  method ParseStatus(s: string, i: nat) returns (r: Res<nat>)
    requires i <= |s|
    ensures r == StatusCode(s, i)
  {
    if |s| - i < 4 {
      return More;
    }
    if s[i] < '0' || '9' < s[i] {
      return Bad;
    }
    var status := 100 * ((s[i] as int) - ('0' as int));
    if s[i + 1] < '0' || '9' < s[i + 1] {
      return Bad;
    }
    status := status + 10 * ((s[i + 1] as int) - ('0' as int));
    if s[i + 2] < '0' || '9' < s[i + 2] {
      return Bad;
    }
    status := status + ((s[i + 2] as int) - ('0' as int));
    r := Done(status, i + 3);
  }

  /** The spaces before the message are dropped; its length never falls below zero. */
  method StripMessage(s: string, line: Slice) returns (r: Res<Slice>)
    requires line.from <= line.to < |s| && s[line.to] != ' '
    ensures r == MessageOf(s, line)
  {
    if line.to == line.from {
      return Done(line, line.to);
    }
    if s[line.from] != ' ' {
      return Bad;
    }
    var i, length: nat := line.from, line.to - line.from;
    while true
      invariant line.from <= i < line.to && length == line.to - i && forall k :: line.from <= k <= i ==> !NotSpace(s[k])
      decreases line.to - i
    {
      i, length := i + 1, length - 1;
      if s[i] != ' ' {
        break;
      }
    }
    FirstStopIs(s, line.from, NotSpace, i);
    r := Done(Slice(i, i + length), line.to);
  }

  method ParseStatusLine(s: string, sse: bool) returns (r: Res<StatusLine>)
    ensures r == StatusLineOf(s)
  {
    var minor := ParseHttpVersion(s, 0);
    if !minor.Done? {
      return minor.PropagateFailure();
    }
    if s[minor.next] != ' ' {
      return Bad;
    }
    var i := SkipSpaces(s, minor.next);
    if !i.Done? {
      return i.PropagateFailure();
    }
    var status := ParseStatus(s, i.next);
    if !status.Done? {
      return status.PropagateFailure();
    }
    var line := GetTokenToEol(s, status.next, sse);
    if !line.Done? {
      return line.PropagateFailure();
    }
    var message := StripMessage(s, line.value);
    if !message.Done? {
      return message.PropagateFailure();
    }
    r := Done(StatusLine(minor.value, status.value, message.value), line.next);
  }

  // ---------- what callers see ----------

  /** The length of the head, -1 when it is malformed, -2 when it is incomplete. */
  function Code<T>(r: Res<T>): int {
    match r
    case Done(_, e) => e
    case Bad => -1
    case More => -2
  }

  method PhrParseRequest(s: string, headers: array<Header>, lastLen: nat, sse: bool)
    returns (ret: int, first: RequestLine, n: nat)
    requires Octets(s) && lastLen <= |s|
    modifies headers
    ensures ret == (match PhrRequest(s, headers.Length, lastLen) case Done(_, e) => e case Bad => -1 case More => -2)
    ensures ret >= 0 ==> n <= headers.Length && PhrRequest(s, headers.Length, lastLen).value == Head(first, headers[..n])
  {
    first, n := RequestLine(Slice(0, 0), Slice(0, 0), 0), 0;
    if lastLen != 0 {
      var complete := IsComplete(s, lastLen);
      if !complete.Done? {
        return Code(complete), first, n;
      }
    }
    var line := ParseRequestLine(s, sse);
    if !line.Done? {
      return Code(line), first, n;
    }
    first := line.value;
    var count := ParseHeaders(s, line.next, headers, sse);
    if !count.Done? {
      return Code(count), first, n;
    }
    n := count.value;
    ret := count.next;
  }

  method PhrParseResponse(s: string, headers: array<Header>, lastLen: nat, sse: bool)
    returns (ret: int, first: StatusLine, n: nat)
    requires Octets(s) && lastLen <= |s|
    modifies headers
    ensures ret == (match PhrResponse(s, headers.Length, lastLen) case Done(_, e) => e case Bad => -1 case More => -2)
    ensures ret >= 0 ==> n <= headers.Length && PhrResponse(s, headers.Length, lastLen).value == Head(first, headers[..n])
  {
    first, n := StatusLine(0, 0, Slice(0, 0)), 0;
    if lastLen != 0 {
      var complete := IsComplete(s, lastLen);
      if !complete.Done? {
        return Code(complete), first, n;
      }
    }
    var line := ParseStatusLine(s, sse);
    if !line.Done? {
      return Code(line), first, n;
    }
    first := line.value;
    var count := ParseHeaders(s, line.next, headers, sse);
    if !count.Done? {
      return Code(count), first, n;
    }
    n := count.value;
    ret := count.next;
  }

  method PhrParseHeaders(s: string, headers: array<Header>, lastLen: nat, sse: bool) returns (ret: int, n: nat)
    requires Octets(s) && lastLen <= |s|
    modifies headers
    ensures ret == (match PhrHeaders(s, headers.Length, lastLen) case Done(_, e) => e case Bad => -1 case More => -2)
    ensures ret >= 0 ==> n <= headers.Length && PhrHeaders(s, headers.Length, lastLen).value == headers[..n]
  {
    n := 0;
    if lastLen != 0 {
      var complete := IsComplete(s, lastLen);
      if !complete.Done? {
        return Code(complete), n;
      }
    }
    var count := ParseHeaders(s, 0, headers, sse);
    if !count.Done? {
      return Code(count), n;
    }
    n := count.value;
    ret := count.next;
  }
}
