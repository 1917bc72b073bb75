/**
 What a head is, without reference to scanning: the conditions on the bytes under which a parse succeeds
 with given slices and length.
 */
module HttpGrammar {
  import opened Options
  import opened HttpSyntax

  /** The characters of a token are those of section 3.2.6 of RFC 7230. */
  lemma TokenCharacters(c: char)
    ensures IsToken(c) <==> '0' <= c <= '9' || 'A' <= c <= 'Z' || 'a' <= c <= 'z' || c in "!#$%&'*+-.^_`|~"
  {
  }

  predicate Tokens(s: string, i: nat, j: nat)
    requires j <= |s|
  {
    forall k :: i <= k < j ==> IsToken(s[k])
  }

  predicate SpacesIn(s: string, i: nat, j: nat)
    requires j <= |s|
  {
    forall k :: i <= k < j ==> s[k] == ' '
  }

  predicate BlanksIn(s: string, i: nat, j: nat)
    requires j <= |s|
  {
    forall k :: i <= k < j ==> IsBlank(s[k])
  }

  predicate TextIn(s: string, i: nat, j: nat)
    requires j <= |s|
  {
    forall k :: i <= k < j ==> !IsControl(s[k])
  }

  predicate PathIn(s: string, i: nat, j: nat)
    requires j <= |s|
  {
    forall k :: i <= k < j ==> !EndsPath(s[k])
  }

  /** A line of text from `i`, whose newline is at `l` and ends at `e`. */
  predicate LineForm(s: string, i: nat, l: nat, e: nat) {
    i <= l < |s| && TextIn(s, i, l) && Newline(s, l) == Done((), e)
  }

  /** The text of the line without the blanks at its end. */
  predicate ValueForm(s: string, i: nat, v: Slice, l: nat, e: nat) {
    && LineForm(s, i, l, e) && v.from == i <= v.to <= l
    && BlanksIn(s, v.to, l) && (v.to > i ==> !IsBlank(s[v.to - 1]))
  }

  predicate NameForm(s: string, i: nat, name: Slice, v: nat) {
    && name.from == i < name.to < v < |s|
    && Tokens(s, i, name.to) && s[name.to] == ':' && BlanksIn(s, name.to + 1, v) && !IsBlank(s[v])
  }

  ghost predicate HeaderForm(s: string, i: nat, n: nat, h: Header, e: nat) {
    && (exists l :: ValueForm(s, h.value.from, h.value, l, e))
    && match h.name
       case None => n > 0 && h.value.from == i < |s| && IsBlank(s[i])
       case Some(name) => NameForm(s, i, name, h.value.from)
  }

  /** Headers one after the other, and an empty line. */
  ghost predicate HeadersForm(s: string, i: nat, n: nat, max: nat, hs: seq<Header>, e: nat)
    decreases |hs|
  {
    if |hs| == 0 then i < |s| && Newline(s, i) == Done((), e)
    else
      n < max && exists k :: i < k <= |s| && HeaderForm(s, i, n, hs[0], k) && HeadersForm(s, k, n + 1, max, hs[1..], e)
  }

  predicate VersionForm(s: string, v: nat, minor: nat) {
    v + 8 < |s| && s[v..v + 7] == "HTTP/1." && IsDigit(s[v + 7]) && minor == Digit(s[v + 7])
  }

  /** The request line whose version is at `v`. */
  predicate RequestLineForm(s: string, r: RequestLine, v: nat, e: nat) {
    && r.verb.from < r.verb.to < r.path.from < r.path.to < v < |s|
    && (r.verb.from == 0 || Newline(s, 0) == Done((), r.verb.from))
    && Tokens(s, r.verb.from, r.verb.to) && SpacesIn(s, r.verb.to, r.path.from)
    && PathIn(s, r.path.from, r.path.to) && SpacesIn(s, r.path.to, v)
    && VersionForm(s, v, r.minor) && Newline(s, v + 8) == Done((), e)
  }

  /** The status line whose code is at `c` and whose newline is at message.to. */
  predicate StatusLineForm(s: string, r: StatusLine, c: nat, e: nat) {
    && VersionForm(s, 0, r.minor) && 8 < c && c + 3 <= r.message.from <= r.message.to < |s|
    && SpacesIn(s, 8, c)
    && IsDigit(s[c]) && IsDigit(s[c + 1]) && IsDigit(s[c + 2])
    && r.status == 100 * Digit(s[c]) + 10 * Digit(s[c + 1]) + Digit(s[c + 2])
    && LineForm(s, c + 3, r.message.to, e)
    && SpacesIn(s, c + 3, r.message.from) && s[r.message.from] != ' '
    && (r.message.from == c + 3 ==> r.message.to == c + 3)
  }

  // ---------- scanning agrees ----------

  lemma {:induction false} FirstStopIs(s: string, i: nat, stop: char -> bool, j: nat)
    requires i <= j <= |s| && (forall k :: i <= k < j ==> !stop(s[k])) && (j < |s| ==> stop(s[j]))
    ensures FirstStop(s, i, stop) == j
    decreases j - i
  {
    if i < j {
      FirstStopIs(s, i + 1, stop, j);
    }
  }

  lemma {:induction false} TrimmedEndIs(s: string, i: nat, l: nat, e: nat)
    requires i <= e <= l <= |s| && BlanksIn(s, e, l) && (e > i ==> !IsBlank(s[e - 1]))
    ensures TrimmedEnd(s, i, l) == e
    decreases l
  {
    if e < l {
      TrimmedEndIs(s, i, l - 1, e);
    }
  }

  lemma LineExactly(s: string, i: nat, l: nat, e: nat)
    requires i <= |s|
    ensures Line(s, i) == Done(Slice(i, l), e) <==> LineForm(s, i, l, e)
  {
    if LineForm(s, i, l, e) {
      FirstStopIs(s, i, IsControl, l);
    }
  }

  lemma ValueExactly(s: string, i: nat, v: Slice, e: nat)
    requires i <= |s|
    ensures Value(s, i) == Done(v, e) <==> exists l :: ValueForm(s, i, v, l, e)
  {
    if Value(s, i) == Done(v, e) {
      var l := Line(s, i).value.to;
      LineExactly(s, i, l, e);
      assert ValueForm(s, i, v, l, e);
    }
    if l :| ValueForm(s, i, v, l, e) {
      LineExactly(s, i, l, e);
      TrimmedEndIs(s, i, l, v.to);
    }
  }

  lemma NameExactly(s: string, i: nat, name: Slice, v: nat)
    requires i <= |s|
    ensures Name(s, i) == Done(name, v) <==> NameForm(s, i, name, v)
  {
    if Name(s, i) == Done(name, v) {
      assert forall k :: i <= k < name.to ==> !NonToken(s[k]);
      assert forall k :: name.to + 1 <= k < v ==> !NotBlank(s[k]);
      assert NotBlank(s[v]);
    }
    if NameForm(s, i, name, v) {
      FirstStopIs(s, i, NonToken, name.to);
      FirstStopIs(s, name.to + 1, NotBlank, v);
    }
  }

  lemma HeaderExactly(s: string, i: nat, n: nat, h: Header, e: nat)
    requires i < |s|
    ensures HeaderAt(s, i, n > 0) == Done(h, e) <==> HeaderForm(s, i, n, h, e)
  {
    if n > 0 && IsBlank(s[i]) {
      ValueExactly(s, i, h.value, e);
    } else {
      if h.name.Some? {
        NameExactly(s, i, h.name.value, h.value.from);
      }
      if h.value.from <= |s| {
        ValueExactly(s, h.value.from, h.value, e);
      }
    }
  }

  lemma HeadersExactly(s: string, i: nat, n: nat, max: nat, hs: seq<Header>, e: nat)
    requires i <= |s| && n <= max
    ensures Headers(s, i, n, max) == Done(hs, e) <==> HeadersForm(s, i, n, max, hs, e)
  {
    if Headers(s, i, n, max) == Done(hs, e) {
      HeadersHaveForm(s, i, n, max);
    }
    if HeadersForm(s, i, n, max, hs, e) {
      FormIsHeaders(s, i, n, max, hs, e);
    }
  }

  lemma {:induction false} HeadersHaveForm(s: string, i: nat, n: nat, max: nat)
    requires i <= |s| && n <= max && Headers(s, i, n, max).Done?
    ensures HeadersForm(s, i, n, max, Headers(s, i, n, max).value, Headers(s, i, n, max).next)
    decreases |s| - i
  {
    if s[i] != '\r' && s[i] != '\n' {
      var h := HeaderAt(s, i, n > 0);
      var r := Headers(s, h.next, n + 1, max);
      HeaderExactly(s, i, n, h.value, h.next);
      HeadersHaveForm(s, h.next, n + 1, max);
      FormCons(s, i, n, max, h.value, h.next, r.value, r.next);
    }
  }

  lemma FormCons(s: string, i: nat, n: nat, max: nat, h: Header, k: nat, hs: seq<Header>, e: nat)
    requires n < max && i < k <= |s| && HeaderForm(s, i, n, h, k) && HeadersForm(s, k, n + 1, max, hs, e)
    ensures HeadersForm(s, i, n, max, [h] + hs, e)
  {
    var all := [h] + hs;
    assert all[0] == h && all[1..] == hs;
  }

  lemma {:induction false} FormIsHeaders(s: string, i: nat, n: nat, max: nat, hs: seq<Header>, e: nat)
    requires i <= |s| && n <= max && HeadersForm(s, i, n, max, hs, e)
    ensures Headers(s, i, n, max) == Done(hs, e)
    decreases |hs|
  {
    if |hs| > 0 {
      var k :| i < k <= |s| && HeaderForm(s, i, n, hs[0], k) && HeadersForm(s, k, n + 1, max, hs[1..], e);
      NotANewline(s, i, n, hs[0]);
      HeaderExactly(s, i, n, hs[0], k);
      FormIsHeaders(s, k, n + 1, max, hs[1..], e);
      HeadersCons(s, i, n, max, hs[0], k, hs[1..], e);
      HeadAndRest(hs);
    }
  }

  lemma HeadersCons(s: string, i: nat, n: nat, max: nat, h: Header, k: nat, hs: seq<Header>, e: nat)
    requires n < max && i < k <= |s| && s[i] != '\r' && s[i] != '\n'
    requires HeaderAt(s, i, n > 0) == Done(h, k) && Headers(s, k, n + 1, max) == Done(hs, e)
    ensures Headers(s, i, n, max) == Done([h] + hs, e)
  {
  }

  lemma HeadAndRest(hs: seq<Header>)
    requires |hs| > 0
    ensures hs == [hs[0]] + hs[1..]
  {
  }

  lemma NotANewline(s: string, i: nat, n: nat, h: Header)
    requires exists k :: HeaderForm(s, i, n, h, k)
    ensures i < |s| && s[i] != '\r' && s[i] != '\n'
  {
  }

  lemma VersionExactly(s: string, v: nat, minor: nat)
    requires v <= |s|
    ensures Version(s, v) == Done(minor, v + 8) <==> VersionForm(s, v, minor)
    ensures VersionForm(s, v, minor) ==> s[v] == 'H'
  {
    assert |s| >= v + 7 ==> s[v] == s[v..v + 7][0];
  }

  lemma SpacesExactly(s: string, i: nat, j: nat)
    requires i < |s| && s[i] == ' '
    ensures Spaces(s, i) == Done((), j) <==> i < j < |s| && SpacesIn(s, i, j) && s[j] != ' '
  {
    if i < j < |s| && SpacesIn(s, i, j) && s[j] != ' ' {
      FirstStopIs(s, i + 1, NotSpace, j);
    }
    if Spaces(s, i) == Done((), j) {
      assert forall k :: i < k < j ==> !NotSpace(s[k]);
      assert NotSpace(s[j]);
    }
  }

  lemma TokenExactly(s: string, i: nat, end: char, j: nat)
    requires i <= |s| && !IsToken(end)
    ensures Token(s, i, end) == Done(Slice(i, j), j) <==> i <= j < |s| && Tokens(s, i, j) && s[j] == end
  {
    if i <= j < |s| && Tokens(s, i, j) && s[j] == end {
      FirstStopIs(s, i, NonToken, j);
    }
    if Token(s, i, end) == Done(Slice(i, j), j) {
      assert forall k :: i <= k < j ==> !NonToken(s[k]);
    }
  }

  lemma PathExactly(s: string, i: nat, j: nat)
    requires i <= |s|
    ensures Path(s, i) == Done(Slice(i, j), j) <==> i <= j < |s| && PathIn(s, i, j) && s[j] == ' '
  {
    if i <= j < |s| && PathIn(s, i, j) && s[j] == ' ' {
      FirstStopIs(s, i, EndsPath, j);
    }
  }

  lemma RequestLineHasForm(s: string) returns (v: nat)
    requires RequestLineOf(s).Done?
    ensures RequestLineForm(s, RequestLineOf(s).value, v, RequestLineOf(s).next)
  {
    var i0, i1, i2, i3;
    i0, i1, i2, i3, v := RequestLineParts(s);
    PartsHaveForm(s, RequestLineOf(s).value, i0, i1, i2, i3, v, RequestLineOf(s).next);
  }

  lemma PartsHaveForm(s: string, r: RequestLine, i0: nat, i1: nat, i2: nat, i3: nat, v: nat, e: nat)
    requires i0 < i1 < i2 < i3 < v && v + 8 < |s| && r.verb == Slice(i0, i1) && r.path == Slice(i2, i3)
    requires LeadingNewline(s) == Done((), i0) && Token(s, i0, ' ') == Done(Slice(i0, i1), i1)
    requires Spaces(s, i1) == Done((), i2) && Path(s, i2) == Done(Slice(i2, i3), i3) && Spaces(s, i3) == Done((), v)
    requires Version(s, v) == Done(r.minor, v + 8) && Newline(s, v + 8) == Done((), e)
    ensures RequestLineForm(s, r, v, e)
  {
    TokenExactly(s, i0, ' ', i1);
    SpacesExactly(s, i1, i2);
    PathExactly(s, i2, i3);
    SpacesExactly(s, i3, v);
    VersionExactly(s, v, r.minor);
  }

  lemma FormIsRequestLine(s: string, r: RequestLine, v: nat, e: nat)
    requires RequestLineForm(s, r, v, e)
    ensures RequestLineOf(s) == Done(r, e)
  {
    assert IsToken(s[r.verb.from]);
    assert LeadingNewline(s) == Done((), r.verb.from);
    TokenExactly(s, r.verb.from, ' ', r.verb.to);
    assert !EndsPath(s[r.path.from]);
    SpacesExactly(s, r.verb.to, r.path.from);
    PathExactly(s, r.path.from, r.path.to);
    VersionExactly(s, v, r.minor);
    SpacesExactly(s, r.path.to, v);
  }

  ghost predicate RequestForm(s: string, max: nat, head: Head<RequestLine>, e: nat) {
    exists v: nat, i: nat :: i <= |s| && RequestLineForm(s, head.first, v, i) && HeadersForm(s, i, 0, max, head.headers, e)
  }

  /** A request is parsed, with exactly these slices and this length, if and only if its bytes have this form. */
  lemma RequestExactly(s: string, max: nat, head: Head<RequestLine>, e: nat)
    ensures Request(s, max) == Done(head, e) <==> RequestForm(s, max, head, e)
  {
    if Request(s, max) == Done(head, e) {
      var v := RequestLineHasForm(s);
      var i := RequestLineOf(s).next;
      HeadersExactly(s, i, 0, max, head.headers, e);
      assert RequestLineForm(s, head.first, v, i) && HeadersForm(s, i, 0, max, head.headers, e);
    }
    if RequestForm(s, max, head, e) {
      var v: nat, i: nat :| i <= |s| && RequestLineForm(s, head.first, v, i) && HeadersForm(s, i, 0, max, head.headers, e);
      FormIsRequestLine(s, head.first, v, i);
      HeadersExactly(s, i, 0, max, head.headers, e);
    }
  }

  lemma StatusLineHasForm(s: string) returns (c: nat)
    requires StatusLineOf(s).Done?
    ensures StatusLineForm(s, StatusLineOf(s).value, c, StatusLineOf(s).next)
  {
    var r := StatusLineOf(s).value;
    c := Spaces(s, 8).next;
    VersionExactly(s, 0, r.minor);
    SpacesExactly(s, 8, c);
    var l := Line(s, c + 3).value.to;
    LineExactly(s, c + 3, l, Line(s, c + 3).next);
    if c + 3 < l {
      assert forall k :: c + 3 <= k < r.message.from ==> !NotSpace(s[k]);
      assert NotSpace(s[r.message.from]);
    }
  }

  lemma FormIsStatusLine(s: string, r: StatusLine, c: nat, e: nat)
    requires StatusLineForm(s, r, c, e)
    ensures StatusLineOf(s) == Done(r, e)
  {
    VersionExactly(s, 0, r.minor);
    SpacesExactly(s, 8, c);
    LineExactly(s, c + 3, r.message.to, e);
    if c + 3 < r.message.to {
      FirstStopIs(s, c + 3, NotSpace, r.message.from);
    }
  }

  ghost predicate ResponseForm(s: string, max: nat, head: Head<StatusLine>, e: nat) {
    exists c: nat, i: nat :: i <= |s| && StatusLineForm(s, head.first, c, i) && HeadersForm(s, i, 0, max, head.headers, e)
  }

  lemma ResponseExactly(s: string, max: nat, head: Head<StatusLine>, e: nat)
    ensures Response(s, max) == Done(head, e) <==> ResponseForm(s, max, head, e)
  {
    if Response(s, max) == Done(head, e) {
      var c := StatusLineHasForm(s);
      var i := StatusLineOf(s).next;
      HeadersExactly(s, i, 0, max, head.headers, e);
      assert StatusLineForm(s, head.first, c, i) && HeadersForm(s, i, 0, max, head.headers, e);
    }
    if ResponseForm(s, max, head, e) {
      var c: nat, i: nat :| i <= |s| && StatusLineForm(s, head.first, c, i) && HeadersForm(s, i, 0, max, head.headers, e);
      FormIsStatusLine(s, head.first, c, i);
      HeadersExactly(s, i, 0, max, head.headers, e);
    }
  }

  // ---------- order ----------

  function Begin(h: Header): nat {
    if h.name.Some? then h.name.value.from else h.value.from
  }

  /** The slices lie one after the other, before the end of the head. */
  lemma {:induction false} HeadersInOrder(s: string, i: nat, n: nat, max: nat, hs: seq<Header>, e: nat)
    requires i <= |s| && n <= max && HeadersForm(s, i, n, max, hs, e)
    ensures forall a :: 0 <= a < |hs| ==> i <= Begin(hs[a]) <= hs[a].value.from <= hs[a].value.to < e
    ensures forall a, b :: 0 <= a < b < |hs| ==> hs[a].value.to < Begin(hs[b])
    ensures i < e <= |s| && n + |hs| <= max
    decreases |hs|
  {
    if |hs| > 0 {
      var k :| i < k <= |s| && HeaderForm(s, i, n, hs[0], k) && HeadersForm(s, k, n + 1, max, hs[1..], e);
      HeadersInOrder(s, k, n + 1, max, hs[1..], e);
      forall a | 0 < a < |hs|
        ensures hs[a] == hs[1..][a - 1]
      {
      }
    }
  }

  /** The slices of headers, one after the other between two positions. */
  predicate InOrder(from: nat, hs: seq<Header>, e: nat) {
    && (forall a :: 0 <= a < |hs| ==> from <= Begin(hs[a]) <= hs[a].value.from <= hs[a].value.to < e)
    && (forall a, b :: 0 <= a < b < |hs| ==> hs[a].value.to < Begin(hs[b]))
  }

  /** All slices of a request lie in order before its end. */
  lemma RequestSlicesInOrder(s: string, max: nat)
    requires Request(s, max).Done?
    ensures var h, e := Request(s, max).value, Request(s, max).next;
            && h.first.verb.from < h.first.verb.to < h.first.path.from < h.first.path.to < e <= |s|
            && InOrder(h.first.path.to + 1, h.headers, e) && |h.headers| <= max
  {
    var h, e := Request(s, max).value, Request(s, max).next;
    RequestExactly(s, max, h, e);
    var v: nat, i: nat :| i <= |s| && RequestLineForm(s, h.first, v, i) && HeadersForm(s, i, 0, max, h.headers, e);
    HeadersInOrder(s, i, 0, max, h.headers, e);
  }

  /** All slices of a response lie in order before its end. */
  lemma ResponseSlicesInOrder(s: string, max: nat)
    requires Response(s, max).Done?
    ensures var h, e := Response(s, max).value, Response(s, max).next;
            && 12 <= h.first.message.from <= h.first.message.to < e <= |s|
            && InOrder(h.first.message.to + 1, h.headers, e) && |h.headers| <= max
  {
    var h, e := Response(s, max).value, Response(s, max).next;
    ResponseExactly(s, max, h, e);
    var c: nat, i: nat :| i <= |s| && StatusLineForm(s, h.first, c, i) && HeadersForm(s, i, 0, max, h.headers, e);
    HeadersInOrder(s, i, 0, max, h.headers, e);
  }

  // ---------- an example ----------

  /** A header with blanks around its value, a line that continues it, and the end. */
  lemma HeadersExample(s: string, h: Header, g: Header)
    requires s == "A: b \t\r\n c\r\n\r\n"
    requires h == Header(Some(Slice(0, 1)), Slice(3, 4)) && g == Header(None, Slice(8, 10))
    ensures Headers(s, 0, 0, 2) == Done([h] + ([g] + []), 14)
  {
    FirstExample(s, h);
    SecondExample(s, g);
    assert Newline(s, 12) == Done((), 14);
    assert Headers(s, 12, 2, 2) == Done([], 14);
    HeadersCons(s, 8, 1, 2, g, 12, [], 14);
    HeadersCons(s, 0, 0, 2, h, 8, [g] + [], 14);
  }

  lemma FirstExample(s: string, h: Header)
    requires s == "A: b \t\r\n c\r\n\r\n" && h == Header(Some(Slice(0, 1)), Slice(3, 4))
    ensures HeaderAt(s, 0, false) == Done(h, 8)
  {
    assert Newline(s, 6) == Done((), 8);
    assert ValueForm(s, 3, h.value, 6, 8) && NameForm(s, 0, h.name.value, 3);
    HeaderExactly(s, 0, 0, h, 8);
  }

  lemma SecondExample(s: string, g: Header)
    requires s == "A: b \t\r\n c\r\n\r\n" && g == Header(None, Slice(8, 10))
    ensures HeaderAt(s, 8, true) == Done(g, 12)
  {
    assert Newline(s, 10) == Done((), 12);
    assert ValueForm(s, 8, g.value, 10, 12);
    HeaderExactly(s, 8, 1, g, 12);
  }
}
