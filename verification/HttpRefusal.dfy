/**
 Which heads are refused, without reference to scanning: the faults, each with the bytes that show it.  A fault is
 found whatever follows these bytes, and nothing else is refused.
 */
module HttpRefusal {
  import opened HttpSyntax
  import opened HttpGrammar
  import opened HttpShape

  // ---------- faults of the pieces ----------

  /** Neither LF nor CR, or a CR that is followed by something other than LF. */
  predicate NewlineFault(s: string, i: nat) {
    i < |s| && s[i] != '\n' && (s[i] == '\r' ==> i + 1 < |s| && s[i + 1] != '\n')
  }

  /** Token characters, and then a byte that is neither one nor the one expected. */
  predicate TokenFault(s: string, i: nat, end: char, j: nat) {
    i <= j < |s| && Tokens(s, i, j) && !IsToken(s[j]) && s[j] != end
  }

  /** Path characters, and then a control character. */
  predicate PathFault(s: string, i: nat, j: nat) {
    i <= j < |s| && PathIn(s, i, j) && EndsPath(s[j]) && s[j] != ' '
  }

  /** Text, and then a control character that does not begin a newline. */
  predicate LineFault(s: string, i: nat, l: nat) {
    i <= l < |s| && TextIn(s, i, l) && IsControl(s[l]) && NewlineFault(s, l)
  }

  predicate VersionFault(s: string, v: nat) {
    v + 9 <= |s| && !(s[v..v + 7] == "HTTP/1." && IsDigit(s[v + 7]))
  }

  lemma NewlineRefused(s: string, i: nat)
    requires i <= |s|
    ensures Newline(s, i).Bad? <==> NewlineFault(s, i)
  {
  }

  lemma TokenRefused(s: string, i: nat, end: char)
    requires i <= |s|
    ensures Token(s, i, end).Bad? <==> exists j :: TokenFault(s, i, end, j)
  {
    if Token(s, i, end).Bad? {
      var j := FirstStop(s, i, NonToken);
      assert forall k :: i <= k < j ==> !NonToken(s[k]);
      assert TokenFault(s, i, end, j);
    }
    if j :| TokenFault(s, i, end, j) {
      FirstStopIs(s, i, NonToken, j);
    }
  }

  lemma PathRefused(s: string, i: nat)
    requires i <= |s|
    ensures Path(s, i).Bad? <==> exists j :: PathFault(s, i, j)
  {
    if Path(s, i).Bad? {
      assert PathFault(s, i, FirstStop(s, i, EndsPath));
    }
    if j :| PathFault(s, i, j) {
      FirstStopIs(s, i, EndsPath, j);
    }
  }

  lemma LineRefused(s: string, i: nat)
    requires i <= |s|
    ensures Line(s, i).Bad? <==> exists l :: LineFault(s, i, l)
  {
    if Line(s, i).Bad? {
      assert LineFault(s, i, FirstStop(s, i, IsControl));
    }
    if l :| LineFault(s, i, l) {
      FirstStopIs(s, i, IsControl, l);
    }
  }

  lemma VersionRefused(s: string, i: nat)
    requires i <= |s|
    ensures Version(s, i).Bad? <==> VersionFault(s, i)
  {
  }

  // ---------- faults of headers ----------

  /** A value, if there is one, with a fault in its line. */
  ghost predicate ValueFault(s: string, i: nat) {
    exists name, v, l :: NameForm(s, i, name, v) && LineFault(s, v, l)
  }

  ghost predicate HeaderFault(s: string, i: nat, n: nat)
    requires i < |s|
  {
    if n > 0 && IsBlank(s[i]) then exists l :: LineFault(s, i, l)
    else s[i] == ':' || (exists j :: TokenFault(s, i, ':', j)) || ValueFault(s, i)
  }

  /** One header too many, one with a fault, a CR alone, or a header and then one of these. */
  ghost predicate HeadersFault(s: string, i: nat, n: nat, max: nat)
    requires n <= max
    decreases |s| - i
  {
    && i < |s|
    && if s[i] == '\r' || s[i] == '\n' then NewlineFault(s, i)
       else n == max || HeaderFault(s, i, n)
            || exists h, k :: i < k <= |s| && HeaderForm(s, i, n, h, k) && HeadersFault(s, k, n + 1, max)
  }

  lemma NameRefused(s: string, i: nat)
    requires i <= |s|
    ensures Name(s, i).Bad? <==> (i < |s| && s[i] == ':') || exists j :: TokenFault(s, i, ':', j)
  {
    TokenRefused(s, i, ':');
    if i < |s| && s[i] == ':' {
      FirstStopIs(s, i, NonToken, i);
    }
  }

  lemma ValueRefused(s: string, i: nat)
    requires i <= |s|
    ensures ValueFault(s, i) <==> Name(s, i).Done? && Line(s, Name(s, i).next).Bad?
  {
    if Name(s, i).Done? {
      NameExactly(s, i, Name(s, i).value, Name(s, i).next);
      LineRefused(s, Name(s, i).next);
    }
    if name, v, l :| NameForm(s, i, name, v) && LineFault(s, v, l) {
      NameExactly(s, i, name, v);
      LineRefused(s, v);
    }
  }

  lemma HeaderRefused(s: string, i: nat, n: nat)
    requires i < |s|
    ensures HeaderAt(s, i, n > 0).Bad? <==> HeaderFault(s, i, n)
  {
    LineRefused(s, i);
    NameRefused(s, i);
    ValueRefused(s, i);
  }

  lemma {:induction false} HeadersRefused(s: string, i: nat, n: nat, max: nat)
    requires i <= |s| && n <= max
    ensures Headers(s, i, n, max).Bad? <==> HeadersFault(s, i, n, max)
    decreases |s| - i
  {
    if i < |s| && s[i] != '\r' && s[i] != '\n' && n < max {
      HeaderRefused(s, i, n);
      var r := HeaderAt(s, i, n > 0);
      if r.Done? {
        HeaderExactly(s, i, n, r.value, r.next);
        HeadersRefused(s, r.next, n + 1, max);
      }
      if h, k :| i < k <= |s| && HeaderForm(s, i, n, h, k) && HeadersFault(s, k, n + 1, max) {
        HeaderExactly(s, i, n, h, k);
      }
    }
  }

  // ---------- faults of a request line ----------

  predicate StartForm(s: string, i: nat) {
    |s| > 0 && if s[0] == '\r' || s[0] == '\n' then Newline(s, 0) == Done((), i) else i == 0
  }

  /** A method, which may be empty here, and the spaces after it. */
  predicate VerbForm(s: string, i: nat, j: nat, k: nat) {
    i <= j < k < |s| && Tokens(s, i, j) && s[j] == ' ' && SpacesIn(s, j, k) && s[k] != ' '
  }

  predicate TargetForm(s: string, i: nat, j: nat, k: nat) {
    i <= j < k < |s| && PathIn(s, i, j) && s[j] == ' ' && SpacesIn(s, j, k) && s[k] != ' '
  }

  /** What is wrong from the path on. */
  ghost predicate TargetFault(s: string, i: nat, emptyVerb: bool) {
    || (exists j :: PathFault(s, i, j))
    || (exists j, v :: TargetForm(s, i, j, v) && (emptyVerb || VersionFault(s, v) || LineEndFault(s, v)))
  }

  predicate LineEndFault(s: string, v: nat) {
    v + 9 <= |s| && !VersionFault(s, v) && NewlineFault(s, v + 8)
  }

  ghost predicate RequestLineFault(s: string) {
    || (|s| > 0 && s[0] == '\r' && NewlineFault(s, 0))
    || (exists i, j :: StartForm(s, i) && TokenFault(s, i, ' ', j))
    || (exists i, j, k :: StartForm(s, i) && VerbForm(s, i, j, k) && TargetFault(s, k, i == j))
  }

  lemma VerbExactly(s: string, i: nat, j: nat, k: nat)
    requires i <= |s|
    ensures VerbForm(s, i, j, k) <==> Token(s, i, ' ') == Done(Slice(i, j), j) && Spaces(s, j) == Done((), k)
  {
    TokenExactly(s, i, ' ', j);
    if i <= j < |s| && s[j] == ' ' {
      SpacesExactly(s, j, k);
    }
  }

  lemma TargetExactly(s: string, i: nat, j: nat, k: nat)
    requires i <= |s|
    ensures TargetForm(s, i, j, k) <==> Path(s, i) == Done(Slice(i, j), j) && Spaces(s, j) == Done((), k)
  {
    PathExactly(s, i, j);
    if i <= j < |s| && s[j] == ' ' {
      SpacesExactly(s, j, k);
    }
  }

  /** The part of the specification from the path on. */
  predicate TargetBad(s: string, i: nat, emptyVerb: bool)
    requires i <= |s|
  {
    || Path(s, i).Bad?
    || (Path(s, i).Done? && Spaces(s, Path(s, i).next).Done?
        && (emptyVerb || var v := Spaces(s, Path(s, i).next).next;
                         Version(s, v).Bad? || (Version(s, v).Done? && Newline(s, v + 8).Bad?)))
  }

  lemma TargetRefused(s: string, i: nat, emptyVerb: bool)
    requires i <= |s|
    ensures TargetBad(s, i, emptyVerb) <==> TargetFault(s, i, emptyVerb)
  {
    PathRefused(s, i);
    if Path(s, i).Done? && Spaces(s, Path(s, i).next).Done? {
      TargetExactly(s, i, Path(s, i).next, Spaces(s, Path(s, i).next).next);
    }
    if j, v :| TargetForm(s, i, j, v) && (emptyVerb || VersionFault(s, v) || LineEndFault(s, v)) {
      TargetExactly(s, i, j, v);
    }
  }

  lemma LineBadFromTarget(s: string, i: nat, j: nat, k: nat)
    requires LeadingNewline(s) == Done((), i) && Token(s, i, ' ') == Done(Slice(i, j), j) && Spaces(s, j) == Done((), k)
    ensures RequestLineOf(s).Bad? <==> TargetBad(s, k, i == j)
  {
    var path := Path(s, k);
    if path.Done? && Spaces(s, path.next).Done? && i != j {
      assert path.next > k;
    }
  }

  /** The specification without its path: what is not refused before is refused from the path on. */
  lemma RequestLineBad(s: string)
    ensures LeadingNewline(s).Bad? ==> RequestLineOf(s).Bad?
    ensures LeadingNewline(s).More? ==> RequestLineOf(s).More?
    ensures LeadingNewline(s).Done? ==>
              var i := LeadingNewline(s).next;
              && (Token(s, i, ' ').Bad? ==> RequestLineOf(s).Bad?)
              && (Token(s, i, ' ').More? ==> RequestLineOf(s).More?)
              && (Token(s, i, ' ').Done? && Spaces(s, Token(s, i, ' ').next).More? ==> RequestLineOf(s).More?)
  {
  }

  lemma StartExactly(s: string, i: nat)
    ensures StartForm(s, i) <==> LeadingNewline(s) == Done((), i)
  {
  }

  /** A request line is refused if and only if it has one of these faults. */
  lemma RequestLineRefused(s: string)
    ensures RequestLineOf(s).Bad? <==> RequestLineFault(s)
  {
    RequestLineBad(s);
    if LeadingNewline(s).Done? {
      var i := LeadingNewline(s).next;
      StartExactly(s, i);
      TokenRefused(s, i, ' ');
      if Token(s, i, ' ').Done? && Spaces(s, Token(s, i, ' ').next).Done? {
        var j := Token(s, i, ' ').next;
        VerbExactly(s, i, j, Spaces(s, j).next);
        LineBadFromTarget(s, i, j, Spaces(s, j).next);
        TargetRefused(s, Spaces(s, j).next, i == j);
      }
    }
    if i, j, k :| StartForm(s, i) && VerbForm(s, i, j, k) && TargetFault(s, k, i == j) {
      StartExactly(s, i);
      VerbExactly(s, i, j, k);
      TargetRefused(s, k, i == j);
    }
    if i, j :| StartForm(s, i) && TokenFault(s, i, ' ', j) {
      StartExactly(s, i);
    }
  }

  ghost predicate RequestFault(s: string, max: nat) {
    || RequestLineFault(s)
    || exists r, v, i :: RequestLineForm(s, r, v, i) && HeadersFault(s, i, 0, max)
  }

  /** A request is refused if and only if there is a fault in its line, or in a header after a line without one. */
  lemma RequestRefused(s: string, max: nat)
    ensures Request(s, max).Bad? <==> RequestFault(s, max)
  {
    RequestLineRefused(s);
    if RequestLineOf(s).Done? {
      var r, i := RequestLineOf(s).value, RequestLineOf(s).next;
      var v := RequestLineHasForm(s);
      HeadersRefused(s, i, 0, max);
    }
    if r, v, i :| RequestLineForm(s, r, v, i) && HeadersFault(s, i, 0, max) {
      FormIsRequestLine(s, r, v, i);
      HeadersRefused(s, i, 0, max);
    }
  }

  // ---------- faults of a status line ----------

  predicate CodeFault(s: string, c: nat) {
    c + 4 <= |s| && !(IsDigit(s[c]) && IsDigit(s[c + 1]) && IsDigit(s[c + 2]))
  }

  /** After the code: a control character, or text that does not begin with a space. */
  ghost predicate MessageFault(s: string, i: nat) {
    || (exists l :: LineFault(s, i, l))
    || (exists l, e :: LineForm(s, i, l, e) && i < l && s[i] != ' ')
  }

  /** What is wrong from the code on. */
  ghost predicate StatusFault(s: string, c: nat) {
    CodeFault(s, c) || (c + 4 <= |s| && !CodeFault(s, c) && MessageFault(s, c + 3))
  }

  /** The code begins after the spaces that follow the version. */
  predicate CodeAt(s: string, c: nat) {
    8 < c < |s| && SpacesIn(s, 8, c) && s[c] != ' '
  }

  ghost predicate StatusLineFault(s: string) {
    || VersionFault(s, 0)
    || (|s| >= 9 && !VersionFault(s, 0)
        && (s[8] != ' ' || exists c :: CodeAt(s, c) && StatusFault(s, c)))
  }

  lemma MessageRefused(s: string, i: nat)
    requires i <= |s|
    ensures MessageFault(s, i) <==> Line(s, i).Bad? || (Line(s, i).Done? && MessageOf(s, Line(s, i).value).Bad?)
  {
    LineRefused(s, i);
    if Line(s, i).Done? {
      LineExactly(s, i, Line(s, i).value.to, Line(s, i).next);
    }
    if l, e :| LineForm(s, i, l, e) && i < l && s[i] != ' ' {
      LineExactly(s, i, l, e);
    }
  }

  lemma CodeRefused(s: string, c: nat)
    requires c <= |s|
    ensures StatusCode(s, c).Bad? <==> CodeFault(s, c)
    ensures StatusCode(s, c).Done? <==> c + 4 <= |s| && !CodeFault(s, c)
  {
  }

  /** The part of the specification from the code on. */
  predicate StatusBad(s: string, c: nat)
    requires c <= |s|
  {
    || StatusCode(s, c).Bad?
    || (StatusCode(s, c).Done?
        && (Line(s, c + 3).Bad? || (Line(s, c + 3).Done? && MessageOf(s, Line(s, c + 3).value).Bad?)))
  }

  lemma StatusRefused(s: string, c: nat)
    requires c <= |s|
    ensures StatusBad(s, c) <==> StatusFault(s, c)
  {
    CodeRefused(s, c);
    if StatusCode(s, c).Done? {
      MessageRefused(s, c + 3);
    }
  }

  lemma StatusLineBad(s: string)
    ensures StatusLineOf(s).Bad?
       <==> || Version(s, 0).Bad?
            || (Version(s, 0).Done? && (s[8] != ' ' || (Spaces(s, 8).Done? && StatusBad(s, Spaces(s, 8).next))))
  {
  }

  /** A status line is refused if and only if it has one of these faults. */
  lemma StatusLineRefused(s: string)
    ensures StatusLineOf(s).Bad? <==> StatusLineFault(s)
  {
    StatusLineBad(s);
    if Version(s, 0).Done? && s[8] == ' ' {
      if Spaces(s, 8).Done? {
        SpacesExactly(s, 8, Spaces(s, 8).next);
        StatusRefused(s, Spaces(s, 8).next);
      }
      if c :| CodeAt(s, c) && StatusFault(s, c) {
        SpacesExactly(s, 8, c);
      }
    }
  }

  ghost predicate ResponseFault(s: string, max: nat) {
    || StatusLineFault(s)
    || exists r, c, i :: StatusLineForm(s, r, c, i) && HeadersFault(s, i, 0, max)
  }

  /** The same for a response. */
  lemma ResponseRefused(s: string, max: nat)
    ensures Response(s, max).Bad? <==> ResponseFault(s, max)
  {
    StatusLineRefused(s);
    if StatusLineOf(s).Done? {
      var r, i := StatusLineOf(s).value, StatusLineOf(s).next;
      var c := StatusLineHasForm(s);
      HeadersRefused(s, i, 0, max);
    }
    if r, c, i :| StatusLineForm(s, r, c, i) && HeadersFault(s, i, 0, max) {
      FormIsStatusLine(s, r, c, i);
      HeadersRefused(s, i, 0, max);
    }
  }

  /** Two examples: neither the end of the line nor that of the head is waited for. */
  lemma RefusedEarly(rest: string, max: nat)
    requires max > 0
    ensures Request("G@" + rest, max).Bad? && Headers("A B" + rest, 0, 0, max).Bad?
  {
    var s, t := "G@" + rest, "A B" + rest;
    assert StartForm(s, 0) && TokenFault(s, 0, ' ', 1);
    RequestRefused(s, max);
    assert TokenFault(t, 0, ':', 1) && HeaderFault(t, 0, 0);
    HeadersRefused(t, 0, 0, max);
  }

  // ---------- the check for completeness ----------

  /** The first CR without its LF. */
  predicate StrayCr(s: string, i: nat, k: nat) {
    i <= k && k + 1 < |s| && s[k] == '\r' && s[k + 1] != '\n' && CrlfOnly(s, i, k)
  }

  /** The search is refused if and only if it meets a stray CR before it has found two newlines in a row. */
  lemma {:induction false} CompleteRefused(s: string, i: nat, count: nat)
    requires i <= |s| && count < 2
    ensures Complete(s, i, count).Bad? <==> !Complete(s, i, count).Done? && exists k: nat :: StrayCr(s, i, k)
    decreases |s| - i
  {
    if i < |s| {
      if s[i] == '\r' || s[i] == '\n' {
        var e := Newline(s, i);
        if e.Bad? {
          assert StrayCr(s, i, i);
        } else if e.Done? && count == 0 {
          CompleteRefused(s, e.next, 1);
          StrayFrom(s, i, e.next);
        }
      } else {
        CompleteRefused(s, i + 1, 0);
        StrayFrom(s, i, i + 1);
      }
    }
  }

  /** Bytes without a stray CR do not matter. */
  lemma StrayFrom(s: string, i: nat, j: nat)
    requires i < j <= |s| && CrlfOnly(s, i, j)
    ensures (exists k: nat :: StrayCr(s, i, k)) <==> (exists k: nat :: StrayCr(s, j, k))
  {
    if k: nat :| StrayCr(s, i, k) {
      assert k >= j;
      assert StrayCr(s, j, k);
    }
    if k: nat :| StrayCr(s, j, k) {
      assert StrayCr(s, i, k);
    }
  }

  // ---------- with the check ----------

  /** Where the check begins to search: three bytes before the end of what was there at the last call. */
  function CheckFrom(lastLen: nat): nat {
    if lastLen < 3 then 0 else lastLen - 3
  }

  ghost predicate CheckPasses(s: string, lastLen: nat) {
    lastLen == 0 || BlankLineFrom(s, CheckFrom(lastLen))
  }

  ghost predicate CheckRefuses(s: string, lastLen: nat) {
    lastLen > 0 && !CheckPasses(s, lastLen) && exists k: nat :: StrayCr(s, CheckFrom(lastLen), k)
  }

  lemma PreCheckExactly(s: string, lastLen: nat)
    requires 0 < lastLen <= |s|
    ensures PreCheck(s, lastLen).Done? <==> CheckPasses(s, lastLen)
    ensures PreCheck(s, lastLen).Bad? <==> CheckRefuses(s, lastLen)
  {
    CompleteExactly(s, CheckFrom(lastLen), 0);
    CompleteRefused(s, CheckFrom(lastLen), 0);
  }

  /** What phr_parse_request answers: the request, -1 or -2, each on the bytes. */
  lemma PhrRequestExactly(s: string, max: nat, lastLen: nat, head: Head<RequestLine>, e: nat)
    requires lastLen <= |s|
    ensures PhrRequest(s, max, lastLen) == Done(head, e) <==> CheckPasses(s, lastLen) && RequestForm(s, max, head, e)
    ensures PhrRequest(s, max, lastLen) == Bad
       <==> CheckRefuses(s, lastLen) || (CheckPasses(s, lastLen) && RequestFault(s, max))
  {
    RequestExactly(s, max, head, e);
    RequestRefused(s, max);
    if lastLen > 0 {
      PreCheckExactly(s, lastLen);
    }
  }

  lemma PhrResponseExactly(s: string, max: nat, lastLen: nat, head: Head<StatusLine>, e: nat)
    requires lastLen <= |s|
    ensures PhrResponse(s, max, lastLen) == Done(head, e) <==> CheckPasses(s, lastLen) && ResponseForm(s, max, head, e)
    ensures PhrResponse(s, max, lastLen) == Bad
       <==> CheckRefuses(s, lastLen) || (CheckPasses(s, lastLen) && ResponseFault(s, max))
  {
    ResponseExactly(s, max, head, e);
    ResponseRefused(s, max);
    if lastLen > 0 {
      PreCheckExactly(s, lastLen);
    }
  }

  lemma PhrHeadersExactly(s: string, max: nat, lastLen: nat, hs: seq<Header>, e: nat)
    requires lastLen <= |s|
    ensures PhrHeaders(s, max, lastLen) == Done(hs, e) <==> CheckPasses(s, lastLen) && HeadersForm(s, 0, 0, max, hs, e)
    ensures PhrHeaders(s, max, lastLen) == Bad
       <==> CheckRefuses(s, lastLen) || (CheckPasses(s, lastLen) && HeadersFault(s, 0, 0, max))
  {
    HeadersExactly(s, 0, 0, max, hs, e);
    HeadersRefused(s, 0, 0, max);
    if lastLen > 0 {
      PreCheckExactly(s, lastLen);
    }
  }
}
