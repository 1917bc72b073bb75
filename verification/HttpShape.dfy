/** What a successful parse says about the bytes of the head. */
module HttpShape {
  import opened HttpSyntax

  // ---------- newlines ----------

  /** Every CR between two positions has its LF there, too. */
  predicate CrlfOnly(s: string, i: nat, j: nat)
    requires j <= |s|
  {
    forall k :: i <= k < j && s[k] == '\r' ==> k + 1 < j && s[k + 1] == '\n'
  }

  predicate NoCr(s: string, i: nat, j: nat)
    requires j <= |s|
  {
    forall k :: i <= k < j ==> s[k] != '\r'
  }

  lemma NewlineShape(s: string, i: nat)
    requires i <= |s| && Newline(s, i).Done?
    ensures CrlfOnly(s, i, Newline(s, i).next) && s[Newline(s, i).next - 1] == '\n'
  {
  }

  lemma LineShape(s: string, i: nat)
    requires i <= |s| && Line(s, i).Done?
    ensures CrlfOnly(s, i, Line(s, i).next) && s[Line(s, i).next - 1] == '\n'
  {
    NewlineShape(s, FirstStop(s, i, IsControl));
  }

  lemma NameShape(s: string, i: nat)
    requires i <= |s| && Name(s, i).Done?
    ensures NoCr(s, i, Name(s, i).next)
  {
    var name := Token(s, i, ':');
    var j := FirstStop(s, name.next + 1, NotBlank);
    forall k | i <= k < j
      ensures s[k] != '\r'
    {
      if k < name.next { assert !NonToken(s[k]); } else if k > name.next { assert !NotBlank(s[k]); }
    }
  }

  lemma HeaderShape(s: string, i: nat, later: bool)
    requires i < |s| && HeaderAt(s, i, later).Done?
    ensures CrlfOnly(s, i, HeaderAt(s, i, later).next) && s[HeaderAt(s, i, later).next - 1] == '\n'
  {
    if later && IsBlank(s[i]) {
      LineShape(s, i);
    } else {
      NameShape(s, i);
      LineShape(s, Name(s, i).next);
    }
  }

  /** The line that starts at `m` and ends at `e` is empty; it follows a newline, unless it is where one started. */
  predicate EmptyLine(s: string, i: nat, m: nat, e: nat) {
    i <= m < |s| && Newline(s, m) == Done((), e) && (m == i || s[m - 1] == '\n')
  }

  lemma {:induction false} HeadersShape(s: string, i: nat, n: nat, max: nat) returns (m: nat)
    requires i <= |s| && n <= max && Headers(s, i, n, max).Done?
    ensures CrlfOnly(s, i, Headers(s, i, n, max).next) && EmptyLine(s, i, m, Headers(s, i, n, max).next)
    ensures |Headers(s, i, n, max).value| > 0 ==> m > i
    decreases |s| - i
  {
    if s[i] == '\r' || s[i] == '\n' {
      NewlineShape(s, i);
      m := i;
    } else {
      HeaderShape(s, i, n > 0);
      m := HeadersShape(s, HeaderAt(s, i, n > 0).next, n + 1, max);
    }
  }

  lemma StartShape(s: string)
    requires LeadingNewline(s).Done?
    ensures CrlfOnly(s, 0, LeadingNewline(s).next)
  {
  }

  lemma RequestLineShape(s: string)
    requires RequestLineOf(s).Done?
    ensures CrlfOnly(s, 0, RequestLineOf(s).next) && s[RequestLineOf(s).next - 1] == '\n'
  {
    var i0, i1, i2, i3, v := RequestLineParts(s);
    PartsShape(s, i0, i1, i2, i3, v);
    StartShape(s);
    NewlineShape(s, v + 8);
    CrlfOnlyOn(s, i0, v + 8, RequestLineOf(s).next);
  }

  lemma PartsShape(s: string, i0: nat, i1: nat, i2: nat, i3: nat, v: nat)
    requires i0 < i1 < i2 < i3 < v && v + 8 < |s| && Token(s, i0, ' ') == Done(Slice(i0, i1), i1)
    requires Spaces(s, i1) == Done((), i2) && Path(s, i2) == Done(Slice(i2, i3), i3) && Spaces(s, i3) == Done((), v)
    requires Version(s, v).Done?
    ensures NoCr(s, i0, v + 8)
  {
    TokenShape(s, i0, ' ');
    SpacesShape(s, i1);
    PathShape(s, i2);
    SpacesShape(s, i3);
    VersionShape(s, v);
    NoCrOn(s, i0, i1, i2);
    NoCrOn(s, i0, i2, i3);
    NoCrOn(s, i0, i3, v);
    NoCrOn(s, i0, v, v + 8);
  }

  lemma NoCrOn(s: string, i: nat, j: nat, k: nat)
    requires i <= j <= k <= |s| && NoCr(s, i, j) && NoCr(s, j, k)
    ensures NoCr(s, i, k)
  {
  }

  lemma CrlfOnlyOn(s: string, i: nat, j: nat, k: nat)
    requires i <= j <= k <= |s| && NoCr(s, i, j) && CrlfOnly(s, j, k)
    ensures CrlfOnly(s, i, k)
  {
  }

  lemma TokenShape(s: string, i: nat, end: char)
    requires i <= |s| && Token(s, i, end).Done?
    ensures NoCr(s, i, Token(s, i, end).next)
  {
    assert forall k :: i <= k < Token(s, i, end).next ==> !NonToken(s[k]);
  }

  lemma SpacesShape(s: string, i: nat)
    requires i < |s| && Spaces(s, i).Done? && s[i] != '\r'
    ensures NoCr(s, i, Spaces(s, i).next)
  {
    assert forall k :: i < k < Spaces(s, i).next ==> !NotSpace(s[k]);
  }

  lemma PathShape(s: string, i: nat)
    requires i <= |s| && Path(s, i).Done?
    ensures NoCr(s, i, Path(s, i).next)
  {
    assert forall k :: i <= k < Path(s, i).next ==> !EndsPath(s[k]);
  }

  lemma VersionShape(s: string, i: nat)
    requires i <= |s| && Version(s, i).Done?
    ensures NoCr(s, i, i + 8)
  {
    forall k | i <= k < i + 8
      ensures s[k] != '\r'
    {
      if k < i + 7 {
        assert s[k] == s[i..i + 7][k - i] == "HTTP/1."[k - i];
      }
    }
  }

  lemma StatusLineShape(s: string)
    requires StatusLineOf(s).Done?
    ensures CrlfOnly(s, 0, StatusLineOf(s).next) && s[StatusLineOf(s).next - 1] == '\n'
  {
    var i1 := Version(s, 0).next;
    var i2 := Spaces(s, i1).next;
    var i3 := StatusCode(s, i2).next;
    VersionShape(s, 0);
    SpacesShape(s, i1);
    assert NoCr(s, i2, i3);
    LineShape(s, i3);
  }

  // ---------- the completeness check ----------

  /** Two newlines in a row at `m`. */
  predicate TwoNewlines(s: string, m: nat)
    requires m <= |s|
  {
    Newline(s, m).Done? && Newline(s, Newline(s, m).next).Done?
  }

  /** From `i` on there are two newlines in a row, and no stray CR before them. */
  ghost predicate BlankLineFrom(s: string, i: nat)
  {
    exists m: nat :: i <= m < |s| && TwoNewlines(s, m) && CrlfOnly(s, i, m)
  }

  /** What the search finds: a newline at once, when there was one before, or two of them in a row. */
  lemma {:induction false} CompleteExactly(s: string, i: nat, count: nat)
    requires i <= |s| && count < 2
    ensures Complete(s, i, count).Done? <==> (count == 1 && Newline(s, i).Done?) || BlankLineFrom(s, i)
    decreases |s| - i
  {
    if i < |s| {
      if s[i] == '\r' || s[i] == '\n' {
        var e := Newline(s, i);
        if e.Done? {
          if count == 0 {
            CompleteExactly(s, e.next, 1);
          }
          BlankAfterNewline(s, i);
        }
      } else {
        CompleteExactly(s, i + 1, 0);
        BlankAfterByte(s, i);
      }
    }
  }

  lemma BlankAfterByte(s: string, i: nat)
    requires i < |s| && s[i] != '\r' && s[i] != '\n'
    ensures BlankLineFrom(s, i) <==> BlankLineFrom(s, i + 1)
  {
    if BlankLineFrom(s, i) {
      var m: nat :| i <= m < |s| && TwoNewlines(s, m) && CrlfOnly(s, i, m);
      assert i + 1 <= m && CrlfOnly(s, i + 1, m);
    }
    if BlankLineFrom(s, i + 1) {
      var m: nat :| i + 1 <= m < |s| && TwoNewlines(s, m) && CrlfOnly(s, i + 1, m);
      assert CrlfOnly(s, i, m);
    }
  }

  lemma BlankAfterNewline(s: string, i: nat)
    requires i < |s| && Newline(s, i).Done?
    ensures BlankLineFrom(s, i) <==> Newline(s, Newline(s, i).next).Done? || BlankLineFrom(s, Newline(s, i).next)
  {
    var e := Newline(s, i).next;
    if BlankLineFrom(s, i) {
      var m: nat :| i <= m < |s| && TwoNewlines(s, m) && CrlfOnly(s, i, m);
      assert m > i ==> e <= m && CrlfOnly(s, e, m);
    }
    if Newline(s, e).Done? {
      assert TwoNewlines(s, i) && CrlfOnly(s, i, i);
    }
    if BlankLineFrom(s, e) {
      var m: nat :| e <= m < |s| && TwoNewlines(s, m) && CrlfOnly(s, e, m);
      assert CrlfOnly(s, i, m);
    }
  }

  lemma EndIsFound(s: string, m: nat, n: nat, lastLen: nat)
    requires 0 < m < |s| && s[m - 1] == '\n' && Newline(s, m) == Done((), n) && CrlfOnly(s, 0, n)
    requires 0 < lastLen < n
    ensures PreCheck(s, lastLen).Done?
  {
    var before := if m >= 2 && s[m - 2] == '\r' then m - 2 else m - 1;
    var i := if lastLen < 3 then 0 else lastLen - 3;
    assert i <= before && TwoNewlines(s, before) && CrlfOnly(s, i, before);
    CompleteExactly(s, i, 0);
  }

  /** The check does not change the answer for a request that is there and was not there before. */
  lemma RequestPreCheck(s: string, max: nat, lastLen: nat)
    requires Request(s, max).Done? && lastLen < Request(s, max).next
    ensures PhrRequest(s, max, lastLen) == Request(s, max)
  {
    if lastLen > 0 {
      RequestLineShape(s);
      var i := RequestLineOf(s).next;
      var m := HeadersShape(s, i, 0, max);
      EndIsFound(s, m, Request(s, max).next, lastLen);
    }
  }

  lemma ResponsePreCheck(s: string, max: nat, lastLen: nat)
    requires Response(s, max).Done? && lastLen < Response(s, max).next
    ensures PhrResponse(s, max, lastLen) == Response(s, max)
  {
    if lastLen > 0 {
      StatusLineShape(s);
      var i := StatusLineOf(s).next;
      var m := HeadersShape(s, i, 0, max);
      EndIsFound(s, m, Response(s, max).next, lastLen);
    }
  }

  /**
   For headers alone this holds but for one family of inputs: they begin with an empty line, for which the search
   does not stop, and after it there is neither another newline nor two in a row.
   */
  lemma HeadersPreCheck(s: string, max: nat, lastLen: nat)
    requires Headers(s, 0, 0, max).Done? && lastLen < Headers(s, 0, 0, max).next
    ensures PhrHeaders(s, max, lastLen) == Headers(s, 0, 0, max)
       <==> lastLen == 0 || (s[0] != '\r' && s[0] != '\n') || Newline(s, 2).Done? || BlankLineFrom(s, 2)
  {
    if lastLen > 0 {
      var m := HeadersShape(s, 0, 0, max);
      if s[0] == '\r' || s[0] == '\n' {
        CompleteExactly(s, 2, 1);
      } else {
        EndIsFound(s, m, Headers(s, 0, 0, max).next, lastLen);
      }
    }
  }

  lemma HeadersPreCheckFails()
    ensures Headers("\r\n", 0, 0, 1) == Done([], 2) && PhrHeaders("\r\n", 1, 1) == More
  {
    assert Complete("\r\n", 2, 1) == More;
    assert Newline("\r\n", 0) == Done((), 2);
  }
}
