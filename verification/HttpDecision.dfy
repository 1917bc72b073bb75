/** A buffer that holds the end of a head is decided: a parse of it does not ask for more. */
module HttpDecision {
  import opened HttpSyntax
  import opened HttpGrammar
  import opened HttpShape
  import opened HttpRefusal

  /** No scan that stops at LF passes one. */
  lemma {:induction false} StopsBefore(s: string, i: nat, stop: char -> bool, p: nat)
    requires i <= p < |s| && stop(s[p])
    ensures FirstStop(s, i, stop) <= p
    decreases p - i
  {
    if !stop(s[i]) {
      StopsBefore(s, i + 1, stop, p);
    }
  }

  /** A line that starts at `b` is empty, and not the first one. */
  predicate BlankAt(s: string, b: nat) {
    0 < b < |s| && s[b - 1] == '\n' && Newline(s, b).Done?
  }

  lemma TwoNewlinesBlank(s: string, m: nat)
    requires m <= |s| && TwoNewlines(s, m)
    ensures BlankAt(s, Newline(s, m).next)
  {
  }

  lemma NewlineDecided(s: string, i: nat, b: nat)
    requires BlankAt(s, b) && i < b
    ensures !Newline(s, i).More? && (Newline(s, i).Done? ==> Newline(s, i).next <= b)
  {
  }

  lemma LineDecided(s: string, i: nat, b: nat)
    requires BlankAt(s, b) && i < b
    ensures !Line(s, i).More? && (Line(s, i).Done? ==> Line(s, i).next <= b)
  {
    StopsBefore(s, i, IsControl, b - 1);
    NewlineDecided(s, FirstStop(s, i, IsControl), b);
  }

  lemma NameDecided(s: string, i: nat, b: nat)
    requires BlankAt(s, b) && i < b
    ensures !Name(s, i).More? && (Name(s, i).Done? ==> Name(s, i).next < b)
  {
    StopsBefore(s, i, NonToken, b - 1);
    var name := Token(s, i, ':');
    if name.Done? {
      StopsBefore(s, name.next + 1, NotBlank, b - 1);
    }
  }

  lemma HeaderDecided(s: string, i: nat, later: bool, b: nat)
    requires BlankAt(s, b) && i < b
    ensures !HeaderAt(s, i, later).More? && (HeaderAt(s, i, later).Done? ==> HeaderAt(s, i, later).next <= b)
  {
    LineDecided(s, i, b);
    NameDecided(s, i, b);
    if Name(s, i).Done? {
      LineDecided(s, Name(s, i).next, b);
    }
  }

  lemma {:induction false} HeadersDecided(s: string, i: nat, n: nat, max: nat, b: nat)
    requires BlankAt(s, b) && i <= b && n <= max
    ensures !Headers(s, i, n, max).More?
    decreases |s| - i
  {
    if i < b {
      if s[i] == '\r' || s[i] == '\n' {
        NewlineDecided(s, i, b);
      } else if n < max {
        HeaderDecided(s, i, n > 0, b);
        var h := HeaderAt(s, i, n > 0);
        if h.Done? {
          HeadersDecided(s, h.next, n + 1, max, b);
        }
      }
    }
  }

  /** Headers alone: two newlines in a row, wherever they are, decide. */
  lemma HeadersWithEndDecided(s: string, m: nat, max: nat)
    requires m <= |s| && TwoNewlines(s, m)
    ensures !Headers(s, 0, 0, max).More?
  {
    TwoNewlinesBlank(s, m);
    HeadersDecided(s, 0, 0, max, Newline(s, m).next);
  }

  lemma VersionBytes(s: string, i: nat, k: nat)
    requires i <= |s| && Version(s, i).Done? && i <= k < i + 8
    ensures s[k] != '\r' && s[k] != '\n'
  {
    if k < i + 7 {
      assert s[k] == s[i..i + 7][k - i] == "HTTP/1."[k - i];
    }
  }

  /** A version ends before a newline, which it does not contain; only its nine bytes may have to be waited for. */
  lemma VersionDecided(s: string, i: nat, m: nat)
    requires i <= m < |s| && (s[m] == '\r' || s[m] == '\n')
    ensures (Version(s, i).More? <==> |s| < i + 9) && (Version(s, i).Done? ==> i + 8 <= m)
  {
    if Version(s, i).Done? && m < i + 8 {
      VersionBytes(s, i, m);
    }
  }

  // ---------- requests ----------

  lemma VerbDecided(s: string, i: nat, m: nat)
    requires i <= m < |s| && (s[m] == '\r' || s[m] == '\n')
    ensures !Token(s, i, ' ').More?
    ensures Token(s, i, ' ').Done? ==> var j := Spaces(s, Token(s, i, ' ').next); j.Done? && j.next <= m
  {
    StopsBefore(s, i, NonToken, m);
    if Token(s, i, ' ').Done? {
      StopsBefore(s, Token(s, i, ' ').next + 1, NotSpace, m);
    }
  }

  lemma PathDecided(s: string, i: nat, m: nat)
    requires i <= m < |s| && (s[m] == '\r' || s[m] == '\n')
    ensures !Path(s, i).More?
    ensures Path(s, i).Done? ==> var j := Spaces(s, Path(s, i).next); j.Done? && j.next <= m
  {
    StopsBefore(s, i, EndsPath, m);
    if Path(s, i).Done? {
      StopsBefore(s, Path(s, i).next + 1, NotSpace, m);
    }
  }

  /** From the version to the end of the line: the newline is the one at `m`, or an earlier one. */
  lemma LineEndDecided(s: string, v: nat, m: nat, b: nat)
    requires v <= m < |s| && (s[m] == '\r' || s[m] == '\n') && m < b && BlankAt(s, b)
    ensures Version(s, v).More? <==> |s| < v + 9
    ensures Version(s, v).Done? ==> !Newline(s, v + 8).More? && (Newline(s, v + 8).Done? ==> Newline(s, v + 8).next <= b)
  {
    VersionDecided(s, v, m);
    if Version(s, v).Done? {
      NewlineDecided(s, v + 8, b);
    }
  }

  /** A first newline before a request takes the place of the one at the end of its line. */
  lemma StartDecided(s: string, m: nat)
    requires m <= |s| && TwoNewlines(s, m)
    ensures !LeadingNewline(s).More?
    ensures LeadingNewline(s).Done? && LeadingNewline(s).next > m ==>
              LeadingNewline(s).next < |s| && !IsToken(s[LeadingNewline(s).next]) && RequestLineOf(s) == Bad
  {
    if LeadingNewline(s).Done? && LeadingNewline(s).next > m {
      var i := LeadingNewline(s).next;
      assert s[i] == '\r' || s[i] == '\n';
      assert FirstStop(s, i, NonToken) == i;
    }
  }

  /** Method and path are there, and the version begins at `v`. */
  predicate VersionAt(s: string, i: nat, j: nat, k: nat, p: nat, v: nat) {
    StartForm(s, i) && i < j && VerbForm(s, i, j, k) && TargetForm(s, k, p, v)
  }

  ghost predicate VersionAwaited(s: string) {
    exists i: nat, j: nat, k: nat, p: nat, v: nat :: VersionAt(s, i, j, k, p, v) && |s| < v + 9
  }

  lemma VersionAtExactly(s: string, i: nat, j: nat, k: nat, p: nat, v: nat)
    requires VersionAt(s, i, j, k, p, v)
    ensures LeadingNewline(s) == Done((), i) && Token(s, i, ' ') == Done(Slice(i, j), j) && Spaces(s, j) == Done((), k)
    ensures Path(s, k) == Done(Slice(k, p), p) && Spaces(s, p) == Done((), v)
  {
    StartExactly(s, i);
    VerbExactly(s, i, j, k);
    TargetExactly(s, k, p, v);
  }

  lemma LineFromVersion(s: string, i: nat, j: nat, k: nat, p: nat, v: nat)
    requires VersionAt(s, i, j, k, p, v)
    ensures RequestLineOf(s).More? <==> Version(s, v).More? || (Version(s, v).Done? && Newline(s, v + 8).More?)
    ensures RequestLineOf(s).Done? ==> Version(s, v).Done? && Newline(s, v + 8) == Done((), RequestLineOf(s).next)
  {
    VersionAtExactly(s, i, j, k, p, v);
    assert s[k] != ' ';
    assert p > k;
  }

  /** Everything before the version is decided; the version begins before the newline. */
  lemma RequestLineDecided(s: string, m: nat)
    requires m <= |s| && TwoNewlines(s, m)
    ensures RequestLineOf(s).More? <==> VersionAwaited(s)
    ensures RequestLineOf(s).Done? ==> RequestLineOf(s).next <= Newline(s, m).next
    ensures VersionAwaited(s) ==> |s| < m + 9
  {
    StartDecided(s, m);
    TwoNewlinesBlank(s, m);
    forall i: nat, j: nat, k: nat, p: nat, v: nat | VersionAt(s, i, j, k, p, v)
      ensures RequestLineOf(s).More? <==> |s| < v + 9
      ensures |s| < v + 9 ==> |s| < m + 9
    {
      VersionAtDecides(s, m, i, j, k, p, v);
    }
    var start := LeadingNewline(s);
    if start.Done? && start.next <= m {
      BeforeVersion(s, m, start.next);
    }
  }

  lemma VersionAtDecides(s: string, m: nat, i: nat, j: nat, k: nat, p: nat, v: nat)
    requires m <= |s| && TwoNewlines(s, m) && VersionAt(s, i, j, k, p, v)
    ensures v <= m && (RequestLineOf(s).More? <==> |s| < v + 9)
    ensures RequestLineOf(s).Done? ==> RequestLineOf(s).next <= Newline(s, m).next
  {
    StartDecided(s, m);
    TwoNewlinesBlank(s, m);
    VersionAtExactly(s, i, j, k, p, v);
    LineFromVersion(s, i, j, k, p, v);
    assert IsToken(s[i]);
    VerbDecided(s, i, m);
    PathDecided(s, k, m);
    LineEndDecided(s, v, m, Newline(s, m).next);
  }

  lemma BeforeVersion(s: string, m: nat, i: nat)
    requires m <= |s| && TwoNewlines(s, m) && LeadingNewline(s) == Done((), i) && i <= m
    ensures RequestLineOf(s).More? ==> VersionAwaited(s)
    ensures RequestLineOf(s).Done? ==> RequestLineOf(s).next <= Newline(s, m).next
  {
    StartExactly(s, i);
    VerbDecided(s, i, m);
    if Token(s, i, ' ').Done? && Token(s, i, ' ').next > i {
      var j := Token(s, i, ' ').next;
      var k := Spaces(s, j).next;
      VerbExactly(s, i, j, k);
      PathDecided(s, k, m);
      if Path(s, k).Done? {
        var p := Path(s, k).next;
        var v := Spaces(s, p).next;
        TargetExactly(s, k, p, v);
        assert VersionAt(s, i, j, k, p, v);
        VersionAtDecides(s, m, i, j, k, p, v);
      }
    }
  }

  /** With the end of a head in the buffer, a request is still waited for if and only if its version has fewer than nine bytes. */
  lemma RequestUndecidedExactly(s: string, m: nat, max: nat)
    requires m <= |s| && TwoNewlines(s, m)
    ensures Request(s, max).More? <==> VersionAwaited(s)
  {
    RequestLineDecided(s, m);
    TwoNewlinesBlank(s, m);
    if RequestLineOf(s).Done? {
      HeadersDecided(s, RequestLineOf(s).next, 0, max, Newline(s, m).next);
    }
  }

  /** So with nine bytes from the first of two newlines on it is parsed or refused. */
  lemma RequestDecided(s: string, m: nat, max: nat)
    requires m + 9 <= |s| && TwoNewlines(s, m)
    ensures !Request(s, max).More?
  {
    RequestLineDecided(s, m);
    RequestUndecidedExactly(s, m, max);
  }

  /** With eight it need not be. */
  lemma RequestUndecided()
    ensures TwoNewlines("G / \n\n......", 4) && Request("G / \n\n......", 1) == More
  {
    var s := "G / \n\n......";
    assert Newline(s, 4) == Done((), 5) && Newline(s, 5) == Done((), 6);
    assert VersionAt(s, 0, 1, 2, 3, 4);
    RequestUndecidedExactly(s, 4, 1);
  }

  // ---------- responses ----------

  lemma CodeDecided(s: string, c: nat, m: nat)
    requires c <= m < |s| && (s[m] == '\r' || s[m] == '\n')
    ensures (StatusCode(s, c).More? <==> |s| < c + 4) && (StatusCode(s, c).Done? ==> c + 3 <= m)
  {
  }

  /** The bytes of the version, or of the code after it, are not all there. */
  ghost predicate StatusAwaited(s: string) {
    |s| < 9 || (!VersionFault(s, 0) && s[8] == ' ' && exists c: nat :: CodeAt(s, c) && |s| < c + 4)
  }

  lemma StatusLineDecided(s: string, m: nat)
    requires m <= |s| && TwoNewlines(s, m)
    ensures StatusLineOf(s).More? <==> StatusAwaited(s)
    ensures StatusLineOf(s).Done? ==> StatusLineOf(s).next <= Newline(s, m).next
    ensures StatusAwaited(s) ==> |s| < m + 9
  {
    TwoNewlinesBlank(s, m);
    VersionDecided(s, 0, m);
    VersionRefused(s, 0);
    if Version(s, 0).Done? && s[8] == ' ' {
      StopsBefore(s, 9, NotSpace, m);
      CodeDecides(s, Spaces(s, 8).next, m);
    }
  }

  lemma CodeDecides(s: string, c: nat, m: nat)
    requires m <= |s| && TwoNewlines(s, m) && Version(s, 0).Done? && s[8] == ' ' && Spaces(s, 8) == Done((), c) && c <= m
    ensures StatusLineOf(s).More? <==> |s| < c + 4
    ensures StatusLineOf(s).Done? ==> StatusLineOf(s).next <= Newline(s, m).next
    ensures CodeAt(s, c) && forall d: nat :: CodeAt(s, d) ==> d == c
  {
    TwoNewlinesBlank(s, m);
    CodeDecided(s, c, m);
    SpacesExactly(s, 8, c);
    forall d: nat | CodeAt(s, d)
      ensures d == c
    {
      SpacesExactly(s, 8, d);
    }
    if StatusCode(s, c).Done? {
      LineDecided(s, c + 3, Newline(s, m).next);
    }
  }

  lemma ResponseUndecidedExactly(s: string, m: nat, max: nat)
    requires m <= |s| && TwoNewlines(s, m)
    ensures Response(s, max).More? <==> StatusAwaited(s)
  {
    StatusLineDecided(s, m);
    TwoNewlinesBlank(s, m);
    if StatusLineOf(s).Done? {
      HeadersDecided(s, StatusLineOf(s).next, 0, max, Newline(s, m).next);
    }
  }

  /** The same for a response. */
  lemma ResponseDecided(s: string, m: nat, max: nat)
    requires m + 9 <= |s| && TwoNewlines(s, m)
    ensures !Response(s, max).More?
  {
    StatusLineDecided(s, m);
    ResponseUndecidedExactly(s, m, max);
  }
}
