/** More bytes never change an answer other than "more bytes needed". */
module HttpStability {
  import opened HttpSyntax

  predicate Extends(s: string, t: string) {
    |s| <= |t| && forall k :: 0 <= k < |s| ==> t[k] == s[k]
  }

  /** The answer for the longer input is the one for the shorter, if that was one. */
  predicate Kept<T(==)>(r: Res<T>, r': Res<T>) {
    r.More? || r' == r
  }

  lemma {:induction false} FirstStopKept(s: string, t: string, i: nat, stop: char -> bool)
    requires Extends(s, t) && i <= |s|
    ensures FirstStop(s, i, stop) < |s| ==> FirstStop(t, i, stop) == FirstStop(s, i, stop)
    ensures FirstStop(s, i, stop) <= FirstStop(t, i, stop)
    decreases |s| - i
  {
    if i < |s| && !stop(s[i]) {
      FirstStopKept(s, t, i + 1, stop);
    }
  }

  lemma NewlineKept(s: string, t: string, i: nat)
    requires Extends(s, t) && i <= |s|
    ensures Kept(Newline(s, i), Newline(t, i))
  {
  }

  lemma TokenKept(s: string, t: string, i: nat, end: char)
    requires Extends(s, t) && i <= |s|
    ensures Kept(Token(s, i, end), Token(t, i, end))
  {
    FirstStopKept(s, t, i, NonToken);
  }

  lemma LineKept(s: string, t: string, i: nat)
    requires Extends(s, t) && i <= |s|
    ensures Kept(Line(s, i), Line(t, i))
  {
    FirstStopKept(s, t, i, IsControl);
    NewlineKept(s, t, FirstStop(s, i, IsControl));
  }

  lemma PathKept(s: string, t: string, i: nat)
    requires Extends(s, t) && i <= |s|
    ensures Kept(Path(s, i), Path(t, i))
  {
    FirstStopKept(s, t, i, EndsPath);
  }

  lemma SpacesKept(s: string, t: string, i: nat)
    requires Extends(s, t) && i < |s|
    ensures Kept(Spaces(s, i), Spaces(t, i))
  {
    FirstStopKept(s, t, i + 1, NotSpace);
  }

  lemma VersionKept(s: string, t: string, i: nat)
    requires Extends(s, t) && i <= |s|
    ensures Kept(Version(s, i), Version(t, i))
  {
    if |s| >= i + 9 {
      assert s[i..i + 7] == t[i..i + 7];
    }
  }

  lemma {:induction false} TrimmedKept(s: string, t: string, from: nat, to: nat)
    requires Extends(s, t) && from <= to <= |s|
    ensures TrimmedEnd(s, from, to) == TrimmedEnd(t, from, to)
  {
    if to > from && IsBlank(s[to - 1]) {
      TrimmedKept(s, t, from, to - 1);
    }
  }

  lemma NameKept(s: string, t: string, i: nat)
    requires Extends(s, t) && i <= |s|
    ensures Kept(Name(s, i), Name(t, i))
  {
    TokenKept(s, t, i, ':');
    var name := Token(s, i, ':');
    if name.Done? {
      FirstStopKept(s, t, name.next + 1, NotBlank);
    }
  }

  lemma ValueKept(s: string, t: string, i: nat)
    requires Extends(s, t) && i <= |s|
    ensures Kept(Value(s, i), Value(t, i))
  {
    LineKept(s, t, i);
    var line := Line(s, i);
    if line.Done? {
      TrimmedKept(s, t, i, line.value.to);
    }
  }

  lemma HeaderKept(s: string, t: string, i: nat, later: bool)
    requires Extends(s, t) && i < |s|
    ensures Kept(HeaderAt(s, i, later), HeaderAt(t, i, later))
  {
    if later && IsBlank(s[i]) {
      ValueKept(s, t, i);
    } else {
      NameKept(s, t, i);
      var name := Name(s, i);
      if name.Done? {
        ValueKept(s, t, name.next);
      }
    }
  }

  lemma {:induction false} HeadersKept(s: string, t: string, i: nat, n: nat, max: nat)
    requires Extends(s, t) && i <= |s| && n <= max
    ensures Kept(Headers(s, i, n, max), Headers(t, i, n, max))
    decreases |s| - i
  {
    if i < |s| {
      if s[i] == '\r' || s[i] == '\n' {
        NewlineKept(s, t, i);
      } else if n < max {
        HeaderKept(s, t, i, n > 0);
        var h := HeaderAt(s, i, n > 0);
        if h.Done? {
          HeadersKept(s, t, h.next, n + 1, max);
        }
      }
    }
  }

  lemma LeadingNewlineKept(s: string, t: string)
    requires Extends(s, t)
    ensures Kept(LeadingNewline(s), LeadingNewline(t))
  {
    if |s| > 0 {
      NewlineKept(s, t, 0);
    }
  }

  lemma RequestLineKept(s: string, t: string)
    requires Extends(s, t)
    ensures Kept(RequestLineOf(s), RequestLineOf(t))
  {
    LeadingNewlineKept(s, t);
    var start := LeadingNewline(s);
    if start.Done? {
      TokenKept(s, t, start.next, ' ');
      var verb := Token(s, start.next, ' ');
      if verb.Done? {
        SpacesKept(s, t, verb.next);
        var i := Spaces(s, verb.next);
        if i.Done? {
          TargetKept(s, t, i.next);
        }
      }
    }
  }

  /** From the path to the end of the request line. */
  lemma TargetKept(s: string, t: string, i: nat)
    requires Extends(s, t) && i <= |s|
    ensures Kept(Path(s, i), Path(t, i))
    ensures Path(s, i).Done? ==>
              var j, j' := Spaces(s, Path(s, i).next), Spaces(t, Path(s, i).next);
              && Kept(j, j')
              && (j.Done? ==>
                    && Kept(Version(s, j.next), Version(t, j.next))
                    && (Version(s, j.next).Done? ==>
                          Kept(Newline(s, Version(s, j.next).next), Newline(t, Version(s, j.next).next))))
  {
    PathKept(s, t, i);
    var path := Path(s, i);
    if path.Done? {
      SpacesKept(s, t, path.next);
      var j := Spaces(s, path.next);
      if j.Done? {
        VersionKept(s, t, j.next);
        if Version(s, j.next).Done? {
          NewlineKept(s, t, Version(s, j.next).next);
        }
      }
    }
  }

  lemma StatusCodeKept(s: string, t: string, i: nat)
    requires Extends(s, t) && i <= |s|
    ensures Kept(StatusCode(s, i), StatusCode(t, i))
  {
  }

  lemma MessageKept(s: string, t: string, line: Slice)
    requires Extends(s, t) && line.from <= line.to < |s| && s[line.to] != ' '
    ensures MessageOf(t, line) == MessageOf(s, line)
  {
    FirstStopKept(s, t, line.from, NotSpace);
  }

  lemma StatusLineKept(s: string, t: string)
    requires Extends(s, t)
    ensures Kept(StatusLineOf(s), StatusLineOf(t))
  {
    VersionKept(s, t, 0);
    var minor := Version(s, 0);
    if minor.Done? && s[minor.next] == ' ' {
      SpacesKept(s, t, minor.next);
      var i := Spaces(s, minor.next);
      if i.Done? {
        StatusCodeKept(s, t, i.next);
        var status := StatusCode(s, i.next);
        if status.Done? {
          LineKept(s, t, status.next);
          var line := Line(s, status.next);
          if line.Done? {
            MessageKept(s, t, line.value);
          }
        }
      }
    }
  }

  /** A request that was parsed, or refused, stays so however the buffer goes on. */
  lemma RequestStable(s: string, t: string, max: nat)
    requires Extends(s, t)
    ensures !Request(s, max).More? ==> Request(t, max) == Request(s, max)
  {
    RequestLineKept(s, t);
    var first := RequestLineOf(s);
    if first.Done? {
      HeadersKept(s, t, first.next, 0, max);
    }
  }

  lemma ResponseStable(s: string, t: string, max: nat)
    requires Extends(s, t)
    ensures !Response(s, max).More? ==> Response(t, max) == Response(s, max)
  {
    StatusLineKept(s, t);
    var first := StatusLineOf(s);
    if first.Done? {
      HeadersKept(s, t, first.next, 0, max);
    }
  }
}
