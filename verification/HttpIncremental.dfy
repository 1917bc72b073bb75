/** Reading a head piece by piece: what a call with the length of the last one may rely on. */
module HttpIncremental {
  import opened Options
  import opened HttpSyntax
  import opened HttpGrammar
  import opened HttpStability
  import opened HttpShape

  /** Two buffers agree on their first `e` bytes. */
  predicate Agree(s: string, t: string, e: nat) {
    e <= |s| && e <= |t| && forall k :: 0 <= k < e ==> t[k] == s[k]
  }

  lemma NewlineAgrees(s: string, t: string, i: nat, e: nat)
    requires i < |s| && Newline(s, i) == Done((), e) && Agree(s, t, e)
    ensures Newline(t, i) == Done((), e)
  {
  }

  lemma HeaderAgrees(s: string, t: string, i: nat, n: nat, h: Header, e: nat)
    requires HeaderForm(s, i, n, h, e) && Agree(s, t, e)
    ensures HeaderForm(t, i, n, h, e)
  {
    var l :| ValueForm(s, h.value.from, h.value, l, e);
    NewlineAgrees(s, t, l, e);
    assert ValueForm(t, h.value.from, h.value, l, e);
  }

  lemma {:induction false} HeadersAgree(s: string, t: string, i: nat, n: nat, max: nat, hs: seq<Header>, e: nat)
    requires i <= |s| && n <= max && HeadersForm(s, i, n, max, hs, e) && Agree(s, t, e)
    ensures HeadersForm(t, i, n, max, hs, e)
    decreases |hs|
  {
    if |hs| == 0 {
      NewlineAgrees(s, t, i, e);
    } else {
      var k :| i < k <= |s| && HeaderForm(s, i, n, hs[0], k) && HeadersForm(s, k, n + 1, max, hs[1..], e);
      HeadersInOrder(s, k, n + 1, max, hs[1..], e);
      HeaderAgrees(s, t, i, n, hs[0], k);
      HeadersAgree(s, t, k, n + 1, max, hs[1..], e);
    }
  }

  lemma VersionAgrees(s: string, t: string, v: nat, minor: nat, e: nat)
    requires VersionForm(s, v, minor) && v + 8 < e && Agree(s, t, e)
    ensures VersionForm(t, v, minor)
  {
    assert t[v..v + 7] == s[v..v + 7];
  }

  lemma RequestLineAgrees(s: string, t: string, r: RequestLine, v: nat, e: nat)
    requires RequestLineForm(s, r, v, e) && Agree(s, t, e)
    ensures RequestLineForm(t, r, v, e)
  {
    VersionAgrees(s, t, v, r.minor, e);
    NewlineAgrees(s, t, v + 8, e);
    if r.verb.from > 0 {
      NewlineAgrees(s, t, 0, r.verb.from);
    }
  }

  /** The answer for a complete request depends on the bytes of its head only. */
  lemma RequestLocal(s: string, t: string, max: nat)
    requires Request(s, max).Done? && Agree(s, t, Request(s, max).next)
    ensures Request(t, max) == Request(s, max)
  {
    var head, e := Request(s, max).value, Request(s, max).next;
    RequestExactly(s, max, head, e);
    var v: nat, i: nat :| i <= |s| && RequestLineForm(s, head.first, v, i) && HeadersForm(s, i, 0, max, head.headers, e);
    HeadersInOrder(s, i, 0, max, head.headers, e);
    HeadersAgree(s, t, i, 0, max, head.headers, e);
    RequestLineAgrees(s, t, head.first, v, i);
    assert RequestForm(t, max, head, e);
    RequestExactly(t, max, head, e);
  }

  lemma ResponseLocal(s: string, t: string, max: nat)
    requires Response(s, max).Done? && Agree(s, t, Response(s, max).next)
    ensures Response(t, max) == Response(s, max)
  {
    var head, e := Response(s, max).value, Response(s, max).next;
    ResponseExactly(s, max, head, e);
    var c: nat, i: nat :| i <= |s| && StatusLineForm(s, head.first, c, i) && HeadersForm(s, i, 0, max, head.headers, e);
    HeadersInOrder(s, i, 0, max, head.headers, e);
    HeadersAgree(s, t, i, 0, max, head.headers, e);
    VersionAgrees(s, t, 0, head.first.minor, e);
    NewlineAgrees(s, t, head.first.message.to, i);
    assert StatusLineForm(t, head.first, c, i);
    ResponseExactly(t, max, head, e);
  }

  /** When the last call, on `lastLen` bytes, was not decided, the check for completeness hides no request. */
  lemma RequestResumes(s: string, max: nat, lastLen: nat)
    requires lastLen <= |s| && Request(s[..lastLen], max).More? && Request(s, max).Done?
    ensures PhrRequest(s, max, lastLen) == Request(s, max)
  {
    if Request(s, max).next <= lastLen {
      RequestLocal(s, s[..lastLen], max);
    }
    RequestPreCheck(s, max, lastLen);
  }

  lemma ResponseResumes(s: string, max: nat, lastLen: nat)
    requires lastLen <= |s| && Response(s[..lastLen], max).More? && Response(s, max).Done?
    ensures PhrResponse(s, max, lastLen) == Response(s, max)
  {
    if Response(s, max).next <= lastLen {
      ResponseLocal(s, s[..lastLen], max);
    }
    ResponsePreCheck(s, max, lastLen);
  }

  // ---------- a reader that calls again and again ----------

  datatype Kind = Requests | Responses

  type Parsed = Res<(Option<RequestLine>, Option<StatusLine>, seq<Header>)>

  /** Either parse, with a common type of result. */
  function Parse(kind: Kind, s: string, max: nat): (r: Parsed)
    ensures r.Done? ==> 0 < r.next <= |s|
  {
    match kind
    case Requests =>
      var r :- Request(s, max);
      Done((Some(r.value.first), None, r.value.headers), r.next)
    case Responses =>
      var r :- Response(s, max);
      Done((None, Some(r.value.first), r.value.headers), r.next)
  }

  /** The same behind the check for completeness. */
  function Call(kind: Kind, s: string, max: nat, lastLen: nat): Parsed
    requires lastLen <= |s|
  {
    if lastLen == 0 then Parse(kind, s, max)
    else
      var _ :- PreCheck(s, lastLen);
      Parse(kind, s, max)
  }

  /** These are the calls of the parser. */
  lemma CallIsPhr(s: string, max: nat, lastLen: nat)
    requires lastLen <= |s|
    ensures Call(Requests, s, max, lastLen)
         == match PhrRequest(s, max, lastLen)
            case Done(h, e) => Done((Some(h.first), None, h.headers), e)
            case Bad => Bad
            case More => More
    ensures Call(Responses, s, max, lastLen)
         == match PhrResponse(s, max, lastLen)
            case Done(h, e) => Done((None, Some(h.first), h.headers), e)
            case Bad => Bad
            case More => More
  {
  }

  lemma ParseStable(kind: Kind, s: string, t: string, max: nat)
    requires Extends(s, t)
    ensures !Parse(kind, s, max).More? ==> Parse(kind, t, max) == Parse(kind, s, max)
  {
    RequestStable(s, t, max);
    ResponseStable(s, t, max);
  }

  lemma ParseLocal(kind: Kind, s: string, t: string, max: nat)
    requires Parse(kind, s, max).Done? && Agree(s, t, Parse(kind, s, max).next)
    ensures Parse(kind, t, max) == Parse(kind, s, max)
  {
    match kind
    case Requests => RequestLocal(s, t, max);
    case Responses => ResponseLocal(s, t, max);
  }

  lemma CallAgrees(kind: Kind, s: string, max: nat, lastLen: nat)
    requires Parse(kind, s, max).Done? && lastLen < Parse(kind, s, max).next
    ensures Call(kind, s, max, lastLen) == Parse(kind, s, max)
  {
    match kind
    case Requests => RequestPreCheck(s, max, lastLen);
    case Responses => ResponsePreCheck(s, max, lastLen);
  }

  lemma ParseShape(kind: Kind, s: string, max: nat)
    requires Parse(kind, s, max).Done?
    ensures CrlfOnly(s, 0, Parse(kind, s, max).next)
  {
    match kind
    case Requests =>
      RequestLineShape(s);
      var m := HeadersShape(s, RequestLineOf(s).next, 0, max);
    case Responses =>
      StatusLineShape(s);
      var m := HeadersShape(s, StatusLineOf(s).next, 0, max);
  }

  /** The answer of a reader that calls with every length in `lens`, one after the other, until it gets one. */
  function Resume(kind: Kind, s: string, max: nat, lastLen: nat, lens: seq<nat>): Parsed
    requires Growing(lastLen, lens, |s|)
    decreases |lens|
  {
    if |lens| == 0 then More
    else
      GrowingBounds(lastLen, lens, |s|);
      var r := Call(kind, s[..lens[0]], max, lastLen);
      if r.More? then Resume(kind, s, max, lens[0], lens[1..]) else r
  }

  predicate Growing(from: nat, lens: seq<nat>, to: nat)
    decreases |lens|
  {
    if |lens| == 0 then from <= to else from <= lens[0] && Growing(lens[0], lens[1..], to)
  }

  lemma {:induction false} CompleteIsNotBad(t: string, i: nat, count: nat)
    requires i <= |t| && count < 2
    requires forall k :: 0 <= k < |t| - 1 && t[k] == '\r' ==> t[k + 1] == '\n'
    ensures !Complete(t, i, count).Bad?
    decreases |t| - i
  {
    if i < |t| {
      if t[i] == '\r' || t[i] == '\n' {
        var e := Newline(t, i);
        if e.Done? && count == 0 {
          CompleteIsNotBad(t, e.next, 1);
        }
      } else {
        CompleteIsNotBad(t, i + 1, 0);
      }
    }
  }

  /** Before its last byte is there, a head that is going to be parsed is neither refused nor accepted. */
  lemma Undecided(kind: Kind, s: string, max: nat, lastLen: nat, len: nat)
    requires Parse(kind, s, max).Done? && lastLen <= len < Parse(kind, s, max).next
    ensures Call(kind, s[..len], max, lastLen).More?
  {
    var t := s[..len];
    if !Parse(kind, t, max).More? {
      ParseStable(kind, t, s, max);
    }
    if lastLen > 0 {
      ParseShape(kind, s, max);
      CompleteIsNotBad(t, if lastLen < 3 then 0 else lastLen - 3, 0);
    }
  }

  /**
   Whatever the lengths at which a reader calls, it gets the answer of one call on everything as soon as
   the whole head is there.
   */
  lemma {:induction false} ResumeFinds(kind: Kind, s: string, max: nat, lastLen: nat, lens: seq<nat>)
    requires Growing(lastLen, lens, |s|) && Parse(kind, s, max).Done? && lastLen < Parse(kind, s, max).next
    ensures Resume(kind, s, max, lastLen, lens)
         == if |lens| > 0 && lens[|lens| - 1] >= Parse(kind, s, max).next then Parse(kind, s, max) else More
    decreases |lens|
  {
    if |lens| > 0 {
      GrowingBounds(lastLen, lens, |s|);
      var t := s[..lens[0]];
      if lens[0] < Parse(kind, s, max).next {
        Undecided(kind, s, max, lastLen, lens[0]);
        ResumeFinds(kind, s, max, lens[0], lens[1..]);
      } else {
        ParseLocal(kind, s, t, max);
        CallAgrees(kind, t, max, lastLen);
      }
    }
  }

  /** What a reader accepts is what one call accepts; so a head that is refused is never accepted. */
  lemma {:induction false} ResumeSound(kind: Kind, s: string, max: nat, lastLen: nat, lens: seq<nat>)
    requires Growing(lastLen, lens, |s|)
    ensures Resume(kind, s, max, lastLen, lens).Done? ==> Resume(kind, s, max, lastLen, lens) == Parse(kind, s, max)
    decreases |lens|
  {
    if |lens| > 0 {
      GrowingBounds(lastLen, lens, |s|);
      ParseStable(kind, s[..lens[0]], s, max);
      ResumeSound(kind, s, max, lens[0], lens[1..]);
    }
  }

  /** A head that the first call refuses is refused; later calls refuse it unless the check still misses its end. */
  lemma ResumeRefuses(kind: Kind, s: string, max: nat, lastLen: nat, lens: seq<nat>)
    requires Growing(lastLen, lens, |s|) && |lens| > 0 && lens[0] <= |s| && Parse(kind, s[..lens[0]], max).Bad?
    requires lastLen <= lens[0]
    ensures lastLen == 0 || !PreCheck(s[..lens[0]], lastLen).More? ==> Resume(kind, s, max, lastLen, lens).Bad?
    ensures Parse(kind, s, max).Bad?
  {
    ParseStable(kind, s[..lens[0]], s, max);
  }

  lemma {:induction false} GrowingBounds(from: nat, lens: seq<nat>, to: nat)
    requires Growing(from, lens, to)
    ensures from <= to && (|lens| > 0 ==> from <= lens[0] <= lens[|lens| - 1] <= to)
    decreases |lens|
  {
    if |lens| > 0 {
      GrowingBounds(lens[0], lens[1..], to);
    }
  }
}
