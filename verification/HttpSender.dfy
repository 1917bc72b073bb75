/** Sending over a channel that may take any part of what it is offered. */
module HttpSender {
  import opened Arith
  import opened HttpPrinter
  import opened HttpSyntax
  import opened HttpRoundTrip

  datatype State = WaitingHeader | WaitingBody | SendingBody | SendComplete

  /** What has still to be sent, and whether sending is over. */
  datatype Sending = Sending(over: bool, rest: string)

  /** One attempt, of which the channel takes `sz` bytes; 0 and less mean that it would block. */
  function Attempt(x: Sending, sz: int): Sending
    requires sz <= |x.rest|
  {
    if x.over then x
    else if sz == |x.rest| then Sending(true, "")
    else if sz > 0 then Sending(false, x.rest[sz..])
    else x
  }

  function Taken(x: Sending, sz: int): string
    requires sz <= |x.rest|
  {
    if x.over || sz <= 0 then "" else x.rest[..sz]
  }

  /** The channel never takes more than it is offered. */
  predicate Possible(x: Sending, szs: seq<int>)
    decreases |szs|
  {
    |szs| > 0 ==> szs[0] <= |x.rest| && Possible(Attempt(x, szs[0]), szs[1..])
  }

  /** What is left after a series of attempts, and what the channel got. */
  function Attempts(x: Sending, szs: seq<int>): (Sending, string)
    requires Possible(x, szs)
    decreases |szs|
  {
    if |szs| == 0 then (x, "")
    else
      var (y, out) := Attempts(Attempt(x, szs[0]), szs[1..]);
      (y, Taken(x, szs[0]) + out)
  }

  /** How many bytes the channel takes in all. */
  function Total(szs: seq<int>): nat {
    if |szs| == 0 then 0 else (if szs[0] > 0 then szs[0] else 0) + Total(szs[1..])
  }

  /**
   Whatever the channel takes and whenever it blocks, it gets every byte once and in order, and sending is
   over exactly when it has got them all.
   */
  lemma {:induction false} NothingLost(x: Sending, szs: seq<int>)
    requires !x.over && |x.rest| > 0 && Possible(x, szs)
    ensures var (y, out) := Attempts(x, szs);
            out + y.rest == x.rest && (y.over <==> y.rest == "")
    decreases |szs|
  {
    if |szs| > 0 {
      var x', first := Attempt(x, szs[0]), Taken(x, szs[0]);
      assert first + x'.rest == x.rest;
      if x'.over {
        OverStays(x', szs[1..]);
      } else {
        NothingLost(x', szs[1..]);
        var (y, out) := Attempts(x', szs[1..]);
        SeqAssoc(first, out, y.rest);
      }
    }
  }

  lemma AllDelivered(x: Sending, szs: seq<int>)
    requires !x.over && |x.rest| > 0 && Possible(x, szs)
    ensures Attempts(x, szs).0.over <==> Attempts(x, szs).1 == x.rest
  {
    NothingLost(x, szs);
    var (y, out) := Attempts(x, szs);
    assert y.rest == "" ==> out + y.rest == out;
  }

  /** Sending is over as soon as the channel has taken as many bytes as there are. */
  lemma {:induction false} OverWhenAllTaken(x: Sending, szs: seq<int>)
    requires !x.over && |x.rest| > 0 && Possible(x, szs)
    ensures Attempts(x, szs).0.over <==> Total(szs) >= |x.rest|
    decreases |szs|
  {
    if |szs| > 0 {
      var x' := Attempt(x, szs[0]);
      if x'.over {
        OverStays(x', szs[1..]);
      } else {
        OverWhenAllTaken(x', szs[1..]);
      }
    }
  }

  /** When sending is over, nothing more is sent. */
  lemma {:induction false} OverStays(x: Sending, szs: seq<int>)
    requires x.over && Possible(x, szs)
    ensures Attempts(x, szs) == (x, "")
    decreases |szs|
  {
    if |szs| > 0 {
      OverStays(x, szs[1..]);
      assert Taken(x, szs[0]) + "" == "";
    }
  }

  /** The sending half of http::impl. */
  class Http {
    var state: State
    var buffer: string      // m_send_buffer
    var position: nat       // and how far it has been sent

    ghost var message: string     // what is to be sent
    ghost var delivered: string   // what the channel has got of it

    ghost predicate Valid()
      reads this
    {
      && position <= |buffer|
      && (state.SendingBody? ==> position < |buffer| && message == delivered + buffer[position..])
      && (state.SendComplete? ==> message == delivered)
    }

    ghost function Abs(): Sending
      reads this
      requires position <= |buffer|
    {
      Sending(!state.SendingBody?, buffer[position..])
    }

    constructor ()
      ensures Valid() && state == WaitingHeader && Abs().rest == ""
    {
      state, buffer, position, message, delivered := WaitingHeader, "", 0, "", "";
    }

    /** What follows every call of the channel's send. */
    method Sent(sz: int)
      requires Valid() && state == SendingBody && sz <= |buffer| - position
      modifies this
      ensures Valid() && Abs() == Attempt(old(Abs()), sz) && message == old(message)
      ensures delivered == old(delivered) + Taken(old(Abs()), sz)
      ensures state == if Abs().over then SendComplete else SendingBody
    {
      assert buffer[position..][..|buffer| - position] == buffer[position..];
      delivered := delivered + Taken(Abs(), sz);
      if sz == |buffer| - position {
        state := SendComplete;
        buffer, position := "", 0;
      } else if sz > 0 {
        assert buffer[position..] == buffer[position..][..sz] + buffer[position + sz..];
        position := position + sz;
      }
    }

    method SendMore(sz: int)
      requires Valid() && sz <= |buffer| - position
      modifies this
      ensures Valid() && Abs() == Attempt(old(Abs()), sz) && message == old(message)
      ensures delivered == old(delivered) + Taken(old(Abs()), sz)
      ensures state == if !old(state.SendingBody?) then old(state) else if Abs().over then SendComplete else SendingBody
    {
      if state == SendingBody {
        Sent(sz);
      }
    }

    /** Starts over with a request; `sz` is what the channel takes at once. */
    method SendRequest(verb: string, path: string, fields: seq<Field>, body: string, sz: int)
      requires sz <= |RequestText(verb, path, fields, |body|)| + |body|
      modifies this
      ensures Valid() && message == RequestText(verb, path, fields, |body|) + body
      ensures Abs() == Attempt(Sending(false, message), sz) && delivered == Taken(Sending(false, message), sz)
      ensures state == if Abs().over then SendComplete else SendingBody
    {
      state := SendingBody;
      var req := PrintRequest(verb, path, fields, |body|);
      buffer, position := req + body, 0;
      message, delivered := buffer, "";
      assert buffer[0..] == buffer;
      Sent(sz);
    }

    method SendResponse(code: nat, text: string, fields: seq<Field>, body: string, sz: int)
      requires sz <= |ResponseText(code, text, fields, |body|)| + |body|
      modifies this
      ensures Valid() && message == ResponseText(code, text, fields, |body|) + body
      ensures Abs() == Attempt(Sending(false, message), sz) && delivered == Taken(Sending(false, message), sz)
      ensures state == if Abs().over then SendComplete else SendingBody
    {
      state := SendingBody;
      var resp := PrintResponse(code, text, fields, |body|);
      buffer, position := resp + body, 0;
      message, delivered := buffer, "";
      assert buffer[0..] == buffer;
      Sent(sz);
    }
  }

  /**
   From end to end: once sending a request is over, however the channel took it, the parser reads from what
   the channel got the request and then the body.
   */
  lemma RequestDelivered(verb: string, path: string, fields: seq<Field>, body: string, szs: seq<int>, max: nat)
    requires GoodToken(verb) && GoodPath(path) && GoodFields(WithValue(fields))
    requires |RequestFields(fields, |body|)| <= max
    requires Possible(Sending(false, RequestText(verb, path, fields, |body|) + body), szs)
    ensures var t := RequestText(verb, path, fields, |body|);
            var (y, out) := Attempts(Sending(false, t + body), szs);
            y.over ==>
              var r := Request(out, max);
              && r.Done? && out[r.next..] == body
              && Text(out, r.value.first.verb) == verb && Text(out, r.value.first.path) == path
              && Reads(out, r.value.headers, RequestFields(fields, |body|))
  {
    var t := RequestText(verb, path, fields, |body|);
    AllDelivered(Sending(false, t + body), szs);
    assert (t + body)[|t|..] == body;
    RequestRoundTrip(verb, path, fields, |body|, body, max);
  }

  /** The same for a response. */
  lemma ResponseDelivered(code: nat, text: string, fields: seq<Field>, body: string, szs: seq<int>, max: nat)
    requires 100 <= code <= 999 && GoodText(text) && GoodFields(fields)
    requires |ResponseFields(fields, |body|)| <= max
    requires Possible(Sending(false, ResponseText(code, text, fields, |body|) + body), szs)
    ensures var t := ResponseText(code, text, fields, |body|);
            var (y, out) := Attempts(Sending(false, t + body), szs);
            y.over ==>
              var r := Response(out, max);
              && r.Done? && out[r.next..] == body
              && r.value.first.status == code && Text(out, r.value.first.message) == text[Lead(text)..]
              && Reads(out, r.value.headers, ResponseFields(fields, |body|))
  {
    var t := ResponseText(code, text, fields, |body|);
    AllDelivered(Sending(false, t + body), szs);
    assert (t + body)[|t|..] == body;
    ResponseRoundTrip(code, text, fields, |body|, body, max);
  }
}
