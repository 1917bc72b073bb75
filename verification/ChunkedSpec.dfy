/**
 Chunked transfer coding (section 4.1 of RFC 7230) as a step per byte: what any sequence of calls to the
 decoder must amount to.
 */
module ChunkedSpec {
  import opened Arith
  import opened Hexadecimal

  datatype Phase = Size | Extension | Data | Crlf | TrailerHead | TrailerMiddle

  /** struct phr_chunked_decoder: bytes_left_in_chunk, consume_trailer, _hex_count, _state. */
  datatype Decoder = Decoder(left: nat, consumeTrailer: bool, hexCount: nat, phase: Phase)

  function Fresh(consumeTrailer: bool): Decoder {
    Decoder(0, consumeTrailer, 0, Size)
  }

  /** decode_hex; -1 when the byte is no hexadecimal digit. */
  function DecodeHex(c: char): (v: int)
    ensures -1 <= v < 16
  {
    if '0' <= c <= '9' then (c as int) - ('0' as int)
    else if 'A' <= c <= 'F' then (c as int) - ('A' as int) + 10
    else if 'a' <= c <= 'f' then (c as int) - ('a' as int) + 10
    else -1
  }

  /** A byte is a digit of one of the two alphabets, standing for its place there, or none. */
  lemma HexDigits(c: char)
    ensures forall v: nat :: v < 16 ==> (DecodeHex(c) == v <==> c == LOWER[v] || c == UPPER[v])
    ensures DecodeHex(c) == if IsHex(c) then Place(c) else -1
  {
    forall v: nat | v < 16
      ensures DecodeHex(c) == v <==> c == LOWER[v] || c == UPPER[v]
    {
      Alphabets(c, v);
    }
  }

  /** A byte is used up and may be output, ends the body, or is refused without being used up. */
  datatype Outcome = Go(d: Decoder, out: string) | Complete(d: Decoder) | Refused(d: Decoder)

  const MAX_DIGITS := 16

  function InExtension(d: Decoder, c: char): Outcome {
    if c != '\n' then Go(d.(phase := Extension), "")
    else if d.left > 0 then Go(d.(phase := Data), "")
    else if d.consumeTrailer then Go(d.(phase := TrailerHead), "")
    else Complete(d.(phase := Extension))
  }

  function InCrlf(d: Decoder, c: char): Outcome {
    if c == '\r' then Go(d, "") else if c == '\n' then Go(d.(phase := Size), "") else Refused(d)
  }

  function Step(d: Decoder, c: char): Outcome {
    match d.phase
    case Size =>
      var v := DecodeHex(c);
      if v == -1 then
        if d.hexCount == 0 then Refused(d) else InExtension(d.(hexCount := 0), c)
      else if d.hexCount == MAX_DIGITS then Refused(d)
      else Go(d.(left := d.left * 16 + v, hexCount := d.hexCount + 1), "")
    case Extension => InExtension(d, c)
    case Data =>
      if d.left == 0 then InCrlf(d.(phase := Crlf), c)
      else if d.left == 1 then Go(d.(left := 0, phase := Crlf), [c])
      else Go(d.(left := d.left - 1), [c])
    case Crlf => InCrlf(d, c)
    case TrailerHead =>
      if c == '\r' then Go(d, "") else if c == '\n' then Complete(d) else Go(d.(phase := TrailerMiddle), "")
    case TrailerMiddle =>
      Go(if c == '\n' then d.(phase := TrailerHead) else d, "")
  }

  predicate OutputsNext(d: Decoder, c: char) {
    Step(d, c).Go? && Step(d, c).out == [c]
  }

  /** Within chunk data every byte is output; in every other phase there is one that is not. */
  lemma InDataExactly(d: Decoder)
    requires Reachable(d)
    ensures d.phase.Data? <==> forall c: char :: OutputsNext(d, c)
  {
    if !d.phase.Data? {
      assert !OutputsNext(d, '\r');
    }
  }

  datatype Verdict = Incomplete | Done | Error

  /** The decoder at the end, all that was output, and how many bytes were used up. */
  datatype Result = Result(d: Decoder, out: string, verdict: Verdict, used: nat)

  /** The result when `out` was output for `n` bytes before. */
  function Then(out: string, n: nat, r: Result): Result {
    Result(r.d, out + r.out, r.verdict, n + r.used)
  }

  function Run(d: Decoder, s: string): (r: Result)
    ensures r.used <= |s| && |r.out| <= r.used
    ensures r.verdict == Incomplete ==> r.used == |s|
    decreases s
  {
    if |s| == 0 then Result(d, "", Incomplete, 0)
    else
      match Step(d, s[0])
      case Go(d', out) => Then(out, 1, Run(d', s[1..]))
      case Complete(d') => Result(d', "", Done, 1)
      case Refused(d') => Result(d', "", Error, 0)
  }

  // ---------- invariant of all runs ----------

  /** sizeof(size_t) * 2 digits make sizes up to here. */
  const SIZE_LIMIT := 0x1_0000_0000_0000_0000

  /** What holds of every decoder that was zero-filled before its first use. */
  predicate Reachable(d: Decoder) {
    match d.phase
    case Size => d.hexCount <= MAX_DIGITS && d.left < Pow16(d.hexCount)
    case Extension => d.hexCount == 0 && d.left < SIZE_LIMIT
    case Data => d.hexCount == 0 && 0 < d.left < SIZE_LIMIT
    case Crlf => d.hexCount == 0 && d.left == 0
    case TrailerHead => d.hexCount == 0 && d.left == 0 && d.consumeTrailer
    case TrailerMiddle => d.hexCount == 0 && d.left == 0 && d.consumeTrailer
  }

  lemma {:induction false} Pow16Monotonic(m: nat, n: nat)
    requires m <= n
    ensures Pow16(m) <= Pow16(n)
  {
    if m < n {
      Pow16Monotonic(m, n - 1);
    }
  }

  lemma Pow16Limit(n: nat)
    requires n <= 16
    ensures Pow16(n) <= 0x1_0000_0000_0000_0000
  {
    var k := 16;
    SixteenDigits(k);
    Pow16Monotonic(n, k);
  }

  /** So the size of a chunk never wraps around. */
  lemma SizeFits(d: Decoder)
    requires Reachable(d)
    ensures d.left < SIZE_LIMIT
  {
    if d.phase.Size? {
      Pow16Limit(d.hexCount);
    }
  }

  lemma DigitKeepsReachable(d: Decoder, v: nat)
    requires Reachable(d) && d.phase.Size? && d.hexCount < MAX_DIGITS && v < 16
    ensures Reachable(d.(left := d.left * 16 + v, hexCount := d.hexCount + 1))
  {
  }

  lemma ExtensionKeepsReachable(d: Decoder, c: char)
    requires d.hexCount == 0 && d.left < SIZE_LIMIT
    ensures Reachable(InExtension(d, c).d) && InExtension(d, c).d.consumeTrailer == d.consumeTrailer
  {
  }

  lemma StepKeepsReachable(d: Decoder, c: char)
    requires Reachable(d)
    ensures Reachable(Step(d, c).d) && Step(d, c).d.consumeTrailer == d.consumeTrailer
  {
    match d.phase
    case Size => SizeKeepsReachable(d, c);
    case Extension => ExtensionKeepsReachable(d, c);
    case _ =>
  }

  lemma SizeKeepsReachable(d: Decoder, c: char)
    requires Reachable(d) && d.phase.Size?
    ensures Reachable(Step(d, c).d) && Step(d, c).d.consumeTrailer == d.consumeTrailer
  {
    SizeFits(d);
    var v := DecodeHex(c);
    if v == -1 {
      ExtensionKeepsReachable(d.(hexCount := 0), c);
    } else if d.hexCount < MAX_DIGITS {
      DigitKeepsReachable(d, v);
    }
  }

  lemma {:induction false} RunKeepsReachable(d: Decoder, s: string)
    requires Reachable(d)
    ensures Reachable(Run(d, s).d) && Run(d, s).d.consumeTrailer == d.consumeTrailer
    decreases s
  {
    if |s| > 0 {
      StepKeepsReachable(d, s[0]);
      if Step(d, s[0]).Go? {
        RunKeepsReachable(Step(d, s[0]).d, s[1..]);
      }
    }
  }

  // ---------- fragmentation ----------

  /** A second piece continues where the first one ended, unless the first one gave a verdict. */
  lemma {:induction false} RunAppend(d: Decoder, s: string, t: string)
    ensures Run(d, s + t)
         == if Run(d, s).verdict == Incomplete then Then(Run(d, s).out, |s|, Run(Run(d, s).d, t)) else Run(d, s)
    decreases s
  {
    if |s| == 0 {
      assert s + t == t;
    } else {
      assert (s + t)[1..] == s[1..] + t;
      match Step(d, s[0])
      case Go(d', out) =>
        RunAppend(d', s[1..], t);
        ThenTwice(out, 1, Run(d', s[1..]).out, |s[1..]|, Run(Run(d, s).d, t));
      case Complete(_) =>
      case Refused(_) =>
    }
  }

  lemma ThenTwice(out: string, n: nat, out': string, n': nat, r: Result)
    ensures Then(out, n, Then(out', n', r)) == Then(out + out', n + n', r)
  {
    assert out + (out' + r.out) == (out + out') + r.out;
  }

  function Flatten(pieces: seq<string>): string {
    if |pieces| == 0 then "" else pieces[0] + Flatten(pieces[1..])
  }

  /** One call a piece until there is a verdict; what is left are the unused bytes and the pieces not fed. */
  datatype Fed = Fed(d: Decoder, out: string, verdict: Verdict, rest: string)

  function Feed(d: Decoder, pieces: seq<string>): Fed
    decreases pieces
  {
    if |pieces| == 0 then Fed(d, "", Incomplete, "")
    else
      var r := Run(d, pieces[0]);
      if r.verdict == Incomplete then
        var f := Feed(r.d, pieces[1..]);
        Fed(f.d, r.out + f.out, f.verdict, f.rest)
      else
        Fed(r.d, r.out, r.verdict, pieces[0][r.used..] + Flatten(pieces[1..]))
  }

  /** However the bytes are split, the result is that of one call on all of them. */
  lemma {:induction false} FragmentationIndependence(d: Decoder, pieces: seq<string>)
    ensures var r := Run(d, Flatten(pieces));
            Feed(d, pieces) == Fed(r.d, r.out, r.verdict, Flatten(pieces)[r.used..])
    decreases pieces
  {
    if |pieces| > 0 {
      var s, t := pieces[0], Flatten(pieces[1..]);
      RunAppend(d, s, t);
      var r := Run(d, s);
      if r.verdict == Incomplete {
        FragmentationIndependence(r.d, pieces[1..]);
        var u := Run(r.d, t).used;
        assert (s + t)[|s| + u..] == t[u..];
      } else {
        assert (s + t)[r.used..] == s[r.used..] + t;
      }
    }
  }

  // ---------- a run under way ----------

  /** The first `src` bytes of the input have led from `start` to `d`, with output `out`. */
  ghost predicate Under(start: Decoder, input: string, d: Decoder, src: nat, out: string) {
    && src <= |input| && |out| <= src
    && Run(start, input) == Then(out, src, Run(d, input[src..]))
  }

  /** The whole run ends in `d` after `src` bytes. */
  ghost predicate Ended(start: Decoder, input: string, d: Decoder, src: nat, out: string, verdict: Verdict) {
    Run(start, input) == Result(d, out, verdict, src)
  }

  lemma UnderStart(start: Decoder, input: string)
    ensures Under(start, input, start, 0, "")
  {
    assert input[0..] == input;
    var r := Run(start, input);
    assert "" + r.out == r.out;
  }

  lemma UnderGo(start: Decoder, input: string, d: Decoder, src: nat, out: string, d': Decoder, piece: string)
    requires Under(start, input, d, src, out) && src < |input| && Step(d, input[src]) == Go(d', piece)
    ensures Under(start, input, d', src + 1, out + piece)
  {
    assert input[src..][1..] == input[src + 1..];
    ThenTwice(out, src, piece, 1, Run(d', input[src + 1..]));
  }

  /** A byte without output. */
  lemma UnderSkip(start: Decoder, input: string, d: Decoder, src: nat, out: string, d': Decoder, next: nat)
    requires Under(start, input, d, src, out) && src < |input| && Step(d, input[src]) == Go(d', "") && next == src + 1
    ensures Under(start, input, d', next, out)
  {
    UnderGo(start, input, d, src, out, d', "");
    assert out + "" == out;
  }

  lemma UnderStop(start: Decoder, input: string, d: Decoder, src: nat, out: string)
    requires Under(start, input, d, src, out) && src < |input| && !Step(d, input[src]).Go?
    ensures Step(d, input[src]).Complete? ==> Ended(start, input, Step(d, input[src]).d, src + 1, out, Done)
    ensures Step(d, input[src]).Refused? ==> Ended(start, input, Step(d, input[src]).d, src, out, Error)
  {
    assert out + "" == out;
  }

  /** The newline at the end of the extension. */
  lemma UnderExtensionEnd(start: Decoder, input: string, d: Decoder, src: nat, out: string)
    requires Under(start, input, d, src, out) && src < |input| && d.phase.Extension? && input[src] == '\n'
    ensures d.left > 0 ==> Under(start, input, d.(phase := Data), src + 1, out)
    ensures d.left == 0 && d.consumeTrailer ==> Under(start, input, d.(phase := TrailerHead), src + 1, out)
    ensures d.left == 0 && !d.consumeTrailer ==> Ended(start, input, d, src + 1, out, Done)
  {
    if d.left == 0 && !d.consumeTrailer {
      UnderStop(start, input, d, src, out);
    } else {
      UnderSkip(start, input, d, src, out, Step(d, '\n').d, src + 1);
    }
  }

  /** The first byte of a trailer line that is no CR. */
  lemma UnderTrailerStart(start: Decoder, input: string, d: Decoder, src: nat, out: string, next: nat)
    requires Under(start, input, d, src, out) && src < |input| && d.phase.TrailerHead? && input[src] != '\r' && next == src + 1
    ensures input[src] == '\n' ==> Ended(start, input, d, next, out, Done)
    ensures input[src] != '\n' ==> Under(start, input, d.(phase := TrailerMiddle), next, out)
  {
    if input[src] == '\n' {
      UnderStop(start, input, d, src, out);
    } else {
      UnderSkip(start, input, d, src, out, d.(phase := TrailerMiddle), next);
    }
  }

  lemma UnderEnd(start: Decoder, input: string, d: Decoder, src: nat, out: string)
    requires Under(start, input, d, src, out) && src == |input|
    ensures Ended(start, input, d, src, out, Incomplete)
  {
    assert out + "" == out;
  }

  /** The byte that ends a size is looked at again as part of the extension. */
  lemma UnderSizeEnd(start: Decoder, input: string, d: Decoder, src: nat, out: string)
    requires Under(start, input, d, src, out) && src < |input|
    requires d.phase.Size? && d.hexCount > 0 && DecodeHex(input[src]) == -1
    ensures Under(start, input, d.(phase := Extension, hexCount := 0), src, out)
  {
  }

  /** The decoder after `n` bytes of chunk data. */
  function DataRead(d: Decoder, n: nat): Decoder
    requires n <= d.left
  {
    if 0 < n == d.left then d.(left := 0, phase := Crlf) else d.(left := d.left - n)
  }

  /** As many bytes of chunk data as are there, at once. */
  lemma {:induction false} UnderData(start: Decoder, input: string, d: Decoder, src: nat, out: string, n: nat, end: nat)
    requires Under(start, input, d, src, out) && d.phase.Data? && n <= d.left && end == src + n <= |input|
    ensures Under(start, input, DataRead(d, n), end, out + input[src..end])
    decreases n
  {
    if n == 0 {
      assert out + input[src..src] == out;
    } else {
      var last := end - 1;
      UnderData(start, input, d, src, out, n - 1, last);
      DataStep(d, n, input[last]);
      UnderGo(start, input, DataRead(d, n - 1), last, out + input[src..last], DataRead(d, n), [input[last]]);
      SeqSliceNext(out, input, src, last);
    }
  }

  lemma DataStep(d: Decoder, n: nat, c: char)
    requires d.phase.Data? && 0 < n <= d.left
    ensures Step(DataRead(d, n - 1), c) == Go(DataRead(d, n), [c])
  {
  }
}
