/** phr_decode_chunked: rewrites a buffer in place, case by case of its state. */
module ChunkedDecoding {
  import opened ChunkedSpec

  /** Where control goes after a case: on to the next one, around the loop, or to one of the labels. */
  datatype Signal = Fall | Again | Exit(verdict: Verdict)

  /** The bytes `out` have been written, and all of the buffer from there on is as it was. */
  ghost predicate Written(now: string, first: string, out: string) {
    |out| <= |first| && now == out + first[|out|..]
  }

  /** What is still to be read is as it was. */
  lemma Unread(now: string, first: string, out: string, from: nat, input: string)
    requires Written(now, first, out) && |out| <= from && |input| <= |first| && first[..|input|] == input
    ensures |now| == |first| && forall i :: from <= i < |input| ==> now[i] == input[i]
  {
    assert forall i :: 0 <= i < |input| ==> first[..|input|][i] == first[i];
  }

  lemma SamePart(first: string, input: string, i: nat, j: nat)
    requires i <= j <= |input| <= |first| && first[..|input|] == input
    ensures first[i..j] == input[i..j]
  {
    assert first[..|input|][i..j] == first[i..j];
  }

  /** What is not output moves to where the output ends. */
  lemma LeftoverMoved(now: string, first: string, out: string, src: nat, n: nat, after: string)
    requires Written(now, first, out) && |out| <= src && src + n <= |first|
    requires after == now[..|out|] + now[src..src + n] + now[|out| + n..]
    ensures after == out + first[src..src + n] + first[|out| + n..]
  {
    assert now[..|out|] == out;
    assert now[src..src + n] == first[src..src + n];
    assert now[|out| + n..] == first[|out| + n..];
  }

  lemma WrittenMore(now: string, first: string, out: string, src: nat, n: nat, after: string)
    requires Written(now, first, out) && |out| <= src && src + n <= |first|
    requires after == now[..|out|] + now[src..src + n] + now[|out| + n..]
    ensures Written(after, first, out + first[src..src + n])
  {
    assert now[..|out|] == out;
    assert now[src..src + n] == first[src..src + n];
    assert now[|out| + n..] == first[|out| + n..];
  }

  /** memmove(buf + dst, buf + src, n) for dst <= src. */
  method Memmove(buf: array<char>, dst: nat, src: nat, n: nat)
    requires dst <= src && src + n <= buf.Length
    modifies buf
    ensures buf[..] == old(buf[..dst]) + old(buf[src..src + n]) + old(buf[dst + n..])
  {
    ghost var first := buf[..];
    for i := 0 to n
      invariant forall k :: dst <= k < dst + i ==> buf[k] == first[k + (src - dst)]
      invariant forall k :: 0 <= k < buf.Length && !(dst <= k < dst + i) ==> buf[k] == first[k]
    {
      buf[dst + i] := buf[src + i];
    }
    MovedTo(first, dst, src, n, buf[..]);
  }

  lemma MovedTo(first: string, dst: nat, src: nat, n: nat, now: string)
    requires dst <= src && src + n <= |first| == |now|
    requires forall k :: dst <= k < dst + n ==> now[k] == first[k + (src - dst)]
    requires forall k :: 0 <= k < |now| && !(dst <= k < dst + n) ==> now[k] == first[k]
    ensures now == first[..dst] + first[src..src + n] + first[dst + n..]
  {
  }

  lemma Unmoved(s: string, i: nat, n: nat)
    requires i + n <= |s|
    ensures s == s[..i] + s[i..i + n] + s[i + n..]
  {
  }

  /** Nothing is moved while everything read was data. */
  method MoveData(buf: array<char>, dst: nat, src: nat, n: nat, ghost first: string, ghost out: string)
    requires dst == |out| <= src && src + n <= |first| && Written(buf[..], first, out)
    modifies buf
    ensures Written(buf[..], first, out + first[src..src + n])
  {
    ghost var was := buf[..];
    if dst != src {
      Memmove(buf, dst, src, n);
    } else {
      Unmoved(was, dst, n);
    }
    WrittenMore(was, first, out, src, n, buf[..]);
  }

  /** The bytes that were not used follow the output. */
  method MoveLeftover(buf: array<char>, dst: nat, src: nat, bufsz: nat, ghost first: string, ghost out: string)
    requires dst == |out| <= src <= bufsz <= |first| && Written(buf[..], first, out)
    modifies buf
    ensures buf[..] == out + first[src..bufsz] + first[|out| + (bufsz - src)..]
  {
    ghost var was := buf[..];
    var n := bufsz - src;
    if dst != src {
      Memmove(buf, dst, src, n);
    } else {
      Unmoved(was, dst, n);
    }
    LeftoverMoved(was, first, out, src, n, buf[..]);
  }

  class ChunkedDecoder {
    var left: nat
    var consumeTrailer: bool
    var hexCount: nat
    var phase: Phase

    ghost function Abs(): Decoder
      reads this
    {
      Decoder(left, consumeTrailer, hexCount, phase)
    }

    ghost predicate Valid()
      reads this
    {
      Reachable(Abs())
    }

    /** Zero-filled, apart from the choice of reading trailers. */
    constructor (consumeTrailer: bool)
      ensures Valid() && Abs() == Fresh(consumeTrailer)
    {
      left, this.consumeTrailer, hexCount, phase := 0, consumeTrailer, 0, Size;
    }

    /** Where the case leaves the decoder, for the run of `input` from `start`. */
    ghost predicate At(s: Signal, start: Decoder, input: string, src: nat, out: string)
      reads this
    {
      match s
      case Exit(verdict) => Ended(start, input, Abs(), src, out, verdict)
      case _ => Under(start, input, Abs(), src, out)
    }

    method ReadSize(buf: array<char>, bufsz: nat, from: nat, ghost start: Decoder, ghost input: string, ghost out: string)
      returns (src: nat, s: Signal)
      requires phase.Size? && Under(start, input, Abs(), from, out)
      requires bufsz == |input| <= buf.Length && forall i :: from <= i < bufsz ==> buf[i] == input[i]
      modifies this
      ensures from <= src && At(s, start, input, src, out) && !s.Again? && (s.Fall? ==> phase.Extension?)
    {
      src := from;
      while true
        invariant from <= src && phase.Size? && Under(start, input, Abs(), src, out)
        decreases bufsz - src
      {
        if src == bufsz {
          UnderEnd(start, input, Abs(), src, out);
          return src, Exit(Incomplete);
        }
        var v := DecodeHex(buf[src]);
        if v == -1 {
          if hexCount == 0 {
            UnderStop(start, input, Abs(), src, out);
            return src, Exit(Error);
          }
          break;
        }
        if hexCount == MAX_DIGITS {
          UnderStop(start, input, Abs(), src, out);
          return src, Exit(Error);
        }
        ghost var d := Abs();
        left := left * 16 + v;
        hexCount := hexCount + 1;
        UnderSkip(start, input, d, src, out, Abs(), src + 1);
        src := src + 1;
      }
      UnderSizeEnd(start, input, Abs(), src, out);
      hexCount := 0;
      phase := Extension;
      s := Fall;
    }

    method ReadExtension(buf: array<char>, bufsz: nat, from: nat, ghost start: Decoder, ghost input: string, ghost out: string)
      returns (src: nat, s: Signal)
      requires phase.Extension? && Under(start, input, Abs(), from, out)
      requires bufsz == |input| <= buf.Length && forall i :: from <= i < bufsz ==> buf[i] == input[i]
      modifies `phase
      ensures from <= src && At(s, start, input, src, out)
      ensures match s case Fall => phase.Data? && left > 0 case Again => from < src && phase.TrailerHead? case Exit(_) => true
    {
      src := from;
      ghost var d := Abs();
      while true
        invariant from <= src && Abs() == d && Under(start, input, d, src, out)
        decreases bufsz - src
      {
        if src == bufsz {
          UnderEnd(start, input, Abs(), src, out);
          return src, Exit(Incomplete);
        }
        if buf[src] == '\n' {
          break;
        }
        UnderSkip(start, input, d, src, out, d, src + 1);
        src := src + 1;
      }
      UnderExtensionEnd(start, input, d, src, out);
      src := src + 1;
      if left == 0 {
        if consumeTrailer {
          phase := TrailerHead;
          return src, Again;
        } else {
          return src, Exit(Done);
        }
      }
      phase := Data;
      s := Fall;
    }

    method ReadData(buf: array<char>, bufsz: nat, dst0: nat, from: nat,
                    ghost start: Decoder, ghost input: string, ghost out0: string, ghost first: string)
      returns (dst: nat, src: nat, s: Signal, ghost out: string)
      requires phase.Data? && left > 0 && Under(start, input, Abs(), from, out0)
      requires bufsz == |input| <= |first| && first[..bufsz] == input
      requires dst0 == |out0| && Written(buf[..], first, out0)
      modifies this, buf
      ensures from <= src && dst == |out| && Written(buf[..], first, out) && At(s, start, input, src, out)
      ensures !s.Again? && (s.Fall? ==> phase.Crlf?)
    {
      var avail := bufsz - from;
      var n := if avail < left then avail else left;
      MoveData(buf, dst0, from, n, first, out0);
      out := out0 + first[from..from + n];
      SamePart(first, input, from, from + n);
      UnderData(start, input, Abs(), from, out0, n, from + n);
      src := from + n;
      dst := dst0 + n;
      left := left - n;
      if avail < left + n {
        UnderEnd(start, input, Abs(), src, out);
        return dst, src, Exit(Incomplete), out;
      }
      phase := Crlf;
      s := Fall;
    }

    method ReadCrlf(buf: array<char>, bufsz: nat, from: nat, ghost start: Decoder, ghost input: string, ghost out: string)
      returns (src: nat, s: Signal)
      requires phase.Crlf? && Under(start, input, Abs(), from, out)
      requires bufsz == |input| <= buf.Length && forall i :: from <= i < bufsz ==> buf[i] == input[i]
      modifies `phase
      ensures from <= src && At(s, start, input, src, out) && !s.Fall? && (s.Again? ==> from < src && phase.Size?)
    {
      src := from;
      ghost var d := Abs();
      while true
        invariant from <= src && Abs() == d && Under(start, input, d, src, out)
        decreases bufsz - src
      {
        if src == bufsz {
          UnderEnd(start, input, Abs(), src, out);
          return src, Exit(Incomplete);
        }
        if buf[src] != '\r' {
          break;
        }
        UnderSkip(start, input, d, src, out, d, src + 1);
        src := src + 1;
      }
      if buf[src] != '\n' {
        UnderStop(start, input, Abs(), src, out);
        return src, Exit(Error);
      }
      src := src + 1;
      phase := Size;
      UnderSkip(start, input, d, src - 1, out, Abs(), src);
      s := Again;
    }

    method ReadTrailerHead(buf: array<char>, bufsz: nat, from: nat, ghost start: Decoder, ghost input: string, ghost out: string)
      returns (src: nat, s: Signal)
      requires phase.TrailerHead? && Under(start, input, Abs(), from, out)
      requires bufsz == |input| <= buf.Length && forall i :: from <= i < bufsz ==> buf[i] == input[i]
      modifies `phase
      ensures from <= src && At(s, start, input, src, out) && !s.Again? && (s.Fall? ==> phase.TrailerMiddle?)
    {
      src := from;
      ghost var d := Abs();
      while true
        invariant from <= src && Abs() == d && Under(start, input, d, src, out)
        decreases bufsz - src
      {
        if src == bufsz {
          UnderEnd(start, input, Abs(), src, out);
          return src, Exit(Incomplete);
        }
        if buf[src] != '\r' {
          break;
        }
        UnderSkip(start, input, d, src, out, d, src + 1);
        src := src + 1;
      }
      UnderTrailerStart(start, input, d, src, out, src + 1);
      src := src + 1;
      if buf[src - 1] == '\n' {
        return src, Exit(Done);
      }
      phase := TrailerMiddle;
      s := Fall;
    }

    method ReadTrailerMiddle(buf: array<char>, bufsz: nat, from: nat, ghost start: Decoder, ghost input: string, ghost out: string)
      returns (src: nat, s: Signal)
      requires phase.TrailerMiddle? && Under(start, input, Abs(), from, out)
      requires bufsz == |input| <= buf.Length && forall i :: from <= i < bufsz ==> buf[i] == input[i]
      modifies `phase
      ensures from <= src && At(s, start, input, src, out) && !s.Fall? && (s.Again? ==> from < src && phase.TrailerHead?)
    {
      src := from;
      ghost var d := Abs();
      while true
        invariant from <= src && Abs() == d && Under(start, input, d, src, out)
        decreases bufsz - src
      {
        if src == bufsz {
          UnderEnd(start, input, Abs(), src, out);
          return src, Exit(Incomplete);
        }
        if buf[src] == '\n' {
          break;
        }
        UnderSkip(start, input, d, src, out, d, src + 1);
        src := src + 1;
      }
      src := src + 1;
      phase := TrailerHead;
      UnderSkip(start, input, d, src - 1, out, Abs(), src);
      s := Again;
    }

    /** The switch, once: from the case of the present state on until control leaves it. */
    method Switch(buf: array<char>, bufsz: nat, dst0: nat, from: nat,
                  ghost start: Decoder, ghost input: string, ghost out0: string, ghost first: string)
      returns (dst: nat, src: nat, s: Signal, ghost out: string)
      requires (phase.Data? ==> left > 0) && Under(start, input, Abs(), from, out0)
      requires bufsz == |input| <= |first| && first[..bufsz] == input
      requires dst0 == |out0| && Written(buf[..], first, out0)
      modifies this, buf
      ensures dst == |out| && Written(buf[..], first, out) && At(s, start, input, src, out) && !s.Fall?
      ensures s.Again? ==> from < src && (phase.Data? ==> left > 0)
    {
      Unread(buf[..], first, out0, from, input);
      dst, src, out := dst0, from, out0;
      if phase == TrailerHead || phase == TrailerMiddle {
        s := Fall;
        if phase == TrailerHead {
          src, s := ReadTrailerHead(buf, bufsz, src, start, input, out);
        }
        if s.Fall? {
          src, s := ReadTrailerMiddle(buf, bufsz, src, start, input, out);
        }
        return;
      }
      dst, src, s, out := SwitchChunk(buf, bufsz, dst, src, start, input, out, first);
    }

    /** The four cases of a chunk fall through to each other. */
    method SwitchChunk(buf: array<char>, bufsz: nat, dst0: nat, from: nat,
                       ghost start: Decoder, ghost input: string, ghost out0: string, ghost first: string)
      returns (dst: nat, src: nat, s: Signal, ghost out: string)
      requires phase.Size? || phase.Extension? || (phase.Data? && left > 0) || phase.Crlf?
      requires Under(start, input, Abs(), from, out0)
      requires bufsz == |input| <= |first| && first[..bufsz] == input
      requires dst0 == |out0| && Written(buf[..], first, out0)
      modifies this, buf
      ensures dst == |out| && Written(buf[..], first, out) && At(s, start, input, src, out) && !s.Fall?
      ensures s.Again? ==> from < src && !phase.Data?
    {
      Unread(buf[..], first, out0, from, input);
      dst, src, s, out := dst0, from, Fall, out0;
      if phase == Size {
        src, s := ReadSize(buf, bufsz, src, start, input, out);
      }
      if s.Fall? && phase == Extension {
        src, s := ReadExtension(buf, bufsz, src, start, input, out);
      }
      if s.Fall? && phase == Data {
        dst, src, s, out := ReadData(buf, bufsz, dst, src, start, input, out, first);
      }
      if s.Fall? {
        Unread(buf[..], first, out, src, input);
        src, s := ReadCrlf(buf, bufsz, src, start, input, out);
      }
    }

    /** The loop: the switch until control leaves it by one of the labels. */
    method DecodeAll(buf: array<char>, bufsz: nat, ghost start: Decoder, ghost input: string, ghost first: string)
      returns (dst: nat, src: nat, verdict: Verdict, ghost out: string)
      requires Valid() && start == Abs() && first == buf[..] && bufsz <= buf.Length && input == first[..bufsz]
      modifies this, buf
      ensures dst == |out| <= src <= bufsz && Written(buf[..], first, out)
      ensures Ended(start, input, Abs(), src, out, verdict)
    {
      dst, src, out := 0, 0, "";
      var s := Again;
      UnderStart(start, input);
      assert Written(buf[..], first, out);
      while !s.Exit?
        invariant At(s, start, input, src, out) && !s.Fall?
        invariant dst == |out| && Written(buf[..], first, out)
        invariant s.Again? ==> phase.Data? ==> left > 0
        decreases if s.Exit? then 0 else 1, bufsz - src
      {
        dst, src, s, out := Switch(buf, bufsz, dst, src, start, input, out, first);
      }
      verdict := s.verdict;
    }

    method Decode(buf: array<char>, bufsz: nat) returns (ret: int, size: nat)
      requires Valid() && bufsz <= buf.Length
      modifies this, buf
      ensures Valid()
      ensures var r := Run(old(Abs()), old(buf[..bufsz]));
              && Abs() == r.d && size == |r.out|
              && ret == (match r.verdict case Incomplete => -2 case Error => -1 case Done => bufsz - r.used)
              && buf[..] == r.out + old(buf[r.used..bufsz]) + old(buf[|r.out| + (bufsz - r.used)..])
    {
      ghost var start, first := Abs(), buf[..];
      ghost var input, out := first[..bufsz], "";
      var dst, src, verdict;
      dst, src, verdict, out := DecodeAll(buf, bufsz, start, input, first);
      ret := match verdict case Incomplete => -2 case Error => -1 case Done => bufsz - src;
      MoveLeftover(buf, dst, src, bufsz, first, out);
      size := dst;
      RunKeepsReachable(start, input);
    }

    /** phr_decode_chunked_is_in_data: whether any byte that comes next is a byte of the body. */
    method IsInData() returns (r: bool)
      requires Valid()
      ensures r <==> forall c: char :: OutputsNext(Abs(), c)
    {
      r := phase == Data;
      InDataExactly(Abs());
    }
  }
}
