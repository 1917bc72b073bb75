/**
 SHA-256 over any kind of word, given the operations on words that it uses: the compression of section 6.2.2
 of FIPS 180-4 with its schedule of 64 words, and the loop that keeps only 16 of them.
 */
module Sha2Rounds {
  import opened Window

  datatype Ops2<!T> = Ops2(add: (T, T) -> T, ch: (T, T, T) -> T, maj: (T, T, T) -> T,
                           big0: T -> T, big1: T -> T, small0: T -> T, small1: T -> T, k: nat -> T)

  /** The working variables. */
  datatype Regs<T> = Regs(a: T, b: T, c: T, d: T, e: T, f: T, g: T, h: T)

  /** Word `t` of the full schedule. */
  function Schedule<T>(o: Ops2<T>, m: seq<T>, t: nat): T
    requires |m| == 16
  {
    if t < 16 then m[t]
    else
      o.add(o.add(o.add(o.small1(Schedule(o, m, t - 2)), Schedule(o, m, t - 7)), o.small0(Schedule(o, m, t - 15))),
            Schedule(o, m, t - 16))
  }

  ghost predicate Commutes<T(!new)>(o: Ops2<T>) {
    forall x, y :: o.add(x, y) == o.add(y, x)
  }

  function ScheduleOf<T>(o: Ops2<T>, m: seq<T>): nat -> T
    requires |m| == 16
  {
    (t: nat) => Schedule(o, m, t)
  }

  function Round<T>(o: Ops2<T>, r: Regs<T>, k: T, w: T): Regs<T> {
    var temp1 := o.add(o.add(o.add(o.add(r.h, o.big1(r.e)), o.ch(r.e, r.f, r.g)), k), w);
    var temp2 := o.add(o.big0(r.a), o.maj(r.a, r.b, r.c));
    Regs(o.add(temp1, temp2), r.a, r.b, r.c, o.add(r.d, temp1), r.e, r.f, r.g)
  }

  /** The first `t` rounds. */
  function Rounds<T>(o: Ops2<T>, r: Regs<T>, m: seq<T>, t: nat): Regs<T>
    requires |m| == 16
  {
    if t == 0 then r else Round(o, Rounds(o, r, m, t - 1), o.k(t - 1), Schedule(o, m, t - 1))
  }

  function Compress<T>(o: Ops2<T>, d: seq<T>, m: seq<T>): (r: seq<T>)
    requires |d| == 8 && |m| == 16
    ensures |r| == 8
  {
    var x := Rounds(o, Regs(d[0], d[1], d[2], d[3], d[4], d[5], d[6], d[7]), m, 64);
    [o.add(d[0], x.a), o.add(d[1], x.b), o.add(d[2], x.c), o.add(d[3], x.d),
     o.add(d[4], x.e), o.add(d[5], x.f), o.add(d[6], x.g), o.add(d[7], x.h)]
  }

  /** W(t) += SIGMA4(W(t + 14)) + W(t + 9) + SIGMA3(W(t + 1)) */
  method Extend<T(!new)>(o: Ops2<T>, w: array<T>, ghost m: seq<T>, t: nat)
    requires w.Length == 16 == |m| && t >= 16 && Commutes(o)
    requires Holds(w[..], ScheduleOf(o, m), t)
    modifies w
    ensures Holds(w[..], ScheduleOf(o, m), t + 1)
  {
    ghost var words := ScheduleOf(o, m);
    var i2, i7, i15, i := (t + 14) % 16, (t + 9) % 16, (t + 1) % 16, t % 16;
    HeldAt(w[..], words, t, 2, i2);
    HeldAt(w[..], words, t, 7, i7);
    HeldAt(w[..], words, t, 15, i15);
    HeldAt(w[..], words, t, 16, i);
    HeldNext(w[..], words, t, i);
    w[i] := o.add(w[i], o.add(o.add(o.small1(w[i2]), w[i7]), o.small0(w[i15])));
  }

  /** The rounds, with the words of the message in `w`; only its 16 places are used. */
  method RunRounds<T(!new)>(o: Ops2<T>, d: array<T>, w: array<T>) returns (r: Regs<T>)
    requires d.Length == 8 && w.Length == 16 && d != w && Commutes(o)
    modifies w
    ensures r == Rounds(o, Regs(d[0], d[1], d[2], d[3], d[4], d[5], d[6], d[7]), old(w[..]), 64)
  {
    ghost var m := w[..];
    ghost var start := Regs(d[0], d[1], d[2], d[3], d[4], d[5], d[6], d[7]);
    r := Regs(d[0], d[1], d[2], d[3], d[4], d[5], d[6], d[7]);
    HeldAtFirst(w[..], ScheduleOf(o, m), 0);
    for t := 0 to 64
      invariant Holds(w[..], ScheduleOf(o, m), t) && r == Rounds(o, start, m, t)
    {
      r := OneRound(o, w, m, start, r, t);
    }
  }

  method OneRound<T(!new)>(o: Ops2<T>, w: array<T>, ghost m: seq<T>, ghost start: Regs<T>, r: Regs<T>, t: nat) returns (r': Regs<T>)
    requires Commutes(o) && w.Length == 16 == |m| && Holds(w[..], ScheduleOf(o, m), t) && r == Rounds(o, start, m, t)
    modifies w
    ensures Holds(w[..], ScheduleOf(o, m), t + 1) && r' == Rounds(o, start, m, t + 1)
  {
    if t >= 16 {
      Extend(o, w, m, t);
    } else {
      StillFirst(w[..], ScheduleOf(o, m), t);
    }
    HeldNow(w[..], ScheduleOf(o, m), t);
    var temp1 := o.add(o.add(o.add(o.add(r.h, o.big1(r.e)), o.ch(r.e, r.f, r.g)), o.k(t)), w[t % 16]);
    var temp2 := o.add(o.big0(r.a), o.maj(r.a, r.b, r.c));
    r' := Regs(o.add(temp1, temp2), r.a, r.b, r.c, o.add(r.d, temp1), r.e, r.f, r.g);
  }

  /** m_digest[i] += ... */
  method AddRegs<T>(o: Ops2<T>, d: array<T>, x: Regs<T>)
    requires d.Length == 8
    modifies d
    ensures d[..] == old([o.add(d[0], x.a), o.add(d[1], x.b), o.add(d[2], x.c), o.add(d[3], x.d),
                          o.add(d[4], x.e), o.add(d[5], x.f), o.add(d[6], x.g), o.add(d[7], x.h)])
  {
    d[0] := o.add(d[0], x.a);
    d[1] := o.add(d[1], x.b);
    d[2] := o.add(d[2], x.c);
    d[3] := o.add(d[3], x.d);
    d[4] := o.add(d[4], x.e);
    d[5] := o.add(d[5], x.f);
    d[6] := o.add(d[6], x.g);
    d[7] := o.add(d[7], x.h);
  }

  method Transform<T(!new)>(o: Ops2<T>, swap: T -> T, d: array<T>, w: array<T>)
    requires d.Length == 8 && w.Length == 16 && d != w && Commutes(o)
    modifies d, w
    ensures d[..] == Compress(o, old(d[..]), Mapped(swap, old(w[..])))
  {
    MapInPlace(swap, w);
    var r := RunRounds(o, d, w);
    AddRegs(o, d, r);
  }
}
