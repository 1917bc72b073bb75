/**
 SHA-1 over any kind of word, given the operations on words that it uses: the compression of section 6.1.2
 of FIPS 180-4 with its schedule of 80 words, and the loop that keeps only 16 of them.
 */
module Sha1Rounds {
  import opened Window

  datatype Ops1<!T> = Ops1(add: (T, T) -> T, xor: (T, T) -> T, rol1: T -> T, rol5: T -> T, rol30: T -> T,
                           ch: (T, T, T) -> T, parity: (T, T, T) -> T, maj: (T, T, T) -> T, k: nat -> T)

  /** The working variables. */
  datatype Regs<T> = Regs(a: T, b: T, c: T, d: T, e: T)

  /** Word `t` of the full schedule. */
  function Schedule<T>(o: Ops1<T>, m: seq<T>, t: nat): T
    requires |m| == 16
  {
    if t < 16 then m[t]
    else
      o.rol1(o.xor(o.xor(o.xor(Schedule(o, m, t - 3), Schedule(o, m, t - 8)), Schedule(o, m, t - 14)), Schedule(o, m, t - 16)))
  }

  function ScheduleOf<T>(o: Ops1<T>, m: seq<T>): nat -> T
    requires |m| == 16
  {
    (t: nat) => Schedule(o, m, t)
  }

  /** The function of round `t`. */
  function Mix<T>(o: Ops1<T>, t: nat, b: T, c: T, d: T): T {
    if t < 20 then o.ch(b, c, d) else if 40 <= t < 60 then o.maj(b, c, d) else o.parity(b, c, d)
  }

  /** Which of the four constants round `t` adds. */
  function Stage(t: nat): (i: nat)
    ensures t < 80 ==> i == t / 20
  {
    if t < 20 then 0 else if t < 40 then 1 else if t < 60 then 2 else 3
  }

  function Round<T>(o: Ops1<T>, r: Regs<T>, t: nat, w: T): Regs<T> {
    var temp := o.add(o.add(o.add(o.add(o.rol5(r.a), Mix(o, t, r.b, r.c, r.d)), r.e), w), o.k(Stage(t)));
    Regs(temp, r.a, o.rol30(r.b), r.c, r.d)
  }

  /** The first `t` rounds. */
  function Rounds<T>(o: Ops1<T>, r: Regs<T>, m: seq<T>, t: nat): Regs<T>
    requires |m| == 16
  {
    if t == 0 then r else Round(o, Rounds(o, r, m, t - 1), t - 1, Schedule(o, m, t - 1))
  }

  function Compress<T>(o: Ops1<T>, d: seq<T>, m: seq<T>): (r: seq<T>)
    requires |d| == 5 && |m| == 16
    ensures |r| == 5
  {
    var x := Rounds(o, Regs(d[0], d[1], d[2], d[3], d[4]), m, 80);
    [o.add(d[0], x.a), o.add(d[1], x.b), o.add(d[2], x.c), o.add(d[3], x.d), o.add(d[4], x.e)]
  }

  /** W(i) = ROL32(W(i + 13) ^ W(i + 8) ^ W(i + 2) ^ W(i), 1) */
  method Extend<T>(o: Ops1<T>, w: array<T>, ghost m: seq<T>, t: nat)
    requires w.Length == 16 == |m| && t >= 16
    requires Holds(w[..], ScheduleOf(o, m), t)
    modifies w
    ensures Holds(w[..], ScheduleOf(o, m), t + 1)
  {
    ghost var words := ScheduleOf(o, m);
    var i3, i8, i14, i := (t + 13) % 16, (t + 8) % 16, (t + 2) % 16, t % 16;
    HeldAt(w[..], words, t, 3, i3);
    HeldAt(w[..], words, t, 8, i8);
    HeldAt(w[..], words, t, 14, i14);
    HeldAt(w[..], words, t, 16, i);
    HeldNext(w[..], words, t, i);
    w[i] := o.rol1(o.xor(o.xor(o.xor(w[i3], w[i8]), w[i14]), w[i]));
  }

  method Temp<T>(o: Ops1<T>, r: Regs<T>, w: T, t: nat) returns (temp: T)
    ensures temp == o.add(o.add(o.add(o.add(o.rol5(r.a), Mix(o, t, r.b, r.c, r.d)), r.e), w), o.k(Stage(t)))
  {
    if t < 20 {
      temp := o.add(o.add(o.add(o.add(o.rol5(r.a), o.ch(r.b, r.c, r.d)), r.e), w), o.k(0));
    } else if t < 40 {
      temp := o.add(o.add(o.add(o.add(o.rol5(r.a), o.parity(r.b, r.c, r.d)), r.e), w), o.k(1));
    } else if t < 60 {
      temp := o.add(o.add(o.add(o.add(o.rol5(r.a), o.maj(r.b, r.c, r.d)), r.e), w), o.k(2));
    } else {
      temp := o.add(o.add(o.add(o.add(o.rol5(r.a), o.parity(r.b, r.c, r.d)), r.e), w), o.k(3));
    }
  }

  method OneRound<T>(o: Ops1<T>, w: array<T>, ghost m: seq<T>, ghost start: Regs<T>, r: Regs<T>, t: nat) returns (r': Regs<T>)
    requires w.Length == 16 == |m| && t < 80 && Holds(w[..], ScheduleOf(o, m), t) && r == Rounds(o, start, m, t)
    modifies w
    ensures Holds(w[..], ScheduleOf(o, m), t + 1) && r' == Rounds(o, start, m, t + 1)
  {
    if t >= 16 {
      Extend(o, w, m, t);
    } else {
      StillFirst(w[..], ScheduleOf(o, m), t);
    }
    HeldNow(w[..], ScheduleOf(o, m), t);
    var temp := Temp(o, r, w[t % 16], t);
    r' := Regs(temp, r.a, o.rol30(r.b), r.c, r.d);
  }

  /** The rounds, with the words of the message in `w`; only its 16 places are used. */
  method RunRounds<T>(o: Ops1<T>, d: array<T>, w: array<T>) returns (r: Regs<T>)
    requires d.Length == 5 && w.Length == 16 && d != w
    modifies w
    ensures r == Rounds(o, Regs(d[0], d[1], d[2], d[3], d[4]), old(w[..]), 80)
  {
    ghost var m := w[..];
    ghost var start := Regs(d[0], d[1], d[2], d[3], d[4]);
    r := Regs(d[0], d[1], d[2], d[3], d[4]);
    HeldAtFirst(w[..], ScheduleOf(o, m), 0);
    for t := 0 to 80
      invariant Holds(w[..], ScheduleOf(o, m), t) && r == Rounds(o, start, m, t)
    {
      r := OneRound(o, w, m, start, r, t);
    }
  }

  /** m_digest[i] += ... */
  method AddRegs<T>(o: Ops1<T>, d: array<T>, x: Regs<T>)
    requires d.Length == 5
    modifies d
    ensures d[..] == old([o.add(d[0], x.a), o.add(d[1], x.b), o.add(d[2], x.c), o.add(d[3], x.d), o.add(d[4], x.e)])
  {
    d[0] := o.add(d[0], x.a);
    d[1] := o.add(d[1], x.b);
    d[2] := o.add(d[2], x.c);
    d[3] := o.add(d[3], x.d);
    d[4] := o.add(d[4], x.e);
  }

  method Transform<T>(o: Ops1<T>, swap: T -> T, d: array<T>, w: array<T>)
    requires d.Length == 5 && w.Length == 16 && d != w
    modifies d, w
    ensures d[..] == Compress(o, old(d[..]), Mapped(swap, old(w[..])))
  {
    MapInPlace(swap, w);
    var r := RunRounds(o, d, w);
    AddRegs(o, d, r);
  }
}
