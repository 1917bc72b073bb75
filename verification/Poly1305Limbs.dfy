/**
 Numbers held in 32-bit limbs: what each phase of the Poly1305 block step does to the value,
 and the bounds that keep every limb inside 64 bits.
 */
module Poly1305Limbs {
  import opened Arith
  import opened ByteNumbers
  import opened Poly1305Spec

  const W: int := 0x1_00000000  // 2^32, the weight of one limb
  const W64: int := 0x1_00000000_00000000
  const W96: int := 0x1_00000000_00000000_00000000
  const W128: int := 0x1_00000000_00000000_00000000_00000000
  const TWO130: int := 0x4_00000000_00000000_00000000_00000000
  const TWO124: int := 0x10000000_00000000_00000000_00000000

  const TWO255: int := 0x80000000_00000000_00000000_00000000_00000000_00000000_00000000_00000000

  const TWO60: int := 0x10000000_00000000
  const TWO62: int := 0x40000000_00000000

  type u32 = x: int | 0 <= x < 0x1_00000000
  type u64 = x: int | 0 <= x < 0x1_00000000_00000000

  /** x & 0xFFFFFFFF */
  function Lo(x: int): int {
    x % 0x1_00000000
  }

  /** x >> 32 */
  function Hi(x: int): int {
    x / 0x1_00000000
  }

  /** The number held in limbs, least significant limb first. */
  function LimbValue(limbs: seq<nat>): nat {
    if limbs == [] then 0 else limbs[0] + 0x1_00000000 * LimbValue(limbs[1..])
  }

  function Val4(x0: nat, x1: nat, x2: nat, x3: nat): nat {
    LimbValue([x0, x1, x2, x3])
  }

  function Val5(x0: nat, x1: nat, x2: nat, x3: nat, x4: nat): nat {
    LimbValue([x0, x1, x2, x3, x4])
  }

  function Val8(x0: nat, x1: nat, x2: nat, x3: nat, x4: nat, x5: nat, x6: nat, x7: nat): nat {
    LimbValue([x0, x1, x2, x3, x4, x5, x6, x7])
  }

  lemma Sum4(x0: nat, x1: nat, x2: nat, x3: nat)
    ensures Val4(x0, x1, x2, x3)
         == x0 + 0x1_00000000 * x1 + 0x1_00000000_00000000 * x2 + 0x1_00000000_00000000_00000000 * x3
  {
    assert [x2, x3][1..] == [x3] && [x1, x2, x3][1..] == [x2, x3] && [x0, x1, x2, x3][1..] == [x1, x2, x3];
    assert LimbValue([x3]) == x3;
    assert LimbValue([x2, x3]) == x2 + 0x1_00000000 * x3;
    assert LimbValue([x1, x2, x3]) == x1 + 0x1_00000000 * LimbValue([x2, x3]);
  }

  lemma Sum5(x0: nat, x1: nat, x2: nat, x3: nat, x4: nat)
    ensures Val5(x0, x1, x2, x3, x4)
         == x0 + 0x1_00000000 * x1 + 0x1_00000000_00000000 * x2 + 0x1_00000000_00000000_00000000 * x3
          + 0x1_00000000_00000000_00000000_00000000 * x4
  {
    assert [x0, x1, x2, x3, x4][1..] == [x1, x2, x3, x4];
    Sum4(x1, x2, x3, x4);
  }

  lemma Sum8(x0: nat, x1: nat, x2: nat, x3: nat, x4: nat, x5: nat, x6: nat, x7: nat)
    ensures Val8(x0, x1, x2, x3, x4, x5, x6, x7)
         == Val4(x0, x1, x2, x3) + 0x1_00000000_00000000_00000000_00000000 * Val4(x4, x5, x6, x7)
  {
    assert [x3, x4, x5, x6, x7][1..] == [x4, x5, x6, x7];
    assert [x2, x3, x4, x5, x6, x7][1..] == [x3, x4, x5, x6, x7];
    assert [x1, x2, x3, x4, x5, x6, x7][1..] == [x2, x3, x4, x5, x6, x7];
    assert [x0, x1, x2, x3, x4, x5, x6, x7][1..] == [x1, x2, x3, x4, x5, x6, x7];
    var v := LimbValue([x4, x5, x6, x7]);
    assert LimbValue([x3, x4, x5, x6, x7]) == x3 + 0x1_00000000 * v;
    assert LimbValue([x2, x3, x4, x5, x6, x7]) == x2 + 0x1_00000000 * (x3 + 0x1_00000000 * v);
    assert LimbValue([x1, x2, x3, x4, x5, x6, x7])
        == x1 + 0x1_00000000 * (x2 + 0x1_00000000 * (x3 + 0x1_00000000 * v));
    Sum4(x0, x1, x2, x3);
  }

  /** Schoolbook multiplication: the column sums fit 62 bits and carry the value of the product. */
  method Columns(x0: u32, x1: u32, x2: u32, x3: u32, x4: u32, r0: u32, r1: u32, r2: u32, r3: u32)
    returns (c0: u64, c1: u64, c2: u64, c3: u64, c4: u64, c5: u64, c6: u64, c7: u64)
    requires r0 < 0x10000000 && r1 < 0x10000000 && r2 < 0x10000000 && r3 < 0x10000000
    ensures c0 < TWO62 && c1 < TWO62 && c2 < TWO62 && c3 < TWO62 && c4 < TWO62 && c5 < TWO62
    ensures c6 < TWO62 && c7 < TWO62
    ensures Val8(c0, c1, c2, c3, c4, c5, c6, c7) == Val5(x0, x1, x2, x3, x4) * Val4(r0, r1, r2, r3)
  {
    RowBounds(x0, r0, r1, r2, r3);
    RowBounds(x1, r0, r1, r2, r3);
    RowBounds(x2, r0, r1, r2, r3);
    RowBounds(x3, r0, r1, r2, r3);
    RowBounds(x4, r0, r1, r2, r3);
    c0 := x0 * r0;
    c1 := x0 * r1 + x1 * r0;
    c2 := x0 * r2 + x1 * r1 + x2 * r0;
    c3 := x0 * r3 + x1 * r2 + x2 * r1 + x3 * r0;
    c4 := x1 * r3 + x2 * r2 + x3 * r1 + x4 * r0;
    c5 := x2 * r3 + x3 * r2 + x4 * r1;
    c6 := x3 * r3 + x4 * r2;
    c7 := x4 * r3;
    ProductValue(x0, x1, x2, x3, x4, r0, r1, r2, r3, c0, c1, c2, c3, c4, c5, c6, c7);
  }

  lemma ProductValue(x0: nat, x1: nat, x2: nat, x3: nat, x4: nat, r0: nat, r1: nat, r2: nat, r3: nat,
                     c0: nat, c1: nat, c2: nat, c3: nat, c4: nat, c5: nat, c6: nat, c7: nat)
    requires c0 == x0 * r0 && c1 == x0 * r1 + x1 * r0 && c2 == x0 * r2 + x1 * r1 + x2 * r0
    requires c3 == x0 * r3 + x1 * r2 + x2 * r1 + x3 * r0 && c4 == x1 * r3 + x2 * r2 + x3 * r1 + x4 * r0
    requires c5 == x2 * r3 + x3 * r2 + x4 * r1 && c6 == x3 * r3 + x4 * r2 && c7 == x4 * r3
    ensures Val8(c0, c1, c2, c3, c4, c5, c6, c7) == Val5(x0, x1, x2, x3, x4) * Val4(r0, r1, r2, r3)
  {
    Sum5(x0, x1, x2, x3, x4);
    Sum4(r0, r1, r2, r3);
    Sum8(c0, c1, c2, c3, c4, c5, c6, c7);
    Sum4(c0, c1, c2, c3);
    Sum4(c4, c5, c6, c7);
    ProductIdentity(x0, x1, x2, x3, x4, r0, r1, r2, r3);
  }

  lemma ProductIdentity(x0: int, x1: int, x2: int, x3: int, x4: int, r0: int, r1: int, r2: int, r3: int)
    ensures (x0 + 0x1_00000000 * x1 + 0x1_00000000_00000000 * x2 + 0x1_00000000_00000000_00000000 * x3
             + 0x1_00000000_00000000_00000000_00000000 * x4)
            * (r0 + 0x1_00000000 * r1 + 0x1_00000000_00000000 * r2 + 0x1_00000000_00000000_00000000 * r3)
         == x0 * r0
          + 0x1_00000000 * (x0 * r1 + x1 * r0)
          + 0x1_00000000_00000000 * (x0 * r2 + x1 * r1 + x2 * r0)
          + 0x1_00000000_00000000_00000000 * (x0 * r3 + x1 * r2 + x2 * r1 + x3 * r0)
          + 0x1_00000000_00000000_00000000_00000000 * ((x1 * r3 + x2 * r2 + x3 * r1 + x4 * r0)
             + 0x1_00000000 * (x2 * r3 + x3 * r2 + x4 * r1)
             + 0x1_00000000_00000000 * (x3 * r3 + x4 * r2)
             + 0x1_00000000_00000000_00000000 * (x4 * r3))
  {
  }

  lemma LimbProduct(x: nat, r: nat)
    requires x < W && r < 0x10000000
    ensures 0 <= x * r < TWO60
  {
    MulMono(x, r, W - 1, 0x0FFFFFFF);
  }

  /** Every product of an accumulator limb and a limb of the clamped `r` is below 2^60. */
  lemma RowBounds(x: u32, r0: u32, r1: u32, r2: u32, r3: u32)
    requires r0 < 0x10000000 && r1 < 0x10000000 && r2 < 0x10000000 && r3 < 0x10000000
    ensures 0 <= x * r0 < TWO60 && 0 <= x * r1 < TWO60 && 0 <= x * r2 < TWO60 && 0 <= x * r3 < TWO60
  {
    LimbProduct(x, r0);
    LimbProduct(x, r1);
    LimbProduct(x, r2);
    LimbProduct(x, r3);
  }

  /** A 17-byte number read as four 32-bit limbs and a byte. */
  lemma LeNumOf17(b: seq<bv8>)
    requires |b| == 17
    ensures LeNum(b)
         == Val5(LeNum(b[0..4]), LeNum(b[4..8]), LeNum(b[8..12]), LeNum(b[12..16]), b[16] as int)
  {
    Sum5(LeNum(b[0..4]), LeNum(b[4..8]), LeNum(b[8..12]), LeNum(b[12..16]), b[16] as int);
    LeNumSplit4(b);
    LeNumSplit4(b[4..]);
    LeNumSplit4(b[8..]);
    LeNumSplit4(b[12..]);
    assert b[4..][..4] == b[4..8] && b[4..][4..] == b[8..];
    assert b[8..][..4] == b[8..12] && b[8..][4..] == b[12..];
    assert b[12..][..4] == b[12..16] && b[12..][4..] == b[16..];
    assert b[..4] == b[0..4];
    assert LeNum(b[16..]) == b[16] as int;
  }

  lemma LeNumOf16(b: seq<bv8>)
    requires |b| == 16
    ensures LeNum(b) == Val4(LeNum(b[0..4]), LeNum(b[4..8]), LeNum(b[8..12]), LeNum(b[12..16]))
  {
    Sum4(LeNum(b[0..4]), LeNum(b[4..8]), LeNum(b[8..12]), LeNum(b[12..16]));
    LeNumSplit4(b);
    LeNumSplit4(b[4..]);
    LeNumSplit4(b[8..]);
    assert b[4..][..4] == b[4..8] && b[4..][4..] == b[8..];
    assert b[8..][..4] == b[8..12] && b[8..][4..] == b[12..];
    assert b[..4] == b[0..4] && b[12..] == b[12..16];
  }

  lemma LeNumSplit4(b: seq<bv8>)
    requires 4 <= |b|
    ensures LeNum(b) == LeNum(b[..4]) + 0x1_00000000 * LeNum(b[4..])
  {
    LeNumConcat(b[..4], b[4..]);
    assert b == b[..4] + b[4..];
    PowersOf256();
  }

  lemma PowersOf256()
    ensures Pow256(4) == W && Pow256(16) == W128
  {
    assert Pow256(1) == 0x100 && Pow256(2) == 0x10000 && Pow256(3) == 0x1000000;
    assert Pow256(5) == 0x100 * W && Pow256(6) == 0x10000 * W && Pow256(7) == 0x1000000 * W;
    assert Pow256(8) == W64;
    assert Pow256(10) == 0x10000 * W64 && Pow256(12) == W96;
    assert Pow256(14) == 0x10000 * W96;
  }

  /** Moving the high part of every limb into the next one keeps the value. */
  lemma Carry4Value(x0: nat, x1: nat, x2: nat, x3: nat, x4: nat, y1: nat, y2: nat, y3: nat, y4: nat)
    requires y1 == x1 + Hi(x0) && y2 == x2 + Hi(y1) && y3 == x3 + Hi(y2) && y4 == x4 + Hi(y3)
    ensures Val5(Lo(x0), Lo(y1), Lo(y2), Lo(y3), y4) == Val5(x0, x1, x2, x3, x4)
  {
    Sum5(Lo(x0), Lo(y1), Lo(y2), Lo(y3), y4);
    Sum5(x0, x1, x2, x3, x4);
  }

  lemma Carry8Value(x0: nat, x1: nat, x2: nat, x3: nat, x4: nat, x5: nat, x6: nat, x7: nat,
                    y1: nat, y2: nat, y3: nat, y4: nat, y5: nat, y6: nat, y7: nat)
    requires y1 == x1 + Hi(x0) && y2 == x2 + Hi(y1) && y3 == x3 + Hi(y2) && y4 == x4 + Hi(y3)
    requires y5 == x5 + Hi(y4) && y6 == x6 + Hi(y5) && y7 == x7 + Hi(y6)
    ensures Val8(Lo(x0), Lo(y1), Lo(y2), Lo(y3), Lo(y4), Lo(y5), Lo(y6), y7)
         == Val8(x0, x1, x2, x3, x4, x5, x6, x7)
  {
    Sum8(Lo(x0), Lo(y1), Lo(y2), Lo(y3), Lo(y4), Lo(y5), Lo(y6), y7);
    Sum4(Lo(x0), Lo(y1), Lo(y2), Lo(y3));
    Sum4(Lo(y4), Lo(y5), Lo(y6), y7);
    Sum8(x0, x1, x2, x3, x4, x5, x6, x7);
    Sum4(x0, x1, x2, x3);
    Sum4(x4, x5, x6, x7);
  }

  /** The product of an accumulator below 2^131 and a clamped `r` is below 2^255. */
  lemma ProductBound(v: nat, r: nat)
    requires v < 2 * TWO130 && r < TWO124
    ensures 0 <= v * r < TWO255
  {
    MulMono(v, r, 2 * TWO130 - 1, TWO124 - 1);
  }

  /** ... which leaves its top limb below 2^31. */
  lemma TopLimb(product: nat, x0: u32, x1: u32, x2: u32, x3: u32, x4: u32, x5: u32, x6: u32, x7: nat)
    requires product < TWO255 && product == Val8(x0, x1, x2, x3, x4, x5, x6, x7)
    ensures x7 < 0x8000_0000
  {
    Sum8(x0, x1, x2, x3, x4, x5, x6, x7);
    Sum4(x4, x5, x6, x7);
  }

  /** (h >> 2) | (next << 30), on 32-bit words. */
  function Shifted(h: u32, next: u32): u32 {
    h / 4 + next % 4 * 0x40000000
  }

  /** The part of a product above bit 130: four times it, and it. */
  method HighWords(x4: u32, x5: u32, x6: u32, x7: u32)
    returns (h0: u32, h1: u32, h2: u32, h3: u32, t0: u32, t1: u32, t2: u32, t3: u32)
    ensures h0 == x4 / 4 * 4 && h1 == x5 && h2 == x6 && h3 == x7
    ensures t0 == Shifted(h0, h1) && t1 == Shifted(h1, h2) && t2 == Shifted(h2, h3) && t3 == h3 / 4
  {
    h0, h1, h2, h3 := x4 / 4 * 4, x5, x6, x7;
    t0, t1, t2, t3 := Shifted(h0, h1), Shifted(h1, h2), Shifted(h2, h3), h3 / 4;
  }

  lemma HighShifted(h0: u32, h1: u32, h2: u32, h3: u32, t0: u32, t1: u32, t2: u32, t3: u32, high: nat)
    requires h0 % 4 == 0 && h3 < 0x8000_0000
    requires high == h0 / 4 + h1 * 0x40000000 + h2 * 0x40000000_00000000 + h3 * 0x40000000_00000000_00000000
    requires t0 == Shifted(h0, h1) && t1 == Shifted(h1, h2) && t2 == Shifted(h2, h3) && t3 == h3 / 4
    ensures Val4(h0, h1, h2, h3) == 4 * high && Val4(t0, t1, t2, t3) == high && 5 * high < W128
  {
    Sum4(h0, h1, h2, h3);
    Sum4(t0, t1, t2, t3);
  }

  /** A product split at bit 130, the part above it held in x4 and h1..h3. */
  lemma SplitAt130(x0: u32, x1: u32, x2: u32, x3: u32, x4: u32, h1: u32, h2: u32, h3: u32, high: nat)
    requires high == x4 / 4 + h1 * 0x40000000 + h2 * 0x40000000_00000000 + h3 * 0x40000000_00000000_00000000
    ensures Val8(x0, x1, x2, x3, x4, h1, h2, h3) == Val5(x0, x1, x2, x3, x4 % 4) + 0x4_00000000_00000000_00000000_00000000 * high
  {
    Sum8(x0, x1, x2, x3, x4, h1, h2, h3);
    Sum4(x0, x1, x2, x3);
    Sum4(x4, h1, h2, h3);
    Sum5(x0, x1, x2, x3, x4 % 4);
  }

  /** Adding a number's limbs. */
  lemma AddLimbValues(x0: nat, x1: nat, x2: nat, x3: nat, x4: nat, h0: nat, h1: nat, h2: nat, h3: nat)
    ensures Val5(x0 + h0, x1 + h1, x2 + h2, x3 + h3, x4) == Val5(x0, x1, x2, x3, x4) + Val4(h0, h1, h2, h3)
  {
    Sum5(x0 + h0, x1 + h1, x2 + h2, x3 + h3, x4);
    Sum5(x0, x1, x2, x3, x4);
    Sum4(h0, h1, h2, h3);
  }

  lemma AddTwo(x0: nat, x1: nat, x2: nat, x3: nat, x4: nat, h0: nat, h1: nat, h2: nat, h3: nat,
               t0: nat, t1: nat, t2: nat, t3: nat, low: nat, high: nat) returns (sum: nat)
    requires low == Val5(x0, x1, x2, x3, x4) && Val4(h0, h1, h2, h3) == 4 * high && Val4(t0, t1, t2, t3) == high
    ensures sum == Val5(x0 + h0 + t0, x1 + h1 + t1, x2 + h2 + t2, x3 + h3 + t3, x4) && sum == low + 5 * high
  {
    AddLimbValues(x0, x1, x2, x3, x4, h0, h1, h2, h3);
    AddLimbValues(x0 + h0, x1 + h1, x2 + h2, x3 + h3, x4, t0, t1, t2, t3);
    sum := Val5(x0 + h0 + t0, x1 + h1 + t1, x2 + h2 + t2, x3 + h3 + t3, x4);
  }

  /**
   First reduction pass.  A product is split at bit 130 into `low` and `high`; four times the high
   part, held in h0..h3, and that number shifted right by two bits are added to the low part.
   */
  lemma FirstPass(product: nat, x0: u32, x1: u32, x2: u32, x3: u32, x4: u32,
                  h0: u32, h1: u32, h2: u32, h3: u32, t0: u32, t1: u32, t2: u32, t3: u32)
    returns (low: nat, high: nat, folded: nat)
    requires product == Val8(x0, x1, x2, x3, x4, h1, h2, h3) < TWO255
    requires h0 == x4 / 4 * 4
    requires t0 == Shifted(h0, h1) && t1 == Shifted(h1, h2) && t2 == Shifted(h2, h3) && t3 == h3 / 4
    ensures folded == low + 5 * high < TWO130 + W128
    ensures product == low + 0x4_00000000_00000000_00000000_00000000 * high
    ensures Val5(x0 + h0 + t0, x1 + h1 + t1, x2 + h2 + t2, x3 + h3 + t3, x4 % 4) == folded
  {
    low := Val5(x0, x1, x2, x3, x4 % 4);
    high := x4 / 4 + h1 * 0x40000000 + h2 * 0x40000000_00000000 + h3 * 0x40000000_00000000_00000000;
    TopLimb(product, x0, x1, x2, x3, x4, h1, h2, h3);
    SplitAt130(x0, x1, x2, x3, x4, h1, h2, h3, high);
    HighShifted(h0, h1, h2, h3, t0, t1, t2, t3, high);
    LowBound(x0, x1, x2, x3, x4 % 4);
    folded := AddTwo(x0, x1, x2, x3, x4 % 4, h0, h1, h2, h3, t0, t1, t2, t3, low, high);
  }

  lemma LowBound(x0: u32, x1: u32, x2: u32, x3: u32, x4: nat)
    requires x4 < 4
    ensures Val5(x0, x1, x2, x3, x4) < TWO130
  {
    Sum5(x0, x1, x2, x3, x4);
  }

  /**
   Second pass, on a value below 2^130 + 2^128: what sticks out above bit 130 is folded back,
   after which the value fits 130 bits.
   */
  lemma SecondPass(x0: u32, x1: u32, x2: u32, x3: u32, x4: nat, h: nat) returns (low: nat, high: nat)
    requires Val5(x0, x1, x2, x3, x4) < TWO130 + W128
    requires h == x4 / 4 * 4
    ensures h <= 4
    ensures Val5(x0, x1, x2, x3, x4) == low + 0x4_00000000_00000000_00000000_00000000 * high
    ensures Val5(x0 + h + h / 4, x1, x2, x3, x4 % 4) == low + 5 * high < TWO130
  {
    Sum5(x0, x1, x2, x3, x4);
    Sum5(x0, x1, x2, x3, x4 % 4);
    Sum5(x0 + h + h / 4, x1, x2, x3, x4 % 4);
    low, high := Val5(x0, x1, x2, x3, x4 % 4), x4 / 4;
  }

  lemma RBound(r0: u32, r1: u32, r2: u32, r3: u32)
    requires r0 < 0x10000000 && r1 < 0x10000000 && r2 < 0x10000000 && r3 < 0x10000000
    ensures 0 <= Val4(r0, r1, r2, r3) < TWO124
  {
    Sum4(r0, r1, r2, r3);
  }

  lemma SumBound(x0: u32, x1: u32, x2: u32, x3: u32, x4: u32)
    requires x4 <= 5
    ensures 0 <= Val5(x0, x1, x2, x3, x4) < 2 * TWO130
  {
    Sum5(x0, x1, x2, x3, x4);
  }

  /** A value below 2^130 + 2^129 has a top limb of at most 5. */
  lemma SumTop(y0: u32, y1: u32, y2: u32, y3: u32, y4: nat)
    requires Val5(y0, y1, y2, y3, y4) < TWO130 + W128 * 2
    ensures y4 <= 5 && Lo(y4) == y4
  {
    Sum5(y0, y1, y2, y3, y4);
  }

  lemma SumValue(x0: u32, x1: u32, x2: u32, x3: u32, x4: nat, b0: u32, b1: u32, b2: u32, b3: u32, b4: nat)
    requires x4 < 4 && b4 <= 1
    ensures Val5(x0 + b0, x1 + b1, x2 + b2, x3 + b3, x4 + b4)
         == Val5(x0, x1, x2, x3, x4) + Val5(b0, b1, b2, b3, b4) < TWO130 + W128 * 2
  {
    Sum5(x0, x1, x2, x3, x4);
    Sum5(b0, b1, b2, b3, b4);
    Sum5(x0 + b0, x1 + b1, x2 + b2, x3 + b3, x4 + b4);
  }

  /** A value below 2^130 has a two-bit top limb. */
  lemma TopTwoBits(y0: u32, y1: u32, y2: u32, y3: u32, y4: nat)
    requires Val5(y0, y1, y2, y3, y4) < TWO130
    ensures y4 < 4 && y4 % 4 == y4
  {
    Sum5(y0, y1, y2, y3, y4);
  }

  /** Adding five times the high part instead of 2^130 times it keeps the residue. */
  lemma FoldResidue(value: nat, folded: nat, low: nat, high: nat)
    requires value == low + 0x4_00000000_00000000_00000000_00000000 * high && folded == low + 5 * high
    ensures Mod(folded) == Mod(value)
  {
    assert TWO130 == P + 5;
    ModShift(value, folded, P, high);
    ModIsRemainder(value);
    ModIsRemainder(folded);
  }

  // ---------- the final subtraction and the tag ----------

  /** If the accumulator plus 5 reaches 2^130 its low limbs are the residue, otherwise it was reduced. */
  lemma FinalSubtraction(x0: u32, x1: u32, x2: u32, x3: u32, x4: nat,
                         y0: u32, y1: u32, y2: u32, y3: u32, y4: nat)
    requires x4 < 4 && Val5(y0, y1, y2, y3, y4) == Val5(x0, x1, x2, x3, x4) + 5
    ensures y4 <= 4
    ensures var v := Val5(x0, x1, x2, x3, x4);
            && Mod(v) == (if y4 == 4 then Val4(y0, y1, y2, y3) else v)
            && v == Val4(x0, x1, x2, x3) + 0x1_00000000_00000000_00000000_00000000 * x4
  {
    Sum5(x0, x1, x2, x3, x4);
    Sum5(y0, y1, y2, y3, y4);
    Sum4(x0, x1, x2, x3);
    Sum4(y0, y1, y2, y3);
    var v := Val5(x0, x1, x2, x3, x4);
    if y4 == 4 {
      assert Mod(v) == Mod(v - P);
    }
  }

  /** The same for the limbs that the bit selects. */
  lemma Selected(v: nat, x0: u32, x1: u32, x2: u32, x3: u32, x4: nat,
                 y0: u32, y1: u32, y2: u32, y3: u32, y4: nat, bit: nat) returns (high: nat)
    requires x4 < 4 && v == Val5(x0, x1, x2, x3, x4) && Val5(y0, y1, y2, y3, y4) == v + 5 && bit == y4 / 4 % 2
    ensures y4 <= 4
    ensures bit == 1 ==> Mod(v) == Val4(y0, y1, y2, y3) + 0x1_00000000_00000000_00000000_00000000 * high
    ensures bit != 1 ==> Mod(v) == Val4(x0, x1, x2, x3) + 0x1_00000000_00000000_00000000_00000000 * high
  {
    FinalSubtraction(x0, x1, x2, x3, x4, y0, y1, y2, y3, y4);
    high := if bit == 1 then 0 else x4;
  }

  lemma PlusFive(x0: nat, x1: nat, x2: nat, x3: nat, x4: nat)
    ensures Val5(x0 + 5, x1, x2, x3, x4) == Val5(x0, x1, x2, x3, x4) + 5
  {
    Sum5(x0 + 5, x1, x2, x3, x4);
    Sum5(x0, x1, x2, x3, x4);
  }

  /** Adding a four-limb number, then carrying: the sum modulo 2^128 and what is left above it. */
  lemma SumModulo128(x0: nat, x1: nat, x2: nat, x3: nat, x4: nat, s0: nat, s1: nat, s2: nat, s3: nat,
                     y0: u32, y1: u32, y2: u32, y3: u32, y4: nat)
    requires x4 <= y4
    requires Val5(y0, y1, y2, y3, y4) == Val5(x0 + s0, x1 + s1, x2 + s2, x3 + s3, x4)
    ensures Val4(x0, x1, x2, x3) + Val4(s0, s1, s2, s3) == Val4(y0, y1, y2, y3) + 0x1_00000000_00000000_00000000_00000000 * (y4 - x4)
    ensures Val4(y0, y1, y2, y3) < W128
  {
    Sum5(y0, y1, y2, y3, y4);
    Sum5(x0 + s0, x1 + s1, x2 + s2, x3 + s3, x4);
    Sum4(x0, x1, x2, x3);
    Sum4(s0, s1, s2, s3);
    Sum4(y0, y1, y2, y3);
  }

  lemma LeBytesWord(v: nat, x: u32, y: nat, n: nat)
    requires v == x + 0x1_00000000 * y
    ensures LeBytes(v, 4 + n) == LeBytes(x, 4) + LeBytes(y, n)
  {
    PowersOf256();
    LeBytesSplit(x, y, 4, n);
  }

  lemma LimbBytes2(x0: u32, x1: u32, y: nat, v: nat, n: nat)
    requires v == x0 + 0x1_00000000 * (x1 + 0x1_00000000 * y)
    ensures LeBytes(v, 8 + n) == LeBytes(x0, 4) + LeBytes(x1, 4) + LeBytes(y, n)
  {
    var rest := x1 + 0x1_00000000 * y;
    LeBytesWord(v, x0, rest, 4 + n);
    LeBytesWord(rest, x1, y, n);
    SeqAssoc(LeBytes(x0, 4), LeBytes(x1, 4), LeBytes(y, n));
  }

  /** Four reduced limbs, stored one after the other, are the 16 bytes of the number. */
  lemma LimbBytes(x0: u32, x1: u32, x2: u32, x3: u32)
    ensures LeBytes(x0, 4) + LeBytes(x1, 4) + LeBytes(x2, 4) + LeBytes(x3, 4)
         == LeBytes(Val4(x0, x1, x2, x3), 16)
  {
    Sum4(x0, x1, x2, x3);
    var v := Val4(x0, x1, x2, x3);
    var y := x2 + 0x1_00000000 * (x3 + 0x1_00000000 * 0);
    LimbBytes2(x0, x1, y, v, 8);
    LimbBytes2(x2, x3, 0, y, 0);
    assert LeBytes(0, 0) == [];
  }

  /** Only the low 128 bits of a number reach its 16 bytes. */
  lemma LeBytesLow(x: nat, m: nat, q: nat)
    requires m < W128 && x == m + 0x1_00000000_00000000_00000000_00000000 * q
    ensures LeBytes(x, 16) == LeBytes(m, 16)
  {
    PowersOf256();
    LeBytesSplit(m, q, 16, 0);
    assert LeBytes(q, 0) == [];
  }

  // ---------- the clamped key ----------

  lemma MaskedByte(b: bv8)
    ensures (b & 15) as int == b as int % 16 && (b & 252) as int == b as int / 4 * 4
  {
  }

  /** Clearing bits of the four bytes is clearing bits of the 32-bit word. */
  lemma ClampWord(b0: bv8, b1: bv8, b2: bv8, b3: bv8, word: int)
    requires word == b0 as int + b1 as int * 0x100 + b2 as int * 0x10000 + b3 as int * 0x1000000
    ensures b0 as int + b1 as int * 0x100 + b2 as int * 0x10000 + (b3 & 15) as int * 0x1000000 == word % 0x10000000
    ensures (b0 & 252) as int + b1 as int * 0x100 + b2 as int * 0x10000 + (b3 & 15) as int * 0x1000000
         == word % 0x10000000 / 4 * 4
  {
    MaskedByte(b0);
    MaskedByte(b3);
    ClampNumbers(b0 as int, b1 as int, b2 as int, b3 as int, word);
  }

  lemma ClampNumbers(b0: nat, b1: nat, b2: nat, b3: nat, word: int)
    requires b0 < 256 && b1 < 256 && b2 < 256 && b3 < 256
    requires word == b0 + b1 * 0x100 + b2 * 0x10000 + b3 * 0x1000000
    ensures b0 + b1 * 0x100 + b2 * 0x10000 + b3 % 16 * 0x1000000 == word % 0x10000000
    ensures b0 / 4 * 4 + b1 * 0x100 + b2 * 0x10000 + b3 % 16 * 0x1000000 == word % 0x10000000 / 4 * 4
  {
    var low := b0 + b1 * 0x100 + b2 * 0x10000 + b3 % 16 * 0x1000000;
    ModUnique(word, 0x10000000, b3 / 16, low);
    ClearTwoBits(b0, b1 * 0x40 + b2 * 0x4000 + b3 % 16 * 0x400000, low);
  }

  lemma ClearTwoBits(b0: nat, rest: nat, low: int)
    requires low == b0 + 4 * rest
    ensures low / 4 * 4 == b0 / 4 * 4 + 4 * rest
  {
  }
}
