/** 32-bit words: the macros of common.hpp, and words seen as four bytes of a little-endian host. */
module Words {

  /** SWAPINT32 */
  function Swap(x: bv32): bv32 {
    ((x & 0x000000FF) << 24) | ((x & 0x0000FF00) << 8) | ((x & 0x00FF0000) >> 8) | ((x & 0xFF000000) >> 24)
  }

  /** Byte `k` of a word in memory. */
  function GetByte(w: bv32, k: nat): bv8
    requires k < 4
  {
    if k == 0 then (w & 0xFF) as bv8
    else if k == 1 then ((w >> 8) & 0xFF) as bv8
    else if k == 2 then ((w >> 16) & 0xFF) as bv8
    else ((w >> 24) & 0xFF) as bv8
  }

  /** LOAD32LE, on four bytes. */
  function LittleEndian(b0: bv8, b1: bv8, b2: bv8, b3: bv8): bv32 {
    (b0 as bv32) | ((b1 as bv32) << 8) | ((b2 as bv32) << 16) | ((b3 as bv32) << 24)
  }

  function BigEndian(b0: bv8, b1: bv8, b2: bv8, b3: bv8): bv32 {
    LittleEndian(b3, b2, b1, b0)
  }

  /** Writing byte `k` of a word in memory: the other three stay. */
  function SetByte(w: bv32, k: nat, b: bv8): bv32
    requires k < 4
  {
    LittleEndian(if k == 0 then b else GetByte(w, 0), if k == 1 then b else GetByte(w, 1),
                 if k == 2 then b else GetByte(w, 2), if k == 3 then b else GetByte(w, 3))
  }

  lemma GetSetByte(w: bv32, k: nat, b: bv8, j: nat)
    requires k < 4 && j < 4
    ensures GetByte(SetByte(w, k, b), j) == if j == k then b else GetByte(w, j)
  {
    BytesOfWord(if k == 0 then b else GetByte(w, 0), if k == 1 then b else GetByte(w, 1),
                if k == 2 then b else GetByte(w, 2), if k == 3 then b else GetByte(w, 3));
  }

  lemma BytesOfWord(b0: bv8, b1: bv8, b2: bv8, b3: bv8)
    ensures var w := LittleEndian(b0, b1, b2, b3);
            GetByte(w, 0) == b0 && GetByte(w, 1) == b1 && GetByte(w, 2) == b2 && GetByte(w, 3) == b3
  {
  }

  /** Swapping a word of memory reads its bytes in the other order. */
  lemma SwapIsBigEndian(w: bv32)
    ensures Swap(w) == BigEndian(GetByte(w, 0), GetByte(w, 1), GetByte(w, 2), GetByte(w, 3))
  {
  }

  lemma HalfIsLess(w: bv32)
    requires w != 0
    ensures w / 2 < w
  {
  }

  /** The number a word stands for. */
  function Value(w: bv32): nat
    decreases w
  {
    if w == 0 then 0 else
      HalfIsLess(w);
      2 * Value(w / 2) + (if w % 2 == 1 then 1 else 0)
  }

  /** Adding one to a word adds one to its number, unless the word is all ones and turns to zero. */
  lemma {:induction false} ValueIncrement(w: bv32, v: bv32, n: nat)
    requires w != 0xFFFFFFFF && v == w + 1 && n == Value(w)
    ensures Value(v) == n + 1
    decreases n
  {
    if w % 2 == 1 {
      OddIncrement(w, v);
      ValueOdd(w);
      ValueIncrement(w / 2, v / 2, Value(w / 2));
      OddThenEven(w, v);
    } else {
      EvenThenOdd(w, v);
    }
  }

  lemma OddThenEven(w: bv32, v: bv32)
    requires w % 2 == 1 && v % 2 != 1 && Value(v / 2) == Value(w / 2) + 1
    ensures Value(v) == Value(w) + 1
  {
    ValueOdd(w);
    ValueEven(v);
  }

  lemma EvenThenOdd(w: bv32, v: bv32)
    requires w % 2 != 1 && v == w + 1
    ensures Value(v) == Value(w) + 1
  {
    EvenIncrement(w, v);
    ValueEven(w);
    ValueOdd(v);
  }

  lemma ValueOdd(w: bv32)
    requires w % 2 == 1
    ensures Value(w) == 2 * Value(w / 2) + 1
  {
    assert w != 0;
  }

  lemma ValueEven(w: bv32)
    requires w % 2 != 1
    ensures Value(w) == 2 * Value(w / 2)
  {
    if w == 0 { assert w / 2 == 0; }
  }

  lemma OddIncrement(w: bv32, v: bv32)
    requires w % 2 == 1 && w != 0xFFFFFFFF && v == w + 1
    ensures v / 2 == (w / 2) + 1 && v % 2 != 1 && w / 2 != 0xFFFFFFFF && w / 2 < w
  {
  }

  lemma EvenIncrement(w: bv32, v: bv32)
    requires w % 2 != 1 && v == w + 1
    ensures v / 2 == w / 2 && v % 2 == 1
  {
  }

  /** A word of 32 bits stands for a number below 2^32. */
  lemma ValueBound(w: bv32)
    ensures Value(w) < 0x1_0000_0000 && Value(0xFFFFFFFF) == 0xFFFF_FFFF
  {
    BelowOnes(w, 0xFFFFFFFF);
    assert Value(0x3) == 3 by { assert Value(0x1) == 1; }
    FourOnes(0xF);
    FourOnes(0xFF);
    FourOnes(0xFFF);
    FourOnes(0xFFFF);
    FourOnes(0xFFFFF);
    FourOnes(0xFFFFFF);
    FourOnes(0xFFFFFFF);
    FourOnes(0xFFFFFFFF);
    assert Value(0) == 0;
  }

  lemma {:induction false} BelowOnes(w: bv32, ones: bv32)
    requires w <= ones && ones & (ones + 1) == 0
    ensures Value(w) <= Value(ones)
    decreases ones
  {
    if w != 0 {
      HalfOnes(w, ones);
      BelowOnes(w / 2, ones / 2);
    }
  }

  lemma HalfOnes(w: bv32, ones: bv32)
    requires 0 < w <= ones && ones & (ones + 1) == 0
    ensures w / 2 <= ones / 2 && (ones / 2) & ((ones / 2) + 1) == 0 && ones % 2 == 1 && ones / 2 < ones
  {
  }

  /** Four ones at the end make 15. */
  lemma FourOnes(m: bv32)
    requires m & 0xF == 0xF
    ensures Value(m) == 16 * Value(m / 16) + 15
  {
    Quarters(m);
    TwoOnes(m);
    TwoOnes(m / 4);
  }

  lemma TwoOnes(m: bv32)
    requires m & 3 == 3
    ensures Value(m) == 4 * Value(m / 4) + 3
  {
    Halves(m);
    OneOne(m);
    OneOne(m / 2);
  }

  lemma OneOne(m: bv32)
    requires m & 1 == 1
    ensures Value(m) == 2 * Value(m / 2) + 1
  {
    OddBit(m);
    ValueOdd(m);
  }

  lemma OddBit(m: bv32)
    requires m & 1 == 1
    ensures m % 2 == 1
  {
  }

  lemma Halves(m: bv32)
    ensures (m / 2) / 2 == m / 4
    ensures m & 3 == 3 ==> m & 1 == 1 && (m / 2) & 1 == 1
  {
  }

  lemma Quarters(m: bv32)
    ensures (m / 4) / 4 == m / 16
    ensures m & 0xF == 0xF ==> m & 3 == 3 && (m / 4) & 3 == 3
  {
  }

  /** Incrementing a word counts modulo 2^32, and only all ones wraps. */
  lemma ValueNext(w: bv32, v: bv32)
    requires v == w + 1
    ensures Value(v) == if v == 0 then 0 else Value(w) + 1
    ensures Value(w) < 0x1_0000_0000 && (v == 0 <==> Value(w) == 0xFFFF_FFFF)
  {
    ValueBound(w);
    ValueBound(v);
    if v == 0 {
      assert w == 0xFFFFFFFF;
    } else {
      ValueIncrement(w, v, Value(w));
    }
  }

  /** The little-endian words of a byte string. */
  function Load(s: seq<bv8>): (ws: seq<bv32>)
    requires |s| % 4 == 0
    ensures |ws| == |s| / 4
    ensures forall i :: 0 <= i < |ws| ==> ws[i] == LittleEndian(s[4 * i], s[4 * i + 1], s[4 * i + 2], s[4 * i + 3])
  {
    seq(|s| / 4, i requires 0 <= i < |s| / 4 => LittleEndian(s[4 * i], s[4 * i + 1], s[4 * i + 2], s[4 * i + 3]))
  }
}
