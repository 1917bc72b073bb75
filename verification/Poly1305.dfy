/**
 The Poly1305 object: 130-bit arithmetic on 32-bit limbs held in 64-bit words, fed by a buffer.
 The limb types u32 and u64 are the machine ranges: every store below is proved not to overflow.
 */
module Poly1305Mac {
  import opened ByteStrings
  import opened Arith
  import opened Poly1305Spec
  import opened Poly1305Limbs

  /** LOAD32LE. */
  function Load32(s: seq<bv8>, i: nat): (x: u32)
    requires i + 4 <= |s|
  {
    LeNumBound(s[i..i + 4]);
    PowersOf256();
    LeNum(s[i..i + 4])
  }

  /** The macro's four shifted bytes. */
  lemma Load32IsShifts(b0: bv8, b1: bv8, b2: bv8, b3: bv8)
    ensures LeNum([b0, b1, b2, b3])
         == b0 as int + b1 as int * 0x100 + b2 as int * 0x10000 + b3 as int * 0x1000000
  {
    assert LeNum([b3]) == b3 as int;
    assert [b2, b3][1..] == [b3];
    assert LeNum([b2, b3]) == b2 as int + 0x100 * b3 as int;
    assert [b1, b2, b3][1..] == [b2, b3];
    assert [b0, b1, b2, b3][1..] == [b1, b2, b3];
  }

  /** The padded buffer holds the block's number. */
  lemma PaddedBlock(chunk: seq<bv8>)
    requires |chunk| <= 16
    ensures LeNum(chunk + [1] + Zeros(16 - |chunk|)) == BlockNum(chunk)
  {
    var z := Zeros(16 - |chunk|);
    SeqAssoc(chunk, [1], z);
    OneThenZeros(16 - |chunk|);
    LeNumConcatOne(chunk, [1] + z);
  }

  lemma OneThenZeros(n: nat)
    ensures LeNum([1] + Zeros(n)) == 1
  {
    LeNumZeros(n);
    assert ([1] + Zeros(n))[1..] == Zeros(n);
  }

  lemma {:induction false} LeNumZeros(n: nat)
    ensures LeNum(Zeros(n)) == 0
  {
    if n > 0 {
      LeNumZeros(n - 1);
      ZerosShift(n);
    }
  }

  lemma ZerosShift(n: nat)
    requires n > 0
    ensures Zeros(n)[0] == 0 && Zeros(n)[1..] == Zeros(n - 1)
  {
    ZerosAt(n, 0);
    forall i | 0 <= i < n - 1
      ensures Zeros(n)[1..][i] == Zeros(n - 1)[i]
    {
      ZerosAt(n, i + 1);
      ZerosAt(n - 1, i);
    }
  }

  lemma FourBytes(x: u32)
    ensures LeBytes(x, 4)
         == [(x % 256) as bv8, (x / 256 % 256) as bv8, (x / 256 / 256 % 256) as bv8, (x / 256 / 256 / 256 % 256) as bv8]
  {
    var z := x / 256 / 256 / 256;
    assert LeBytes(z, 1) == [(z % 256) as bv8];
    assert LeBytes(x / 256 / 256, 2) == [(x / 256 / 256 % 256) as bv8, (z % 256) as bv8];
    assert LeBytes(x / 256, 3) == [(x / 256 % 256) as bv8, (x / 256 / 256 % 256) as bv8, (z % 256) as bv8];
  }

  lemma KeySWords(k: seq<bv8>)
    requires |k| >= 32
    ensures Val4(Load32(k, 16), Load32(k, 20), Load32(k, 24), Load32(k, 28)) == KeyS(k[..32])
  {
    LeNumOf16(k[16..32]);
    assert k[..32][16..] == k[16..32];
    assert k[16..32][0..4] == k[16..20] && k[16..32][4..8] == k[20..24];
    assert k[16..32][8..12] == k[24..28] && k[16..32][12..16] == k[28..32];
  }

  /** Clamping the four words is clamping the sixteen bytes. */
  lemma KeyRWords(k: seq<bv8>)
    requires |k| >= 32
    ensures Val4(Load32(k, 0) % 0x10000000, Load32(k, 4) % 0x10000000 / 4 * 4,
                 Load32(k, 8) % 0x10000000 / 4 * 4, Load32(k, 12) % 0x10000000 / 4 * 4) == KeyR(k[..32])
  {
    var c := ClampBytes(k[..32][..16]);
    ClampedFour(k, 0);
    ClampedFour(k, 4);
    ClampedFour(k, 8);
    ClampedFour(k, 12);
    LeNumOf16(c);
  }

  lemma ClampedFour(k: seq<bv8>, i: nat)
    requires |k| >= 32 && i + 4 <= 16 && i % 4 == 0
    ensures LeNum(ClampBytes(k[..32][..16])[i..i + 4])
         == if i == 0 then Load32(k, 0) % 0x10000000 else Load32(k, i) % 0x10000000 / 4 * 4
  {
    var half := k[..32][..16];
    FourClamped(half, i);
    assert half[i] == k[i] && half[i + 1] == k[i + 1] && half[i + 2] == k[i + 2] && half[i + 3] == k[i + 3];
    if i == 0 {
      ClampedFirst(k, ClampBytes(half)[i..i + 4]);
    } else {
      ClampedWord(k, i, ClampBytes(half)[i..i + 4]);
    }
  }

  lemma FourOf(c: seq<bv8>, i: nat)
    requires i + 4 <= |c|
    ensures c[i..i + 4] == [c[i], c[i + 1], c[i + 2], c[i + 3]]
  {
  }

  lemma FourClamped(k: seq<bv8>, i: nat)
    requires i + 4 <= |k| && i % 4 == 0
    ensures ClampBytes(k)[i..i + 4] == [if i == 0 then k[0] else k[i] & 252, k[i + 1], k[i + 2], k[i + 3] & 15]
  {
    ClampByte(k, i);
    ClampByte(k, i + 1);
    ClampByte(k, i + 2);
    ClampByte(k, i + 3);
    FourOf(ClampBytes(k), i);
    FourCases(i, k[i + 1], k[i + 2], k[i + 3]);
  }

  lemma FourCases(i: nat, x: bv8, y: bv8, z: bv8)
    requires i % 4 == 0
    ensures Clamp(x, i + 1) == x && Clamp(y, i + 2) == y && Clamp(z, i + 3) == z & 15
  {
  }

  lemma ClampedFirst(k: seq<bv8>, w: seq<bv8>)
    requires |k| >= 4 && w == [k[0], k[1], k[2], k[3] & 15]
    ensures LeNum(w) == Load32(k, 0) % 0x10000000
  {
    FourOf(k, 0);
    Load32IsShifts(k[0], k[1], k[2], k[3]);
    ClampWord(k[0], k[1], k[2], k[3], Load32(k, 0));
    Load32IsShifts(k[0], k[1], k[2], k[3] & 15);
  }

  lemma ClampedWord(k: seq<bv8>, i: nat, w: seq<bv8>)
    requires i + 4 <= |k| && w == [k[i] & 252, k[i + 1], k[i + 2], k[i + 3] & 15]
    ensures LeNum(w) == Load32(k, i) % 0x10000000 / 4 * 4
  {
    FourOf(k, i);
    Load32IsShifts(k[i], k[i + 1], k[i + 2], k[i + 3]);
    ClampWord(k[i], k[i + 1], k[i + 2], k[i + 3], Load32(k, i));
    Load32IsShifts(k[i] & 252, k[i + 1], k[i + 2], k[i + 3] & 15);
  }

  class Poly1305 {
    const r: array<u32>
    const s: array<u32>
    const a: array<u64>
    const buffer: array<bv8>
    const digest: array<bv8>
    var size: nat

    ghost var k: nat          // the clamped first half of the key, as a number
    ghost var addend: nat     // the second half
    ghost var acc: nat        // the residue the limbs stand for
    ghost var fed: seq<bv8>   // the bytes given to Update since SetKey

    /** The storage of the object. */
    ghost predicate Shape() {
      && r.Length == 4 && s.Length == 4 && a.Length == 8 && buffer.Length == 17 && digest.Length == 16
      && r != s && buffer != digest
      && (r as object) != a && (s as object) != a && (buffer as object) != a && (digest as object) != a
      && (r as object) != buffer && (r as object) != digest && (s as object) != buffer && (s as object) != digest
    }

    ghost function Repr(): set<object> {
      {this, r, s, a, buffer, digest}
    }

    ghost function Acc(): nat
      reads a
      requires Shape()
    {
      Val5(a[0], a[1], a[2], a[3], a[4])
    }

    ghost function R(): nat
      reads r
      requires Shape()
    {
      Val4(r[0], r[1], r[2], r[3])
    }

    ghost predicate Reduced()
      reads a
      requires Shape()
    {
      a[0] < W && a[1] < W && a[2] < W && a[3] < W && a[4] < 4
    }

    ghost predicate Clamped()
      reads r
      requires Shape()
    {
      r[0] < 0x10000000 && r[1] < 0x10000000 && r[2] < 0x10000000 && r[3] < 0x10000000
    }

    constructor ()
      ensures Shape() && fresh(r) && fresh(s) && fresh(a) && fresh(buffer) && fresh(digest)
    {
      r, s, a := new u32[4], new u32[4], new u64[8];
      buffer, digest := new bv8[17], new bv8[16];
      size, k, addend, acc, fed := 0, 0, 0, 0, [];
    }

    // a[i + 1] += a[i] >> 32, for i = 0 to 3
    method Propagate4()
      requires Shape()
      requires a[0] < TWO62 && a[1] < TWO62 && a[2] < TWO62 && a[3] < TWO62 && a[4] < TWO62
      modifies a
      ensures a[0] == old(a[0])
      ensures a[1] == old(a[1]) + Hi(a[0]) && a[2] == old(a[2]) + Hi(a[1])
      ensures a[3] == old(a[3]) + Hi(a[2]) && a[4] == old(a[4]) + Hi(a[3])
      ensures Val5(Lo(a[0]), Lo(a[1]), Lo(a[2]), Lo(a[3]), a[4]) == old(Acc())
    {
      a[1] := a[1] + Hi(a[0]);
      a[2] := a[2] + Hi(a[1]);
      a[3] := a[3] + Hi(a[2]);
      a[4] := a[4] + Hi(a[3]);
      Carry4Value(old(a[0]), old(a[1]), old(a[2]), old(a[3]), old(a[4]), a[1], a[2], a[3], a[4]);
    }

    // a[i + 1] += a[i] >> 32, for i = 0 to 6
    method Propagate7()
      requires Shape()
      requires a[0] < TWO62 && a[1] < TWO62 && a[2] < TWO62 && a[3] < TWO62 && a[4] < TWO62
      requires a[5] < TWO62 && a[6] < TWO62 && a[7] < TWO62
      modifies a
      ensures a[0] == old(a[0])
      ensures Val8(Lo(a[0]), Lo(a[1]), Lo(a[2]), Lo(a[3]), Lo(a[4]), Lo(a[5]), Lo(a[6]), a[7])
           == old(Val8(a[0], a[1], a[2], a[3], a[4], a[5], a[6], a[7]))
    {
      a[1] := a[1] + Hi(a[0]);
      a[2] := a[2] + Hi(a[1]);
      a[3] := a[3] + Hi(a[2]);
      a[4] := a[4] + Hi(a[3]);
      a[5] := a[5] + Hi(a[4]);
      a[6] := a[6] + Hi(a[5]);
      a[7] := a[7] + Hi(a[6]);
      Carry8Value(old(a[0]), old(a[1]), old(a[2]), old(a[3]), old(a[4]), old(a[5]), old(a[6]), old(a[7]),
                  a[1], a[2], a[3], a[4], a[5], a[6], a[7]);
    }

    /** Pads the buffer to 17 bytes: a one bit after the data, then zeros. */
    method PadBuffer()
      requires Shape() && size <= 16
      modifies buffer
      ensures buffer[..] == old(buffer[..size]) + [1] + Zeros(16 - size)
    {
      var n := size;
      buffer[n] := 1;
      n := n + 1;
      while n < 17
        invariant size + 1 <= n <= 17
        invariant buffer[..n] == old(buffer[..size]) + [1] + Zeros(n - 1 - size)
      {
        buffer[n] := 0;
        n := n + 1;
      }
    }

    /** Reads the 17 bytes of the buffer as limbs. */
    method LoadBlock() returns (x0: u32, x1: u32, x2: u32, x3: u32, x4: u32)
      requires Shape() && buffer[16] <= 1
      ensures Val5(x0, x1, x2, x3, x4) == LeNum(buffer[..]) && x4 <= 1
    {
      x0, x1, x2, x3 := Load32(buffer[..], 0), Load32(buffer[..], 4), Load32(buffer[..], 8), Load32(buffer[..], 12);
      x4 := buffer[16] as int;
      LeNumOf17(buffer[..]);
    }

    /** Adds a block to the accumulator, limb by limb. */
    method AddLimbs(b0: u32, b1: u32, b2: u32, b3: u32, b4: u32)
      requires Shape() && Reduced() && b4 <= 1
      modifies a
      ensures a[0] == old(a[0]) + b0 && a[1] == old(a[1]) + b1 && a[2] == old(a[2]) + b2
      ensures a[3] == old(a[3]) + b3 && a[4] == old(a[4]) + b4
    {
      a[0] := a[0] + b0;
      a[1] := a[1] + b1;
      a[2] := a[2] + b2;
      a[3] := a[3] + b3;
      a[4] := a[4] + b4;
    }

    /** Adds a block and returns the limbs of the sum. */
    method AddBlock(b0: u32, b1: u32, b2: u32, b3: u32, b4: u32)
      returns (x0: u32, x1: u32, x2: u32, x3: u32, x4: u32)
      requires Shape() && Reduced() && b4 <= 1
      modifies a
      ensures Val5(x0, x1, x2, x3, x4) == old(Acc()) + Val5(b0, b1, b2, b3, b4)
      ensures x4 <= 5
    {
      ghost var sum := Acc() + Val5(b0, b1, b2, b3, b4);
      SumValue(a[0], a[1], a[2], a[3], a[4], b0, b1, b2, b3, b4);
      AddLimbs(b0, b1, b2, b3, b4);
      assert Acc() == sum;
      Propagate4();
      x0, x1, x2, x3 := Lo(a[0]), Lo(a[1]), Lo(a[2]), Lo(a[3]);
      SumTop(x0, x1, x2, x3, a[4]);
      x4 := Lo(a[4]);
    }

    /** Multiplies the limbs by `r` into the eight words. */
    method MultiplyByR(x0: u32, x1: u32, x2: u32, x3: u32, x4: u32)
      requires Shape() && Clamped()
      modifies a
      ensures a[0] < TWO62 && a[1] < TWO62 && a[2] < TWO62 && a[3] < TWO62 && a[4] < TWO62
      ensures a[5] < TWO62 && a[6] < TWO62 && a[7] < TWO62
      ensures Val8(a[0], a[1], a[2], a[3], a[4], a[5], a[6], a[7]) == Val5(x0, x1, x2, x3, x4) * R()
    {
      a[0], a[1], a[2], a[3], a[4], a[5], a[6], a[7] := Columns(x0, x1, x2, x3, x4, r[0], r[1], r[2], r[3]);
    }

    /** m_a[i] = (m_a[i] & mask) + h[i] + t[i] for the low limbs. */
    method AddHigh(h0: u32, h1: u32, h2: u32, h3: u32, t0: u32, t1: u32, t2: u32, t3: u32,
                   ghost x0: u32, ghost x1: u32, ghost x2: u32, ghost x3: u32, ghost x4: u32, ghost v: nat)
      requires Shape() && x0 == Lo(a[0]) && x1 == Lo(a[1]) && x2 == Lo(a[2]) && x3 == Lo(a[3]) && x4 == Lo(a[4])
      requires v == Val5(x0 + h0 + t0, x1 + h1 + t1, x2 + h2 + t2, x3 + h3 + t3, x4 % 4)
      modifies a
      ensures a[0] == old(Lo(a[0])) + h0 + t0 && a[1] == old(Lo(a[1])) + h1 + t1
      ensures a[2] == old(Lo(a[2])) + h2 + t2 && a[3] == old(Lo(a[3])) + h3 + t3
      ensures a[4] == old(Lo(a[4])) % 4
      ensures Acc() == v
      ensures a[0] < TWO62 && a[1] < TWO62 && a[2] < TWO62 && a[3] < TWO62
    {
      a[0] := Lo(a[0]);
      a[1] := Lo(a[1]);
      a[2] := Lo(a[2]);
      a[3] := Lo(a[3]);
      a[4] := Lo(a[4]) % 4;
      a[0] := a[0] + h0;
      a[0] := a[0] + t0;
      a[1] := a[1] + h1;
      a[1] := a[1] + t1;
      a[2] := a[2] + h2;
      a[2] := a[2] + t2;
      a[3] := a[3] + h3;
      a[3] := a[3] + t3;
    }

    /** First reduction pass: low + 2^130 * high becomes low + 5 * high. */
    method FoldHigh(ghost product: nat) returns (ghost low: nat, ghost high: nat)
      requires Shape() && product < TWO255
      requires product == Val8(Lo(a[0]), Lo(a[1]), Lo(a[2]), Lo(a[3]), Lo(a[4]), Lo(a[5]), Lo(a[6]), a[7])
      modifies a
      ensures product == low + 0x4_00000000_00000000_00000000_00000000 * high && Acc() == low + 5 * high < TWO130 + W128
      ensures a[0] < TWO62 && a[1] < TWO62 && a[2] < TWO62 && a[3] < TWO62 && a[4] < 4
    {
      ghost var x0, x1, x2, x3, x4 := Lo(a[0]), Lo(a[1]), Lo(a[2]), Lo(a[3]), Lo(a[4]);
      TopLimb(product, x0, x1, x2, x3, x4, Lo(a[5]), Lo(a[6]), a[7]);
      var h0, h1, h2, h3, t0, t1, t2, t3 := HighWords(Lo(a[4]), Lo(a[5]), Lo(a[6]), Lo(a[7]));
      assert h3 == a[7];
      ghost var folded;
      low, high, folded := FirstPass(product, x0, x1, x2, x3, x4, h0, h1, h2, h3, t0, t1, t2, t3);
      AddHigh(h0, h1, h2, h3, t0, t1, t2, t3, x0, x1, x2, x3, x4, folded);
    }

    /** The first pass and the carries after it: at most one bit sticks out above bit 130. */
    method FoldProduct(ghost product: nat)
      requires Shape() && product < TWO255
      requires product == Val8(Lo(a[0]), Lo(a[1]), Lo(a[2]), Lo(a[3]), Lo(a[4]), Lo(a[5]), Lo(a[6]), a[7])
      modifies a
      ensures Mod(Val5(Lo(a[0]), Lo(a[1]), Lo(a[2]), Lo(a[3]), a[4])) == Mod(product)
      ensures Val5(Lo(a[0]), Lo(a[1]), Lo(a[2]), Lo(a[3]), a[4]) < TWO130 + W128
    {
      ghost var low, high := FoldHigh(product);
      Propagate4();
      FoldResidue(product, low + 5 * high, low, high);
    }

    // m_a[0] = (m_a[0] & mask) + h + (h >> 2), the other limbs masked
    method AddCarry(h: u32)
      requires Shape()
      modifies a
      ensures a[0] == old(Lo(a[0])) + h + h / 4
      ensures a[1] == old(Lo(a[1])) && a[2] == old(Lo(a[2])) && a[3] == old(Lo(a[3]))
      ensures a[4] == old(a[4]) % 4
      ensures a[0] < TWO62
    {
      a[0] := Lo(a[0]);
      a[1] := Lo(a[1]);
      a[2] := Lo(a[2]);
      a[3] := Lo(a[3]);
      a[4] := a[4] % 4;
      a[0] := a[0] + h;
      a[0] := a[0] + h / 4;
    }

    // m_a[0..4] masked to 32, 32, 32, 32 and 2 bits
    method MaskLimbs()
      requires Shape()
      modifies a
      ensures a[0] == old(Lo(a[0])) && a[1] == old(Lo(a[1])) && a[2] == old(Lo(a[2])) && a[3] == old(Lo(a[3]))
      ensures a[4] == old(a[4]) % 4
    {
      a[0] := Lo(a[0]);
      a[1] := Lo(a[1]);
      a[2] := Lo(a[2]);
      a[3] := Lo(a[3]);
      a[4] := a[4] % 4;
    }

    /** Second reduction pass; the final mask on the top limb discards nothing. */
    method FoldCarry(ghost value: nat)
      requires Shape() && value == Val5(Lo(a[0]), Lo(a[1]), Lo(a[2]), Lo(a[3]), a[4]) < TWO130 + W128
      modifies a
      ensures Reduced() && Mod(Acc()) == Mod(value)
    {
      var h := a[4] / 4 * 4;
      ghost var low, high := SecondPass(Lo(a[0]), Lo(a[1]), Lo(a[2]), Lo(a[3]), a[4], h);
      AddCarry(h);
      Propagate4();
      ghost var folded := Val5(Lo(a[0]), Lo(a[1]), Lo(a[2]), Lo(a[3]), a[4]);
      FoldResidue(value, folded, low, high);
      TopTwoBits(Lo(a[0]), Lo(a[1]), Lo(a[2]), Lo(a[3]), a[4]);
      MaskLimbs();
      assert Acc() == folded;
    }

    /** Pads the buffered bytes and adds their number. */
    method AddBuffer() returns (x0: u32, x1: u32, x2: u32, x3: u32, x4: u32)
      requires Shape() && Reduced() && size <= 16
      modifies a, buffer
      ensures Val5(x0, x1, x2, x3, x4) == old(Acc()) + BlockNum(old(buffer[..size]))
      ensures x4 <= 5
    {
      ghost var chunk := buffer[..size];
      PadBuffer();
      assert buffer[..][16] <= 1;
      PaddedBlock(chunk);
      var b0, b1, b2, b3, b4 := LoadBlock();
      x0, x1, x2, x3, x4 := AddBlock(b0, b1, b2, b3, b4);
    }

    /** Multiplies by `r` and reduces below 2^130, keeping the residue. */
    method MultiplyAndReduce(x0: u32, x1: u32, x2: u32, x3: u32, x4: u32, ghost v: nat, ghost k: nat)
      requires Shape() && Clamped() && x4 <= 5
      requires v == Val5(x0, x1, x2, x3, x4) && k == R()
      modifies a
      ensures Reduced() && Mod(Acc()) == Mod(v * k)
    {
      assert 0 <= v * k < TWO255 by {
        RBound(r[0], r[1], r[2], r[3]);
        SumBound(x0, x1, x2, x3, x4);
        ProductBound(v, k);
      }
      MultiplyByR(x0, x1, x2, x3, x4);
      Propagate7();
      FoldProduct(v * k);
      FoldCarry(Val5(Lo(a[0]), Lo(a[1]), Lo(a[2]), Lo(a[3]), a[4]));
    }

    ghost function S(): nat
      reads s
      requires Shape()
    {
      Val4(s[0], s[1], s[2], s[3])
    }

    /** The limbs stand for the ghost numbers. */
    ghost predicate Core()
      reads this, r, s, a
    {
      && Shape() && Reduced() && Clamped()
      && LimbValue(r[..]) == k && LimbValue(s[..]) == addend && Mod(LimbValue(a[..5])) == acc
    }

    /** The same, on the limbs one by one. */
    lemma LimbNumbers()
      requires Shape()
      ensures LimbValue(r[..]) == R() && LimbValue(s[..]) == S() && LimbValue(a[..5]) == Acc()
    {
      assert r[..] == [r[0], r[1], r[2], r[3]];
      assert s[..] == [s[0], s[1], s[2], s[3]];
      assert a[..5] == [a[0], a[1], a[2], a[3], a[4]];
    }

    /** The invariant from SetKey to Complete: accumulator and buffer stand for the bytes fed. */
    ghost predicate Valid()
      reads this, r, s, a, buffer
    {
      && Core()
      && size < 16 && Buffered(k, fed, buffer[..size], acc)
    }

    /** One block, on the limbs. */
    method AbsorbBlock(ghost chunk: seq<bv8>)
      requires Shape() && Reduced() && Clamped() && size <= 16 && chunk == buffer[..size]
      modifies a, buffer
      ensures Reduced() && Mod(Acc()) == Step(Mod(old(Acc())), R(), chunk)
    {
      ghost var before, k := Acc(), R();
      var x0, x1, x2, x3, x4 := AddBuffer();
      RBound(r[0], r[1], r[2], r[3]);
      ghost var sum := before + BlockNum(chunk);
      StepResidue(before, k, chunk, sum);
      MultiplyAndReduce(x0, x1, x2, x3, x4, sum, k);
    }

    /** One block: the buffered bytes go into the accumulator, which is multiplied by `r`. */
    method Transform()
      requires Core() && size <= 16
      modifies a, buffer, `acc
      ensures Core() && acc == Step(old(acc), k, old(buffer[..size]))
    {
      LimbNumbers();
      ghost var chunk := buffer[..size];
      AbsorbBlock(chunk);
      LimbNumbers();
      acc := Step(acc, k, chunk);
    }

    /** Loads the words of the key. */
    method LoadWords(key: seq<bv8>)
      requires Shape() && |key| >= 32
      modifies r, s
      ensures r[0] == Load32(key, 0) % 0x10000000 && r[1] == Load32(key, 4) % 0x10000000 / 4 * 4
      ensures r[2] == Load32(key, 8) % 0x10000000 / 4 * 4 && r[3] == Load32(key, 12) % 0x10000000 / 4 * 4
      ensures s[0] == Load32(key, 16) && s[1] == Load32(key, 20) && s[2] == Load32(key, 24) && s[3] == Load32(key, 28)
    {
      r[0], r[1], r[2], r[3] := Load32(key, 0), Load32(key, 4), Load32(key, 8), Load32(key, 12);
      s[0], s[1], s[2], s[3] := Load32(key, 16), Load32(key, 20), Load32(key, 24), Load32(key, 28);
      r[0] := r[0] % 0x10000000;
      r[1] := r[1] % 0x10000000 / 4 * 4;
      r[2] := r[2] % 0x10000000 / 4 * 4;
      r[3] := r[3] % 0x10000000 / 4 * 4;
    }

    method LoadKey(key: seq<bv8>)
      requires Shape() && |key| >= 32
      modifies r, s
      ensures Clamped() && LimbValue(r[..]) == KeyR(key[..32]) && LimbValue(s[..]) == KeyS(key[..32])
    {
      LoadWords(key);
      KeyRWords(key);
      KeySWords(key);
      LimbNumbers();
    }

    /** Loads and clamps the key.  Reads 32 bytes, whatever length the caller states. */
    method SetKey(key: seq<bv8>)
      requires Shape() && |key| >= 32
      modifies this, r, s, a
      ensures Valid() && k == KeyR(key[..32]) && addend == KeyS(key[..32]) && fed == []
    {
      LoadKey(key);
      k, addend := LimbValue(r[..]), LimbValue(s[..]);
      Clear();
    }

    // m_a = 0, m_size = 0
    method Clear()
      requires Shape() && Clamped() && LimbValue(r[..]) == k && LimbValue(s[..]) == addend
      modifies a, `size, `acc, `fed
      ensures Valid() && fed == []
    {
      ZeroAccumulator();
      size, acc, fed := 0, 0, [];
      BufferedStart(k);
      assert buffer[..size] == [];
    }

    method ZeroAccumulator()
      requires Shape()
      modifies a
      ensures Reduced() && LimbValue(a[..5]) == 0
    {
      a[0], a[1], a[2], a[3], a[4], a[5], a[6], a[7] := 0, 0, 0, 0, 0, 0, 0, 0;
      assert a[..5] == [0, 0, 0, 0, 0];
      Sum5(0, 0, 0, 0, 0);
    }

    method ZeroKey()
      requires Shape()
      modifies r, s
      ensures r[0] == 0 && r[1] == 0 && r[2] == 0 && r[3] == 0
      ensures s[0] == 0 && s[1] == 0 && s[2] == 0 && s[3] == 0
    {
      r[0], r[1], r[2], r[3] := 0, 0, 0, 0;
      s[0], s[1], s[2], s[3] := 0, 0, 0, 0;
    }

    // memcpy(m_buffer + m_size, piece)
    method CopyIn(piece: seq<bv8>)
      requires Shape() && size + |piece| <= 16
      modifies buffer
      ensures buffer[..size + |piece|] == old(buffer[..size]) + piece
    {
      forall i | 0 <= i < |piece| { buffer[size + i] := piece[i]; }
      assert buffer[..size] == old(buffer[..size]);
      assert buffer[size..size + |piece|] == piece;
    }

    /** Copies bytes that fit into the buffer and absorbs it once it holds 16. */
    method Append(piece: seq<bv8>)
      requires Valid() && |piece| <= 16 - size
      modifies this, a, buffer
      ensures Valid() && k == old(k) && addend == old(addend) && fed == old(fed) + piece
    {
      BufferedMore(k, fed, buffer[..size], acc, piece);
      CopyIn(piece);
      size := size + |piece|;
      fed := fed + piece;
      if size == 16 {
        BufferedBlock(k, fed, buffer[..size], acc);
        Transform();
        size := 0;
        assert buffer[..size] == [];
      }
    }

    /** Feeds bytes; every time 16 have gathered they are absorbed. */
    method Update(data: seq<bv8>)
      requires Valid()
      modifies this, a, buffer
      ensures Valid() && k == old(k) && addend == old(addend) && fed == old(fed) + data
    {
      var done := 0;
      while done < |data|
        invariant 0 <= done <= |data|
        invariant Valid() && k == old(k) && addend == old(addend) && fed == old(fed) + data[..done]
      {
        var n := if |data| - done <= 16 - size then |data| - done else 16 - size;
        Append(data[done..done + n]);
        SeqExtend(old(fed), data, done, n);
        done := done + n;
      }
      assert data[..done] == data;
    }

    /** Reduces the accumulator below 2^130 - 5; its low four limbs are the low 128 bits of the residue. */
    method SubtractModulus() returns (ghost high: nat)
      requires Shape() && Reduced()
      modifies a
      ensures a[0] < 0x1_00000000 && a[1] < 0x1_00000000 && a[2] < 0x1_00000000 && a[3] < 0x1_00000000 && a[4] <= 4
      ensures Mod(old(Acc())) == Val4(a[0], a[1], a[2], a[3]) + 0x1_00000000_00000000_00000000_00000000 * high
    {
      ghost var v := Acc();
      var b0, b1, b2, b3 := a[0], a[1], a[2], a[3];
      high := a[4];
      a[0] := a[0] + 5;
      PlusFive(b0, b1, b2, b3, high);
      Propagate4();
      var y0, y1, y2, y3, bit := Lo(a[0]), Lo(a[1]), Lo(a[2]), Lo(a[3]), a[4] / 4 % 2;
      high := Selected(v, b0, b1, b2, b3, high, y0, y1, y2, y3, a[4], bit);
      // the mask is all zeros when bit 130 is set and all ones otherwise
      a[0] := if bit == 1 then y0 else b0;
      a[1] := if bit == 1 then y1 else b1;
      a[2] := if bit == 1 then y2 else b2;
      a[3] := if bit == 1 then y3 else b3;
    }

    /** Adds the second half of the key modulo 2^128. */
    method AddS() returns (b0: u32, b1: u32, b2: u32, b3: u32, ghost carry: nat)
      requires Shape()
      requires a[0] < 0x1_00000000 && a[1] < 0x1_00000000 && a[2] < 0x1_00000000 && a[3] < 0x1_00000000 && a[4] <= 4
      modifies a
      ensures old(Val4(a[0], a[1], a[2], a[3])) + S() == Val4(b0, b1, b2, b3) + 0x1_00000000_00000000_00000000_00000000 * carry
      ensures Val4(b0, b1, b2, b3) < W128
    {
      a[0] := a[0] + s[0];
      a[1] := a[1] + s[1];
      a[2] := a[2] + s[2];
      a[3] := a[3] + s[3];
      ghost var top := a[4];
      Propagate4();
      b0, b1, b2, b3 := Lo(a[0]), Lo(a[1]), Lo(a[2]), Lo(a[3]);
      carry := a[4] - top;
      SumModulo128(old(a[0]), old(a[1]), old(a[2]), old(a[3]), top, s[0], s[1], s[2], s[3], b0, b1, b2, b3, a[4]);
    }

    /** STORE32LE(x, m_digest + i) */
    method Store(i: nat, x: u32)
      requires Shape() && i < 4
      modifies digest
      ensures digest[4 * i..4 * i + 4] == LeBytes(x, 4)
      ensures forall j :: 0 <= j < 16 && !(4 * i <= j < 4 * i + 4) ==> digest[j] == old(digest[j])
    {
      digest[4 * i] := (x % 256) as bv8;
      digest[4 * i + 1] := (x / 256 % 256) as bv8;
      digest[4 * i + 2] := (x / 256 / 256 % 256) as bv8;
      digest[4 * i + 3] := (x / 256 / 256 / 256 % 256) as bv8;
      FourBytes(x);
    }

    /** Writes the four words of the tag. */
    method StoreTag(b0: u32, b1: u32, b2: u32, b3: u32)
      requires Shape()
      modifies digest
      ensures digest[..] == LeBytes(Val4(b0, b1, b2, b3), 16)
    {
      Store(0, b0);
      Store(1, b1);
      Store(2, b2);
      Store(3, b3);
      assert digest[..] == digest[0..4] + digest[4..8] + digest[8..12] + digest[12..16];
      LimbBytes(b0, b1, b2, b3);
    }

    /** The residue plus the second key half, modulo 2^128, and what is above that. */
    method SumWords(ghost total: nat) returns (b0: u32, b1: u32, b2: u32, b3: u32, ghost above: nat)
      requires Core() && total == acc + addend
      modifies a
      ensures total == Val4(b0, b1, b2, b3) + 0x1_00000000_00000000_00000000_00000000 * above
      ensures Val4(b0, b1, b2, b3) < W128
    {
      LimbNumbers();
      ghost var high := SubtractModulus();
      ghost var carry;
      b0, b1, b2, b3, carry := AddS();
      above := carry + high;
    }

    /** The four words of the tag. */
    method TagWords(ghost total: nat) returns (b0: u32, b1: u32, b2: u32, b3: u32)
      requires Core() && total == acc + addend
      modifies a
      ensures LeBytes(Val4(b0, b1, b2, b3), 16) == LeBytes(total, 16)
    {
      ghost var above;
      b0, b1, b2, b3, above := SumWords(total);
      LeBytesLow(total, Val4(b0, b1, b2, b3), above);
    }

    /** From the accumulator to the tag. */
    method Finish()
      requires Core()
      modifies a, digest
      ensures digest[..] == LeBytes(acc + addend, 16)
    {
      var b0, b1, b2, b3 := TagWords(acc + addend);
      StoreTag(b0, b1, b2, b3);
    }

    /** Absorbs the last, short block. */
    method Flush()
      requires Valid()
      modifies a, buffer, `acc
      ensures Core() && acc == Accumulate(k, fed)
    {
      BufferedEnd(k, fed, buffer[..size], acc);
      if size != 0 {
        Transform();
      }
    }

    method FlushAndFinish()
      requires Valid()
      modifies a, buffer, digest, `acc
      ensures digest[..] == TagOf(k, addend, fed)
    {
      Flush();
      Finish();
    }

    /** Absorbs what is left in the buffer and writes the tag of everything fed since SetKey. */
    method Complete()
      requires Valid()
      modifies r, s, a, buffer, digest, `acc
      ensures Shape() && digest[..] == TagOf(k, addend, fed)
      ensures LeNum(digest[..]) == TagNumber(k, addend, fed)
      ensures r[0] == 0 && r[1] == 0 && r[2] == 0 && r[3] == 0
      ensures s[0] == 0 && s[1] == 0 && s[2] == 0 && s[3] == 0
    {
      TagValue(k, addend, fed, TagOf(k, addend, fed));
      FlushAndFinish();
      ZeroAccumulator();
      ZeroKey();
    }
  }
}
