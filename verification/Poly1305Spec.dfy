/**
 The one-time authenticator of section 2.5 of RFC 8439, as arithmetic on natural numbers:
 the reference that the limb code in Poly1305.dfy is proved against.
 */
module Poly1305Spec {
  import opened Arith
  import opened ByteNumbers

  const P: nat := 0x3_FFFFFFFF_FFFFFFFF_FFFFFFFF_FFFFFFFB  // 2^130 - 5

  /** The residue modulo P, by repeated subtraction. */
  function Mod(x: nat): (r: nat)
    ensures r < P
  {
    if x < P then x else Mod(x - P)
  }

  lemma {:induction false} ModIsRemainder(x: nat)
    ensures Mod(x) == x % P
  {
    if x >= P {
      ModIsRemainder(x - P);
      ModShift(x, x - P, P, 1);
    } else {
      ModUnique(x, P, 0, x);
    }
  }

  /** The number a byte string stands for, least significant byte first. */
  function LeNum(s: seq<bv8>): nat {
    if s == [] then 0 else s[0] as nat + 256 * LeNum(s[1..])
  }

  /** The `n` low bytes of a number, least significant byte first. */
  function LeBytes(x: nat, n: nat): (r: seq<bv8>)
    ensures |r| == n
  {
    if n == 0 then [] else [(x % 256) as bv8] + LeBytes(x / 256, n - 1)
  }

  lemma {:induction false} LeNumConcat(s: seq<bv8>, t: seq<bv8>)
    ensures LeNum(s + t) == LeNum(s) + Pow256(|s|) * LeNum(t)
  {
    if s == [] {
      assert s + t == t;
    } else {
      assert (s + t)[1..] == s[1..] + t;
      LeNumConcat(s[1..], t);
      MulAssoc(256, Pow256(|s| - 1), LeNum(t));
      assert Pow256(|s|) == 256 * Pow256(|s| - 1);
    }
  }

  lemma LeNumConcatOne(s: seq<bv8>, t: seq<bv8>)
    requires LeNum(t) == 1
    ensures LeNum(s + t) == LeNum(s) + Pow256(|s|)
  {
    LeNumConcat(s, t);
  }

  lemma {:induction false} LeNumBound(s: seq<bv8>)
    ensures LeNum(s) < Pow256(|s|)
  {
    if s != [] {
      LeNumBound(s[1..]);
    }
  }

  /** Strings of the same size that stand for the same number are the same. */
  lemma {:induction false} LeNumUnique(s: seq<bv8>, t: seq<bv8>)
    requires |s| == |t| && LeNum(s) == LeNum(t)
    ensures s == t
  {
    if s != [] {
      LowestByte(s[0], t[0], LeNum(s[1..]), LeNum(t[1..]));
      LeNumUnique(s[1..], t[1..]);
      assert s == [s[0]] + s[1..] && t == [t[0]] + t[1..];
    }
  }

  lemma LowestByte(a: bv8, b: bv8, x: nat, y: nat)
    requires a as nat + 256 * x == b as nat + 256 * y
    ensures a == b && x == y
  {
    var i, j := a as nat, b as nat;
    assert i < 256 && j < 256;
    assert i == j;
    assert a == i as bv8 && b == j as bv8;
  }

  /** Reading back the low bytes of `x` gives `x` modulo the range they can hold. */
  lemma {:induction false} LeNumOfLeBytes(x: nat, n: nat)
    ensures LeNum(LeBytes(x, n)) == x % Pow256(n)
  {
    if n > 0 {
      var q := Pow256(n - 1);
      LeNumOfLeBytes(x / 256, n - 1);
      ByteOfRemainder(x % 256);
      assert LeBytes(x, n)[1..] == LeBytes(x / 256, n - 1);
      RemainderStep(x, q);
    }
  }

  /** Multiplying a sum depends on the first addend only up to its residue. */
  lemma ModStep(x: nat, b: nat, r: nat)
    ensures Mod((x + b) * r) == Mod((Mod(x) + b) * r)
  {
    var q, m := x / P, x % P;
    ModIsRemainder(x);
    assert x == q * P + m;
    ModShift(x + b, m + b, P, q);
    ModMul(x + b, m + b, P, r);
    ModIsRemainder((x + b) * r);
    ModIsRemainder((m + b) * r);
  }

  /** The number of a block: its bytes with a one bit appended. */
  function BlockNum(chunk: seq<bv8>): nat {
    LeNum(chunk) + Pow256(|chunk|)
  }

  /** One block: add its number, multiply by `r`. */
  function Step(acc: nat, r: nat, chunk: seq<bv8>): nat {
    Mod((acc + BlockNum(chunk)) * r)
  }

  lemma StepResidue(acc: nat, r: nat, chunk: seq<bv8>, sum: nat)
    requires sum == acc + BlockNum(chunk)
    ensures Mod(sum * r) == Step(Mod(acc), r, chunk)
  {
    ModStep(acc, BlockNum(chunk), r);
  }

  /** The number of bytes of `m` that precede its last, possibly short, block. */
  function LastStart(m: seq<bv8>): (k: nat)
    requires m != []
    ensures k < |m| <= k + 16 && k % 16 == 0
  {
    (|m| - 1) / 16 * 16
  }

  /** The accumulator after all blocks of `m`. */
  function Accumulate(r: nat, m: seq<bv8>): (acc: nat)
    ensures acc < P
    decreases |m|
  {
    if m == [] then 0
    else
      var k := LastStart(m);
      Step(Accumulate(r, m[..k]), r, m[k..])
  }

  /** Appending one block, full or short, to whole blocks is one step. */
  lemma AccumulateBlock(r: nat, full: seq<bv8>, chunk: seq<bv8>)
    requires |full| % 16 == 0 && 0 < |chunk| <= 16
    ensures Accumulate(r, full + chunk) == Step(Accumulate(r, full), r, chunk)
  {
    var m := full + chunk;
    assert LastStart(m) == |full|;
    assert m[..|full|] == full && m[|full|..] == chunk;
  }

  // ---------- feeding through a 16-byte buffer ----------

  /** `part` is what is buffered of the bytes `fed`; `acc` accounts for the rest. */
  ghost predicate Buffered(k: nat, fed: seq<bv8>, part: seq<bv8>, acc: nat) {
    exists full :: |full| % 16 == 0 && fed == full + part && acc == Accumulate(k, full)
  }

  lemma NextBlock(n: nat)
    requires n % 16 == 0
    ensures (n + 16) % 16 == 0
  {
  }

  lemma BufferedIntro(k: nat, full: seq<bv8>, part: seq<bv8>)
    requires |full| % 16 == 0
    ensures Buffered(k, full + part, part, Accumulate(k, full))
  {
  }

  lemma BufferedStart(k: nat)
    ensures Buffered(k, [], [], 0)
  {
    BufferedIntro(k, [], []);
  }

  lemma BufferedMore(k: nat, fed: seq<bv8>, part: seq<bv8>, acc: nat, piece: seq<bv8>)
    requires Buffered(k, fed, part, acc)
    ensures Buffered(k, fed + piece, part + piece, acc)
  {
    var full :| |full| % 16 == 0 && fed == full + part && acc == Accumulate(k, full);
    BufferedIntro(k, full, part + piece);
    SeqAssoc(full, part, piece);
  }

  lemma BufferedBlock(k: nat, fed: seq<bv8>, part: seq<bv8>, acc: nat)
    requires Buffered(k, fed, part, acc) && |part| == 16
    ensures Buffered(k, fed, [], Step(acc, k, part))
  {
    var full :| |full| % 16 == 0 && fed == full + part && acc == Accumulate(k, full);
    AccumulateBlock(k, full, part);
    NextBlock(|full|);
    assert fed + [] == fed;
    BufferedIntro(k, fed, []);
  }

  lemma BufferedEnd(k: nat, fed: seq<bv8>, part: seq<bv8>, acc: nat)
    requires Buffered(k, fed, part, acc) && |part| <= 16
    ensures Accumulate(k, fed) == if part == [] then acc else Step(acc, k, part)
  {
    var full :| |full| % 16 == 0 && fed == full + part && acc == Accumulate(k, full);
    if part == [] {
      assert fed == full;
    } else {
      AccumulateBlock(k, full, part);
    }
  }

  /** The bytes of a number in two parts. */
  lemma {:induction false} LeBytesSplit(x: nat, y: nat, k: nat, n: nat)
    requires x < Pow256(k)
    ensures LeBytes(x + Pow256(k) * y, k + n) == LeBytes(x, k) + LeBytes(y, n)
  {
    if k > 0 {
      MulAssoc(256, Pow256(k - 1), y);
      var rest := Pow256(k - 1) * y;
      assert Pow256(k) * y == 256 * rest;
      assert (x + 256 * rest) / 256 == x / 256 + rest && (x + 256 * rest) % 256 == x % 256;
      LeBytesSplit(x / 256, y, k - 1, n);
    }
  }

  /** Byte `i` of the first half of the key, with the bits of section 2.5.1 of RFC 8439 cleared. */
  function Clamp(b: bv8, i: nat): bv8 {
    if i % 4 == 3 then b & 15 else if i % 4 == 0 && i != 0 then b & 252 else b
  }

  function ClampBytes(k: seq<bv8>): (c: seq<bv8>)
    ensures |c| == |k|
  {
    if k == [] then [] else ClampBytes(k[..|k| - 1]) + [Clamp(k[|k| - 1], |k| - 1)]
  }

  lemma {:induction false} ClampByte(k: seq<bv8>, i: nat)
    requires i < |k|
    ensures ClampBytes(k)[i] == Clamp(k[i], i)
  {
    if i < |k| - 1 {
      ClampByte(k[..|k| - 1], i);
    }
  }

  function KeyR(key: seq<bv8>): nat
    requires |key| == 32
  {
    LeNum(ClampBytes(key[..16]))
  }

  function KeyS(key: seq<bv8>): nat
    requires |key| == 32
  {
    LeNum(key[16..])
  }

  /** The tag of `m` under the two numbers of a key. */
  function TagOf(k: nat, addend: nat, m: seq<bv8>): (tag: seq<bv8>)
    ensures |tag| == 16
  {
    LeBytes(Accumulate(k, m) + addend, 16)
  }

  /** The tag of `m` under a 32-byte one-time key. */
  function Tag(key: seq<bv8>, m: seq<bv8>): (tag: seq<bv8>)
    requires |key| == 32
    ensures |tag| == 16
  {
    TagOf(KeyR(key), KeyS(key), m)
  }

  // ---------- the accumulator is a polynomial in r ----------

  function Pow(r: nat, e: nat): nat {
    if e == 0 then 1 else r * Pow(r, e - 1)
  }

  function Blocks(m: seq<bv8>): nat {
    (|m| + 15) / 16
  }

  /** Coefficient `i` of the message is the number of its block `i`. */
  function Coefficient(m: seq<bv8>, i: nat): nat
    requires i < Blocks(m)
  {
    BlockNum(m[16 * i..if 16 * i + 16 <= |m| then 16 * i + 16 else |m|])
  }

  /** The first `n` terms of  c_0 r^q + c_1 r^(q-1) + ... + c_(q-1) r,  with q = top. */
  function Terms(r: nat, m: seq<bv8>, top: nat, n: nat): nat
    requires n <= Blocks(m) && n <= top
  {
    if n == 0 then 0
    else
      MulMono(0, 0, Coefficient(m, n - 1), Pow(r, top - (n - 1)));
      Terms(r, m, top, n - 1) + Coefficient(m, n - 1) * Pow(r, top - (n - 1))
  }

  /** Raising the degree by one multiplies the partial sum by `r`. */
  lemma {:induction false} TermsShift(r: nat, m: seq<bv8>, top: nat, n: nat)
    requires n <= Blocks(m) && n <= top
    ensures Terms(r, m, top + 1, n) == r * Terms(r, m, top, n)
  {
    if n > 0 {
      TermsShift(r, m, top, n - 1);
      var c, t, e := Coefficient(m, n - 1), Terms(r, m, top, n - 1), Pow(r, top - (n - 1));
      assert Pow(r, top + 1 - (n - 1)) == r * e;
      MulTerm(r, t, c, e);
    }
  }

  /** Coefficients of a prefix made of whole blocks are those of the message. */
  lemma {:induction false} TermsPrefix(r: nat, m: seq<bv8>, k: nat, top: nat, n: nat)
    requires k <= |m| && k % 16 == 0
    requires n <= k / 16 && n <= top
    ensures Terms(r, m[..k], top, n) == Terms(r, m, top, n)
  {
    if n > 0 {
      TermsPrefix(r, m, k, top, n - 1);
      var i := n - 1;
      assert 16 * i + 16 <= k;
      assert m[..k][16 * i..16 * i + 16] == m[16 * i..16 * i + 16];
    }
  }

  lemma PowOne(r: nat)
    ensures Pow(r, 1) == r
  {
    assert Pow(r, 0) == 1;
  }

  /** The last block's term, with everything before it multiplied by `r` once more. */
  lemma TermsLast(r: nat, m: seq<bv8>, q: nat)
    requires m != [] && q == Blocks(m)
    ensures Terms(r, m, q, q) == (Terms(r, m, q - 1, q - 1) + Coefficient(m, q - 1)) * r
  {
    var t, c := Terms(r, m, q - 1, q - 1), Coefficient(m, q - 1);
    TermsShift(r, m, q - 1, q - 1);
    PowOne(r);
    MulFactor(r, t, c, Terms(r, m, q, q - 1), Pow(r, q - (q - 1)));
  }

  /** The last block is coefficient number `Blocks(m) - 1`. */
  lemma LastCoefficient(m: seq<bv8>)
    requires m != []
    ensures Blocks(m) == LastStart(m) / 16 + 1 && Blocks(m[..LastStart(m)]) == LastStart(m) / 16
    ensures Coefficient(m, Blocks(m) - 1) == BlockNum(m[LastStart(m)..])
  {
    var k := LastStart(m);
    assert 16 * (k / 16) == k;
    assert m[k..if k + 16 <= |m| then k + 16 else |m|] == m[k..];
  }

  lemma LastStep(r: nat, m: seq<bv8>)
    requires m != []
    ensures LastStart(m) / 16 + 1 == Blocks(m)
    ensures Mod(Terms(r, m, Blocks(m), Blocks(m)))
         == Step(Mod(Terms(r, m, Blocks(m) - 1, Blocks(m) - 1)), r, m[LastStart(m)..])
  {
    var k, q := LastStart(m), Blocks(m) - 1;
    LastCoefficient(m);
    TermsLast(r, m, q + 1);
    ModStep(Terms(r, m, q, q), Coefficient(m, q), r);
  }

  /** The block-by-block accumulator is the message polynomial evaluated at `r`, modulo 2^130 - 5. */
  lemma {:induction false} AccumulateIsPolynomial(r: nat, m: seq<bv8>)
    ensures Accumulate(r, m) == Mod(Terms(r, m, Blocks(m), Blocks(m)))
    decreases |m|
  {
    if m != [] {
      var k := LastStart(m);
      LastCoefficient(m);
      LastStep(r, m);
      AccumulateIsPolynomial(r, m[..k]);
      TermsPrefix(r, m, k, k / 16, k / 16);
    }
  }

  /** The message polynomial at `k` modulo 2^130 - 5, plus the second key half, modulo 2^128. */
  function TagNumber(k: nat, addend: nat, m: seq<bv8>): nat {
    (Mod(Terms(k, m, Blocks(m), Blocks(m))) + addend) % 0x1_00000000_00000000_00000000_00000000
  }

  lemma Low64(x: nat, s: seq<bv8>, n: nat)
    requires n == 8 && s == LeBytes(x, n)
    ensures LeNum(s) == x % 0x1_00000000_00000000
  {
    EightBytes(n);
    LeNumOfLeBytes(x, n);
  }

  lemma Low128(x: nat, tag: seq<bv8>, n: nat)
    requires n == 16 && tag == LeBytes(x, n)
    ensures LeNum(tag) == x % 0x1_00000000_00000000_00000000_00000000
  {
    SixteenBytes(n);
    LeNumOfLeBytes(x, n);
  }

  lemma TagNumberIs(k: nat, addend: nat, m: seq<bv8>, x: nat)
    requires x == Accumulate(k, m) + addend
    ensures TagNumber(k, addend, m) == x % 0x1_00000000_00000000_00000000_00000000
  {
    AccumulateIsPolynomial(k, m);
  }

  lemma StoredTag(k: nat, addend: nat, m: seq<bv8>, tag: seq<bv8>, n: nat, x: nat)
    requires n == 16 && x == Accumulate(k, m) + addend && tag == LeBytes(x, n)
    ensures LeNum(tag) == TagNumber(k, addend, m)
  {
    TagNumberIs(k, addend, m, x);
    Low128(x, tag, n);
  }

  lemma TagBytes(k: nat, addend: nat, m: seq<bv8>, n: nat)
    requires n == 16
    ensures TagOf(k, addend, m) == LeBytes(Accumulate(k, m) + addend, n)
  {
  }

  /** The tag, read as a little-endian number. */
  lemma TagValue(k: nat, addend: nat, m: seq<bv8>, tag: seq<bv8>)
    requires tag == TagOf(k, addend, m)
    ensures LeNum(tag) == TagNumber(k, addend, m)
  {
    var n := 16;
    TagBytes(k, addend, m, n);
    StoredTag(k, addend, m, tag, n, Accumulate(k, m) + addend);
  }
}
