/** Hashing in blocks of 64 bytes with the padding of section 5.1.1 of FIPS 180-4; the compression function is a parameter. */
module BlockHash {
  import opened ByteNumbers
  import opened ByteStrings

  type Compressor<!D> = (D, seq<bv8>) -> D

  /** The whole blocks of a message, compressed one after the other; an incomplete last one is left out. */
  function Blocks<D>(f: Compressor<D>, d: D, m: seq<bv8>): D {
    if |m| < 64 then d else Blocks(f, f(d, m[..64]), m[64..])
  }

  /** The `n` low bytes of a number, highest first. */
  function BigBytes(x: nat, n: nat): (s: seq<bv8>)
    ensures |s| == n
  {
    if n == 0 then [] else BigBytes(x / 256, n - 1) + [(x % 256) as bv8]
  }

  /** How many zeros make a message of `n` bytes, a one bit and the length fill whole blocks. */
  function ZeroCount(n: nat): (k: nat)
    ensures (n + 1 + k + 8) % 64 == 0 && k < 64
  {
    if n % 64 < 56 then 55 - n % 64 else 119 - n % 64
  }

  /** The message, a one bit, zeros, and the length in bits as 64 bits. */
  function Pad(m: seq<bv8>): (p: seq<bv8>)
    ensures |p| % 64 == 0
  {
    PadFor(m, |m|)
  }

  /** The same with the length of something else. */
  function PadFor(m: seq<bv8>, length: nat): (p: seq<bv8>)
    ensures |p| % 64 == 0
  {
    m + [0x80] + Zeros(ZeroCount(|m|)) + BigBytes(8 * length, 8)
  }

  /** The number a byte string stands for, highest byte first. */
  function BigNum(s: seq<bv8>): nat {
    if |s| == 0 then 0 else 256 * BigNum(s[..|s| - 1]) + s[|s| - 1] as nat
  }

  lemma {:induction false} BigNumOfBigBytes(x: nat, n: nat)
    ensures BigNum(BigBytes(x, n)) == x % Pow256(n)
  {
    if n > 0 {
      BigNumOfBigBytes(x / 256, n - 1);
      ByteOfRemainder(x % 256);
      assert BigBytes(x, n)[..n - 1] == BigBytes(x / 256, n - 1);
      RemainderStep(x, Pow256(n - 1));
    }
  }

  /** Section 5.1.1 of FIPS 180-4 by position: the message, 80, zeros, and 64 bits of length at the end of a block. */
  lemma PadLayout(m: seq<bv8>)
    ensures var p := Pad(m);
            && |p| % 64 == 0 && |m| + 9 <= |p| < |m| + 9 + 64
            && p[..|m|] == m && p[|m|] == 0x80 && (forall i :: |m| < i < |p| - 8 ==> p[i] == 0)
            && BigNum(p[|p| - 8..]) == 8 * |m| % 0x1_00000000_00000000
  {
    var n, k := 8, ZeroCount(|m|);
    EightBytes(n);
    BigNumOfBigBytes(8 * |m|, n);
    PadParts(m, k, BigBytes(8 * |m|, n), Pad(m));
  }

  lemma PadParts(m: seq<bv8>, k: nat, length: seq<bv8>, p: seq<bv8>)
    requires |length| == 8 && p == m + [0x80] + Zeros(k) + length
    ensures |p| == |m| + 1 + k + 8 && p[..|m|] == m && p[|m|] == 0x80 && p[|p| - 8..] == length
    ensures forall i :: |m| < i < |p| - 8 ==> p[i] == 0
  {
    forall i | |m| < i < |p| - 8
      ensures p[i] == 0
    {
      ZerosAt(k, i - |m| - 1);
    }
  }

  /** The padding is the shortest of its kind. */
  lemma PadIsShortest(n: nat, k: nat)
    requires (n + 1 + k + 8) % 64 == 0
    ensures ZeroCount(n) <= k
  {
  }

  /** Compressing in two steps. */
  lemma {:induction false} BlocksAppend<D>(f: Compressor<D>, d: D, a: seq<bv8>, b: seq<bv8>)
    requires |a| % 64 == 0
    ensures Blocks(f, d, a + b) == Blocks(f, Blocks(f, d, a), b)
    decreases |a|
  {
    if |a| == 0 {
      assert a + b == b;
    } else {
      assert (a + b)[..64] == a[..64] && (a + b)[64..] == a[64..] + b;
      BlocksAppend(f, f(d, a[..64]), a[64..], b);
    }
  }

  lemma OneBlock<D>(f: Compressor<D>, d: D, a: seq<bv8>, b: seq<bv8>)
    requires |a| % 64 == 0 && |b| == 64
    ensures Blocks(f, d, a + b) == f(Blocks(f, d, a), b)
  {
    BlocksAppend(f, d, a, b);
    assert b[..64] == b && b[64..] == [];
    assert Blocks(f, f(Blocks(f, d, a), b), b[64..]) == f(Blocks(f, d, a), b);
  }

  /** What has been fed: whole blocks, already compressed to `d`, and the bytes `part` in the buffer. */
  ghost predicate Buffered<D>(f: Compressor<D>, init: D, fed: seq<bv8>, part: seq<bv8>, d: D) {
    exists full: seq<bv8> :: |full| % 64 == 0 && fed == full + part && Blocks(f, init, full) == d
  }

  lemma BufferedNothing<D>(f: Compressor<D>, init: D)
    ensures Buffered(f, init, [], [], init)
  {
    var none: seq<bv8> := [];
    assert Blocks(f, init, none) == init && none == none + none;
  }

  /** Bytes that lie in the buffer from the start. */
  lemma BufferedPart<D>(f: Compressor<D>, init: D, part: seq<bv8>)
    ensures Buffered(f, init, part, part, init)
  {
    var none: seq<bv8> := [];
    assert Blocks(f, init, none) == init && part == none + part;
  }

  lemma BufferedMore<D>(f: Compressor<D>, init: D, fed: seq<bv8>, part: seq<bv8>, d: D, more: seq<bv8>)
    requires Buffered(f, init, fed, part, d)
    ensures Buffered(f, init, fed + more, part + more, d)
  {
    var full: seq<bv8> :| |full| % 64 == 0 && fed == full + part && Blocks(f, init, full) == d;
    assert fed + more == full + (part + more);
  }

  lemma BufferedBlock<D>(f: Compressor<D>, init: D, fed: seq<bv8>, part: seq<bv8>, d: D)
    requires Buffered(f, init, fed, part, d) && |part| == 64
    ensures Buffered(f, init, fed, [], f(d, part))
  {
    var full: seq<bv8> :| |full| % 64 == 0 && fed == full + part && Blocks(f, init, full) == d;
    OneBlock(f, init, full, part);
    var all := full + part;
    assert |all| % 64 == 0 && fed == all + [];
  }

  /** When nothing is left over, all is compressed. */
  lemma BufferedAll<D>(f: Compressor<D>, init: D, fed: seq<bv8>, d: D)
    requires Buffered(f, init, fed, [], d)
    ensures Blocks(f, init, fed) == d && |fed| % 64 == 0
  {
    var full: seq<bv8> :| |full| % 64 == 0 && fed == full + [] && Blocks(f, init, full) == d;
    assert fed == full;
  }

  /** The bytes in the buffer are those after the last whole block. */
  lemma BufferedSize<D>(f: Compressor<D>, init: D, fed: seq<bv8>, part: seq<bv8>, d: D)
    requires Buffered(f, init, fed, part, d) && |part| < 64
    ensures |part| == |fed| % 64
  {
  }
}
