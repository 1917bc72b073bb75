/** The streaming hash objects: sha1 and sha2_256, which differ in the digest and the compression only. */
module Sha {
  import opened Arith
  import opened BlockHash
  import opened ByteStrings
  import opened ShaSpec
  import opened Window
  import opened WordMemory
  import opened Words
  import Sha1Rounds
  import Sha2Rounds

  type Digest = seq<bv32>

  /** `f` is the compression of an algorithm. */
  ghost predicate Computes(f: Compressor<Digest>, alg: Algorithm) {
    forall d: Digest, block: seq<bv8> {:trigger CompressBlock(alg, d, block)} :: f(d, block) == CompressBlock(alg, d, block)
  }

  /** A piece copied after what was there. */
  lemma Filled(was: seq<bv8>, now: seq<bv8>, piece: seq<bv8>, part: seq<bv8>, n: nat)
    requires |part| + |piece| == n <= |was| && part == was[..|part|]
    requires now == was[..|part|] + piece + was[n..]
    ensures |now| == |was| && now[..n] == part + piece
  {
  }

  lemma {:induction false} SameBlocks(f: Compressor<Digest>, alg: Algorithm, d: Digest, m: seq<bv8>)
    requires Computes(f, alg)
    ensures Blocks(f, d, m) == Blocks(Compression(alg), d, m)
    decreases |m|
  {
    if |m| >= 64 {
      assert f(d, m[..64]) == CompressBlock(alg, d, m[..64]);
      SameBlocks(f, alg, f(d, m[..64]), m[64..]);
    }
  }

  lemma {:induction false} DigestIsSwapped(d: Digest)
    ensures Bytes(Mapped(Swap, d)) == DigestBytes(d)
  {
    if |d| > 0 {
      var s := Mapped(Swap, d);
      DigestIsSwapped(d[..|d| - 1]);
      assert s[..|s| - 1] == Mapped(Swap, d[..|d| - 1]);
    }
  }

  /** The bytes that fill the buffer up to its last eight. */
  lemma PaddingSize(total: nat, size: nat, n: nat)
    requires size == total % 64 && n == if size < 56 then 56 - size else 120 - size
    ensures n == 1 + ZeroCount(total)
  {
  }

  lemma PaddedSize(total: nat, n: nat, all: nat)
    requires n == 1 + ZeroCount(total) && all == total + n
    ensures all % 64 == 56
  {
  }

  /** Words 14 and 15 as the 64 bits of a number. */
  lemma LengthBytes(w: seq<bv32>, bits: nat)
    requires |w| == 16
    ensures Bytes(w[14 := Swap(ToWord(bits / 0x1_0000_0000))][15 := Swap(ToWord(bits))]) == Bytes(w)[..56] + BigBytes(bits, 8)
  {
    var high, low := Swap(ToWord(bits / 0x1_0000_0000)), Swap(ToWord(bits));
    var w' := w[14 := high][15 := low];
    assert w'[..15][..14] == w[..14] && w'[..15][14] == high && w'[15] == low;
    LastTwoWords(w');
    BytesPrefix(w, 14);
    SwapToWord(bits / 0x1_0000_0000);
    SwapToWord(bits);
    EightBytes(bits);
  }

  lemma LastTwoWords(w: seq<bv32>)
    requires |w| == 16
    ensures Bytes(w) == Bytes(w[..15][..14]) + (WordBytes(w[..15][14]) + WordBytes(w[15]))
  {
  }

  lemma {:induction false} BytesPrefix(w: seq<bv32>, n: nat)
    requires n <= |w|
    ensures Bytes(w)[..4 * n] == Bytes(w[..n])
  {
    if n < |w| {
      BytesPrefix(w[..|w| - 1], n);
      assert w[..|w| - 1][..n] == w[..n];
    } else {
      assert w[..n] == w;
    }
  }

  lemma EightBytes(x: nat)
    ensures BigBytes(x, 8) == LowBytes(x / 0x1_0000_0000) + LowBytes(x)
  {
    FourMore(x, 4);
    FourMore(x / 0x1_0000_0000, 0);
    assert BigBytes(x / 0x1_0000_0000 / 0x1_0000_0000, 0) == [];
  }

  lemma FourMore(x: nat, n: nat)
    ensures BigBytes(x, n + 4) == BigBytes(x / 0x1_0000_0000, n) + LowBytes(x)
  {
    DivideFour(x);
    var x1, x2, x3 := x / 256, x / 256 / 256, x / 256 / 256 / 256;
    OneMoreByte(x, n + 3);
    OneMoreByte(x1, n + 2);
    OneMoreByte(x2, n + 1);
    OneMoreByte(x3, n);
    Together(BigBytes(x3 / 256, n), (x3 % 256) as bv8, (x2 % 256) as bv8, (x1 % 256) as bv8, (x % 256) as bv8);
  }

  lemma OneMoreByte(x: nat, n: nat)
    ensures BigBytes(x, n + 1) == BigBytes(x / 256, n) + [(x % 256) as bv8]
  {
  }

  lemma Together<T>(s: seq<T>, a: T, b: T, c: T, d: T)
    ensures s + [a] + [b] + [c] + [d] == s + [a, b, c, d]
  {
  }

  lemma DivideFour(x: nat)
    ensures x / 256 / 256 / 256 / 256 == x / 0x1_0000_0000
  {
    var x1, x2, x3 := x / 256, x / 256 / 256, x / 256 / 256 / 256;
    var r := x % 256 + 0x100 * (x1 % 256) + 0x10000 * (x2 % 256) + 0x1000000 * (x3 % 256);
    Quotient(x, x3 / 256, r);
  }

  lemma Quotient(x: nat, q: nat, r: nat)
    requires x == 0x1_0000_0000 * q + r && r < 0x1_0000_0000
    ensures x / 0x1_0000_0000 == q
  {
  }

  lemma Padded(m: seq<bv8>, one: seq<bv8>, zeros: seq<bv8>, length: seq<bv8>)
    ensures m + (one + zeros) + length == m + one + zeros + length
  {
  }

  class Hasher {
    const alg: Algorithm
    const digest: array<bv32>
    const buffer: array<bv32>
    var size: nat
    var total: nat

    ghost const f: Compressor<Digest>
    ghost var init: Digest     // the digest that the bytes fed are compressed into
    ghost var fed: seq<bv8>    // the bytes given to Update since Reset, or since Complete after what that left in the buffer

    ghost predicate Shape() {
      digest.Length == Count(alg) && buffer.Length == 16 && digest != buffer && Computes(f, alg)
    }

    ghost predicate Valid()
      reads this, digest, buffer
    {
      && Shape() && size < 64 && |init| == Count(alg)
      && Buffered(f, init, fed, Bytes(buffer[..])[..size], digest[..])
    }

    /** The object was reset, and not completed since. */
    ghost predicate Started()
      reads this
    {
      init == Init(alg) && total == |fed|
    }

    constructor (alg: Algorithm)
      ensures Valid() && Started() && fed == [] && this.alg == alg && fresh(digest) && fresh(buffer)
    {
      this.alg := alg;
      digest, buffer := new bv32[Count(alg)], new bv32[16];
      f := Compression(alg);
      new;
      Reset();
    }

    method Reset()
      requires Shape()
      modifies this, digest
      ensures Valid() && Started() && fed == []
    {
      size, total, fed := 0, 0, [];
      var words := Init(alg);
      init := words;
      for i := 0 to digest.Length
        invariant digest[..i] == words[..i] && size == 0 && total == 0 && fed == [] && init == words
      {
        digest[i] := words[i];
      }
      assert digest[..] == init;
      BufferedNothing(f, init);
      assert Bytes(buffer[..])[..0] == [];
    }

    /** Compresses the buffer, whose words it overwrites. */
    method Transform()
      requires Shape()
      modifies digest, buffer
      ensures digest[..] == f(old(digest[..]), old(Bytes(buffer[..])))
    {
      BigIsSwapped(buffer[..]);
      assert f(digest[..], Bytes(buffer[..])) == CompressBlock(alg, digest[..], Bytes(buffer[..]));
      if alg == Sha1 {
        Sha1Rounds.Transform(Ops1(), Swap, digest, buffer);
      } else {
        AddCommutes();
        Sha2Rounds.Transform(Ops256(), Swap, digest, buffer);
      }
    }

    /** As much as fits into the buffer. */
    method Absorb(piece: seq<bv8>)
      requires Valid() && size + |piece| <= 64
      modifies this, digest, buffer
      ensures Valid() && fed == old(fed) + piece && init == old(init) && total == old(total) + |piece|
    {
      ghost var part, d := Bytes(buffer[..])[..size], digest[..];
      CopyBytes(buffer, size, piece);
      size := size + |piece|;
      total := total + |piece|;
      fed := fed + piece;
      Filled(old(Bytes(buffer[..])), Bytes(buffer[..]), piece, part, size);
      BufferedMore(f, init, old(fed), part, d, piece);
      if size == 64 {
        CompressFull();
      }
    }

    /** A full buffer is compressed and counts as empty. */
    method CompressFull()
      requires Shape() && size == 64 && |init| == Count(alg)
      requires Buffered(f, init, fed, Bytes(buffer[..])[..64], digest[..])
      modifies `size, digest, buffer
      ensures Valid()
    {
      assert Bytes(buffer[..])[..64] == Bytes(buffer[..]);
      BufferedBlock(f, init, fed, Bytes(buffer[..]), digest[..]);
      Transform();
      size := 0;
      assert Bytes(buffer[..])[..0] == [];
    }

    method Update(data: seq<bv8>)
      requires Valid()
      modifies this, digest, buffer
      ensures Valid() && fed == old(fed) + data && init == old(init) && total == old(total) + |data|
    {
      var i := 0;
      assert fed == fed + data[..0];
      while i < |data|
        invariant i <= |data| && Valid() && fed == old(fed) + data[..i]
        invariant init == old(init) && total == old(total) + i
      {
        var n := if |data| - i < 64 - size then |data| - i else 64 - size;
        Absorb(data[i..i + n]);
        SeqExtend(old(fed), data, i, n);
        i := i + n;
      }
      assert data[..|data|] == data;
    }

    /** The length goes to the last two words; the buffer then completes the padded message. */
    method StoreLength(bits: nat, ghost p: seq<bv8>)
      requires Valid() && size == 56 && fed + BigBytes(bits, 8) == p
      modifies buffer
      ensures f(digest[..], Bytes(buffer[..])) == Blocks(f, init, p)
    {
      ghost var part := Bytes(buffer[..])[..56];
      LengthBytes(buffer[..], bits);
      BufferedMore(f, init, fed, part, digest[..], BigBytes(bits, 8));
      BufferedBlock(f, init, p, part + BigBytes(bits, 8), digest[..]);
      BufferedAll(f, init, p, f(digest[..], part + BigBytes(bits, 8)));
      ghost var w := buffer[..];
      buffer[14] := Swap(ToWord(bits / 0x1_0000_0000));
      buffer[15] := Swap(ToWord(bits));
      assert buffer[..] == w[14 := Swap(ToWord(bits / 0x1_0000_0000))][15 := Swap(ToWord(bits))];
    }

    /** All of the padding but the length, which is that of the message without it. */
    method UpdatePadding() returns (bits: nat)
      requires Valid()
      modifies this, digest, buffer
      ensures Valid() && size == 56 && bits == 8 * old(total) && init == old(init)
      ensures fed == old(fed) + ([0x80] + Zeros(ZeroCount(|old(fed)|)))
    {
      bits := total * 8;
      var n := if size < 56 then 56 - size else 120 - size;
      ghost var m := fed;
      var zeros := n - 1;
      PaddingNeeded(n, zeros);
      Update([0x80] + Zeros(zeros));
      PaddingDone(m);
    }

    lemma PaddingNeeded(n: nat, zeros: nat)
      requires Valid() && n == zeros + 1 && n == if size < 56 then 56 - size else 120 - size
      ensures zeros == ZeroCount(|fed|)
    {
      SizeIs();
      PaddingSize(|fed|, size, n);
    }

    lemma PaddingDone(m: seq<bv8>)
      requires Valid() && fed == m + ([0x80] + Zeros(ZeroCount(|m|)))
      ensures size == 56
    {
      SizeIs();
      PaddedSize(|m|, 1 + ZeroCount(|m|), |fed|);
    }

    lemma SizeIs()
      requires Valid()
      ensures size == |fed| % 64
    {
      BufferedSize(f, init, fed, Bytes(buffer[..])[..size], digest[..]);
    }

    method CompressLast(ghost m: seq<bv8>, ghost length: nat, bits: nat)
      requires Valid() && size == 56 && bits == 8 * length && fed == m + ([0x80] + Zeros(ZeroCount(|m|)))
      modifies digest, buffer
      ensures digest[..] == Blocks(f, init, PadFor(m, length))
    {
      Padded(m, [0x80], Zeros(ZeroCount(|m|)), BigBytes(bits, 8));
      StoreLength(bits, PadFor(m, length));
      Transform();
    }

    /** The digest of a started object is the hash of its bytes; to start again it has to be reset. */
    method Complete()
      requires Valid()
      modifies this, digest, buffer
      ensures Valid() && Bytes(digest[..]) == HashFrom(alg, old(init), old(fed), old(total))
      ensures old(Started()) ==> Bytes(digest[..]) == Hash(alg, old(fed))
    {
      CompletePadded();
      init, fed := digest[..], Bytes(buffer[..])[..56];
      BufferedPart(f, init, fed);
    }

    method CompletePadded()
      requires Valid()
      modifies this, digest, buffer
      ensures size == 56 && |old(init)| == Count(alg)
      ensures Bytes(digest[..]) == HashFrom(alg, old(init), old(fed), old(total))
    {
      ghost var m, length := fed, total;
      var bits := UpdatePadding();
      CompressLast(m, length, bits);
      SameBlocks(f, alg, init, PadFor(m, length));
      DigestIsSwapped(digest[..]);
      MapInPlace(Swap, digest);
    }
  }
}
