/** Message authentication with a hash object, as in section 2 of RFC 2104. */
module Hmac {
  import opened Arith
  import opened BlockHash
  import opened ByteStrings
  import opened Sha
  import opened ShaSpec
  import opened Window
  import opened WordMemory

  const IPAD: bv8 := 0x36
  const OPAD: bv8 := 0x5C

  function XorWith(b: bv8): bv8 -> bv8 {
    x => x ^ b
  }

  /** Every byte of `s` combined with `b`. */
  function Masked(b: bv8, s: seq<bv8>): (r: seq<bv8>)
    ensures |r| == |s|
  {
    Mapped(XorWith(b), s)
  }

  /** Filled up with zeros to the size of a block. */
  function ToBlock(s: seq<bv8>): (r: seq<bv8>)
    requires |s| <= 64
    ensures |r| == 64
  {
    s + Zeros(64 - |s|)
  }

  /** The key of one block: longer keys are hashed first. */
  function BlockKey(alg: Algorithm, key: seq<bv8>): (r: seq<bv8>)
    ensures |r| == 64
  {
    BlockKeyFrom(alg, Init(alg), [], 0, key)
  }

  /** The same when a long key is hashed by an object in any state, in which it was fed `before`. */
  function BlockKeyFrom(alg: Algorithm, d: seq<bv32>, before: seq<bv8>, total: nat, key: seq<bv8>): (r: seq<bv8>)
    requires |d| == Count(alg)
    ensures |r| == 64
  {
    if |key| > 64 then HashedBlock(alg, d, before + key, total + |key|) else ToBlock(key)
  }

  function HashedBlock(alg: Algorithm, d: seq<bv32>, m: seq<bv8>, length: nat): (r: seq<bv8>)
    requires |d| == Count(alg)
    ensures |r| == 64
  {
    HashLength(alg, d, m, length);
    ToBlock(HashFrom(alg, d, m, length))
  }

  lemma HashedBlockIs(alg: Algorithm, d: seq<bv32>, m: seq<bv8>, length: nat) returns (h: seq<bv8>)
    requires |d| == Count(alg)
    ensures h == HashFrom(alg, d, m, length) && |h| == 4 * Count(alg) && HashedBlock(alg, d, m, length) == ToBlock(h)
  {
    HashLength(alg, d, m, length);
    h := HashFrom(alg, d, m, length);
  }

  lemma LongKey(alg: Algorithm, d: seq<bv32>, before: seq<bv8>, total: nat, key: seq<bv8>, m: seq<bv8>, length: nat)
    requires |d| == Count(alg) && |key| > 64 && m == before + key && length == total + |key|
    ensures BlockKeyFrom(alg, d, before, total, key) == HashedBlock(alg, d, m, length)
  {
  }

  lemma HashLength(alg: Algorithm, d: seq<bv32>, m: seq<bv8>, total: nat)
    requires |d| == Count(alg)
    ensures |HashFrom(alg, d, m, total)| == 4 * Count(alg)
  {
    BlocksLength(alg, d, PadFor(m, total));
  }

  /** Keys that are not hashed do not depend on the state of the object, and long ones do not when it was just reset. */
  lemma BlockKeyOfReset(alg: Algorithm, d: seq<bv32>, before: seq<bv8>, total: nat, key: seq<bv8>)
    requires |d| == Count(alg) && (|key| <= 64 || (d == Init(alg) && before == [] && total == 0))
    ensures BlockKeyFrom(alg, d, before, total, key) == BlockKey(alg, key)
  {
  }

  /** An object that was fed something and not completed makes the authenticator for all of that and the key. */
  lemma BlockKeyOfUsed(alg: Algorithm, before: seq<bv8>, key: seq<bv8>)
    requires |key| > 64
    ensures BlockKeyFrom(alg, Init(alg), before, |before|, key) == BlockKey(alg, before + key)
  {
    var m, length := before + key, |before + key|;
    LongKey(alg, Init(alg), before, |before|, key, m, length);
    assert [] + m == m;
    LongKey(alg, Init(alg), [], 0, m, m, length);
  }

  lemma {:induction false} BlocksLength(alg: Algorithm, d: seq<bv32>, m: seq<bv8>)
    requires |d| == Count(alg)
    ensures |Blocks(Compression(alg), d, m)| == Count(alg)
    decreases |m|
  {
    if |m| >= 64 {
      BlocksLength(alg, CompressBlock(alg, d, m[..64]), m[64..]);
    }
  }

  /** H((K ^ opad) ++ H((K ^ ipad) ++ m)), for the key of one block. */
  function Authenticator(alg: Algorithm, k: seq<bv8>, m: seq<bv8>): seq<bv8> {
    Hash(alg, Masked(OPAD, k) + Hash(alg, Masked(IPAD, k) + m))
  }

  function HmacOf(alg: Algorithm, key: seq<bv8>, m: seq<bv8>): seq<bv8> {
    Authenticator(alg, BlockKey(alg, key), m)
  }

  // ---------- the same by position ----------

  /** The key as RFC 2104 prepares it: itself or its hash, and zeros. */
  lemma BlockKeyAt(alg: Algorithm, key: seq<bv8>, short: seq<bv8>, i: nat)
    requires short == (if |key| > 64 then Hash(alg, key) else key) && i < 64
    ensures |short| <= 64 && BlockKey(alg, key)[i] == if i < |short| then short[i] else 0
  {
    if |key| > 64 {
      HashLength(alg, Init(alg), key, |key|);
      assert [] + key == key;
    }
    if i >= |short| {
      ZerosAt(64 - |short|, i - |short|);
    }
  }

  lemma MaskedIs(b: bv8, k: seq<bv8>, r: seq<bv8>)
    requires |r| == |k| && forall i :: 0 <= i < |k| ==> r[i] == k[i] ^ b
    ensures Masked(b, k) == r
  {
    forall i | 0 <= i < |k|
      ensures Masked(b, k)[i] == r[i]
    {
      MappedAt(XorWith(b), k, i);
    }
  }

  /** Section 2 of RFC 2104, with the two pads written out. */
  lemma HmacIs(alg: Algorithm, key: seq<bv8>, m: seq<bv8>, short: seq<bv8>, k: seq<bv8>, inner: seq<bv8>, outer: seq<bv8>)
    requires short == (if |key| > 64 then Hash(alg, key) else key)
    requires |k| == |inner| == |outer| == 64
    requires forall i :: 0 <= i < 64 ==> k[i] == if i < |short| then short[i] else 0
    requires forall i :: 0 <= i < 64 ==> inner[i] == k[i] ^ 0x36 && outer[i] == k[i] ^ 0x5C
    ensures HmacOf(alg, key, m) == Hash(alg, outer + Hash(alg, inner + m))
  {
    forall i | 0 <= i < 64
      ensures BlockKey(alg, key)[i] == k[i]
    {
      BlockKeyAt(alg, key, short, i);
    }
    assert BlockKey(alg, key) == k;
    MaskedIs(IPAD, k, inner);
    MaskedIs(OPAD, k, outer);
  }

  /** A key that is shorter than a block and the same key with a zero have the same authenticators. */
  lemma ZeroAfterKey(alg: Algorithm, key: seq<bv8>, m: seq<bv8>)
    requires |key| < 64
    ensures HmacOf(alg, key + [0], m) == HmacOf(alg, key, m)
  {
    forall i | 0 <= i < 64
      ensures BlockKey(alg, key + [0])[i] == BlockKey(alg, key)[i]
    {
      BlockKeyAt(alg, key, key, i);
      BlockKeyAt(alg, key + [0], key + [0], i);
    }
    assert BlockKey(alg, key + [0]) == BlockKey(alg, key);
  }

  /** So have a key that is longer than a block and its hash. */
  lemma HashedKey(alg: Algorithm, key: seq<bv8>, m: seq<bv8>)
    requires |key| > 64
    ensures HmacOf(alg, Hash(alg, key), m) == HmacOf(alg, key, m)
  {
    var short := Hash(alg, key);
    HashLength(alg, Init(alg), key, |key|);
    forall i | 0 <= i < 64
      ensures BlockKey(alg, short)[i] == BlockKey(alg, key)[i]
    {
      BlockKeyAt(alg, key, short, i);
      BlockKeyAt(alg, short, short, i);
    }
    assert BlockKey(alg, short) == BlockKey(alg, key);
  }

  /** Changing the mask in place. */
  lemma {:induction false} Remask(k: seq<bv8>)
    ensures Masked(IPAD ^ OPAD, Masked(IPAD, k)) == Masked(OPAD, k)
  {
    forall i | 0 <= i < |k|
      ensures Masked(IPAD ^ OPAD, Masked(IPAD, k))[i] == Masked(OPAD, k)[i]
    {
      MappedAt(XorWith(IPAD), k, i);
      MappedAt(XorWith(OPAD), k, i);
      MappedAt(XorWith(IPAD ^ OPAD), Masked(IPAD, k), i);
      RemaskByte(k[i]);
    }
  }

  lemma RemaskByte(x: bv8)
    ensures XorWith(IPAD ^ OPAD)(XorWith(IPAD)(x)) == XorWith(OPAD)(x)
  {
  }

  /** copy_to and memcpy. */
  method CopyTo<T>(a: array<T>, s: seq<T>)
    requires |s| <= a.Length
    modifies a
    ensures a[..] == s + old(a[|s|..])
  {
    for i := 0 to |s|
      invariant forall k :: 0 <= k < i ==> a[k] == s[k]
      invariant forall k :: i <= k < a.Length ==> a[k] == old(a[k])
    {
      a[i] := s[i];
    }
  }

  class HmacObject {
    const alg: Algorithm
    const hash: Hasher
    const key: array<bv8>
    const digest: array<bv8>

    ghost var blockKey: seq<bv8>
    ghost var fed: seq<bv8>       // the bytes given to Update since SetKey

    ghost predicate Shape() {
      && hash.Shape() && hash.alg == alg && key.Length == 64 && digest.Length == 4 * Count(alg) && key != digest
      && (key as object) != hash.digest && (key as object) != hash.buffer
      && (digest as object) != hash.digest && (digest as object) != hash.buffer
    }

    ghost predicate Valid()
      reads this, hash, hash.digest, hash.buffer, key
    {
      Shape() && hash.Valid() && hash.Started() && key[..] == Masked(IPAD, blockKey) && hash.fed == key[..] + fed
    }

    constructor (alg: Algorithm)
      ensures Shape() && this.alg == alg && hash.Valid() && hash.Started() && hash.fed == []
      ensures fresh(hash) && fresh(hash.digest) && fresh(hash.buffer) && fresh(key) && fresh(digest)
    {
      this.alg := alg;
      hash := new Hasher(alg);
      key, digest := new bv8[64], new bv8[4 * Count(alg)];
      blockKey, fed := [], [];
    }

    /** The key, and zeros after it. */
    method FillKey(s: seq<bv8>)
      requires Shape() && |s| <= 64
      modifies key
      ensures key[..] == ToBlock(s)
    {
      CopyTo(key, s);
      for i := |s| to 64
        invariant key[..i] == s + Zeros(i - |s|)
      {
        key[i] := 0;
      }
      assert key[..64] == key[..];
    }

    /** The key goes through the hash object as it is, which is not reset before; `d` is what comes out. */
    method HashKey(k: seq<bv8>, ghost length: nat, ghost d: seq<bv8>)
      requires Shape() && hash.Valid() && |d| == 4 * Count(alg) && length == hash.total + |k|
      requires d == HashFrom(alg, hash.init, hash.fed + k, length)
      modifies key, hash, hash.digest, hash.buffer
      ensures hash.Valid() && key[..] == ToBlock(d)
    {
      hash.Update(k);
      assert hash.total == length;
      hash.Complete();
      assert Bytes(hash.digest[..]) == d;
      FillKey(Bytes(hash.digest[..]));
    }

    /** A long key is hashed first. */
    method LoadKey(k: seq<bv8>, ghost block: seq<bv8>)
      requires Shape() && hash.Valid() && |hash.init| == Count(alg)
      requires block == BlockKeyFrom(alg, hash.init, hash.fed, hash.total, k)
      modifies key, hash, hash.digest, hash.buffer
      ensures hash.Valid() && key[..] == block
    {
      if |k| > 64 {
        ghost var m, length := hash.fed + k, hash.total + |k|;
        LongKey(alg, hash.init, hash.fed, hash.total, k, m, length);
        ghost var d := HashedBlockIs(alg, hash.init, m, length);
        HashKey(k, length, d);
      } else {
        FillKey(k);
      }
    }

    method SetKey(k: seq<bv8>)
      requires Shape() && hash.Valid()
      modifies this, key, hash, hash.digest, hash.buffer
      ensures Valid() && fed == [] && |old(hash.init)| == Count(alg)
      ensures blockKey == BlockKeyFrom(alg, old(hash.init), old(hash.fed), old(hash.total), k)
    {
      LoadKey(k, BlockKeyFrom(alg, hash.init, hash.fed, hash.total, k));
      blockKey, fed := key[..], [];
      FeedKey();
    }

    /** Masks the key and starts the inner hash with it. */
    method FeedKey()
      requires Shape() && hash.Valid() && blockKey == key[..] && fed == []
      modifies key, hash, hash.digest, hash.buffer
      ensures Valid()
    {
      MapInPlace(XorWith(IPAD), key);
      hash.Reset();
      hash.Update(key[..]);
      assert hash.fed == key[..] + fed;
    }

    method Update(data: seq<bv8>)
      requires Valid()
      modifies this, hash, hash.digest, hash.buffer
      ensures Valid() && fed == old(fed) + data && blockKey == old(blockKey)
    {
      SeqAssoc(key[..], fed, data);
      hash.Update(data);
      fed := fed + data;
    }

    /** m_hash.complete().copy_to(m_digest) */
    method TakeDigest(ghost m: seq<bv8>)
      requires Shape() && hash.Valid() && hash.Started() && hash.fed == m
      modifies digest, hash, hash.digest, hash.buffer
      ensures hash.Valid() && digest[..] == Hash(alg, m)
    {
      HashLength(alg, Init(alg), m, |m|);
      hash.Complete();
      CopyTo(digest, Bytes(hash.digest[..]));
    }

    /** The outer hash, after the key has got its other mask. */
    method HashOuter()
      requires Shape()
      modifies digest, hash, hash.digest, hash.buffer
      ensures hash.Valid() && digest[..] == Hash(alg, key[..] + old(digest[..]))
    {
      hash.Reset();
      hash.Update(key[..]);
      hash.Update(digest[..]);
      assert [] + key[..] == key[..];
      TakeDigest(key[..] + digest[..]);
    }

    method Complete()
      requires Valid()
      modifies key, digest, hash, hash.digest, hash.buffer
      ensures hash.Valid() && digest[..] == Authenticator(alg, blockKey, fed)
    {
      TakeDigest(Masked(IPAD, blockKey) + fed);
      Remask(blockKey);
      MapInPlace(XorWith(IPAD ^ OPAD), key);
      HashOuter();
    }
  }

  function Joined(pieces: seq<seq<bv8>>): seq<bv8> {
    if |pieces| == 0 then [] else Joined(pieces[..|pieces| - 1]) + pieces[|pieces| - 1]
  }

  method UpdateAll(o: HmacObject, pieces: seq<seq<bv8>>)
    requires o.Valid()
    modifies o, o.hash, o.hash.digest, o.hash.buffer
    ensures o.Valid() && o.fed == old(o.fed) + Joined(pieces) && o.blockKey == old(o.blockKey)
  {
    assert o.fed == o.fed + Joined(pieces[..0]);
    for i := 0 to |pieces|
      invariant o.Valid() && o.fed == old(o.fed) + Joined(pieces[..i]) && o.blockKey == old(o.blockKey)
    {
      assert pieces[..i + 1][..i] == pieces[..i];
      SeqAssoc(old(o.fed), Joined(pieces[..i]), pieces[i]);
      o.Update(pieces[i]);
    }
    assert pieces[..|pieces|] == pieces;
  }

  /** The constructor that takes a key. */
  method Keyed(alg: Algorithm, key: seq<bv8>) returns (o: HmacObject)
    ensures o.Valid() && o.alg == alg && o.blockKey == BlockKey(alg, key) && o.fed == []
    ensures fresh(o) && fresh(o.hash) && fresh(o.hash.digest) && fresh(o.hash.buffer) && fresh(o.key) && fresh(o.digest)
  {
    o := new HmacObject(alg);
    BlockKeyOfReset(alg, o.hash.init, o.hash.fed, o.hash.total, key);
    o.SetKey(key);
  }

  /** The authenticator of a message given in any pieces, under a key of any length, with a fresh object. */
  method Calculate(alg: Algorithm, key: seq<bv8>, pieces: seq<seq<bv8>>) returns (digest: seq<bv8>)
    ensures digest == HmacOf(alg, key, Joined(pieces))
  {
    var o := Keyed(alg, key);
    UpdateAll(o, pieces);
    assert [] + Joined(pieces) == Joined(pieces);
    o.Complete();
    digest := o.digest[..];
  }
}
