/** The digests of "abc" (the examples published with FIPS 180-4). */
module ShaVector {
  import opened BlockHash
  import opened ByteStrings
  import opened ShaSpec
  import opened WordMemory
  import opened Words
  import Sha1Vector
  import Sha2Vector

  lemma {:induction false} BigWordAt(s: seq<bv8>, i: nat)
    requires |s| % 4 == 0 && 4 * i + 4 <= |s|
    ensures BigWords(s)[i] == BigEndian(s[4 * i], s[4 * i + 1], s[4 * i + 2], s[4 * i + 3])
  {
    if 4 * i + 4 < |s| {
      BigWordAt(s[..|s| - 4], i);
    }
  }

  /** The bytes of the only block. */
  predicate AbcBlock(p: seq<bv8>) {
    && |p| == 64 && p[0] == 0x61 && p[1] == 0x62 && p[2] == 0x63 && p[3] == 0x80
    && (forall i :: 4 <= i < 63 ==> p[i] == 0) && p[63] == 24
  }

  lemma {:induction false} NoBytes(n: nat)
    ensures BigBytes(0, n) == Zeros(n)
  {
    if n > 0 {
      NoBytes(n - 1);
    }
  }

  lemma PaddedAbc(m: seq<bv8>)
    requires m == [0x61, 0x62, 0x63]
    ensures AbcBlock(PadFor(m, |m|))
  {
    var n, k := ZeroCount(|m|), 7;
    NoBytes(k);
    assert BigBytes(8 * |m|, k + 1) == BigBytes(0, k) + [24];
    AbcParts(m, n, k, PadFor(m, |m|));
  }

  lemma AbcParts(m: seq<bv8>, n: nat, k: nat, p: seq<bv8>)
    requires m == [0x61, 0x62, 0x63] && n == 52 && k == 7
    requires p == m + [0x80] + Zeros(n) + (Zeros(k) + [24])
    ensures AbcBlock(p)
  {
    forall i | 4 <= i < 63
      ensures p[i] == 0
    {
      if i < 56 {
        ZerosAt(n, i - 4);
      } else {
        ZerosAt(k, i - 56);
      }
    }
  }

  lemma AbcWords(p: seq<bv8>)
    requires AbcBlock(p)
    ensures BigWords(p) == [0x61626380, 0x00000000, 0x00000000, 0x00000000, 0x00000000, 0x00000000, 0x00000000, 0x00000000,
                            0x00000000, 0x00000000, 0x00000000, 0x00000000, 0x00000000, 0x00000000, 0x00000000, 0x00000018]
  {
    var ws := BigWords(p);
    BigWordAt(p, 0);
    BigWordAt(p, 15);
    assert BigEndian(0x61, 0x62, 0x63, 0x80) == 0x61626380 && BigEndian(0, 0, 0, 24) == 0x18 && BigEndian(0, 0, 0, 0) == 0;
    forall i | 0 < i < 15
      ensures ws[i] == 0
    {
      BigWordAt(p, i);
    }
  }

  lemma OnlyBlock(alg: Algorithm, d: seq<bv32>, p: seq<bv8>)
    requires |p| == 64
    ensures Blocks(Compression(alg), d, p) == CompressBlock(alg, d, p)
  {
    OneBlock(Compression(alg), d, [], p);
    assert [] + p == p;
  }

  lemma {:induction false} DigestAppend(d: seq<bv32>, e: seq<bv32>)
    ensures DigestBytes(d + e) == DigestBytes(d) + DigestBytes(e)
  {
    if |e| == 0 {
      assert d + e == d;
    } else {
      DigestAppend(d, e[..|e| - 1]);
      assert (d + e)[..|d + e| - 1] == d + e[..|e| - 1];
    }
  }

  lemma OneWord(w: bv32)
    ensures DigestBytes([w]) == WordBytes(Swap(w))
  {
    assert [w][..0] == [];
  }

  lemma FourWords(d: seq<bv32>, a: seq<bv8>, b: seq<bv8>, c: seq<bv8>, e: seq<bv8>)
    requires |d| == 4 && DigestBytes([d[0]]) == a && DigestBytes([d[1]]) == b
    requires DigestBytes([d[2]]) == c && DigestBytes([d[3]]) == e
    ensures DigestBytes(d) == a + b + c + e
  {
    assert d == [d[0]] + [d[1]] + [d[2]] + [d[3]];
    DigestAppend([d[0]], [d[1]]);
    DigestAppend([d[0]] + [d[1]], [d[2]]);
    DigestAppend([d[0]] + [d[1]] + [d[2]], [d[3]]);
  }

  lemma First1()
    ensures DigestBytes([0xa9993e36, 0x4706816a, 0xba3e2571, 0x7850c26c])
         == [0xa9, 0x99, 0x3e, 0x36, 0x47, 0x06, 0x81, 0x6a, 0xba, 0x3e, 0x25, 0x71, 0x78, 0x50, 0xc2, 0x6c]
  {
    OneWord(0xa9993e36);
    OneWord(0x4706816a);
    OneWord(0xba3e2571);
    OneWord(0x7850c26c);
    FourWords([0xa9993e36, 0x4706816a, 0xba3e2571, 0x7850c26c],
              [0xa9, 0x99, 0x3e, 0x36], [0x47, 0x06, 0x81, 0x6a], [0xba, 0x3e, 0x25, 0x71], [0x78, 0x50, 0xc2, 0x6c]);
  }

  lemma Last1()
    ensures DigestBytes([0x9cd0d89d])
         == [0x9c, 0xd0, 0xd8, 0x9d]
  {
    OneWord(0x9cd0d89d);
  }

  lemma Bytes1(d: seq<bv32>)
    requires d == [0xa9993e36, 0x4706816a, 0xba3e2571, 0x7850c26c, 0x9cd0d89d]
    ensures DigestBytes(d)
         == [0xa9, 0x99, 0x3e, 0x36, 0x47, 0x06, 0x81, 0x6a, 0xba, 0x3e, 0x25, 0x71, 0x78, 0x50, 0xc2, 0x6c]
          + [0x9c, 0xd0, 0xd8, 0x9d]
  {
    var first: seq<bv32> := [0xa9993e36, 0x4706816a, 0xba3e2571, 0x7850c26c];
    var last: seq<bv32> := [0x9cd0d89d];
    First1();
    Last1();
    DigestAppend(first, last);
    assert d == first + last;
  }

  lemma Abc1(m: seq<bv8>)
    requires m == [0x61, 0x62, 0x63]
    ensures Hash(Sha1, m)
         == [0xa9, 0x99, 0x3e, 0x36, 0x47, 0x06, 0x81, 0x6a, 0xba, 0x3e, 0x25, 0x71, 0x78, 0x50, 0xc2, 0x6c]
          + [0x9c, 0xd0, 0xd8, 0x9d]
  {
    var p := PadFor(m, |m|);
    PaddedAbc(m);
    AbcWords(p);
    OnlyBlock(Sha1, Init(Sha1), p);
    Sha1Vector.Compressed(BigWords(p));
    Bytes1(CompressBlock(Sha1, Init(Sha1), p));
  }

  lemma First256()
    ensures DigestBytes([0xba7816bf, 0x8f01cfea, 0x414140de, 0x5dae2223])
         == [0xba, 0x78, 0x16, 0xbf, 0x8f, 0x01, 0xcf, 0xea, 0x41, 0x41, 0x40, 0xde, 0x5d, 0xae, 0x22, 0x23]
  {
    OneWord(0xba7816bf);
    OneWord(0x8f01cfea);
    OneWord(0x414140de);
    OneWord(0x5dae2223);
    FourWords([0xba7816bf, 0x8f01cfea, 0x414140de, 0x5dae2223],
              [0xba, 0x78, 0x16, 0xbf], [0x8f, 0x01, 0xcf, 0xea], [0x41, 0x41, 0x40, 0xde], [0x5d, 0xae, 0x22, 0x23]);
  }

  lemma Last256()
    ensures DigestBytes([0xb00361a3, 0x96177a9c, 0xb410ff61, 0xf20015ad])
         == [0xb0, 0x03, 0x61, 0xa3, 0x96, 0x17, 0x7a, 0x9c, 0xb4, 0x10, 0xff, 0x61, 0xf2, 0x00, 0x15, 0xad]
  {
    OneWord(0xb00361a3);
    OneWord(0x96177a9c);
    OneWord(0xb410ff61);
    OneWord(0xf20015ad);
    FourWords([0xb00361a3, 0x96177a9c, 0xb410ff61, 0xf20015ad],
              [0xb0, 0x03, 0x61, 0xa3], [0x96, 0x17, 0x7a, 0x9c], [0xb4, 0x10, 0xff, 0x61], [0xf2, 0x00, 0x15, 0xad]);
  }

  lemma Bytes256(d: seq<bv32>)
    requires d == [0xba7816bf, 0x8f01cfea, 0x414140de, 0x5dae2223, 0xb00361a3, 0x96177a9c, 0xb410ff61, 0xf20015ad]
    ensures DigestBytes(d)
         == [0xba, 0x78, 0x16, 0xbf, 0x8f, 0x01, 0xcf, 0xea, 0x41, 0x41, 0x40, 0xde, 0x5d, 0xae, 0x22, 0x23]
          + [0xb0, 0x03, 0x61, 0xa3, 0x96, 0x17, 0x7a, 0x9c, 0xb4, 0x10, 0xff, 0x61, 0xf2, 0x00, 0x15, 0xad]
  {
    var first: seq<bv32> := [0xba7816bf, 0x8f01cfea, 0x414140de, 0x5dae2223];
    var last: seq<bv32> := [0xb00361a3, 0x96177a9c, 0xb410ff61, 0xf20015ad];
    First256();
    Last256();
    DigestAppend(first, last);
    assert d == first + last;
  }

  lemma Abc256(m: seq<bv8>)
    requires m == [0x61, 0x62, 0x63]
    ensures Hash(Sha256, m)
         == [0xba, 0x78, 0x16, 0xbf, 0x8f, 0x01, 0xcf, 0xea, 0x41, 0x41, 0x40, 0xde, 0x5d, 0xae, 0x22, 0x23]
          + [0xb0, 0x03, 0x61, 0xa3, 0x96, 0x17, 0x7a, 0x9c, 0xb4, 0x10, 0xff, 0x61, 0xf2, 0x00, 0x15, 0xad]
  {
    var p := PadFor(m, |m|);
    PaddedAbc(m);
    AbcWords(p);
    OnlyBlock(Sha256, Init(Sha256), p);
    Sha2Vector.Compressed(BigWords(p));
    Bytes256(CompressBlock(Sha256, Init(Sha256), p));
  }
}
