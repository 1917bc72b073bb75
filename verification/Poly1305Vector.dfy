/** The example of section 2.5.2 of RFC 8439, computed by the specification. */
module Poly1305Vector {
  import opened Arith
  import opened ByteNumbers
  import opened Poly1305Spec

  function Key(): (key: seq<bv8>)
    ensures |key| == 32
  {
    ([0x85, 0xd6, 0xbe, 0x78] + [0x57, 0x55, 0x6d, 0x33] + [0x7f, 0x44, 0x52, 0xfe] + [0x42, 0xd5, 0x06, 0xa8])
    + ([0x01, 0x03, 0x80, 0x8a] + [0xfb, 0x0d, 0xb2, 0xfd] + [0x4a, 0xbf, 0xf6, 0xaf] + [0x41, 0x49, 0xf5, 0x1b])
  }

  /** "Cryptographic Forum Research Group" */
  function Text(): (m: seq<bv8>)
    ensures |m| == 34
  {
    ([0x43, 0x72, 0x79, 0x70] + [0x74, 0x6f, 0x67, 0x72] + [0x61, 0x70, 0x68, 0x69] + [0x63, 0x20, 0x46, 0x6f])
    + ([0x72, 0x75, 0x6d, 0x20] + [0x52, 0x65, 0x73, 0x65] + [0x61, 0x72, 0x63, 0x68] + [0x20, 0x47, 0x72, 0x6f])
    + [0x75, 0x70]
  }

  lemma FourBytes(a: bv8, b: bv8, c: bv8, d: bv8)
    ensures LeNum([a, b, c, d]) == a as nat + 0x100 * b as nat + 0x1_0000 * c as nat + 0x100_0000 * d as nat
  {
    assert [a, b, c, d][1..] == [b, c, d] && [b, c, d][1..] == [c, d] && [c, d][1..] == [d] && [d][1..] == [];
    assert LeNum([]) == 0;
    assert LeNum([d]) == d as nat + 256 * LeNum([]);
    assert LeNum([c, d]) == c as nat + 256 * LeNum([d]);
    assert LeNum([b, c, d]) == b as nat + 256 * LeNum([c, d]);
  }

  lemma FourBefore(a: seq<bv8>, rest: seq<bv8>)
    requires |a| == 4
    ensures LeNum(a + rest) == LeNum(a) + 0x1_00000000 * LeNum(rest)
  {
    LeNumConcat(a, rest);
    assert Pow256(4) == 0x1_00000000;
  }

  lemma SixteenBytesOf(a: seq<bv8>, b: seq<bv8>, c: seq<bv8>, d: seq<bv8>, x: nat, y: nat, z: nat, u: nat)
    requires |a| == |b| == |c| == |d| == 4
    requires LeNum(a) == x && LeNum(b) == y && LeNum(c) == z && LeNum(d) == u
    ensures LeNum(a + b + c + d)
         == x + 0x1_00000000 * y + 0x1_00000000_00000000 * z + 0x1_00000000_00000000_00000000 * u
  {
    FourBefore(c, d);
    FourBefore(b, c + d);
    FourBefore(a, b + (c + d));
    SeqAssoc(a, b, c);
    SeqAssoc(a + b, c, d);
    SeqAssoc(a, b, c + d);
  }

  lemma KeyNumbers()
    ensures KeyR(Key()) == 0x806d5400e52447c036d555408bed685 && KeyS(Key()) == 0x1bf54941aff6bf4afdb20dfb8a800301
  {
    Clamped();
    FourBytes(0x85, 0xd6, 0xbe, 0x08);
    FourBytes(0x54, 0x55, 0x6d, 0x03);
    FourBytes(0x7c, 0x44, 0x52, 0x0e);
    FourBytes(0x40, 0xd5, 0x06, 0x08);
    SixteenBytesOf([0x85, 0xd6, 0xbe, 0x08], [0x54, 0x55, 0x6d, 0x03], [0x7c, 0x44, 0x52, 0x0e], [0x40, 0xd5, 0x06, 0x08],
                   0x08bed685, 0x036d5554, 0x0e52447c, 0x0806d540);
    SecondHalf();
  }

  lemma SecondHalf()
    ensures KeyS(Key()) == 0x1bf54941aff6bf4afdb20dfb8a800301
  {
    FourBytes(0x01, 0x03, 0x80, 0x8a);
    FourBytes(0xfb, 0x0d, 0xb2, 0xfd);
    FourBytes(0x4a, 0xbf, 0xf6, 0xaf);
    FourBytes(0x41, 0x49, 0xf5, 0x1b);
    SixteenBytesOf([0x01, 0x03, 0x80, 0x8a], [0xfb, 0x0d, 0xb2, 0xfd], [0x4a, 0xbf, 0xf6, 0xaf], [0x41, 0x49, 0xf5, 0x1b],
                   0x8a800301, 0xfdb20dfb, 0xaff6bf4a, 0x1bf54941);
    assert Key()[16..] == [0x01, 0x03, 0x80, 0x8a] + [0xfb, 0x0d, 0xb2, 0xfd] + [0x4a, 0xbf, 0xf6, 0xaf] + [0x41, 0x49, 0xf5, 0x1b];
  }

  lemma Clamped()
    ensures ClampBytes(Key()[..16])
         == [0x85, 0xd6, 0xbe, 0x08] + [0x54, 0x55, 0x6d, 0x03] + [0x7c, 0x44, 0x52, 0x0e] + [0x40, 0xd5, 0x06, 0x08]
  {
    var k := Key()[..16];
    forall i | 0 <= i < 16
      ensures ClampBytes(k)[i] == Clamp(k[i], i)
    {
      ClampByte(k, i);
    }
  }

  lemma FirstBlock()
    ensures LeNum(Text()[..16]) == 0x6f4620636968706172676f7470797243
  {
    FourBytes(0x43, 0x72, 0x79, 0x70);
    FourBytes(0x74, 0x6f, 0x67, 0x72);
    FourBytes(0x61, 0x70, 0x68, 0x69);
    FourBytes(0x63, 0x20, 0x46, 0x6f);
    SixteenBytesOf([0x43, 0x72, 0x79, 0x70], [0x74, 0x6f, 0x67, 0x72], [0x61, 0x70, 0x68, 0x69], [0x63, 0x20, 0x46, 0x6f],
                   0x70797243, 0x72676f74, 0x69687061, 0x6f462063);
    assert Text()[..16] == [0x43, 0x72, 0x79, 0x70] + [0x74, 0x6f, 0x67, 0x72] + [0x61, 0x70, 0x68, 0x69] + [0x63, 0x20, 0x46, 0x6f];
  }

  lemma SecondBlock()
    ensures LeNum(Text()[16..32]) == 0x6f7247206863726165736552206d7572
  {
    FourBytes(0x72, 0x75, 0x6d, 0x20);
    FourBytes(0x52, 0x65, 0x73, 0x65);
    FourBytes(0x61, 0x72, 0x63, 0x68);
    FourBytes(0x20, 0x47, 0x72, 0x6f);
    SixteenBytesOf([0x72, 0x75, 0x6d, 0x20], [0x52, 0x65, 0x73, 0x65], [0x61, 0x72, 0x63, 0x68], [0x20, 0x47, 0x72, 0x6f],
                   0x206d7572, 0x65736552, 0x68637261, 0x6f724720);
    assert Text()[16..32] == [0x72, 0x75, 0x6d, 0x20] + [0x52, 0x65, 0x73, 0x65] + [0x61, 0x72, 0x63, 0x68] + [0x20, 0x47, 0x72, 0x6f];
  }

  lemma LastBlock()
    ensures Text()[32..] == [0x75, 0x70] && LeNum([0x75, 0x70]) == 0x7075
  {
    assert [0x75, 0x70][1..] == [0x70] && [0x70][1..] == [];
    assert LeNum([0x70]) == 0x70;
  }

  /** One block on numbers: `x` is what is multiplied, `q` the quotient. */
  lemma StepTo(acc: nat, r: nat, chunk: seq<bv8>, x: nat, q: nat, acc': nat)
    requires x == acc + BlockNum(chunk) && x * r == q * P + acc' && acc' < P
    ensures Step(acc, r, chunk) == acc'
  {
    ModIsRemainder(x * r);
    ModUnique(x * r, P, q, acc');
  }

  lemma ThreeSteps(r: nat, a: seq<bv8>, b: seq<bv8>, c: seq<bv8>, bit: nat)
    requires r == 0x806d5400e52447c036d555408bed685 && bit == 0x1_00000000_00000000_00000000_00000000
    requires |a| == |b| == 16 && |c| == 2 && Pow256(|a|) == bit && Pow256(|c|) == 0x1_0000
    requires LeNum(a) == 0x6f4620636968706172676f7470797243 && LeNum(b) == 0x6f7247206863726165736552206d7572 && LeNum(c) == 0x7075
    ensures Step(Step(Step(0, r, a), r, b), r, c) == 0x28d31b7caff946c77c8844335369d03a7
  {
    StepTo(0, r, a, 0x16f4620636968706172676f7470797243,
           0x2e0ffa647299a001224557735a7a109, 0x2c88c77849d64ae9147ddeb88e69c83fc);
    StepTo(0x2c88c77849d64ae9147ddeb88e69c83fc, r, b, 0x437febea505c820f2ad5150db0709f96e,
           0x8773264b431966e900dbd96edfe2158, 0x2d8adaf23b0337fa7cccfb4ea344b30de);
    StepTo(0x2d8adaf23b0337fa7cccfb4ea344b30de, r, c, 0x2d8adaf23b0337fa7cccfb4ea344ca153,
           0x5b6382283cff87793f9285521ab29e8, 0x28d31b7caff946c77c8844335369d03a7);
  }

  lemma AccumulateThree(r: nat, a: seq<bv8>, b: seq<bv8>, c: seq<bv8>)
    requires |a| == |b| == 16 && 0 < |c| <= 16
    ensures Accumulate(r, a + b + c) == Step(Step(Step(0, r, a), r, b), r, c)
  {
    assert [] + a == a;
    AccumulateBlock(r, [], a);
    AccumulateBlock(r, a, b);
    AccumulateBlock(r, a + b, c);
  }

  lemma Powers(n: nat, k: nat)
    requires n == 16 && k == 2
    ensures Pow256(n) == 0x1_00000000_00000000_00000000_00000000 && Pow256(k) == 0x1_0000
  {
    SixteenBytes(n);
    assert Pow256(1) == 0x100;
  }

  lemma AccumulatedOf(r: nat, a: seq<bv8>, b: seq<bv8>, c: seq<bv8>)
    requires r == 0x806d5400e52447c036d555408bed685 && |a| == |b| == 16 && |c| == 2
    requires LeNum(a) == 0x6f4620636968706172676f7470797243 && LeNum(b) == 0x6f7247206863726165736552206d7572 && LeNum(c) == 0x7075
    ensures Accumulate(r, a + b + c) == 0x28d31b7caff946c77c8844335369d03a7
  {
    Powers(|a|, |c|);
    ThreeSteps(r, a, b, c, Pow256(|a|));
    AccumulateThree(r, a, b, c);
  }

  lemma AccumulatedSlices(r: nat, m: seq<bv8>)
    requires r == 0x806d5400e52447c036d555408bed685 && |m| == 34
    requires LeNum(m[..16]) == 0x6f4620636968706172676f7470797243 && LeNum(m[16..32]) == 0x6f7247206863726165736552206d7572
    requires LeNum(m[32..]) == 0x7075
    ensures Accumulate(r, m) == 0x28d31b7caff946c77c8844335369d03a7
  {
    AccumulatedOf(r, m[..16], m[16..32], m[32..]);
    assert m[..16] + m[16..32] + m[32..] == m;
  }

  lemma Accumulated(r: nat)
    requires r == 0x806d5400e52447c036d555408bed685
    ensures Accumulate(r, Text()) == 0x28d31b7caff946c77c8844335369d03a7
  {
    FirstBlock();
    SecondBlock();
    LastBlock();
    AccumulatedSlices(r, Text());
  }

  lemma TagNumberFrom(k: nat, addend: nat, m: seq<bv8>, x: nat)
    requires addend == 0x1bf54941aff6bf4afdb20dfb8a800301 && Accumulate(k, m) == x == 0x28d31b7caff946c77c8844335369d03a7
    ensures TagNumber(k, addend, m) == 0xa927010caf8b2bc2c6365130c11d06a8
  {
    TagNumberIs(k, addend, m, x + addend);
  }

  /** The tag of the example, as a number. */
  lemma TagVector()
    ensures LeNum(Tag(Key(), Text())) == 0xa927010caf8b2bc2c6365130c11d06a8
  {
    KeyNumbers();
    Accumulated(KeyR(Key()));
    TagNumberFrom(KeyR(Key()), KeyS(Key()), Text(), Accumulate(KeyR(Key()), Text()));
    TagValue(KeyR(Key()), KeyS(Key()), Text(), Tag(Key(), Text()));
  }
}
