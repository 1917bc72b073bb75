/**
 The examples of section 2.3.2 of RFC 8439, and of eight rounds with a short key, computed by the specification
 quarter round by quarter round.
 */
module ChaCha20Vector {
  import opened ChaCha20Rounds
  import opened ChaCha20Spec
  import opened Words

  // ---------- a double round from its quarter rounds ----------

  lemma OneMore<T>(o: WordOps<T>, s: seq<T>, k: nat, t: seq<T>, x: nat, y: nat, z: nat, w: nat, q: (T, T, T, T))
    requires |s| == |t| == 16 && k < 8 && t == QuarterRounds(o, s, k)
    requires x == WordOf(k, 0) && y == WordOf(k, 1) && z == WordOf(k, 2) && w == WordOf(k, 3)
    requires QuarterRound(o, t[x], t[y], t[z], t[w]) == q
    ensures QuarterRounds(o, s, k + 1) == t[x := q.0][y := q.1][z := q.2][w := q.3]
  {
  }

  /** The four columns. */
  lemma Columns<T>(o: WordOps<T>, s: seq<T>, c0: (T, T, T, T), c1: (T, T, T, T), c2: (T, T, T, T), c3: (T, T, T, T), k: nat)
    requires |s| == 16 && k == 4
    requires QuarterRound(o, s[0], s[4], s[8], s[12]) == c0 && QuarterRound(o, s[1], s[5], s[9], s[13]) == c1
    requires QuarterRound(o, s[2], s[6], s[10], s[14]) == c2 && QuarterRound(o, s[3], s[7], s[11], s[15]) == c3
    ensures QuarterRounds(o, s, k)
         == [c0.0, c1.0, c2.0, c3.0, c0.1, c1.1, c2.1, c3.1, c0.2, c1.2, c2.2, c3.2, c0.3, c1.3, c2.3, c3.3]
  {
    OneMore(o, s, k - 4, s, 0, 4, 8, 12, c0);
    var s1 := s[0 := c0.0][4 := c0.1][8 := c0.2][12 := c0.3];
    OneMore(o, s, k - 3, s1, 1, 5, 9, 13, c1);
    var s2 := s1[1 := c1.0][5 := c1.1][9 := c1.2][13 := c1.3];
    OneMore(o, s, k - 2, s2, 2, 6, 10, 14, c2);
    var s3 := s2[2 := c2.0][6 := c2.1][10 := c2.2][14 := c2.3];
    OneMore(o, s, k - 1, s3, 3, 7, 11, 15, c3);
  }

  /** The four diagonals. */
  lemma Diagonals<T>(o: WordOps<T>, s: seq<T>, t: seq<T>,
                     d0: (T, T, T, T), d1: (T, T, T, T), d2: (T, T, T, T), d3: (T, T, T, T), k: nat)
    requires |s| == |t| == 16 && k == 8 && t == QuarterRounds(o, s, k - 4)
    requires QuarterRound(o, t[0], t[5], t[10], t[15]) == d0 && QuarterRound(o, t[1], t[6], t[11], t[12]) == d1
    requires QuarterRound(o, t[2], t[7], t[8], t[13]) == d2 && QuarterRound(o, t[3], t[4], t[9], t[14]) == d3
    ensures QuarterRounds(o, s, k)
         == [d0.0, d1.0, d2.0, d3.0, d3.1, d0.1, d1.1, d2.1, d2.2, d3.2, d0.2, d1.2, d1.3, d2.3, d3.3, d0.3]
  {
    OneMore(o, s, k - 4, t, 0, 5, 10, 15, d0);
    var t1 := t[0 := d0.0][5 := d0.1][10 := d0.2][15 := d0.3];
    OneMore(o, s, k - 3, t1, 1, 6, 11, 12, d1);
    var t2 := t1[1 := d1.0][6 := d1.1][11 := d1.2][12 := d1.3];
    OneMore(o, s, k - 2, t2, 2, 7, 8, 13, d2);
    var t3 := t2[2 := d2.0][7 := d2.1][8 := d2.2][13 := d2.3];
    OneMore(o, s, k - 1, t3, 3, 4, 9, 14, d3);
  }

  /** A double round from its eight quarter rounds. */
  lemma DoubleRoundIs<T>(o: WordOps<T>, s: seq<T>,
                         c0: (T, T, T, T), c1: (T, T, T, T), c2: (T, T, T, T), c3: (T, T, T, T),
                         d0: (T, T, T, T), d1: (T, T, T, T), d2: (T, T, T, T), d3: (T, T, T, T), k: nat)
    requires |s| == 16 && k == 8
    requires QuarterRound(o, s[0], s[4], s[8], s[12]) == c0 && QuarterRound(o, s[1], s[5], s[9], s[13]) == c1
    requires QuarterRound(o, s[2], s[6], s[10], s[14]) == c2 && QuarterRound(o, s[3], s[7], s[11], s[15]) == c3
    requires QuarterRound(o, c0.0, c1.1, c2.2, c3.3) == d0 && QuarterRound(o, c1.0, c2.1, c3.2, c0.3) == d1
    requires QuarterRound(o, c2.0, c3.1, c0.2, c1.3) == d2 && QuarterRound(o, c3.0, c0.1, c1.2, c2.3) == d3
    ensures QuarterRounds(o, s, k)
         == [d0.0, d1.0, d2.0, d3.0, d3.1, d0.1, d1.1, d2.1, d2.2, d3.2, d0.2, d1.2, d1.3, d2.3, d3.3, d0.3]
  {
    Columns(o, s, c0, c1, c2, c3, k - 4);
    Diagonals(o, s, QuarterRounds(o, s, k - 4), d0, d1, d2, d3, k);
  }

  /** The same for the words of a state one by one. */
  lemma Turn<T>(o: WordOps<T>, a0: T, a1: T, a2: T, a3: T, a4: T, a5: T, a6: T, a7: T,
                a8: T, a9: T, a10: T, a11: T, a12: T, a13: T, a14: T, a15: T,
                c0: (T, T, T, T), c1: (T, T, T, T), c2: (T, T, T, T), c3: (T, T, T, T),
                d0: (T, T, T, T), d1: (T, T, T, T), d2: (T, T, T, T), d3: (T, T, T, T))
    requires QuarterRound(o, a0, a4, a8, a12) == c0 && QuarterRound(o, a1, a5, a9, a13) == c1
    requires QuarterRound(o, a2, a6, a10, a14) == c2 && QuarterRound(o, a3, a7, a11, a15) == c3
    requires QuarterRound(o, c0.0, c1.1, c2.2, c3.3) == d0 && QuarterRound(o, c1.0, c2.1, c3.2, c0.3) == d1
    requires QuarterRound(o, c2.0, c3.1, c0.2, c1.3) == d2 && QuarterRound(o, c3.0, c0.1, c1.2, c2.3) == d3
    ensures QuarterRounds(o, [a0, a1, a2, a3, a4, a5, a6, a7, a8, a9, a10, a11, a12, a13, a14, a15], 8)
         == [d0.0, d1.0, d2.0, d3.0, d3.1, d0.1, d1.1, d2.1, d2.2, d3.2, d0.2, d1.2, d1.3, d2.3, d3.3, d0.3]
  {
    var s := [a0, a1, a2, a3, a4, a5, a6, a7, a8, a9, a10, a11, a12, a13, a14, a15];
    DoubleRoundIs(o, s, c0, c1, c2, c3, d0, d1, d2, d3, 8);
  }

  lemma Another<T>(o: WordOps<T>, s: seq<T>, n: nat)
    requires |s| == 16
    ensures DoubleRounds(o, s, n + 1) == QuarterRounds(o, DoubleRounds(o, s, n), 8)
  {
  }

  lemma Turn1(s: seq<bv32>, n: nat)
    requires |s| == 16
    requires DoubleRounds(Ops, s, n)
          == [0x61707865, 0x3320646e, 0x79622d32, 0x6b206574, 0x03020100, 0x07060504, 0x0b0a0908, 0x0f0e0d0c,
              0x13121110, 0x17161514, 0x1b1a1918, 0x1f1e1d1c, 0x00000001, 0x09000000, 0x4a000000, 0x00000000]
    ensures DoubleRounds(Ops, s, n + 1)
         == [0xcd52e917, 0x85ab03b4, 0xb3457395, 0xf96de7dd, 0xc4b7cd22, 0x5c2e187a, 0xc95eb461, 0x316c801a,
             0x7bf7d740, 0x7eddd644, 0xf1a1bdf5, 0x761246ca, 0x6b0d58a3, 0x6798471a, 0xd737f167, 0xf173888d]
  {
    Turn<bv32>(Ops,
         0x61707865, 0x3320646e, 0x79622d32, 0x6b206574, 0x03020100, 0x07060504, 0x0b0a0908, 0x0f0e0d0c,
         0x13121110, 0x17161514, 0x1b1a1918, 0x1f1e1d1c, 0x00000001, 0x09000000, 0x4a000000, 0x00000000,
         (0xabbaa25c, 0x3a465196, 0x6b3ca454, 0xdec62ed2), (0x1efa51ea, 0x1c7e64f6, 0x08eb14b1, 0x8862cc77),
         (0x7354fbdf, 0xb12fb628, 0xbf8a9ac9, 0x6e35b345), (0x83d2dc69, 0xf05b6976, 0xe444df3b, 0x52a647f1),
         (0xcd52e917, 0x5c2e187a, 0xf1a1bdf5, 0xf173888d), (0x85ab03b4, 0xc95eb461, 0x761246ca, 0x6b0d58a3),
         (0xb3457395, 0x316c801a, 0x7bf7d740, 0x6798471a), (0xf96de7dd, 0xc4b7cd22, 0x7eddd644, 0xd737f167));
    Another<bv32>(Ops, s, n);
  }

  lemma Turn2(s: seq<bv32>, n: nat)
    requires |s| == 16
    requires DoubleRounds(Ops, s, n)
          == [0xcd52e917, 0x85ab03b4, 0xb3457395, 0xf96de7dd, 0xc4b7cd22, 0x5c2e187a, 0xc95eb461, 0x316c801a,
              0x7bf7d740, 0x7eddd644, 0xf1a1bdf5, 0x761246ca, 0x6b0d58a3, 0x6798471a, 0xd737f167, 0xf173888d]
    ensures DoubleRounds(Ops, s, n + 1)
         == [0xcf1a7584, 0x048927ec, 0x54051fda, 0xc244ff28, 0x901d2f40, 0x7974b81c, 0x378dcfb4, 0xcd47fd0e,
             0x2dafb216, 0x27c89cd6, 0xcd3c9aa0, 0x79fc89c7, 0x10aef18d, 0x16218765, 0x68f76705, 0x04d6ee22]
  {
    Turn<bv32>(Ops,
         0xcd52e917, 0x85ab03b4, 0xb3457395, 0xf96de7dd, 0xc4b7cd22, 0x5c2e187a, 0xc95eb461, 0x316c801a,
         0x7bf7d740, 0x7eddd644, 0xf1a1bdf5, 0x761246ca, 0x6b0d58a3, 0x6798471a, 0xd737f167, 0xf173888d,
         (0xe3e1111b, 0xd65b5b5b, 0xe67aec54, 0x7be81c0d), (0xa6291491, 0xf56af099, 0xf7a52d82, 0x1d92d0fd),
         (0x5a82b80c, 0x4ccc8103, 0xdb470914, 0x13139f8c), (0x4500fd45, 0xc94d29e2, 0xdfb40f1d, 0x7a26ecaa),
         (0xcf1a7584, 0x7974b81c, 0xcd3c9aa0, 0x04d6ee22), (0x048927ec, 0x378dcfb4, 0x79fc89c7, 0x10aef18d),
         (0x54051fda, 0xcd47fd0e, 0x2dafb216, 0x16218765), (0xc244ff28, 0x901d2f40, 0x27c89cd6, 0x68f76705));
    Another<bv32>(Ops, s, n);
  }

  lemma Turn3(s: seq<bv32>, n: nat)
    requires |s| == 16
    requires DoubleRounds(Ops, s, n)
          == [0xcf1a7584, 0x048927ec, 0x54051fda, 0xc244ff28, 0x901d2f40, 0x7974b81c, 0x378dcfb4, 0xcd47fd0e,
              0x2dafb216, 0x27c89cd6, 0xcd3c9aa0, 0x79fc89c7, 0x10aef18d, 0x16218765, 0x68f76705, 0x04d6ee22]
    ensures DoubleRounds(Ops, s, n + 1)
         == [0x03a14032, 0x66b15927, 0x9d6b6b42, 0xb84c4109, 0xa7143ae0, 0xa09b33dd, 0xa5daaf88, 0x2fd91a73,
             0xc90c6b18, 0x5a202413, 0xc20e01b6, 0x72cd6b74, 0xba35d777, 0xb360f1bf, 0x8178315b, 0x2cd11b1a]
  {
    Turn<bv32>(Ops,
         0xcf1a7584, 0x048927ec, 0x54051fda, 0xc244ff28, 0x901d2f40, 0x7974b81c, 0x378dcfb4, 0xcd47fd0e,
         0x2dafb216, 0x27c89cd6, 0xcd3c9aa0, 0x79fc89c7, 0x10aef18d, 0x16218765, 0x68f76705, 0x04d6ee22,
         (0xa22695f2, 0x1ece4458, 0xf2d36da6, 0x6fda6bf7), (0xa908cf6c, 0xe82b726f, 0xf4dab980, 0x65a4b0ce),
         (0xe6ae05b2, 0x5a21ab90, 0x7baf5573, 0x25e6d76e), (0xfe0ff04b, 0x87698c64, 0xa78c270d, 0x1b7b11ec),
         (0x03a14032, 0xa09b33dd, 0xc20e01b6, 0x2cd11b1a), (0x66b15927, 0xa5daaf88, 0x72cd6b74, 0xba35d777),
         (0x9d6b6b42, 0x2fd91a73, 0xc90c6b18, 0xb360f1bf), (0xb84c4109, 0xa7143ae0, 0x5a202413, 0x8178315b));
    Another<bv32>(Ops, s, n);
  }

  lemma Turn4(s: seq<bv32>, n: nat)
    requires |s| == 16
    requires DoubleRounds(Ops, s, n)
          == [0x03a14032, 0x66b15927, 0x9d6b6b42, 0xb84c4109, 0xa7143ae0, 0xa09b33dd, 0xa5daaf88, 0x2fd91a73,
              0xc90c6b18, 0x5a202413, 0xc20e01b6, 0x72cd6b74, 0xba35d777, 0xb360f1bf, 0x8178315b, 0x2cd11b1a]
    ensures DoubleRounds(Ops, s, n + 1)
         == [0x9a2d3589, 0x0b23fc4e, 0x40af3b6b, 0xceea8144, 0x0a1bffc6, 0x5e5993f7, 0x9904c2e7, 0x0d334718,
             0xe46c6354, 0xc9503229, 0x04fef5aa, 0xf8933f72, 0x2687d476, 0x54e65231, 0x3594ffc5, 0x2b3bb2ca]
  {
    Turn<bv32>(Ops,
         0x03a14032, 0x66b15927, 0x9d6b6b42, 0xb84c4109, 0xa7143ae0, 0xa09b33dd, 0xa5daaf88, 0x2fd91a73,
         0xc90c6b18, 0x5a202413, 0xc20e01b6, 0x72cd6b74, 0xba35d777, 0xb360f1bf, 0x8178315b, 0x2cd11b1a,
         (0xfecd0838, 0xcedf6624, 0x1d8a33ea, 0xa818b852), (0x160ab468, 0xb11de6c4, 0x87dc1ca9, 0xb100446a),
         (0x9a0ddf4e, 0xbd7810ef, 0x89bd34a5, 0x9c1d70b1), (0xbac7154a, 0xd22b5643, 0x5505ef62, 0xa1d1befa),
         (0x9a2d3589, 0x5e5993f7, 0x04fef5aa, 0x2b3bb2ca), (0x0b23fc4e, 0x9904c2e7, 0xf8933f72, 0x2687d476),
         (0x40af3b6b, 0x0d334718, 0xe46c6354, 0x54e65231), (0xceea8144, 0x0a1bffc6, 0xc9503229, 0x3594ffc5));
    Another<bv32>(Ops, s, n);
  }

  lemma Turn5(s: seq<bv32>, n: nat)
    requires |s| == 16
    requires DoubleRounds(Ops, s, n)
          == [0x9a2d3589, 0x0b23fc4e, 0x40af3b6b, 0xceea8144, 0x0a1bffc6, 0x5e5993f7, 0x9904c2e7, 0x0d334718,
              0xe46c6354, 0xc9503229, 0x04fef5aa, 0xf8933f72, 0x2687d476, 0x54e65231, 0x3594ffc5, 0x2b3bb2ca]
    ensures DoubleRounds(Ops, s, n + 1)
         == [0xc53318c5, 0xca325d96, 0x7e7d11cb, 0x3404e2ca, 0x26d7cf73, 0x6088d379, 0xc0f0e9bd, 0xe310cdb9,
             0xae2ca8db, 0x42f67c72, 0x71669aca, 0x975c171d, 0x9e5ec228, 0x7d85a9f3, 0x201d0756, 0x63fa6953]
  {
    Turn<bv32>(Ops,
         0x9a2d3589, 0x0b23fc4e, 0x40af3b6b, 0xceea8144, 0x0a1bffc6, 0x5e5993f7, 0x9904c2e7, 0x0d334718,
         0xe46c6354, 0xc9503229, 0x04fef5aa, 0xf8933f72, 0x2687d476, 0x54e65231, 0x3594ffc5, 0x2b3bb2ca,
         (0x85e7824a, 0x1c133ea1, 0xa3a66a86, 0xde008464), (0x4940cd9e, 0xbba40b0f, 0xc0b4754f, 0x34f0058b),
         (0xfbe7684b, 0x9413992a, 0x771b4ecb, 0x70846cfa), (0x7335d03d, 0xa4ab2040, 0x165151a1, 0xa3271b09),
         (0xc53318c5, 0x6088d379, 0x71669aca, 0x63fa6953), (0xca325d96, 0xc0f0e9bd, 0x975c171d, 0x9e5ec228),
         (0x7e7d11cb, 0xe310cdb9, 0xae2ca8db, 0x7d85a9f3), (0x3404e2ca, 0x26d7cf73, 0x42f67c72, 0x201d0756));
    Another<bv32>(Ops, s, n);
  }

  lemma Turn6(s: seq<bv32>, n: nat)
    requires |s| == 16
    requires DoubleRounds(Ops, s, n)
          == [0xc53318c5, 0xca325d96, 0x7e7d11cb, 0x3404e2ca, 0x26d7cf73, 0x6088d379, 0xc0f0e9bd, 0xe310cdb9,
              0xae2ca8db, 0x42f67c72, 0x71669aca, 0x975c171d, 0x9e5ec228, 0x7d85a9f3, 0x201d0756, 0x63fa6953]
    ensures DoubleRounds(Ops, s, n + 1)
         == [0x04a3131a, 0x66176309, 0x0415bab1, 0x61b880a2, 0x36cc86c7, 0xbf8a4465, 0xf77dd720, 0xfc0bdc90,
             0x07d13aca, 0xeb0be9af, 0x61599491, 0x918512dc, 0x33b6686d, 0x795cc671, 0xc0049972, 0xa0a81bde]
  {
    Turn<bv32>(Ops,
         0xc53318c5, 0xca325d96, 0x7e7d11cb, 0x3404e2ca, 0x26d7cf73, 0x6088d379, 0xc0f0e9bd, 0xe310cdb9,
         0xae2ca8db, 0x42f67c72, 0x71669aca, 0x975c171d, 0x9e5ec228, 0x7d85a9f3, 0x201d0756, 0x63fa6953,
         (0x9950b826, 0x2121065a, 0x19078de2, 0x40ca72b3), (0xcac7ccc6, 0xc12bdadb, 0x178ecc02, 0x3b9bf852),
         (0x84a67673, 0xcae3acd1, 0xe6adbdb2, 0x78690378), (0xdb3109a6, 0x594616cb, 0x52a9d50e, 0xe17d4902),
         (0x04a3131a, 0xbf8a4465, 0x61599491, 0xa0a81bde), (0x66176309, 0xf77dd720, 0x918512dc, 0x33b6686d),
         (0x0415bab1, 0xfc0bdc90, 0x07d13aca, 0x795cc671), (0x61b880a2, 0x36cc86c7, 0xeb0be9af, 0xc0049972));
    Another<bv32>(Ops, s, n);
  }

  lemma Turn7(s: seq<bv32>, n: nat)
    requires |s| == 16
    requires DoubleRounds(Ops, s, n)
          == [0x04a3131a, 0x66176309, 0x0415bab1, 0x61b880a2, 0x36cc86c7, 0xbf8a4465, 0xf77dd720, 0xfc0bdc90,
              0x07d13aca, 0xeb0be9af, 0x61599491, 0x918512dc, 0x33b6686d, 0x795cc671, 0xc0049972, 0xa0a81bde]
    ensures DoubleRounds(Ops, s, n + 1)
         == [0x9b70f51f, 0x7ea8ac11, 0x21e54da9, 0xca393b2f, 0x93b08686, 0x6a4c50ae, 0x19212a5a, 0x9b032958,
             0xd839165e, 0x4c06e28a, 0xd3fde99e, 0x26acc13d, 0xa609f555, 0x2c246549, 0x95151853, 0x2c847a0d]
  {
    Turn<bv32>(Ops,
         0x04a3131a, 0x66176309, 0x0415bab1, 0x61b880a2, 0x36cc86c7, 0xbf8a4465, 0xf77dd720, 0xfc0bdc90,
         0x07d13aca, 0xeb0be9af, 0x61599491, 0x918512dc, 0x33b6686d, 0x795cc671, 0xc0049972, 0xa0a81bde,
         (0x57c5e6da, 0x8e85d82f, 0x434b4749, 0x49ee03a6), (0x35ce46a8, 0xb4819d06, 0x1d459c00, 0xd11a5554),
         (0x0c041bb9, 0xb63be200, 0x111cfe2c, 0xa7202e04), (0xfa91df79, 0xacd221e4, 0x55942604, 0x7d2215bc),
         (0x9b70f51f, 0x6a4c50ae, 0xd3fde99e, 0x2c847a0d), (0x7ea8ac11, 0x19212a5a, 0x26acc13d, 0xa609f555),
         (0x21e54da9, 0x9b032958, 0xd839165e, 0x2c246549), (0xca393b2f, 0x93b08686, 0x4c06e28a, 0x95151853));
    Another<bv32>(Ops, s, n);
  }

  lemma Turn8(s: seq<bv32>, n: nat)
    requires |s| == 16
    requires DoubleRounds(Ops, s, n)
          == [0x9b70f51f, 0x7ea8ac11, 0x21e54da9, 0xca393b2f, 0x93b08686, 0x6a4c50ae, 0x19212a5a, 0x9b032958,
              0xd839165e, 0x4c06e28a, 0xd3fde99e, 0x26acc13d, 0xa609f555, 0x2c246549, 0x95151853, 0x2c847a0d]
    ensures DoubleRounds(Ops, s, n + 1)
         == [0xca5c85dd, 0x93a4f90e, 0xd9f0df58, 0x26dd82dd, 0x982563f8, 0x712aa9ff, 0x279a61e8, 0x970f72bd,
             0x1c25931a, 0x5180bb10, 0x779c27e7, 0x54077e08, 0xa9b751fb, 0x382f3ce2, 0x8db1757d, 0xcc38080b]
  {
    Turn<bv32>(Ops,
         0x9b70f51f, 0x7ea8ac11, 0x21e54da9, 0xca393b2f, 0x93b08686, 0x6a4c50ae, 0x19212a5a, 0x9b032958,
         0xd839165e, 0x4c06e28a, 0xd3fde99e, 0x26acc13d, 0xa609f555, 0x2c246549, 0x95151853, 0x2c847a0d,
         (0xc0b18aee, 0xdeb54e9c, 0xa82d65d4, 0x4103c64e), (0x087445ba, 0x802c883b, 0x687f11eb, 0x82816a91),
         (0x36e52ad9, 0x06e86889, 0xe9d36207, 0xb584ca56), (0xa777426a, 0x3c002680, 0x4242ddae, 0xfd0bd2b9),
         (0xca5c85dd, 0x712aa9ff, 0x779c27e7, 0xcc38080b), (0x93a4f90e, 0x279a61e8, 0x54077e08, 0xa9b751fb),
         (0xd9f0df58, 0x970f72bd, 0x1c25931a, 0x382f3ce2), (0x26dd82dd, 0x982563f8, 0x5180bb10, 0x8db1757d));
    Another<bv32>(Ops, s, n);
  }

  lemma Turn9(s: seq<bv32>, n: nat)
    requires |s| == 16
    requires DoubleRounds(Ops, s, n)
          == [0xca5c85dd, 0x93a4f90e, 0xd9f0df58, 0x26dd82dd, 0x982563f8, 0x712aa9ff, 0x279a61e8, 0x970f72bd,
              0x1c25931a, 0x5180bb10, 0x779c27e7, 0x54077e08, 0xa9b751fb, 0x382f3ce2, 0x8db1757d, 0xcc38080b]
    ensures DoubleRounds(Ops, s, n + 1)
         == [0xb6b87de6, 0x9a016148, 0x93859815, 0x4915e6cc, 0xdc33c122, 0x98e18fa3, 0x5ffbe8fc, 0xf7154b8b,
             0x28c1fcb3, 0xc4b38f9d, 0x83e2f5d7, 0x7d24b98b, 0x21078b22, 0xb193e7a3, 0xb2f49389, 0x6cde6026]
  {
    Turn<bv32>(Ops,
         0xca5c85dd, 0x93a4f90e, 0xd9f0df58, 0x26dd82dd, 0x982563f8, 0x712aa9ff, 0x279a61e8, 0x970f72bd,
         0x1c25931a, 0x5180bb10, 0x779c27e7, 0x54077e08, 0xa9b751fb, 0x382f3ce2, 0x8db1757d, 0xcc38080b,
         (0x765c6e9c, 0x9046ecaa, 0x46fa091e, 0x72a5aace), (0x5ab09b11, 0x7b88d882, 0x5117e9b5, 0x5fa7f1c5),
         (0x3ee7da04, 0xb9b577dd, 0x862ff22b, 0xda563e0a), (0x37c31203, 0x156de7ed, 0xa3fcc7a6, 0x5263d7ca),
         (0xb6b87de6, 0x98e18fa3, 0x83e2f5d7, 0x6cde6026), (0x9a016148, 0x5ffbe8fc, 0x7d24b98b, 0x21078b22),
         (0x93859815, 0xf7154b8b, 0x28c1fcb3, 0xb193e7a3), (0x4915e6cc, 0xdc33c122, 0xc4b38f9d, 0xb2f49389));
    Another<bv32>(Ops, s, n);
  }

  lemma Turn10(s: seq<bv32>, n: nat)
    requires |s| == 16
    requires DoubleRounds(Ops, s, n)
          == [0xb6b87de6, 0x9a016148, 0x93859815, 0x4915e6cc, 0xdc33c122, 0x98e18fa3, 0x5ffbe8fc, 0xf7154b8b,
              0x28c1fcb3, 0xc4b38f9d, 0x83e2f5d7, 0x7d24b98b, 0x21078b22, 0xb193e7a3, 0xb2f49389, 0x6cde6026]
    ensures DoubleRounds(Ops, s, n + 1)
         == [0x837778ab, 0xe238d763, 0xa67ae21e, 0x5950bb2f, 0xc4f2d0c7, 0xfc62bb2f, 0x8fa018fc, 0x3f5ec7b7,
             0x335271c2, 0xf29489f3, 0xeabda8fc, 0x82e46ebd, 0xd19c12b4, 0xb04e16de, 0x9e83d0cb, 0x4e3c50a2]
  {
    Turn<bv32>(Ops,
         0xb6b87de6, 0x9a016148, 0x93859815, 0x4915e6cc, 0xdc33c122, 0x98e18fa3, 0x5ffbe8fc, 0xf7154b8b,
         0x28c1fcb3, 0xc4b38f9d, 0x83e2f5d7, 0x7d24b98b, 0x21078b22, 0xb193e7a3, 0xb2f49389, 0x6cde6026,
         (0x8a07ff15, 0x913768fe, 0x0a39aedc, 0x2d4cfe3e), (0x0cadc51c, 0x442a0c0c, 0xc1428029, 0xe5466d1b),
         (0x017c8da9, 0x598fe3bb, 0x7b48135f, 0xe4ccdc13), (0x4afbe5df, 0x47d18828, 0x5a5f1098, 0x8ac92a18),
         (0x837778ab, 0xfc62bb2f, 0xeabda8fc, 0x4e3c50a2), (0xe238d763, 0x8fa018fc, 0x82e46ebd, 0xd19c12b4),
         (0xa67ae21e, 0x3f5ec7b7, 0x335271c2, 0xb04e16de), (0x5950bb2f, 0xc4f2d0c7, 0xf29489f3, 0x9e83d0cb));
    Another<bv32>(Ops, s, n);
  }

  lemma ShortTurn1(s: seq<bv32>, n: nat)
    requires |s| == 16
    requires DoubleRounds(Ops, s, n)
          == [0x61707865, 0x3120646e, 0x79622d36, 0x6b206574, 0xb1c16ec4, 0x78a8e88c, 0xe7375a72, 0x35b7df80,
              0xb1c16ec4, 0x78a8e88c, 0xe7375a72, 0x35b7df80, 0x00000000, 0x00000000, 0xd531da1a, 0x218268cf]
    ensures DoubleRounds(Ops, s, n + 1)
         == [0xae1fc90d, 0x5c27f9a3, 0xcad0e0e0, 0xffccbb25, 0x14c58761, 0x1ac673ee, 0xd52b1412, 0x11dd6bc1,
             0x3dfee525, 0x3dc6ffef, 0x6b462938, 0x43ef66c0, 0xa901ab1e, 0x13665249, 0xe0b65cf4, 0xf1c9caef]
  {
    Turn<bv32>(Ops,
         0x61707865, 0x3120646e, 0x79622d36, 0x6b206574, 0xb1c16ec4, 0x78a8e88c, 0xe7375a72, 0x35b7df80,
         0xb1c16ec4, 0x78a8e88c, 0xe7375a72, 0x35b7df80, 0x00000000, 0x00000000, 0xd531da1a, 0x218268cf,
         (0xd224f9bb, 0x130f5c0c, 0xa6d50c2a, 0x0dea8a35), (0x6176e8ca, 0x24872973, 0x51e49582, 0x8c41032d),
         (0x354011e5, 0x946bdff1, 0x378e5d82, 0xf2a44d68), (0xeccdea38, 0xd5b36f09, 0x585ec39a, 0xf66b62c0),
         (0xae1fc90d, 0x1ac673ee, 0x6b462938, 0xf1c9caef), (0x5c27f9a3, 0xd52b1412, 0x43ef66c0, 0xa901ab1e),
         (0xcad0e0e0, 0x11dd6bc1, 0x3dfee525, 0x13665249), (0xffccbb25, 0x14c58761, 0x3dc6ffef, 0xe0b65cf4));
    Another<bv32>(Ops, s, n);
  }

  lemma ShortTurn2(s: seq<bv32>, n: nat)
    requires |s| == 16
    requires DoubleRounds(Ops, s, n)
          == [0xae1fc90d, 0x5c27f9a3, 0xcad0e0e0, 0xffccbb25, 0x14c58761, 0x1ac673ee, 0xd52b1412, 0x11dd6bc1,
              0x3dfee525, 0x3dc6ffef, 0x6b462938, 0x43ef66c0, 0xa901ab1e, 0x13665249, 0xe0b65cf4, 0xf1c9caef]
    ensures DoubleRounds(Ops, s, n + 1)
         == [0x34e28050, 0x8169dbe5, 0xbf77327d, 0xe620ae87, 0x24edddfe, 0x4a545d74, 0x4f7479a8, 0xe7134b09,
             0xff0702a2, 0x8ca167e8, 0xe77717eb, 0xffae407a, 0xbe32641e, 0x0960b23f, 0xa718be01, 0xa5d5045f]
  {
    Turn<bv32>(Ops,
         0xae1fc90d, 0x5c27f9a3, 0xcad0e0e0, 0xffccbb25, 0x14c58761, 0x1ac673ee, 0xd52b1412, 0x11dd6bc1,
         0x3dfee525, 0x3dc6ffef, 0x6b462938, 0x43ef66c0, 0xa901ab1e, 0x13665249, 0xe0b65cf4, 0xf1c9caef,
         (0x704bd348, 0x20bfa76c, 0x7527fd94, 0x3bb8ac8b), (0x08580406, 0xb4b2edb7, 0xfe00f3ae, 0x80618e37),
         (0x1bc57158, 0xc9e12f56, 0xd65abe38, 0xc30e15b3), (0x54784ac8, 0xb6e89cf1, 0xa1a3f2db, 0x71aaabb8),
         (0x34e28050, 0x4a545d74, 0xe77717eb, 0xa5d5045f), (0x8169dbe5, 0x4f7479a8, 0xffae407a, 0xbe32641e),
         (0xbf77327d, 0xe7134b09, 0xff0702a2, 0x0960b23f), (0xe620ae87, 0x24edddfe, 0x8ca167e8, 0xa718be01));
    Another<bv32>(Ops, s, n);
  }

  lemma ShortTurn3(s: seq<bv32>, n: nat)
    requires |s| == 16
    requires DoubleRounds(Ops, s, n)
          == [0x34e28050, 0x8169dbe5, 0xbf77327d, 0xe620ae87, 0x24edddfe, 0x4a545d74, 0x4f7479a8, 0xe7134b09,
              0xff0702a2, 0x8ca167e8, 0xe77717eb, 0xffae407a, 0xbe32641e, 0x0960b23f, 0xa718be01, 0xa5d5045f]
    ensures DoubleRounds(Ops, s, n + 1)
         == [0xcbb09f06, 0x0fc75480, 0x88eea270, 0x712334a3, 0x95d706a8, 0xbcaa5914, 0x15f2f065, 0xed5c8d75,
             0x315d3385, 0x40974ef8, 0x7709f5b7, 0xc7c34c4d, 0xd34db96e, 0x27538b3f, 0x953c7b42, 0xf767dae5]
  {
    Turn<bv32>(Ops,
         0x34e28050, 0x8169dbe5, 0xbf77327d, 0xe620ae87, 0x24edddfe, 0x4a545d74, 0x4f7479a8, 0xe7134b09,
         0xff0702a2, 0x8ca167e8, 0xe77717eb, 0xffae407a, 0xbe32641e, 0x0960b23f, 0xa718be01, 0xa5d5045f,
         (0xfd480029, 0xa40bc878, 0x523fb64b, 0x18e7cbc7), (0x93395e7e, 0x6ff7fdd8, 0x77a4cade, 0x5f9ca018),
         (0x0a731793, 0x6ea54c55, 0x515a21f6, 0x57be6018), (0xbb5a8b36, 0xa3f4003e, 0x936179a6, 0x95e3d046),
         (0xcbb09f06, 0xbcaa5914, 0x7709f5b7, 0xf767dae5), (0x0fc75480, 0x15f2f065, 0xc7c34c4d, 0xd34db96e),
         (0x88eea270, 0xed5c8d75, 0x315d3385, 0x27538b3f), (0x712334a3, 0x95d706a8, 0x40974ef8, 0x953c7b42));
    Another<bv32>(Ops, s, n);
  }

  lemma ShortTurn4(s: seq<bv32>, n: nat)
    requires |s| == 16
    requires DoubleRounds(Ops, s, n)
          == [0xcbb09f06, 0x0fc75480, 0x88eea270, 0x712334a3, 0x95d706a8, 0xbcaa5914, 0x15f2f065, 0xed5c8d75,
              0x315d3385, 0x40974ef8, 0x7709f5b7, 0xc7c34c4d, 0xd34db96e, 0x27538b3f, 0x953c7b42, 0xf767dae5]
    ensures DoubleRounds(Ops, s, n + 1)
         == [0xa6910f05, 0x60473b17, 0x8c80c5e2, 0xfd4a406e, 0xae998062, 0x4f812818, 0x71c91d62, 0x850fd87c,
             0x2e9ac11c, 0x4316bd78, 0x65c9f978, 0x8a4f4258, 0xe17c1caa, 0xf2787d1b, 0x8ba131bb, 0x72a3545c]
  {
    Turn<bv32>(Ops,
         0xcbb09f06, 0x0fc75480, 0x88eea270, 0x712334a3, 0x95d706a8, 0xbcaa5914, 0x15f2f065, 0xed5c8d75,
         0x315d3385, 0x40974ef8, 0x7709f5b7, 0xc7c34c4d, 0xd34db96e, 0x27538b3f, 0x953c7b42, 0xf767dae5,
         (0x0f96236a, 0x50fdef05, 0xa4af8662, 0x5691a013), (0x62a29b52, 0x41a3f073, 0x70b3aa5e, 0x09707044),
         (0xde00aa2a, 0xaef7cf63, 0xf842f8cb, 0x97a1f737), (0x2600c2f1, 0xd6ef3d0c, 0xde2cdea3, 0xfd6be93e),
         (0xa6910f05, 0x4f812818, 0x65c9f978, 0x72a3545c), (0x60473b17, 0x71c91d62, 0x8a4f4258, 0xe17c1caa),
         (0x8c80c5e2, 0x850fd87c, 0x2e9ac11c, 0xf2787d1b), (0xfd4a406e, 0xae998062, 0x4316bd78, 0x8ba131bb));
    Another<bv32>(Ops, s, n);
  }

  lemma Mixed(s: seq<bv32>, n: nat)
    requires n == 10
    requires s == [0x61707865, 0x3320646e, 0x79622d32, 0x6b206574, 0x03020100, 0x07060504, 0x0b0a0908, 0x0f0e0d0c,
                   0x13121110, 0x17161514, 0x1b1a1918, 0x1f1e1d1c, 0x00000001, 0x09000000, 0x4a000000, 0x00000000]
    ensures DoubleRounds(Ops, s, n)
         == [0x837778ab, 0xe238d763, 0xa67ae21e, 0x5950bb2f, 0xc4f2d0c7, 0xfc62bb2f, 0x8fa018fc, 0x3f5ec7b7,
             0x335271c2, 0xf29489f3, 0xeabda8fc, 0x82e46ebd, 0xd19c12b4, 0xb04e16de, 0x9e83d0cb, 0x4e3c50a2]
  {
    assert DoubleRounds(Ops, s, 0) == s;
    Turn1(s, 0);
    Turn2(s, 1);
    Turn3(s, 2);
    Turn4(s, 3);
    Turn5(s, 4);
    Turn6(s, 5);
    Turn7(s, 6);
    Turn8(s, 7);
    Turn9(s, 8);
    Turn10(s, 9);
  }

  lemma ShortMixed(s: seq<bv32>, n: nat)
    requires n == 4
    requires s == [0x61707865, 0x3120646e, 0x79622d36, 0x6b206574, 0xb1c16ec4, 0x78a8e88c, 0xe7375a72, 0x35b7df80,
                   0xb1c16ec4, 0x78a8e88c, 0xe7375a72, 0x35b7df80, 0x00000000, 0x00000000, 0xd531da1a, 0x218268cf]
    ensures DoubleRounds(Ops, s, n)
         == [0xa6910f05, 0x60473b17, 0x8c80c5e2, 0xfd4a406e, 0xae998062, 0x4f812818, 0x71c91d62, 0x850fd87c,
             0x2e9ac11c, 0x4316bd78, 0x65c9f978, 0x8a4f4258, 0xe17c1caa, 0xf2787d1b, 0x8ba131bb, 0x72a3545c]
  {
    assert DoubleRounds(Ops, s, 0) == s;
    ShortTurn1(s, 0);
    ShortTurn2(s, 1);
    ShortTurn3(s, 2);
    ShortTurn4(s, 3);
  }

  lemma Sums<T>(o: WordOps<T>, s: seq<T>, rounds: nat, n: nat, t: seq<T>)
    requires |s| == 16 && rounds / 2 == n && t == DoubleRounds(o, s, n)
    ensures BlockWords(o, s, rounds)
         == [o.add(t[0], s[0]), o.add(t[1], s[1]), o.add(t[2], s[2]), o.add(t[3], s[3]),
             o.add(t[4], s[4]), o.add(t[5], s[5]), o.add(t[6], s[6]), o.add(t[7], s[7]),
             o.add(t[8], s[8]), o.add(t[9], s[9]), o.add(t[10], s[10]), o.add(t[11], s[11]),
             o.add(t[12], s[12]), o.add(t[13], s[13]), o.add(t[14], s[14]), o.add(t[15], s[15])]
  {
  }

  lemma FourWords(s: seq<bv8>)
    requires |s| == 16
    ensures Load(s)
         == [LittleEndian(s[0], s[1], s[2], s[3]), LittleEndian(s[4], s[5], s[6], s[7]),
            LittleEndian(s[8], s[9], s[10], s[11]), LittleEndian(s[12], s[13], s[14], s[15])]
  {
  }

  lemma LoadBoth(s: seq<bv8>, t: seq<bv8>)
    requires |s| % 4 == 0 && |t| % 4 == 0
    ensures Load(s + t) == Load(s) + Load(t)
  {
  }

  lemma ThreeWords(s: seq<bv8>)
    requires |s| == 12
    ensures Load(s)
         == [LittleEndian(s[0], s[1], s[2], s[3]), LittleEndian(s[4], s[5], s[6], s[7]),
            LittleEndian(s[8], s[9], s[10], s[11])]
  {
  }

  lemma LowHalf(key: seq<bv8>)
    requires key == [0x00, 0x01, 0x02, 0x03, 0x04, 0x05, 0x06, 0x07, 0x08, 0x09, 0x0a, 0x0b, 0x0c, 0x0d, 0x0e, 0x0f]
    ensures Load(key) == [0x03020100, 0x07060504, 0x0b0a0908, 0x0f0e0d0c]
  {
    FourWords(key);
  }

  lemma HighHalf(key: seq<bv8>)
    requires key == [0x10, 0x11, 0x12, 0x13, 0x14, 0x15, 0x16, 0x17, 0x18, 0x19, 0x1a, 0x1b, 0x1c, 0x1d, 0x1e, 0x1f]
    ensures Load(key) == [0x13121110, 0x17161514, 0x1b1a1918, 0x1f1e1d1c]
  {
    FourWords(key);
  }

  lemma NonceBytes()
    ensures LittleEndian(0x00, 0x00, 0x00, 0x09) == 0x09000000
    ensures LittleEndian(0x00, 0x00, 0x00, 0x4a) == 0x4a000000
    ensures LittleEndian(0x00, 0x00, 0x00, 0x00) == 0x00000000
  {
  }

  lemma TwoWords(s: seq<bv8>)
    requires |s| == 8
    ensures Load(s)
         == [LittleEndian(s[0], s[1], s[2], s[3]), LittleEndian(s[4], s[5], s[6], s[7])]
  {
  }

  lemma ShortKeyBytes()
    ensures LittleEndian(0xc4, 0x6e, 0xc1, 0xb1) == 0xb1c16ec4
    ensures LittleEndian(0x8c, 0xe8, 0xa8, 0x78) == 0x78a8e88c
    ensures LittleEndian(0x72, 0x5a, 0x37, 0xe7) == 0xe7375a72
    ensures LittleEndian(0x80, 0xdf, 0xb7, 0x35) == 0x35b7df80
    ensures LittleEndian(0x1a, 0xda, 0x31, 0xd5) == 0xd531da1a
    ensures LittleEndian(0xcf, 0x68, 0x82, 0x21) == 0x218268cf
  {
  }

  lemma LongKey(low: seq<bv8>, high: seq<bv8>)
    requires |low| == |high| == 16
    ensures KeyWords(low + high) == SIGMA + (Load(low) + Load(high))
  {
    LoadBoth(low, high);
  }

  lemma WordsInRow(a: seq<bv32>, b: seq<bv32>, c: seq<bv32>)
    requires |a| == |b| == |c| == 4
    ensures a + (b + c) == [a[0], a[1], a[2], a[3], b[0], b[1], b[2], b[3], c[0], c[1], c[2], c[3]]
  {
  }

  lemma KeyState(low: seq<bv8>, high: seq<bv8>)
    requires low == [0x00, 0x01, 0x02, 0x03, 0x04, 0x05, 0x06, 0x07, 0x08, 0x09, 0x0a, 0x0b, 0x0c, 0x0d, 0x0e, 0x0f]
    requires high == [0x10, 0x11, 0x12, 0x13, 0x14, 0x15, 0x16, 0x17, 0x18, 0x19, 0x1a, 0x1b, 0x1c, 0x1d, 0x1e, 0x1f]
    ensures KeyWords(low + high)
         == [0x61707865, 0x3320646e, 0x79622d32, 0x6b206574,
             0x03020100, 0x07060504, 0x0b0a0908, 0x0f0e0d0c, 0x13121110, 0x17161514, 0x1b1a1918, 0x1f1e1d1c]
  {
    LongKey(low, high);
    LowHalf(low);
    HighHalf(high);
    WordsInRow(SIGMA, Load(low), Load(high));
  }

  lemma NonceState(nonce: seq<bv8>)
    requires nonce == [0x00, 0x00, 0x00, 0x09, 0x00, 0x00, 0x00, 0x4a, 0x00, 0x00, 0x00, 0x00]
    ensures Load(nonce) == [0x09000000, 0x4a000000, 0x00000000]
  {
    ThreeWords(nonce);
    NonceBytes();
  }

  lemma ShortStateWords(key: seq<bv8>, nonce: seq<bv8>)
    requires key == [0xc4, 0x6e, 0xc1, 0xb1, 0x8c, 0xe8, 0xa8, 0x78, 0x72, 0x5a, 0x37, 0xe7, 0x80, 0xdf, 0xb7, 0x35]
    requires nonce == [0x1a, 0xda, 0x31, 0xd5, 0xcf, 0x68, 0x82, 0x21]
    ensures KeyWords(key) + IvWords(nonce)
         == [0x61707865, 0x3120646e, 0x79622d36, 0x6b206574, 0xb1c16ec4, 0x78a8e88c, 0xe7375a72, 0x35b7df80,
             0xb1c16ec4, 0x78a8e88c, 0xe7375a72, 0x35b7df80, 0x00000000, 0x00000000, 0xd531da1a, 0x218268cf]
  {
    ShortKeyBytes();
    FourWords(key);
    TwoWords(nonce);
  }

  /** The first state has the counter 0, the next one 1. */
  lemma FirstCounter(key: seq<bv32>, nonce: seq<bv32>)
    requires |key| == 12 && |nonce| == 3
    ensures Next(key + ([0] + nonce)) == key + [1] + nonce
  {
  }

  /** Section 2.3.2 of RFC 8439: the second block of a key and a nonce, whose counter is 1. */
  lemma BlockVector(low: seq<bv8>, high: seq<bv8>, nonce: seq<bv8>)
    requires low == [0x00, 0x01, 0x02, 0x03, 0x04, 0x05, 0x06, 0x07, 0x08, 0x09, 0x0a, 0x0b, 0x0c, 0x0d, 0x0e, 0x0f]
    requires high == [0x10, 0x11, 0x12, 0x13, 0x14, 0x15, 0x16, 0x17, 0x18, 0x19, 0x1a, 0x1b, 0x1c, 0x1d, 0x1e, 0x1f]
    requires nonce == [0x00, 0x00, 0x00, 0x09, 0x00, 0x00, 0x00, 0x4a, 0x00, 0x00, 0x00, 0x00]
    ensures Next(KeyWords(low + high) + IvWords(nonce)) == KeyWords(low + high) + [1] + Load(nonce)
    ensures Block(KeyWords(low + high) + [1] + Load(nonce), 20)
         == [0xe4e7f110, 0x15593bd1, 0x1fdd0f50, 0xc47120a3, 0xc7f4d1c7, 0x0368c033, 0x9aaa2204, 0x4e6cd4c3,
             0x466482d2, 0x09aa9f07, 0x05d7c214, 0xa2028bd9, 0xd19c12b5, 0xb94e16de, 0xe883d0cb, 0x4e3c50a2]
  {
    var s := KeyWords(low + high) + [1] + Load(nonce);
    FirstCounter(KeyWords(low + high), Load(nonce));
    KeyState(low, high);
    NonceState(nonce);
    Mixed(s, 10);
    Sums<bv32>(Ops, s, 20, 10, DoubleRounds(Ops, s, 10));
  }

  /** Eight rounds for a key of 16 bytes and a nonce of 8. */
  lemma ShortKeyVector(key: seq<bv8>, nonce: seq<bv8>)
    requires key == [0xc4, 0x6e, 0xc1, 0xb1, 0x8c, 0xe8, 0xa8, 0x78, 0x72, 0x5a, 0x37, 0xe7, 0x80, 0xdf, 0xb7, 0x35]
    requires nonce == [0x1a, 0xda, 0x31, 0xd5, 0xcf, 0x68, 0x82, 0x21]
    ensures Block(KeyWords(key) + IvWords(nonce), 8)
         == [0x0801876a, 0x91679f85, 0x05e2f318, 0x686aa5e2, 0x605aef26, 0xc82a10a4, 0x590077d4, 0xbac7b7fc,
             0xe05c2fe0, 0xbbbfa604, 0x4d0153ea, 0xc00721d8, 0xe17c1caa, 0xf2787d1b, 0x60d30bd5, 0x9425bd2b]
  {
    var s := KeyWords(key) + IvWords(nonce);
    ShortStateWords(key, nonce);
    ShortMixed(s, 4);
    Sums<bv32>(Ops, s, 8, 4, DoubleRounds(Ops, s, 4));
  }
}
