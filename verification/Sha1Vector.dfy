/** The compression of the padded "abc" with SHA-1, computed by the specification round by round. */
module Sha1Vector {
  import opened Sha1Rounds
  import ShaSpec

  // ---------- the schedule ----------

  /** 16 words of the schedule. */
  function Words<T>(o: Ops1<T>, m: seq<T>, t: nat): (ws: seq<T>)
    requires |m| == 16
    ensures |ws| == 16
  {
    [Schedule(o, m, t + 0), Schedule(o, m, t + 1), Schedule(o, m, t + 2), Schedule(o, m, t + 3),
     Schedule(o, m, t + 4), Schedule(o, m, t + 5), Schedule(o, m, t + 6), Schedule(o, m, t + 7),
     Schedule(o, m, t + 8), Schedule(o, m, t + 9), Schedule(o, m, t + 10), Schedule(o, m, t + 11),
     Schedule(o, m, t + 12), Schedule(o, m, t + 13), Schedule(o, m, t + 14), Schedule(o, m, t + 15)]
  }

  function NextWord<T>(o: Ops1<T>, w3: T, w8: T, w14: T, w16: T): T {
    o.rol1(o.xor(o.xor(o.xor(w3, w8), w14), w16))
  }

  lemma ScheduleIs<T>(o: Ops1<T>, m: seq<T>, t: nat, w3: T, w8: T, w14: T, w16: T)
    requires |m| == 16 && t >= 16
    requires Schedule(o, m, t - 3) == w3 && Schedule(o, m, t - 8) == w8
    requires Schedule(o, m, t - 14) == w14 && Schedule(o, m, t - 16) == w16
    ensures Schedule(o, m, t) == NextWord(o, w3, w8, w14, w16)
  {
  }

  /** The next 16 words. */
  lemma NextWords<T>(o: Ops1<T>, m: seq<T>, t: nat,
                     w0: T, w1: T, w2: T, w3: T, w4: T, w5: T, w6: T, w7: T,
                     w8: T, w9: T, w10: T, w11: T, w12: T, w13: T, w14: T, w15: T,
                     v0: T, v1: T, v2: T, v3: T, v4: T, v5: T, v6: T, v7: T,
                     v8: T, v9: T, v10: T, v11: T, v12: T, v13: T, v14: T, v15: T)
    requires |m| == 16 && Words(o, m, t) == [w0, w1, w2, w3, w4, w5, w6, w7, w8, w9, w10, w11, w12, w13, w14, w15]
    requires NextWord(o, w13, w8, w2, w0) == v0 && NextWord(o, w14, w9, w3, w1) == v1
    requires NextWord(o, w15, w10, w4, w2) == v2 && NextWord(o, v0, w11, w5, w3) == v3
    requires NextWord(o, v1, w12, w6, w4) == v4 && NextWord(o, v2, w13, w7, w5) == v5
    requires NextWord(o, v3, w14, w8, w6) == v6 && NextWord(o, v4, w15, w9, w7) == v7
    requires NextWord(o, v5, v0, w10, w8) == v8 && NextWord(o, v6, v1, w11, w9) == v9
    requires NextWord(o, v7, v2, w12, w10) == v10 && NextWord(o, v8, v3, w13, w11) == v11
    requires NextWord(o, v9, v4, w14, w12) == v12 && NextWord(o, v10, v5, w15, w13) == v13
    requires NextWord(o, v11, v6, v0, w14) == v14 && NextWord(o, v12, v7, v1, w15) == v15
    ensures Words(o, m, t + 16) == [v0, v1, v2, v3, v4, v5, v6, v7, v8, v9, v10, v11, v12, v13, v14, v15]
  {
    ScheduleIs(o, m, t + 16, w13, w8, w2, w0);
    ScheduleIs(o, m, t + 17, w14, w9, w3, w1);
    ScheduleIs(o, m, t + 18, w15, w10, w4, w2);
    ScheduleIs(o, m, t + 19, v0, w11, w5, w3);
    ScheduleIs(o, m, t + 20, v1, w12, w6, w4);
    ScheduleIs(o, m, t + 21, v2, w13, w7, w5);
    ScheduleIs(o, m, t + 22, v3, w14, w8, w6);
    ScheduleIs(o, m, t + 23, v4, w15, w9, w7);
    ScheduleIs(o, m, t + 24, v5, v0, w10, w8);
    ScheduleIs(o, m, t + 25, v6, v1, w11, w9);
    ScheduleIs(o, m, t + 26, v7, v2, w12, w10);
    ScheduleIs(o, m, t + 27, v8, v3, w13, w11);
    ScheduleIs(o, m, t + 28, v9, v4, w14, w12);
    ScheduleIs(o, m, t + 29, v10, v5, w15, w13);
    ScheduleIs(o, m, t + 30, v11, v6, v0, w14);
    ScheduleIs(o, m, t + 31, v12, v7, v1, w15);
  }

  lemma WordsFrom16(m: seq<bv32>, t: nat)
    requires |m| == 16 && t == 0
    requires Words(ShaSpec.Ops1(), m, t)
          == [0x61626380, 0x00000000, 0x00000000, 0x00000000, 0x00000000, 0x00000000, 0x00000000, 0x00000000,
              0x00000000, 0x00000000, 0x00000000, 0x00000000, 0x00000000, 0x00000000, 0x00000000, 0x00000018]
    ensures Words(ShaSpec.Ops1(), m, t + 16)
         == [0xc2c4c700, 0x00000000, 0x00000030, 0x85898e01, 0x00000000, 0x00000060, 0x0b131c03, 0x00000030,
             0x85898ec1, 0x16263806, 0x00000000, 0x00000180, 0x2c4c700c, 0x000000f0, 0x93afb507, 0x5898e048]
  {
    NextWords<bv32>(ShaSpec.Ops1(), m, t,
                    0x61626380, 0x00000000, 0x00000000, 0x00000000, 0x00000000, 0x00000000, 0x00000000, 0x00000000,
                    0x00000000, 0x00000000, 0x00000000, 0x00000000, 0x00000000, 0x00000000, 0x00000000, 0x00000018,
                    0xc2c4c700, 0x00000000, 0x00000030, 0x85898e01, 0x00000000, 0x00000060, 0x0b131c03, 0x00000030,
                    0x85898ec1, 0x16263806, 0x00000000, 0x00000180, 0x2c4c700c, 0x000000f0, 0x93afb507, 0x5898e048);
  }

  lemma WordsFrom32(m: seq<bv32>, t: nat)
    requires |m| == 16 && t == 16
    requires Words(ShaSpec.Ops1(), m, t)
          == [0xc2c4c700, 0x00000000, 0x00000030, 0x85898e01, 0x00000000, 0x00000060, 0x0b131c03, 0x00000030,
              0x85898ec1, 0x16263806, 0x00000000, 0x00000180, 0x2c4c700c, 0x000000f0, 0x93afb507, 0x5898e048]
    ensures Words(ShaSpec.Ops1(), m, t + 16)
         == [0x8e9a9202, 0x00000600, 0xb131c0f0, 0x16263bc6, 0x4ebed41e, 0x626380a1, 0x16263806, 0x000018c0,
             0xd2e138c4, 0x00000f00, 0x3afb5079, 0x898e04e5, 0xe2ba3c2b, 0x000060c0, 0x053a37cd, 0x74458547]
  {
    NextWords<bv32>(ShaSpec.Ops1(), m, t,
                    0xc2c4c700, 0x00000000, 0x00000030, 0x85898e01, 0x00000000, 0x00000060, 0x0b131c03, 0x00000030,
                    0x85898ec1, 0x16263806, 0x00000000, 0x00000180, 0x2c4c700c, 0x000000f0, 0x93afb507, 0x5898e048,
                    0x8e9a9202, 0x00000600, 0xb131c0f0, 0x16263bc6, 0x4ebed41e, 0x626380a1, 0x16263806, 0x000018c0,
                    0xd2e138c4, 0x00000f00, 0x3afb5079, 0x898e04e5, 0xe2ba3c2b, 0x000060c0, 0x053a37cd, 0x74458547);
  }

  lemma WordsFrom48(m: seq<bv32>, t: nat)
    requires |m| == 16 && t == 32
    requires Words(ShaSpec.Ops1(), m, t)
          == [0x8e9a9202, 0x00000600, 0xb131c0f0, 0x16263bc6, 0x4ebed41e, 0x626380a1, 0x16263806, 0x000018c0,
              0xd2e138c4, 0x00000f00, 0x3afb5079, 0x898e04e5, 0xe2ba3c2b, 0x000060c0, 0x053a37cd, 0x74458547]
    ensures Words(ShaSpec.Ops1(), m, t + 16)
         == [0xda9415ed, 0x26380a16, 0x626383a1, 0x4ebf54de, 0x3835b44b, 0x0000f600, 0x1e84c7a3, 0x98e04d98,
             0x651d16a0, 0x62658ca1, 0x458544d6, 0x44584cb7, 0x7ba06619, 0x6380aea2, 0x0ae55269, 0x627b49a1]
  {
    NextWords<bv32>(ShaSpec.Ops1(), m, t,
                    0x8e9a9202, 0x00000600, 0xb131c0f0, 0x16263bc6, 0x4ebed41e, 0x626380a1, 0x16263806, 0x000018c0,
                    0xd2e138c4, 0x00000f00, 0x3afb5079, 0x898e04e5, 0xe2ba3c2b, 0x000060c0, 0x053a37cd, 0x74458547,
                    0xda9415ed, 0x26380a16, 0x626383a1, 0x4ebf54de, 0x3835b44b, 0x0000f600, 0x1e84c7a3, 0x98e04d98,
                    0x651d16a0, 0x62658ca1, 0x458544d6, 0x44584cb7, 0x7ba06619, 0x6380aea2, 0x0ae55269, 0x627b49a1);
  }

  lemma WordsFrom64(m: seq<bv32>, t: nat)
    requires |m| == 16 && t == 48
    requires Words(ShaSpec.Ops1(), m, t)
          == [0xda9415ed, 0x26380a16, 0x626383a1, 0x4ebf54de, 0x3835b44b, 0x0000f600, 0x1e84c7a3, 0x98e04d98,
              0x651d16a0, 0x62658ca1, 0x458544d6, 0x44584cb7, 0x7ba06619, 0x6380aea2, 0x0ae55269, 0x627b49a1]
    ensures Words(ShaSpec.Ops1(), m, t + 16)
         == [0x7cd45c9d, 0x000f0000, 0xfb50753a, 0xec6765e8, 0xba3c2be2, 0x0060c000, 0x3a37cd05, 0x458546f4,
             0xb8599dd6, 0x380a1a26, 0x01e02203, 0xe7cc3456, 0xe6e60b69, 0x00f60a00, 0x5795ef4f, 0x822e0879]
  {
    NextWords<bv32>(ShaSpec.Ops1(), m, t,
                    0xda9415ed, 0x26380a16, 0x626383a1, 0x4ebf54de, 0x3835b44b, 0x0000f600, 0x1e84c7a3, 0x98e04d98,
                    0x651d16a0, 0x62658ca1, 0x458544d6, 0x44584cb7, 0x7ba06619, 0x6380aea2, 0x0ae55269, 0x627b49a1,
                    0x7cd45c9d, 0x000f0000, 0xfb50753a, 0xec6765e8, 0xba3c2be2, 0x0060c000, 0x3a37cd05, 0x458546f4,
                    0xb8599dd6, 0x380a1a26, 0x01e02203, 0xe7cc3456, 0xe6e60b69, 0x00f60a00, 0x5795ef4f, 0x822e0879);
  }

  // ---------- the rounds ----------

  /** The words of eight rounds. */
  function EightWords<T>(o: Ops1<T>, m: seq<T>, t: nat): (ws: seq<T>)
    requires |m| == 16
    ensures |ws| == 8
  {
    [Schedule(o, m, t + 0), Schedule(o, m, t + 1), Schedule(o, m, t + 2), Schedule(o, m, t + 3),
     Schedule(o, m, t + 4), Schedule(o, m, t + 5), Schedule(o, m, t + 6), Schedule(o, m, t + 7)]
  }

  lemma OneRoundIs<T>(o: Ops1<T>, start: Regs<T>, m: seq<T>, t: nat, r: Regs<T>, w: T, r': Regs<T>)
    requires |m| == 16 && Rounds(o, start, m, t) == r && Schedule(o, m, t) == w && Round(o, r, t, w) == r'
    ensures Rounds(o, start, m, t + 1) == r'
  {
  }

  /** Eight rounds; each makes one word, rotates another, and moves the other three. */
  lemma EightRounds<T>(o: Ops1<T>, start: Regs<T>, m: seq<T>, t: nat,
                       w0: T, w1: T, w2: T, w3: T, w4: T, w5: T, w6: T, w7: T,
                       a: T, b: T, c: T, d: T, e: T,
                       a1: T, a2: T, a3: T, a4: T, a5: T, a6: T, a7: T, a8: T,
                       c1: T, c2: T, c3: T, c4: T, c5: T, c6: T, c7: T, c8: T)
    requires |m| == 16 && Rounds(o, start, m, t) == Regs(a, b, c, d, e)
    requires EightWords(o, m, t) == [w0, w1, w2, w3, w4, w5, w6, w7]
    requires Round(o, Regs(a, b, c, d, e), t + 0, w0) == Regs(a1, a, c1, c, d)
    requires Round(o, Regs(a1, a, c1, c, d), t + 1, w1) == Regs(a2, a1, c2, c1, c)
    requires Round(o, Regs(a2, a1, c2, c1, c), t + 2, w2) == Regs(a3, a2, c3, c2, c1)
    requires Round(o, Regs(a3, a2, c3, c2, c1), t + 3, w3) == Regs(a4, a3, c4, c3, c2)
    requires Round(o, Regs(a4, a3, c4, c3, c2), t + 4, w4) == Regs(a5, a4, c5, c4, c3)
    requires Round(o, Regs(a5, a4, c5, c4, c3), t + 5, w5) == Regs(a6, a5, c6, c5, c4)
    requires Round(o, Regs(a6, a5, c6, c5, c4), t + 6, w6) == Regs(a7, a6, c7, c6, c5)
    requires Round(o, Regs(a7, a6, c7, c6, c5), t + 7, w7) == Regs(a8, a7, c8, c7, c6)
    ensures Rounds(o, start, m, t + 8) == Regs(a8, a7, c8, c7, c6)
  {
    assert EightWords(o, m, t)[0] == Schedule(o, m, t + 0);
    OneRoundIs(o, start, m, t, Regs(a, b, c, d, e), w0, Regs(a1, a, c1, c, d));
    OneRoundIs(o, start, m, t + 1, Regs(a1, a, c1, c, d), w1, Regs(a2, a1, c2, c1, c));
    OneRoundIs(o, start, m, t + 2, Regs(a2, a1, c2, c1, c), w2, Regs(a3, a2, c3, c2, c1));
    OneRoundIs(o, start, m, t + 3, Regs(a3, a2, c3, c2, c1), w3, Regs(a4, a3, c4, c3, c2));
    OneRoundIs(o, start, m, t + 4, Regs(a4, a3, c4, c3, c2), w4, Regs(a5, a4, c5, c4, c3));
    OneRoundIs(o, start, m, t + 5, Regs(a5, a4, c5, c4, c3), w5, Regs(a6, a5, c6, c5, c4));
    OneRoundIs(o, start, m, t + 6, Regs(a6, a5, c6, c5, c4), w6, Regs(a7, a6, c7, c6, c5));
    OneRoundIs(o, start, m, t + 7, Regs(a7, a6, c7, c6, c5), w7, Regs(a8, a7, c8, c7, c6));
  }

  lemma RoundsFrom0(start: Regs<bv32>, m: seq<bv32>, t: nat)
    requires |m| == 16 && t == 0
    requires EightWords(ShaSpec.Ops1(), m, t)
          == [0x61626380, 0x00000000, 0x00000000, 0x00000000, 0x00000000, 0x00000000, 0x00000000, 0x00000000]
    requires Rounds(ShaSpec.Ops1(), start, m, t)
          == Regs(0x67452301, 0xefcdab89, 0x98badcfe, 0x10325476, 0xc3d2e1f0)
    ensures Rounds(ShaSpec.Ops1(), start, m, t + 8)
         == Regs(0x9e8c07d4, 0x993e30c1, 0x0ff1f290, 0xb3f52677, 0xf3763846)
  {
    EightRounds<bv32>(ShaSpec.Ops1(), start, m, t,
                      0x61626380, 0x00000000, 0x00000000, 0x00000000, 0x00000000, 0x00000000, 0x00000000, 0x00000000,
                      0x67452301, 0xefcdab89, 0x98badcfe, 0x10325476, 0xc3d2e1f0,
                      0x0116fc33, 0x8990536d, 0xa1390f08, 0xcdd8e11b, 0xcfd499de, 0x3fc7ca40, 0x993e30c1, 0x9e8c07d4,
                      0x7bf36ae2, 0x59d148c0, 0xc045bf0c, 0x626414db, 0x284e43c2, 0xf3763846, 0xb3f52677, 0x0ff1f290);
  }

  lemma RoundsFrom8(start: Regs<bv32>, m: seq<bv32>, t: nat)
    requires |m| == 16 && t == 8
    requires EightWords(ShaSpec.Ops1(), m, t)
          == [0x00000000, 0x00000000, 0x00000000, 0x00000000, 0x00000000, 0x00000000, 0x00000000, 0x00000018]
    requires Rounds(ShaSpec.Ops1(), start, m, t)
          == Regs(0x9e8c07d4, 0x993e30c1, 0x0ff1f290, 0xb3f52677, 0xf3763846)
    ensures Rounds(ShaSpec.Ops1(), start, m, t + 8)
         == Regs(0x20bdd62f, 0x196bee77, 0x644a3da5, 0x1181ed99, 0x18c623f9)
  {
    EightRounds<bv32>(ShaSpec.Ops1(), start, m, t,
                      0x00000000, 0x00000000, 0x00000000, 0x00000000, 0x00000000, 0x00000000, 0x00000000, 0x00000018,
                      0x9e8c07d4, 0x993e30c1, 0x0ff1f290, 0xb3f52677, 0xf3763846,
                      0x4b6ae328, 0x8351f929, 0xfbda9e89, 0x63188fe4, 0x4607b664, 0x9128f695, 0x196bee77, 0x20bdd62f,
                      0x664f8c30, 0x27a301f5, 0x12dab8ca, 0x60d47e4a, 0x7ef6a7a2, 0x18c623f9, 0x1181ed99, 0x644a3da5);
  }

  lemma RoundsFrom16(start: Regs<bv32>, m: seq<bv32>, t: nat)
    requires |m| == 16 && t == 16
    requires EightWords(ShaSpec.Ops1(), m, t)
          == [0xc2c4c700, 0x00000000, 0x00000030, 0x85898e01, 0x00000000, 0x00000060, 0x0b131c03, 0x00000030]
    requires Rounds(ShaSpec.Ops1(), start, m, t)
          == Regs(0x20bdd62f, 0x196bee77, 0x644a3da5, 0x1181ed99, 0x18c623f9)
    ensures Rounds(ShaSpec.Ops1(), start, m, t + 8)
         == Regs(0xd541f12d, 0x21283486, 0x0ce88eff, 0x868dec32, 0x7f67875f)
  {
    EightRounds<bv32>(ShaSpec.Ops1(), start, m, t,
                      0xc2c4c700, 0x00000000, 0x00000030, 0x85898e01, 0x00000000, 0x00000060, 0x0b131c03, 0x00000030,
                      0x20bdd62f, 0x196bee77, 0x644a3da5, 0x1181ed99, 0x18c623f9,
                      0x4e925823, 0x82aa6728, 0xdc64901d, 0xfd9e1d7d, 0x1a37b0ca, 0x33a23bfc, 0x21283486, 0xd541f12d,
                      0xc65afb9d, 0xc82f758b, 0xd3a49608, 0x20aa99ca, 0x77192407, 0x7f67875f, 0x868dec32, 0x0ce88eff);
  }

  lemma RoundsFrom24(start: Regs<bv32>, m: seq<bv32>, t: nat)
    requires |m| == 16 && t == 24
    requires EightWords(ShaSpec.Ops1(), m, t)
          == [0x85898ec1, 0x16263806, 0x00000000, 0x00000180, 0x2c4c700c, 0x000000f0, 0x93afb507, 0x5898e048]
    requires Rounds(ShaSpec.Ops1(), start, m, t)
          == Regs(0xd541f12d, 0x21283486, 0x0ce88eff, 0x868dec32, 0x7f67875f)
    ensures Rounds(ShaSpec.Ops1(), start, m, t + 8)
         == Regs(0x3b845d33, 0x1267b407, 0x717eebd7, 0xa0dc2d4b, 0xd2aa1365)
  {
    EightRounds<bv32>(ShaSpec.Ops1(), start, m, t,
                      0x85898ec1, 0x16263806, 0x00000000, 0x00000180, 0x2c4c700c, 0x000000f0, 0x93afb507, 0x5898e048,
                      0xd541f12d, 0x21283486, 0x0ce88eff, 0x868dec32, 0x7f67875f,
                      0xc7567dc6, 0x48413ba4, 0xbe35fbd5, 0x4aa84d97, 0x8370b52e, 0xc5fbaf5d, 0x1267b407, 0x3b845d33,
                      0x884a0d21, 0x75507c4b, 0xb1d59f71, 0x12104ee9, 0x6f8d7ef5, 0xd2aa1365, 0xa0dc2d4b, 0x717eebd7);
  }

  lemma RoundsFrom32(start: Regs<bv32>, m: seq<bv32>, t: nat)
    requires |m| == 16 && t == 32
    requires EightWords(ShaSpec.Ops1(), m, t)
          == [0x8e9a9202, 0x00000600, 0xb131c0f0, 0x16263bc6, 0x4ebed41e, 0x626380a1, 0x16263806, 0x000018c0]
    requires Rounds(ShaSpec.Ops1(), start, m, t)
          == Regs(0x3b845d33, 0x1267b407, 0x717eebd7, 0xa0dc2d4b, 0xd2aa1365)
    ensures Rounds(ShaSpec.Ops1(), start, m, t + 8)
         == Regs(0x32de1cba, 0x4c986405, 0xf718e5cf, 0x03d447f6, 0xf72eec32)
  {
    EightRounds<bv32>(ShaSpec.Ops1(), start, m, t,
                      0x8e9a9202, 0x00000600, 0xb131c0f0, 0x16263bc6, 0x4ebed41e, 0x626380a1, 0x16263806, 0x000018c0,
                      0x3b845d33, 0x1267b407, 0x717eebd7, 0xa0dc2d4b, 0xd2aa1365,
                      0x046faa0a, 0x2c0ebc11, 0x21796ad4, 0xdcbbb0cb, 0x0f511fd8, 0xdc63973f, 0x4c986405, 0x32de1cba,
                      0xc499ed01, 0xcee1174c, 0x811bea82, 0x4b03af04, 0x085e5ab5, 0xf72eec32, 0x03d447f6, 0xf718e5cf);
  }

  lemma RoundsFrom40(start: Regs<bv32>, m: seq<bv32>, t: nat)
    requires |m| == 16 && t == 40
    requires EightWords(ShaSpec.Ops1(), m, t)
          == [0xd2e138c4, 0x00000f00, 0x3afb5079, 0x898e04e5, 0xe2ba3c2b, 0x000060c0, 0x053a37cd, 0x74458547]
    requires Rounds(ShaSpec.Ops1(), start, m, t)
          == Regs(0x32de1cba, 0x4c986405, 0xf718e5cf, 0x03d447f6, 0xf72eec32)
    ensures Rounds(ShaSpec.Ops1(), start, m, t + 8)
         == Regs(0xbead02ca, 0xa01b846c, 0x8714787c, 0x503ca382, 0xfb86c6ab)
  {
    EightRounds<bv32>(ShaSpec.Ops1(), start, m, t,
                      0xd2e138c4, 0x00000f00, 0x3afb5079, 0x898e04e5, 0xe2ba3c2b, 0x000060c0, 0x053a37cd, 0x74458547,
                      0x32de1cba, 0x4c986405, 0xf718e5cf, 0x03d447f6, 0xf72eec32,
                      0xfc87dedf, 0x970a0d5c, 0x7f193dc5, 0xee1b1aaf, 0x40f28e09, 0x1c51e1f2, 0xa01b846c, 0xbead02ca,
                      0x53261901, 0x8cb7872e, 0xff21f7b7, 0x25c28357, 0x5fc64f71, 0xfb86c6ab, 0x503ca382, 0x8714787c);
  }

  lemma RoundsFrom48(start: Regs<bv32>, m: seq<bv32>, t: nat)
    requires |m| == 16 && t == 48
    requires EightWords(ShaSpec.Ops1(), m, t)
          == [0xda9415ed, 0x26380a16, 0x626383a1, 0x4ebf54de, 0x3835b44b, 0x0000f600, 0x1e84c7a3, 0x98e04d98]
    requires Rounds(ShaSpec.Ops1(), start, m, t)
          == Regs(0xbead02ca, 0xa01b846c, 0x8714787c, 0x503ca382, 0xfb86c6ab)
    ensures Rounds(ShaSpec.Ops1(), start, m, t + 8)
         == Regs(0x5e6456af, 0x7b71f76d, 0x09fa7c76, 0x792410db, 0x8e11eb59)
  {
    EightRounds<bv32>(ShaSpec.Ops1(), start, m, t,
                      0xda9415ed, 0x26380a16, 0x626383a1, 0x4ebf54de, 0x3835b44b, 0x0000f600, 0x1e84c7a3, 0x98e04d98,
                      0xbead02ca, 0xa01b846c, 0x8714787c, 0x503ca382, 0xfb86c6ab,
                      0xbaf39337, 0x120731c5, 0x641db2ce, 0x3847ad66, 0xe490436d, 0x27e9f1d8, 0x7b71f76d, 0x5e6456af,
                      0x2806e11b, 0xafab40b2, 0xeebce4cd, 0x4481cc71, 0x99076cb3, 0x8e11eb59, 0x792410db, 0x09fa7c76);
  }

  lemma RoundsFrom56(start: Regs<bv32>, m: seq<bv32>, t: nat)
    requires |m| == 16 && t == 56
    requires EightWords(ShaSpec.Ops1(), m, t)
          == [0x651d16a0, 0x62658ca1, 0x458544d6, 0x44584cb7, 0x7ba06619, 0x6380aea2, 0x0ae55269, 0x627b49a1]
    requires Rounds(ShaSpec.Ops1(), start, m, t)
          == Regs(0x5e6456af, 0x7b71f76d, 0x09fa7c76, 0x792410db, 0x8e11eb59)
    ensures Rounds(ShaSpec.Ops1(), start, m, t + 8)
         == Regs(0x6b61c9e1, 0xb66c020b, 0x9523272c, 0xf5d5b051, 0x8fd4b796)
  {
    EightRounds<bv32>(ShaSpec.Ops1(), start, m, t,
                      0x651d16a0, 0x62658ca1, 0x458544d6, 0x44584cb7, 0x7ba06619, 0x6380aea2, 0x0ae55269, 0x627b49a1,
                      0x5e6456af, 0x7b71f76d, 0x09fa7c76, 0x792410db, 0x8e11eb59,
                      0xc846093f, 0xd262ff50, 0x09d785fd, 0x3f52de5a, 0xd756c147, 0x548c9cb2, 0xb66c020b, 0x6b61c9e1,
                      0x5edc7ddb, 0xd79915ab, 0xf211824f, 0x3498bfd4, 0x4275e17f, 0x8fd4b796, 0xf5d5b051, 0x9523272c);
  }

  lemma RoundsFrom64(start: Regs<bv32>, m: seq<bv32>, t: nat)
    requires |m| == 16 && t == 64
    requires EightWords(ShaSpec.Ops1(), m, t)
          == [0x7cd45c9d, 0x000f0000, 0xfb50753a, 0xec6765e8, 0xba3c2be2, 0x0060c000, 0x3a37cd05, 0x458546f4]
    requires Rounds(ShaSpec.Ops1(), start, m, t)
          == Regs(0x6b61c9e1, 0xb66c020b, 0x9523272c, 0xf5d5b051, 0x8fd4b796)
    ensures Rounds(ShaSpec.Ops1(), start, m, t + 8)
         == Regs(0x39859de7, 0xc199f8c7, 0x8fc96230, 0x125c24f0, 0xde37534a)
  {
    EightRounds<bv32>(ShaSpec.Ops1(), start, m, t,
                      0x7cd45c9d, 0x000f0000, 0xfb50753a, 0xec6765e8, 0xba3c2be2, 0x0060c000, 0x3a37cd05, 0x458546f4,
                      0x6b61c9e1, 0xb66c020b, 0x9523272c, 0xf5d5b051, 0x8fd4b796,
                      0x19dfa7ac, 0x101655f9, 0x0c3df2b4, 0x78dd4d2b, 0x497093c0, 0x3f2588c2, 0xc199f8c7, 0x39859de7,
                      0xed9b0082, 0x5ad87278, 0x0677e9eb, 0x4405957e, 0x030f7cad, 0xde37534a, 0x125c24f0, 0x8fc96230);
  }

  lemma RoundsFrom72(start: Regs<bv32>, m: seq<bv32>, t: nat)
    requires |m| == 16 && t == 72
    requires EightWords(ShaSpec.Ops1(), m, t)
          == [0xb8599dd6, 0x380a1a26, 0x01e02203, 0xe7cc3456, 0xe6e60b69, 0x00f60a00, 0x5795ef4f, 0x822e0879]
    requires Rounds(ShaSpec.Ops1(), start, m, t)
          == Regs(0x39859de7, 0xc199f8c7, 0x8fc96230, 0x125c24f0, 0xde37534a)
    ensures Rounds(ShaSpec.Ops1(), start, m, t + 8)
         == Regs(0x42541b35, 0x5738d5e1, 0x21834873, 0x681e6df6, 0xd8fdf6ad)
  {
    EightRounds<bv32>(ShaSpec.Ops1(), start, m, t,
                      0xb8599dd6, 0x380a1a26, 0x01e02203, 0xe7cc3456, 0xe6e60b69, 0x00f60a00, 0x5795ef4f, 0x822e0879,
                      0x39859de7, 0xc199f8c7, 0x8fc96230, 0x125c24f0, 0xde37534a,
                      0xedb42de4, 0x11793f6f, 0x5ee76897, 0x63f7dab7, 0xa079b7d9, 0x860d21cc, 0x5738d5e1, 0x42541b35,
                      0xf0667e31, 0xce616779, 0x3b6d0b79, 0xc45e4fdb, 0xd7b9da25, 0xd8fdf6ad, 0x681e6df6, 0x21834873);
  }

  lemma FromWords<T>(o: Ops1<T>, m: seq<T>, t: nat,
                     w0: T, w1: T, w2: T, w3: T, w4: T, w5: T, w6: T, w7: T,
                     w8: T, w9: T, w10: T, w11: T, w12: T, w13: T, w14: T, w15: T)
    requires |m| == 16 && Words(o, m, t) == [w0, w1, w2, w3, w4, w5, w6, w7, w8, w9, w10, w11, w12, w13, w14, w15]
    ensures EightWords(o, m, t) == [w0, w1, w2, w3, w4, w5, w6, w7]
    ensures EightWords(o, m, t + 8) == [w8, w9, w10, w11, w12, w13, w14, w15]
  {
    var ws := Words(o, m, t);
    assert ws[0] == Schedule(o, m, t + 0) && ws[8] == Schedule(o, m, t + 8);
  }

  lemma FirstWords<T>(o: Ops1<T>, m: seq<T>, t: nat)
    requires |m| == 16 && t == 0
    ensures Words(o, m, t) == m
  {
  }

  lemma Sixteen0(start: Regs<bv32>, m: seq<bv32>, t: nat)
    requires |m| == 16 && t == 0
    requires Words(ShaSpec.Ops1(), m, t)
          == [0x61626380, 0x00000000, 0x00000000, 0x00000000, 0x00000000, 0x00000000, 0x00000000, 0x00000000,
              0x00000000, 0x00000000, 0x00000000, 0x00000000, 0x00000000, 0x00000000, 0x00000000, 0x00000018]
    requires Rounds(ShaSpec.Ops1(), start, m, t)
          == Regs(0x67452301, 0xefcdab89, 0x98badcfe, 0x10325476, 0xc3d2e1f0)
    ensures Rounds(ShaSpec.Ops1(), start, m, t + 16)
         == Regs(0x20bdd62f, 0x196bee77, 0x644a3da5, 0x1181ed99, 0x18c623f9)
  {
    FromWords<bv32>(ShaSpec.Ops1(), m, t,
                    0x61626380, 0x00000000, 0x00000000, 0x00000000, 0x00000000, 0x00000000, 0x00000000, 0x00000000,
                    0x00000000, 0x00000000, 0x00000000, 0x00000000, 0x00000000, 0x00000000, 0x00000000, 0x00000018);
    RoundsFrom0(start, m, t);
    RoundsFrom8(start, m, t + 8);
  }

  lemma Sixteen16(start: Regs<bv32>, m: seq<bv32>, t: nat)
    requires |m| == 16 && t == 16
    requires Words(ShaSpec.Ops1(), m, t)
          == [0xc2c4c700, 0x00000000, 0x00000030, 0x85898e01, 0x00000000, 0x00000060, 0x0b131c03, 0x00000030,
              0x85898ec1, 0x16263806, 0x00000000, 0x00000180, 0x2c4c700c, 0x000000f0, 0x93afb507, 0x5898e048]
    requires Rounds(ShaSpec.Ops1(), start, m, t)
          == Regs(0x20bdd62f, 0x196bee77, 0x644a3da5, 0x1181ed99, 0x18c623f9)
    ensures Rounds(ShaSpec.Ops1(), start, m, t + 16)
         == Regs(0x3b845d33, 0x1267b407, 0x717eebd7, 0xa0dc2d4b, 0xd2aa1365)
  {
    FromWords<bv32>(ShaSpec.Ops1(), m, t,
                    0xc2c4c700, 0x00000000, 0x00000030, 0x85898e01, 0x00000000, 0x00000060, 0x0b131c03, 0x00000030,
                    0x85898ec1, 0x16263806, 0x00000000, 0x00000180, 0x2c4c700c, 0x000000f0, 0x93afb507, 0x5898e048);
    RoundsFrom16(start, m, t);
    RoundsFrom24(start, m, t + 8);
  }

  lemma Sixteen32(start: Regs<bv32>, m: seq<bv32>, t: nat)
    requires |m| == 16 && t == 32
    requires Words(ShaSpec.Ops1(), m, t)
          == [0x8e9a9202, 0x00000600, 0xb131c0f0, 0x16263bc6, 0x4ebed41e, 0x626380a1, 0x16263806, 0x000018c0,
              0xd2e138c4, 0x00000f00, 0x3afb5079, 0x898e04e5, 0xe2ba3c2b, 0x000060c0, 0x053a37cd, 0x74458547]
    requires Rounds(ShaSpec.Ops1(), start, m, t)
          == Regs(0x3b845d33, 0x1267b407, 0x717eebd7, 0xa0dc2d4b, 0xd2aa1365)
    ensures Rounds(ShaSpec.Ops1(), start, m, t + 16)
         == Regs(0xbead02ca, 0xa01b846c, 0x8714787c, 0x503ca382, 0xfb86c6ab)
  {
    FromWords<bv32>(ShaSpec.Ops1(), m, t,
                    0x8e9a9202, 0x00000600, 0xb131c0f0, 0x16263bc6, 0x4ebed41e, 0x626380a1, 0x16263806, 0x000018c0,
                    0xd2e138c4, 0x00000f00, 0x3afb5079, 0x898e04e5, 0xe2ba3c2b, 0x000060c0, 0x053a37cd, 0x74458547);
    RoundsFrom32(start, m, t);
    RoundsFrom40(start, m, t + 8);
  }

  lemma Sixteen48(start: Regs<bv32>, m: seq<bv32>, t: nat)
    requires |m| == 16 && t == 48
    requires Words(ShaSpec.Ops1(), m, t)
          == [0xda9415ed, 0x26380a16, 0x626383a1, 0x4ebf54de, 0x3835b44b, 0x0000f600, 0x1e84c7a3, 0x98e04d98,
              0x651d16a0, 0x62658ca1, 0x458544d6, 0x44584cb7, 0x7ba06619, 0x6380aea2, 0x0ae55269, 0x627b49a1]
    requires Rounds(ShaSpec.Ops1(), start, m, t)
          == Regs(0xbead02ca, 0xa01b846c, 0x8714787c, 0x503ca382, 0xfb86c6ab)
    ensures Rounds(ShaSpec.Ops1(), start, m, t + 16)
         == Regs(0x6b61c9e1, 0xb66c020b, 0x9523272c, 0xf5d5b051, 0x8fd4b796)
  {
    FromWords<bv32>(ShaSpec.Ops1(), m, t,
                    0xda9415ed, 0x26380a16, 0x626383a1, 0x4ebf54de, 0x3835b44b, 0x0000f600, 0x1e84c7a3, 0x98e04d98,
                    0x651d16a0, 0x62658ca1, 0x458544d6, 0x44584cb7, 0x7ba06619, 0x6380aea2, 0x0ae55269, 0x627b49a1);
    RoundsFrom48(start, m, t);
    RoundsFrom56(start, m, t + 8);
  }

  lemma Sixteen64(start: Regs<bv32>, m: seq<bv32>, t: nat)
    requires |m| == 16 && t == 64
    requires Words(ShaSpec.Ops1(), m, t)
          == [0x7cd45c9d, 0x000f0000, 0xfb50753a, 0xec6765e8, 0xba3c2be2, 0x0060c000, 0x3a37cd05, 0x458546f4,
              0xb8599dd6, 0x380a1a26, 0x01e02203, 0xe7cc3456, 0xe6e60b69, 0x00f60a00, 0x5795ef4f, 0x822e0879]
    requires Rounds(ShaSpec.Ops1(), start, m, t)
          == Regs(0x6b61c9e1, 0xb66c020b, 0x9523272c, 0xf5d5b051, 0x8fd4b796)
    ensures Rounds(ShaSpec.Ops1(), start, m, t + 16)
         == Regs(0x42541b35, 0x5738d5e1, 0x21834873, 0x681e6df6, 0xd8fdf6ad)
  {
    FromWords<bv32>(ShaSpec.Ops1(), m, t,
                    0x7cd45c9d, 0x000f0000, 0xfb50753a, 0xec6765e8, 0xba3c2be2, 0x0060c000, 0x3a37cd05, 0x458546f4,
                    0xb8599dd6, 0x380a1a26, 0x01e02203, 0xe7cc3456, 0xe6e60b69, 0x00f60a00, 0x5795ef4f, 0x822e0879);
    RoundsFrom64(start, m, t);
    RoundsFrom72(start, m, t + 8);
  }

  lemma FirstRounds(start: Regs<bv32>, m: seq<bv32>, t0: nat, t1: nat, t2: nat)
    requires t0 == 0 && t1 == t0 + 16 && t2 == t1 + 16
    requires m == [0x61626380, 0x00000000, 0x00000000, 0x00000000, 0x00000000, 0x00000000, 0x00000000, 0x00000000,
                   0x00000000, 0x00000000, 0x00000000, 0x00000000, 0x00000000, 0x00000000, 0x00000000, 0x00000018]
    requires start == Regs(0x67452301, 0xefcdab89, 0x98badcfe, 0x10325476, 0xc3d2e1f0)
    ensures Words(ShaSpec.Ops1(), m, t2)
         == [0x8e9a9202, 0x00000600, 0xb131c0f0, 0x16263bc6, 0x4ebed41e, 0x626380a1, 0x16263806, 0x000018c0,
             0xd2e138c4, 0x00000f00, 0x3afb5079, 0x898e04e5, 0xe2ba3c2b, 0x000060c0, 0x053a37cd, 0x74458547]
    ensures Rounds(ShaSpec.Ops1(), start, m, t2)
         == Regs(0x3b845d33, 0x1267b407, 0x717eebd7, 0xa0dc2d4b, 0xd2aa1365)
  {
    FirstWords<bv32>(ShaSpec.Ops1(), m, t0);
    WordsFrom16(m, t0);
    WordsFrom32(m, t1);
    assert Rounds(ShaSpec.Ops1(), start, m, t0) == start;
    Sixteen0(start, m, t0);
    Sixteen16(start, m, t1);
  }

  lemma AllRounds(start: Regs<bv32>, m: seq<bv32>, t2: nat, t3: nat, t4: nat, n: nat)
    requires t2 == 32 && t3 == t2 + 16 && t4 == t3 + 16 && n == t4 + 16
    requires m == [0x61626380, 0x00000000, 0x00000000, 0x00000000, 0x00000000, 0x00000000, 0x00000000, 0x00000000,
                   0x00000000, 0x00000000, 0x00000000, 0x00000000, 0x00000000, 0x00000000, 0x00000000, 0x00000018]
    requires start == Regs(0x67452301, 0xefcdab89, 0x98badcfe, 0x10325476, 0xc3d2e1f0)
    ensures Rounds(ShaSpec.Ops1(), start, m, n)
         == Regs(0x42541b35, 0x5738d5e1, 0x21834873, 0x681e6df6, 0xd8fdf6ad)
  {
    FirstRounds(start, m, t2 - 32, t2 - 16, t2);
    WordsFrom48(m, t2);
    WordsFrom64(m, t3);
    Sixteen32(start, m, t2);
    Sixteen48(start, m, t3);
    Sixteen64(start, m, t4);
  }

  lemma CompressIs<T>(o: Ops1<T>, d: seq<T>, m: seq<T>, n: nat, x: Regs<T>)
    requires |d| == 5 && |m| == 16 && n == 80 && x == Rounds(o, Regs(d[0], d[1], d[2], d[3], d[4]), m, n)
    ensures Compress(o, d, m)
         == [o.add(d[0], x.a), o.add(d[1], x.b), o.add(d[2], x.c), o.add(d[3], x.d), o.add(d[4], x.e)]
  {
  }

  /** The compression of the one block of the message. */
  lemma Compressed(m: seq<bv32>)
    requires m == [0x61626380, 0x00000000, 0x00000000, 0x00000000, 0x00000000, 0x00000000, 0x00000000, 0x00000000,
                   0x00000000, 0x00000000, 0x00000000, 0x00000000, 0x00000000, 0x00000000, 0x00000000, 0x00000018]
    ensures Compress(ShaSpec.Ops1(), ShaSpec.INIT1, m)
         == [0xa9993e36, 0x4706816a, 0xba3e2571, 0x7850c26c, 0x9cd0d89d]
  {
    var start := Regs(0x67452301, 0xefcdab89, 0x98badcfe, 0x10325476, 0xc3d2e1f0);
    AllRounds(start, m, 32, 48, 64, 80);
    CompressIs<bv32>(ShaSpec.Ops1(), ShaSpec.INIT1, m, 80, Rounds(ShaSpec.Ops1(), start, m, 80));
  }
}
