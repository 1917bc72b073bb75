/** The compression of the padded "abc" with SHA-256, computed by the specification round by round. */
module Sha2Vector {
  import opened Sha2Rounds
  import opened ShaSpec

  // ---------- the schedule ----------

  /** 16 words of the schedule. */
  function Words<T>(o: Ops2<T>, m: seq<T>, t: nat): (ws: seq<T>)
    requires |m| == 16
    ensures |ws| == 16
  {
    [Schedule(o, m, t + 0), Schedule(o, m, t + 1), Schedule(o, m, t + 2), Schedule(o, m, t + 3),
     Schedule(o, m, t + 4), Schedule(o, m, t + 5), Schedule(o, m, t + 6), Schedule(o, m, t + 7),
     Schedule(o, m, t + 8), Schedule(o, m, t + 9), Schedule(o, m, t + 10), Schedule(o, m, t + 11),
     Schedule(o, m, t + 12), Schedule(o, m, t + 13), Schedule(o, m, t + 14), Schedule(o, m, t + 15)]
  }

  function NextWord<T>(o: Ops2<T>, w2: T, w7: T, w15: T, w16: T): T {
    o.add(o.add(o.add(o.small1(w2), w7), o.small0(w15)), w16)
  }

  lemma ScheduleIs<T>(o: Ops2<T>, m: seq<T>, t: nat, w2: T, w7: T, w15: T, w16: T)
    requires |m| == 16 && t >= 16
    requires Schedule(o, m, t - 2) == w2 && Schedule(o, m, t - 7) == w7
    requires Schedule(o, m, t - 15) == w15 && Schedule(o, m, t - 16) == w16
    ensures Schedule(o, m, t) == NextWord(o, w2, w7, w15, w16)
  {
  }

  /** The next 16 words. */
  lemma NextWords<T>(o: Ops2<T>, m: seq<T>, t: nat,
                     w0: T, w1: T, w2: T, w3: T, w4: T, w5: T, w6: T, w7: T,
                     w8: T, w9: T, w10: T, w11: T, w12: T, w13: T, w14: T, w15: T,
                     v0: T, v1: T, v2: T, v3: T, v4: T, v5: T, v6: T, v7: T,
                     v8: T, v9: T, v10: T, v11: T, v12: T, v13: T, v14: T, v15: T)
    requires |m| == 16 && Words(o, m, t) == [w0, w1, w2, w3, w4, w5, w6, w7, w8, w9, w10, w11, w12, w13, w14, w15]
    requires NextWord(o, w14, w9, w1, w0) == v0 && NextWord(o, w15, w10, w2, w1) == v1
    requires NextWord(o, v0, w11, w3, w2) == v2 && NextWord(o, v1, w12, w4, w3) == v3
    requires NextWord(o, v2, w13, w5, w4) == v4 && NextWord(o, v3, w14, w6, w5) == v5
    requires NextWord(o, v4, w15, w7, w6) == v6 && NextWord(o, v5, v0, w8, w7) == v7
    requires NextWord(o, v6, v1, w9, w8) == v8 && NextWord(o, v7, v2, w10, w9) == v9
    requires NextWord(o, v8, v3, w11, w10) == v10 && NextWord(o, v9, v4, w12, w11) == v11
    requires NextWord(o, v10, v5, w13, w12) == v12 && NextWord(o, v11, v6, w14, w13) == v13
    requires NextWord(o, v12, v7, w15, w14) == v14 && NextWord(o, v13, v8, v0, w15) == v15
    ensures Words(o, m, t + 16) == [v0, v1, v2, v3, v4, v5, v6, v7, v8, v9, v10, v11, v12, v13, v14, v15]
  {
    ScheduleIs(o, m, t + 16, w14, w9, w1, w0);
    ScheduleIs(o, m, t + 17, w15, w10, w2, w1);
    ScheduleIs(o, m, t + 18, v0, w11, w3, w2);
    ScheduleIs(o, m, t + 19, v1, w12, w4, w3);
    ScheduleIs(o, m, t + 20, v2, w13, w5, w4);
    ScheduleIs(o, m, t + 21, v3, w14, w6, w5);
    ScheduleIs(o, m, t + 22, v4, w15, w7, w6);
    ScheduleIs(o, m, t + 23, v5, v0, w8, w7);
    ScheduleIs(o, m, t + 24, v6, v1, w9, w8);
    ScheduleIs(o, m, t + 25, v7, v2, w10, w9);
    ScheduleIs(o, m, t + 26, v8, v3, w11, w10);
    ScheduleIs(o, m, t + 27, v9, v4, w12, w11);
    ScheduleIs(o, m, t + 28, v10, v5, w13, w12);
    ScheduleIs(o, m, t + 29, v11, v6, w14, w13);
    ScheduleIs(o, m, t + 30, v12, v7, w15, w14);
    ScheduleIs(o, m, t + 31, v13, v8, v0, w15);
  }

  lemma WordsFrom16(m: seq<bv32>, t: nat)
    requires |m| == 16 && t == 0
    requires Words(Ops256(), m, t)
          == [0x61626380, 0x00000000, 0x00000000, 0x00000000, 0x00000000, 0x00000000, 0x00000000, 0x00000000,
              0x00000000, 0x00000000, 0x00000000, 0x00000000, 0x00000000, 0x00000000, 0x00000000, 0x00000018]
    ensures Words(Ops256(), m, t + 16)
         == [0x61626380, 0x000f0000, 0x7da86405, 0x600003c6, 0x3e9d7b78, 0x0183fc00, 0x12dcbfdb, 0xe2e2c38e,
             0xc8215c1a, 0xb73679a2, 0xe5bc3909, 0x32663c5b, 0x9d209d67, 0xec8726cb, 0x702138a4, 0xd3b7973b]
  {
    NextWords<bv32>(Ops256(), m, t,
                    0x61626380, 0x00000000, 0x00000000, 0x00000000, 0x00000000, 0x00000000, 0x00000000, 0x00000000,
                    0x00000000, 0x00000000, 0x00000000, 0x00000000, 0x00000000, 0x00000000, 0x00000000, 0x00000018,
                    0x61626380, 0x000f0000, 0x7da86405, 0x600003c6, 0x3e9d7b78, 0x0183fc00, 0x12dcbfdb, 0xe2e2c38e,
                    0xc8215c1a, 0xb73679a2, 0xe5bc3909, 0x32663c5b, 0x9d209d67, 0xec8726cb, 0x702138a4, 0xd3b7973b);
  }

  lemma WordsFrom32(m: seq<bv32>, t: nat)
    requires |m| == 16 && t == 16
    requires Words(Ops256(), m, t)
          == [0x61626380, 0x000f0000, 0x7da86405, 0x600003c6, 0x3e9d7b78, 0x0183fc00, 0x12dcbfdb, 0xe2e2c38e,
              0xc8215c1a, 0xb73679a2, 0xe5bc3909, 0x32663c5b, 0x9d209d67, 0xec8726cb, 0x702138a4, 0xd3b7973b]
    ensures Words(Ops256(), m, t + 16)
         == [0x93f5997f, 0x3b68ba73, 0xaff4ffc1, 0xf10a5c62, 0x0a8b3996, 0x72af830a, 0x9409e33e, 0x24641522,
             0x9f47bf94, 0xf0a64f5a, 0x3e246a79, 0x27333ba3, 0x0c4763f2, 0x840abf27, 0x7a290d5d, 0x065c43da]
  {
    NextWords<bv32>(Ops256(), m, t,
                    0x61626380, 0x000f0000, 0x7da86405, 0x600003c6, 0x3e9d7b78, 0x0183fc00, 0x12dcbfdb, 0xe2e2c38e,
                    0xc8215c1a, 0xb73679a2, 0xe5bc3909, 0x32663c5b, 0x9d209d67, 0xec8726cb, 0x702138a4, 0xd3b7973b,
                    0x93f5997f, 0x3b68ba73, 0xaff4ffc1, 0xf10a5c62, 0x0a8b3996, 0x72af830a, 0x9409e33e, 0x24641522,
                    0x9f47bf94, 0xf0a64f5a, 0x3e246a79, 0x27333ba3, 0x0c4763f2, 0x840abf27, 0x7a290d5d, 0x065c43da);
  }

  lemma WordsFrom48(m: seq<bv32>, t: nat)
    requires |m| == 16 && t == 32
    requires Words(Ops256(), m, t)
          == [0x93f5997f, 0x3b68ba73, 0xaff4ffc1, 0xf10a5c62, 0x0a8b3996, 0x72af830a, 0x9409e33e, 0x24641522,
              0x9f47bf94, 0xf0a64f5a, 0x3e246a79, 0x27333ba3, 0x0c4763f2, 0x840abf27, 0x7a290d5d, 0x065c43da]
    ensures Words(Ops256(), m, t + 16)
         == [0xfb3e89cb, 0xcc7617db, 0xb9e66c34, 0xa9993667, 0x84badedd, 0xc21462bc, 0x1487472c, 0xb20f7a99,
             0xef57b9cd, 0xebe6b238, 0x9fe3095e, 0x78bc8d4b, 0xa43fcf15, 0x668b2ff8, 0xeeaba2cc, 0x12b1edeb]
  {
    NextWords<bv32>(Ops256(), m, t,
                    0x93f5997f, 0x3b68ba73, 0xaff4ffc1, 0xf10a5c62, 0x0a8b3996, 0x72af830a, 0x9409e33e, 0x24641522,
                    0x9f47bf94, 0xf0a64f5a, 0x3e246a79, 0x27333ba3, 0x0c4763f2, 0x840abf27, 0x7a290d5d, 0x065c43da,
                    0xfb3e89cb, 0xcc7617db, 0xb9e66c34, 0xa9993667, 0x84badedd, 0xc21462bc, 0x1487472c, 0xb20f7a99,
                    0xef57b9cd, 0xebe6b238, 0x9fe3095e, 0x78bc8d4b, 0xa43fcf15, 0x668b2ff8, 0xeeaba2cc, 0x12b1edeb);
  }

  // ---------- the rounds ----------

  /** The words and the constants of eight rounds. */
  function Inputs<T>(o: Ops2<T>, m: seq<T>, t: nat): (r: (seq<T>, seq<T>))
    requires |m| == 16
    ensures |r.0| == |r.1| == 8
  {
    ([Schedule(o, m, t + 0), Schedule(o, m, t + 1), Schedule(o, m, t + 2), Schedule(o, m, t + 3),
      Schedule(o, m, t + 4), Schedule(o, m, t + 5), Schedule(o, m, t + 6), Schedule(o, m, t + 7)],
     [o.k(t + 0), o.k(t + 1), o.k(t + 2), o.k(t + 3), o.k(t + 4), o.k(t + 5), o.k(t + 6), o.k(t + 7)])
  }

  lemma OneRoundIs<T>(o: Ops2<T>, start: Regs<T>, m: seq<T>, t: nat, r: Regs<T>, k: T, w: T, r': Regs<T>)
    requires |m| == 16 && Rounds(o, start, m, t) == r && o.k(t) == k && Schedule(o, m, t) == w && Round(o, r, k, w) == r'
    ensures Rounds(o, start, m, t + 1) == r'
  {
  }

  /** Eight rounds; each makes two words and moves the other six. */
  lemma EightRounds<T>(o: Ops2<T>, start: Regs<T>, m: seq<T>, t: nat,
                       w0: T, w1: T, w2: T, w3: T, w4: T, w5: T, w6: T, w7: T,
                       k0: T, k1: T, k2: T, k3: T, k4: T, k5: T, k6: T, k7: T,
                       a: T, b: T, c: T, d: T, e: T, f: T, g: T, h: T,
                       a1: T, a2: T, a3: T, a4: T, a5: T, a6: T, a7: T, a8: T,
                       e1: T, e2: T, e3: T, e4: T, e5: T, e6: T, e7: T, e8: T)
    requires |m| == 16 && Rounds(o, start, m, t) == Regs(a, b, c, d, e, f, g, h)
    requires Inputs(o, m, t) == ([w0, w1, w2, w3, w4, w5, w6, w7], [k0, k1, k2, k3, k4, k5, k6, k7])
    requires Round(o, Regs(a, b, c, d, e, f, g, h), k0, w0) == Regs(a1, a, b, c, e1, e, f, g)
    requires Round(o, Regs(a1, a, b, c, e1, e, f, g), k1, w1) == Regs(a2, a1, a, b, e2, e1, e, f)
    requires Round(o, Regs(a2, a1, a, b, e2, e1, e, f), k2, w2) == Regs(a3, a2, a1, a, e3, e2, e1, e)
    requires Round(o, Regs(a3, a2, a1, a, e3, e2, e1, e), k3, w3) == Regs(a4, a3, a2, a1, e4, e3, e2, e1)
    requires Round(o, Regs(a4, a3, a2, a1, e4, e3, e2, e1), k4, w4) == Regs(a5, a4, a3, a2, e5, e4, e3, e2)
    requires Round(o, Regs(a5, a4, a3, a2, e5, e4, e3, e2), k5, w5) == Regs(a6, a5, a4, a3, e6, e5, e4, e3)
    requires Round(o, Regs(a6, a5, a4, a3, e6, e5, e4, e3), k6, w6) == Regs(a7, a6, a5, a4, e7, e6, e5, e4)
    requires Round(o, Regs(a7, a6, a5, a4, e7, e6, e5, e4), k7, w7) == Regs(a8, a7, a6, a5, e8, e7, e6, e5)
    ensures Rounds(o, start, m, t + 8) == Regs(a8, a7, a6, a5, e8, e7, e6, e5)
  {
    assert Inputs(o, m, t).0[0] == Schedule(o, m, t + 0) && Inputs(o, m, t).1[0] == o.k(t + 0);
    OneRoundIs(o, start, m, t, Regs(a, b, c, d, e, f, g, h), k0, w0, Regs(a1, a, b, c, e1, e, f, g));
    OneRoundIs(o, start, m, t + 1, Regs(a1, a, b, c, e1, e, f, g), k1, w1, Regs(a2, a1, a, b, e2, e1, e, f));
    OneRoundIs(o, start, m, t + 2, Regs(a2, a1, a, b, e2, e1, e, f), k2, w2, Regs(a3, a2, a1, a, e3, e2, e1, e));
    OneRoundIs(o, start, m, t + 3, Regs(a3, a2, a1, a, e3, e2, e1, e), k3, w3, Regs(a4, a3, a2, a1, e4, e3, e2, e1));
    OneRoundIs(o, start, m, t + 4, Regs(a4, a3, a2, a1, e4, e3, e2, e1), k4, w4, Regs(a5, a4, a3, a2, e5, e4, e3, e2));
    OneRoundIs(o, start, m, t + 5, Regs(a5, a4, a3, a2, e5, e4, e3, e2), k5, w5, Regs(a6, a5, a4, a3, e6, e5, e4, e3));
    OneRoundIs(o, start, m, t + 6, Regs(a6, a5, a4, a3, e6, e5, e4, e3), k6, w6, Regs(a7, a6, a5, a4, e7, e6, e5, e4));
    OneRoundIs(o, start, m, t + 7, Regs(a7, a6, a5, a4, e7, e6, e5, e4), k7, w7, Regs(a8, a7, a6, a5, e8, e7, e6, e5));
  }

  lemma RoundsFrom0(start: Regs<bv32>, m: seq<bv32>, t: nat)
    requires |m| == 16
    requires Inputs(Ops256(), m, t)
          == ([0x61626380, 0x00000000, 0x00000000, 0x00000000, 0x00000000, 0x00000000, 0x00000000, 0x00000000],
              [0x428a2f98, 0x71374491, 0xb5c0fbcf, 0xe9b5dba5, 0x3956c25b, 0x59f111f1, 0x923f82a4, 0xab1c5ed5])
    requires Rounds(Ops256(), start, m, t)
          == Regs(0x6a09e667, 0xbb67ae85, 0x3c6ef372, 0xa54ff53a, 0x510e527f, 0x9b05688c, 0x1f83d9ab, 0x5be0cd19)
    ensures Rounds(Ops256(), start, m, t + 8)
         == Regs(0x85a07b5f, 0xe5030380, 0x2b4209f5, 0x04409a6a, 0x0c657a79, 0x9b27a401, 0x714260ad, 0x43ada245)
  {
    EightRounds<bv32>(Ops256(), start, m, t,
                      0x61626380, 0x00000000, 0x00000000, 0x00000000, 0x00000000, 0x00000000, 0x00000000, 0x00000000,
                      0x428a2f98, 0x71374491, 0xb5c0fbcf, 0xe9b5dba5, 0x3956c25b, 0x59f111f1, 0x923f82a4, 0xab1c5ed5,
                      0x6a09e667, 0xbb67ae85, 0x3c6ef372, 0xa54ff53a, 0x510e527f, 0x9b05688c, 0x1f83d9ab, 0x5be0cd19,
                      0x5d6aebcd, 0x5a6ad9ad, 0xc8c347a7, 0xd550f666, 0x04409a6a, 0x2b4209f5, 0xe5030380, 0x85a07b5f,
                      0xfa2a4622, 0x78ce7989, 0xf92939eb, 0x24e00850, 0x43ada245, 0x714260ad, 0x9b27a401, 0x0c657a79);
  }

  lemma RoundsFrom8(start: Regs<bv32>, m: seq<bv32>, t: nat)
    requires |m| == 16
    requires Inputs(Ops256(), m, t)
          == ([0x00000000, 0x00000000, 0x00000000, 0x00000000, 0x00000000, 0x00000000, 0x00000000, 0x00000018],
              [0xd807aa98, 0x12835b01, 0x243185be, 0x550c7dc3, 0x72be5d74, 0x80deb1fe, 0x9bdc06a7, 0xc19bf174])
    requires Rounds(Ops256(), start, m, t)
          == Regs(0x85a07b5f, 0xe5030380, 0x2b4209f5, 0x04409a6a, 0x0c657a79, 0x9b27a401, 0x714260ad, 0x43ada245)
    ensures Rounds(Ops256(), start, m, t + 8)
         == Regs(0xb0fa238e, 0xc0645fde, 0xd932eb16, 0x87912990, 0x07590dcd, 0x0b92f20c, 0x745a48de, 0x1e578218)
  {
    EightRounds<bv32>(Ops256(), start, m, t,
                      0x00000000, 0x00000000, 0x00000000, 0x00000000, 0x00000000, 0x00000000, 0x00000000, 0x00000018,
                      0xd807aa98, 0x12835b01, 0x243185be, 0x550c7dc3, 0x72be5d74, 0x80deb1fe, 0x9bdc06a7, 0xc19bf174,
                      0x85a07b5f, 0xe5030380, 0x2b4209f5, 0x04409a6a, 0x0c657a79, 0x9b27a401, 0x714260ad, 0x43ada245,
                      0x8e04ecb9, 0x8c87346b, 0x4798a3f4, 0xf71fc5a9, 0x87912990, 0xd932eb16, 0xc0645fde, 0xb0fa238e,
                      0x32ca2d8c, 0x1cc92596, 0x436b23e8, 0x816fd6e9, 0x1e578218, 0x745a48de, 0x0b92f20c, 0x07590dcd);
  }

  lemma RoundsFrom16(start: Regs<bv32>, m: seq<bv32>, t: nat)
    requires |m| == 16
    requires Inputs(Ops256(), m, t)
          == ([0x61626380, 0x000f0000, 0x7da86405, 0x600003c6, 0x3e9d7b78, 0x0183fc00, 0x12dcbfdb, 0xe2e2c38e],
              [0xe49b69c1, 0xefbe4786, 0x0fc19dc6, 0x240ca1cc, 0x2de92c6f, 0x4a7484aa, 0x5cb0a9dc, 0x76f988da])
    requires Rounds(Ops256(), start, m, t)
          == Regs(0xb0fa238e, 0xc0645fde, 0xd932eb16, 0x87912990, 0x07590dcd, 0x0b92f20c, 0x745a48de, 0x1e578218)
    ensures Rounds(Ops256(), start, m, t + 8)
         == Regs(0xc5d53d8d, 0xa7a3623f, 0xc2606d6d, 0x9dc68b63, 0xaa47c347, 0x49f5114a, 0xe1257970, 0x8ada8930)
  {
    EightRounds<bv32>(Ops256(), start, m, t,
                      0x61626380, 0x000f0000, 0x7da86405, 0x600003c6, 0x3e9d7b78, 0x0183fc00, 0x12dcbfdb, 0xe2e2c38e,
                      0xe49b69c1, 0xefbe4786, 0x0fc19dc6, 0x240ca1cc, 0x2de92c6f, 0x4a7484aa, 0x5cb0a9dc, 0x76f988da,
                      0xb0fa238e, 0xc0645fde, 0xd932eb16, 0x87912990, 0x07590dcd, 0x0b92f20c, 0x745a48de, 0x1e578218,
                      0x21da9a9b, 0xc2fbd9d1, 0xfe777bbf, 0xe1f20c33, 0x9dc68b63, 0xc2606d6d, 0xa7a3623f, 0xc5d53d8d,
                      0x8034229c, 0x846ee454, 0xcc899961, 0xb0638179, 0x8ada8930, 0xe1257970, 0x49f5114a, 0xaa47c347);
  }

  lemma RoundsFrom24(start: Regs<bv32>, m: seq<bv32>, t: nat)
    requires |m| == 16
    requires Inputs(Ops256(), m, t)
          == ([0xc8215c1a, 0xb73679a2, 0xe5bc3909, 0x32663c5b, 0x9d209d67, 0xec8726cb, 0x702138a4, 0xd3b7973b],
              [0x983e5152, 0xa831c66d, 0xb00327c8, 0xbf597fc7, 0xc6e00bf3, 0xd5a79147, 0x06ca6351, 0x14292967])
    requires Rounds(Ops256(), start, m, t)
          == Regs(0xc5d53d8d, 0xa7a3623f, 0xc2606d6d, 0x9dc68b63, 0xaa47c347, 0x49f5114a, 0xe1257970, 0x8ada8930)
    ensures Rounds(Ops256(), start, m, t + 8)
         == Regs(0x73b33bf5, 0xea992a22, 0xa0060b30, 0x363482c9, 0xba591112, 0x0109ab3a, 0xade79437, 0x6112a3b7)
  {
    EightRounds<bv32>(Ops256(), start, m, t,
                      0xc8215c1a, 0xb73679a2, 0xe5bc3909, 0x32663c5b, 0x9d209d67, 0xec8726cb, 0x702138a4, 0xd3b7973b,
                      0x983e5152, 0xa831c66d, 0xb00327c8, 0xbf597fc7, 0xc6e00bf3, 0xd5a79147, 0x06ca6351, 0x14292967,
                      0xc5d53d8d, 0xa7a3623f, 0xc2606d6d, 0x9dc68b63, 0xaa47c347, 0x49f5114a, 0xe1257970, 0x8ada8930,
                      0x1c2c2838, 0xcde8037d, 0xb62ec4bc, 0x77d37528, 0x363482c9, 0xa0060b30, 0xea992a22, 0x73b33bf5,
                      0x2823ef91, 0x14383d8e, 0xc74c6516, 0xedffbff8, 0x6112a3b7, 0xade79437, 0x0109ab3a, 0xba591112);
  }

  lemma RoundsFrom32(start: Regs<bv32>, m: seq<bv32>, t: nat)
    requires |m| == 16
    requires Inputs(Ops256(), m, t)
          == ([0x93f5997f, 0x3b68ba73, 0xaff4ffc1, 0xf10a5c62, 0x0a8b3996, 0x72af830a, 0x9409e33e, 0x24641522],
              [0x27b70a85, 0x2e1b2138, 0x4d2c6dfc, 0x53380d13, 0x650a7354, 0x766a0abb, 0x81c2c92e, 0x92722c85])
    requires Rounds(Ops256(), start, m, t)
          == Regs(0x73b33bf5, 0xea992a22, 0xa0060b30, 0x363482c9, 0xba591112, 0x0109ab3a, 0xade79437, 0x6112a3b7)
    ensures Rounds(Ops256(), start, m, t + 8)
         == Regs(0x79ea687a, 0x6dc57a8a, 0x34df1604, 0x41a65cb1, 0x1efbc0a0, 0xf0781bc8, 0xa507a53d, 0x0772a26b)
  {
    EightRounds<bv32>(Ops256(), start, m, t,
                      0x93f5997f, 0x3b68ba73, 0xaff4ffc1, 0xf10a5c62, 0x0a8b3996, 0x72af830a, 0x9409e33e, 0x24641522,
                      0x27b70a85, 0x2e1b2138, 0x4d2c6dfc, 0x53380d13, 0x650a7354, 0x766a0abb, 0x81c2c92e, 0x92722c85,
                      0x73b33bf5, 0xea992a22, 0xa0060b30, 0x363482c9, 0xba591112, 0x0109ab3a, 0xade79437, 0x6112a3b7,
                      0x98e12507, 0xfe604df5, 0xa9a7738c, 0x65a0cfe4, 0x41a65cb1, 0x34df1604, 0x6dc57a8a, 0x79ea687a,
                      0x9cd9f5f6, 0x59249dd3, 0x085f3833, 0xf4b002d6, 0x0772a26b, 0xa507a53d, 0xf0781bc8, 0x1efbc0a0);
  }

  lemma RoundsFrom40(start: Regs<bv32>, m: seq<bv32>, t: nat)
    requires |m| == 16
    requires Inputs(Ops256(), m, t)
          == ([0x9f47bf94, 0xf0a64f5a, 0x3e246a79, 0x27333ba3, 0x0c4763f2, 0x840abf27, 0x7a290d5d, 0x065c43da],
              [0xa2bfe8a1, 0xa81a664b, 0xc24b8b70, 0xc76c51a3, 0xd192e819, 0xd6990624, 0xf40e3585, 0x106aa070])
    requires Rounds(Ops256(), start, m, t)
          == Regs(0x79ea687a, 0x6dc57a8a, 0x34df1604, 0x41a65cb1, 0x1efbc0a0, 0xf0781bc8, 0xa507a53d, 0x0772a26b)
    ensures Rounds(Ops256(), start, m, t + 8)
         == Regs(0x4172328d, 0xa14c14b0, 0x72ab4b91, 0x26628815, 0xfecf0bc6, 0xd57b94a9, 0xb7755da1, 0xa80f11f0)
  {
    EightRounds<bv32>(Ops256(), start, m, t,
                      0x9f47bf94, 0xf0a64f5a, 0x3e246a79, 0x27333ba3, 0x0c4763f2, 0x840abf27, 0x7a290d5d, 0x065c43da,
                      0xa2bfe8a1, 0xa81a664b, 0xc24b8b70, 0xc76c51a3, 0xd192e819, 0xd6990624, 0xf40e3585, 0x106aa070,
                      0x79ea687a, 0x6dc57a8a, 0x34df1604, 0x41a65cb1, 0x1efbc0a0, 0xf0781bc8, 0xa507a53d, 0x0772a26b,
                      0xd6670766, 0xdf46652f, 0x17aa0dfe, 0x9d4baf93, 0x26628815, 0x72ab4b91, 0xa14c14b0, 0x4172328d,
                      0x26352d63, 0x838b2711, 0xdecd4715, 0xfda24c2e, 0xa80f11f0, 0xb7755da1, 0xd57b94a9, 0xfecf0bc6);
  }

  lemma RoundsFrom48(start: Regs<bv32>, m: seq<bv32>, t: nat)
    requires |m| == 16
    requires Inputs(Ops256(), m, t)
          == ([0xfb3e89cb, 0xcc7617db, 0xb9e66c34, 0xa9993667, 0x84badedd, 0xc21462bc, 0x1487472c, 0xb20f7a99],
              [0x19a4c116, 0x1e376c08, 0x2748774c, 0x34b0bcb5, 0x391c0cb3, 0x4ed8aa4a, 0x5b9cca4f, 0x682e6ff3])
    requires Rounds(Ops256(), start, m, t)
          == Regs(0x4172328d, 0xa14c14b0, 0x72ab4b91, 0x26628815, 0xfecf0bc6, 0xd57b94a9, 0xb7755da1, 0xa80f11f0)
    ensures Rounds(Ops256(), start, m, t + 8)
         == Regs(0x38cc9913, 0x3ec45cdb, 0xf5702fdb, 0x101fd28f, 0x54cb266b, 0xe50e1b4f, 0x9f4787c3, 0x529e7d00)
  {
    EightRounds<bv32>(Ops256(), start, m, t,
                      0xfb3e89cb, 0xcc7617db, 0xb9e66c34, 0xa9993667, 0x84badedd, 0xc21462bc, 0x1487472c, 0xb20f7a99,
                      0x19a4c116, 0x1e376c08, 0x2748774c, 0x34b0bcb5, 0x391c0cb3, 0x4ed8aa4a, 0x5b9cca4f, 0x682e6ff3,
                      0x4172328d, 0xa14c14b0, 0x72ab4b91, 0x26628815, 0xfecf0bc6, 0xd57b94a9, 0xb7755da1, 0xa80f11f0,
                      0x05757ceb, 0xf11bfaa8, 0x7a0508a1, 0x886e7a22, 0x101fd28f, 0xf5702fdb, 0x3ec45cdb, 0x38cc9913,
                      0xbd714038, 0x6e5c390c, 0x52f1ccf7, 0x49231c1e, 0x529e7d00, 0x9f4787c3, 0xe50e1b4f, 0x54cb266b);
  }

  lemma RoundsFrom56(start: Regs<bv32>, m: seq<bv32>, t: nat)
    requires |m| == 16
    requires Inputs(Ops256(), m, t)
          == ([0xef57b9cd, 0xebe6b238, 0x9fe3095e, 0x78bc8d4b, 0xa43fcf15, 0x668b2ff8, 0xeeaba2cc, 0x12b1edeb],
              [0x748f82ee, 0x78a5636f, 0x84c87814, 0x8cc70208, 0x90befffa, 0xa4506ceb, 0xbef9a3f7, 0xc67178f2])
    requires Rounds(Ops256(), start, m, t)
          == Regs(0x38cc9913, 0x3ec45cdb, 0xf5702fdb, 0x101fd28f, 0x54cb266b, 0xe50e1b4f, 0x9f4787c3, 0x529e7d00)
    ensures Rounds(Ops256(), start, m, t + 8)
         == Regs(0x506e3058, 0xd39a2165, 0x04d24d6c, 0xb85e2ce9, 0x5ef50f24, 0xfb121210, 0x948d25b6, 0x961f4894)
  {
    EightRounds<bv32>(Ops256(), start, m, t,
                      0xef57b9cd, 0xebe6b238, 0x9fe3095e, 0x78bc8d4b, 0xa43fcf15, 0x668b2ff8, 0xeeaba2cc, 0x12b1edeb,
                      0x748f82ee, 0x78a5636f, 0x84c87814, 0x8cc70208, 0x90befffa, 0xa4506ceb, 0xbef9a3f7, 0xc67178f2,
                      0x38cc9913, 0x3ec45cdb, 0xf5702fdb, 0x101fd28f, 0x54cb266b, 0xe50e1b4f, 0x9f4787c3, 0x529e7d00,
                      0xfcd1887b, 0xc062d46f, 0xffb70472, 0xb6ae8fff, 0xb85e2ce9, 0x04d24d6c, 0xd39a2165, 0x506e3058,
                      0x9b5e906c, 0x7e44008e, 0x6d83bfc6, 0xb21bad3d, 0x961f4894, 0x948d25b6, 0xfb121210, 0x5ef50f24);
  }

  lemma Constants0(m: seq<bv32>, t: nat)
    requires |m| == 16 && t == 0
    ensures Inputs(Ops256(), m, t).1
         == [0x428a2f98, 0x71374491, 0xb5c0fbcf, 0xe9b5dba5, 0x3956c25b, 0x59f111f1, 0x923f82a4, 0xab1c5ed5]
  {
  }

  lemma Constants8(m: seq<bv32>, t: nat)
    requires |m| == 16 && t == 8
    ensures Inputs(Ops256(), m, t).1
         == [0xd807aa98, 0x12835b01, 0x243185be, 0x550c7dc3, 0x72be5d74, 0x80deb1fe, 0x9bdc06a7, 0xc19bf174]
  {
  }

  lemma Constants16(m: seq<bv32>, t: nat)
    requires |m| == 16 && t == 16
    ensures Inputs(Ops256(), m, t).1
         == [0xe49b69c1, 0xefbe4786, 0x0fc19dc6, 0x240ca1cc, 0x2de92c6f, 0x4a7484aa, 0x5cb0a9dc, 0x76f988da]
  {
  }

  lemma Constants24(m: seq<bv32>, t: nat)
    requires |m| == 16 && t == 24
    ensures Inputs(Ops256(), m, t).1
         == [0x983e5152, 0xa831c66d, 0xb00327c8, 0xbf597fc7, 0xc6e00bf3, 0xd5a79147, 0x06ca6351, 0x14292967]
  {
  }

  lemma Constants32(m: seq<bv32>, t: nat)
    requires |m| == 16 && t == 32
    ensures Inputs(Ops256(), m, t).1
         == [0x27b70a85, 0x2e1b2138, 0x4d2c6dfc, 0x53380d13, 0x650a7354, 0x766a0abb, 0x81c2c92e, 0x92722c85]
  {
  }

  lemma Constants40(m: seq<bv32>, t: nat)
    requires |m| == 16 && t == 40
    ensures Inputs(Ops256(), m, t).1
         == [0xa2bfe8a1, 0xa81a664b, 0xc24b8b70, 0xc76c51a3, 0xd192e819, 0xd6990624, 0xf40e3585, 0x106aa070]
  {
  }

  lemma Constants48(m: seq<bv32>, t: nat)
    requires |m| == 16 && t == 48
    ensures Inputs(Ops256(), m, t).1
         == [0x19a4c116, 0x1e376c08, 0x2748774c, 0x34b0bcb5, 0x391c0cb3, 0x4ed8aa4a, 0x5b9cca4f, 0x682e6ff3]
  {
  }

  lemma Constants56(m: seq<bv32>, t: nat)
    requires |m| == 16 && t == 56
    ensures Inputs(Ops256(), m, t).1
         == [0x748f82ee, 0x78a5636f, 0x84c87814, 0x8cc70208, 0x90befffa, 0xa4506ceb, 0xbef9a3f7, 0xc67178f2]
  {
  }

  lemma FromWords<T>(o: Ops2<T>, m: seq<T>, t: nat,
                     w0: T, w1: T, w2: T, w3: T, w4: T, w5: T, w6: T, w7: T,
                     w8: T, w9: T, w10: T, w11: T, w12: T, w13: T, w14: T, w15: T)
    requires |m| == 16 && Words(o, m, t) == [w0, w1, w2, w3, w4, w5, w6, w7, w8, w9, w10, w11, w12, w13, w14, w15]
    ensures Inputs(o, m, t).0 == [w0, w1, w2, w3, w4, w5, w6, w7]
    ensures Inputs(o, m, t + 8).0 == [w8, w9, w10, w11, w12, w13, w14, w15]
  {
    var ws := Words(o, m, t);
    assert ws[0] == Schedule(o, m, t + 0) && ws[8] == Schedule(o, m, t + 8);
  }

  lemma FirstWords<T>(o: Ops2<T>, m: seq<T>, t: nat)
    requires |m| == 16 && t == 0
    ensures Words(o, m, t) == m
  {
  }

  lemma Sixteen0(start: Regs<bv32>, m: seq<bv32>, t: nat)
    requires |m| == 16 && t == 0
    requires Words(Ops256(), m, t)
          == [0x61626380, 0x00000000, 0x00000000, 0x00000000, 0x00000000, 0x00000000, 0x00000000, 0x00000000,
              0x00000000, 0x00000000, 0x00000000, 0x00000000, 0x00000000, 0x00000000, 0x00000000, 0x00000018]
    requires Rounds(Ops256(), start, m, t)
          == Regs(0x6a09e667, 0xbb67ae85, 0x3c6ef372, 0xa54ff53a, 0x510e527f, 0x9b05688c, 0x1f83d9ab, 0x5be0cd19)
    ensures Rounds(Ops256(), start, m, t + 16)
         == Regs(0xb0fa238e, 0xc0645fde, 0xd932eb16, 0x87912990, 0x07590dcd, 0x0b92f20c, 0x745a48de, 0x1e578218)
  {
    FromWords<bv32>(Ops256(), m, t,
                    0x61626380, 0x00000000, 0x00000000, 0x00000000, 0x00000000, 0x00000000, 0x00000000, 0x00000000,
                    0x00000000, 0x00000000, 0x00000000, 0x00000000, 0x00000000, 0x00000000, 0x00000000, 0x00000018);
    Constants0(m, t);
    Constants8(m, t + 8);
    RoundsFrom0(start, m, t);
    RoundsFrom8(start, m, t + 8);
  }

  lemma Sixteen16(start: Regs<bv32>, m: seq<bv32>, t: nat)
    requires |m| == 16 && t == 16
    requires Words(Ops256(), m, t)
          == [0x61626380, 0x000f0000, 0x7da86405, 0x600003c6, 0x3e9d7b78, 0x0183fc00, 0x12dcbfdb, 0xe2e2c38e,
              0xc8215c1a, 0xb73679a2, 0xe5bc3909, 0x32663c5b, 0x9d209d67, 0xec8726cb, 0x702138a4, 0xd3b7973b]
    requires Rounds(Ops256(), start, m, t)
          == Regs(0xb0fa238e, 0xc0645fde, 0xd932eb16, 0x87912990, 0x07590dcd, 0x0b92f20c, 0x745a48de, 0x1e578218)
    ensures Rounds(Ops256(), start, m, t + 16)
         == Regs(0x73b33bf5, 0xea992a22, 0xa0060b30, 0x363482c9, 0xba591112, 0x0109ab3a, 0xade79437, 0x6112a3b7)
  {
    FromWords<bv32>(Ops256(), m, t,
                    0x61626380, 0x000f0000, 0x7da86405, 0x600003c6, 0x3e9d7b78, 0x0183fc00, 0x12dcbfdb, 0xe2e2c38e,
                    0xc8215c1a, 0xb73679a2, 0xe5bc3909, 0x32663c5b, 0x9d209d67, 0xec8726cb, 0x702138a4, 0xd3b7973b);
    Constants16(m, t);
    Constants24(m, t + 8);
    RoundsFrom16(start, m, t);
    RoundsFrom24(start, m, t + 8);
  }

  lemma Sixteen32(start: Regs<bv32>, m: seq<bv32>, t: nat)
    requires |m| == 16 && t == 32
    requires Words(Ops256(), m, t)
          == [0x93f5997f, 0x3b68ba73, 0xaff4ffc1, 0xf10a5c62, 0x0a8b3996, 0x72af830a, 0x9409e33e, 0x24641522,
              0x9f47bf94, 0xf0a64f5a, 0x3e246a79, 0x27333ba3, 0x0c4763f2, 0x840abf27, 0x7a290d5d, 0x065c43da]
    requires Rounds(Ops256(), start, m, t)
          == Regs(0x73b33bf5, 0xea992a22, 0xa0060b30, 0x363482c9, 0xba591112, 0x0109ab3a, 0xade79437, 0x6112a3b7)
    ensures Rounds(Ops256(), start, m, t + 16)
         == Regs(0x4172328d, 0xa14c14b0, 0x72ab4b91, 0x26628815, 0xfecf0bc6, 0xd57b94a9, 0xb7755da1, 0xa80f11f0)
  {
    FromWords<bv32>(Ops256(), m, t,
                    0x93f5997f, 0x3b68ba73, 0xaff4ffc1, 0xf10a5c62, 0x0a8b3996, 0x72af830a, 0x9409e33e, 0x24641522,
                    0x9f47bf94, 0xf0a64f5a, 0x3e246a79, 0x27333ba3, 0x0c4763f2, 0x840abf27, 0x7a290d5d, 0x065c43da);
    Constants32(m, t);
    Constants40(m, t + 8);
    RoundsFrom32(start, m, t);
    RoundsFrom40(start, m, t + 8);
  }

  lemma Sixteen48(start: Regs<bv32>, m: seq<bv32>, t: nat)
    requires |m| == 16 && t == 48
    requires Words(Ops256(), m, t)
          == [0xfb3e89cb, 0xcc7617db, 0xb9e66c34, 0xa9993667, 0x84badedd, 0xc21462bc, 0x1487472c, 0xb20f7a99,
              0xef57b9cd, 0xebe6b238, 0x9fe3095e, 0x78bc8d4b, 0xa43fcf15, 0x668b2ff8, 0xeeaba2cc, 0x12b1edeb]
    requires Rounds(Ops256(), start, m, t)
          == Regs(0x4172328d, 0xa14c14b0, 0x72ab4b91, 0x26628815, 0xfecf0bc6, 0xd57b94a9, 0xb7755da1, 0xa80f11f0)
    ensures Rounds(Ops256(), start, m, t + 16)
         == Regs(0x506e3058, 0xd39a2165, 0x04d24d6c, 0xb85e2ce9, 0x5ef50f24, 0xfb121210, 0x948d25b6, 0x961f4894)
  {
    FromWords<bv32>(Ops256(), m, t,
                    0xfb3e89cb, 0xcc7617db, 0xb9e66c34, 0xa9993667, 0x84badedd, 0xc21462bc, 0x1487472c, 0xb20f7a99,
                    0xef57b9cd, 0xebe6b238, 0x9fe3095e, 0x78bc8d4b, 0xa43fcf15, 0x668b2ff8, 0xeeaba2cc, 0x12b1edeb);
    Constants48(m, t);
    Constants56(m, t + 8);
    RoundsFrom48(start, m, t);
    RoundsFrom56(start, m, t + 8);
  }

  lemma FirstRounds(start: Regs<bv32>, m: seq<bv32>, t0: nat, t1: nat, t2: nat)
    requires t0 == 0 && t1 == t0 + 16 && t2 == t1 + 16
    requires m == [0x61626380, 0x00000000, 0x00000000, 0x00000000, 0x00000000, 0x00000000, 0x00000000, 0x00000000,
                   0x00000000, 0x00000000, 0x00000000, 0x00000000, 0x00000000, 0x00000000, 0x00000000, 0x00000018]
    requires start == Regs(0x6a09e667, 0xbb67ae85, 0x3c6ef372, 0xa54ff53a, 0x510e527f, 0x9b05688c, 0x1f83d9ab, 0x5be0cd19)
    ensures Words(Ops256(), m, t2)
         == [0x93f5997f, 0x3b68ba73, 0xaff4ffc1, 0xf10a5c62, 0x0a8b3996, 0x72af830a, 0x9409e33e, 0x24641522,
             0x9f47bf94, 0xf0a64f5a, 0x3e246a79, 0x27333ba3, 0x0c4763f2, 0x840abf27, 0x7a290d5d, 0x065c43da]
    ensures Rounds(Ops256(), start, m, t2)
         == Regs(0x73b33bf5, 0xea992a22, 0xa0060b30, 0x363482c9, 0xba591112, 0x0109ab3a, 0xade79437, 0x6112a3b7)
  {
    FirstWords<bv32>(Ops256(), m, t0);
    WordsFrom16(m, t0);
    WordsFrom32(m, t1);
    assert Rounds(Ops256(), start, m, t0) == start;
    Sixteen0(start, m, t0);
    Sixteen16(start, m, t1);
  }

  lemma AllRounds(start: Regs<bv32>, m: seq<bv32>, t2: nat, t3: nat, n: nat)
    requires t2 == 32 && t3 == t2 + 16 && n == t3 + 16
    requires m == [0x61626380, 0x00000000, 0x00000000, 0x00000000, 0x00000000, 0x00000000, 0x00000000, 0x00000000,
                   0x00000000, 0x00000000, 0x00000000, 0x00000000, 0x00000000, 0x00000000, 0x00000000, 0x00000018]
    requires start == Regs(0x6a09e667, 0xbb67ae85, 0x3c6ef372, 0xa54ff53a, 0x510e527f, 0x9b05688c, 0x1f83d9ab, 0x5be0cd19)
    ensures Rounds(Ops256(), start, m, n)
         == Regs(0x506e3058, 0xd39a2165, 0x04d24d6c, 0xb85e2ce9, 0x5ef50f24, 0xfb121210, 0x948d25b6, 0x961f4894)
  {
    FirstRounds(start, m, t2 - 32, t2 - 16, t2);
    WordsFrom48(m, t2);
    Sixteen32(start, m, t2);
    Sixteen48(start, m, t3);
  }

  lemma CompressIs<T>(o: Ops2<T>, d: seq<T>, m: seq<T>, n: nat, x: Regs<T>)
    requires |d| == 8 && |m| == 16 && n == 64 && x == Rounds(o, Regs(d[0], d[1], d[2], d[3], d[4], d[5], d[6], d[7]), m, n)
    ensures Compress(o, d, m)
         == [o.add(d[0], x.a), o.add(d[1], x.b), o.add(d[2], x.c), o.add(d[3], x.d),
             o.add(d[4], x.e), o.add(d[5], x.f), o.add(d[6], x.g), o.add(d[7], x.h)]
  {
  }

  /** The compression of the one block of the message. */
  lemma Compressed(m: seq<bv32>)
    requires m == [0x61626380, 0x00000000, 0x00000000, 0x00000000, 0x00000000, 0x00000000, 0x00000000, 0x00000000,
                   0x00000000, 0x00000000, 0x00000000, 0x00000000, 0x00000000, 0x00000000, 0x00000000, 0x00000018]
    ensures Compress(Ops256(), INIT256, m)
         == [0xba7816bf, 0x8f01cfea, 0x414140de, 0x5dae2223, 0xb00361a3, 0x96177a9c, 0xb410ff61, 0xf20015ad]
  {
    var start := Regs(0x6a09e667, 0xbb67ae85, 0x3c6ef372, 0xa54ff53a, 0x510e527f, 0x9b05688c, 0x1f83d9ab, 0x5be0cd19);
    AllRounds(start, m, 32, 48, 64);
    CompressIs<bv32>(Ops256(), INIT256, m, 64, Rounds(Ops256(), start, m, 64));
  }
}
