/** A known answer: the digest of the three bytes "abc", with every schedule word and every round's working variables,
    as in the examples published with FIPS 180-4. */
module Sha256Example {
  import opened Sha256Spec
  import opened Sha256Bits

  // ---------- The schedule ----------

  /** A later schedule word, from the four earlier ones it is made of. */
  lemma OneWord(ws: seq<word>, block: seq<byte>, t: nat, w16: word, w15: word, w7: word, w2: word, w: word)
    requires |block| == 64 && ws == ScheduleOf(block) && 16 <= t < 64
    requires ws[t - 16] == w16 && ws[t - 15] == w15 && ws[t - 7] == w7 && ws[t - 2] == w2
    requires var s0 := Xor3((w15 >> 7) | (w15 << 25), (w15 >> 18) | (w15 << 14), w15 >> 3);
             var s1 := Xor3((w2 >> 17) | (w2 << 15), (w2 >> 19) | (w2 << 13), w2 >> 10);
             w == Add(Add(Add(w16, s0), w7), s1)
    ensures ws[t] == w
  {
    SmallSigma0Shifts(w15);
    SmallSigma1Shifts(w2);
    hide SmallSigma0, SmallSigma1, Add, Xor3;
  }

  lemma Words16To31(ws: seq<word>, block: seq<byte>)
    requires |block| == 64 && ws == ScheduleOf(block)
             && ws[0] == 0x61626380 && ws[1] == 0x00000000 && ws[2] == 0x00000000 && ws[3] == 0x00000000
             && ws[4] == 0x00000000 && ws[5] == 0x00000000 && ws[6] == 0x00000000 && ws[7] == 0x00000000
             && ws[8] == 0x00000000 && ws[9] == 0x00000000 && ws[10] == 0x00000000 && ws[11] == 0x00000000
             && ws[12] == 0x00000000 && ws[13] == 0x00000000 && ws[14] == 0x00000000 && ws[15] == 0x00000018
    ensures
      && ws[16] == 0x61626380 && ws[17] == 0x000f0000 && ws[18] == 0x7da86405 && ws[19] == 0x600003c6
      && ws[20] == 0x3e9d7b78 && ws[21] == 0x0183fc00 && ws[22] == 0x12dcbfdb && ws[23] == 0xe2e2c38e
      && ws[24] == 0xc8215c1a && ws[25] == 0xb73679a2 && ws[26] == 0xe5bc3909 && ws[27] == 0x32663c5b
      && ws[28] == 0x9d209d67 && ws[29] == 0xec8726cb && ws[30] == 0x702138a4 && ws[31] == 0xd3b7973b
  {
    hide ScheduleOf;
    OneWord(ws, block, 16, 0x61626380, 0x00000000, 0x00000000, 0x00000000, 0x61626380);
    OneWord(ws, block, 17, 0x00000000, 0x00000000, 0x00000000, 0x00000018, 0x000f0000);
    OneWord(ws, block, 18, 0x00000000, 0x00000000, 0x00000000, 0x61626380, 0x7da86405);
    OneWord(ws, block, 19, 0x00000000, 0x00000000, 0x00000000, 0x000f0000, 0x600003c6);
    OneWord(ws, block, 20, 0x00000000, 0x00000000, 0x00000000, 0x7da86405, 0x3e9d7b78);
    OneWord(ws, block, 21, 0x00000000, 0x00000000, 0x00000000, 0x600003c6, 0x0183fc00);
    OneWord(ws, block, 22, 0x00000000, 0x00000000, 0x00000018, 0x3e9d7b78, 0x12dcbfdb);
    OneWord(ws, block, 23, 0x00000000, 0x00000000, 0x61626380, 0x0183fc00, 0xe2e2c38e);
    OneWord(ws, block, 24, 0x00000000, 0x00000000, 0x000f0000, 0x12dcbfdb, 0xc8215c1a);
    OneWord(ws, block, 25, 0x00000000, 0x00000000, 0x7da86405, 0xe2e2c38e, 0xb73679a2);
    OneWord(ws, block, 26, 0x00000000, 0x00000000, 0x600003c6, 0xc8215c1a, 0xe5bc3909);
    OneWord(ws, block, 27, 0x00000000, 0x00000000, 0x3e9d7b78, 0xb73679a2, 0x32663c5b);
    OneWord(ws, block, 28, 0x00000000, 0x00000000, 0x0183fc00, 0xe5bc3909, 0x9d209d67);
    OneWord(ws, block, 29, 0x00000000, 0x00000000, 0x12dcbfdb, 0x32663c5b, 0xec8726cb);
    OneWord(ws, block, 30, 0x00000000, 0x00000018, 0xe2e2c38e, 0x9d209d67, 0x702138a4);
    OneWord(ws, block, 31, 0x00000018, 0x61626380, 0xc8215c1a, 0xec8726cb, 0xd3b7973b);
  }

  lemma Words32To47(ws: seq<word>, block: seq<byte>)
    requires |block| == 64 && ws == ScheduleOf(block)
             && ws[16] == 0x61626380 && ws[17] == 0x000f0000 && ws[18] == 0x7da86405 && ws[19] == 0x600003c6
             && ws[20] == 0x3e9d7b78 && ws[21] == 0x0183fc00 && ws[22] == 0x12dcbfdb && ws[23] == 0xe2e2c38e
             && ws[24] == 0xc8215c1a && ws[25] == 0xb73679a2 && ws[26] == 0xe5bc3909 && ws[27] == 0x32663c5b
             && ws[28] == 0x9d209d67 && ws[29] == 0xec8726cb && ws[30] == 0x702138a4 && ws[31] == 0xd3b7973b
    ensures
      && ws[32] == 0x93f5997f && ws[33] == 0x3b68ba73 && ws[34] == 0xaff4ffc1 && ws[35] == 0xf10a5c62
      && ws[36] == 0x0a8b3996 && ws[37] == 0x72af830a && ws[38] == 0x9409e33e && ws[39] == 0x24641522
      && ws[40] == 0x9f47bf94 && ws[41] == 0xf0a64f5a && ws[42] == 0x3e246a79 && ws[43] == 0x27333ba3
      && ws[44] == 0x0c4763f2 && ws[45] == 0x840abf27 && ws[46] == 0x7a290d5d && ws[47] == 0x065c43da
  {
    hide ScheduleOf;
    OneWord(ws, block, 32, 0x61626380, 0x000f0000, 0xb73679a2, 0x702138a4, 0x93f5997f);
    OneWord(ws, block, 33, 0x000f0000, 0x7da86405, 0xe5bc3909, 0xd3b7973b, 0x3b68ba73);
    OneWord(ws, block, 34, 0x7da86405, 0x600003c6, 0x32663c5b, 0x93f5997f, 0xaff4ffc1);
    OneWord(ws, block, 35, 0x600003c6, 0x3e9d7b78, 0x9d209d67, 0x3b68ba73, 0xf10a5c62);
    OneWord(ws, block, 36, 0x3e9d7b78, 0x0183fc00, 0xec8726cb, 0xaff4ffc1, 0x0a8b3996);
    OneWord(ws, block, 37, 0x0183fc00, 0x12dcbfdb, 0x702138a4, 0xf10a5c62, 0x72af830a);
    OneWord(ws, block, 38, 0x12dcbfdb, 0xe2e2c38e, 0xd3b7973b, 0x0a8b3996, 0x9409e33e);
    OneWord(ws, block, 39, 0xe2e2c38e, 0xc8215c1a, 0x93f5997f, 0x72af830a, 0x24641522);
    OneWord(ws, block, 40, 0xc8215c1a, 0xb73679a2, 0x3b68ba73, 0x9409e33e, 0x9f47bf94);
    OneWord(ws, block, 41, 0xb73679a2, 0xe5bc3909, 0xaff4ffc1, 0x24641522, 0xf0a64f5a);
    OneWord(ws, block, 42, 0xe5bc3909, 0x32663c5b, 0xf10a5c62, 0x9f47bf94, 0x3e246a79);
    OneWord(ws, block, 43, 0x32663c5b, 0x9d209d67, 0x0a8b3996, 0xf0a64f5a, 0x27333ba3);
    OneWord(ws, block, 44, 0x9d209d67, 0xec8726cb, 0x72af830a, 0x3e246a79, 0x0c4763f2);
    OneWord(ws, block, 45, 0xec8726cb, 0x702138a4, 0x9409e33e, 0x27333ba3, 0x840abf27);
    OneWord(ws, block, 46, 0x702138a4, 0xd3b7973b, 0x24641522, 0x0c4763f2, 0x7a290d5d);
    OneWord(ws, block, 47, 0xd3b7973b, 0x93f5997f, 0x9f47bf94, 0x840abf27, 0x065c43da);
  }

  lemma Words48To63(ws: seq<word>, block: seq<byte>)
    requires |block| == 64 && ws == ScheduleOf(block)
             && ws[32] == 0x93f5997f && ws[33] == 0x3b68ba73 && ws[34] == 0xaff4ffc1 && ws[35] == 0xf10a5c62
             && ws[36] == 0x0a8b3996 && ws[37] == 0x72af830a && ws[38] == 0x9409e33e && ws[39] == 0x24641522
             && ws[40] == 0x9f47bf94 && ws[41] == 0xf0a64f5a && ws[42] == 0x3e246a79 && ws[43] == 0x27333ba3
             && ws[44] == 0x0c4763f2 && ws[45] == 0x840abf27 && ws[46] == 0x7a290d5d && ws[47] == 0x065c43da
    ensures
      && ws[48] == 0xfb3e89cb && ws[49] == 0xcc7617db && ws[50] == 0xb9e66c34 && ws[51] == 0xa9993667
      && ws[52] == 0x84badedd && ws[53] == 0xc21462bc && ws[54] == 0x1487472c && ws[55] == 0xb20f7a99
      && ws[56] == 0xef57b9cd && ws[57] == 0xebe6b238 && ws[58] == 0x9fe3095e && ws[59] == 0x78bc8d4b
      && ws[60] == 0xa43fcf15 && ws[61] == 0x668b2ff8 && ws[62] == 0xeeaba2cc && ws[63] == 0x12b1edeb
  {
    hide ScheduleOf;
    OneWord(ws, block, 48, 0x93f5997f, 0x3b68ba73, 0xf0a64f5a, 0x7a290d5d, 0xfb3e89cb);
    OneWord(ws, block, 49, 0x3b68ba73, 0xaff4ffc1, 0x3e246a79, 0x065c43da, 0xcc7617db);
    OneWord(ws, block, 50, 0xaff4ffc1, 0xf10a5c62, 0x27333ba3, 0xfb3e89cb, 0xb9e66c34);
    OneWord(ws, block, 51, 0xf10a5c62, 0x0a8b3996, 0x0c4763f2, 0xcc7617db, 0xa9993667);
    OneWord(ws, block, 52, 0x0a8b3996, 0x72af830a, 0x840abf27, 0xb9e66c34, 0x84badedd);
    OneWord(ws, block, 53, 0x72af830a, 0x9409e33e, 0x7a290d5d, 0xa9993667, 0xc21462bc);
    OneWord(ws, block, 54, 0x9409e33e, 0x24641522, 0x065c43da, 0x84badedd, 0x1487472c);
    OneWord(ws, block, 55, 0x24641522, 0x9f47bf94, 0xfb3e89cb, 0xc21462bc, 0xb20f7a99);
    OneWord(ws, block, 56, 0x9f47bf94, 0xf0a64f5a, 0xcc7617db, 0x1487472c, 0xef57b9cd);
    OneWord(ws, block, 57, 0xf0a64f5a, 0x3e246a79, 0xb9e66c34, 0xb20f7a99, 0xebe6b238);
    OneWord(ws, block, 58, 0x3e246a79, 0x27333ba3, 0xa9993667, 0xef57b9cd, 0x9fe3095e);
    OneWord(ws, block, 59, 0x27333ba3, 0x0c4763f2, 0x84badedd, 0xebe6b238, 0x78bc8d4b);
    OneWord(ws, block, 60, 0x0c4763f2, 0x840abf27, 0xc21462bc, 0x9fe3095e, 0xa43fcf15);
    OneWord(ws, block, 61, 0x840abf27, 0x7a290d5d, 0x1487472c, 0x78bc8d4b, 0x668b2ff8);
    OneWord(ws, block, 62, 0x7a290d5d, 0x065c43da, 0xb20f7a99, 0xa43fcf15, 0xeeaba2cc);
    OneWord(ws, block, 63, 0x065c43da, 0xfb3e89cb, 0xef57b9cd, 0x668b2ff8, 0x12b1edeb);
  }

  // ---------- The rounds ----------

  lemma OneRound(ws: seq<word>, r: nat, i: nat, a: word, b: word, c: word, d: word, e: word, f: word, g: word, h: word,
                 k: word, w: word, nextA: word, nextE: word)
    requires r < 8 && i < 8 && |ws| == 64 && ws[8 * r + i] == w && ConstantRow(r)[i] == k
    requires Rounds(INITIAL, ws[..8 * r + i]) == Hash(a, b, c, d, e, f, g, h)
    requires var s1 := Xor3((e >> 6) | (e << 26), (e >> 11) | (e << 21), (e >> 25) | (e << 7));
             var s0 := Xor3((a >> 2) | (a << 30), (a >> 13) | (a << 19), (a >> 22) | (a << 10));
             var temp1 := Add(Add(Add(Add(h, s1), Ch(e, f, g)), k), w);
             nextA == Add(temp1, Add(s0, Maj(a, b, c))) && nextE == Add(d, temp1)
    ensures Rounds(INITIAL, ws[..8 * r + i + 1]) == Hash(nextA, a, b, c, nextE, e, f, g)
  {
    BigSigma0Shifts(a);
    BigSigma1Shifts(e);
    hide INITIAL, ConstantRow, BigSigma0, BigSigma1, Add, Xor3, Ch, Maj;
    var t := 8 * r + i;
    assert RoundConstant(t) == k;
    assert ws[..t + 1][..t] == ws[..t];
  }

  lemma Rounds0(ws: seq<word>)
    requires |ws| == 64
             && ws[0] == 0x61626380 && ws[1] == 0x00000000 && ws[2] == 0x00000000 && ws[3] == 0x00000000
             && ws[4] == 0x00000000 && ws[5] == 0x00000000 && ws[6] == 0x00000000 && ws[7] == 0x00000000
    requires Rounds(INITIAL, ws[..0]) ==
             Hash(0x6a09e667, 0xbb67ae85, 0x3c6ef372, 0xa54ff53a, 0x510e527f, 0x9b05688c, 0x1f83d9ab, 0x5be0cd19)
    ensures Rounds(INITIAL, ws[..8]) ==
            Hash(0x85a07b5f, 0xe5030380, 0x2b4209f5, 0x04409a6a, 0x0c657a79, 0x9b27a401, 0x714260ad, 0x43ada245)
  {
    hide Rounds, INITIAL;
    OneRound(ws, 0, 0, 0x6a09e667, 0xbb67ae85, 0x3c6ef372, 0xa54ff53a, 0x510e527f, 0x9b05688c, 0x1f83d9ab, 0x5be0cd19,
             0x428a2f98, 0x61626380, 0x5d6aebcd, 0xfa2a4622);
    OneRound(ws, 0, 1, 0x5d6aebcd, 0x6a09e667, 0xbb67ae85, 0x3c6ef372, 0xfa2a4622, 0x510e527f, 0x9b05688c, 0x1f83d9ab,
             0x71374491, 0x00000000, 0x5a6ad9ad, 0x78ce7989);
    OneRound(ws, 0, 2, 0x5a6ad9ad, 0x5d6aebcd, 0x6a09e667, 0xbb67ae85, 0x78ce7989, 0xfa2a4622, 0x510e527f, 0x9b05688c,
             0xb5c0fbcf, 0x00000000, 0xc8c347a7, 0xf92939eb);
    OneRound(ws, 0, 3, 0xc8c347a7, 0x5a6ad9ad, 0x5d6aebcd, 0x6a09e667, 0xf92939eb, 0x78ce7989, 0xfa2a4622, 0x510e527f,
             0xe9b5dba5, 0x00000000, 0xd550f666, 0x24e00850);
    OneRound(ws, 0, 4, 0xd550f666, 0xc8c347a7, 0x5a6ad9ad, 0x5d6aebcd, 0x24e00850, 0xf92939eb, 0x78ce7989, 0xfa2a4622,
             0x3956c25b, 0x00000000, 0x04409a6a, 0x43ada245);
    OneRound(ws, 0, 5, 0x04409a6a, 0xd550f666, 0xc8c347a7, 0x5a6ad9ad, 0x43ada245, 0x24e00850, 0xf92939eb, 0x78ce7989,
             0x59f111f1, 0x00000000, 0x2b4209f5, 0x714260ad);
    OneRound(ws, 0, 6, 0x2b4209f5, 0x04409a6a, 0xd550f666, 0xc8c347a7, 0x714260ad, 0x43ada245, 0x24e00850, 0xf92939eb,
             0x923f82a4, 0x00000000, 0xe5030380, 0x9b27a401);
    OneRound(ws, 0, 7, 0xe5030380, 0x2b4209f5, 0x04409a6a, 0xd550f666, 0x9b27a401, 0x714260ad, 0x43ada245, 0x24e00850,
             0xab1c5ed5, 0x00000000, 0x85a07b5f, 0x0c657a79);
  }

  lemma Rounds1(ws: seq<word>)
    requires |ws| == 64
             && ws[8] == 0x00000000 && ws[9] == 0x00000000 && ws[10] == 0x00000000 && ws[11] == 0x00000000
             && ws[12] == 0x00000000 && ws[13] == 0x00000000 && ws[14] == 0x00000000 && ws[15] == 0x00000018
    requires Rounds(INITIAL, ws[..8]) ==
             Hash(0x85a07b5f, 0xe5030380, 0x2b4209f5, 0x04409a6a, 0x0c657a79, 0x9b27a401, 0x714260ad, 0x43ada245)
    ensures Rounds(INITIAL, ws[..16]) ==
            Hash(0xb0fa238e, 0xc0645fde, 0xd932eb16, 0x87912990, 0x07590dcd, 0x0b92f20c, 0x745a48de, 0x1e578218)
  {
    hide Rounds, INITIAL;
    OneRound(ws, 1, 0, 0x85a07b5f, 0xe5030380, 0x2b4209f5, 0x04409a6a, 0x0c657a79, 0x9b27a401, 0x714260ad, 0x43ada245,
             0xd807aa98, 0x00000000, 0x8e04ecb9, 0x32ca2d8c);
    OneRound(ws, 1, 1, 0x8e04ecb9, 0x85a07b5f, 0xe5030380, 0x2b4209f5, 0x32ca2d8c, 0x0c657a79, 0x9b27a401, 0x714260ad,
             0x12835b01, 0x00000000, 0x8c87346b, 0x1cc92596);
    OneRound(ws, 1, 2, 0x8c87346b, 0x8e04ecb9, 0x85a07b5f, 0xe5030380, 0x1cc92596, 0x32ca2d8c, 0x0c657a79, 0x9b27a401,
             0x243185be, 0x00000000, 0x4798a3f4, 0x436b23e8);
    OneRound(ws, 1, 3, 0x4798a3f4, 0x8c87346b, 0x8e04ecb9, 0x85a07b5f, 0x436b23e8, 0x1cc92596, 0x32ca2d8c, 0x0c657a79,
             0x550c7dc3, 0x00000000, 0xf71fc5a9, 0x816fd6e9);
    OneRound(ws, 1, 4, 0xf71fc5a9, 0x4798a3f4, 0x8c87346b, 0x8e04ecb9, 0x816fd6e9, 0x436b23e8, 0x1cc92596, 0x32ca2d8c,
             0x72be5d74, 0x00000000, 0x87912990, 0x1e578218);
    OneRound(ws, 1, 5, 0x87912990, 0xf71fc5a9, 0x4798a3f4, 0x8c87346b, 0x1e578218, 0x816fd6e9, 0x436b23e8, 0x1cc92596,
             0x80deb1fe, 0x00000000, 0xd932eb16, 0x745a48de);
    OneRound(ws, 1, 6, 0xd932eb16, 0x87912990, 0xf71fc5a9, 0x4798a3f4, 0x745a48de, 0x1e578218, 0x816fd6e9, 0x436b23e8,
             0x9bdc06a7, 0x00000000, 0xc0645fde, 0x0b92f20c);
    OneRound(ws, 1, 7, 0xc0645fde, 0xd932eb16, 0x87912990, 0xf71fc5a9, 0x0b92f20c, 0x745a48de, 0x1e578218, 0x816fd6e9,
             0xc19bf174, 0x00000018, 0xb0fa238e, 0x07590dcd);
  }

  lemma Rounds2(ws: seq<word>)
    requires |ws| == 64
             && ws[16] == 0x61626380 && ws[17] == 0x000f0000 && ws[18] == 0x7da86405 && ws[19] == 0x600003c6
             && ws[20] == 0x3e9d7b78 && ws[21] == 0x0183fc00 && ws[22] == 0x12dcbfdb && ws[23] == 0xe2e2c38e
    requires Rounds(INITIAL, ws[..16]) ==
             Hash(0xb0fa238e, 0xc0645fde, 0xd932eb16, 0x87912990, 0x07590dcd, 0x0b92f20c, 0x745a48de, 0x1e578218)
    ensures Rounds(INITIAL, ws[..24]) ==
            Hash(0xc5d53d8d, 0xa7a3623f, 0xc2606d6d, 0x9dc68b63, 0xaa47c347, 0x49f5114a, 0xe1257970, 0x8ada8930)
  {
    hide Rounds, INITIAL;
    OneRound(ws, 2, 0, 0xb0fa238e, 0xc0645fde, 0xd932eb16, 0x87912990, 0x07590dcd, 0x0b92f20c, 0x745a48de, 0x1e578218,
             0xe49b69c1, 0x61626380, 0x21da9a9b, 0x8034229c);
    OneRound(ws, 2, 1, 0x21da9a9b, 0xb0fa238e, 0xc0645fde, 0xd932eb16, 0x8034229c, 0x07590dcd, 0x0b92f20c, 0x745a48de,
             0xefbe4786, 0x000f0000, 0xc2fbd9d1, 0x846ee454);
    OneRound(ws, 2, 2, 0xc2fbd9d1, 0x21da9a9b, 0xb0fa238e, 0xc0645fde, 0x846ee454, 0x8034229c, 0x07590dcd, 0x0b92f20c,
             0x0fc19dc6, 0x7da86405, 0xfe777bbf, 0xcc899961);
    OneRound(ws, 2, 3, 0xfe777bbf, 0xc2fbd9d1, 0x21da9a9b, 0xb0fa238e, 0xcc899961, 0x846ee454, 0x8034229c, 0x07590dcd,
             0x240ca1cc, 0x600003c6, 0xe1f20c33, 0xb0638179);
    OneRound(ws, 2, 4, 0xe1f20c33, 0xfe777bbf, 0xc2fbd9d1, 0x21da9a9b, 0xb0638179, 0xcc899961, 0x846ee454, 0x8034229c,
             0x2de92c6f, 0x3e9d7b78, 0x9dc68b63, 0x8ada8930);
    OneRound(ws, 2, 5, 0x9dc68b63, 0xe1f20c33, 0xfe777bbf, 0xc2fbd9d1, 0x8ada8930, 0xb0638179, 0xcc899961, 0x846ee454,
             0x4a7484aa, 0x0183fc00, 0xc2606d6d, 0xe1257970);
    OneRound(ws, 2, 6, 0xc2606d6d, 0x9dc68b63, 0xe1f20c33, 0xfe777bbf, 0xe1257970, 0x8ada8930, 0xb0638179, 0xcc899961,
             0x5cb0a9dc, 0x12dcbfdb, 0xa7a3623f, 0x49f5114a);
    OneRound(ws, 2, 7, 0xa7a3623f, 0xc2606d6d, 0x9dc68b63, 0xe1f20c33, 0x49f5114a, 0xe1257970, 0x8ada8930, 0xb0638179,
             0x76f988da, 0xe2e2c38e, 0xc5d53d8d, 0xaa47c347);
  }

  lemma Rounds3(ws: seq<word>)
    requires |ws| == 64
             && ws[24] == 0xc8215c1a && ws[25] == 0xb73679a2 && ws[26] == 0xe5bc3909 && ws[27] == 0x32663c5b
             && ws[28] == 0x9d209d67 && ws[29] == 0xec8726cb && ws[30] == 0x702138a4 && ws[31] == 0xd3b7973b
    requires Rounds(INITIAL, ws[..24]) ==
             Hash(0xc5d53d8d, 0xa7a3623f, 0xc2606d6d, 0x9dc68b63, 0xaa47c347, 0x49f5114a, 0xe1257970, 0x8ada8930)
    ensures Rounds(INITIAL, ws[..32]) ==
            Hash(0x73b33bf5, 0xea992a22, 0xa0060b30, 0x363482c9, 0xba591112, 0x0109ab3a, 0xade79437, 0x6112a3b7)
  {
    hide Rounds, INITIAL;
    OneRound(ws, 3, 0, 0xc5d53d8d, 0xa7a3623f, 0xc2606d6d, 0x9dc68b63, 0xaa47c347, 0x49f5114a, 0xe1257970, 0x8ada8930,
             0x983e5152, 0xc8215c1a, 0x1c2c2838, 0x2823ef91);
    OneRound(ws, 3, 1, 0x1c2c2838, 0xc5d53d8d, 0xa7a3623f, 0xc2606d6d, 0x2823ef91, 0xaa47c347, 0x49f5114a, 0xe1257970,
             0xa831c66d, 0xb73679a2, 0xcde8037d, 0x14383d8e);
    OneRound(ws, 3, 2, 0xcde8037d, 0x1c2c2838, 0xc5d53d8d, 0xa7a3623f, 0x14383d8e, 0x2823ef91, 0xaa47c347, 0x49f5114a,
             0xb00327c8, 0xe5bc3909, 0xb62ec4bc, 0xc74c6516);
    OneRound(ws, 3, 3, 0xb62ec4bc, 0xcde8037d, 0x1c2c2838, 0xc5d53d8d, 0xc74c6516, 0x14383d8e, 0x2823ef91, 0xaa47c347,
             0xbf597fc7, 0x32663c5b, 0x77d37528, 0xedffbff8);
    OneRound(ws, 3, 4, 0x77d37528, 0xb62ec4bc, 0xcde8037d, 0x1c2c2838, 0xedffbff8, 0xc74c6516, 0x14383d8e, 0x2823ef91,
             0xc6e00bf3, 0x9d209d67, 0x363482c9, 0x6112a3b7);
    OneRound(ws, 3, 5, 0x363482c9, 0x77d37528, 0xb62ec4bc, 0xcde8037d, 0x6112a3b7, 0xedffbff8, 0xc74c6516, 0x14383d8e,
             0xd5a79147, 0xec8726cb, 0xa0060b30, 0xade79437);
    OneRound(ws, 3, 6, 0xa0060b30, 0x363482c9, 0x77d37528, 0xb62ec4bc, 0xade79437, 0x6112a3b7, 0xedffbff8, 0xc74c6516,
             0x06ca6351, 0x702138a4, 0xea992a22, 0x0109ab3a);
    OneRound(ws, 3, 7, 0xea992a22, 0xa0060b30, 0x363482c9, 0x77d37528, 0x0109ab3a, 0xade79437, 0x6112a3b7, 0xedffbff8,
             0x14292967, 0xd3b7973b, 0x73b33bf5, 0xba591112);
  }

  lemma Rounds4(ws: seq<word>)
    requires |ws| == 64
             && ws[32] == 0x93f5997f && ws[33] == 0x3b68ba73 && ws[34] == 0xaff4ffc1 && ws[35] == 0xf10a5c62
             && ws[36] == 0x0a8b3996 && ws[37] == 0x72af830a && ws[38] == 0x9409e33e && ws[39] == 0x24641522
    requires Rounds(INITIAL, ws[..32]) ==
             Hash(0x73b33bf5, 0xea992a22, 0xa0060b30, 0x363482c9, 0xba591112, 0x0109ab3a, 0xade79437, 0x6112a3b7)
    ensures Rounds(INITIAL, ws[..40]) ==
            Hash(0x79ea687a, 0x6dc57a8a, 0x34df1604, 0x41a65cb1, 0x1efbc0a0, 0xf0781bc8, 0xa507a53d, 0x0772a26b)
  {
    hide Rounds, INITIAL;
    OneRound(ws, 4, 0, 0x73b33bf5, 0xea992a22, 0xa0060b30, 0x363482c9, 0xba591112, 0x0109ab3a, 0xade79437, 0x6112a3b7,
             0x27b70a85, 0x93f5997f, 0x98e12507, 0x9cd9f5f6);
    OneRound(ws, 4, 1, 0x98e12507, 0x73b33bf5, 0xea992a22, 0xa0060b30, 0x9cd9f5f6, 0xba591112, 0x0109ab3a, 0xade79437,
             0x2e1b2138, 0x3b68ba73, 0xfe604df5, 0x59249dd3);
    OneRound(ws, 4, 2, 0xfe604df5, 0x98e12507, 0x73b33bf5, 0xea992a22, 0x59249dd3, 0x9cd9f5f6, 0xba591112, 0x0109ab3a,
             0x4d2c6dfc, 0xaff4ffc1, 0xa9a7738c, 0x085f3833);
    OneRound(ws, 4, 3, 0xa9a7738c, 0xfe604df5, 0x98e12507, 0x73b33bf5, 0x085f3833, 0x59249dd3, 0x9cd9f5f6, 0xba591112,
             0x53380d13, 0xf10a5c62, 0x65a0cfe4, 0xf4b002d6);
    OneRound(ws, 4, 4, 0x65a0cfe4, 0xa9a7738c, 0xfe604df5, 0x98e12507, 0xf4b002d6, 0x085f3833, 0x59249dd3, 0x9cd9f5f6,
             0x650a7354, 0x0a8b3996, 0x41a65cb1, 0x0772a26b);
    OneRound(ws, 4, 5, 0x41a65cb1, 0x65a0cfe4, 0xa9a7738c, 0xfe604df5, 0x0772a26b, 0xf4b002d6, 0x085f3833, 0x59249dd3,
             0x766a0abb, 0x72af830a, 0x34df1604, 0xa507a53d);
    OneRound(ws, 4, 6, 0x34df1604, 0x41a65cb1, 0x65a0cfe4, 0xa9a7738c, 0xa507a53d, 0x0772a26b, 0xf4b002d6, 0x085f3833,
             0x81c2c92e, 0x9409e33e, 0x6dc57a8a, 0xf0781bc8);
    OneRound(ws, 4, 7, 0x6dc57a8a, 0x34df1604, 0x41a65cb1, 0x65a0cfe4, 0xf0781bc8, 0xa507a53d, 0x0772a26b, 0xf4b002d6,
             0x92722c85, 0x24641522, 0x79ea687a, 0x1efbc0a0);
  }

  lemma Rounds5(ws: seq<word>)
    requires |ws| == 64
             && ws[40] == 0x9f47bf94 && ws[41] == 0xf0a64f5a && ws[42] == 0x3e246a79 && ws[43] == 0x27333ba3
             && ws[44] == 0x0c4763f2 && ws[45] == 0x840abf27 && ws[46] == 0x7a290d5d && ws[47] == 0x065c43da
    requires Rounds(INITIAL, ws[..40]) ==
             Hash(0x79ea687a, 0x6dc57a8a, 0x34df1604, 0x41a65cb1, 0x1efbc0a0, 0xf0781bc8, 0xa507a53d, 0x0772a26b)
    ensures Rounds(INITIAL, ws[..48]) ==
            Hash(0x4172328d, 0xa14c14b0, 0x72ab4b91, 0x26628815, 0xfecf0bc6, 0xd57b94a9, 0xb7755da1, 0xa80f11f0)
  {
    hide Rounds, INITIAL;
    OneRound(ws, 5, 0, 0x79ea687a, 0x6dc57a8a, 0x34df1604, 0x41a65cb1, 0x1efbc0a0, 0xf0781bc8, 0xa507a53d, 0x0772a26b,
             0xa2bfe8a1, 0x9f47bf94, 0xd6670766, 0x26352d63);
    OneRound(ws, 5, 1, 0xd6670766, 0x79ea687a, 0x6dc57a8a, 0x34df1604, 0x26352d63, 0x1efbc0a0, 0xf0781bc8, 0xa507a53d,
             0xa81a664b, 0xf0a64f5a, 0xdf46652f, 0x838b2711);
    OneRound(ws, 5, 2, 0xdf46652f, 0xd6670766, 0x79ea687a, 0x6dc57a8a, 0x838b2711, 0x26352d63, 0x1efbc0a0, 0xf0781bc8,
             0xc24b8b70, 0x3e246a79, 0x17aa0dfe, 0xdecd4715);
    OneRound(ws, 5, 3, 0x17aa0dfe, 0xdf46652f, 0xd6670766, 0x79ea687a, 0xdecd4715, 0x838b2711, 0x26352d63, 0x1efbc0a0,
             0xc76c51a3, 0x27333ba3, 0x9d4baf93, 0xfda24c2e);
    OneRound(ws, 5, 4, 0x9d4baf93, 0x17aa0dfe, 0xdf46652f, 0xd6670766, 0xfda24c2e, 0xdecd4715, 0x838b2711, 0x26352d63,
             0xd192e819, 0x0c4763f2, 0x26628815, 0xa80f11f0);
    OneRound(ws, 5, 5, 0x26628815, 0x9d4baf93, 0x17aa0dfe, 0xdf46652f, 0xa80f11f0, 0xfda24c2e, 0xdecd4715, 0x838b2711,
             0xd6990624, 0x840abf27, 0x72ab4b91, 0xb7755da1);
    OneRound(ws, 5, 6, 0x72ab4b91, 0x26628815, 0x9d4baf93, 0x17aa0dfe, 0xb7755da1, 0xa80f11f0, 0xfda24c2e, 0xdecd4715,
             0xf40e3585, 0x7a290d5d, 0xa14c14b0, 0xd57b94a9);
    OneRound(ws, 5, 7, 0xa14c14b0, 0x72ab4b91, 0x26628815, 0x9d4baf93, 0xd57b94a9, 0xb7755da1, 0xa80f11f0, 0xfda24c2e,
             0x106aa070, 0x065c43da, 0x4172328d, 0xfecf0bc6);
  }

  lemma Rounds6(ws: seq<word>)
    requires |ws| == 64
             && ws[48] == 0xfb3e89cb && ws[49] == 0xcc7617db && ws[50] == 0xb9e66c34 && ws[51] == 0xa9993667
             && ws[52] == 0x84badedd && ws[53] == 0xc21462bc && ws[54] == 0x1487472c && ws[55] == 0xb20f7a99
    requires Rounds(INITIAL, ws[..48]) ==
             Hash(0x4172328d, 0xa14c14b0, 0x72ab4b91, 0x26628815, 0xfecf0bc6, 0xd57b94a9, 0xb7755da1, 0xa80f11f0)
    ensures Rounds(INITIAL, ws[..56]) ==
            Hash(0x38cc9913, 0x3ec45cdb, 0xf5702fdb, 0x101fd28f, 0x54cb266b, 0xe50e1b4f, 0x9f4787c3, 0x529e7d00)
  {
    hide Rounds, INITIAL;
    OneRound(ws, 6, 0, 0x4172328d, 0xa14c14b0, 0x72ab4b91, 0x26628815, 0xfecf0bc6, 0xd57b94a9, 0xb7755da1, 0xa80f11f0,
             0x19a4c116, 0xfb3e89cb, 0x05757ceb, 0xbd714038);
    OneRound(ws, 6, 1, 0x05757ceb, 0x4172328d, 0xa14c14b0, 0x72ab4b91, 0xbd714038, 0xfecf0bc6, 0xd57b94a9, 0xb7755da1,
             0x1e376c08, 0xcc7617db, 0xf11bfaa8, 0x6e5c390c);
    OneRound(ws, 6, 2, 0xf11bfaa8, 0x05757ceb, 0x4172328d, 0xa14c14b0, 0x6e5c390c, 0xbd714038, 0xfecf0bc6, 0xd57b94a9,
             0x2748774c, 0xb9e66c34, 0x7a0508a1, 0x52f1ccf7);
    OneRound(ws, 6, 3, 0x7a0508a1, 0xf11bfaa8, 0x05757ceb, 0x4172328d, 0x52f1ccf7, 0x6e5c390c, 0xbd714038, 0xfecf0bc6,
             0x34b0bcb5, 0xa9993667, 0x886e7a22, 0x49231c1e);
    OneRound(ws, 6, 4, 0x886e7a22, 0x7a0508a1, 0xf11bfaa8, 0x05757ceb, 0x49231c1e, 0x52f1ccf7, 0x6e5c390c, 0xbd714038,
             0x391c0cb3, 0x84badedd, 0x101fd28f, 0x529e7d00);
    OneRound(ws, 6, 5, 0x101fd28f, 0x886e7a22, 0x7a0508a1, 0xf11bfaa8, 0x529e7d00, 0x49231c1e, 0x52f1ccf7, 0x6e5c390c,
             0x4ed8aa4a, 0xc21462bc, 0xf5702fdb, 0x9f4787c3);
    OneRound(ws, 6, 6, 0xf5702fdb, 0x101fd28f, 0x886e7a22, 0x7a0508a1, 0x9f4787c3, 0x529e7d00, 0x49231c1e, 0x52f1ccf7,
             0x5b9cca4f, 0x1487472c, 0x3ec45cdb, 0xe50e1b4f);
    OneRound(ws, 6, 7, 0x3ec45cdb, 0xf5702fdb, 0x101fd28f, 0x886e7a22, 0xe50e1b4f, 0x9f4787c3, 0x529e7d00, 0x49231c1e,
             0x682e6ff3, 0xb20f7a99, 0x38cc9913, 0x54cb266b);
  }

  lemma Rounds7(ws: seq<word>)
    requires |ws| == 64
             && ws[56] == 0xef57b9cd && ws[57] == 0xebe6b238 && ws[58] == 0x9fe3095e && ws[59] == 0x78bc8d4b
             && ws[60] == 0xa43fcf15 && ws[61] == 0x668b2ff8 && ws[62] == 0xeeaba2cc && ws[63] == 0x12b1edeb
    requires Rounds(INITIAL, ws[..56]) ==
             Hash(0x38cc9913, 0x3ec45cdb, 0xf5702fdb, 0x101fd28f, 0x54cb266b, 0xe50e1b4f, 0x9f4787c3, 0x529e7d00)
    ensures Rounds(INITIAL, ws[..64]) ==
            Hash(0x506e3058, 0xd39a2165, 0x04d24d6c, 0xb85e2ce9, 0x5ef50f24, 0xfb121210, 0x948d25b6, 0x961f4894)
  {
    hide Rounds, INITIAL;
    OneRound(ws, 7, 0, 0x38cc9913, 0x3ec45cdb, 0xf5702fdb, 0x101fd28f, 0x54cb266b, 0xe50e1b4f, 0x9f4787c3, 0x529e7d00,
             0x748f82ee, 0xef57b9cd, 0xfcd1887b, 0x9b5e906c);
    OneRound(ws, 7, 1, 0xfcd1887b, 0x38cc9913, 0x3ec45cdb, 0xf5702fdb, 0x9b5e906c, 0x54cb266b, 0xe50e1b4f, 0x9f4787c3,
             0x78a5636f, 0xebe6b238, 0xc062d46f, 0x7e44008e);
    OneRound(ws, 7, 2, 0xc062d46f, 0xfcd1887b, 0x38cc9913, 0x3ec45cdb, 0x7e44008e, 0x9b5e906c, 0x54cb266b, 0xe50e1b4f,
             0x84c87814, 0x9fe3095e, 0xffb70472, 0x6d83bfc6);
    OneRound(ws, 7, 3, 0xffb70472, 0xc062d46f, 0xfcd1887b, 0x38cc9913, 0x6d83bfc6, 0x7e44008e, 0x9b5e906c, 0x54cb266b,
             0x8cc70208, 0x78bc8d4b, 0xb6ae8fff, 0xb21bad3d);
    OneRound(ws, 7, 4, 0xb6ae8fff, 0xffb70472, 0xc062d46f, 0xfcd1887b, 0xb21bad3d, 0x6d83bfc6, 0x7e44008e, 0x9b5e906c,
             0x90befffa, 0xa43fcf15, 0xb85e2ce9, 0x961f4894);
    OneRound(ws, 7, 5, 0xb85e2ce9, 0xb6ae8fff, 0xffb70472, 0xc062d46f, 0x961f4894, 0xb21bad3d, 0x6d83bfc6, 0x7e44008e,
             0xa4506ceb, 0x668b2ff8, 0x04d24d6c, 0x948d25b6);
    OneRound(ws, 7, 6, 0x04d24d6c, 0xb85e2ce9, 0xb6ae8fff, 0xffb70472, 0x948d25b6, 0x961f4894, 0xb21bad3d, 0x6d83bfc6,
             0xbef9a3f7, 0xeeaba2cc, 0xd39a2165, 0xfb121210);
    OneRound(ws, 7, 7, 0xd39a2165, 0x04d24d6c, 0xb85e2ce9, 0xb6ae8fff, 0xfb121210, 0x948d25b6, 0x961f4894, 0xb21bad3d,
             0xc67178f2, 0x12b1edeb, 0x506e3058, 0x5ef50f24);
  }

  // ---------- The padded message ----------

  const ABC: seq<byte> := [0x61, 0x62, 0x63]

  lemma {:induction false} BigEndianOfZero(k: nat)
    ensures BigEndian(0, k) == Zeros(k)
  {
    if k > 0 {
      BigEndianOfZero(k - 1);
    }
  }

  /** One block: the three bytes, 0x80, zeros, and 24 in the last byte. */
  lemma PaddedBlock()
    ensures |Pad(ABC)| == 64 && Pad(ABC)[..4] == [0x61, 0x62, 0x63, 0x80]
    ensures forall i :: 4 <= i < 63 ==> Pad(ABC)[i] == 0
    ensures Pad(ABC)[63] == 24
  {
    assert ZeroCount(3) == 52;
    assert LengthField(3) == BigEndian(0, 7) + [24];
    BigEndianOfZero(7);
    hide BigEndian, ZeroCount;
    assert Pad(ABC) == ABC + [0x80] + Zeros(52) + (Zeros(7) + [24]);
  }

  lemma SmallWords(b0: byte, b1: byte, b2: byte, b3: byte)
    ensures b0 == 0x61 && b1 == 0x62 && b2 == 0x63 && b3 == 0x80 ==> WordOf(b0, b1, b2, b3) == 0x61626380
    ensures b0 == 0 && b1 == 0 && b2 == 0 && b3 == 0 ==> WordOf(b0, b1, b2, b3) == 0
    ensures b0 == 0 && b1 == 0 && b2 == 0 && b3 == 24 ==> WordOf(b0, b1, b2, b3) == 24
  {
    if b0 == 0x61 && b1 == 0x62 && b2 == 0x63 && b3 == 0x80 {
      assert b0 as word == 0x61 && b1 as word == 0x62 && b2 as word == 0x63 && b3 as word == 0x80;
    } else if b0 == 0 && b1 == 0 && b2 == 0 {
      assert b0 as word == 0 && b1 as word == 0 && b2 as word == 0;
      assert b3 == 0 ==> b3 as word == 0;
      assert b3 == 24 ==> b3 as word == 24;
    }
  }

  lemma FirstWords()
    ensures |Pad(ABC)| == 64
    ensures var ws := ScheduleOf(Pad(ABC));
            ws[0] == 0x61626380 && ws[15] == 24 && forall t :: 1 <= t < 15 ==> ws[t] == 0
  {
    PaddedBlock();
    hide WordOf, Pad;
    var m := Pad(ABC);
    assert m[0] == m[..4][0] && m[1] == m[..4][1] && m[2] == m[..4][2] && m[3] == m[..4][3];
    SmallWords(m[0], m[1], m[2], m[3]);
    SmallWords(m[60], m[61], m[62], m[63]);
    forall t | 1 <= t < 15 ensures Schedule(m, t) == 0 {
      SmallWords(m[4 * t], m[4 * t + 1], m[4 * t + 2], m[4 * t + 3]);
    }
  }

  // ---------- The digest ----------

  lemma Compressed()
    ensures |Pad(ABC)| == 64
    ensures Rounds(INITIAL, ScheduleOf(Pad(ABC))) ==
            Hash(0x506e3058, 0xd39a2165, 0x04d24d6c, 0xb85e2ce9, 0x5ef50f24, 0xfb121210, 0x948d25b6, 0x961f4894)
  {
    FirstWords();
    hide Pad, ScheduleOf, Rounds;
    var ws := ScheduleOf(Pad(ABC));
    Words16To31(ws, Pad(ABC));
    Words32To47(ws, Pad(ABC));
    Words48To63(ws, Pad(ABC));
    NoRounds(ws);
    Rounds0(ws);
    Rounds1(ws);
    Rounds2(ws);
    Rounds3(ws);
    Rounds4(ws);
    Rounds5(ws);
    Rounds6(ws);
    Rounds7(ws);
    assert ws[..64] == ws;
  }

  lemma NoRounds(ws: seq<word>)
    ensures Rounds(INITIAL, ws[..0]) == INITIAL
  {
  }

  lemma HashOfAbc()
    ensures HashBlocks(Pad(ABC)) ==
            Hash(0xba7816bf, 0x8f01cfea, 0x414140de, 0x5dae2223, 0xb00361a3, 0x96177a9c, 0xb410ff61, 0xf20015ad)
  {
    Compressed();
    hide Pad, ScheduleOf, Rounds;
    var m := Pad(ABC);
    assert m[..0] == [] && m[0..] == m && HashBlocks([]) == INITIAL;
    assert HashBlocks(m) == Compress(INITIAL, m);
  }

  lemma FirstHalfPrinted()
    ensures HexWord(0xba7816bf) == "ba7816bf" && HexWord(0x8f01cfea) == "8f01cfea"
    ensures HexWord(0x414140de) == "414140de" && HexWord(0x5dae2223) == "5dae2223"
  {
  }

  lemma SecondHalfPrinted()
    ensures HexWord(0xb00361a3) == "b00361a3" && HexWord(0x96177a9c) == "96177a9c"
    ensures HexWord(0xb410ff61) == "b410ff61" && HexWord(0xf20015ad) == "f20015ad"
  {
  }

  /** The digest of "abc" is the published one. */
  lemma DigestOfAbc()
    ensures Sha256Hex([0x61, 0x62, 0x63]) ==
            "ba7816bf" + "8f01cfea" + "414140de" + "5dae2223" + "b00361a3" + "96177a9c" + "b410ff61" + "f20015ad"
  {
    HashOfAbc();
    FirstHalfPrinted();
    SecondHalfPrinted();
    hide HexWord, HashBlocks, Pad;
  }
}
