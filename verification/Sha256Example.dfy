/** The one-block example published for FIPS 180-4: the digest of the three bytes "abc", by way of
    every schedule word and every round. One wrong index, shift or constant in Sha256 and it fails. */
module Sha256Example {
  import opened Sha256

  const MESSAGE: seq<Byte> := [0x61, 0x62, 0x63]

  const BLOCK: seq<Byte> := [0x61, 0x62, 0x63, 0x80] + Zeros(59) + [24]

  // ---------------------------------------------------------------- the padding

  lemma LengthIs()
    ensures LengthField(24, 8) == [0, 0, 0, 0, 0, 0, 0, 24]
  {
    assert LengthField(0, 1) == [0] && LengthField(0, 2) == [0, 0] && LengthField(0, 3) == [0, 0, 0];
    assert LengthField(0, 4) == [0, 0, 0, 0] && LengthField(0, 5) == [0, 0, 0, 0, 0];
    assert LengthField(0, 6) == [0, 0, 0, 0, 0, 0] && LengthField(0, 7) == [0, 0, 0, 0, 0, 0, 0];
  }

  /** The padded message is one block: the bytes, a one bit, zeros, and the length in bits. */
  lemma PadIsBlock()
    ensures Pad(MESSAGE) == BLOCK
  {
    hide LengthField, Zeros;
    LengthIs();
    SevenZeros();
    assert ZeroCount(3) == 52 && 8 * |MESSAGE| == 24;
    assert Pad(MESSAGE) == MESSAGE + [0x80] + Zeros(52) + LengthField(24, 8);
    hide Pad;
    assert MESSAGE + [0x80] == [0x61, 0x62, 0x63, 0x80];
    assert [0, 0, 0, 0, 0, 0, 0, 24] == [0, 0, 0, 0, 0, 0, 0] + [24];
    Regroup([0x61, 0x62, 0x63, 0x80], Zeros(52), [0, 0, 0, 0, 0, 0, 0], [24]);
  }

  lemma SevenZeros()
    ensures Zeros(52) + [0, 0, 0, 0, 0, 0, 0] == Zeros(59)
  {}

  lemma Regroup(a: seq<Byte>, b: seq<Byte>, c: seq<Byte>, d: seq<Byte>)
    ensures a + b + (c + d) == a + (b + c) + d
  {}

  // --------------------------------------------------------------- the schedule

  predicate Scheduled(t: nat, w: Word) {
    Schedule(BLOCK, t) == w
  }

  lemma NextWord(t: nat, w2: Word, w7: Word, w15: Word, w16: Word, w: Word)
    requires t >= 16 && Scheduled(t - 2, w2) && Scheduled(t - 7, w7) && Scheduled(t - 15, w15) && Scheduled(t - 16, w16)
    requires w == Add(Add(Add(SmallSigma1(w2), w7), SmallSigma0(w15)), w16)
    ensures Scheduled(t, w)
  {
    hide Add, SmallSigma0, SmallSigma1, WordAt;
  }

  lemma FirstWord(t: nat)
    requires t < 16
    ensures Scheduled(t, [0x61626380, 0, 24][if t == 0 then 0 else if t < 15 then 1 else 2])
  {}

  lemma Words0()
    ensures Scheduled(0, 0x61626380) && Scheduled(1, 0x00000000) && Scheduled(2, 0x00000000)
    ensures Scheduled(3, 0x00000000) && Scheduled(4, 0x00000000) && Scheduled(5, 0x00000000)
    ensures Scheduled(6, 0x00000000) && Scheduled(7, 0x00000000)
  {
    hide Scheduled, Schedule;
    FirstWord(0);
    FirstWord(1);
    FirstWord(2);
    FirstWord(3);
    FirstWord(4);
    FirstWord(5);
    FirstWord(6);
    FirstWord(7);
  }

  lemma Words8()
    ensures Scheduled(8, 0x00000000) && Scheduled(9, 0x00000000) && Scheduled(10, 0x00000000)
    ensures Scheduled(11, 0x00000000) && Scheduled(12, 0x00000000) && Scheduled(13, 0x00000000)
    ensures Scheduled(14, 0x00000000) && Scheduled(15, 0x00000018)
  {
    hide Scheduled, Schedule;
    FirstWord(8);
    FirstWord(9);
    FirstWord(10);
    FirstWord(11);
    FirstWord(12);
    FirstWord(13);
    FirstWord(14);
    FirstWord(15);
  }

  lemma Words16()
    ensures Scheduled(16, 0x61626380) && Scheduled(17, 0x000f0000) && Scheduled(18, 0x7da86405)
    ensures Scheduled(19, 0x600003c6) && Scheduled(20, 0x3e9d7b78) && Scheduled(21, 0x0183fc00)
    ensures Scheduled(22, 0x12dcbfdb) && Scheduled(23, 0xe2e2c38e)
  {
    hide Scheduled, Schedule;
    Words0();
    Words8();
    NextWord(16, 0x00000000, 0x00000000, 0x00000000, 0x61626380, 0x61626380);
    NextWord(17, 0x00000018, 0x00000000, 0x00000000, 0x00000000, 0x000f0000);
    NextWord(18, 0x61626380, 0x00000000, 0x00000000, 0x00000000, 0x7da86405);
    NextWord(19, 0x000f0000, 0x00000000, 0x00000000, 0x00000000, 0x600003c6);
    NextWord(20, 0x7da86405, 0x00000000, 0x00000000, 0x00000000, 0x3e9d7b78);
    NextWord(21, 0x600003c6, 0x00000000, 0x00000000, 0x00000000, 0x0183fc00);
    NextWord(22, 0x3e9d7b78, 0x00000018, 0x00000000, 0x00000000, 0x12dcbfdb);
    NextWord(23, 0x0183fc00, 0x61626380, 0x00000000, 0x00000000, 0xe2e2c38e);
  }

  lemma Words24()
    ensures Scheduled(24, 0xc8215c1a) && Scheduled(25, 0xb73679a2) && Scheduled(26, 0xe5bc3909)
    ensures Scheduled(27, 0x32663c5b) && Scheduled(28, 0x9d209d67) && Scheduled(29, 0xec8726cb)
    ensures Scheduled(30, 0x702138a4) && Scheduled(31, 0xd3b7973b)
  {
    hide Scheduled, Schedule;
    Words8();
    Words16();
    NextWord(24, 0x12dcbfdb, 0x000f0000, 0x00000000, 0x00000000, 0xc8215c1a);
    NextWord(25, 0xe2e2c38e, 0x7da86405, 0x00000000, 0x00000000, 0xb73679a2);
    NextWord(26, 0xc8215c1a, 0x600003c6, 0x00000000, 0x00000000, 0xe5bc3909);
    NextWord(27, 0xb73679a2, 0x3e9d7b78, 0x00000000, 0x00000000, 0x32663c5b);
    NextWord(28, 0xe5bc3909, 0x0183fc00, 0x00000000, 0x00000000, 0x9d209d67);
    NextWord(29, 0x32663c5b, 0x12dcbfdb, 0x00000000, 0x00000000, 0xec8726cb);
    NextWord(30, 0x9d209d67, 0xe2e2c38e, 0x00000018, 0x00000000, 0x702138a4);
    NextWord(31, 0xec8726cb, 0xc8215c1a, 0x61626380, 0x00000018, 0xd3b7973b);
  }

  lemma Words32()
    ensures Scheduled(32, 0x93f5997f) && Scheduled(33, 0x3b68ba73) && Scheduled(34, 0xaff4ffc1)
    ensures Scheduled(35, 0xf10a5c62) && Scheduled(36, 0x0a8b3996) && Scheduled(37, 0x72af830a)
    ensures Scheduled(38, 0x9409e33e) && Scheduled(39, 0x24641522)
  {
    hide Scheduled, Schedule;
    Words16();
    Words24();
    NextWord(32, 0x702138a4, 0xb73679a2, 0x000f0000, 0x61626380, 0x93f5997f);
    NextWord(33, 0xd3b7973b, 0xe5bc3909, 0x7da86405, 0x000f0000, 0x3b68ba73);
    NextWord(34, 0x93f5997f, 0x32663c5b, 0x600003c6, 0x7da86405, 0xaff4ffc1);
    NextWord(35, 0x3b68ba73, 0x9d209d67, 0x3e9d7b78, 0x600003c6, 0xf10a5c62);
    NextWord(36, 0xaff4ffc1, 0xec8726cb, 0x0183fc00, 0x3e9d7b78, 0x0a8b3996);
    NextWord(37, 0xf10a5c62, 0x702138a4, 0x12dcbfdb, 0x0183fc00, 0x72af830a);
    NextWord(38, 0x0a8b3996, 0xd3b7973b, 0xe2e2c38e, 0x12dcbfdb, 0x9409e33e);
    NextWord(39, 0x72af830a, 0x93f5997f, 0xc8215c1a, 0xe2e2c38e, 0x24641522);
  }

  lemma Words40()
    ensures Scheduled(40, 0x9f47bf94) && Scheduled(41, 0xf0a64f5a) && Scheduled(42, 0x3e246a79)
    ensures Scheduled(43, 0x27333ba3) && Scheduled(44, 0x0c4763f2) && Scheduled(45, 0x840abf27)
    ensures Scheduled(46, 0x7a290d5d) && Scheduled(47, 0x065c43da)
  {
    hide Scheduled, Schedule;
    Words24();
    Words32();
    NextWord(40, 0x9409e33e, 0x3b68ba73, 0xb73679a2, 0xc8215c1a, 0x9f47bf94);
    NextWord(41, 0x24641522, 0xaff4ffc1, 0xe5bc3909, 0xb73679a2, 0xf0a64f5a);
    NextWord(42, 0x9f47bf94, 0xf10a5c62, 0x32663c5b, 0xe5bc3909, 0x3e246a79);
    NextWord(43, 0xf0a64f5a, 0x0a8b3996, 0x9d209d67, 0x32663c5b, 0x27333ba3);
    NextWord(44, 0x3e246a79, 0x72af830a, 0xec8726cb, 0x9d209d67, 0x0c4763f2);
    NextWord(45, 0x27333ba3, 0x9409e33e, 0x702138a4, 0xec8726cb, 0x840abf27);
    NextWord(46, 0x0c4763f2, 0x24641522, 0xd3b7973b, 0x702138a4, 0x7a290d5d);
    NextWord(47, 0x840abf27, 0x9f47bf94, 0x93f5997f, 0xd3b7973b, 0x065c43da);
  }

  lemma Words48()
    ensures Scheduled(48, 0xfb3e89cb) && Scheduled(49, 0xcc7617db) && Scheduled(50, 0xb9e66c34)
    ensures Scheduled(51, 0xa9993667) && Scheduled(52, 0x84badedd) && Scheduled(53, 0xc21462bc)
    ensures Scheduled(54, 0x1487472c) && Scheduled(55, 0xb20f7a99)
  {
    hide Scheduled, Schedule;
    Words32();
    Words40();
    NextWord(48, 0x7a290d5d, 0xf0a64f5a, 0x3b68ba73, 0x93f5997f, 0xfb3e89cb);
    NextWord(49, 0x065c43da, 0x3e246a79, 0xaff4ffc1, 0x3b68ba73, 0xcc7617db);
    NextWord(50, 0xfb3e89cb, 0x27333ba3, 0xf10a5c62, 0xaff4ffc1, 0xb9e66c34);
    NextWord(51, 0xcc7617db, 0x0c4763f2, 0x0a8b3996, 0xf10a5c62, 0xa9993667);
    NextWord(52, 0xb9e66c34, 0x840abf27, 0x72af830a, 0x0a8b3996, 0x84badedd);
    NextWord(53, 0xa9993667, 0x7a290d5d, 0x9409e33e, 0x72af830a, 0xc21462bc);
    NextWord(54, 0x84badedd, 0x065c43da, 0x24641522, 0x9409e33e, 0x1487472c);
    NextWord(55, 0xc21462bc, 0xfb3e89cb, 0x9f47bf94, 0x24641522, 0xb20f7a99);
  }

  lemma Words56()
    ensures Scheduled(56, 0xef57b9cd) && Scheduled(57, 0xebe6b238) && Scheduled(58, 0x9fe3095e)
    ensures Scheduled(59, 0x78bc8d4b) && Scheduled(60, 0xa43fcf15) && Scheduled(61, 0x668b2ff8)
    ensures Scheduled(62, 0xeeaba2cc) && Scheduled(63, 0x12b1edeb)
  {
    hide Scheduled, Schedule;
    Words40();
    Words48();
    NextWord(56, 0x1487472c, 0xcc7617db, 0xf0a64f5a, 0x9f47bf94, 0xef57b9cd);
    NextWord(57, 0xb20f7a99, 0xb9e66c34, 0x3e246a79, 0xf0a64f5a, 0xebe6b238);
    NextWord(58, 0xef57b9cd, 0xa9993667, 0x27333ba3, 0x3e246a79, 0x9fe3095e);
    NextWord(59, 0xebe6b238, 0x84badedd, 0x0c4763f2, 0x27333ba3, 0x78bc8d4b);
    NextWord(60, 0x9fe3095e, 0xc21462bc, 0x840abf27, 0x0c4763f2, 0xa43fcf15);
    NextWord(61, 0x78bc8d4b, 0x1487472c, 0x7a290d5d, 0x840abf27, 0x668b2ff8);
    NextWord(62, 0xa43fcf15, 0xb20f7a99, 0x065c43da, 0x7a290d5d, 0xeeaba2cc);
    NextWord(63, 0x668b2ff8, 0xef57b9cd, 0xfb3e89cb, 0x065c43da, 0x12b1edeb);
  }

  // ----------------------------------------------------------------- the rounds

  predicate IsK(t: nat, k: Word) {
    t < 64 && K[t] == k
  }

  /** The working variables after t rounds. */
  predicate At(t: nat, v: Vars) {
    t <= 64 && Rounds(VarsOf(H0), BLOCK, t) == v
  }

  /** One round, which gives a and e these values. */
  lemma Step(t: nat, v: Vars, k: Word, w: Word, a: Word, e: Word)
    requires At(t, v) && IsK(t, k) && Scheduled(t, w)
    requires Round(v, k, w) == Vars(a, v.a, v.b, v.c, e, v.e, v.f, v.g)
    ensures At(t + 1, Vars(a, v.a, v.b, v.c, e, v.e, v.f, v.g))
  {
    hide Round, Schedule;
  }

  lemma Start()
    ensures At(0, Vars(0x6a09e667, 0xbb67ae85, 0x3c6ef372, 0xa54ff53a,
                        0x510e527f, 0x9b05688c, 0x1f83d9ab, 0x5be0cd19))
  {}

  lemma Constants0()
    ensures IsK(0, 0x428a2f98) && IsK(1, 0x71374491) && IsK(2, 0xb5c0fbcf) && IsK(3, 0xe9b5dba5)
    ensures IsK(4, 0x3956c25b) && IsK(5, 0x59f111f1) && IsK(6, 0x923f82a4) && IsK(7, 0xab1c5ed5)
  {}

  lemma Constants8()
    ensures IsK(8, 0xd807aa98) && IsK(9, 0x12835b01) && IsK(10, 0x243185be) && IsK(11, 0x550c7dc3)
    ensures IsK(12, 0x72be5d74) && IsK(13, 0x80deb1fe) && IsK(14, 0x9bdc06a7) && IsK(15, 0xc19bf174)
  {}

  lemma Constants16()
    ensures IsK(16, 0xe49b69c1) && IsK(17, 0xefbe4786) && IsK(18, 0x0fc19dc6) && IsK(19, 0x240ca1cc)
    ensures IsK(20, 0x2de92c6f) && IsK(21, 0x4a7484aa) && IsK(22, 0x5cb0a9dc) && IsK(23, 0x76f988da)
  {}

  lemma Constants24()
    ensures IsK(24, 0x983e5152) && IsK(25, 0xa831c66d) && IsK(26, 0xb00327c8) && IsK(27, 0xbf597fc7)
    ensures IsK(28, 0xc6e00bf3) && IsK(29, 0xd5a79147) && IsK(30, 0x06ca6351) && IsK(31, 0x14292967)
  {}

  lemma Constants32()
    ensures IsK(32, 0x27b70a85) && IsK(33, 0x2e1b2138) && IsK(34, 0x4d2c6dfc) && IsK(35, 0x53380d13)
    ensures IsK(36, 0x650a7354) && IsK(37, 0x766a0abb) && IsK(38, 0x81c2c92e) && IsK(39, 0x92722c85)
  {}

  lemma Constants40()
    ensures IsK(40, 0xa2bfe8a1) && IsK(41, 0xa81a664b) && IsK(42, 0xc24b8b70) && IsK(43, 0xc76c51a3)
    ensures IsK(44, 0xd192e819) && IsK(45, 0xd6990624) && IsK(46, 0xf40e3585) && IsK(47, 0x106aa070)
  {}

  lemma Constants48()
    ensures IsK(48, 0x19a4c116) && IsK(49, 0x1e376c08) && IsK(50, 0x2748774c) && IsK(51, 0x34b0bcb5)
    ensures IsK(52, 0x391c0cb3) && IsK(53, 0x4ed8aa4a) && IsK(54, 0x5b9cca4f) && IsK(55, 0x682e6ff3)
  {}

  lemma Constants56()
    ensures IsK(56, 0x748f82ee) && IsK(57, 0x78a5636f) && IsK(58, 0x84c87814) && IsK(59, 0x8cc70208)
    ensures IsK(60, 0x90befffa) && IsK(61, 0xa4506ceb) && IsK(62, 0xbef9a3f7) && IsK(63, 0xc67178f2)
  {}

  lemma Rounds0()
    ensures At(8, Vars(0x85a07b5f, 0xe5030380, 0x2b4209f5, 0x04409a6a,
                       0x0c657a79, 0x9b27a401, 0x714260ad, 0x43ada245))
  {
    hide At, IsK, Scheduled;
    Constants0();
    Words0();
    Start();
    Step(0, Vars(0x6a09e667, 0xbb67ae85, 0x3c6ef372, 0xa54ff53a, 0x510e527f, 0x9b05688c, 0x1f83d9ab, 0x5be0cd19),
         0x428a2f98, 0x61626380, 0x5d6aebcd, 0xfa2a4622);
    Step(1, Vars(0x5d6aebcd, 0x6a09e667, 0xbb67ae85, 0x3c6ef372, 0xfa2a4622, 0x510e527f, 0x9b05688c, 0x1f83d9ab),
         0x71374491, 0x00000000, 0x5a6ad9ad, 0x78ce7989);
    Step(2, Vars(0x5a6ad9ad, 0x5d6aebcd, 0x6a09e667, 0xbb67ae85, 0x78ce7989, 0xfa2a4622, 0x510e527f, 0x9b05688c),
         0xb5c0fbcf, 0x00000000, 0xc8c347a7, 0xf92939eb);
    Step(3, Vars(0xc8c347a7, 0x5a6ad9ad, 0x5d6aebcd, 0x6a09e667, 0xf92939eb, 0x78ce7989, 0xfa2a4622, 0x510e527f),
         0xe9b5dba5, 0x00000000, 0xd550f666, 0x24e00850);
    Step(4, Vars(0xd550f666, 0xc8c347a7, 0x5a6ad9ad, 0x5d6aebcd, 0x24e00850, 0xf92939eb, 0x78ce7989, 0xfa2a4622),
         0x3956c25b, 0x00000000, 0x04409a6a, 0x43ada245);
    Step(5, Vars(0x04409a6a, 0xd550f666, 0xc8c347a7, 0x5a6ad9ad, 0x43ada245, 0x24e00850, 0xf92939eb, 0x78ce7989),
         0x59f111f1, 0x00000000, 0x2b4209f5, 0x714260ad);
    Step(6, Vars(0x2b4209f5, 0x04409a6a, 0xd550f666, 0xc8c347a7, 0x714260ad, 0x43ada245, 0x24e00850, 0xf92939eb),
         0x923f82a4, 0x00000000, 0xe5030380, 0x9b27a401);
    Step(7, Vars(0xe5030380, 0x2b4209f5, 0x04409a6a, 0xd550f666, 0x9b27a401, 0x714260ad, 0x43ada245, 0x24e00850),
         0xab1c5ed5, 0x00000000, 0x85a07b5f, 0x0c657a79);
  }

  lemma Rounds8()
    ensures At(16, Vars(0xb0fa238e, 0xc0645fde, 0xd932eb16, 0x87912990,
                        0x07590dcd, 0x0b92f20c, 0x745a48de, 0x1e578218))
  {
    hide At, IsK, Scheduled;
    Constants8();
    Words8();
    Rounds0();
    Step(8, Vars(0x85a07b5f, 0xe5030380, 0x2b4209f5, 0x04409a6a, 0x0c657a79, 0x9b27a401, 0x714260ad, 0x43ada245),
         0xd807aa98, 0x00000000, 0x8e04ecb9, 0x32ca2d8c);
    Step(9, Vars(0x8e04ecb9, 0x85a07b5f, 0xe5030380, 0x2b4209f5, 0x32ca2d8c, 0x0c657a79, 0x9b27a401, 0x714260ad),
         0x12835b01, 0x00000000, 0x8c87346b, 0x1cc92596);
    Step(10, Vars(0x8c87346b, 0x8e04ecb9, 0x85a07b5f, 0xe5030380, 0x1cc92596, 0x32ca2d8c, 0x0c657a79, 0x9b27a401),
         0x243185be, 0x00000000, 0x4798a3f4, 0x436b23e8);
    Step(11, Vars(0x4798a3f4, 0x8c87346b, 0x8e04ecb9, 0x85a07b5f, 0x436b23e8, 0x1cc92596, 0x32ca2d8c, 0x0c657a79),
         0x550c7dc3, 0x00000000, 0xf71fc5a9, 0x816fd6e9);
    Step(12, Vars(0xf71fc5a9, 0x4798a3f4, 0x8c87346b, 0x8e04ecb9, 0x816fd6e9, 0x436b23e8, 0x1cc92596, 0x32ca2d8c),
         0x72be5d74, 0x00000000, 0x87912990, 0x1e578218);
    Step(13, Vars(0x87912990, 0xf71fc5a9, 0x4798a3f4, 0x8c87346b, 0x1e578218, 0x816fd6e9, 0x436b23e8, 0x1cc92596),
         0x80deb1fe, 0x00000000, 0xd932eb16, 0x745a48de);
    Step(14, Vars(0xd932eb16, 0x87912990, 0xf71fc5a9, 0x4798a3f4, 0x745a48de, 0x1e578218, 0x816fd6e9, 0x436b23e8),
         0x9bdc06a7, 0x00000000, 0xc0645fde, 0x0b92f20c);
    Step(15, Vars(0xc0645fde, 0xd932eb16, 0x87912990, 0xf71fc5a9, 0x0b92f20c, 0x745a48de, 0x1e578218, 0x816fd6e9),
         0xc19bf174, 0x00000018, 0xb0fa238e, 0x07590dcd);
  }

  lemma Rounds16()
    ensures At(24, Vars(0xc5d53d8d, 0xa7a3623f, 0xc2606d6d, 0x9dc68b63,
                        0xaa47c347, 0x49f5114a, 0xe1257970, 0x8ada8930))
  {
    hide At, IsK, Scheduled;
    Constants16();
    Words16();
    Rounds8();
    Step(16, Vars(0xb0fa238e, 0xc0645fde, 0xd932eb16, 0x87912990, 0x07590dcd, 0x0b92f20c, 0x745a48de, 0x1e578218),
         0xe49b69c1, 0x61626380, 0x21da9a9b, 0x8034229c);
    Step(17, Vars(0x21da9a9b, 0xb0fa238e, 0xc0645fde, 0xd932eb16, 0x8034229c, 0x07590dcd, 0x0b92f20c, 0x745a48de),
         0xefbe4786, 0x000f0000, 0xc2fbd9d1, 0x846ee454);
    Step(18, Vars(0xc2fbd9d1, 0x21da9a9b, 0xb0fa238e, 0xc0645fde, 0x846ee454, 0x8034229c, 0x07590dcd, 0x0b92f20c),
         0x0fc19dc6, 0x7da86405, 0xfe777bbf, 0xcc899961);
    Step(19, Vars(0xfe777bbf, 0xc2fbd9d1, 0x21da9a9b, 0xb0fa238e, 0xcc899961, 0x846ee454, 0x8034229c, 0x07590dcd),
         0x240ca1cc, 0x600003c6, 0xe1f20c33, 0xb0638179);
    Step(20, Vars(0xe1f20c33, 0xfe777bbf, 0xc2fbd9d1, 0x21da9a9b, 0xb0638179, 0xcc899961, 0x846ee454, 0x8034229c),
         0x2de92c6f, 0x3e9d7b78, 0x9dc68b63, 0x8ada8930);
    Step(21, Vars(0x9dc68b63, 0xe1f20c33, 0xfe777bbf, 0xc2fbd9d1, 0x8ada8930, 0xb0638179, 0xcc899961, 0x846ee454),
         0x4a7484aa, 0x0183fc00, 0xc2606d6d, 0xe1257970);
    Step(22, Vars(0xc2606d6d, 0x9dc68b63, 0xe1f20c33, 0xfe777bbf, 0xe1257970, 0x8ada8930, 0xb0638179, 0xcc899961),
         0x5cb0a9dc, 0x12dcbfdb, 0xa7a3623f, 0x49f5114a);
    Step(23, Vars(0xa7a3623f, 0xc2606d6d, 0x9dc68b63, 0xe1f20c33, 0x49f5114a, 0xe1257970, 0x8ada8930, 0xb0638179),
         0x76f988da, 0xe2e2c38e, 0xc5d53d8d, 0xaa47c347);
  }

  lemma Rounds24()
    ensures At(32, Vars(0x73b33bf5, 0xea992a22, 0xa0060b30, 0x363482c9,
                        0xba591112, 0x0109ab3a, 0xade79437, 0x6112a3b7))
  {
    hide At, IsK, Scheduled;
    Constants24();
    Words24();
    Rounds16();
    Step(24, Vars(0xc5d53d8d, 0xa7a3623f, 0xc2606d6d, 0x9dc68b63, 0xaa47c347, 0x49f5114a, 0xe1257970, 0x8ada8930),
         0x983e5152, 0xc8215c1a, 0x1c2c2838, 0x2823ef91);
    Step(25, Vars(0x1c2c2838, 0xc5d53d8d, 0xa7a3623f, 0xc2606d6d, 0x2823ef91, 0xaa47c347, 0x49f5114a, 0xe1257970),
         0xa831c66d, 0xb73679a2, 0xcde8037d, 0x14383d8e);
    Step(26, Vars(0xcde8037d, 0x1c2c2838, 0xc5d53d8d, 0xa7a3623f, 0x14383d8e, 0x2823ef91, 0xaa47c347, 0x49f5114a),
         0xb00327c8, 0xe5bc3909, 0xb62ec4bc, 0xc74c6516);
    Step(27, Vars(0xb62ec4bc, 0xcde8037d, 0x1c2c2838, 0xc5d53d8d, 0xc74c6516, 0x14383d8e, 0x2823ef91, 0xaa47c347),
         0xbf597fc7, 0x32663c5b, 0x77d37528, 0xedffbff8);
    Step(28, Vars(0x77d37528, 0xb62ec4bc, 0xcde8037d, 0x1c2c2838, 0xedffbff8, 0xc74c6516, 0x14383d8e, 0x2823ef91),
         0xc6e00bf3, 0x9d209d67, 0x363482c9, 0x6112a3b7);
    Step(29, Vars(0x363482c9, 0x77d37528, 0xb62ec4bc, 0xcde8037d, 0x6112a3b7, 0xedffbff8, 0xc74c6516, 0x14383d8e),
         0xd5a79147, 0xec8726cb, 0xa0060b30, 0xade79437);
    Step(30, Vars(0xa0060b30, 0x363482c9, 0x77d37528, 0xb62ec4bc, 0xade79437, 0x6112a3b7, 0xedffbff8, 0xc74c6516),
         0x06ca6351, 0x702138a4, 0xea992a22, 0x0109ab3a);
    Step(31, Vars(0xea992a22, 0xa0060b30, 0x363482c9, 0x77d37528, 0x0109ab3a, 0xade79437, 0x6112a3b7, 0xedffbff8),
         0x14292967, 0xd3b7973b, 0x73b33bf5, 0xba591112);
  }

  lemma Rounds32()
    ensures At(40, Vars(0x79ea687a, 0x6dc57a8a, 0x34df1604, 0x41a65cb1,
                        0x1efbc0a0, 0xf0781bc8, 0xa507a53d, 0x0772a26b))
  {
    hide At, IsK, Scheduled;
    Constants32();
    Words32();
    Rounds24();
    Step(32, Vars(0x73b33bf5, 0xea992a22, 0xa0060b30, 0x363482c9, 0xba591112, 0x0109ab3a, 0xade79437, 0x6112a3b7),
         0x27b70a85, 0x93f5997f, 0x98e12507, 0x9cd9f5f6);
    Step(33, Vars(0x98e12507, 0x73b33bf5, 0xea992a22, 0xa0060b30, 0x9cd9f5f6, 0xba591112, 0x0109ab3a, 0xade79437),
         0x2e1b2138, 0x3b68ba73, 0xfe604df5, 0x59249dd3);
    Step(34, Vars(0xfe604df5, 0x98e12507, 0x73b33bf5, 0xea992a22, 0x59249dd3, 0x9cd9f5f6, 0xba591112, 0x0109ab3a),
         0x4d2c6dfc, 0xaff4ffc1, 0xa9a7738c, 0x085f3833);
    Step(35, Vars(0xa9a7738c, 0xfe604df5, 0x98e12507, 0x73b33bf5, 0x085f3833, 0x59249dd3, 0x9cd9f5f6, 0xba591112),
         0x53380d13, 0xf10a5c62, 0x65a0cfe4, 0xf4b002d6);
    Step(36, Vars(0x65a0cfe4, 0xa9a7738c, 0xfe604df5, 0x98e12507, 0xf4b002d6, 0x085f3833, 0x59249dd3, 0x9cd9f5f6),
         0x650a7354, 0x0a8b3996, 0x41a65cb1, 0x0772a26b);
    Step(37, Vars(0x41a65cb1, 0x65a0cfe4, 0xa9a7738c, 0xfe604df5, 0x0772a26b, 0xf4b002d6, 0x085f3833, 0x59249dd3),
         0x766a0abb, 0x72af830a, 0x34df1604, 0xa507a53d);
    Step(38, Vars(0x34df1604, 0x41a65cb1, 0x65a0cfe4, 0xa9a7738c, 0xa507a53d, 0x0772a26b, 0xf4b002d6, 0x085f3833),
         0x81c2c92e, 0x9409e33e, 0x6dc57a8a, 0xf0781bc8);
    Step(39, Vars(0x6dc57a8a, 0x34df1604, 0x41a65cb1, 0x65a0cfe4, 0xf0781bc8, 0xa507a53d, 0x0772a26b, 0xf4b002d6),
         0x92722c85, 0x24641522, 0x79ea687a, 0x1efbc0a0);
  }

  lemma Rounds40()
    ensures At(48, Vars(0x4172328d, 0xa14c14b0, 0x72ab4b91, 0x26628815,
                        0xfecf0bc6, 0xd57b94a9, 0xb7755da1, 0xa80f11f0))
  {
    hide At, IsK, Scheduled;
    Constants40();
    Words40();
    Rounds32();
    Step(40, Vars(0x79ea687a, 0x6dc57a8a, 0x34df1604, 0x41a65cb1, 0x1efbc0a0, 0xf0781bc8, 0xa507a53d, 0x0772a26b),
         0xa2bfe8a1, 0x9f47bf94, 0xd6670766, 0x26352d63);
    Step(41, Vars(0xd6670766, 0x79ea687a, 0x6dc57a8a, 0x34df1604, 0x26352d63, 0x1efbc0a0, 0xf0781bc8, 0xa507a53d),
         0xa81a664b, 0xf0a64f5a, 0xdf46652f, 0x838b2711);
    Step(42, Vars(0xdf46652f, 0xd6670766, 0x79ea687a, 0x6dc57a8a, 0x838b2711, 0x26352d63, 0x1efbc0a0, 0xf0781bc8),
         0xc24b8b70, 0x3e246a79, 0x17aa0dfe, 0xdecd4715);
    Step(43, Vars(0x17aa0dfe, 0xdf46652f, 0xd6670766, 0x79ea687a, 0xdecd4715, 0x838b2711, 0x26352d63, 0x1efbc0a0),
         0xc76c51a3, 0x27333ba3, 0x9d4baf93, 0xfda24c2e);
    Step(44, Vars(0x9d4baf93, 0x17aa0dfe, 0xdf46652f, 0xd6670766, 0xfda24c2e, 0xdecd4715, 0x838b2711, 0x26352d63),
         0xd192e819, 0x0c4763f2, 0x26628815, 0xa80f11f0);
    Step(45, Vars(0x26628815, 0x9d4baf93, 0x17aa0dfe, 0xdf46652f, 0xa80f11f0, 0xfda24c2e, 0xdecd4715, 0x838b2711),
         0xd6990624, 0x840abf27, 0x72ab4b91, 0xb7755da1);
    Step(46, Vars(0x72ab4b91, 0x26628815, 0x9d4baf93, 0x17aa0dfe, 0xb7755da1, 0xa80f11f0, 0xfda24c2e, 0xdecd4715),
         0xf40e3585, 0x7a290d5d, 0xa14c14b0, 0xd57b94a9);
    Step(47, Vars(0xa14c14b0, 0x72ab4b91, 0x26628815, 0x9d4baf93, 0xd57b94a9, 0xb7755da1, 0xa80f11f0, 0xfda24c2e),
         0x106aa070, 0x065c43da, 0x4172328d, 0xfecf0bc6);
  }

  lemma Rounds48()
    ensures At(56, Vars(0x38cc9913, 0x3ec45cdb, 0xf5702fdb, 0x101fd28f,
                        0x54cb266b, 0xe50e1b4f, 0x9f4787c3, 0x529e7d00))
  {
    hide At, IsK, Scheduled;
    Constants48();
    Words48();
    Rounds40();
    Step(48, Vars(0x4172328d, 0xa14c14b0, 0x72ab4b91, 0x26628815, 0xfecf0bc6, 0xd57b94a9, 0xb7755da1, 0xa80f11f0),
         0x19a4c116, 0xfb3e89cb, 0x05757ceb, 0xbd714038);
    Step(49, Vars(0x05757ceb, 0x4172328d, 0xa14c14b0, 0x72ab4b91, 0xbd714038, 0xfecf0bc6, 0xd57b94a9, 0xb7755da1),
         0x1e376c08, 0xcc7617db, 0xf11bfaa8, 0x6e5c390c);
    Step(50, Vars(0xf11bfaa8, 0x05757ceb, 0x4172328d, 0xa14c14b0, 0x6e5c390c, 0xbd714038, 0xfecf0bc6, 0xd57b94a9),
         0x2748774c, 0xb9e66c34, 0x7a0508a1, 0x52f1ccf7);
    Step(51, Vars(0x7a0508a1, 0xf11bfaa8, 0x05757ceb, 0x4172328d, 0x52f1ccf7, 0x6e5c390c, 0xbd714038, 0xfecf0bc6),
         0x34b0bcb5, 0xa9993667, 0x886e7a22, 0x49231c1e);
    Step(52, Vars(0x886e7a22, 0x7a0508a1, 0xf11bfaa8, 0x05757ceb, 0x49231c1e, 0x52f1ccf7, 0x6e5c390c, 0xbd714038),
         0x391c0cb3, 0x84badedd, 0x101fd28f, 0x529e7d00);
    Step(53, Vars(0x101fd28f, 0x886e7a22, 0x7a0508a1, 0xf11bfaa8, 0x529e7d00, 0x49231c1e, 0x52f1ccf7, 0x6e5c390c),
         0x4ed8aa4a, 0xc21462bc, 0xf5702fdb, 0x9f4787c3);
    Step(54, Vars(0xf5702fdb, 0x101fd28f, 0x886e7a22, 0x7a0508a1, 0x9f4787c3, 0x529e7d00, 0x49231c1e, 0x52f1ccf7),
         0x5b9cca4f, 0x1487472c, 0x3ec45cdb, 0xe50e1b4f);
    Step(55, Vars(0x3ec45cdb, 0xf5702fdb, 0x101fd28f, 0x886e7a22, 0xe50e1b4f, 0x9f4787c3, 0x529e7d00, 0x49231c1e),
         0x682e6ff3, 0xb20f7a99, 0x38cc9913, 0x54cb266b);
  }

  lemma Rounds56()
    ensures At(64, Vars(0x506e3058, 0xd39a2165, 0x04d24d6c, 0xb85e2ce9,
                        0x5ef50f24, 0xfb121210, 0x948d25b6, 0x961f4894))
  {
    hide At, IsK, Scheduled;
    Constants56();
    Words56();
    Rounds48();
    Step(56, Vars(0x38cc9913, 0x3ec45cdb, 0xf5702fdb, 0x101fd28f, 0x54cb266b, 0xe50e1b4f, 0x9f4787c3, 0x529e7d00),
         0x748f82ee, 0xef57b9cd, 0xfcd1887b, 0x9b5e906c);
    Step(57, Vars(0xfcd1887b, 0x38cc9913, 0x3ec45cdb, 0xf5702fdb, 0x9b5e906c, 0x54cb266b, 0xe50e1b4f, 0x9f4787c3),
         0x78a5636f, 0xebe6b238, 0xc062d46f, 0x7e44008e);
    Step(58, Vars(0xc062d46f, 0xfcd1887b, 0x38cc9913, 0x3ec45cdb, 0x7e44008e, 0x9b5e906c, 0x54cb266b, 0xe50e1b4f),
         0x84c87814, 0x9fe3095e, 0xffb70472, 0x6d83bfc6);
    Step(59, Vars(0xffb70472, 0xc062d46f, 0xfcd1887b, 0x38cc9913, 0x6d83bfc6, 0x7e44008e, 0x9b5e906c, 0x54cb266b),
         0x8cc70208, 0x78bc8d4b, 0xb6ae8fff, 0xb21bad3d);
    Step(60, Vars(0xb6ae8fff, 0xffb70472, 0xc062d46f, 0xfcd1887b, 0xb21bad3d, 0x6d83bfc6, 0x7e44008e, 0x9b5e906c),
         0x90befffa, 0xa43fcf15, 0xb85e2ce9, 0x961f4894);
    Step(61, Vars(0xb85e2ce9, 0xb6ae8fff, 0xffb70472, 0xc062d46f, 0x961f4894, 0xb21bad3d, 0x6d83bfc6, 0x7e44008e),
         0xa4506ceb, 0x668b2ff8, 0x04d24d6c, 0x948d25b6);
    Step(62, Vars(0x04d24d6c, 0xb85e2ce9, 0xb6ae8fff, 0xffb70472, 0x948d25b6, 0x961f4894, 0xb21bad3d, 0x6d83bfc6),
         0xbef9a3f7, 0xeeaba2cc, 0xd39a2165, 0xfb121210);
    Step(63, Vars(0xd39a2165, 0x04d24d6c, 0xb85e2ce9, 0xb6ae8fff, 0xfb121210, 0x948d25b6, 0x961f4894, 0xb21bad3d),
         0xc67178f2, 0x12b1edeb, 0x506e3058, 0x5ef50f24);
  }

  lemma CompressIs()
    ensures Compress(H0, BLOCK) ==
            [0xba7816bf, 0x8f01cfea, 0x414140de, 0x5dae2223,
             0xb00361a3, 0x96177a9c, 0xb410ff61, 0xf20015ad]
  {
    Rounds56();
    hide Rounds;
  }

  lemma OneBlock(words: seq<Word>)
    requires Compress(H0, BLOCK) == words
    ensures HashBlocks(H0, BLOCK) == words
  {
    hide Compress;
    assert BLOCK[..64] == BLOCK && BLOCK[64..] == [];
  }

  // ----------------------------------------------------------------- the digest

  lemma DigestFrom(words: seq<Word>, i: nat, b0: Byte, b1: Byte, b2: Byte, b3: Byte)
    requires i < |words|
    requires words[i] == ((b0 as Word) << 24) | ((b1 as Word) << 16) | ((b2 as Word) << 8) | (b3 as Word)
    ensures DigestBytes(words[i..]) ==
            if i + 1 == |words| then [b0, b1, b2, b3] else [b0, b1, b2, b3] + DigestBytes(words[i + 1..])
  {
    assert words[i..][1..] == words[i + 1..];
  }

  lemma DigestByWords()
    ensures Digest(MESSAGE) ==
            [0xba, 0x78, 0x16, 0xbf] +
            ([0x8f, 0x01, 0xcf, 0xea] +
             ([0x41, 0x41, 0x40, 0xde] +
              ([0x5d, 0xae, 0x22, 0x23] +
               ([0xb0, 0x03, 0x61, 0xa3] +
                ([0x96, 0x17, 0x7a, 0x9c] +
                 ([0xb4, 0x10, 0xff, 0x61] +
                  [0xf2, 0x00, 0x15, 0xad]))))))
  {
    hide Pad, HashBlocks, DigestBytes, Compress;
    PadIsBlock();
    CompressIs();
    OneBlock(Compress(H0, BLOCK));
    var words := [0xba7816bf, 0x8f01cfea, 0x414140de, 0x5dae2223,
                  0xb00361a3, 0x96177a9c, 0xb410ff61, 0xf20015ad];
    DigestFrom(words, 0, 0xba, 0x78, 0x16, 0xbf);
    DigestFrom(words, 1, 0x8f, 0x01, 0xcf, 0xea);
    DigestFrom(words, 2, 0x41, 0x41, 0x40, 0xde);
    DigestFrom(words, 3, 0x5d, 0xae, 0x22, 0x23);
    DigestFrom(words, 4, 0xb0, 0x03, 0x61, 0xa3);
    DigestFrom(words, 5, 0x96, 0x17, 0x7a, 0x9c);
    DigestFrom(words, 6, 0xb4, 0x10, 0xff, 0x61);
    DigestFrom(words, 7, 0xf2, 0x00, 0x15, 0xad);
    assert words[0..] == words;
  }

  /** The digest of "abc". */
  lemma DigestOfAbc()
    ensures Digest(MESSAGE) ==
            [0xba, 0x78, 0x16, 0xbf, 0x8f, 0x01, 0xcf, 0xea, 0x41, 0x41, 0x40, 0xde, 0x5d, 0xae, 0x22, 0x23,
             0xb0, 0x03, 0x61, 0xa3, 0x96, 0x17, 0x7a, 0x9c, 0xb4, 0x10, 0xff, 0x61, 0xf2, 0x00, 0x15, 0xad]
  {
    hide Digest;
    DigestByWords();
  }
}
