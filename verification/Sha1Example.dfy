/** TEST1 of section 7.3 of RFC 3174 worked through: the schedule and all rounds of SHA-1 over "abc", and its digest. */
module Sha1Example {
  import opened Bytes
  import opened Sha1

  /** W(t). */
  function Scheduled(i: nat): Word
    requires i < 80
  {
    if i < 6 then [0x61626380, 0x00000000, 0x00000000, 0x00000000, 0x00000000, 0x00000000][i]
    else if i < 12 then [0x00000000, 0x00000000, 0x00000000, 0x00000000, 0x00000000, 0x00000000][i - 6]
    else if i < 18 then [0x00000000, 0x00000000, 0x00000000, 0x00000018, 0xC2C4C700, 0x00000000][i - 12]
    else if i < 24 then [0x00000030, 0x85898E01, 0x00000000, 0x00000060, 0x0B131C03, 0x00000030][i - 18]
    else if i < 30 then [0x85898EC1, 0x16263806, 0x00000000, 0x00000180, 0x2C4C700C, 0x000000F0][i - 24]
    else if i < 36 then [0x93AFB507, 0x5898E048, 0x8E9A9202, 0x00000600, 0xB131C0F0, 0x16263BC6][i - 30]
    else if i < 42 then [0x4EBED41E, 0x626380A1, 0x16263806, 0x000018C0, 0xD2E138C4, 0x00000F00][i - 36]
    else if i < 48 then [0x3AFB5079, 0x898E04E5, 0xE2BA3C2B, 0x000060C0, 0x053A37CD, 0x74458547][i - 42]
    else if i < 54 then [0xDA9415ED, 0x26380A16, 0x626383A1, 0x4EBF54DE, 0x3835B44B, 0x0000F600][i - 48]
    else if i < 60 then [0x1E84C7A3, 0x98E04D98, 0x651D16A0, 0x62658CA1, 0x458544D6, 0x44584CB7][i - 54]
    else if i < 66 then [0x7BA06619, 0x6380AEA2, 0x0AE55269, 0x627B49A1, 0x7CD45C9D, 0x000F0000][i - 60]
    else if i < 72 then [0xFB50753A, 0xEC6765E8, 0xBA3C2BE2, 0x0060C000, 0x3A37CD05, 0x458546F4][i - 66]
    else if i < 78 then [0xB8599DD6, 0x380A1A26, 0x01E02203, 0xE7CC3456, 0xE6E60B69, 0x00F60A00][i - 72]
    else [0x5795EF4F, 0x822E0879][i - 78]
  }

  /** Register A after i - 4 rounds; the other registers are its earlier values, the last three rotated. */
  function Chain(i: nat): Word
    requires i < 85
  {
    if i < 6 then [0x0F4B87C3, 0x40C951D8, 0x62EB73FA, 0xEFCDAB89, 0x67452301, 0x0116FC33][i]
    else if i < 12 then [0x8990536D, 0xA1390F08, 0xCDD8E11B, 0xCFD499DE, 0x3FC7CA40, 0x993E30C1][i - 6]
    else if i < 18 then [0x9E8C07D4, 0x4B6AE328, 0x8351F929, 0xFBDA9E89, 0x63188FE4, 0x4607B664][i - 12]
    else if i < 24 then [0x9128F695, 0x196BEE77, 0x20BDD62F, 0x4E925823, 0x82AA6728, 0xDC64901D][i - 18]
    else if i < 30 then [0xFD9E1D7D, 0x1A37B0CA, 0x33A23BFC, 0x21283486, 0xD541F12D, 0xC7567DC6][i - 24]
    else if i < 36 then [0x48413BA4, 0xBE35FBD5, 0x4AA84D97, 0x8370B52E, 0xC5FBAF5D, 0x1267B407][i - 30]
    else if i < 42 then [0x3B845D33, 0x046FAA0A, 0x2C0EBC11, 0x21796AD4, 0xDCBBB0CB, 0x0F511FD8][i - 36]
    else if i < 48 then [0xDC63973F, 0x4C986405, 0x32DE1CBA, 0xFC87DEDF, 0x970A0D5C, 0x7F193DC5][i - 42]
    else if i < 54 then [0xEE1B1AAF, 0x40F28E09, 0x1C51E1F2, 0xA01B846C, 0xBEAD02CA, 0xBAF39337][i - 48]
    else if i < 60 then [0x120731C5, 0x641DB2CE, 0x3847AD66, 0xE490436D, 0x27E9F1D8, 0x7B71F76D][i - 54]
    else if i < 66 then [0x5E6456AF, 0xC846093F, 0xD262FF50, 0x09D785FD, 0x3F52DE5A, 0xD756C147][i - 60]
    else if i < 72 then [0x548C9CB2, 0xB66C020B, 0x6B61C9E1, 0x19DFA7AC, 0x101655F9, 0x0C3DF2B4][i - 66]
    else if i < 78 then [0x78DD4D2B, 0x497093C0, 0x3F2588C2, 0xC199F8C7, 0x39859DE7, 0xEDB42DE4][i - 72]
    else if i < 84 then [0x11793F6F, 0x5EE76897, 0x63F7DAB7, 0xA079B7D9, 0x860D21CC, 0x5738D5E1][i - 78]
    else [0x42541B35][i - 84]
  }

  function Registers(t: nat): Words
    requires t <= 80
  {
    Words(Chain(t + 4), Chain(t + 3), LeftRotate(Chain(t + 2), 30), LeftRotate(Chain(t + 1), 30),
          LeftRotate(Chain(t), 30))
  }

  /** The next value of the chain is that of step d. */
  predicate RoundFits(t: nat)
    requires t < 80
  {
    Temp(Registers(t), t, Scheduled(t)) == Chain(t + 5)
  }

  /** The next word of the schedule is that of step b. */
  predicate ScheduleFits(t: nat)
    requires 16 <= t < 80
  {
    Expand(Scheduled(t - 3), Scheduled(t - 8), Scheduled(t - 14), Scheduled(t - 16)) == Scheduled(t)
  }

  lemma Rounds0()
    ensures RoundFits(0) && RoundFits(1) && RoundFits(2) && RoundFits(3) && RoundFits(4)
  {
  }

  lemma Rounds5()
    ensures RoundFits(5) && RoundFits(6) && RoundFits(7) && RoundFits(8) && RoundFits(9)
  {
  }

  lemma Rounds10()
    ensures RoundFits(10) && RoundFits(11) && RoundFits(12) && RoundFits(13) && RoundFits(14)
  {
  }

  lemma Rounds15()
    ensures RoundFits(15) && RoundFits(16) && RoundFits(17) && RoundFits(18) && RoundFits(19)
  {
  }

  lemma Rounds20()
    ensures RoundFits(20) && RoundFits(21) && RoundFits(22) && RoundFits(23) && RoundFits(24)
  {
  }

  lemma Rounds25()
    ensures RoundFits(25) && RoundFits(26) && RoundFits(27) && RoundFits(28) && RoundFits(29)
  {
  }

  lemma Rounds30()
    ensures RoundFits(30) && RoundFits(31) && RoundFits(32) && RoundFits(33) && RoundFits(34)
  {
  }

  lemma Rounds35()
    ensures RoundFits(35) && RoundFits(36) && RoundFits(37) && RoundFits(38) && RoundFits(39)
  {
  }

  lemma Rounds40()
    ensures RoundFits(40) && RoundFits(41) && RoundFits(42) && RoundFits(43) && RoundFits(44)
  {
  }

  lemma Rounds45()
    ensures RoundFits(45) && RoundFits(46) && RoundFits(47) && RoundFits(48) && RoundFits(49)
  {
  }

  lemma Rounds50()
    ensures RoundFits(50) && RoundFits(51) && RoundFits(52) && RoundFits(53) && RoundFits(54)
  {
  }

  lemma Rounds55()
    ensures RoundFits(55) && RoundFits(56) && RoundFits(57) && RoundFits(58) && RoundFits(59)
  {
  }

  lemma Rounds60()
    ensures RoundFits(60) && RoundFits(61) && RoundFits(62) && RoundFits(63) && RoundFits(64)
  {
  }

  lemma Rounds65()
    ensures RoundFits(65) && RoundFits(66) && RoundFits(67) && RoundFits(68) && RoundFits(69)
  {
  }

  lemma Rounds70()
    ensures RoundFits(70) && RoundFits(71) && RoundFits(72) && RoundFits(73) && RoundFits(74)
  {
  }

  lemma Rounds75()
    ensures RoundFits(75) && RoundFits(76) && RoundFits(77) && RoundFits(78) && RoundFits(79)
  {
  }

  lemma Words16()
    ensures ScheduleFits(16) && ScheduleFits(17) && ScheduleFits(18) && ScheduleFits(19)
    ensures ScheduleFits(20) && ScheduleFits(21) && ScheduleFits(22) && ScheduleFits(23)
  {
  }

  lemma Words24()
    ensures ScheduleFits(24) && ScheduleFits(25) && ScheduleFits(26) && ScheduleFits(27)
    ensures ScheduleFits(28) && ScheduleFits(29) && ScheduleFits(30) && ScheduleFits(31)
  {
  }

  lemma Words32()
    ensures ScheduleFits(32) && ScheduleFits(33) && ScheduleFits(34) && ScheduleFits(35)
    ensures ScheduleFits(36) && ScheduleFits(37) && ScheduleFits(38) && ScheduleFits(39)
  {
  }

  lemma Words40()
    ensures ScheduleFits(40) && ScheduleFits(41) && ScheduleFits(42) && ScheduleFits(43)
    ensures ScheduleFits(44) && ScheduleFits(45) && ScheduleFits(46) && ScheduleFits(47)
  {
  }

  lemma Words48()
    ensures ScheduleFits(48) && ScheduleFits(49) && ScheduleFits(50) && ScheduleFits(51)
    ensures ScheduleFits(52) && ScheduleFits(53) && ScheduleFits(54) && ScheduleFits(55)
  {
  }

  lemma Words56()
    ensures ScheduleFits(56) && ScheduleFits(57) && ScheduleFits(58) && ScheduleFits(59)
    ensures ScheduleFits(60) && ScheduleFits(61) && ScheduleFits(62) && ScheduleFits(63)
  {
  }

  lemma Words64()
    ensures ScheduleFits(64) && ScheduleFits(65) && ScheduleFits(66) && ScheduleFits(67)
    ensures ScheduleFits(68) && ScheduleFits(69) && ScheduleFits(70) && ScheduleFits(71)
  {
  }

  lemma Words72()
    ensures ScheduleFits(72) && ScheduleFits(73) && ScheduleFits(74) && ScheduleFits(75)
    ensures ScheduleFits(76) && ScheduleFits(77) && ScheduleFits(78) && ScheduleFits(79)
  {
  }

  lemma EarlyRound(t: nat)
    requires t < 40
    ensures RoundFits(t)
  {
    hide *;
    if t < 5 {
      Rounds0();
      assert t in {0, 1, 2, 3, 4};
    } else if t < 10 {
      Rounds5();
      assert t in {5, 6, 7, 8, 9};
    } else if t < 15 {
      Rounds10();
      assert t in {10, 11, 12, 13, 14};
    } else if t < 20 {
      Rounds15();
      assert t in {15, 16, 17, 18, 19};
    } else if t < 25 {
      Rounds20();
      assert t in {20, 21, 22, 23, 24};
    } else if t < 30 {
      Rounds25();
      assert t in {25, 26, 27, 28, 29};
    } else if t < 35 {
      Rounds30();
      assert t in {30, 31, 32, 33, 34};
    } else {
      Rounds35();
      assert t in {35, 36, 37, 38, 39};
    }
  }

  lemma LateRound(t: nat)
    requires 40 <= t < 80
    ensures RoundFits(t)
  {
    hide *;
    if t < 45 {
      Rounds40();
      assert t in {40, 41, 42, 43, 44};
    } else if t < 50 {
      Rounds45();
      assert t in {45, 46, 47, 48, 49};
    } else if t < 55 {
      Rounds50();
      assert t in {50, 51, 52, 53, 54};
    } else if t < 60 {
      Rounds55();
      assert t in {55, 56, 57, 58, 59};
    } else if t < 65 {
      Rounds60();
      assert t in {60, 61, 62, 63, 64};
    } else if t < 70 {
      Rounds65();
      assert t in {65, 66, 67, 68, 69};
    } else if t < 75 {
      Rounds70();
      assert t in {70, 71, 72, 73, 74};
    } else {
      Rounds75();
      assert t in {75, 76, 77, 78, 79};
    }
  }

  lemma EveryWord(t: nat)
    requires 16 <= t < 80
    ensures ScheduleFits(t)
  {
    hide *;
    if t < 24 {
      Words16();
      assert t in {16, 17, 18, 19, 20, 21, 22, 23};
    } else if t < 32 {
      Words24();
      assert t in {24, 25, 26, 27, 28, 29, 30, 31};
    } else if t < 40 {
      Words32();
      assert t in {32, 33, 34, 35, 36, 37, 38, 39};
    } else if t < 48 {
      Words40();
      assert t in {40, 41, 42, 43, 44, 45, 46, 47};
    } else if t < 56 {
      Words48();
      assert t in {48, 49, 50, 51, 52, 53, 54, 55};
    } else if t < 64 {
      Words56();
      assert t in {56, 57, 58, 59, 60, 61, 62, 63};
    } else if t < 72 {
      Words64();
      assert t in {64, 65, 66, 67, 68, 69, 70, 71};
    } else {
      Words72();
      assert t in {72, 73, 74, 75, 76, 77, 78, 79};
    }
  }

  /** "abc" padded to one block. */
  const BLOCK: Bytes := [0x61, 0x62, 0x63, 0x80] + Zeros(59) + [0x18]

  lemma FirstWord()
    ensures |BLOCK| == 64 && WordAt(BLOCK, 0) == Scheduled(0)
  {
    assert BLOCK[0] == 0x61 && BLOCK[1] == 0x62 && BLOCK[2] == 0x63 && BLOCK[3] == 0x80;
  }

  lemma LastWord()
    ensures |BLOCK| == 64 && WordAt(BLOCK, 15) == Scheduled(15)
  {
    assert BLOCK[60] == 0 && BLOCK[61] == 0 && BLOCK[62] == 0 && BLOCK[63] == 0x18;
  }

  lemma MiddleWord(t: nat)
    requires 0 < t < 15
    ensures |BLOCK| == 64 && WordAt(BLOCK, t) == 0
  {
    assert BLOCK[4 * t] == 0 && BLOCK[4 * t + 1] == 0 && BLOCK[4 * t + 2] == 0 && BLOCK[4 * t + 3] == 0;
  }

  lemma {:induction false} ScheduleIs(t: nat)
    requires t < 80
    ensures |BLOCK| == 64 && Schedule(BLOCK, t) == Scheduled(t)
    decreases t
  {
    if t == 0 {
      FirstWord();
    } else if t < 15 {
      MiddleWord(t);
    } else if t == 15 {
      LastWord();
    } else {
      EveryWord(t);
      ScheduleIs(t - 3);
      ScheduleIs(t - 8);
      ScheduleIs(t - 14);
      ScheduleIs(t - 16);
      hide Scheduled, Expand;
    }
  }

  lemma {:induction false} RoundsAre(t: nat)
    requires t <= 80
    ensures |BLOCK| == 64 && Rounds(BLOCK, Registers(0), t) == Registers(t)
    decreases t
  {
    hide Temp, Scheduled, Schedule, Chain, LeftRotate;
    if t > 0 {
      RoundsAre(t - 1);
      ScheduleIs(t - 1);
      if t - 1 < 40 {
        EarlyRound(t - 1);
      } else {
        LateRound(t - 1);
      }
    }
  }

  lemma Starts()
    ensures Registers(0) == H0
  {
  }

  lemma Ends()
    ensures Sum(H0, Registers(80)) == Words(0xA9993E36, 0x4706816A, 0xBA3E2571, 0x7850C26C, 0x9CD0D89D)
  {
  }

  lemma Padded()
    ensures Pad([0x61, 0x62, 0x63]) == BLOCK
  {
  }

  /** The digest of "abc". */
  lemma Example()
    ensures Sha1Of([0x61, 0x62, 0x63]) ==
            [0xA9, 0x99, 0x3E, 0x36, 0x47, 0x06, 0x81, 0x6A, 0xBA, 0x3E, 0x25, 0x71, 0x78, 0x50, 0xC2, 0x6C,
             0x9C, 0xD0, 0xD8, 0x9D]
  {
    Padded();
    RoundsAre(80);
    Starts();
    Ends();
    OneBlock();
    DigestIs();
  }

  lemma OneBlock()
    ensures |BLOCK| == 64 && Fold(H0, BLOCK) == Compress(H0, BLOCK)
  {
    hide Compress;
    assert BLOCK[..64] == BLOCK && BLOCK[64..] == [];
  }

  lemma DigestIs()
    ensures Digest(Words(0xA9993E36, 0x4706816A, 0xBA3E2571, 0x7850C26C, 0x9CD0D89D)) ==
            [0xA9, 0x99, 0x3E, 0x36, 0x47, 0x06, 0x81, 0x6A, 0xBA, 0x3E, 0x25, 0x71, 0x78, 0x50, 0xC2, 0x6C,
             0x9C, 0xD0, 0xD8, 0x9D]
  {
  }
}
