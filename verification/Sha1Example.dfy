/** The worked example that goes with the Secure Hash Standard: the message abc, round by round. */
module Sha1Example {
  import opened Prelude
  import opened Sha1Spec

  const BLOCK: seq<bv32> := [0x61626380, 0, 0, 0, 0, 0, 0, 0, 0, 0, 0, 0, 0, 0, 0, 0x18]

  /** The scheduled words. */
  function Scheduled(t: nat): bv32 { W(BLOCK, t) }

  /** The working variables after so many rounds. */
  function At(t: nat): Vars { Rounds(INITIAL, BLOCK, t) }

  lemma FirstWords()
    ensures Scheduled(0) == 0x61626380 && Scheduled(15) == 0x18 && forall t: nat :: 0 < t < 15 ==> Scheduled(t) == 0
  {
  }

  lemma LaterWord(t: nat)
    requires t >= 16
    ensures Scheduled(t) == Rotl1(Scheduled(t - 3) ^ Scheduled(t - 8) ^ Scheduled(t - 14) ^ Scheduled(t - 16))
  {
    hide Rotl1;
  }

  lemma AtStart()
    ensures At(0) == Vars(0x67452301, 0xefcdab89, 0x98badcfe, 0x10325476, 0xc3d2e1f0)
  {
  }

  /** The round that makes `a` of the word `w`. */
  lemma Round(t: nat, w: bv32, a: bv32)
    requires if t < 16 then Scheduled(t) == w
             else Rotl1(Scheduled(t - 3) ^ Scheduled(t - 8) ^ Scheduled(t - 14) ^ Scheduled(t - 16)) == w
    requires var u := At(t); Total(Rotl5(u.a), F(t, u.b, u.c, u.d), u.e, K(t), w) == a
    ensures Scheduled(t) == w && At(t + 1) == Vars(a, At(t).a, Rotl30(At(t).b), At(t).c, At(t).d)
  {
    hide W, Total, Rotl1, Rotl5, Rotl30, F, K;
    if t >= 16 {
      LaterWord(t);
    }
  }

  lemma ChoiceRounds()
    ensures At(20) == Vars(0xfd9e1d7d, 0xdc64901d, 0x20aa99ca, 0xd3a49608, 0xc82f758b)
    ensures Scheduled(4) == 0x00000000 && Scheduled(5) == 0x00000000 && Scheduled(6) == 0x00000000 && Scheduled(7) == 0x00000000
    ensures Scheduled(8) == 0x00000000 && Scheduled(9) == 0x00000000 && Scheduled(10) == 0x00000000 && Scheduled(11) == 0x00000000
    ensures Scheduled(12) == 0x00000000 && Scheduled(13) == 0x00000000 && Scheduled(14) == 0x00000000 && Scheduled(15) == 0x00000018
    ensures Scheduled(16) == 0xc2c4c700 && Scheduled(17) == 0x00000000 && Scheduled(18) == 0x00000030 && Scheduled(19) == 0x85898e01
  {
    hide At, Scheduled;
    AtStart();
    FirstWords();
    Round(0, 0x61626380, 0x0116fc33);
    Round(1, 0x00000000, 0x8990536d);
    Round(2, 0x00000000, 0xa1390f08);
    Round(3, 0x00000000, 0xcdd8e11b);
    Round(4, 0x00000000, 0xcfd499de);
    Round(5, 0x00000000, 0x3fc7ca40);
    Round(6, 0x00000000, 0x993e30c1);
    Round(7, 0x00000000, 0x9e8c07d4);
    Round(8, 0x00000000, 0x4b6ae328);
    Round(9, 0x00000000, 0x8351f929);
    Round(10, 0x00000000, 0xfbda9e89);
    Round(11, 0x00000000, 0x63188fe4);
    Round(12, 0x00000000, 0x4607b664);
    Round(13, 0x00000000, 0x9128f695);
    Round(14, 0x00000000, 0x196bee77);
    Round(15, 0x00000018, 0x20bdd62f);
    Round(16, 0xc2c4c700, 0x4e925823);
    Round(17, 0x00000000, 0x82aa6728);
    Round(18, 0x00000030, 0xdc64901d);
    Round(19, 0x85898e01, 0xfd9e1d7d);
  }

  lemma ParityRounds()
    ensures At(40) == Vars(0x32de1cba, 0x4c986405, 0xf718e5cf, 0x03d447f6, 0xf72eec32)
    ensures Scheduled(24) == 0x85898ec1 && Scheduled(25) == 0x16263806 && Scheduled(26) == 0x00000000 && Scheduled(27) == 0x00000180
    ensures Scheduled(28) == 0x2c4c700c && Scheduled(29) == 0x000000f0 && Scheduled(30) == 0x93afb507 && Scheduled(31) == 0x5898e048
    ensures Scheduled(32) == 0x8e9a9202 && Scheduled(33) == 0x00000600 && Scheduled(34) == 0xb131c0f0 && Scheduled(35) == 0x16263bc6
    ensures Scheduled(36) == 0x4ebed41e && Scheduled(37) == 0x626380a1 && Scheduled(38) == 0x16263806 && Scheduled(39) == 0x000018c0
  {
    hide At, Scheduled;
    ChoiceRounds();
    Round(20, 0x00000000, 0x1a37b0ca);
    Round(21, 0x00000060, 0x33a23bfc);
    Round(22, 0x0b131c03, 0x21283486);
    Round(23, 0x00000030, 0xd541f12d);
    Round(24, 0x85898ec1, 0xc7567dc6);
    Round(25, 0x16263806, 0x48413ba4);
    Round(26, 0x00000000, 0xbe35fbd5);
    Round(27, 0x00000180, 0x4aa84d97);
    Round(28, 0x2c4c700c, 0x8370b52e);
    Round(29, 0x000000f0, 0xc5fbaf5d);
    Round(30, 0x93afb507, 0x1267b407);
    Round(31, 0x5898e048, 0x3b845d33);
    Round(32, 0x8e9a9202, 0x046faa0a);
    Round(33, 0x00000600, 0x2c0ebc11);
    Round(34, 0xb131c0f0, 0x21796ad4);
    Round(35, 0x16263bc6, 0xdcbbb0cb);
    Round(36, 0x4ebed41e, 0x0f511fd8);
    Round(37, 0x626380a1, 0xdc63973f);
    Round(38, 0x16263806, 0x4c986405);
    Round(39, 0x000018c0, 0x32de1cba);
  }

  lemma MajorityRounds()
    ensures At(60) == Vars(0x3f52de5a, 0x09d785fd, 0x3498bfd4, 0xf211824f, 0xd79915ab)
    ensures Scheduled(44) == 0xe2ba3c2b && Scheduled(45) == 0x000060c0 && Scheduled(46) == 0x053a37cd && Scheduled(47) == 0x74458547
    ensures Scheduled(48) == 0xda9415ed && Scheduled(49) == 0x26380a16 && Scheduled(50) == 0x626383a1 && Scheduled(51) == 0x4ebf54de
    ensures Scheduled(52) == 0x3835b44b && Scheduled(53) == 0x0000f600 && Scheduled(54) == 0x1e84c7a3 && Scheduled(55) == 0x98e04d98
    ensures Scheduled(56) == 0x651d16a0 && Scheduled(57) == 0x62658ca1 && Scheduled(58) == 0x458544d6 && Scheduled(59) == 0x44584cb7
  {
    hide At, Scheduled;
    ParityRounds();
    Round(40, 0xd2e138c4, 0xfc87dedf);
    Round(41, 0x00000f00, 0x970a0d5c);
    Round(42, 0x3afb5079, 0x7f193dc5);
    Round(43, 0x898e04e5, 0xee1b1aaf);
    Round(44, 0xe2ba3c2b, 0x40f28e09);
    Round(45, 0x000060c0, 0x1c51e1f2);
    Round(46, 0x053a37cd, 0xa01b846c);
    Round(47, 0x74458547, 0xbead02ca);
    Round(48, 0xda9415ed, 0xbaf39337);
    Round(49, 0x26380a16, 0x120731c5);
    Round(50, 0x626383a1, 0x641db2ce);
    Round(51, 0x4ebf54de, 0x3847ad66);
    Round(52, 0x3835b44b, 0xe490436d);
    Round(53, 0x0000f600, 0x27e9f1d8);
    Round(54, 0x1e84c7a3, 0x7b71f76d);
    Round(55, 0x98e04d98, 0x5e6456af);
    Round(56, 0x651d16a0, 0xc846093f);
    Round(57, 0x62658ca1, 0xd262ff50);
    Round(58, 0x458544d6, 0x09d785fd);
    Round(59, 0x44584cb7, 0x3f52de5a);
  }

  lemma LastRounds()
    ensures At(80) == Vars(0x42541b35, 0x5738d5e1, 0x21834873, 0x681e6df6, 0xd8fdf6ad)
  {
    hide At, Scheduled;
    MajorityRounds();
    Round(60, 0x7ba06619, 0xd756c147);
    Round(61, 0x6380aea2, 0x548c9cb2);
    Round(62, 0x0ae55269, 0xb66c020b);
    Round(63, 0x627b49a1, 0x6b61c9e1);
    Round(64, 0x7cd45c9d, 0x19dfa7ac);
    Round(65, 0x000f0000, 0x101655f9);
    Round(66, 0xfb50753a, 0x0c3df2b4);
    Round(67, 0xec6765e8, 0x78dd4d2b);
    Round(68, 0xba3c2be2, 0x497093c0);
    Round(69, 0x0060c000, 0x3f2588c2);
    Round(70, 0x3a37cd05, 0xc199f8c7);
    Round(71, 0x458546f4, 0x39859de7);
    Round(72, 0xb8599dd6, 0xedb42de4);
    Round(73, 0x380a1a26, 0x11793f6f);
    Round(74, 0x01e02203, 0x5ee76897);
    Round(75, 0xe7cc3456, 0x63f7dab7);
    Round(76, 0xe6e60b69, 0xa079b7d9);
    Round(77, 0x00f60a00, 0x860d21cc);
    Round(78, 0x5795ef4f, 0x5738d5e1);
    Round(79, 0x822e0879, 0x42541b35);
  }

  lemma WordsOfAbc()
    ensures Word(0x61, 0x62, 0x63, 0x80) == 0x61626380 && Word(0, 0, 0, 0) == 0
  {
  }

  lemma EndOfAbc(s: seq<octet>)
    requires s == Ended([0x61, 0x62, 0x63])
    ensures |s| == 56 && s[..4] == [0x61, 0x62, 0x63, 0x80] && forall k: nat :: 4 <= k < 56 ==> s[k] == 0
  {
    assert Gap(3) == 52;
    assert s == [0x61, 0x62, 0x63] + [0x80] + Zeros(52);
  }

  lemma LengthOfAbc()
    ensures LengthLow(3) == 0x18
  {
    assert 8 * 3 % TWO_32 == 24;
  }

  lemma NoHighLength()
    ensures LengthHigh(3) == 0
  {
    assert 8 * 3 / TWO_32 % TWO_32 == 0;
  }

  lemma WordsOfEnd(s: seq<octet>)
    requires s == Ended([0x61, 0x62, 0x63])
    ensures Words(s) == BLOCK[..14]
  {
    hide Words, Word, Ended;
    EndOfAbc(s);
    assert s[0] == s[..4][0] && s[1] == s[..4][1] && s[2] == s[..4][2] && s[3] == s[..4][3];
    WordsOfAbc();
    forall i: nat | i < 14 ensures Words(s)[i] == if i == 0 then 0x61626380 else 0 {
      WordsAt(s, i);
    }
  }

  lemma AbcIsOneBlock()
    ensures Padded([0x61, 0x62, 0x63]) == BLOCK
  {
    hide Words, Ended, LengthLow, LengthHigh;
    WordsOfEnd(Ended([0x61, 0x62, 0x63]));
    LengthOfAbc();
    NoHighLength();
  }

  /** a9993e36 4706816a ba3e2571 7850c26c 9cd0d89d */
  lemma DigestOfAbc()
    ensures Sha1([0x61, 0x62, 0x63]) ==
            [0xa9, 0x99, 0x3e, 0x36, 0x47, 0x06, 0x81, 0x6a, 0xba, 0x3e,
             0x25, 0x71, 0x78, 0x50, 0xc2, 0x6c, 0x9c, 0xd0, 0xd8, 0x9d]
  {
    hide Rounds, Padded;
    LastRounds();
    AbcIsOneBlock();
    FoldOne(INITIAL, BLOCK);
  }
}
