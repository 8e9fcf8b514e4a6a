/** A published digest: the one of the empty message in appendix A.5 of RFC 1320. */
module Md4Vector {
  import opened Bytes
  import opened Md4
  import opened Md4Program

  /** The only block of the padded empty message. */
  function Block(): (x: seq<Word>)
    ensures |x| == 16 && x[0] == 0x80 && forall j :: 1 <= j < 16 ==> x[j] == 0
  {
    [0x80, 0, 0, 0, 0, 0, 0, 0, 0, 0, 0, 0, 0, 0, 0, 0]
  }

  function Four(s: State, round: nat, n: nat): State {
    var x := Block();
    Step(Step(Step(Step(s, x, round, n), x, round, n + 1), x, round, n + 2), x, round, n + 3)
  }

  /** One line of each round worked out: word, shift, auxiliary function, sum, rotation. */
  lemma Line1(i: nat, j: nat, x: Word, s: nat, a: Word, b: Word, c: Word, d: Word, f: Word, u: Word, t: Word)
    requires i < 16 && j < 16 && Index(0, i) == j && Block()[j] == x && Shift(0, i) == s
    requires F(b, c, d) == f && Add(Add(a, f), x) == u && 0 < s < 32 && RotateLeft(u, s) == t
    ensures Step(State(a, b, c, d), Block(), 0, i) == State(d, t, b, c)
  {
    hide F, G, H, Add, RotateLeft, Index, Shift, Block;
  }

  lemma Line2(i: nat, j: nat, x: Word, s: nat, a: Word, b: Word, c: Word, d: Word, f: Word, u: Word, t: Word)
    requires i < 16 && j < 16 && Index(1, i) == j && Block()[j] == x && Shift(1, i) == s
    requires G(b, c, d) == f && Add(Add(Add(a, f), x), 0x5A82_7999) == u && 0 < s < 32 && RotateLeft(u, s) == t
    ensures Step(State(a, b, c, d), Block(), 1, i) == State(d, t, b, c)
  {
    hide F, G, H, Add, RotateLeft, Index, Shift, Block;
  }

  lemma Line3(i: nat, j: nat, x: Word, s: nat, a: Word, b: Word, c: Word, d: Word, f: Word, u: Word, t: Word)
    requires i < 16 && j < 16 && Index(2, i) == j && Block()[j] == x && Shift(2, i) == s
    requires H(b, c, d) == f && Add(Add(Add(a, f), x), 0x6ED9_EBA1) == u && 0 < s < 32 && RotateLeft(u, s) == t
    ensures Step(State(a, b, c, d), Block(), 2, i) == State(d, t, b, c)
  {
    hide F, G, H, Add, RotateLeft, Index, Shift, Block;
  }

  lemma BlockWords()
    ensures Block()[0] == 0x80 && forall j :: 1 <= j < 16 ==> Block()[j] == 0
  {
  }

  lemma Round1Part1()
    ensures Four(State(0x6745_2301, 0xefcd_ab89, 0x98ba_dcfe, 0x1032_5476), 0, 0) == State(0x3f8, 0x740f_9e7d, 0x446_b910, 0x769a_0254)
  {
    hide Step, Block;
    BlockWords();
    Line1(0, 0, 0x80, 3, 0x6745_2301, 0xefcd_ab89, 0x98ba_dcfe, 0x1032_5476, 0x98ba_dcfe, 0x7f, 0x3f8);
    Line1(1, 1, 0, 7, 0x1032_5476, 0x3f8, 0xefcd_ab89, 0x98ba_dcfe, 0x98ba_df8e, 0xa8ed_3404, 0x769a_0254);
    Line1(2, 2, 0, 11, 0x98ba_dcfe, 0x769a_0254, 0x3f8, 0xefcd_ab89, 0x8945_abd9, 0x2200_88d7, 0x446_b910);
    Line1(3, 3, 0, 19, 0xefcd_ab89, 0x446_b910, 0x769a_0254, 0x3f8, 0x402_02f8, 0xf3cf_ae81, 0x740f_9e7d);
  }

  lemma Round1Part2()
    ensures Four(State(0x3f8, 0x740f_9e7d, 0x446_b910, 0x769a_0254), 0, 4) == State(0x34b4_e040, 0xf5ef_256b, 0x6c2b_c1c2, 0x704d_d255)
  {
    hide Step, Block;
    BlockWords();
    Line1(4, 4, 0, 3, 0x3f8, 0x740f_9e7d, 0x446_b910, 0x769a_0254, 0x696_9810, 0x696_9c08, 0x34b4_e040);
    Line1(5, 5, 0, 7, 0x769a_0254, 0x34b4_e040, 0x740f_9e7d, 0x446_b910, 0x3446_9950, 0xaae0_9ba4, 0x704d_d255);
    Line1(6, 6, 0, 11, 0x446_b910, 0x704d_d255, 0x34b4_e040, 0x740f_9e7d, 0x3406_cc68, 0x384d_8578, 0x6c2b_c1c2);
    Line1(7, 7, 0, 19, 0x740f_9e7d, 0x6c2b_c1c2, 0x704d_d255, 0x34b4_e040, 0x709d_e040, 0xe4ad_7ebd, 0xf5ef_256b);
  }

  lemma Round1Part3()
    ensures Four(State(0x34b4_e040, 0xf5ef_256b, 0x6c2b_c1c2, 0x704d_d255), 0, 8) == State(0xc705_9cb4, 0x18be_2386, 0x8bf5_399c, 0xbe8b_dbae)
  {
    hide Step, Block;
    BlockWords();
    Line1(8, 8, 0, 3, 0x34b4_e040, 0xf5ef_256b, 0x6c2b_c1c2, 0x704d_d255, 0x642b_d356, 0x98e0_b396, 0xc705_9cb4);
    Line1(9, 9, 0, 7, 0x704d_d255, 0xc705_9cb4, 0xf5ef_256b, 0x6c2b_c1c2, 0xed2f_4562, 0x5d7d_17b7, 0xbe8b_dbae);
    Line1(10, 10, 0, 11, 0x6c2b_c1c2, 0xbe8b_dbae, 0xc705_9cb4, 0xf5ef_256b, 0xc765_bce5, 0x3391_7ea7, 0x8bf5_399c);
    Line1(11, 11, 0, 19, 0xf5ef_256b, 0x8bf5_399c, 0xbe8b_dbae, 0xc705_9cb4, 0xce81_9dac, 0xc470_c317, 0x18be_2386);
  }

  lemma Round1Part4()
    ensures Four(State(0xc705_9cb4, 0x18be_2386, 0x8bf5_399c, 0xbe8b_dbae), 0, 12) == State(0xaddc_b303, 0x3665_f296, 0x8ee8_f245, 0xa483_a664)
  {
    hide Step, Block;
    BlockWords();
    Line1(12, 12, 0, 3, 0xc705_9cb4, 0x18be_2386, 0x8bf5_399c, 0xbe8b_dbae, 0xaeb5_f9ac, 0x75bb_9660, 0xaddc_b303);
    Line1(13, 13, 0, 7, 0xbe8b_dbae, 0xaddc_b303, 0x18be_2386, 0x8bf5_399c, 0xabd_2b9e, 0xc949_074c, 0xa483_a664);
    Line1(14, 14, 0, 11, 0x8bf5_399c, 0xa483_a664, 0xaddc_b303, 0x18be_2386, 0xbcbc_a382, 0x48b1_dd1e, 0x8ee8_f245);
    Line1(15, 15, 0, 19, 0x18be_2386, 0x8ee8_f245, 0xa483_a664, 0xaddc_b303, 0xa594_a346, 0xbe52_c6cc, 0x3665_f296);
  }

  lemma Round2Part1()
    ensures Four(State(0xaddc_b303, 0x3665_f296, 0x8ee8_f245, 0xa483_a664), 1, 0) == State(0x7a08_fb05, 0x66ce_c932, 0x98bb_ca4f, 0xade2_4047)
  {
    hide Step, Block;
    BlockWords();
    Line2(0, 0, 0x80, 3, 0xaddc_b303, 0x3665_f296, 0x8ee8_f245, 0xa483_a664, 0xa6e1_f244, 0xaf41_1f60, 0x7a08_fb05);
    Line2(1, 4, 0, 5, 0xa483_a664, 0x7a08_fb05, 0x3665_f296, 0x8ee8_f245, 0x3e68_f205, 0x3d6f_1202, 0xade2_4047);
    Line2(2, 8, 0, 9, 0x8ee8_f245, 0xade2_4047, 0x7a08_fb05, 0x3665_f296, 0x3e60_f207, 0x27cc_5de5, 0x98bb_ca4f);
    Line2(3, 12, 0, 13, 0x3665_f296, 0x98bb_ca4f, 0xade2_4047, 0x7a08_fb05, 0xb8aa_ca47, 0x4993_3676, 0x66ce_c932);
  }

  lemma Round2Part2()
    ensures Four(State(0x7a08_fb05, 0x66ce_c932, 0x98bb_ca4f, 0xade2_4047), 1, 4) == State(0xbb1_e72c, 0x3d0d_b9ec, 0x9e4a_14b3, 0x6410_a1c2)
  {
    hide Step, Block;
    BlockWords();
    Line2(4, 1, 0, 3, 0x7a08_fb05, 0x66ce_c932, 0x98bb_ca4f, 0xade2_4047, 0xacea_c847, 0x8176_3ce5, 0xbb1_e72c);
    Line2(5, 5, 0, 5, 0xade2_4047, 0xbb1_e72c, 0x66ce_c932, 0x98bb_ca4f, 0xabb_cb2e, 0x1320_850e, 0x6410_a1c2);
    Line2(6, 9, 0, 9, 0x98bb_ca4f, 0x6410_a1c2, 0xbb1_e72c, 0x66ce_c932, 0x6690_e122, 0x59cf_250a, 0x9e4a_14b3);
    Line2(7, 13, 0, 13, 0x66ce_c932, 0x9e4a_14b3, 0x6410_a1c2, 0xbb1_e72c, 0xe10_a5a2, 0xcf61_e86d, 0x3d0d_b9ec);
  }

  lemma Round2Part3()
    ensures Four(State(0xbb1_e72c, 0x3d0d_b9ec, 0x9e4a_14b3, 0x6410_a1c2), 1, 8) == State(0x11e8_953d, 0xc8d8_4161, 0x727f_1264, 0x7b76_231b)
  {
    hide Step, Block;
    BlockWords();
    Line2(8, 2, 0, 3, 0xbb1_e72c, 0x3d0d_b9ec, 0x9e4a_14b3, 0x6410_a1c2, 0x3c08_b1e2, 0xa23d_12a7, 0x11e8_953d);
    Line2(9, 6, 0, 5, 0x6410_a1c2, 0x11e8_953d, 0x3d0d_b9ec, 0x9e4a_14b3, 0x1d48_95bd, 0xdbdb_b118, 0x7b76_231b);
    Line2(10, 10, 0, 9, 0x9e4a_14b3, 0x7b76_231b, 0x11e8_953d, 0x3d0d_b9ec, 0x396c_b13d, 0x3239_3f89, 0x727f_1264);
    Line2(11, 14, 0, 13, 0x3d0d_b9ec, 0x727f_1264, 0x7b76_231b, 0x11e8_953d, 0x737e_133d, 0xb0e_46c2, 0xc8d8_4161);
  }

  lemma Round2Part4()
    ensures Four(State(0x11e8_953d, 0xc8d8_4161, 0x727f_1264, 0x7b76_231b), 1, 12) == State(0x3748_91bf, 0x6f95_2b2e, 0xb49a_4dae, 0xa15_c329)
  {
    hide Step, Block;
    BlockWords();
    Line2(12, 3, 0, 3, 0x11e8_953d, 0xc8d8_4161, 0x727f_1264, 0x7b76_231b, 0x7a7e_0361, 0xe6e9_1237, 0x3748_91bf);
    Line2(13, 7, 0, 5, 0x7b76_231b, 0x3748_91bf, 0xc8d8_4161, 0x727f_1264, 0x7258_1165, 0x4850_ae19, 0xa15_c329);
    Line2(14, 11, 0, 9, 0x727f_1264, 0xa15_c329, 0x3748_91bf, 0xc8d8_4161, 0xa58_c129, 0xd75a_4d26, 0xb49a_4dae);
    Line2(15, 15, 0, 13, 0xc8d8_4161, 0xb49a_4dae, 0xa15_c329, 0x3748_91bf, 0x3618_c1af, 0x5973_7ca9, 0x6f95_2b2e);
  }

  lemma Round3Part1()
    ensures Four(State(0x3748_91bf, 0x6f95_2b2e, 0xb49a_4dae, 0xa15_c329), 2, 0) == State(0xb9e9_1c4b, 0x28f0_76bd, 0x1ab1_0ced, 0xac53_2bb7)
  {
    hide Step, Block;
    BlockWords();
    Line3(0, 0, 0x80, 3, 0x3748_91bf, 0x6f95_2b2e, 0xb49a_4dae, 0xa15_c329, 0xd11a_a5a9, 0x773d_2389, 0xb9e9_1c4b);
    Line3(1, 8, 0, 9, 0xa15_c329, 0xb9e9_1c4b, 0x6f95_2b2e, 0xb49a_4dae, 0x62e6_7acb, 0xdbd6_2995, 0xac53_2bb7);
    Line3(2, 4, 0, 11, 0xb49a_4dae, 0xac53_2bb7, 0xb9e9_1c4b, 0x6f95_2b2e, 0x7a2f_1cd2, 0x9da3_5621, 0x1ab1_0ced);
    Line3(3, 12, 0, 15, 0x6f95_2b2e, 0x1ab1_0ced, 0xac53_2bb7, 0xb9e9_1c4b, 0xf0b_3b11, 0xed7a_51e0, 0x28f0_76bd);
  }

  lemma Round3Part2()
    ensures Four(State(0xb9e9_1c4b, 0x28f0_76bd, 0x1ab1_0ced, 0xac53_2bb7), 2, 4) == State(0x36aa_ce9e, 0xb8b9_000f, 0x6f67_8dca, 0x3198_4c40)
  {
    hide Step, Block;
    BlockWords();
    Line3(4, 2, 0, 3, 0xb9e9_1c4b, 0x28f0_76bd, 0x1ab1_0ced, 0xac53_2bb7, 0x9e12_51e7, 0xc6d5_59d3, 0x36aa_ce9e);
    Line3(5, 10, 0, 9, 0xac53_2bb7, 0x36aa_ce9e, 0x28f0_76bd, 0x1ab1_0ced, 0x4eb_b4ce, 0x2018_cc26, 0x3198_4c40);
    Line3(6, 6, 0, 11, 0x1ab1_0ced, 0x3198_4c40, 0x36aa_ce9e, 0x28f0_76bd, 0x2fc2_f463, 0xb94d_ecf1, 0x6f67_8dca);
    Line3(7, 14, 0, 15, 0x28f0_76bd, 0x6f67_8dca, 0x3198_4c40, 0x36aa_ce9e, 0x6855_0f14, 0x1f_7172, 0xb8b9_000f);
  }

  lemma Round3Part3()
    ensures Four(State(0x36aa_ce9e, 0xb8b9_000f, 0x6f67_8dca, 0x3198_4c40), 2, 8) == State(0x5e5b_de24, 0x1873_17b3, 0xb69f_1f41, 0xef17_8453)
  {
    hide Step, Block;
    BlockWords();
    Line3(8, 1, 0, 3, 0x36aa_ce9e, 0xb8b9_000f, 0x6f67_8dca, 0x3198_4c40, 0xe646_c185, 0x8bcb_7bc4, 0x5e5b_de24);
    Line3(9, 9, 0, 9, 0x3198_4c40, 0x5e5b_de24, 0xb8b9_000f, 0x6f67_8dca, 0x8985_53e1, 0x29f7_8bc2, 0xef17_8453);
    Line3(10, 5, 0, 11, 0x6f67_8dca, 0xef17_8453, 0x5e5b_de24, 0xb8b9_000f, 0x9f5_5a78, 0xe836_d3e3, 0xb69f_1f41);
    Line3(11, 13, 0, 15, 0xb8b9_000f, 0xb69f_1f41, 0xef17_8453, 0x5e5b_de24, 0x7d3_4536, 0x2f66_30e6, 0x1873_17b3);
  }

  lemma Round3Part4()
    ensures Four(State(0x5e5b_de24, 0x1873_17b3, 0xb69f_1f41, 0xef17_8453), 2, 12) == State(0x798a_b330, 0x421b_bf48, 0x3e9e_5fb9, 0xb057_6c6a)
  {
    hide Step, Block;
    BlockWords();
    Line3(12, 3, 0, 3, 0x5e5b_de24, 0x1873_17b3, 0xb69f_1f41, 0xef17_8453, 0x41fb_8ca1, 0xf31_5666, 0x798a_b330);
    Line3(13, 11, 0, 9, 0xef17_8453, 0x798a_b330, 0x1873_17b3, 0xb69f_1f41, 0xd766_bbc2, 0x3558_2bb6, 0xb057_6c6a);
    Line3(14, 7, 0, 11, 0xb69f_1f41, 0xb057_6c6a, 0x798a_b330, 0x1873_17b3, 0xd1ae_c8e9, 0xf727_d3cb, 0x3e9e_5fb9);
    Line3(15, 15, 0, 15, 0x1873_17b3, 0x3e9e_5fb9, 0xb057_6c6a, 0x798a_b330, 0xf743_80e3, 0x7e90_8437, 0x421b_bf48);
  }

  lemma Round1Whole()
    ensures Steps(State(0x6745_2301, 0xefcd_ab89, 0x98ba_dcfe, 0x1032_5476), Block(), 0, 16) == State(0xaddc_b303, 0x3665_f296, 0x8ee8_f245, 0xa483_a664)
  {
    hide Step, Steps;
    var s, x := State(0x6745_2301, 0xefcd_ab89, 0x98ba_dcfe, 0x1032_5476), Block();
    assert Steps(s, x, 0, 0) == s by { NoSteps(s, x, 0); }
    Round1Part1();
    FourSteps(s, x, 0, 0);
    Round1Part2();
    FourSteps(s, x, 0, 4);
    Round1Part3();
    FourSteps(s, x, 0, 8);
    Round1Part4();
    FourSteps(s, x, 0, 12);
  }

  lemma Round2Whole()
    ensures Steps(State(0xaddc_b303, 0x3665_f296, 0x8ee8_f245, 0xa483_a664), Block(), 1, 16) == State(0x3748_91bf, 0x6f95_2b2e, 0xb49a_4dae, 0xa15_c329)
  {
    hide Step, Steps;
    var s, x := State(0xaddc_b303, 0x3665_f296, 0x8ee8_f245, 0xa483_a664), Block();
    assert Steps(s, x, 1, 0) == s by { NoSteps(s, x, 1); }
    Round2Part1();
    FourSteps(s, x, 1, 0);
    Round2Part2();
    FourSteps(s, x, 1, 4);
    Round2Part3();
    FourSteps(s, x, 1, 8);
    Round2Part4();
    FourSteps(s, x, 1, 12);
  }

  lemma Round3Whole()
    ensures Steps(State(0x3748_91bf, 0x6f95_2b2e, 0xb49a_4dae, 0xa15_c329), Block(), 2, 16) == State(0x798a_b330, 0x421b_bf48, 0x3e9e_5fb9, 0xb057_6c6a)
  {
    hide Step, Steps;
    var s, x := State(0x3748_91bf, 0x6f95_2b2e, 0xb49a_4dae, 0xa15_c329), Block();
    assert Steps(s, x, 2, 0) == s by { NoSteps(s, x, 2); }
    Round3Part1();
    FourSteps(s, x, 2, 0);
    Round3Part2();
    FourSteps(s, x, 2, 4);
    Round3Part3();
    FourSteps(s, x, 2, 8);
    Round3Part4();
    FourSteps(s, x, 2, 12);
  }

  lemma NoSteps(s: State, x: seq<Word>, round: nat)
    requires |x| == 16
    ensures Steps(s, x, round, 0) == s
  {
  }

  lemma FinalSums()
    ensures Plus(State(0x798a_b330, 0x421b_bf48, 0x3e9e_5fb9, 0xb057_6c6a), INITIAL)
         == State(0xe0cf_d631, 0x31e9_6ad1, 0xd759_3cb7, 0xc089_c0e0)
  {
  }

  lemma CompressedEmpty()
    ensures Compress(INITIAL, Block()) == State(0xe0cf_d631, 0x31e9_6ad1, 0xd759_3cb7, 0xc089_c0e0)
  {
    hide Steps, Plus, Block;
    Round1Whole();
    Round2Whole();
    Round3Whole();
    FinalSums();
  }

  lemma PaddedEmpty()
    ensures |Padded([])| == 64 && Words(Padded([]), 0) == Block()
  {
    PaddedBytes();
    var p := Padded([]);
    hide Padded;
    assert Octet(0x80) == 0x80 && Octet(0) == 0;
    forall j | 0 <= j < 16 ensures Words(p, 0)[j] == Block()[j] {
      WordIs(p, 4 * j);
    }
  }

  lemma PaddedBytes()
    ensures |Padded([])| == 64 && Padded([])[0] == 0x80 && forall i :: 1 <= i < 64 ==> Padded([])[i] == 0
  {
    assert ZeroBytes(0) == 55;
    LeZeros();
    var p := [0x80] + Zeros(55) + Le(0, 8);
    assert Padding(0) == p;
    assert Padded([]) == [] + Padding(0);
    hide *;
    NothingInFront(p);
    ZerosBehind(Zeros(55), Le(0, 8));
  }

  lemma NothingInFront(p: seq<byte>)
    ensures [] + p == p
  {
  }

  lemma ZerosBehind(z: seq<byte>, l: seq<byte>)
    requires |z| == 55 && |l| == 8
    requires (forall i :: 0 <= i < 55 ==> z[i] == 0) && forall i :: 0 <= i < 8 ==> l[i] == 0
    ensures
      var p := [0x80] + z + l;
      |p| == 64 && p[0] == 0x80 && forall i :: 1 <= i < 64 ==> p[i] == 0
  {
  }

  lemma LeZeros()
    ensures forall i :: 0 <= i < 8 ==> Le(0, 8)[i] == 0
  {
    assert Le(0, 8) == [0, 0, 0, 0, 0, 0, 0, 0];
  }

  lemma WordIs(p: seq<byte>, at: nat)
    requires at + 4 <= |p| && p[at + 1] == 0 && p[at + 2] == 0 && p[at + 3] == 0
    ensures p[at] == 0x80 ==> WordAt(p, at) == 0x80
    ensures p[at] == 0 ==> WordAt(p, at) == 0
  {
    assert Octet(0x80) == 0x80 && Octet(0) == 0;
  }

  lemma OctetsOf()
    ensures Octets(0xe0cf_d631) == [0x31, 0xd6, 0xcf, 0xe0] && Octets(0x31e9_6ad1) == [0xd1, 0x6a, 0xe9, 0x31]
    ensures Octets(0xd759_3cb7) == [0xb7, 0x3c, 0x59, 0xd7] && Octets(0xc089_c0e0) == [0xe0, 0xc0, 0x89, 0xc0]
  {
  }

  /** MD4 ("") = 31d6cfe0d16ae931b73c59d7e0c089c0 */
  lemma EmptyDigest()
    ensures Digest([]) == [0x31, 0xd6, 0xcf, 0xe0, 0xd1, 0x6a, 0xe9, 0x31, 0xb7, 0x3c, 0x59, 0xd7, 0xe0, 0xc0, 0x89, 0xc0]
  {
    hide Compress, Padded, Words, Octets, Block;
    var p := Padded([]);
    PaddedEmpty();
    CompressedEmpty();
    assert Blocks(p, 0) == INITIAL;
    assert Blocks(p, 1) == Compress(INITIAL, Words(p, 0));
    OctetsOf();
  }
}
