/** A value of the hash, worked out row by row: of a short message that goes through all of the
    short form. */
module KnownShort {
  import opened Bits
  import opened Words64
  import opened WordBits
  import opened SpookyMixers
  import opened ShortMessages
  import opened SpookyHash

  const SEED1: Word := 0x0123_4567_89ab_cdef
  const SEED2: Word := 0xfedc_ba98_7654_3210

  // The bytes 0, 1, ..., n - 1.
  function Ramp(n: nat): Message
    requires n <= 256
  {
    seq(n, i requires 0 <= i < n => i)
  }

  lemma LittleMore(m: Message)
    requires m != []
    ensures Little(m) == m[0] + 256 * Little(m[1..])
  {
  }

  // Bytes that count upwards from b.
  lemma {:induction false} LittleRamp(m: Message, b: nat)
    requires forall i | 0 <= i < |m| :: m[i] == b + i
    ensures Little(m) == RampValue(b, |m|)
  {
    if m != [] {
      LittleMore(m);
      LittleRamp(m[1..], b + 1);
      hide Little;
    }
  }

  function RampValue(b: nat, n: nat): nat
    decreases n
  {
    if n == 0 then 0 else b + 256 * RampValue(b + 1, n - 1)
  }

  lemma RampValueIs(b: nat)
    ensures RampValue(b, 8) == 0x0101_0101_0101_0101 * b + 0x0706_0504_0302_0100
    ensures RampValue(b, 7) == 0x01_0101_0101_0101 * b + 0x06_0504_0302_0100
  {
    assert RampValue(b, 1) == b;
  }

  lemma LoadRamp(n: nat, at: nat)
    requires at + 8 <= n <= 256
    ensures Load64(Ramp(n), at) == 0x0101_0101_0101_0101 * at + 0x0706_0504_0302_0100
  {
    hide Little, RampValue;
    var m := Ramp(n)[at..at + 8];
    LittleRamp(m, at);
    RampValueIs(at);
  }

  // ---- Steps, given by their numbers ----

  lemma XorStep(v: bv64, u: bv64, x: Word, y: Word, z: Word)
    requires N(v) == x && N(u) == y && N(v ^ u) == z
    ensures Xor(x, y) == z
  {
    XorN(v, u);
    hide N, Xor;
  }

  lemma RotStep(x: Word, k: nat, p: nat, q: nat, y: Word)
    requires 0 < k < 64 && p == P(k) && q == P(64 - k) && y == x % q * p + x / q
    ensures Rot64(x, k) == y
  {
    PIs(k);
    PIs(64 - k);
    RotIs(x, k);
    hide P, Pow2, Rot64;
  }

  lemma MixOneA(s: Quad)
    requires ShortRows(s, 0) ==
              Quad(0x0123_4567_89ab_cdef, 0xfedc_ba98_7654_3210, 0xe5b3_b5f3_e1af_bfef, 0xedbb_bdfb_e9b7_c7f7)
    ensures ShortRows(s, 6) ==
              Quad(0xc413_efd0_c69c_d190, 0x9ff8_7a2a_1e8f_a68a, 0x2306_9718_ca49_e0a1, 0x173f_c306_fc8d_c4ad)
  {
    hide Rot64, Xor, ShortRows, ShortRot;
    ShortLines(s);
    RotStep(0xe5b3_b5f3_e1af_bfef, 50, 0x4000000000000, 0x4000, 0xffbf_96ce_d7cf_86be);
    XorStep(0x0123_4567_89ab_cdef, 0xed7b_54ca_c187_4eb5, 0x0123_4567_89ab_cdef, 0xed7b_54ca_c187_4eb5,
            0xec58_11ad_482c_835a);
    RotStep(0xedbb_bdfb_e9b7_c7f7, 52, 0x10000000000000, 0x1000, 0x7f7e_dbbb_dfbe_9b7c);
    XorStep(0xfedc_ba98_7654_3210, 0x6bd6_ed69_27eb_1ed6, 0xfedc_ba98_7654_3210, 0x6bd6_ed69_27eb_1ed6,
            0x950a_57f1_51bf_2cc6);
    RotStep(0xec58_11ad_482c_835a, 30, 0x40000000, 0x400000000, 0x520b_20d6_bb16_046b);
    XorStep(0xed7b_54ca_c187_4eb5, 0xe715_78c8_0cd5_3131, 0xed7b_54ca_c187_4eb5, 0xe715_78c8_0cd5_3131,
            0x0a6e_2c02_cd52_7f84);
    RotStep(0x950a_57f1_51bf_2cc6, 41, 0x20000000000, 0x800000, 0x7e59_8d2a_14af_e2a3);
    XorStep(0x6bd6_ed69_27eb_1ed6, 0x88c7_b92c_e202_6227, 0x6bd6_ed69_27eb_1ed6, 0x88c7_b92c_e202_6227,
            0xe311_5445_c5e9_7cf1);
    RotStep(0x0a6e_2c02_cd52_7f84, 54, 0x40000000000000, 0x400, 0xe102_9b8b_00b3_549f);
    XorStep(0xe715_78c8_0cd5_3131, 0xc413_efd0_c69c_d190, 0xe715_78c8_0cd5_3131, 0xc413_efd0_c69c_d190,
            0x2306_9718_ca49_e0a1);
    RotStep(0xe311_5445_c5e9_7cf1, 48, 0x1000000000000, 0x10000, 0x7cf1_e311_5445_c5e9);
    XorStep(0x88c7_b92c_e202_6227, 0x9ff8_7a2a_1e8f_a68a, 0x88c7_b92c_e202_6227, 0x9ff8_7a2a_1e8f_a68a,
            0x173f_c306_fc8d_c4ad);
  }

  lemma MixOneB(s: Quad)
    requires ShortRows(s, 6) ==
              Quad(0xc413_efd0_c69c_d190, 0x9ff8_7a2a_1e8f_a68a, 0x2306_9718_ca49_e0a1, 0x173f_c306_fc8d_c4ad)
    ensures ShortRows(s, 12) ==
              Quad(0x2848_4b2f_5063_b679, 0x5989_c136_1c9f_3a3e, 0x1445_aabf_0c30_470e, 0xd7d3_b447_786c_c777)
  {
    hide Rot64, Xor, ShortRows, ShortRot;
    ShortLines(s);
    RotStep(0x2306_9718_ca49_e0a1, 38, 0x4000000000, 0x4000000, 0x9278_2848_c1a5_c632);
    XorStep(0xc413_efd0_c69c_d190, 0xa9b7_eb4f_be33_8adf, 0xc413_efd0_c69c_d190, 0xa9b7_eb4f_be33_8adf,
            0x6da4_049f_78af_5b4f);
    RotStep(0x173f_c306_fc8d_c4ad, 37, 0x2000000000, 0x8000000, 0x91b8_95a2_e7f8_60df);
    XorStep(0x9ff8_7a2a_1e8f_a68a, 0xff5c_9a42_60a7_bc2e, 0x9ff8_7a2a_1e8f_a68a, 0xff5c_9a42_60a7_bc2e,
            0x60a4_e068_7e28_1aa4);
    RotStep(0x6da4_049f_78af_5b4f, 62, 0x4000000000000000, 0x4, 0xdb69_0127_de2b_d6d3);
    XorStep(0xa9b7_eb4f_be33_8adf, 0x3c0d_e190_5c53_f177, 0xa9b7_eb4f_be33_8adf, 0x3c0d_e190_5c53_f177,
            0x95ba_0adf_e260_7ba8);
    RotStep(0x60a4_e068_7e28_1aa4, 34, 0x400000000, 0x40000000, 0xf8a0_6a91_8293_81a1);
    XorStep(0xff5c_9a42_60a7_bc2e, 0x8e5a_7571_64f3_fd49, 0xff5c_9a42_60a7_bc2e, 0x8e5a_7571_64f3_fd49,
            0x7106_ef33_0454_4167);
    RotStep(0x95ba_0adf_e260_7ba8, 5, 0x20, 0x800000000000000, 0xb741_5bfc_4c0f_7512);
    XorStep(0x3c0d_e190_5c53_f177, 0x2848_4b2f_5063_b679, 0x3c0d_e190_5c53_f177, 0x2848_4b2f_5063_b679,
            0x1445_aabf_0c30_470e);
    RotStep(0x7106_ef33_0454_4167, 36, 0x1000000000, 0x10000000, 0x4544_1677_106e_f330);
    XorStep(0x8e5a_7571_64f3_fd49, 0x5989_c136_1c9f_3a3e, 0x8e5a_7571_64f3_fd49, 0x5989_c136_1c9f_3a3e,
            0xd7d3_b447_786c_c777);
  }

  lemma MixOne()
    ensures ShortMix(Quad(0x0123_4567_89ab_cdef, 0xfedc_ba98_7654_3210, 0xe5b3_b5f3_e1af_bfef, 0xedbb_bdfb_e9b7_c7f7))
            == Quad(0x2848_4b2f_5063_b679, 0x5989_c136_1c9f_3a3e, 0x1445_aabf_0c30_470e, 0xd7d3_b447_786c_c777)
  {
    hide ShortRows, ShortRot, ShortRow;
    var s := Quad(0x0123_4567_89ab_cdef, 0xfedc_ba98_7654_3210, 0xe5b3_b5f3_e1af_bfef, 0xedbb_bdfb_e9b7_c7f7);
    ShortLines(s);
    MixOneA(s);
    MixOneB(s);
  }

  lemma MixTwoA(s: Quad)
    requires ShortRows(s, 0) ==
              Quad(0x3f5e_6043_6375_c789, 0x78a7_de52_37b9_5356, 0x3b6b_cfe3_2f52_682e, 0x0701_e173_a396_f09f)
    ensures ShortRows(s, 6) ==
              Quad(0xc16e_0a8b_968c_ff52, 0xab0c_a514_4ed6_405f, 0xfbe6_514d_90ef_e30c, 0x5a1f_078d_8415_4ca9)
  {
    hide Rot64, Xor, ShortRows, ShortRot;
    ShortLines(s);
    RotStep(0x3b6b_cfe3_2f52_682e, 50, 0x4000000000000, 0x4000, 0xa0b8_edaf_3f8c_bd49);
    XorStep(0x3f5e_6043_6375_c789, 0xa7ba_cf22_e323_ade8, 0x3f5e_6043_6375_c789, 0xa7ba_cf22_e323_ade8,
            0x98e4_af61_8056_6a61);
    RotStep(0x0701_e173_a396_f09f, 52, 0x10000000000000, 0x1000, 0x09f0_701e_173a_396f);
    XorStep(0x78a7_de52_37b9_5356, 0xa2d5_1f7f_9790_a3d0, 0x78a7_de52_37b9_5356, 0xa2d5_1f7f_9790_a3d0,
            0xda72_c12d_a029_f086);
    RotStep(0x98e4_af61_8056_6a61, 30, 0x40000000, 0x400000000, 0x6015_9a98_6639_2bd8);
    XorStep(0xa7ba_cf22_e323_ade8, 0x3a88_5bc6_0663_1c5e, 0xa7ba_cf22_e323_ade8, 0x3a88_5bc6_0663_1c5e,
            0x9d32_94e4_e540_b1b6);
    RotStep(0xda72_c12d_a029_f086, 41, 0x20000000000, 0x800000, 0x53e1_0db4_e582_5b40);
    XorStep(0xa2d5_1f7f_9790_a3d0, 0xf113_a299_cac3_0cf6, 0xa2d5_1f7f_9790_a3d0, 0xf113_a299_cac3_0cf6,
            0x53c6_bde6_5d53_af26);
    RotStep(0x9d32_94e4_e540_b1b6, 54, 0x40000000000000, 0x400, 0x6da7_4ca5_3939_502c);
    XorStep(0x3a88_5bc6_0663_1c5e, 0xc16e_0a8b_968c_ff52, 0x3a88_5bc6_0663_1c5e, 0xc16e_0a8b_968c_ff52,
            0xfbe6_514d_90ef_e30c);
    RotStep(0x53c6_bde6_5d53_af26, 48, 0x1000000000000, 0x10000, 0xaf26_53c6_bde6_5d53);
    XorStep(0xf113_a299_cac3_0cf6, 0xab0c_a514_4ed6_405f, 0xf113_a299_cac3_0cf6, 0xab0c_a514_4ed6_405f,
            0x5a1f_078d_8415_4ca9);
  }

  lemma MixTwoB(s: Quad)
    requires ShortRows(s, 6) ==
              Quad(0xc16e_0a8b_968c_ff52, 0xab0c_a514_4ed6_405f, 0xfbe6_514d_90ef_e30c, 0x5a1f_078d_8415_4ca9)
    ensures ShortRows(s, 12) ==
              Quad(0xa5b0_1129_f110_0122, 0x922c_2dd8_d535_1061, 0xe2be_7150_ad89_6805, 0xca75_c22e_30c5_9aa6)
  {
    hide Rot64, Xor, ShortRows, ShortRot;
    ShortLines(s);
    RotStep(0xfbe6_514d_90ef_e30c, 38, 0x4000000000, 0x4000000, 0x3bf8_c33e_f994_5364);
    XorStep(0xc16e_0a8b_968c_ff52, 0x9617_cacc_7da9_a00d, 0xc16e_0a8b_968c_ff52, 0x9617_cacc_7da9_a00d,
            0x5779_c047_eb25_5f5f);
    RotStep(0x5a1f_078d_8415_4ca9, 37, 0x2000000000, 0x8000000, 0x82a9_952b_43e0_f1b0);
    XorStep(0xab0c_a514_4ed6_405f, 0xda23_5573_2f06_510f, 0xab0c_a514_4ed6_405f, 0xda23_5573_2f06_510f,
            0x712f_f067_61d0_1150);
    RotStep(0x5779_c047_eb25_5f5f, 62, 0x4000000000000000, 0x4, 0xd5de_7011_fac9_57d7);
    XorStep(0x9617_cacc_7da9_a00d, 0x470e_6079_5c99_6927, 0x9617_cacc_7da9_a00d, 0x470e_6079_5c99_6927,
            0xd119_aab5_2130_c92a);
    RotStep(0x712f_f067_61d0_1150, 34, 0x400000000, 0x40000000, 0x8740_4541_c4bf_c19d);
    XorStep(0xda23_5573_2f06_510f, 0x5859_eff6_e5f0_8ac7, 0xda23_5573_2f06_510f, 0x5859_eff6_e5f0_8ac7,
            0x827a_ba85_caf6_dbc8);
    RotStep(0xd119_aab5_2130_c92a, 5, 0x20, 0x800000000000000, 0x2335_56a4_2619_255a);
    XorStep(0x470e_6079_5c99_6927, 0xa5b0_1129_f110_0122, 0x470e_6079_5c99_6927, 0xa5b0_1129_f110_0122,
            0xe2be_7150_ad89_6805);
    RotStep(0x827a_ba85_caf6_dbc8, 36, 0x1000000000, 0x10000000, 0xaf6d_bc88_27ab_a85c);
    XorStep(0x5859_eff6_e5f0_8ac7, 0x922c_2dd8_d535_1061, 0x5859_eff6_e5f0_8ac7, 0x922c_2dd8_d535_1061,
            0xca75_c22e_30c5_9aa6);
  }

  lemma MixTwo()
    ensures ShortMix(Quad(0x3f5e_6043_6375_c789, 0x78a7_de52_37b9_5356, 0x3b6b_cfe3_2f52_682e, 0x0701_e173_a396_f09f))
            == Quad(0xa5b0_1129_f110_0122, 0x922c_2dd8_d535_1061, 0xe2be_7150_ad89_6805, 0xca75_c22e_30c5_9aa6)
  {
    hide ShortRows, ShortRot, ShortRow;
    var s := Quad(0x3f5e_6043_6375_c789, 0x78a7_de52_37b9_5356, 0x3b6b_cfe3_2f52_682e, 0x0701_e173_a396_f09f);
    ShortLines(s);
    MixTwoA(s);
    MixTwoB(s);
  }

  lemma EndOneA(s: Quad)
    requires ShortEndRows(s, 0) ==
              Quad(0xa5b0_1129_f110_0122, 0x922c_2dd8_d535_1061, 0x19f4_a684_e0bb_9935, 0x09b3_ff6a_6bff_d3de)
    ensures ShortEndRows(s, 6) ==
              Quad(0x4fc9_4877_bb5d_7fac, 0x9615_a027_5ef4_8436, 0xa87a_fbaa_21b1_be48, 0x292e_ff54_596b_7d9c)
  {
    hide Rot64, Xor, ShortEndRows, ShortEndRot;
    ShortEndLines(s);
    RotStep(0x19f4_a684_e0bb_9935, 15, 0x8000, 0x2000000000000, 0x5342_705d_cc9a_8cfa);
    XorStep(0x09b3_ff6a_6bff_d3de, 0x19f4_a684_e0bb_9935, 0x09b3_ff6a_6bff_d3de, 0x19f4_a684_e0bb_9935,
            0x1047_59ee_8b44_4aeb);
    RotStep(0x6389_ca4c_57de_d7e5, 52, 0x10000000000000, 0x1000, 0x7e56_389c_a4c5_7ded);
    XorStep(0xa5b0_1129_f110_0122, 0x6389_ca4c_57de_d7e5, 0xa5b0_1129_f110_0122, 0x6389_ca4c_57de_d7e5,
            0xc639_db65_a6ce_d6c7);
    RotStep(0x4490_1402_4b94_54b4, 26, 0x4000000, 0x4000000000, 0x092e_5152_d112_4050);
    XorStep(0x922c_2dd8_d535_1061, 0x4490_1402_4b94_54b4, 0x922c_2dd8_d535_1061, 0x4490_1402_4b94_54b4,
            0xd6bc_39da_9ea1_44d5);
    RotStep(0xdfea_8b2d_6fb3_8525, 51, 0x8000000000000, 0x2000, 0x292e_ff54_596b_7d9c);
    XorStep(0x5342_705d_cc9a_8cfa, 0xdfea_8b2d_6fb3_8525, 0x5342_705d_cc9a_8cfa, 0xdfea_8b2d_6fb3_8525,
            0x8ca8_fb70_a329_09df);
    RotStep(0xb5d7_fac4_fc94_877b, 28, 0x10000000, 0x1000000000, 0x4fc9_4877_bb5d_7fac);
    XorStep(0x7e56_389c_a4c5_7ded, 0xb5d7_fac4_fc94_877b, 0x7e56_389c_a4c5_7ded, 0xb5d7_fac4_fc94_877b,
            0xcb81_c258_5851_fa96);
    RotStep(0x1b4b_0ad0_13af_7a42, 9, 0x200, 0x80000000000000, 0x9615_a027_5ef4_8436);
    XorStep(0x092e_5152_d112_4050, 0x1b4b_0ad0_13af_7a42, 0x092e_5152_d112_4050, 0x1b4b_0ad0_13af_7a42,
            0x1265_5b82_c2bd_3a12);
  }

  lemma EndOneB(s: Quad)
    requires ShortEndRows(s, 6) ==
              Quad(0x4fc9_4877_bb5d_7fac, 0x9615_a027_5ef4_8436, 0xa87a_fbaa_21b1_be48, 0x292e_ff54_596b_7d9c)
    ensures ShortEndRows(s, 11) ==
              Quad(0x7639_9c04_4ad3_99cc, 0x9691_2705_55f7_5664, 0x9ccb_7722_3b0a_5da0, 0x9cf0_56f5_5ac9_2f62)
  {
    hide Rot64, Xor, ShortEndRows, ShortEndRot;
    ShortEndLines(s);
    RotStep(0xa87a_fbaa_21b1_be48, 47, 0x800000000000, 0x20000, 0xdf24_543d_7dd5_10d8);
    XorStep(0x292e_ff54_596b_7d9c, 0xa87a_fbaa_21b1_be48, 0x292e_ff54_596b_7d9c, 0xa87a_fbaa_21b1_be48,
            0x8154_04fe_78da_c3d4);
    RotStep(0x6078_593b_f6af_d4ac, 54, 0x40000000000000, 0x400, 0x2b18_1e16_4efd_abf5);
    XorStep(0x4fc9_4877_bb5d_7fac, 0x6078_593b_f6af_d4ac, 0x4fc9_4877_bb5d_7fac, 0x6078_593b_f6af_d4ac,
            0x2fb1_114c_4df2_ab00);
    RotStep(0x5ac9_2f62_9cf0_56f5, 32, 0x100000000, 0x100000000, 0x9cf0_56f5_5ac9_2f62);
    XorStep(0x9615_a027_5ef4_8436, 0x5ac9_2f62_9cf0_56f5, 0x9615_a027_5ef4_8436, 0x5ac9_2f62_9cf0_56f5,
            0xccdc_8f45_c204_d2c3);
    RotStep(0x69cc_e63b_1cce_0225, 25, 0x2000000, 0x8000000000, 0x7639_9c04_4ad3_99cc);
    XorStep(0xdf24_543d_7dd5_10d8, 0x69cc_e63b_1cce_0225, 0xdf24_543d_7dd5_10d8, 0x69cc_e63b_1cce_0225,
            0xb6e8_b206_611b_12fd);
    RotStep(0x2d22_4e0a_abee_acc9, 63, 0x8000000000000000, 0x2, 0x9691_2705_55f7_5664);
    XorStep(0x2b18_1e16_4efd_abf5, 0x2d22_4e0a_abee_acc9, 0x2b18_1e16_4efd_abf5, 0x2d22_4e0a_abee_acc9,
            0x063a_501c_e513_073c);
  }

  lemma EndOne()
    ensures ShortEnd(Quad(0xa5b0_1129_f110_0122, 0x922c_2dd8_d535_1061, 0x19f4_a684_e0bb_9935, 0x09b3_ff6a_6bff_d3de))
            == Quad(0x9691_2705_55f7_5664, 0x9ccb_7722_3b0a_5da0, 0x9cf0_56f5_5ac9_2f62, 0x7639_9c04_4ad3_99cc)
  {
    hide ShortEndRows, ShortEndRot, ShortEndRow;
    var s := Quad(0xa5b0_1129_f110_0122, 0x922c_2dd8_d535_1061, 0x19f4_a684_e0bb_9935, 0x09b3_ff6a_6bff_d3de);
    ShortEndLines(s);
    EndOneA(s);
    EndOneB(s);
  }

  // Two sets of 16 bytes go in before a mixing, one of them and two words after it.
  lemma RampChunk()
    ensures Chunks(Quad(SEED1, SEED2, SC_CONST, SC_CONST), Ramp(63), 1) ==
              Quad(0x3f5e_6043_6375_c789, 0x78a7_de52_37b9_5356, 0x1445_aabf_0c30_470e, 0xd7d3_b447_786c_c777)
  {
    hide ShortMix, Load64;
    var q, m := Quad(SEED1, SEED2, SC_CONST, SC_CONST), Ramp(63);
    LoadRamp(63, 0);
    LoadRamp(63, 8);
    LoadRamp(63, 16);
    LoadRamp(63, 24);
    MixOne();
    assert Chunks(q, m, 0) == q;
    assert Chunks(q, m, 1) == Chunk(q, m, 0);
  }

  lemma RampHalf()
    ensures Half(Quad(0x3f5e_6043_6375_c789, 0x78a7_de52_37b9_5356, 0x1445_aabf_0c30_470e, 0xd7d3_b447_786c_c777),
                Ramp(63), 32)
            == Quad(0xa5b0_1129_f110_0122, 0x922c_2dd8_d535_1061, 0xe2be_7150_ad89_6805, 0xca75_c22e_30c5_9aa6)
  {
    hide ShortMix, Load64;
    LoadRamp(63, 32);
    LoadRamp(63, 40);
    MixTwo();
  }

  // The last 15 bytes, and the length.
  lemma LastWords(t: Message)
    requires t == Ramp(63)[48..]
    ensures |t| == 15
    ensures Load64(t + Zeros(1), 0) == 0x3736_3534_3332_3130 && Load64(t + Zeros(1), 8) == 0x003e_3d3c_3b3a_3938
  {
    hide Load64, Little, RampValue, Zeros;
    PaddedLong(t);
    LittleRamp(t[..8], 48);
    LittleRamp(t[8..], 56);
    RampValueIs(48);
    RampValueIs(56);
  }

  lemma RampSize(n: nat)
    requires n <= 256
    ensures |Ramp(n)| == n
  {
  }

  lemma RampTail()
    ensures |Ramp(63)| == 63
    ensures Tail(Quad(0xa5b0_1129_f110_0122, 0x922c_2dd8_d535_1061, 0xe2be_7150_ad89_6805, 0xca75_c22e_30c5_9aa6),
                Ramp(63)[48..], 63)
            == Quad(0xa5b0_1129_f110_0122, 0x922c_2dd8_d535_1061, 0x19f4_a684_e0bb_9935, 0x09b3_ff6a_6bff_d3de)
  {
    hide Load64, Shl, Zeros, Ramp;
    RampSize(63);
    LastWords(Ramp(63)[48..]);
    LengthOnTop();
  }

  lemma LengthOnTop()
    ensures Shl(63, 56) == 0x3f00_0000_0000_0000
  {
    PIs(56);
    assert P(56) == 0x100_0000_0000_0000;
    hide Pow2, P;
  }

  /** The short form on the bytes 0 to 62, with the two seeds above: a set of 32 bytes, one of 16,
      and 15 more. */
  lemma KnownValue()
    ensures Short(Ramp(63), SEED1, SEED2) == (0x9691_2705_55f7_5664, 0x9ccb_7722_3b0a_5da0)
  {
    hide Chunks, Half, Tail, ShortEnd, Load64;
    RampChunk();
    RampHalf();
    RampTail();
    EndOne();
  }

  lemma EndTwoA(s: Quad)
    requires ShortEndRows(s, 0) ==
              Quad(0x0123_4567_89ab_cdef, 0xfedc_ba98_7654_3210, 0xbd5b_61df_bd5b_7dde, 0xbd5b_61df_bd5b_7dde)
    ensures ShortEndRows(s, 6) ==
              Quad(0x11ed_1a7b_9aa8_0651, 0x910c_d11d_649f_3aa4, 0x03cc_d57d_b560_0bda, 0x7694_181c_92c9_973a)
  {
    hide Rot64, Xor, ShortEndRows, ShortEndRot;
    ShortEndLines(s);
    RotStep(0xbd5b_61df_bd5b_7dde, 15, 0x8000, 0x2000000000000, 0xb0ef_dead_beef_5ead);
    XorDigits(0xbd5b_61df_bd5b_7dde, 0xbd5b_61df_bd5b_7dde);
    RotStep(0xb0ef_dead_beef_5ead, 52, 0x10000000000000, 0x1000, 0xeadb_0efd_eadb_eef5);
    XorStep(0x0123_4567_89ab_cdef, 0xb0ef_dead_beef_5ead, 0x0123_4567_89ab_cdef, 0xb0ef_dead_beef_5ead,
            0xb1cc_9bca_3744_9342);
    RotStep(0x9ca7_aac8_2220_8237, 26, 0x4000000, 0x4000000000, 0x2088_8208_de72_9eab);
    XorStep(0xfedc_ba98_7654_3210, 0x9ca7_aac8_2220_8237, 0xfedc_ba98_7654_3210, 0x9ca7_aac8_2220_8237,
            0x627b_1050_5474_b027);
    RotStep(0x8303_9259_32e7_4ed2, 51, 0x8000000000000, 0x2000, 0x7694_181c_92c9_973a);
    XorStep(0xb0ef_dead_beef_5ead, 0x8303_9259_32e7_4ed2, 0xb0ef_dead_beef_5ead, 0x8303_9259_32e7_4ed2,
            0x33ec_4cf4_8c08_107f);
    RotStep(0xaa80_6511_1ed1_a7b9, 28, 0x10000000, 0x1000000000, 0x11ed_1a7b_9aa8_0651);
    XorStep(0xeadb_0efd_eadb_eef5, 0xaa80_6511_1ed1_a7b9, 0xeadb_0efd_eadb_eef5, 0xaa80_6511_1ed1_a7b9,
            0x405b_6bec_f40a_494c);
    RotStep(0x5248_8668_8eb2_4f9d, 9, 0x200, 0x80000000000000, 0x910c_d11d_649f_3aa4);
    XorStep(0x2088_8208_de72_9eab, 0x5248_8668_8eb2_4f9d, 0x2088_8208_de72_9eab, 0x5248_8668_8eb2_4f9d,
            0x72c0_0460_50c0_d136);
  }

  lemma EndTwoB(s: Quad)
    requires ShortEndRows(s, 6) ==
              Quad(0x11ed_1a7b_9aa8_0651, 0x910c_d11d_649f_3aa4, 0x03cc_d57d_b560_0bda, 0x7694_181c_92c9_973a)
    ensures ShortEndRows(s, 11) ==
              Quad(0x221a_03b0_5374_e107, 0x70db_c313_dd99_f1d0, 0x7685_1a68_4871_6b8d, 0xdaa5_0bde_4ec7_a6af)
  {
    hide Rot64, Xor, ShortEndRows, ShortEndRot;
    ShortEndLines(s);
    RotStep(0x03cc_d57d_b560_0bda, 47, 0x800000000000, 0x20000, 0x05ed_01e6_6abe_dab0);
    XorStep(0x7694_181c_92c9_973a, 0x03cc_d57d_b560_0bda, 0x7694_181c_92c9_973a, 0x03cc_d57d_b560_0bda,
            0x7558_cd61_27a9_9ce0);
    RotStep(0x7b45_cf47_9268_7790, 54, 0x40000000000000, 0x400, 0xe41e_d173_d1e4_9a1d);
    XorStep(0x11ed_1a7b_9aa8_0651, 0x7b45_cf47_9268_7790, 0x11ed_1a7b_9aa8_0651, 0x7b45_cf47_9268_7790,
            0x6aa8_d53c_08c0_71c1);
    RotStep(0x4ec7_a6af_daa5_0bde, 32, 0x100000000, 0x100000000, 0xdaa5_0bde_4ec7_a6af);
    XorStep(0x910c_d11d_649f_3aa4, 0x4ec7_a6af_daa5_0bde, 0x910c_d11d_649f_3aa4, 0x4ec7_a6af_daa5_0bde,
            0xdfcb_77b2_be3a_317a);
    RotStep(0xba70_8391_0d01_d829, 25, 0x2000000, 0x8000000000, 0x221a_03b0_5374_e107);
    XorStep(0x05ed_01e6_6abe_dab0, 0xba70_8391_0d01_d829, 0x05ed_01e6_6abe_dab0, 0xba70_8391_0d01_d829,
            0xbf9d_8277_67bf_0299);
    RotStep(0xe1b7_8627_bb33_e3a0, 63, 0x8000000000000000, 0x2, 0x70db_c313_dd99_f1d0);
    XorStep(0xe41e_d173_d1e4_9a1d, 0xe1b7_8627_bb33_e3a0, 0xe41e_d173_d1e4_9a1d, 0xe1b7_8627_bb33_e3a0,
            0x05a9_5754_6ad7_79bd);
  }

  lemma EndTwo()
    ensures ShortEnd(Quad(0x0123_4567_89ab_cdef, 0xfedc_ba98_7654_3210, 0xbd5b_61df_bd5b_7dde, 0xbd5b_61df_bd5b_7dde))
            == Quad(0x70db_c313_dd99_f1d0, 0x7685_1a68_4871_6b8d, 0xdaa5_0bde_4ec7_a6af, 0x221a_03b0_5374_e107)
  {
    hide ShortEndRows, ShortEndRot, ShortEndRow;
    var s := Quad(0x0123_4567_89ab_cdef, 0xfedc_ba98_7654_3210, 0xbd5b_61df_bd5b_7dde, 0xbd5b_61df_bd5b_7dde);
    ShortEndLines(s);
    EndTwoA(s);
    EndTwoB(s);
  }

  /** ... and on no bytes at all. */
  lemma KnownEmpty()
    ensures Short([], SEED1, SEED2) == (0x70db_c313_dd99_f1d0, 0x7685_1a68_4871_6b8d)
  {
    hide ShortEnd;
    assert Chunks(Quad(SEED1, SEED2, SC_CONST, SC_CONST), [], 0) == Quad(SEED1, SEED2, SC_CONST, SC_CONST);
    assert Shl(0, 56) == 0;
    EndTwo();
  }
}
