/** A value of the hash, worked out row by row: of a message with two whole blocks and eight bytes
    more. */
module KnownLong {
  import opened Bits
  import opened Words64
  import opened WordBits
  import opened SpookyMixers
  import opened ShortMessages
  import opened SpookyHash
  import opened Streaming
  import opened KnownShort

  lemma BlockOneA(b: Block, s: Ring)
    requires b[0] == 0x0706_0504_0302_0100 && b[1] == 0x0f0e_0d0c_0b0a_0908 && b[2] == 0x1716_1514_1312_1110
    requires MixRows(b, s, 0) == Ring(
                0x0123_4567_89ab_cdef, 0xfedc_ba98_7654_3210, 0xdead_b0ef_dead_beef, 0x0123_4567_89ab_cdef,
                0xfedc_ba98_7654_3210, 0xdead_b0ef_dead_beef, 0x0123_4567_89ab_cdef, 0xfedc_ba98_7654_3210,
                0xdead_b0ef_dead_beef, 0x0123_4567_89ab_cdef, 0xfedc_ba98_7654_3210, 0xdead_b0ef_dead_beef)
    ensures MixRows(b, s, 3) == Ring(
                0xd442_f07b_41ff_6fff, 0x96f6_1ca1_ee76_e248, 0xdead_b0ef_dead_beef, 0x0123_4567_89ab_cdef,
                0xfedc_ba98_7654_3210, 0xdead_b0ef_dead_beef, 0x0123_4567_89ab_cdef, 0xfedc_ba98_7654_3210,
                0xd561_b51c_c854_a210, 0x682a_a639_9822_d058, 0x8b1c_150e_f3e0_c9aa, 0x5cf0_79bc_38fc_5de0)
  {
    hide Rot64, Xor, MixRows, MixRot;
    MixLines(b, s);
    RotStep(0x0829_4a6b_8cad_ceef, 11, 0x800, 0x20000000000000, 0x4a53_5c65_6e77_7841);
    XorStep(0xdead_b0ef_dead_beef, 0xfedc_ba98_7654_3210, 0xdead_b0ef_dead_beef, 0xfedc_ba98_7654_3210,
            0x2071_0a77_a8f9_8cff);
    XorStep(0xdead_b0ef_dead_beef, 0x0829_4a6b_8cad_ceef, 0xdead_b0ef_dead_beef, 0x0829_4a6b_8cad_ceef,
            0xd684_fa84_5200_7000);
    RotStep(0x0dea_c7a4_815e_3b18, 32, 0x100000000, 0x100000000, 0x815e_3b18_0dea_c7a4);
    XorStep(0x0123_4567_89ab_cdef, 0xd561_b51c_c854_a210, 0x0123_4567_89ab_cdef, 0xd561_b51c_c854_a210,
            0xd442_f07b_41ff_6fff);
    XorStep(0x4a53_5c65_6e77_7841, 0x0dea_c7a4_815e_3b18, 0x4a53_5c65_6e77_7841, 0x0dea_c7a4_815e_3b18,
            0x47b9_9bc1_ef29_4359);
    RotStep(0x3787_1f8b_bc0b_9e0f, 43, 0x80000000000, 0x200000, 0x5cf0_79bc_38fc_5de0);
    XorStep(0xfedc_ba98_7654_3210, 0x682a_a639_9822_d058, 0xfedc_ba98_7654_3210, 0x682a_a639_9822_d058,
            0x96f6_1ca1_ee76_e248);
    XorStep(0x815e_3b18_0dea_c7a4, 0x3787_1f8b_bc0b_9e0f, 0x815e_3b18_0dea_c7a4, 0x3787_1f8b_bc0b_9e0f,
            0xb6d9_2493_b1e1_59ab);
  }

  lemma BlockOneB(b: Block, s: Ring)
    requires b[3] == 0x1f1e_1d1c_1b1a_1918 && b[4] == 0x2726_2524_2322_2120 && b[5] == 0x2f2e_2d2c_2b2a_2928
    requires MixRows(b, s, 3) == Ring(
                0xd442_f07b_41ff_6fff, 0x96f6_1ca1_ee76_e248, 0xdead_b0ef_dead_beef, 0x0123_4567_89ab_cdef,
                0xfedc_ba98_7654_3210, 0xdead_b0ef_dead_beef, 0x0123_4567_89ab_cdef, 0xfedc_ba98_7654_3210,
                0xd561_b51c_c854_a210, 0x682a_a639_9822_d058, 0x8b1c_150e_f3e0_c9aa, 0x5cf0_79bc_38fc_5de0)
    ensures MixRows(b, s, 6) == Ring(
                0x47a4_d5aa_ddf7_7ad0, 0x989e_91b7_6322_cef8, 0xdead_b0ef_dead_beef, 0x0123_4567_89ab_cdef,
                0xfedc_ba98_7654_3210, 0xd561_b51c_c854_a210, 0x682a_a639_9822_d058, 0x8b1c_150e_f3e0_c9aa,
                0x4687_90cd_545c_b73f, 0x6642_2b2f_1576_fce8, 0x4ef8_c5ea_3c9e_5725, 0xd587_7a06_d84d_fd30)
  {
    hide Rot64, Xor, MixRows, MixRot;
    MixLines(b, s);
    RotStep(0xf361_0d97_5d19_8917, 31, 0x80000000, 0x200000000, 0xae8c_c48b_f9b0_86cb);
    XorStep(0xdead_b0ef_dead_beef, 0x8b1c_150e_f3e0_c9aa, 0xdead_b0ef_dead_beef, 0x8b1c_150e_f3e0_c9aa,
            0x55b1_a5e1_2d4d_7745);
    XorStep(0x5cf0_79bc_38fc_5de0, 0xf361_0d97_5d19_8917, 0x5cf0_79bc_38fc_5de0, 0xf361_0d97_5d19_8917,
            0xaf91_742b_65e5_d4f7);
    RotStep(0xbe1c_41c6_1199_0368, 17, 0x20000, 0x800000000000, 0x838c_2332_06d1_7c38);
    XorStep(0x0123_4567_89ab_cdef, 0x4687_90cd_545c_b73f, 0x0123_4567_89ab_cdef, 0x4687_90cd_545c_b73f,
            0x47a4_d5aa_ddf7_7ad0);
    XorStep(0xae8c_c48b_f9b0_86cb, 0xbe1c_41c6_1199_0368, 0xae8c_c48b_f9b0_86cb, 0xbe1c_41c6_1199_0368,
            0x1090_854d_e829_85a3);
    RotStep(0x84df_d30d_5877_a06d, 28, 0x10000000, 0x1000000000, 0xd587_7a06_d84d_fd30);
    XorStep(0xfedc_ba98_7654_3210, 0x6642_2b2f_1576_fce8, 0xfedc_ba98_7654_3210, 0x6642_2b2f_1576_fce8,
            0x989e_91b7_6322_cef8);
    XorStep(0x838c_2332_06d1_7c38, 0x84df_d30d_5877_a06d, 0x838c_2332_06d1_7c38, 0x84df_d30d_5877_a06d,
            0x0753_f03f_5ea6_dc55);
  }

  lemma BlockOneC(b: Block, s: Ring)
    requires b[6] == 0x3736_3534_3332_3130 && b[7] == 0x3f3e_3d3c_3b3a_3938 && b[8] == 0x4746_4544_4342_4140
    requires MixRows(b, s, 6) == Ring(
                0x47a4_d5aa_ddf7_7ad0, 0x989e_91b7_6322_cef8, 0xdead_b0ef_dead_beef, 0x0123_4567_89ab_cdef,
                0xfedc_ba98_7654_3210, 0xd561_b51c_c854_a210, 0x682a_a639_9822_d058, 0x8b1c_150e_f3e0_c9aa,
                0x4687_90cd_545c_b73f, 0x6642_2b2f_1576_fce8, 0x4ef8_c5ea_3c9e_5725, 0xd587_7a06_d84d_fd30)
    ensures MixRows(b, s, 9) == Ring(
                0x42d8_47f6_a52c_edc7, 0x2dbc_f94a_a058_6392, 0xd561_b51c_c854_a210, 0x682a_a639_9822_d058,
                0x8b1c_150e_f3e0_c9aa, 0x4687_90cd_545c_b73f, 0x6642_2b2f_1576_fce8, 0x4ef8_c5ea_3c9e_5725,
                0x43fb_0291_2c87_2028, 0xd360_43d2_d60c_5182, 0xf90c_4bce_6777_7ee1, 0x856b_cddd_2512_bb15)
  {
    hide Rot64, Xor, MixRows, MixRot;
    MixLines(b, s);
    RotStep(0x7edb_0adf_1129_ac00, 39, 0x8000000000, 0x2000000, 0x94d6_003f_6d85_6f88);
    XorStep(0xdead_b0ef_dead_beef, 0x4ef8_c5ea_3c9e_5725, 0xdead_b0ef_dead_beef, 0x4ef8_c5ea_3c9e_5725,
            0x9055_7505_e233_e9ca);
    XorStep(0xd587_7a06_d84d_fd30, 0x7edb_0adf_1129_ac00, 0xd587_7a06_d84d_fd30, 0x7edb_0adf_1129_ac00,
            0xab5c_70d9_c964_5130);
    RotStep(0xd7dc_cef3_9e5d_0830, 57, 0x200000000000000, 0x80, 0x61af_b99d_e73c_ba10);
    XorStep(0x0123_4567_89ab_cdef, 0x43fb_0291_2c87_2028, 0x0123_4567_89ab_cdef, 0x43fb_0291_2c87_2028,
            0x42d8_47f6_a52c_edc7);
    XorStep(0x94d6_003f_6d85_6f88, 0xd7dc_cef3_9e5d_0830, 0x94d6_003f_6d85_6f88, 0xd7dc_cef3_9e5d_0830,
            0x430a_cecc_f3d8_67b8);
    RotStep(0xd79b_ba4a_2576_2b0a, 55, 0x80000000000000, 0x200, 0x856b_cddd_2512_bb15);
    XorStep(0xfedc_ba98_7654_3210, 0xd360_43d2_d60c_5182, 0xfedc_ba98_7654_3210, 0xd360_43d2_d60c_5182,
            0x2dbc_f94a_a058_6392);
    XorStep(0x61af_b99d_e73c_ba10, 0xd79b_ba4a_2576_2b0a, 0x61af_b99d_e73c_ba10, 0xd79b_ba4a_2576_2b0a,
            0xb634_03d7_c24a_911a);
  }

  lemma BlockOneD(b: Block, s: Ring)
    requires b[9] == 0x4f4e_4d4c_4b4a_4948 && b[10] == 0x5756_5554_5352_5150 && b[11] == 0x5f5e_5d5c_5b5a_5958
    requires MixRows(b, s, 9) == Ring(
                0x42d8_47f6_a52c_edc7, 0x2dbc_f94a_a058_6392, 0xd561_b51c_c854_a210, 0x682a_a639_9822_d058,
                0x8b1c_150e_f3e0_c9aa, 0x4687_90cd_545c_b73f, 0x6642_2b2f_1576_fce8, 0x4ef8_c5ea_3c9e_5725,
                0x43fb_0291_2c87_2028, 0xd360_43d2_d60c_5182, 0xf90c_4bce_6777_7ee1, 0x856b_cddd_2512_bb15)
    ensures MixRows(b, s, 12) == Ring(
                0x2d20_f7d3_ed9f_3ff4, 0xf879_d300_a1da_4f8a, 0x4687_90cd_545c_b73f, 0x6642_2b2f_1576_fce8,
                0x4ef8_c5ea_3c9e_5725, 0x43fb_0291_2c87_2028, 0xd360_43d2_d60c_5182, 0xf90c_4bce_6777_7ee1,
                0x450a_51ea_75bd_efac, 0x7365_c60e_523a_8620, 0x5991_ae56_207e_b28e, 0x8d92_62f3_170b_c29f)
  {
    hide Rot64, Xor, MixRows, MixRot;
    MixLines(b, s);
    RotStep(0x9226_9542_f077_370f, 54, 0x40000000000000, 0x400, 0xc3e4_89a5_50bc_1dcd);
    XorStep(0xd561_b51c_c854_a210, 0xf90c_4bce_6777_7ee1, 0xd561_b51c_c854_a210, 0xf90c_4bce_6777_7ee1,
            0x2c6d_fed2_af23_dcf1);
    XorStep(0x856b_cddd_2512_bb15, 0x9226_9542_f077_370f, 0x856b_cddd_2512_bb15, 0x9226_9542_f077_370f,
            0x174d_589f_d565_8c1a);
    RotStep(0x8513_4e9e_f3aa_b4e2, 22, 0x400000, 0x40000000000, 0xa7bc_eaad_38a1_44d3);
    XorStep(0x682a_a639_9822_d058, 0x450a_51ea_75bd_efac, 0x682a_a639_9822_d058, 0x450a_51ea_75bd_efac,
            0x2d20_f7d3_ed9f_3ff4);
    XorStep(0xc3e4_89a5_50bc_1dcd, 0x8513_4e9e_f3aa_b4e2, 0xc3e4_89a5_50bc_1dcd, 0x8513_4e9e_f3aa_b4e2,
            0x46f7_c73b_a316_a92f);
    RotStep(0x8bcc_5c2f_0a7e_3649, 46, 0x400000000000, 0x40000, 0x8d92_62f3_170b_c29f);
    XorStep(0x8b1c_150e_f3e0_c9aa, 0x7365_c60e_523a_8620, 0x8b1c_150e_f3e0_c9aa, 0x7365_c60e_523a_8620,
            0xf879_d300_a1da_4f8a);
    XorStep(0xa7bc_eaad_38a1_44d3, 0x8bcc_5c2f_0a7e_3649, 0xa7bc_eaad_38a1_44d3, 0x8bcc_5c2f_0a7e_3649,
            0x2c70_b682_32df_729a);
  }

  lemma BlockTwoA(b: Block, s: Ring)
    requires b[0] == 0x6766_6564_6362_6160 && b[1] == 0x6f6e_6d6c_6b6a_6968 && b[2] == 0x7776_7574_7372_7170
    requires MixRows(b, s, 0) == Ring(
                0x2d20_f7d3_ed9f_3ff4, 0xf879_d300_a1da_4f8a, 0x4687_90cd_545c_b73f, 0x6642_2b2f_1576_fce8,
                0x4ef8_c5ea_3c9e_5725, 0x43fb_0291_2c87_2028, 0xd360_43d2_d60c_5182, 0xf90c_4bce_6777_7ee1,
                0x450a_51ea_75bd_efac, 0x7365_c60e_523a_8620, 0x5991_ae56_207e_b28e, 0x8d92_62f3_170b_c29f)
    ensures MixRows(b, s, 3) == Ring(
                0x77cd_39e4_f292_4fbd, 0x32ef_046a_48ee_7522, 0x43fb_0291_2c87_2028, 0xd360_43d2_d60c_5182,
                0xf90c_4bce_6777_7ee1, 0x450a_51ea_75bd_efac, 0x7365_c60e_523a_8620, 0x5991_ae56_207e_b28e,
                0x118f_12cb_e7e4_b355, 0x7c17_c180_7470_2207, 0x1395_46e2_730e_8709, 0xa3b9_0cb4_65a0_7f3c)
  {
    hide Rot64, Xor, MixRows, MixRot;
    MixLines(b, s);
    RotStep(0x9487_5d38_5101_a154, 11, 0x800, 0x20000000000000, 0x3ae9_c288_0d0a_a4a4);
    XorStep(0x4687_90cd_545c_b73f, 0x5991_ae56_207e_b28e, 0x4687_90cd_545c_b73f, 0x5991_ae56_207e_b28e,
            0x1f16_3e9b_7422_05b1);
    XorStep(0x8d92_62f3_170b_c29f, 0x9487_5d38_5101_a154, 0x8d92_62f3_170b_c29f, 0x9487_5d38_5101_a154,
            0x1915_3fcb_460a_63cb);
    RotStep(0x67e8_406d_0d44_b8f2, 32, 0x100000000, 0x100000000, 0x0d44_b8f2_67e8_406d);
    XorStep(0x6642_2b2f_1576_fce8, 0x118f_12cb_e7e4_b355, 0x6642_2b2f_1576_fce8, 0x118f_12cb_e7e4_b355,
            0x77cd_39e4_f292_4fbd);
    XorStep(0x3ae9_c288_0d0a_a4a4, 0x67e8_406d_0d44_b8f2, 0x3ae9_c288_0d0a_a4a4, 0x67e8_406d_0d44_b8f2,
            0x5d01_82e5_004e_1c56);
    RotStep(0x968c_b40f_e794_7721, 43, 0x80000000000, 0x200000, 0xa3b9_0cb4_65a0_7f3c);
    XorStep(0x4ef8_c5ea_3c9e_5725, 0x7c17_c180_7470_2207, 0x4ef8_c5ea_3c9e_5725, 0x7c17_c180_7470_2207,
            0x32ef_046a_48ee_7522);
    XorStep(0x0d44_b8f2_67e8_406d, 0x968c_b40f_e794_7721, 0x0d44_b8f2_67e8_406d, 0x968c_b40f_e794_7721,
            0x9bc8_0cfd_807c_374c);
  }

  lemma BlockTwoB(b: Block, s: Ring)
    requires b[3] == 0x7f7e_7d7c_7b7a_7978 && b[4] == 0x8786_8584_8382_8180 && b[5] == 0x8f8e_8d8c_8b8a_8988
    requires MixRows(b, s, 3) == Ring(
                0x77cd_39e4_f292_4fbd, 0x32ef_046a_48ee_7522, 0x43fb_0291_2c87_2028, 0xd360_43d2_d60c_5182,
                0xf90c_4bce_6777_7ee1, 0x450a_51ea_75bd_efac, 0x7365_c60e_523a_8620, 0x5991_ae56_207e_b28e,
                0x118f_12cb_e7e4_b355, 0x7c17_c180_7470_2207, 0x1395_46e2_730e_8709, 0xa3b9_0cb4_65a0_7f3c)
    ensures MixRows(b, s, 6) == Ring(
                0x5481_83ed_8297_7aa9, 0xa4ee_7a29_f029_aad2, 0x450a_51ea_75bd_efac, 0x7365_c60e_523a_8620,
                0x5991_ae56_207e_b28e, 0x118f_12cb_e7e4_b355, 0x7c17_c180_7470_2207, 0x1395_46e2_730e_8709,
                0x87e1_c03f_549b_2b2b, 0x5de2_31e7_975e_d433, 0x20a2_cd0b_88e8_beeb, 0xfeb1_430a_9dff_cd1f)
  {
    hide Rot64, Xor, MixRows, MixRot;
    MixLines(b, s);
    RotStep(0xf74b_b761_6e0c_c935, 31, 0x80000000, 0x200000000, 0xb706_649a_fba5_dbb0);
    XorStep(0x43fb_0291_2c87_2028, 0x1395_46e2_730e_8709, 0x43fb_0291_2c87_2028, 0x1395_46e2_730e_8709,
            0x506e_4473_5f89_a721);
    XorStep(0xa3b9_0cb4_65a0_7f3c, 0xf74b_b761_6e0c_c935, 0xa3b9_0cb4_65a0_7f3c, 0xf74b_b761_6e0c_c935,
            0x54f2_bbd5_0bac_b609);
    RotStep(0xba75_89ee_cc70_f6a2, 17, 0x20000, 0x800000000000, 0x13dd_98e1_ed45_74eb);
    XorStep(0xd360_43d2_d60c_5182, 0x87e1_c03f_549b_2b2b, 0xd360_43d2_d60c_5182, 0x87e1_c03f_549b_2b2b,
            0x5481_83ed_8297_7aa9);
    XorStep(0xb706_649a_fba5_dbb0, 0xba75_89ee_cc70_f6a2, 0xb706_649a_fba5_dbb0, 0xba75_89ee_cc70_f6a2,
            0x0d73_ed74_37d5_2d12);
    RotStep(0xdffc_d1ff_eb14_30a9, 28, 0x10000000, 0x1000000000, 0xfeb1_430a_9dff_cd1f);
    XorStep(0xf90c_4bce_6777_7ee1, 0x5de2_31e7_975e_d433, 0xf90c_4bce_6777_7ee1, 0x5de2_31e7_975e_d433,
            0xa4ee_7a29_f029_aad2);
    XorStep(0x13dd_98e1_ed45_74eb, 0xdffc_d1ff_eb14_30a9, 0x13dd_98e1_ed45_74eb, 0xdffc_d1ff_eb14_30a9,
            0xcc21_491e_0651_4442);
  }

  lemma BlockTwoC(b: Block, s: Ring)
    requires b[6] == 0x9796_9594_9392_9190 && b[7] == 0x9f9e_9d9c_9b9a_9998 && b[8] == 0xa7a6_a5a4_a3a2_a1a0
    requires MixRows(b, s, 6) == Ring(
                0x5481_83ed_8297_7aa9, 0xa4ee_7a29_f029_aad2, 0x450a_51ea_75bd_efac, 0x7365_c60e_523a_8620,
                0x5991_ae56_207e_b28e, 0x118f_12cb_e7e4_b355, 0x7c17_c180_7470_2207, 0x1395_46e2_730e_8709,
                0x87e1_c03f_549b_2b2b, 0x5de2_31e7_975e_d433, 0x20a2_cd0b_88e8_beeb, 0xfeb1_430a_9dff_cd1f)
    ensures MixRows(b, s, 9) == Ring(
                0xc4f2_12bc_29c5_edd8, 0xeea2_0644_a563_6426, 0x118f_12cb_e7e4_b355, 0x7c17_c180_7470_2207,
                0x1395_46e2_730e_8709, 0x87e1_c03f_549b_2b2b, 0x5de2_31e7_975e_d433, 0x20a2_cd0b_88e8_beeb,
                0xb797_d4b2_7bff_6bf8, 0xb733_a812_851d_d6a8, 0x9eb8_6b65_57a6_6847, 0x7386_a7a1_4350_7bf9)
  {
    hide Rot64, Xor, MixRows, MixRot;
    MixLines(b, s);
    RotStep(0xec18_1982_162a_0c39, 39, 0x8000000000, 0x2000000, 0x1506_1cf6_0c0c_c10b);
    XorStep(0x450a_51ea_75bd_efac, 0x20a2_cd0b_88e8_beeb, 0x450a_51ea_75bd_efac, 0x20a2_cd0b_88e8_beeb,
            0x65a8_9ce1_fd55_5147);
    XorStep(0xfeb1_430a_9dff_cd1f, 0xec18_1982_162a_0c39, 0xfeb1_430a_9dff_cd1f, 0xec18_1982_162a_0c39,
            0x12a9_5a88_8bd5_c126);
    RotStep(0x448d_17c6_8bc4_446a, 57, 0x200000000000000, 0x80, 0xd489_1a2f_8d17_8888);
    XorStep(0x7365_c60e_523a_8620, 0xb797_d4b2_7bff_6bf8, 0x7365_c60e_523a_8620, 0xb797_d4b2_7bff_6bf8,
            0xc4f2_12bc_29c5_edd8);
    XorStep(0x1506_1cf6_0c0c_c10b, 0x448d_17c6_8bc4_446a, 0x1506_1cf6_0c0c_c10b, 0x448d_17c6_8bc4_446a,
            0x518b_0b30_87c8_8561);
    RotStep(0x0d4f_4286_a0f7_f2e7, 55, 0x80000000000000, 0x200, 0x7386_a7a1_4350_7bf9);
    XorStep(0x5991_ae56_207e_b28e, 0xb733_a812_851d_d6a8, 0x5991_ae56_207e_b28e, 0xb733_a812_851d_d6a8,
            0xeea2_0644_a563_6426);
    XorStep(0xd489_1a2f_8d17_8888, 0x0d4f_4286_a0f7_f2e7, 0xd489_1a2f_8d17_8888, 0x0d4f_4286_a0f7_f2e7,
            0xd9c6_58a9_2de0_7a6f);
  }

  lemma BlockTwoD(b: Block, s: Ring)
    requires b[9] == 0xafae_adac_abaa_a9a8 && b[10] == 0xb7b6_b5b4_b3b2_b1b0 && b[11] == 0xbfbe_bdbc_bbba_b9b8
    requires MixRows(b, s, 9) == Ring(
                0xc4f2_12bc_29c5_edd8, 0xeea2_0644_a563_6426, 0x118f_12cb_e7e4_b355, 0x7c17_c180_7470_2207,
                0x1395_46e2_730e_8709, 0x87e1_c03f_549b_2b2b, 0x5de2_31e7_975e_d433, 0x20a2_cd0b_88e8_beeb,
                0xb797_d4b2_7bff_6bf8, 0xb733_a812_851d_d6a8, 0x9eb8_6b65_57a6_6847, 0x7386_a7a1_4350_7bf9)
    ensures MixRows(b, s, 12) == Ring(
                0x89df_af8e_4ff4_7298, 0xc6e8_4b95_8068_a20c, 0x87e1_c03f_549b_2b2b, 0x5de2_31e7_975e_d433,
                0x20a2_cd0b_88e8_beeb, 0xb797_d4b2_7bff_6bf8, 0xb733_a812_851d_d6a8, 0x9eb8_6b65_57a6_6847,
                0xf5c8_6e0e_3b84_509f, 0xd57d_0d77_f366_2505, 0x3a80_227c_6e48_757c, 0x6532_93bd_8dda_daff)
  {
    hide Rot64, Xor, MixRows, MixRot;
    MixLines(b, s);
    RotStep(0x74a0_c068_d570_9780, 54, 0x40000000000000, 0x400, 0xe01d_2830_1a35_5c25);
    XorStep(0x118f_12cb_e7e4_b355, 0x9eb8_6b65_57a6_6847, 0x118f_12cb_e7e4_b355, 0x9eb8_6b65_57a6_6847,
            0x8f37_79ae_b042_db12);
    XorStep(0x7386_a7a1_4350_7bf9, 0x74a0_c068_d570_9780, 0x7386_a7a1_4350_7bf9, 0x74a0_c068_d570_9780,
            0x0726_67c9_9620_ec79);
    RotStep(0xa658_bbf9_5916_15d6, 22, 0x400000, 0x40000000000, 0xfe56_4585_75a9_962e);
    XorStep(0x7c17_c180_7470_2207, 0xf5c8_6e0e_3b84_509f, 0x7c17_c180_7470_2207, 0xf5c8_6e0e_3b84_509f,
            0x89df_af8e_4ff4_7298);
    XorStep(0xe01d_2830_1a35_5c25, 0xa658_bbf9_5916_15d6, 0xe01d_2830_1a35_5c25, 0xa658_bbf9_5916_15d6,
            0x4645_93c9_4323_49f3);
    RotStep(0x4ef6_376b_6bfd_94ca, 46, 0x400000000000, 0x40000, 0x6532_93bd_8dda_daff);
    XorStep(0x1395_46e2_730e_8709, 0xd57d_0d77_f366_2505, 0x1395_46e2_730e_8709, 0xd57d_0d77_f366_2505,
            0xc6e8_4b95_8068_a20c);
    XorStep(0xfe56_4585_75a9_962e, 0x4ef6_376b_6bfd_94ca, 0xfe56_4585_75a9_962e, 0x4ef6_376b_6bfd_94ca,
            0xb0a0_72ee_1e54_02e4);
  }

  lemma EndOneA(s: Ring)
    requires EndRows(s, 0) == Ring(
                0x51a6_7553_13b7_3458, 0xc6e8_4b95_8068_a20c, 0x87e1_c03f_549b_2b2b, 0x5de2_31e7_975e_d433,
                0x20a2_cd0b_88e8_beeb, 0xb797_d4b2_7bff_6bf8, 0xb733_a812_851d_d6a8, 0x9eb8_6b65_57a6_6847,
                0xf5c8_6e0e_3b84_509f, 0xd57d_0d77_f366_2505, 0x3a80_227c_6e48_757c, 0x6d32_93bd_8dda_daff)
    ensures EndRows(s, 6) == Ring(
                0x7d0c_9034_f406_3f54, 0x8d19_808e_0278_c8b6, 0xf5c8_6e0e_3b84_509f, 0xd57d_0d77_f366_2505,
                0x3a80_227c_6e48_757c, 0x341a_df53_0e43_7d0b, 0x05a1_94bf_6e8f_8a78, 0xe264_71c7_7e8a_b651,
                0x527c_ea39_2172_62b7, 0xcd30_b7b8_bb9b_9eb2, 0x13a1_ebeb_55de_a0f1, 0xa342_53f9_7acf_a2d6)
  {
    hide Rot64, Xor, EndRows, EndRot;
    EndLines(s);
    RotStep(0xc6e8_4b95_8068_a20c, 44, 0x100000000000, 0x100000, 0x8a20_cc6e_84b9_5806);
    XorStep(0x87e1_c03f_549b_2b2b, 0x341a_df53_0e43_7d0b, 0x87e1_c03f_549b_2b2b, 0x341a_df53_0e43_7d0b,
            0xb3fb_1f6c_5ad8_5620);
    RotStep(0xb3fb_1f6c_5ad8_5620, 15, 0x8000, 0x2000000000000, 0x8fb6_2d6c_2b10_59fd);
    XorStep(0x5de2_31e7_975e_d433, 0x05a1_94bf_6e8f_8a78, 0x5de2_31e7_975e_d433, 0x05a1_94bf_6e8f_8a78,
            0x5843_a558_f9d1_5e4b);
    RotStep(0x5843_a558_f9d1_5e4b, 34, 0x400000000, 0x40000000, 0xe745_792d_610e_9563);
    XorStep(0x20a2_cd0b_88e8_beeb, 0xe264_71c7_7e8a_b651, 0x20a2_cd0b_88e8_beeb, 0xe264_71c7_7e8a_b651,
            0xc2c6_bccc_f662_08ba);
    RotStep(0xc2c6_bccc_f662_08ba, 21, 0x200000, 0x80000000000, 0x999e_cc41_1758_58d7);
    XorStep(0xb797_d4b2_7bff_6bf8, 0x527c_ea39_2172_62b7, 0xb797_d4b2_7bff_6bf8, 0x527c_ea39_2172_62b7,
            0xe5eb_3e8b_5a8d_094f);
    RotStep(0xe5eb_3e8b_5a8d_094f, 38, 0x4000000000, 0x4000000, 0xa342_53f9_7acf_a2d6);
    XorStep(0xb733_a812_851d_d6a8, 0xcd30_b7b8_bb9b_9eb2, 0xb733_a812_851d_d6a8, 0xcd30_b7b8_bb9b_9eb2,
            0x7a03_1faa_3e86_481a);
    RotStep(0x7a03_1faa_3e86_481a, 33, 0x200000000, 0x80000000, 0x7d0c_9034_f406_3f54);
    XorStep(0x9eb8_6b65_57a6_6847, 0x13a1_ebeb_55de_a0f1, 0x9eb8_6b65_57a6_6847, 0x13a1_ebeb_55de_a0f1,
            0x8d19_808e_0278_c8b6);
  }

  lemma EndOneB(s: Ring)
    requires EndRows(s, 6) == Ring(
                0x7d0c_9034_f406_3f54, 0x8d19_808e_0278_c8b6, 0xf5c8_6e0e_3b84_509f, 0xd57d_0d77_f366_2505,
                0x3a80_227c_6e48_757c, 0x341a_df53_0e43_7d0b, 0x05a1_94bf_6e8f_8a78, 0xe264_71c7_7e8a_b651,
                0x527c_ea39_2172_62b7, 0xcd30_b7b8_bb9b_9eb2, 0x13a1_ebeb_55de_a0f1, 0xa342_53f9_7acf_a2d6)
    ensures EndRows(s, 12) == Ring(
                0x5c5c_98e9_8fd5_46c8, 0xedd8_e3ec_7599_c30b, 0x527c_ea39_2172_62b7, 0xcd30_b7b8_bb9b_9eb2,
                0x13a1_ebeb_55de_a0f1, 0x305b_d487_7d48_6b8c, 0x42a0_4abe_3ad2_7a67, 0xfddf_7fd3_acd7_3996,
                0x3eb0_8689_4a01_c59c, 0x77c2_3280_3b94_ab09, 0x0fbc_922b_0b13_755a, 0x0ae2_5c2a_a967_6911)
  {
    hide Rot64, Xor, EndRows, EndRot;
    EndLines(s);
    RotStep(0x8d19_808e_0278_c8b6, 10, 0x400, 0x40000000000000, 0x6602_3809_e322_da34);
    XorStep(0xf5c8_6e0e_3b84_509f, 0x305b_d487_7d48_6b8c, 0xf5c8_6e0e_3b84_509f, 0x305b_d487_7d48_6b8c,
            0xc593_ba89_46cc_3b13);
    RotStep(0xc593_ba89_46cc_3b13, 13, 0x2000, 0x8000000000000, 0x7751_28d9_8762_78b2);
    XorStep(0xd57d_0d77_f366_2505, 0x42a0_4abe_3ad2_7a67, 0xd57d_0d77_f366_2505, 0x42a0_4abe_3ad2_7a67,
            0x97dd_47c9_c9b4_5f62);
    RotStep(0x97dd_47c9_c9b4_5f62, 38, 0x4000000000, 0x4000000, 0x6d17_d8a5_f751_f272);
    XorStep(0x3a80_227c_6e48_757c, 0xfddf_7fd3_acd7_3996, 0x3a80_227c_6e48_757c, 0xfddf_7fd3_acd7_3996,
            0xc75f_5daf_c29f_4cea);
    RotStep(0xc75f_5daf_c29f_4cea, 53, 0x20000000000000, 0x800, 0x9d58_ebeb_b5f8_53e9);
    XorStep(0x341a_df53_0e43_7d0b, 0x3eb0_8689_4a01_c59c, 0x341a_df53_0e43_7d0b, 0x3eb0_8689_4a01_c59c,
            0x0aaa_59da_4442_b897);
    RotStep(0x0aaa_59da_4442_b897, 42, 0x40000000000, 0x400000, 0x0ae2_5c2a_a967_6911);
    XorStep(0x05a1_94bf_6e8f_8a78, 0x77c2_3280_3b94_ab09, 0x05a1_94bf_6e8f_8a78, 0x77c2_3280_3b94_ab09,
            0x7263_a63f_551b_2171);
    RotStep(0x7263_a63f_551b_2171, 54, 0x40000000000000, 0x400, 0x5c5c_98e9_8fd5_46c8);
    XorStep(0xe264_71c7_7e8a_b651, 0x0fbc_922b_0b13_755a, 0xe264_71c7_7e8a_b651, 0x0fbc_922b_0b13_755a,
            0xedd8_e3ec_7599_c30b);
  }

  lemma EndTwoA(s: Ring)
    requires EndRows(s, 0) == Ring(
                0x5c5c_98e9_8fd5_46c8, 0xedd8_e3ec_7599_c30b, 0x527c_ea39_2172_62b7, 0xcd30_b7b8_bb9b_9eb2,
                0x13a1_ebeb_55de_a0f1, 0x305b_d487_7d48_6b8c, 0x42a0_4abe_3ad2_7a67, 0xfddf_7fd3_acd7_3996,
                0x3eb0_8689_4a01_c59c, 0x77c2_3280_3b94_ab09, 0x0fbc_922b_0b13_755a, 0x0ae2_5c2a_a967_6911)
    ensures EndRows(s, 6) == Ring(
                0x2c25_1e30_2699_3143, 0xddc9_ad43_bf56_7235, 0x3eb0_8689_4a01_c59c, 0x77c2_3280_3b94_ab09,
                0x0fbc_922b_0b13_755a, 0xf8bb_4017_1f01_2c1c, 0x0724_4317_ce48_9573, 0x6645_b38d_0411_d31a,
                0x4afb_779f_f925_494e, 0x51ec_d21f_acc0_f57f, 0x2016_d290_1381_4ba3, 0x1b48_b09e_a828_c621)
  {
    hide Rot64, Xor, EndRows, EndRot;
    EndLines(s);
    RotStep(0xedd8_e3ec_7599_c30b, 44, 0x100000000000, 0x100000, 0x9c30_bedd_8e3e_c759);
    XorStep(0x527c_ea39_2172_62b7, 0xf8bb_4017_1f01_2c1c, 0x527c_ea39_2172_62b7, 0xf8bb_4017_1f01_2c1c,
            0xaac7_aa2e_3e73_4eab);
    RotStep(0xaac7_aa2e_3e73_4eab, 15, 0x8000, 0x2000000000000, 0xd517_1f39_a755_d563);
    XorStep(0xcd30_b7b8_bb9b_9eb2, 0x0724_4317_ce48_9573, 0xcd30_b7b8_bb9b_9eb2, 0x0724_4317_ce48_9573,
            0xca14_f4af_75d3_0bc1);
    RotStep(0xca14_f4af_75d3_0bc1, 34, 0x400000000, 0x40000000, 0xd74c_2f07_2853_d2bd);
    XorStep(0x13a1_ebeb_55de_a0f1, 0x6645_b38d_0411_d31a, 0x13a1_ebeb_55de_a0f1, 0x6645_b38d_0411_d31a,
            0x75e4_5866_51cf_73eb);
    RotStep(0x75e4_5866_51cf_73eb, 21, 0x200000, 0x80000000000, 0x0cca_39ee_7d6e_bc8b);
    XorStep(0x305b_d487_7d48_6b8c, 0x4afb_779f_f925_494e, 0x305b_d487_7d48_6b8c, 0x4afb_779f_f925_494e,
            0x7aa0_a318_846d_22c2);
    RotStep(0x7aa0_a318_846d_22c2, 38, 0x4000000000, 0x4000000, 0x1b48_b09e_a828_c621);
    XorStep(0x42a0_4abe_3ad2_7a67, 0x51ec_d21f_acc0_f57f, 0x42a0_4abe_3ad2_7a67, 0x51ec_d21f_acc0_f57f,
            0x134c_98a1_9612_8f18);
    RotStep(0x134c_98a1_9612_8f18, 33, 0x200000000, 0x80000000, 0x2c25_1e30_2699_3143);
    XorStep(0xfddf_7fd3_acd7_3996, 0x2016_d290_1381_4ba3, 0xfddf_7fd3_acd7_3996, 0x2016_d290_1381_4ba3,
            0xddc9_ad43_bf56_7235);
  }

  lemma EndTwoB(s: Ring)
    requires EndRows(s, 6) == Ring(
                0x2c25_1e30_2699_3143, 0xddc9_ad43_bf56_7235, 0x3eb0_8689_4a01_c59c, 0x77c2_3280_3b94_ab09,
                0x0fbc_922b_0b13_755a, 0xf8bb_4017_1f01_2c1c, 0x0724_4317_ce48_9573, 0x6645_b38d_0411_d31a,
                0x4afb_779f_f925_494e, 0x51ec_d21f_acc0_f57f, 0x2016_d290_1381_4ba3, 0x1b48_b09e_a828_c621)
    ensures EndRows(s, 12) == Ring(
                0x25f7_336b_0083_8e79, 0xc747_ff46_10a3_fe46, 0x4afb_779f_f925_494e, 0x51ec_d21f_acc0_f57f,
                0x2016_d290_1381_4ba3, 0xf912_5de2_677f_3856, 0xf3c7_f99b_5418_2f0d, 0xaaba_da18_c955_5b7b,
                0x0073_ade3_a1ff_8715, 0xdbe9_ef15_c071_71e4, 0xa102_4ccb_14b2_2d5c, 0xfaac_27e3_23b7_d2fb)
  {
    hide Rot64, Xor, EndRows, EndRot;
    EndLines(s);
    RotStep(0xddc9_ad43_bf56_7235, 10, 0x400, 0x40000000000000, 0x26b5_0efd_59c8_d777);
    XorStep(0x3eb0_8689_4a01_c59c, 0xf912_5de2_677f_3856, 0x3eb0_8689_4a01_c59c, 0xf912_5de2_677f_3856,
            0xc7a2_db6b_2d7e_fdca);
    RotStep(0xc7a2_db6b_2d7e_fdca, 13, 0x2000, 0x8000000000000, 0x5b6d_65af_dfb9_58f4);
    XorStep(0x77c2_3280_3b94_ab09, 0xf3c7_f99b_5418_2f0d, 0x77c2_3280_3b94_ab09, 0xf3c7_f99b_5418_2f0d,
            0x8405_cb1b_6f8c_8404);
    RotStep(0x8405_cb1b_6f8c_8404, 38, 0x4000000000, 0x4000000, 0xe321_0121_0172_c6db);
    XorStep(0x0fbc_922b_0b13_755a, 0xaaba_da18_c955_5b7b, 0x0fbc_922b_0b13_755a, 0xaaba_da18_c955_5b7b,
            0xa506_4833_c246_2e21);
    RotStep(0xa506_4833_c246_2e21, 53, 0x20000000000000, 0x800, 0xc434_a0c9_0678_48c5);
    XorStep(0xf8bb_4017_1f01_2c1c, 0x0073_ade3_a1ff_8715, 0xf8bb_4017_1f01_2c1c, 0x0073_ade3_a1ff_8715,
            0xf8c8_edf4_befe_ab09);
    RotStep(0xf8c8_edf4_befe_ab09, 42, 0x40000000000, 0x400000, 0xfaac_27e3_23b7_d2fb);
    XorStep(0x0724_4317_ce48_9573, 0xdbe9_ef15_c071_71e4, 0x0724_4317_ce48_9573, 0xdbe9_ef15_c071_71e4,
            0xdccd_ac02_0e39_e497);
    RotStep(0xdccd_ac02_0e39_e497, 54, 0x40000000000000, 0x400, 0x25f7_336b_0083_8e79);
    XorStep(0x6645_b38d_0411_d31a, 0xa102_4ccb_14b2_2d5c, 0x6645_b38d_0411_d31a, 0xa102_4ccb_14b2_2d5c,
            0xc747_ff46_10a3_fe46);
  }

  lemma EndThreeA(s: Ring)
    requires EndRows(s, 0) == Ring(
                0x25f7_336b_0083_8e79, 0xc747_ff46_10a3_fe46, 0x4afb_779f_f925_494e, 0x51ec_d21f_acc0_f57f,
                0x2016_d290_1381_4ba3, 0xf912_5de2_677f_3856, 0xf3c7_f99b_5418_2f0d, 0xaaba_da18_c955_5b7b,
                0x0073_ade3_a1ff_8715, 0xdbe9_ef15_c071_71e4, 0xa102_4ccb_14b2_2d5c, 0xfaac_27e3_23b7_d2fb)
    ensures EndRows(s, 6) == Ring(
                0x13e5_f4ea_51d7_0689, 0x87f3_700c_9766_4e0c, 0x0073_ade3_a1ff_8715, 0xdbe9_ef15_c071_71e4,
                0xa102_4ccb_14b2_2d5c, 0xc1f4_2729_345b_d141, 0xb106_8421_ce02_2688, 0x20ce_c2b2_e2b7_3501,
                0xa933_76e2_3d3e_4429, 0xdb2c_7adf_ddea_d578, 0x2d49_aa14_5e33_1577, 0x905f_1fd4_084a_c016)
  {
    hide Rot64, Xor, EndRows, EndRot;
    EndLines(s);
    RotStep(0xc747_ff46_10a3_fe46, 44, 0x100000000000, 0x100000, 0x3fe4_6c74_7ff4_610a);
    XorStep(0x4afb_779f_f925_494e, 0xc1f4_2729_345b_d141, 0x4afb_779f_f925_494e, 0xc1f4_2729_345b_d141,
            0x8b0f_50b6_cd7e_980f);
    RotStep(0x8b0f_50b6_cd7e_980f, 15, 0x8000, 0x2000000000000, 0xa85b_66bf_4c07_c587);
    XorStep(0x51ec_d21f_acc0_f57f, 0xb106_8421_ce02_2688, 0x51ec_d21f_acc0_f57f, 0xb106_8421_ce02_2688,
            0xe0ea_563e_62c2_d3f7);
    RotStep(0xe0ea_563e_62c2_d3f7, 34, 0x400000000, 0x40000000, 0x8b0b_4fdf_83a9_58f9);
    XorStep(0x2016_d290_1381_4ba3, 0x20ce_c2b2_e2b7_3501, 0x2016_d290_1381_4ba3, 0x20ce_c2b2_e2b7_3501,
            0x00d8_1022_f136_7ea2);
    RotStep(0x00d8_1022_f136_7ea2, 21, 0x200000, 0x80000000000, 0x045e_26cf_d440_1b02);
    XorStep(0xf912_5de2_677f_3856, 0xa933_76e2_3d3e_4429, 0xf912_5de2_677f_3856, 0xa933_76e2_3d3e_4429,
            0x5021_2b00_5a41_7c7f);
    RotStep(0x5021_2b00_5a41_7c7f, 38, 0x4000000000, 0x4000000, 0x905f_1fd4_084a_c016);
    XorStep(0xf3c7_f99b_5418_2f0d, 0xdb2c_7adf_ddea_d578, 0xf3c7_f99b_5418_2f0d, 0xdb2c_7adf_ddea_d578,
            0x28eb_8344_89f2_fa75);
    RotStep(0x28eb_8344_89f2_fa75, 33, 0x200000000, 0x80000000, 0x13e5_f4ea_51d7_0689);
    XorStep(0xaaba_da18_c955_5b7b, 0x2d49_aa14_5e33_1577, 0xaaba_da18_c955_5b7b, 0x2d49_aa14_5e33_1577,
            0x87f3_700c_9766_4e0c);
  }

  lemma EndThreeB(s: Ring)
    requires EndRows(s, 6) == Ring(
                0x13e5_f4ea_51d7_0689, 0x87f3_700c_9766_4e0c, 0x0073_ade3_a1ff_8715, 0xdbe9_ef15_c071_71e4,
                0xa102_4ccb_14b2_2d5c, 0xc1f4_2729_345b_d141, 0xb106_8421_ce02_2688, 0x20ce_c2b2_e2b7_3501,
                0xa933_76e2_3d3e_4429, 0xdb2c_7adf_ddea_d578, 0x2d49_aa14_5e33_1577, 0x905f_1fd4_084a_c016)
    ensures EndRows(s, 12) == Ring(
                0x7fbb_d7ff_178e_ff9a, 0xb382_50b8_ad69_24e0, 0xa933_76e2_3d3e_4429, 0xdb2c_7adf_ddea_d578,
                0x2d49_aa14_5e33_1577, 0x1852_8fe0_9fb1_0e22, 0x2c07_16ed_9025_8fc0, 0xc5af_2c55_e98d_3043,
                0x88ed_c868_ce66_0023, 0x5e59_787f_f5fc_4f76, 0x934c_920a_4fde_11e1, 0xf745_8924_67bd_07e8)
  {
    hide Rot64, Xor, EndRows, EndRot;
    EndLines(s);
    RotStep(0x87f3_700c_9766_4e0c, 10, 0x400, 0x40000000000000, 0xcdc0_325d_9938_321f);
    XorStep(0x0073_ade3_a1ff_8715, 0x1852_8fe0_9fb1_0e22, 0x0073_ade3_a1ff_8715, 0x1852_8fe0_9fb1_0e22,
            0x1821_2203_3e4e_8937);
    RotStep(0x1821_2203_3e4e_8937, 13, 0x2000, 0x8000000000000, 0x2440_67c9_d126_e304);
    XorStep(0xdbe9_ef15_c071_71e4, 0x2c07_16ed_9025_8fc0, 0xdbe9_ef15_c071_71e4, 0x2c07_16ed_9025_8fc0,
            0xf7ee_f9f8_5054_fe24);
    RotStep(0xf7ee_f9f8_5054_fe24, 38, 0x4000000000, 0x4000000, 0x153f_893d_fbbe_7e14);
    XorStep(0xa102_4ccb_14b2_2d5c, 0xc5af_2c55_e98d_3043, 0xa102_4ccb_14b2_2d5c, 0xc5af_2c55_e98d_3043,
            0x64ad_609e_fd3f_1d1f);
    RotStep(0x64ad_609e_fd3f_1d1f, 53, 0x20000000000000, 0x800, 0xa3ec_95ac_13df_a7e3);
    XorStep(0xc1f4_2729_345b_d141, 0x88ed_c868_ce66_0023, 0xc1f4_2729_345b_d141, 0x88ed_c868_ce66_0023,
            0x4919_ef41_fa3d_d162);
    RotStep(0x4919_ef41_fa3d_d162, 42, 0x40000000000, 0x400000, 0xf745_8924_67bd_07e8);
    XorStep(0xb106_8421_ce02_2688, 0x5e59_787f_f5fc_4f76, 0xb106_8421_ce02_2688, 0x5e59_787f_f5fc_4f76,
            0xef5f_fc5e_3bfe_69fe);
    RotStep(0xef5f_fc5e_3bfe_69fe, 54, 0x40000000000000, 0x400, 0x7fbb_d7ff_178e_ff9a);
    XorStep(0x20ce_c2b2_e2b7_3501, 0x934c_920a_4fde_11e1, 0x20ce_c2b2_e2b7_3501, 0x934c_920a_4fde_11e1,
            0xb382_50b8_ad69_24e0);
  }

  lemma BlockOne(b: Block)
    requires b[0] == 0x0706_0504_0302_0100 && b[1] == 0x0f0e_0d0c_0b0a_0908
    requires b[2] == 0x1716_1514_1312_1110 && b[3] == 0x1f1e_1d1c_1b1a_1918
    requires b[4] == 0x2726_2524_2322_2120 && b[5] == 0x2f2e_2d2c_2b2a_2928
    requires b[6] == 0x3736_3534_3332_3130 && b[7] == 0x3f3e_3d3c_3b3a_3938
    requires b[8] == 0x4746_4544_4342_4140 && b[9] == 0x4f4e_4d4c_4b4a_4948
    requires b[10] == 0x5756_5554_5352_5150 && b[11] == 0x5f5e_5d5c_5b5a_5958
    ensures Mix(b, Ring(
                0x0123_4567_89ab_cdef, 0xfedc_ba98_7654_3210, 0xdead_b0ef_dead_beef, 0x0123_4567_89ab_cdef,
                0xfedc_ba98_7654_3210, 0xdead_b0ef_dead_beef, 0x0123_4567_89ab_cdef, 0xfedc_ba98_7654_3210,
                0xdead_b0ef_dead_beef, 0x0123_4567_89ab_cdef, 0xfedc_ba98_7654_3210, 0xdead_b0ef_dead_beef))
            == Ring(
                0x2d20_f7d3_ed9f_3ff4, 0xf879_d300_a1da_4f8a, 0x4687_90cd_545c_b73f, 0x6642_2b2f_1576_fce8,
                0x4ef8_c5ea_3c9e_5725, 0x43fb_0291_2c87_2028, 0xd360_43d2_d60c_5182, 0xf90c_4bce_6777_7ee1,
                0x450a_51ea_75bd_efac, 0x7365_c60e_523a_8620, 0x5991_ae56_207e_b28e, 0x8d92_62f3_170b_c29f)
  {
    hide MixRows, MixRow, MixRot;
    var s := Ring(
                0x0123_4567_89ab_cdef, 0xfedc_ba98_7654_3210, 0xdead_b0ef_dead_beef, 0x0123_4567_89ab_cdef,
                0xfedc_ba98_7654_3210, 0xdead_b0ef_dead_beef, 0x0123_4567_89ab_cdef, 0xfedc_ba98_7654_3210,
                0xdead_b0ef_dead_beef, 0x0123_4567_89ab_cdef, 0xfedc_ba98_7654_3210, 0xdead_b0ef_dead_beef);
    MixLines(b, s);
    BlockOneA(b, s);
    BlockOneB(b, s);
    BlockOneC(b, s);
    BlockOneD(b, s);
  }

  lemma BlockTwo(b: Block)
    requires b[0] == 0x6766_6564_6362_6160 && b[1] == 0x6f6e_6d6c_6b6a_6968
    requires b[2] == 0x7776_7574_7372_7170 && b[3] == 0x7f7e_7d7c_7b7a_7978
    requires b[4] == 0x8786_8584_8382_8180 && b[5] == 0x8f8e_8d8c_8b8a_8988
    requires b[6] == 0x9796_9594_9392_9190 && b[7] == 0x9f9e_9d9c_9b9a_9998
    requires b[8] == 0xa7a6_a5a4_a3a2_a1a0 && b[9] == 0xafae_adac_abaa_a9a8
    requires b[10] == 0xb7b6_b5b4_b3b2_b1b0 && b[11] == 0xbfbe_bdbc_bbba_b9b8
    ensures Mix(b, Ring(
                0x2d20_f7d3_ed9f_3ff4, 0xf879_d300_a1da_4f8a, 0x4687_90cd_545c_b73f, 0x6642_2b2f_1576_fce8,
                0x4ef8_c5ea_3c9e_5725, 0x43fb_0291_2c87_2028, 0xd360_43d2_d60c_5182, 0xf90c_4bce_6777_7ee1,
                0x450a_51ea_75bd_efac, 0x7365_c60e_523a_8620, 0x5991_ae56_207e_b28e, 0x8d92_62f3_170b_c29f))
            == Ring(
                0x89df_af8e_4ff4_7298, 0xc6e8_4b95_8068_a20c, 0x87e1_c03f_549b_2b2b, 0x5de2_31e7_975e_d433,
                0x20a2_cd0b_88e8_beeb, 0xb797_d4b2_7bff_6bf8, 0xb733_a812_851d_d6a8, 0x9eb8_6b65_57a6_6847,
                0xf5c8_6e0e_3b84_509f, 0xd57d_0d77_f366_2505, 0x3a80_227c_6e48_757c, 0x6532_93bd_8dda_daff)
  {
    hide MixRows, MixRow, MixRot;
    var s := Ring(
                0x2d20_f7d3_ed9f_3ff4, 0xf879_d300_a1da_4f8a, 0x4687_90cd_545c_b73f, 0x6642_2b2f_1576_fce8,
                0x4ef8_c5ea_3c9e_5725, 0x43fb_0291_2c87_2028, 0xd360_43d2_d60c_5182, 0xf90c_4bce_6777_7ee1,
                0x450a_51ea_75bd_efac, 0x7365_c60e_523a_8620, 0x5991_ae56_207e_b28e, 0x8d92_62f3_170b_c29f);
    MixLines(b, s);
    BlockTwoA(b, s);
    BlockTwoB(b, s);
    BlockTwoC(b, s);
    BlockTwoD(b, s);
  }

  lemma EndOne()
    ensures EndPartial(Ring(
                0x51a6_7553_13b7_3458, 0xc6e8_4b95_8068_a20c, 0x87e1_c03f_549b_2b2b, 0x5de2_31e7_975e_d433,
                0x20a2_cd0b_88e8_beeb, 0xb797_d4b2_7bff_6bf8, 0xb733_a812_851d_d6a8, 0x9eb8_6b65_57a6_6847,
                0xf5c8_6e0e_3b84_509f, 0xd57d_0d77_f366_2505, 0x3a80_227c_6e48_757c, 0x6d32_93bd_8dda_daff))
            == Ring(
                0x5c5c_98e9_8fd5_46c8, 0xedd8_e3ec_7599_c30b, 0x527c_ea39_2172_62b7, 0xcd30_b7b8_bb9b_9eb2,
                0x13a1_ebeb_55de_a0f1, 0x305b_d487_7d48_6b8c, 0x42a0_4abe_3ad2_7a67, 0xfddf_7fd3_acd7_3996,
                0x3eb0_8689_4a01_c59c, 0x77c2_3280_3b94_ab09, 0x0fbc_922b_0b13_755a, 0x0ae2_5c2a_a967_6911)
  {
    hide EndRows, EndRow, EndRot;
    var s := Ring(
                0x51a6_7553_13b7_3458, 0xc6e8_4b95_8068_a20c, 0x87e1_c03f_549b_2b2b, 0x5de2_31e7_975e_d433,
                0x20a2_cd0b_88e8_beeb, 0xb797_d4b2_7bff_6bf8, 0xb733_a812_851d_d6a8, 0x9eb8_6b65_57a6_6847,
                0xf5c8_6e0e_3b84_509f, 0xd57d_0d77_f366_2505, 0x3a80_227c_6e48_757c, 0x6d32_93bd_8dda_daff);
    EndLines(s);
    EndOneA(s);
    EndOneB(s);
  }

  lemma EndTwo()
    ensures EndPartial(Ring(
                0x5c5c_98e9_8fd5_46c8, 0xedd8_e3ec_7599_c30b, 0x527c_ea39_2172_62b7, 0xcd30_b7b8_bb9b_9eb2,
                0x13a1_ebeb_55de_a0f1, 0x305b_d487_7d48_6b8c, 0x42a0_4abe_3ad2_7a67, 0xfddf_7fd3_acd7_3996,
                0x3eb0_8689_4a01_c59c, 0x77c2_3280_3b94_ab09, 0x0fbc_922b_0b13_755a, 0x0ae2_5c2a_a967_6911))
            == Ring(
                0x25f7_336b_0083_8e79, 0xc747_ff46_10a3_fe46, 0x4afb_779f_f925_494e, 0x51ec_d21f_acc0_f57f,
                0x2016_d290_1381_4ba3, 0xf912_5de2_677f_3856, 0xf3c7_f99b_5418_2f0d, 0xaaba_da18_c955_5b7b,
                0x0073_ade3_a1ff_8715, 0xdbe9_ef15_c071_71e4, 0xa102_4ccb_14b2_2d5c, 0xfaac_27e3_23b7_d2fb)
  {
    hide EndRows, EndRow, EndRot;
    var s := Ring(
                0x5c5c_98e9_8fd5_46c8, 0xedd8_e3ec_7599_c30b, 0x527c_ea39_2172_62b7, 0xcd30_b7b8_bb9b_9eb2,
                0x13a1_ebeb_55de_a0f1, 0x305b_d487_7d48_6b8c, 0x42a0_4abe_3ad2_7a67, 0xfddf_7fd3_acd7_3996,
                0x3eb0_8689_4a01_c59c, 0x77c2_3280_3b94_ab09, 0x0fbc_922b_0b13_755a, 0x0ae2_5c2a_a967_6911);
    EndLines(s);
    EndTwoA(s);
    EndTwoB(s);
  }

  lemma EndThree()
    ensures EndPartial(Ring(
                0x25f7_336b_0083_8e79, 0xc747_ff46_10a3_fe46, 0x4afb_779f_f925_494e, 0x51ec_d21f_acc0_f57f,
                0x2016_d290_1381_4ba3, 0xf912_5de2_677f_3856, 0xf3c7_f99b_5418_2f0d, 0xaaba_da18_c955_5b7b,
                0x0073_ade3_a1ff_8715, 0xdbe9_ef15_c071_71e4, 0xa102_4ccb_14b2_2d5c, 0xfaac_27e3_23b7_d2fb))
            == Ring(
                0x7fbb_d7ff_178e_ff9a, 0xb382_50b8_ad69_24e0, 0xa933_76e2_3d3e_4429, 0xdb2c_7adf_ddea_d578,
                0x2d49_aa14_5e33_1577, 0x1852_8fe0_9fb1_0e22, 0x2c07_16ed_9025_8fc0, 0xc5af_2c55_e98d_3043,
                0x88ed_c868_ce66_0023, 0x5e59_787f_f5fc_4f76, 0x934c_920a_4fde_11e1, 0xf745_8924_67bd_07e8)
  {
    hide EndRows, EndRow, EndRot;
    var s := Ring(
                0x25f7_336b_0083_8e79, 0xc747_ff46_10a3_fe46, 0x4afb_779f_f925_494e, 0x51ec_d21f_acc0_f57f,
                0x2016_d290_1381_4ba3, 0xf912_5de2_677f_3856, 0xf3c7_f99b_5418_2f0d, 0xaaba_da18_c955_5b7b,
                0x0073_ade3_a1ff_8715, 0xdbe9_ef15_c071_71e4, 0xa102_4ccb_14b2_2d5c, 0xfaac_27e3_23b7_d2fb);
    EndLines(s);
    EndThreeA(s);
    EndThreeB(s);
  }

  // The words of a block of such a message.
  lemma RampWords(at: nat)
    requires at + 96 <= 200
    ensures forall i | 0 <= i < 12 ::
              WordsAt(Ramp(200), at)[i] == 0x0101_0101_0101_0101 * (at + 8 * i) + 0x0706_0504_0302_0100
  {
    hide Load64, Ramp;
    RampSize(200);
    forall i | 0 <= i < 12
      ensures Load64(Ramp(200), at + 8 * i) == 0x0101_0101_0101_0101 * (at + 8 * i) + 0x0706_0504_0302_0100
    {
      LoadRamp(200, at + 8 * i);
    }
  }

  // The last eight bytes, zeros, and an eight at the end.
  lemma PaddedWords(p: Message)
    requires p == Pad(Ramp(200)[192..])
    ensures |p| == 96 && forall i | 0 <= i < 12 ::
              WordsAt(p, 0)[i] == if i == 0 then 0xc7c6_c5c4_c3c2_c1c0 else if i == 11 then 0x0800_0000_0000_0000 else 0
  {
    hide Load64, Ramp;
    FirstWord(p);
    forall i | 0 < i < 11 ensures Load64(p, 8 * i) == 0 { ZeroWord(p, 8 * i); }
    LastWord(p);
  }

  lemma FirstWord(p: Message)
    requires p == Pad(Ramp(200)[192..])
    ensures Load64(p, 0) == 0xc7c6_c5c4_c3c2_c1c0
  {
    LoadRamp(200, 192);
    assert p[0..8] == Ramp(200)[192..200];
    hide Little, Pad, Ramp;
  }

  lemma ZeroWord(p: Message, at: nat)
    requires p == Pad(Ramp(200)[192..]) && 8 <= at <= 80
    ensures Load64(p, at) == 0
  {
    assert p[at..at + 8] == Zeros(8);
    LittleZeros(8);
    hide Little;
  }

  lemma LastWord(p: Message)
    requires p == Pad(Ramp(200)[192..])
    ensures Load64(p, 88) == 0x0800_0000_0000_0000
  {
    var z := Zeros(7);
    assert p[88..96] == z + [8];
    LittleSnoc(z, 8);
    LittleZeros(7);
    TopByte();
    hide Little, Pow2, Zeros;
  }

  lemma TopByte()
    ensures Pow2(56) == 0x100_0000_0000_0000
  {
    PIs(56);
    assert P(56) == 0x100_0000_0000_0000;
    hide Pow2, P;
  }

  lemma RampBlocks()
    ensures Blocks(Init(SEED1, SEED2), Ramp(200), 2) == Ring(
                0x89df_af8e_4ff4_7298, 0xc6e8_4b95_8068_a20c, 0x87e1_c03f_549b_2b2b, 0x5de2_31e7_975e_d433,
                0x20a2_cd0b_88e8_beeb, 0xb797_d4b2_7bff_6bf8, 0xb733_a812_851d_d6a8, 0x9eb8_6b65_57a6_6847,
                0xf5c8_6e0e_3b84_509f, 0xd57d_0d77_f366_2505, 0x3a80_227c_6e48_757c, 0x6532_93bd_8dda_daff)
  {
    hide Mix, WordsAt, Ramp;
    RampSize(200);
    RampWords(0);
    RampWords(96);
    var m, s := Ramp(200), Init(SEED1, SEED2);
    assert Blocks(s, m, 0) == s;
    BlockOne(WordsAt(m, 0));
    BlockTwo(WordsAt(m, 96));
  }

  lemma RampFinish()
    ensures Finish(Ring(
                0x89df_af8e_4ff4_7298, 0xc6e8_4b95_8068_a20c, 0x87e1_c03f_549b_2b2b, 0x5de2_31e7_975e_d433,
                0x20a2_cd0b_88e8_beeb, 0xb797_d4b2_7bff_6bf8, 0xb733_a812_851d_d6a8, 0x9eb8_6b65_57a6_6847,
                0xf5c8_6e0e_3b84_509f, 0xd57d_0d77_f366_2505, 0x3a80_227c_6e48_757c, 0x6532_93bd_8dda_daff), Ramp(200)[192..]) ==
            (0x7fbb_d7ff_178e_ff9a, 0xb382_50b8_ad69_24e0)
  {
    hide EndPartial, WordsAt, Pad, Ramp;
    RampSize(200);
    PaddedWords(Pad(Ramp(200)[192..]));
    EndOne();
    EndTwo();
    EndThree();
  }

  /** The hash of the bytes 0 to 199, with the same two seeds: two blocks and eight bytes. */
  lemma KnownValue()
    ensures Hash128(Ramp(200), SEED1, SEED2) == (0x7fbb_d7ff_178e_ff9a, 0xb382_50b8_ad69_24e0)
  {
    hide Blocks, Finish, Init, Short;
    RampBlocks();
    RampFinish();
  }
}
