/** crc64.c: the table-driven checksum, and the polynomial division that it computes. */
module Crc64 {
  type Data = seq<bv8>

  /** A 64-bit register. */
  datatype Reg = Reg(v: bv64)

  /** The polynomial without its leading term, most significant coefficient first. */
  const POLY: bv64 := 0xad93_d235_94c9_35a9

  // ---- the definition: division, one message bit at a time

  /** A bit enters a register that shifts to the left. */
  function Divide(r: Reg, bit: bool): Reg {
    if (r.v >= 0x8000_0000_0000_0000) != bit then Reg((r.v << 1) ^ POLY) else Reg(r.v << 1)
  }

  /** The bits of a byte enter from the least significant one on. */
  function DivideByte(r: Reg, b: bv8): Reg {
    Divide(Divide(Divide(Divide(Divide(Divide(Divide(Divide(r,
      b & 1 != 0), b & 2 != 0), b & 4 != 0), b & 8 != 0), b & 16 != 0), b & 32 != 0), b & 64 != 0), b & 128 != 0)
  }

  function Remainder(r: Reg, s: Data): Reg
    decreases |s|
  {
    if s == [] then r else Remainder(DivideByte(r, s[0]), s[1..])
  }

  /** The bits of a word in the opposite order. */
  function Mirror(x: bv64): bv64 {
    var a := ((x & 0x5555_5555_5555_5555) << 1) | ((x >> 1) & 0x5555_5555_5555_5555);
    var b := ((a & 0x3333_3333_3333_3333) << 2) | ((a >> 2) & 0x3333_3333_3333_3333);
    var c := ((b & 0x0f0f_0f0f_0f0f_0f0f) << 4) | ((b >> 4) & 0x0f0f_0f0f_0f0f_0f0f);
    var d := ((c & 0x00ff_00ff_00ff_00ff) << 8) | ((c >> 8) & 0x00ff_00ff_00ff_00ff);
    var e := ((d & 0x0000_ffff_0000_ffff) << 16) | ((d >> 16) & 0x0000_ffff_0000_ffff);
    (e << 32) | (e >> 32)
  }

  function Reflect(r: Reg): Reg { Reg(Mirror(r.v)) }

  /** What `Mirror` is for: bit `i` of the one is bit `63 - i` of the other. Everything below that
      speaks of reflection means this. */
  lemma ReflectBit(r: Reg, i: bv64)
    requires i < 64
    ensures (Reflect(r).v >> i as bv7) & 1 == (r.v >> (63 - i) as bv7) & 1
  {}

  // ---- the same with a reflected register

  function X(a: Reg, b: Reg): Reg { Reg(a.v ^ b.v) }

  function Half(a: Reg): Reg { Reg(a.v >> 1) }

  predicate Odd(a: Reg) { a.v & 1 == 1 }

  function Byte(b: bv8): Reg { Reg(b as bv64) }

  function Bit(b: bool): Reg { Reg(if b then 1 else 0) }

  /** POLY with its bits reversed. */
  const RPOLY: Reg := Reg(0x95ac_9329_ac4b_c9b5)

  function Step(r: Reg): Reg { if Odd(r) then X(Half(r), RPOLY) else Half(r) }

  function Step8(r: Reg): Reg { Step(Step(Step(Step(Step(Step(Step(Step(r)))))))) }

  function Double(a: Reg): Reg { Reg(a.v << 1) }

  predicate High1(a: Reg) { a.v >= 0x8000_0000_0000_0000 }

  // ---- laws of the words, each a matter of bits

  lemma MirrorXor(x: bv64, y: bv64)
    ensures Mirror(x ^ y) == Mirror(x) ^ Mirror(y)
  {}

  lemma MirrorHalf(x: bv64)
    ensures Mirror(x >> 1) == Mirror(x) << 1
  {}

  lemma XIs(x: bv64, y: bv64)
    ensures X(Reg(x), Reg(y)) == Reg(x ^ y)
  {}

  lemma HalfIs(x: bv64)
    ensures Half(Reg(x)) == Reg(x >> 1) && Double(Reg(x)) == Reg(x << 1)
  {}

  lemma ReflectIs(x: bv64)
    ensures Reflect(Reg(x)) == Reg(Mirror(x))
  {
    hide Mirror;
  }

  lemma ReflectX(x: Reg, y: Reg)
    ensures Reflect(X(x, y)) == X(Reflect(x), Reflect(y))
  {
    hide *;
    var a, b := x.v, y.v;
    XIs(a, b);
    ReflectIs(a ^ b);
    MirrorXor(a, b);
    ReflectIs(a);
    ReflectIs(b);
    XIs(Mirror(a), Mirror(b));
  }

  lemma ReflectHalf(x: Reg)
    ensures Reflect(Half(x)) == Double(Reflect(x))
  {
    hide *;
    var a := x.v;
    HalfIs(a);
    ReflectIs(a >> 1);
    MirrorHalf(a);
    ReflectIs(a);
    HalfIs(Mirror(a));
  }

  lemma ReflectOdd(x: Reg)
    ensures High1(Reflect(x)) <==> Odd(x)
  {}

  lemma ReflectPoly()
    ensures Reflect(RPOLY) == Reg(POLY)
  {}

  lemma HalfX(x: Reg, y: Reg)
    ensures Half(X(x, y)) == X(Half(x), Half(y))
  {}

  lemma OddX(x: Reg, y: Reg)
    ensures Odd(X(x, y)) <==> Odd(x) != Odd(y)
  {}

  function Lower32(x: Reg): Reg { Reg(x.v & 0xffff_ffff) }

  function Upper32(x: Reg): Reg { Reg(x.v & 0xffff_ffff_0000_0000) }

  lemma SameHalves(x: Reg, y: Reg)
    requires Lower32(x) == Lower32(y) && Upper32(x) == Upper32(y)
    ensures x == y
  {}

  lemma AssociateLow(x: Reg, y: Reg, z: Reg)
    ensures Lower32(X(X(x, y), z)) == Lower32(X(x, X(y, z)))
  {}

  lemma AssociateHigh(x: Reg, y: Reg, z: Reg)
    ensures Upper32(X(X(x, y), z)) == Upper32(X(x, X(y, z)))
  {}

  lemma Commute(x: Reg, y: Reg)
    ensures X(x, y) == X(y, x)
  {}

  lemma Associate(x: Reg, y: Reg, z: Reg)
    ensures X(X(x, y), z) == X(x, X(y, z))
  {
    hide *;
    AssociateLow(x, y, z);
    AssociateHigh(x, y, z);
    SameHalves(X(X(x, y), z), X(x, X(y, z)));
  }

  lemma Cancel(x: Reg, y: Reg)
    ensures X(X(x, y), y) == x
  {}

  lemma BitIs(b: bool)
    ensures (Odd(Bit(b)) <==> b) && Half(Bit(b)) == Bit(false)
  {}

  lemma XZero(x: Reg)
    ensures X(x, Bit(false)) == x
  {}

  // ---- steps

  lemma StepIs(r: Reg)
    ensures Step(r) == if Odd(r) then X(Half(r), RPOLY) else Half(r)
  {}

  lemma DivideIs(r: Reg, bit: bool)
    ensures Divide(r, bit) == if High1(r) != bit then X(Double(r), Reg(POLY)) else Double(r)
  {}

  /** One step of the reflected register is one step of the division. */
  lemma StepDivides(r: Reg, bit: bool)
    ensures Reflect(Step(X(r, Bit(bit)))) == Divide(Reflect(r), bit)
  {
    hide *;
    var x := X(r, Bit(bit));
    StepIs(x);
    DivideIs(Reflect(r), bit);
    OddX(r, Bit(bit));
    BitIs(bit);
    HalfX(r, Bit(bit));
    XZero(Half(r));
    ReflectOdd(r);
    ReflectHalf(r);
    ReflectPoly();
    ReflectX(Half(r), RPOLY);
  }

  /** Bits above the lowest one only move down. */
  lemma StepHigh(x: Reg, y: Reg)
    requires !Odd(y)
    ensures Step(X(x, y)) == X(Step(x), Half(y)) && Step(y) == Half(y)
  {
    hide *;
    StepIs(x);
    StepIs(y);
    StepIs(X(x, y));
    OddX(x, y);
    HalfX(x, y);
    Associate(Half(x), Half(y), RPOLY);
    Commute(Half(y), RPOLY);
    Associate(Half(x), RPOLY, Half(y));
  }

  lemma StepXor(x: Reg, y: Reg)
    ensures Step(X(x, y)) == X(Step(x), Step(y))
  {
    hide *;
    StepIs(x);
    StepIs(y);
    StepIs(X(x, y));
    if !Odd(y) {
      StepHigh(x, y);
    } else if !Odd(x) {
      StepHigh(y, x);
      Commute(x, y);
      Commute(Half(x), Step(y));
    } else {
      OddX(x, y);
      HalfX(x, y);
      Commute(Half(y), RPOLY);
      Associate(X(Half(x), RPOLY), RPOLY, Half(y));
      Cancel(Half(x), RPOLY);
    }
  }

  lemma Step8Is(x: Reg)
    ensures Step8(x) == Step(Step(Step(Step(Step(Step(Step(Step(x))))))))
  {}

  // ---- the table, 16 entries a row

  function Row0(j: bv8): bv64 {
    if j == 0 then 0x0000_0000_0000_0000 else if j == 1 then 0x7ad8_70c8_3035_8979 else if j == 2 then 0xf5b0_e190_606b_12f2 else if j == 3 then 0x8f68_9158_505e_9b8b else
    if j == 4 then 0xc038_e573_9841_b68f else if j == 5 then 0xbae0_95bb_a874_3ff6 else if j == 6 then 0x3588_04e3_f82a_a47d else if j == 7 then 0x4f50_742b_c81f_2d04 else
    if j == 8 then 0xab28_ecb4_6814_fe75 else if j == 9 then 0xd1f0_9c7c_5821_770c else if j == 10 then 0x5e98_0d24_087f_ec87 else if j == 11 then 0x2440_7dec_384a_65fe else
    if j == 12 then 0x6b10_09c7_f055_48fa else if j == 13 then 0x11c8_790f_c060_c183 else if j == 14 then 0x9ea0_e857_903e_5a08 else 0xe478_989f_a00b_d371
  }

  function Row1(j: bv8): bv64 {
    if j == 0 then 0x7d08_ff3b_88be_6f81 else if j == 1 then 0x07d0_8ff3_b88b_e6f8 else if j == 2 then 0x88b8_1eab_e8d5_7d73 else if j == 3 then 0xf260_6e63_d8e0_f40a else
    if j == 4 then 0xbd30_1a48_10ff_d90e else if j == 5 then 0xc7e8_6a80_20ca_5077 else if j == 6 then 0x4880_fbd8_7094_cbfc else if j == 7 then 0x3258_8b10_40a1_4285 else
    if j == 8 then 0xd620_138f_e0aa_91f4 else if j == 9 then 0xacf8_6347_d09f_188d else if j == 10 then 0x2390_f21f_80c1_8306 else if j == 11 then 0x5948_82d7_b0f4_0a7f else
    if j == 12 then 0x1618_f6fc_78eb_277b else if j == 13 then 0x6cc0_8634_48de_ae02 else if j == 14 then 0xe3a8_176c_1880_3589 else 0x9970_67a4_28b5_bcf0
  }

  function Row2(j: bv8): bv64 {
    if j == 0 then 0xfa11_fe77_117c_df02 else if j == 1 then 0x80c9_8ebf_2149_567b else if j == 2 then 0x0fa1_1fe7_7117_cdf0 else if j == 3 then 0x7579_6f2f_4122_4489 else
    if j == 4 then 0x3a29_1b04_893d_698d else if j == 5 then 0x40f1_6bcc_b908_e0f4 else if j == 6 then 0xcf99_fa94_e956_7b7f else if j == 7 then 0xb541_8a5c_d963_f206 else
    if j == 8 then 0x5139_12c3_7968_2177 else if j == 9 then 0x2be1_620b_495d_a80e else if j == 10 then 0xa489_f353_1903_3385 else if j == 11 then 0xde51_839b_2936_bafc else
    if j == 12 then 0x9101_f7b0_e129_97f8 else if j == 13 then 0xebd9_8778_d11c_1e81 else if j == 14 then 0x64b1_1620_8142_850a else 0x1e69_66e8_b177_0c73
  }

  function Row3(j: bv8): bv64 {
    if j == 0 then 0x8719_014c_99c2_b083 else if j == 1 then 0xfdc1_7184_a9f7_39fa else if j == 2 then 0x72a9_e0dc_f9a9_a271 else if j == 3 then 0x0871_9014_c99c_2b08 else
    if j == 4 then 0x4721_e43f_0183_060c else if j == 5 then 0x3df9_94f7_31b6_8f75 else if j == 6 then 0xb291_05af_61e8_14fe else if j == 7 then 0xc849_7567_51dd_9d87 else
    if j == 8 then 0x2c31_edf8_f1d6_4ef6 else if j == 9 then 0x56e9_9d30_c1e3_c78f else if j == 10 then 0xd981_0c68_91bd_5c04 else if j == 11 then 0xa359_7ca0_a188_d57d else
    if j == 12 then 0xec09_088b_6997_f879 else if j == 13 then 0x96d1_7843_59a2_7100 else if j == 14 then 0x19b9_e91b_09fc_ea8b else 0x6361_99d3_39c9_63f2
  }

  function Row4(j: bv8): bv64 {
    if j == 0 then 0xdf7a_dabd_7a6e_2d6f else if j == 1 then 0xa5a2_aa75_4a5b_a416 else if j == 2 then 0x2aca_3b2d_1a05_3f9d else if j == 3 then 0x5012_4be5_2a30_b6e4 else
    if j == 4 then 0x1f42_3fce_e22f_9be0 else if j == 5 then 0x659a_4f06_d21a_1299 else if j == 6 then 0xeaf2_de5e_8244_8912 else if j == 7 then 0x902a_ae96_b271_006b else
    if j == 8 then 0x7452_3609_127a_d31a else if j == 9 then 0x0e8a_46c1_224f_5a63 else if j == 10 then 0x81e2_d799_7211_c1e8 else if j == 11 then 0xfb3a_a751_4224_4891 else
    if j == 12 then 0xb46a_d37a_8a3b_6595 else if j == 13 then 0xceb2_a3b2_ba0e_ecec else if j == 14 then 0x41da_32ea_ea50_7767 else 0x3b02_4222_da65_fe1e
  }

  function Row5(j: bv8): bv64 {
    if j == 0 then 0xa272_2586_f2d0_42ee else if j == 1 then 0xd8aa_554e_c2e5_cb97 else if j == 2 then 0x57c2_c416_92bb_501c else if j == 3 then 0x2d1a_b4de_a28e_d965 else
    if j == 4 then 0x624a_c0f5_6a91_f461 else if j == 5 then 0x1892_b03d_5aa4_7d18 else if j == 6 then 0x97fa_2165_0afa_e693 else if j == 7 then 0xed22_51ad_3acf_6fea else
    if j == 8 then 0x095a_c932_9ac4_bc9b else if j == 9 then 0x7382_b9fa_aaf1_35e2 else if j == 10 then 0xfcea_28a2_faaf_ae69 else if j == 11 then 0x8632_586a_ca9a_2710 else
    if j == 12 then 0xc962_2c41_0285_0a14 else if j == 13 then 0xb3ba_5c89_32b0_836d else if j == 14 then 0x3cd2_cdd1_62ee_18e6 else 0x460a_bd19_52db_919f
  }

  function Row6(j: bv8): bv64 {
    if j == 0 then 0x256b_24ca_6b12_f26d else if j == 1 then 0x5fb3_5402_5b27_7b14 else if j == 2 then 0xd0db_c55a_0b79_e09f else if j == 3 then 0xaa03_b592_3b4c_69e6 else
    if j == 4 then 0xe553_c1b9_f353_44e2 else if j == 5 then 0x9f8b_b171_c366_cd9b else if j == 6 then 0x10e3_2029_9338_5610 else if j == 7 then 0x6a3b_50e1_a30d_df69 else
    if j == 8 then 0x8e43_c87e_0306_0c18 else if j == 9 then 0xf49b_b8b6_3333_8561 else if j == 10 then 0x7bf3_29ee_636d_1eea else if j == 11 then 0x012b_5926_5358_9793 else
    if j == 12 then 0x4e7b_2d0d_9b47_ba97 else if j == 13 then 0x34a3_5dc5_ab72_33ee else if j == 14 then 0xbbcb_cc9d_fb2c_a865 else 0xc113_bc55_cb19_211c
  }

  function Row7(j: bv8): bv64 {
    if j == 0 then 0x5863_dbf1_e3ac_9dec else if j == 1 then 0x22bb_ab39_d399_1495 else if j == 2 then 0xadd3_3a61_83c7_8f1e else if j == 3 then 0xd70b_4aa9_b3f2_0667 else
    if j == 4 then 0x985b_3e82_7bed_2b63 else if j == 5 then 0xe283_4e4a_4bd8_a21a else if j == 6 then 0x6deb_df12_1b86_3991 else if j == 7 then 0x1733_afda_2bb3_b0e8 else
    if j == 8 then 0xf34b_3745_8bb8_6399 else if j == 9 then 0x8993_478d_bb8d_eae0 else if j == 10 then 0x06fb_d6d5_ebd3_716b else if j == 11 then 0x7c23_a61d_dbe6_f812 else
    if j == 12 then 0x3373_d236_13f9_d516 else if j == 13 then 0x49ab_a2fe_23cc_5c6f else if j == 14 then 0xc6c3_33a6_7392_c7e4 else 0xbc1b_436e_43a7_4e9d
  }

  function Row8(j: bv8): bv64 {
    if j == 0 then 0x95ac_9329_ac4b_c9b5 else if j == 1 then 0xef74_e3e1_9c7e_40cc else if j == 2 then 0x601c_72b9_cc20_db47 else if j == 3 then 0x1ac4_0271_fc15_523e else
    if j == 4 then 0x5594_765a_340a_7f3a else if j == 5 then 0x2f4c_0692_043f_f643 else if j == 6 then 0xa024_97ca_5461_6dc8 else if j == 7 then 0xdafc_e702_6454_e4b1 else
    if j == 8 then 0x3e84_7f9d_c45f_37c0 else if j == 9 then 0x445c_0f55_f46a_beb9 else if j == 10 then 0xcb34_9e0d_a434_2532 else if j == 11 then 0xb1ec_eec5_9401_ac4b else
    if j == 12 then 0xfebc_9aee_5c1e_814f else if j == 13 then 0x8464_ea26_6c2b_0836 else if j == 14 then 0x0b0c_7b7e_3c75_93bd else 0x71d4_0bb6_0c40_1ac4
  }

  function Row9(j: bv8): bv64 {
    if j == 0 then 0xe8a4_6c12_24f5_a634 else if j == 1 then 0x927c_1cda_14c0_2f4d else if j == 2 then 0x1d14_8d82_449e_b4c6 else if j == 3 then 0x67cc_fd4a_74ab_3dbf else
    if j == 4 then 0x289c_8961_bcb4_10bb else if j == 5 then 0x5244_f9a9_8c81_99c2 else if j == 6 then 0xdd2c_68f1_dcdf_0249 else if j == 7 then 0xa7f4_1839_ecea_8b30 else
    if j == 8 then 0x438c_80a6_4ce1_5841 else if j == 9 then 0x3954_f06e_7cd4_d138 else if j == 10 then 0xb63c_6136_2c8a_4ab3 else if j == 11 then 0xcce4_11fe_1cbf_c3ca else
    if j == 12 then 0x83b4_65d5_d4a0_eece else if j == 13 then 0xf96c_151d_e495_67b7 else if j == 14 then 0x7604_8445_b4cb_fc3c else 0x0cdc_f48d_84fe_7545
  }

  function Row10(j: bv8): bv64 {
    if j == 0 then 0x6fbd_6d5e_bd37_16b7 else if j == 1 then 0x1565_1d96_8d02_9fce else if j == 2 then 0x9a0d_8cce_dd5c_0445 else if j == 3 then 0xe0d5_fc06_ed69_8d3c else
    if j == 4 then 0xaf85_882d_2576_a038 else if j == 5 then 0xd55d_f8e5_1543_2941 else if j == 6 then 0x5a35_69bd_451d_b2ca else if j == 7 then 0x20ed_1975_7528_3bb3 else
    if j == 8 then 0xc495_81ea_d523_e8c2 else if j == 9 then 0xbe4d_f122_e516_61bb else if j == 10 then 0x3125_607a_b548_fa30 else if j == 11 then 0x4bfd_10b2_857d_7349 else
    if j == 12 then 0x04ad_6499_4d62_5e4d else if j == 13 then 0x7e75_1451_7d57_d734 else if j == 14 then 0xf11d_8509_2d09_4cbf else 0x8bc5_f5c1_1d3c_c5c6
  }

  function Row11(j: bv8): bv64 {
    if j == 0 then 0x12b5_9265_3589_7936 else if j == 1 then 0x686d_e2ad_05bc_f04f else if j == 2 then 0xe705_73f5_55e2_6bc4 else if j == 3 then 0x9ddd_033d_65d7_e2bd else
    if j == 4 then 0xd28d_7716_adc8_cfb9 else if j == 5 then 0xa855_07de_9dfd_46c0 else if j == 6 then 0x273d_9686_cda3_dd4b else if j == 7 then 0x5de5_e64e_fd96_5432 else
    if j == 8 then 0xb99d_7ed1_5d9d_8743 else if j == 9 then 0xc345_0e19_6da8_0e3a else if j == 10 then 0x4c2d_9f41_3df6_95b1 else if j == 11 then 0x36f5_ef89_0dc3_1cc8 else
    if j == 12 then 0x79a5_9ba2_c5dc_31cc else if j == 13 then 0x037d_eb6a_f5e9_b8b5 else if j == 14 then 0x8c15_7a32_a5b7_233e else 0xf6cd_0afa_9582_aa47
  }

  function Row12(j: bv8): bv64 {
    if j == 0 then 0x4ad6_4994_d625_e4da else if j == 1 then 0x300e_395c_e610_6da3 else if j == 2 then 0xbf66_a804_b64e_f628 else if j == 3 then 0xc5be_d8cc_867b_7f51 else
    if j == 4 then 0x8aee_ace7_4e64_5255 else if j == 5 then 0xf036_dc2f_7e51_db2c else if j == 6 then 0x7f5e_4d77_2e0f_40a7 else if j == 7 then 0x0586_3dbf_1e3a_c9de else
    if j == 8 then 0xe1fe_a520_be31_1aaf else if j == 9 then 0x9b26_d5e8_8e04_93d6 else if j == 10 then 0x144e_44b0_de5a_085d else if j == 11 then 0x6e96_3478_ee6f_8124 else
    if j == 12 then 0x21c6_4053_2670_ac20 else if j == 13 then 0x5b1e_309b_1645_2559 else if j == 14 then 0xd476_a1c3_461b_bed2 else 0xaeae_d10b_762e_37ab
  }

  function Row13(j: bv8): bv64 {
    if j == 0 then 0x37de_b6af_5e9b_8b5b else if j == 1 then 0x4d06_c667_6eae_0222 else if j == 2 then 0xc26e_573f_3ef0_99a9 else if j == 3 then 0xb8b6_27f7_0ec5_10d0 else
    if j == 4 then 0xf7e6_53dc_c6da_3dd4 else if j == 5 then 0x8d3e_2314_f6ef_b4ad else if j == 6 then 0x0256_b24c_a6b1_2f26 else if j == 7 then 0x788e_c284_9684_a65f else
    if j == 8 then 0x9cf6_5a1b_368f_752e else if j == 9 then 0xe62e_2ad3_06ba_fc57 else if j == 10 then 0x6946_bb8b_56e4_67dc else if j == 11 then 0x139e_cb43_66d1_eea5 else
    if j == 12 then 0x5cce_bf68_aece_c3a1 else if j == 13 then 0x2616_cfa0_9efb_4ad8 else if j == 14 then 0xa97e_5ef8_cea5_d153 else 0xd3a6_2e30_fe90_582a
  }

  function Row14(j: bv8): bv64 {
    if j == 0 then 0xb0c7_b7e3_c759_3bd8 else if j == 1 then 0xca1f_c72b_f76c_b2a1 else if j == 2 then 0x4577_5673_a732_292a else if j == 3 then 0x3faf_26bb_9707_a053 else
    if j == 4 then 0x70ff_5290_5f18_8d57 else if j == 5 then 0x0a27_2258_6f2d_042e else if j == 6 then 0x854f_b300_3f73_9fa5 else if j == 7 then 0xff97_c3c8_0f46_16dc else
    if j == 8 then 0x1bef_5b57_af4d_c5ad else if j == 9 then 0x6137_2b9f_9f78_4cd4 else if j == 10 then 0xee5f_bac7_cf26_d75f else if j == 11 then 0x9487_ca0f_ff13_5e26 else
    if j == 12 then 0xdbd7_be24_370c_7322 else if j == 13 then 0xa10f_ceec_0739_fa5b else if j == 14 then 0x2e67_5fb4_5767_61d0 else 0x54bf_2f7c_6752_e8a9
  }

  function Row15(j: bv8): bv64 {
    if j == 0 then 0xcdcf_48d8_4fe7_5459 else if j == 1 then 0xb717_3810_7fd2_dd20 else if j == 2 then 0x387f_a948_2f8c_46ab else if j == 3 then 0x42a7_d980_1fb9_cfd2 else
    if j == 4 then 0x0df7_adab_d7a6_e2d6 else if j == 5 then 0x772f_dd63_e793_6baf else if j == 6 then 0xf847_4c3b_b7cd_f024 else if j == 7 then 0x829f_3cf3_87f8_795d else
    if j == 8 then 0x66e7_a46c_27f3_aa2c else if j == 9 then 0x1c3f_d4a4_17c6_2355 else if j == 10 then 0x9357_45fc_4798_b8de else if j == 11 then 0xe98f_3534_77ad_31a7 else
    if j == 12 then 0xa6df_411f_bfb2_1ca3 else if j == 13 then 0xdc07_31d7_8f87_95da else if j == 14 then 0x536f_a08f_dfd9_0e51 else 0x29b7_d047_efec_8728
  }

  /** crc64_tab */
  function Table(i: bv8): bv64 {
    var r, j := i >> 4, i & 15;
    if r == 0 then Row0(j) else if r == 1 then Row1(j) else if r == 2 then Row2(j) else if r == 3 then Row3(j)
    else if r == 4 then Row4(j) else if r == 5 then Row5(j) else if r == 6 then Row6(j) else if r == 7 then Row7(j)
    else if r == 8 then Row8(j) else if r == 9 then Row9(j) else if r == 10 then Row10(j) else if r == 11 then Row11(j)
    else if r == 12 then Row12(j) else if r == 13 then Row13(j) else if r == 14 then Row14(j) else Row15(j)
  }

  lemma Row0Ok(j: bv8)
    requires j < 16
    ensures Reg(Row0(j)) == Step8(Byte(j | 0x00))
  {}

  lemma Row1Ok(j: bv8)
    requires j < 16
    ensures Reg(Row1(j)) == Step8(Byte(j | 0x10))
  {}

  lemma Row2Ok(j: bv8)
    requires j < 16
    ensures Reg(Row2(j)) == Step8(Byte(j | 0x20))
  {}

  lemma Row3Ok(j: bv8)
    requires j < 16
    ensures Reg(Row3(j)) == Step8(Byte(j | 0x30))
  {}

  lemma Row4Ok(j: bv8)
    requires j < 16
    ensures Reg(Row4(j)) == Step8(Byte(j | 0x40))
  {}

  lemma Row5Ok(j: bv8)
    requires j < 16
    ensures Reg(Row5(j)) == Step8(Byte(j | 0x50))
  {}

  lemma Row6Ok(j: bv8)
    requires j < 16
    ensures Reg(Row6(j)) == Step8(Byte(j | 0x60))
  {}

  lemma Row7Ok(j: bv8)
    requires j < 16
    ensures Reg(Row7(j)) == Step8(Byte(j | 0x70))
  {}

  lemma Row8Ok(j: bv8)
    requires j < 16
    ensures Reg(Row8(j)) == Step8(Byte(j | 0x80))
  {}

  lemma Row9Ok(j: bv8)
    requires j < 16
    ensures Reg(Row9(j)) == Step8(Byte(j | 0x90))
  {}

  lemma Row10Ok(j: bv8)
    requires j < 16
    ensures Reg(Row10(j)) == Step8(Byte(j | 0xa0))
  {}

  lemma Row11Ok(j: bv8)
    requires j < 16
    ensures Reg(Row11(j)) == Step8(Byte(j | 0xb0))
  {}

  lemma Row12Ok(j: bv8)
    requires j < 16
    ensures Reg(Row12(j)) == Step8(Byte(j | 0xc0))
  {}

  lemma Row13Ok(j: bv8)
    requires j < 16
    ensures Reg(Row13(j)) == Step8(Byte(j | 0xd0))
  {}

  lemma Row14Ok(j: bv8)
    requires j < 16
    ensures Reg(Row14(j)) == Step8(Byte(j | 0xe0))
  {}

  lemma Row15Ok(j: bv8)
    requires j < 16
    ensures Reg(Row15(j)) == Step8(Byte(j | 0xf0))
  {}

  lemma Nibbles(i: bv8)
    ensures var r, j := i >> 4, i & 15;
      && j < 16 && r <= 15
      && (r == 0 ==> j | 0x00 == i) && (r == 1 ==> j | 0x10 == i) && (r == 2 ==> j | 0x20 == i) && (r == 3 ==> j | 0x30 == i)
      && (r == 4 ==> j | 0x40 == i) && (r == 5 ==> j | 0x50 == i) && (r == 6 ==> j | 0x60 == i) && (r == 7 ==> j | 0x70 == i)
      && (r == 8 ==> j | 0x80 == i) && (r == 9 ==> j | 0x90 == i) && (r == 10 ==> j | 0xa0 == i) && (r == 11 ==> j | 0xb0 == i)
      && (r == 12 ==> j | 0xc0 == i) && (r == 13 ==> j | 0xd0 == i) && (r == 14 ==> j | 0xe0 == i) && (r == 15 ==> j | 0xf0 == i)
  {}

  /** Each entry is eight steps of its index. */
  lemma TableOk(i: bv8)
    ensures Reg(Table(i)) == Step8(Byte(i))
  {
    Nibbles(i);
    var r, j := i >> 4, i & 15;
    if r == 0 { Row0Ok(j); } else if r == 1 { Row1Ok(j); } else if r == 2 { Row2Ok(j); } else if r == 3 { Row3Ok(j); }
    else if r == 4 { Row4Ok(j); } else if r == 5 { Row5Ok(j); } else if r == 6 { Row6Ok(j); } else if r == 7 { Row7Ok(j); }
    else if r == 8 { Row8Ok(j); } else if r == 9 { Row9Ok(j); } else if r == 10 { Row10Ok(j); } else if r == 11 { Row11Ok(j); }
    else if r == 12 { Row12Ok(j); } else if r == 13 { Row13Ok(j); } else if r == 14 { Row14Ok(j); } else { Row15Ok(j); }
    hide Step8, Byte, Row0, Row1, Row2, Row3, Row4, Row5, Row6, Row7, Row8, Row9, Row10, Row11, Row12, Row13, Row14, Row15;
  }

  // ---- a table look-up is eight steps

  function Low(x: Reg): Reg { Reg(x.v & 0xff) }

  function High(x: Reg): Reg { Reg(x.v & 0xffff_ffff_ffff_ff00) }

  function Shift8(x: Reg): Reg { Reg(x.v >> 8) }

  function Index(r: Reg, b: bv8): bv8 { ((r.v & 0xff) as bv8) ^ b }

  lemma SplitParts(x: Reg)
    ensures x == X(Low(x), High(x))
  {}

  lemma SplitHigh(x: Reg)
    ensures Shift8(High(x)) == Shift8(x)
  {}

  lemma ByteHigh(r: Reg, b: bv8)
    ensures Shift8(X(r, Byte(b))) == Shift8(r)
  {}

  lemma SplitLow(r: Reg, b: bv8)
    ensures Low(X(r, Byte(b))) == Byte(Index(r, b))
  {}

  lemma Split8(r: Reg, b: bv8)
    ensures var x := X(r, Byte(b));
      x == X(Low(x), High(x)) && Shift8(High(x)) == Shift8(r) && Low(x) == Byte(Index(r, b))
  {
    hide *;
    SplitParts(X(r, Byte(b)));
    SplitHigh(X(r, Byte(b)));
    ByteHigh(r, b);
    SplitLow(r, b);
  }

  /** The lowest `mask` bits are clear. */
  predicate Clear(h: Reg, mask: bv64) { h.v & mask == 0 }

  lemma HighClear(x: Reg)
    ensures Clear(High(x), 0xff)
  {}

  lemma Shed(h: Reg, mask: bv64)
    requires Clear(h, mask) && mask & 1 == 1
    ensures !Odd(h) && Clear(Half(h), mask >> 1)
  {}

  lemma EightHalves(h: Reg)
    ensures Half(Half(Half(Half(Half(Half(Half(Half(h)))))))) == Shift8(h)
  {}

  lemma HighBits(x: Reg)
    ensures var h := High(x);
      && !Odd(h) && !Odd(Half(h)) && !Odd(Half(Half(h))) && !Odd(Half(Half(Half(h)))) && !Odd(Half(Half(Half(Half(h)))))
      && !Odd(Half(Half(Half(Half(Half(h)))))) && !Odd(Half(Half(Half(Half(Half(Half(h)))))))
      && !Odd(Half(Half(Half(Half(Half(Half(Half(h))))))))
      && Half(Half(Half(Half(Half(Half(Half(Half(h)))))))) == Shift8(h)
  {
    hide *;
    HighClear(x);
    var h0 := High(x);
    Shed(h0, 0xff);
    var h1 := Half(h0);
    Shed(h1, 0x7f);
    var h2 := Half(h1);
    Shed(h2, 0x3f);
    var h3 := Half(h2);
    Shed(h3, 0x1f);
    var h4 := Half(h3);
    Shed(h4, 0xf);
    var h5 := Half(h4);
    Shed(h5, 7);
    var h6 := Half(h5);
    Shed(h6, 3);
    Shed(Half(h6), 1);
    EightHalves(h0);
  }

  lemma Step8High(l: Reg, x: Reg)
    ensures Step8(X(l, High(x))) == X(Step8(l), Shift8(High(x)))
  {
    hide *;
    var h := High(x);
    HighBits(x);
    Step8Is(l);
    Step8Is(X(l, h));
    StepHigh(l, h);
    var l1, h1 := Step(l), Half(h);
    StepHigh(l1, h1);
    var l2, h2 := Step(l1), Half(h1);
    StepHigh(l2, h2);
    var l3, h3 := Step(l2), Half(h2);
    StepHigh(l3, h3);
    var l4, h4 := Step(l3), Half(h3);
    StepHigh(l4, h4);
    var l5, h5 := Step(l4), Half(h4);
    StepHigh(l5, h5);
    var l6, h6 := Step(l5), Half(h5);
    StepHigh(l6, h6);
    StepHigh(Step(l6), Half(h6));
  }

  lemma TableStep(r: Reg, b: bv8)
    ensures X(Reg(Table(Index(r, b))), Shift8(r)) == Step8(X(r, Byte(b)))
  {
    hide *;
    var x := X(r, Byte(b));
    Split8(r, b);
    Step8High(Low(x), x);
    TableOk(Index(r, b));
  }

  lemma LookUpIndex(crc: bv64, b: bv8)
    ensures ((crc & 0xff) as bv8) ^ b == Index(Reg(crc), b)
  {}

  lemma LookUpX(entry: bv64, crc: bv64)
    ensures Reg(entry ^ (crc >> 8)) == X(Reg(entry), Shift8(Reg(crc)))
  {}

  lemma LookUp(crc: bv64, b: bv8)
    ensures Reg(Table(((crc & 0xff) as bv8) ^ b) ^ (crc >> 8)) == X(Reg(Table(Index(Reg(crc), b))), Shift8(Reg(crc)))
  {
    hide *;
    LookUpIndex(crc, b);
    LookUpX(Table(((crc & 0xff) as bv8) ^ b), crc);
  }

  // ---- the checksum of a string

  function Serial(r: Reg, s: Data): Reg
    decreases |s|
  {
    if s == [] then r else Serial(Step8(X(r, Byte(s[0]))), s[1..])
  }

  lemma SerialStep(r: Reg, s: Data, j: nat)
    requires j < |s|
    ensures Serial(r, s[j..]) == Serial(Step8(X(r, Byte(s[j]))), s[j + 1..])
  {
    assert s[j..][1..] == s[j + 1..];
    hide Step8, X, Byte;
  }

  lemma SerialEnds(r: Reg, s: Data)
    ensures Serial(r, s[|s|..]) == r && s[0..] == s
  {}

  /** crc64: the remainder of the division by POLY, with message and register reflected. */
  method Crc64(crc: bv64, s: Data) returns (r: bv64)
    ensures Reflect(Reg(r)) == Remainder(Reflect(Reg(crc)), s) && Reg(r) == Serial(Reg(crc), s)
  {
    r := crc;
    var j := 0;
    hide *;
    SerialEnds(Reg(r), s);
    while j < |s|
      invariant 0 <= j <= |s| && Serial(Reg(r), s[j..]) == Serial(Reg(crc), s)
    {
      SerialStep(Reg(r), s, j);
      var b := s[j];
      TableStep(Reg(r), b);
      LookUp(r, b);
      r := Table(((r & 0xff) as bv8) ^ b) ^ (r >> 8);
      j := j + 1;
    }
    SerialEnds(Reg(r), s);
    SerialDivides(Reg(crc), s);
  }

  lemma {:induction false} SerialDivides(r: Reg, s: Data)
    ensures Reflect(Serial(r, s)) == Remainder(Reflect(r), s)
    decreases |s|
  {
    hide Reflect, Step8, DivideByte, X, Byte;
    if s != [] {
      ByteDivides(r, s[0]);
      SerialDivides(Step8(X(r, Byte(s[0]))), s[1..]);
    }
  }

  function Rest(b: Reg): Reg { Reg(b.v & 0xffff_ffff_ffff_fffe) }

  lemma LowestBit(c: Reg, b: Reg)
    ensures X(c, b) == X(X(c, Bit(Odd(b))), Rest(b)) && !Odd(Rest(b)) && Half(Rest(b)) == Half(b)
  {
    hide *;
    RestOf(b);
    Associate(c, Bit(Odd(b)), Rest(b));
  }

  lemma WithoutLowest(v: bv64)
    ensures var w := v & 0xffff_ffff_ffff_fffe;
      && (v & 1 == 1 ==> v == 1 ^ w) && (v & 1 != 1 ==> v == 0 ^ w) && w & 1 != 1 && w >> 1 == v >> 1
  {}

  lemma RestIs(v: bv64)
    ensures Rest(Reg(v)) == Reg(v & 0xffff_ffff_ffff_fffe) && (Odd(Reg(v)) <==> v & 1 == 1)
    ensures Bit(true) == Reg(1) && Bit(false) == Reg(0)
  {}

  lemma RestOf(b: Reg)
    ensures b == X(Bit(Odd(b)), Rest(b)) && !Odd(Rest(b)) && Half(Rest(b)) == Half(b)
  {
    hide *;
    var v := b.v;
    var w := v & 0xffff_ffff_ffff_fffe;
    RestIs(v);
    RestIs(w);
    WithoutLowest(v);
    XIs(1, w);
    XIs(0, w);
    HalfIs(v);
    HalfIs(w);
  }

  function Enter(c: Reg, bit: bool): Reg { Step(X(c, Bit(bit))) }

  /** The lowest bit of `b` enters the division, and the others wait. */
  lemma BitDivides(c: Reg, b: Reg)
    ensures Step(X(c, b)) == X(Enter(c, Odd(b)), Half(b))
    ensures Reflect(Enter(c, Odd(b))) == Divide(Reflect(c), Odd(b))
  {
    hide Step, X, Bit, Odd, Half, Reflect, Divide, Rest;
    LowestBit(c, b);
    StepHigh(X(c, Bit(Odd(b))), Rest(b));
    StepDivides(c, Odd(b));
  }

  lemma ByteBits(b: bv8)
    ensures var w := Byte(b);
      && (Odd(w) <==> b & 1 != 0) && (Odd(Half(w)) <==> b & 2 != 0) && (Odd(Half(Half(w))) <==> b & 4 != 0)
      && (Odd(Half(Half(Half(w)))) <==> b & 8 != 0) && (Odd(Half(Half(Half(Half(w))))) <==> b & 16 != 0)
      && (Odd(Half(Half(Half(Half(Half(w)))))) <==> b & 32 != 0)
      && (Odd(Half(Half(Half(Half(Half(Half(w))))))) <==> b & 64 != 0)
      && (Odd(Half(Half(Half(Half(Half(Half(Half(w)))))))) <==> b & 128 != 0)
      && Half(Half(Half(Half(Half(Half(Half(Half(w)))))))) == Bit(false)
  {}

  lemma DivideByteIs(r: Reg, b: bv8)
    ensures var w := Byte(b);
      DivideByte(r, b) == Divide(Divide(Divide(Divide(Divide(Divide(Divide(Divide(r,
        Odd(w)), Odd(Half(w))), Odd(Half(Half(w)))), Odd(Half(Half(Half(w))))), Odd(Half(Half(Half(Half(w)))))),
        Odd(Half(Half(Half(Half(Half(w))))))), Odd(Half(Half(Half(Half(Half(Half(w)))))))),
        Odd(Half(Half(Half(Half(Half(Half(Half(w)))))))))
  {
    ByteBits(b);
    hide Divide, Odd, Half, Byte;
  }

  lemma ByteDivides(c0: Reg, b: bv8)
    ensures Reflect(Step8(X(c0, Byte(b)))) == DivideByte(Reflect(c0), b)
  {
    hide *;
    ByteBits(b);
    DivideByteIs(Reflect(c0), b);
    Step8Is(X(c0, Byte(b)));
    var w0 := Byte(b);
    BitDivides(c0, w0);
    var c1, w1 := Enter(c0, Odd(w0)), Half(w0);
    BitDivides(c1, w1);
    var c2, w2 := Enter(c1, Odd(w1)), Half(w1);
    BitDivides(c2, w2);
    var c3, w3 := Enter(c2, Odd(w2)), Half(w2);
    BitDivides(c3, w3);
    var c4, w4 := Enter(c3, Odd(w3)), Half(w3);
    BitDivides(c4, w4);
    var c5, w5 := Enter(c4, Odd(w4)), Half(w4);
    BitDivides(c5, w5);
    var c6, w6 := Enter(c5, Odd(w5)), Half(w5);
    BitDivides(c6, w6);
    var c7, w7 := Enter(c6, Odd(w6)), Half(w6);
    BitDivides(c7, w7);
    XZero(Enter(c7, Odd(w7)));
  }

  /** The checksum does not depend on how the data is cut into pieces. */
  lemma {:induction false} SerialConcat(r: Reg, s: Data, t: Data)
    ensures Serial(r, s + t) == Serial(Serial(r, s), t)
    decreases |s|
  {
    hide Step8, X, Byte;
    if s == [] {
      assert s + t == t;
    } else {
      assert (s + t)[1..] == s[1..] + t;
      SerialConcat(Step8(X(r, Byte(s[0]))), s[1..], t);
    }
  }

  function XorBytes(s: Data, t: Data): Data
    requires |s| == |t|
  {
    seq(|s|, i requires 0 <= i < |s| => s[i] ^ t[i])
  }

  lemma ByteXor(x: bv8, y: bv8)
    ensures Byte(x ^ y) == X(Byte(x), Byte(y))
  {}

  lemma Exchange(a: Reg, b: Reg, x: bv8, y: bv8)
    ensures X(X(a, b), Byte(x ^ y)) == X(X(a, Byte(x)), X(b, Byte(y)))
  {
    hide *;
    var c, d := Byte(x), Byte(y);
    ByteXor(x, y);
    Associate(a, b, X(c, d));
    Associate(b, c, d);
    Commute(b, c);
    Associate(c, b, d);
    Associate(a, c, X(b, d));
  }

  lemma Step8Xor(x: Reg, y: Reg)
    ensures Step8(X(x, y)) == X(Step8(x), Step8(y))
  {
    hide *;
    Step8Is(x);
    Step8Is(y);
    Step8Is(X(x, y));
    StepXor(x, y);
    var x1, y1 := Step(x), Step(y);
    StepXor(x1, y1);
    var x2, y2 := Step(x1), Step(y1);
    StepXor(x2, y2);
    var x3, y3 := Step(x2), Step(y2);
    StepXor(x3, y3);
    var x4, y4 := Step(x3), Step(y3);
    StepXor(x4, y4);
    var x5, y5 := Step(x4), Step(y4);
    StepXor(x5, y5);
    var x6, y6 := Step(x5), Step(y5);
    StepXor(x6, y6);
    StepXor(Step(x6), Step(y6));
  }

  lemma XorBytesStep(s: Data, t: Data)
    requires |s| == |t| && s != []
    ensures XorBytes(s, t) != [] && XorBytes(s, t)[0] == s[0] ^ t[0] && XorBytes(s, t)[1..] == XorBytes(s[1..], t[1..])
  {}

  lemma SerialFirst(r: Reg, s: Data)
    requires s != []
    ensures Serial(r, s) == Serial(Step8(X(r, Byte(s[0]))), s[1..])
  {
    hide Step8, X, Byte;
  }

  /** Strings of equal length: the checksum of their XOR is the XOR of their checksums. */
  lemma {:induction false} SerialXor(a: Reg, b: Reg, s: Data, t: Data)
    requires |s| == |t|
    ensures Serial(X(a, b), XorBytes(s, t)) == X(Serial(a, s), Serial(b, t))
    decreases |s|
  {
    if s != [] {
      SerialXorStep(a, b, s, t);
      SerialXor(Step8(X(a, Byte(s[0]))), Step8(X(b, Byte(t[0]))), s[1..], t[1..]);
      hide Step8, X, Byte, XorBytes;
    }
  }

  lemma SerialXorStep(a: Reg, b: Reg, s: Data, t: Data)
    requires |s| == |t| && s != []
    ensures Serial(X(a, b), XorBytes(s, t))
         == Serial(X(Step8(X(a, Byte(s[0]))), Step8(X(b, Byte(t[0])))), XorBytes(s[1..], t[1..]))
  {
    hide *;
    Exchange(a, b, s[0], t[0]);
    Step8Xor(X(a, Byte(s[0])), X(b, Byte(t[0])));
    XorBytesStep(s, t);
    SerialFirst(X(a, b), XorBytes(s, t));
  }

  // ---- the check value

  /** The digits 1 to 9. */
  const DIGITS: Data := [49, 50, 51, 52, 53, 54, 55, 56, 57]

  lemma OneByte(c: bv64, b: bv8, c': bv64, rest: Data)
    requires Step8(X(Reg(c), Byte(b))) == Reg(c')
    ensures Serial(Reg(c), [b] + rest) == Serial(Reg(c'), rest)
  {
    hide Step8, X, Byte;
    assert ([b] + rest)[1..] == rest;
  }

  /** Each of these is the one before it without its first digit. */
  lemma Tails()
    ensures DIGITS == [49] + [50, 51, 52, 53, 54, 55, 56, 57] && [50, 51, 52, 53, 54, 55, 56, 57] == [50 as bv8] + [51, 52, 53, 54, 55, 56, 57]
    ensures [51, 52, 53, 54, 55, 56, 57] == [51 as bv8] + [52, 53, 54, 55, 56, 57] && [52, 53, 54, 55, 56, 57] == [52 as bv8] + [53, 54, 55, 56, 57]
    ensures [53, 54, 55, 56, 57] == [53 as bv8] + [54, 55, 56, 57] && [54, 55, 56, 57] == [54 as bv8] + [55, 56, 57]
    ensures [55, 56, 57] == [55 as bv8] + [56, 57] && [56, 57] == [56 as bv8] + [57] && [57] == [57 as bv8] + []
  {}

  /** From the initial value 0, which the server uses, the digits give the announced check value. */
  lemma CheckValue()
    ensures Serial(Reg(0), DIGITS) == Reg(0xe9c6_d914_c4b8_d9ca)
  {
    Tails();
    OneByte(0x0000_0000_0000_0000, 49, 0xfdc1_7184_a9f7_39fa, [50, 51, 52, 53, 54, 55, 56, 57]);
    OneByte(0xfdc1_7184_a9f7_39fa, 50, 0xe103_6451_3a98_ed96, [51, 52, 53, 54, 55, 56, 57]);
    OneByte(0xe103_6451_3a98_ed96, 51, 0xd5bc_fb81_4479_b1ac, [52, 53, 54, 55, 56, 57]);
    OneByte(0xd5bc_fb81_4479_b1ac, 52, 0x4359_3c5d_cda5_21f0, [53, 54, 55, 56, 57]);
    OneByte(0x4359_3c5d_cda5_21f0, 53, 0xf075_8513_239c_7e0d, [54, 55, 56, 57]);
    OneByte(0xf075_8513_239c_7e0d, 54, 0xa3a9_0925_b2ab_4903, [55, 56, 57]);
    OneByte(0xa3a9_0925_b2ab_4903, 55, 0x4782_4d36_2431_ad45, [56, 57]);
    OneByte(0x4782_4d36_2431_ad45, 56, 0x49ec_20b3_15e8_6dc2, [57]);
    OneByte(0x49ec_20b3_15e8_6dc2, 57, 0xe9c6_d914_c4b8_d9ca, []);
  }

  /** From the announced initial value, all ones, they give another one. */
  lemma CheckValueOfOnes()
    ensures Serial(Reg(0xffff_ffff_ffff_ffff), DIGITS) == Reg(0xcaa7_1716_8609_f281)
  {
    Tails();
    OneByte(0xffff_ffff_ffff_ffff, 49, 0xd489_5e3c_b9e4_412d, [50, 51, 52, 53, 54, 55, 56, 57]);
    OneByte(0xd489_5e3c_b9e4_412d, 50, 0x99a4_eefa_140c_58b1, [51, 52, 53, 54, 55, 56, 57]);
    OneByte(0x99a4_eefa_140c_58b1, 51, 0x6085_d657_3634_d71f, [52, 53, 54, 55, 56, 57]);
    OneByte(0x6085_d657_3634_d71f, 52, 0xde31_064d_7e00_8e2b, [53, 54, 55, 56, 57]);
    OneByte(0xde31_064d_7e00_8e2b, 53, 0xe376_266a_55fe_3507, [54, 55, 56, 57]);
    OneByte(0xe376_266a_55fe_3507, 54, 0xfd22_07a2_c3a2_c7cf, [55, 56, 57]);
    OneByte(0xfd22_07a2_c3a2_c7cf, 55, 0x661a_866b_8530_08eb, [56, 57]);
    OneByte(0x661a_866b_8530_08eb, 56, 0xb8d0_3d71_6540_20d8, [57]);
    OneByte(0xb8d0_3d71_6540_20d8, 57, 0xcaa7_1716_8609_f281, []);
  }
}
