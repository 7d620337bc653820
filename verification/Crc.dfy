/** The table-driven CRC, as a refinement of bit-by-bit division by the reflected polynomial. */
module Crc {

  const POLYNOMIAL: bv32 := 0xEDB8_8320

  /** One bit of the division: shift, and subtract the polynomial when a one falls out. */
  function Shift(r: bv32): bv32 {
    if r & 1 == 1 then (r >> 1) ^ POLYNOMIAL else r >> 1
  }

  function Shift8(r: bv32): bv32 {
    Shift(Shift(Shift(Shift(Shift(Shift(Shift(Shift(r))))))))
  }

  function Xor(a: bv32, b: bv32): bv32 {
    a ^ b
  }

  /** One byte of the division. */
  function Next(r: bv32, b: bv8): bv32 {
    Shift8(Xor(r, b as bv32))
  }

  /** Division of a whole message, one byte after the other, from the register r. */
  function Divide(r: bv32, s: seq<bv8>): bv32
    decreases |s|
  {
    if s == [] then r else Divide(Next(r, s[0]), s[1..])
  }

  /** Rows 0 to 7 of the table, eight entries each. */
  function Table0(k: bv8): (row: seq<bv32>)
    ensures |row| == 8
  {
    match k
    case 0 => [0x0000_0000, 0x7707_3096, 0xee0e_612c, 0x9909_51ba, 0x076d_c419, 0x706a_f48f, 0xe963_a535, 0x9e64_95a3]
    case 1 => [0x0edb_8832, 0x79dc_b8a4, 0xe0d5_e91e, 0x97d2_d988, 0x09b6_4c2b, 0x7eb1_7cbd, 0xe7b8_2d07, 0x90bf_1d91]
    case 2 => [0x1db7_1064, 0x6ab0_20f2, 0xf3b9_7148, 0x84be_41de, 0x1ada_d47d, 0x6ddd_e4eb, 0xf4d4_b551, 0x83d3_85c7]
    case 3 => [0x136c_9856, 0x646b_a8c0, 0xfd62_f97a, 0x8a65_c9ec, 0x1401_5c4f, 0x6306_6cd9, 0xfa0f_3d63, 0x8d08_0df5]
    case 4 => [0x3b6e_20c8, 0x4c69_105e, 0xd560_41e4, 0xa267_7172, 0x3c03_e4d1, 0x4b04_d447, 0xd20d_85fd, 0xa50a_b56b]
    case 5 => [0x35b5_a8fa, 0x42b2_986c, 0xdbbb_c9d6, 0xacbc_f940, 0x32d8_6ce3, 0x45df_5c75, 0xdcd6_0dcf, 0xabd1_3d59]
    case 6 => [0x26d9_30ac, 0x51de_003a, 0xc8d7_5180, 0xbfd0_6116, 0x21b4_f4b5, 0x56b3_c423, 0xcfba_9599, 0xb8bd_a50f]
    case _ => [0x2802_b89e, 0x5f05_8808, 0xc60c_d9b2, 0xb10b_e924, 0x2f6f_7c87, 0x5868_4c11, 0xc161_1dab, 0xb666_2d3d]
  }

  /** Rows 8 to 15 of the table, eight entries each. */
  function Table1(k: bv8): (row: seq<bv32>)
    ensures |row| == 8
  {
    match k
    case 8 => [0x76dc_4190, 0x01db_7106, 0x98d2_20bc, 0xefd5_102a, 0x71b1_8589, 0x06b6_b51f, 0x9fbf_e4a5, 0xe8b8_d433]
    case 9 => [0x7807_c9a2, 0x0f00_f934, 0x9609_a88e, 0xe10e_9818, 0x7f6a_0dbb, 0x086d_3d2d, 0x9164_6c97, 0xe663_5c01]
    case 10 => [0x6b6b_51f4, 0x1c6c_6162, 0x8565_30d8, 0xf262_004e, 0x6c06_95ed, 0x1b01_a57b, 0x8208_f4c1, 0xf50f_c457]
    case 11 => [0x65b0_d9c6, 0x12b7_e950, 0x8bbe_b8ea, 0xfcb9_887c, 0x62dd_1ddf, 0x15da_2d49, 0x8cd3_7cf3, 0xfbd4_4c65]
    case 12 => [0x4db2_6158, 0x3ab5_51ce, 0xa3bc_0074, 0xd4bb_30e2, 0x4adf_a541, 0x3dd8_95d7, 0xa4d1_c46d, 0xd3d6_f4fb]
    case 13 => [0x4369_e96a, 0x346e_d9fc, 0xad67_8846, 0xda60_b8d0, 0x4404_2d73, 0x3303_1de5, 0xaa0a_4c5f, 0xdd0d_7cc9]
    case 14 => [0x5005_713c, 0x2702_41aa, 0xbe0b_1010, 0xc90c_2086, 0x5768_b525, 0x206f_85b3, 0xb966_d409, 0xce61_e49f]
    case _ => [0x5ede_f90e, 0x29d9_c998, 0xb0d0_9822, 0xc7d7_a8b4, 0x59b3_3d17, 0x2eb4_0d81, 0xb7bd_5c3b, 0xc0ba_6cad]
  }

  /** Rows 16 to 23 of the table, eight entries each. */
  function Table2(k: bv8): (row: seq<bv32>)
    ensures |row| == 8
  {
    match k
    case 16 => [0xedb8_8320, 0x9abf_b3b6, 0x03b6_e20c, 0x74b1_d29a, 0xead5_4739, 0x9dd2_77af, 0x04db_2615, 0x73dc_1683]
    case 17 => [0xe363_0b12, 0x9464_3b84, 0x0d6d_6a3e, 0x7a6a_5aa8, 0xe40e_cf0b, 0x9309_ff9d, 0x0a00_ae27, 0x7d07_9eb1]
    case 18 => [0xf00f_9344, 0x8708_a3d2, 0x1e01_f268, 0x6906_c2fe, 0xf762_575d, 0x8065_67cb, 0x196c_3671, 0x6e6b_06e7]
    case 19 => [0xfed4_1b76, 0x89d3_2be0, 0x10da_7a5a, 0x67dd_4acc, 0xf9b9_df6f, 0x8ebe_eff9, 0x17b7_be43, 0x60b0_8ed5]
    case 20 => [0xd6d6_a3e8, 0xa1d1_937e, 0x38d8_c2c4, 0x4fdf_f252, 0xd1bb_67f1, 0xa6bc_5767, 0x3fb5_06dd, 0x48b2_364b]
    case 21 => [0xd80d_2bda, 0xaf0a_1b4c, 0x3603_4af6, 0x4104_7a60, 0xdf60_efc3, 0xa867_df55, 0x316e_8eef, 0x4669_be79]
    case 22 => [0xcb61_b38c, 0xbc66_831a, 0x256f_d2a0, 0x5268_e236, 0xcc0c_7795, 0xbb0b_4703, 0x2202_16b9, 0x5505_262f]
    case _ => [0xc5ba_3bbe, 0xb2bd_0b28, 0x2bb4_5a92, 0x5cb3_6a04, 0xc2d7_ffa7, 0xb5d0_cf31, 0x2cd9_9e8b, 0x5bde_ae1d]
  }

  /** Rows 24 to 31 of the table, eight entries each. */
  function Table3(k: bv8): (row: seq<bv32>)
    ensures |row| == 8
  {
    match k
    case 24 => [0x9b64_c2b0, 0xec63_f226, 0x756a_a39c, 0x026d_930a, 0x9c09_06a9, 0xeb0e_363f, 0x7207_6785, 0x0500_5713]
    case 25 => [0x95bf_4a82, 0xe2b8_7a14, 0x7bb1_2bae, 0x0cb6_1b38, 0x92d2_8e9b, 0xe5d5_be0d, 0x7cdc_efb7, 0x0bdb_df21]
    case 26 => [0x86d3_d2d4, 0xf1d4_e242, 0x68dd_b3f8, 0x1fda_836e, 0x81be_16cd, 0xf6b9_265b, 0x6fb0_77e1, 0x18b7_4777]
    case 27 => [0x8808_5ae6, 0xff0f_6a70, 0x6606_3bca, 0x1101_0b5c, 0x8f65_9eff, 0xf862_ae69, 0x616b_ffd3, 0x166c_cf45]
    case 28 => [0xa00a_e278, 0xd70d_d2ee, 0x4e04_8354, 0x3903_b3c2, 0xa767_2661, 0xd060_16f7, 0x4969_474d, 0x3e6e_77db]
    case 29 => [0xaed1_6a4a, 0xd9d6_5adc, 0x40df_0b66, 0x37d8_3bf0, 0xa9bc_ae53, 0xdebb_9ec5, 0x47b2_cf7f, 0x30b5_ffe9]
    case 30 => [0xbdbd_f21c, 0xcaba_c28a, 0x53b3_9330, 0x24b4_a3a6, 0xbad0_3605, 0xcdd7_0693, 0x54de_5729, 0x23d9_67bf]
    case _ => [0xb366_7a2e, 0xc461_4ab8, 0x5d68_1b02, 0x2a6f_2b94, 0xb40b_be37, 0xc30c_8ea1, 0x5a05_df1b, 0x2d02_ef8d]
  }

  function Row(k: bv8): (row: seq<bv32>)
    ensures |row| == 8
  {
    if k < 8 then Table0(k) else if k < 16 then Table1(k) else if k < 24 then Table2(k) else Table3(k)
  }

  function Entry(i: bv8): bv32 {
    Row(i / 8)[(i % 8) as nat]
  }

  /** Entry i of the row that starts at the byte b is eight shifts of b + i. */
  predicate RowAgrees(row: seq<bv32>, b: bv32) {
    && |row| == 8
    && row[0] == Shift8(b) && row[1] == Shift8(b + 1) && row[2] == Shift8(b + 2) && row[3] == Shift8(b + 3)
    && row[4] == Shift8(b + 4) && row[5] == Shift8(b + 5) && row[6] == Shift8(b + 6) && row[7] == Shift8(b + 7)
  }

  lemma Rows0()
    ensures RowAgrees(Row(0), 0) && RowAgrees(Row(1), 8)
  {
    var r := Row(0);
    assert r[0] == Shift8(0) && r[1] == Shift8(1) && r[2] == Shift8(2) && r[3] == Shift8(3);
    assert r[4] == Shift8(4) && r[5] == Shift8(5) && r[6] == Shift8(6) && r[7] == Shift8(7);
    var s := Row(1);
    assert s[0] == Shift8(8) && s[1] == Shift8(9) && s[2] == Shift8(10) && s[3] == Shift8(11);
    assert s[4] == Shift8(12) && s[5] == Shift8(13) && s[6] == Shift8(14) && s[7] == Shift8(15);
  }

  lemma Rows1()
    ensures RowAgrees(Row(2), 16) && RowAgrees(Row(3), 24)
  {
    var r := Row(2);
    assert r[0] == Shift8(16) && r[1] == Shift8(17) && r[2] == Shift8(18) && r[3] == Shift8(19);
    assert r[4] == Shift8(20) && r[5] == Shift8(21) && r[6] == Shift8(22) && r[7] == Shift8(23);
    var s := Row(3);
    assert s[0] == Shift8(24) && s[1] == Shift8(25) && s[2] == Shift8(26) && s[3] == Shift8(27);
    assert s[4] == Shift8(28) && s[5] == Shift8(29) && s[6] == Shift8(30) && s[7] == Shift8(31);
  }

  lemma Rows2()
    ensures RowAgrees(Row(4), 32) && RowAgrees(Row(5), 40)
  {
    var r := Row(4);
    assert r[0] == Shift8(32) && r[1] == Shift8(33) && r[2] == Shift8(34) && r[3] == Shift8(35);
    assert r[4] == Shift8(36) && r[5] == Shift8(37) && r[6] == Shift8(38) && r[7] == Shift8(39);
    var s := Row(5);
    assert s[0] == Shift8(40) && s[1] == Shift8(41) && s[2] == Shift8(42) && s[3] == Shift8(43);
    assert s[4] == Shift8(44) && s[5] == Shift8(45) && s[6] == Shift8(46) && s[7] == Shift8(47);
  }

  lemma Rows3()
    ensures RowAgrees(Row(6), 48) && RowAgrees(Row(7), 56)
  {
    var r := Row(6);
    assert r[0] == Shift8(48) && r[1] == Shift8(49) && r[2] == Shift8(50) && r[3] == Shift8(51);
    assert r[4] == Shift8(52) && r[5] == Shift8(53) && r[6] == Shift8(54) && r[7] == Shift8(55);
    var s := Row(7);
    assert s[0] == Shift8(56) && s[1] == Shift8(57) && s[2] == Shift8(58) && s[3] == Shift8(59);
    assert s[4] == Shift8(60) && s[5] == Shift8(61) && s[6] == Shift8(62) && s[7] == Shift8(63);
  }

  lemma Rows4()
    ensures RowAgrees(Row(8), 64) && RowAgrees(Row(9), 72)
  {
    var r := Row(8);
    assert r[0] == Shift8(64) && r[1] == Shift8(65) && r[2] == Shift8(66) && r[3] == Shift8(67);
    assert r[4] == Shift8(68) && r[5] == Shift8(69) && r[6] == Shift8(70) && r[7] == Shift8(71);
    var s := Row(9);
    assert s[0] == Shift8(72) && s[1] == Shift8(73) && s[2] == Shift8(74) && s[3] == Shift8(75);
    assert s[4] == Shift8(76) && s[5] == Shift8(77) && s[6] == Shift8(78) && s[7] == Shift8(79);
  }

  lemma Rows5()
    ensures RowAgrees(Row(10), 80) && RowAgrees(Row(11), 88)
  {
    var r := Row(10);
    assert r[0] == Shift8(80) && r[1] == Shift8(81) && r[2] == Shift8(82) && r[3] == Shift8(83);
    assert r[4] == Shift8(84) && r[5] == Shift8(85) && r[6] == Shift8(86) && r[7] == Shift8(87);
    var s := Row(11);
    assert s[0] == Shift8(88) && s[1] == Shift8(89) && s[2] == Shift8(90) && s[3] == Shift8(91);
    assert s[4] == Shift8(92) && s[5] == Shift8(93) && s[6] == Shift8(94) && s[7] == Shift8(95);
  }

  lemma Rows6()
    ensures RowAgrees(Row(12), 96) && RowAgrees(Row(13), 104)
  {
    var r := Row(12);
    assert r[0] == Shift8(96) && r[1] == Shift8(97) && r[2] == Shift8(98) && r[3] == Shift8(99);
    assert r[4] == Shift8(100) && r[5] == Shift8(101) && r[6] == Shift8(102) && r[7] == Shift8(103);
    var s := Row(13);
    assert s[0] == Shift8(104) && s[1] == Shift8(105) && s[2] == Shift8(106) && s[3] == Shift8(107);
    assert s[4] == Shift8(108) && s[5] == Shift8(109) && s[6] == Shift8(110) && s[7] == Shift8(111);
  }

  lemma Rows7()
    ensures RowAgrees(Row(14), 112) && RowAgrees(Row(15), 120)
  {
    var r := Row(14);
    assert r[0] == Shift8(112) && r[1] == Shift8(113) && r[2] == Shift8(114) && r[3] == Shift8(115);
    assert r[4] == Shift8(116) && r[5] == Shift8(117) && r[6] == Shift8(118) && r[7] == Shift8(119);
    var s := Row(15);
    assert s[0] == Shift8(120) && s[1] == Shift8(121) && s[2] == Shift8(122) && s[3] == Shift8(123);
    assert s[4] == Shift8(124) && s[5] == Shift8(125) && s[6] == Shift8(126) && s[7] == Shift8(127);
  }

  lemma Rows8()
    ensures RowAgrees(Row(16), 128) && RowAgrees(Row(17), 136)
  {
    var r := Row(16);
    assert r[0] == Shift8(128) && r[1] == Shift8(129) && r[2] == Shift8(130) && r[3] == Shift8(131);
    assert r[4] == Shift8(132) && r[5] == Shift8(133) && r[6] == Shift8(134) && r[7] == Shift8(135);
    var s := Row(17);
    assert s[0] == Shift8(136) && s[1] == Shift8(137) && s[2] == Shift8(138) && s[3] == Shift8(139);
    assert s[4] == Shift8(140) && s[5] == Shift8(141) && s[6] == Shift8(142) && s[7] == Shift8(143);
  }

  lemma Rows9()
    ensures RowAgrees(Row(18), 144) && RowAgrees(Row(19), 152)
  {
    var r := Row(18);
    assert r[0] == Shift8(144) && r[1] == Shift8(145) && r[2] == Shift8(146) && r[3] == Shift8(147);
    assert r[4] == Shift8(148) && r[5] == Shift8(149) && r[6] == Shift8(150) && r[7] == Shift8(151);
    var s := Row(19);
    assert s[0] == Shift8(152) && s[1] == Shift8(153) && s[2] == Shift8(154) && s[3] == Shift8(155);
    assert s[4] == Shift8(156) && s[5] == Shift8(157) && s[6] == Shift8(158) && s[7] == Shift8(159);
  }

  lemma Rows10()
    ensures RowAgrees(Row(20), 160) && RowAgrees(Row(21), 168)
  {
    var r := Row(20);
    assert r[0] == Shift8(160) && r[1] == Shift8(161) && r[2] == Shift8(162) && r[3] == Shift8(163);
    assert r[4] == Shift8(164) && r[5] == Shift8(165) && r[6] == Shift8(166) && r[7] == Shift8(167);
    var s := Row(21);
    assert s[0] == Shift8(168) && s[1] == Shift8(169) && s[2] == Shift8(170) && s[3] == Shift8(171);
    assert s[4] == Shift8(172) && s[5] == Shift8(173) && s[6] == Shift8(174) && s[7] == Shift8(175);
  }

  lemma Rows11()
    ensures RowAgrees(Row(22), 176) && RowAgrees(Row(23), 184)
  {
    var r := Row(22);
    assert r[0] == Shift8(176) && r[1] == Shift8(177) && r[2] == Shift8(178) && r[3] == Shift8(179);
    assert r[4] == Shift8(180) && r[5] == Shift8(181) && r[6] == Shift8(182) && r[7] == Shift8(183);
    var s := Row(23);
    assert s[0] == Shift8(184) && s[1] == Shift8(185) && s[2] == Shift8(186) && s[3] == Shift8(187);
    assert s[4] == Shift8(188) && s[5] == Shift8(189) && s[6] == Shift8(190) && s[7] == Shift8(191);
  }

  lemma Rows12()
    ensures RowAgrees(Row(24), 192) && RowAgrees(Row(25), 200)
  {
    var r := Row(24);
    assert r[0] == Shift8(192) && r[1] == Shift8(193) && r[2] == Shift8(194) && r[3] == Shift8(195);
    assert r[4] == Shift8(196) && r[5] == Shift8(197) && r[6] == Shift8(198) && r[7] == Shift8(199);
    var s := Row(25);
    assert s[0] == Shift8(200) && s[1] == Shift8(201) && s[2] == Shift8(202) && s[3] == Shift8(203);
    assert s[4] == Shift8(204) && s[5] == Shift8(205) && s[6] == Shift8(206) && s[7] == Shift8(207);
  }

  lemma Rows13()
    ensures RowAgrees(Row(26), 208) && RowAgrees(Row(27), 216)
  {
    var r := Row(26);
    assert r[0] == Shift8(208) && r[1] == Shift8(209) && r[2] == Shift8(210) && r[3] == Shift8(211);
    assert r[4] == Shift8(212) && r[5] == Shift8(213) && r[6] == Shift8(214) && r[7] == Shift8(215);
    var s := Row(27);
    assert s[0] == Shift8(216) && s[1] == Shift8(217) && s[2] == Shift8(218) && s[3] == Shift8(219);
    assert s[4] == Shift8(220) && s[5] == Shift8(221) && s[6] == Shift8(222) && s[7] == Shift8(223);
  }

  lemma Rows14()
    ensures RowAgrees(Row(28), 224) && RowAgrees(Row(29), 232)
  {
    var r := Row(28);
    assert r[0] == Shift8(224) && r[1] == Shift8(225) && r[2] == Shift8(226) && r[3] == Shift8(227);
    assert r[4] == Shift8(228) && r[5] == Shift8(229) && r[6] == Shift8(230) && r[7] == Shift8(231);
    var s := Row(29);
    assert s[0] == Shift8(232) && s[1] == Shift8(233) && s[2] == Shift8(234) && s[3] == Shift8(235);
    assert s[4] == Shift8(236) && s[5] == Shift8(237) && s[6] == Shift8(238) && s[7] == Shift8(239);
  }

  lemma Rows15()
    ensures RowAgrees(Row(30), 240) && RowAgrees(Row(31), 248)
  {
    var r := Row(30);
    assert r[0] == Shift8(240) && r[1] == Shift8(241) && r[2] == Shift8(242) && r[3] == Shift8(243);
    assert r[4] == Shift8(244) && r[5] == Shift8(245) && r[6] == Shift8(246) && r[7] == Shift8(247);
    var s := Row(31);
    assert s[0] == Shift8(248) && s[1] == Shift8(249) && s[2] == Shift8(250) && s[3] == Shift8(251);
    assert s[4] == Shift8(252) && s[5] == Shift8(253) && s[6] == Shift8(254) && s[7] == Shift8(255);
  }

  lemma Columns(i: bv8)
    ensures i % 8 == 0 || i % 8 == 1 || i % 8 == 2 || i % 8 == 3 || i % 8 == 4 || i % 8 == 5 || i % 8 == 6 || i % 8 == 7
  {
  }

  lemma Place(i: bv8, b: bv32, c: bv8)
    requires ((i / 8) as bv32) * 8 == b && i % 8 == c
    ensures i as bv32 == b + (c as bv32)
  {
  }

  lemma Column(row: seq<bv32>, b: bv32, i: bv8)
    requires RowAgrees(row, b) && ((i / 8) as bv32) * 8 == b
    ensures row[(i % 8) as nat] == Shift8(i as bv32)
  {
    Columns(i);
    Place(i, b, i % 8);
  }

  lemma Quarter0(i: bv8)
    requires i < 64
    ensures Entry(i) == Shift8(i as bv32)
  {
    var k := i / 8;
    Rows0();
    Rows1();
    Rows2();
    Rows3();
    Column(Row(k), k as bv32 * 8, i);
  }

  lemma Quarter1(i: bv8)
    requires 64 <= i < 128
    ensures Entry(i) == Shift8(i as bv32)
  {
    var k := i / 8;
    Rows4();
    Rows5();
    Rows6();
    Rows7();
    Column(Row(k), k as bv32 * 8, i);
  }

  lemma Quarter2(i: bv8)
    requires 128 <= i < 192
    ensures Entry(i) == Shift8(i as bv32)
  {
    var k := i / 8;
    Rows8();
    Rows9();
    Rows10();
    Rows11();
    Column(Row(k), k as bv32 * 8, i);
  }

  lemma Quarter3(i: bv8)
    requires i >= 192
    ensures Entry(i) == Shift8(i as bv32)
  {
    var k := i / 8;
    Rows12();
    Rows13();
    Rows14();
    Rows15();
    Column(Row(k), k as bv32 * 8, i);
  }

  /** Every entry of the table is its index after eight shifts. */
  lemma TableIsShift8(i: bv8)
    ensures Entry(i) == Shift8(i as bv32)
  {
    if i < 64 {
      Quarter0(i);
    } else if i < 128 {
      Quarter1(i);
    } else if i < 192 {
      Quarter2(i);
    } else {
      Quarter3(i);
    }
  }

  // The division is linear and can be run backwards.

  lemma XorBits(a: bv32, b: bv32)
    ensures (a ^ b) & 1 == (a & 1) ^ (b & 1)
    ensures (a ^ b) >> 1 == (a >> 1) ^ (b >> 1)
    ensures (a & 1 == 0 || a & 1 == 1) && (b & 1 == 0 || b & 1 == 1)
  {
  }

  lemma XorMoves(x: bv32, y: bv32, p: bv32)
    ensures (x ^ p) ^ (y ^ p) == x ^ y && (x ^ p) ^ y == (x ^ y) ^ p && x ^ (y ^ p) == (x ^ y) ^ p
  {
  }

  lemma XorOnes()
    ensures (1 as bv32) ^ 1 == 0 && (0 as bv32) ^ 1 == 1 && (1 as bv32) ^ 0 == 1 && (0 as bv32) ^ 0 == 0
  {
  }

  /** A step on a sum is the sum of the steps. */
  lemma ShiftLinear(a: bv32, b: bv32) returns (sum: bv32)
    ensures sum == Xor(a, b) && Shift(sum) == Xor(Shift(a), Shift(b))
  {
    sum := a ^ b;
    XorBits(a, b);
    XorOnes();
    XorMoves(a >> 1, b >> 1, POLYNOMIAL);
  }

  lemma ShiftInjective(a: bv32, b: bv32)
    requires Shift(a) == Shift(b)
    ensures a == b
  {
  }

  function Shifts(n: nat, r: bv32): bv32 {
    if n == 0 then r else Shift(Shifts(n - 1, r))
  }

  lemma {:induction false} Shift8IsShifts(r: bv32)
    ensures Shift8(r) == Shifts(8, r)
  {
    hide Shift;
    assert Shifts(1, r) == Shift(r);
    assert Shifts(2, r) == Shift(Shifts(1, r)) && Shifts(3, r) == Shift(Shifts(2, r));
    assert Shifts(4, r) == Shift(Shifts(3, r)) && Shifts(5, r) == Shift(Shifts(4, r));
    assert Shifts(6, r) == Shift(Shifts(5, r)) && Shifts(7, r) == Shift(Shifts(6, r));
    assert Shifts(8, r) == Shift(Shifts(7, r));
  }

  lemma {:induction false} ShiftsLinear(n: nat, a: bv32, b: bv32)
    ensures Shifts(n, Xor(a, b)) == Xor(Shifts(n, a), Shifts(n, b))
  {
    hide Shift, Xor;
    if n > 0 {
      ShiftsLinear(n - 1, a, b);
      var p, q := Shifts(n - 1, a), Shifts(n - 1, b);
      var sum := ShiftLinear(p, q);
    }
  }

  lemma {:induction false} ShiftsInjective(n: nat, a: bv32, b: bv32)
    requires Shifts(n, a) == Shifts(n, b)
    ensures a == b
  {
    hide Shift;
    if n > 0 {
      ShiftInjective(Shifts(n - 1, a), Shifts(n - 1, b));
      ShiftsInjective(n - 1, a, b);
    }
  }

  /** While zeros fall out, shifting is dividing by two. */
  lemma Down1(y: bv32)
    requires y < 0x8000_0000
    ensures Shift(y << 1) == y
  {
  }

  lemma Down2(y: bv32)
    requires y < 0x4000_0000
    ensures Shift(Shift(y << 2)) == y
  {
    hide Shift;
    assert y << 2 == (y << 1) << 1;
    Down1(y << 1);
    Down1(y);
  }

  lemma Down4(y: bv32)
    requires y < 0x1000_0000
    ensures Shift(Shift(Shift(Shift(y << 4)))) == y
  {
    hide Shift;
    assert y << 4 == (y << 2) << 2;
    Down2(y << 2);
    Down2(y);
  }

  lemma Shift8Down(y: bv32)
    requires y < 0x100_0000
    ensures Shift8(y << 8) == y
  {
    hide Shift;
    assert y << 8 == (y << 4) << 4;
    Down4(y << 4);
    Down4(y);
  }

  lemma Shift8Injective(a: bv32, b: bv32)
    requires Shift8(a) == Shift8(b)
    ensures a == b
  {
    hide Shift8;
    Shift8IsShifts(a);
    Shift8IsShifts(b);
    ShiftsInjective(8, a, b);
  }

  // The table step is eight steps of the division.

  function LowByte(r: bv32): bv8 {
    (r & 0xFF) as bv8
  }

  function Up8(y: bv32): bv32 {
    y << 8
  }

  function Down8(x: bv32): bv32 {
    x >> 8
  }

  /** The loop's step: the register with a byte folded in, through the table. */
  function TableNext(r: bv32, b: bv8): bv32 {
    Xor(Entry(LowByte(Xor(r, b as bv32))), Down8(r))
  }

  lemma SplitWord(x: bv32)
    ensures x == Xor(LowByte(x) as bv32, Up8(Down8(x))) && Down8(x) < 0x100_0000
  {
  }

  lemma Up8Back(y: bv32)
    requires y < 0x100_0000
    ensures Shift8(Up8(y)) == y
  {
    hide Shift8;
    Shift8Down(y);
  }

  lemma TableWord(x: bv32)
    ensures Shift8(x) == Xor(Entry(LowByte(x)), Down8(x))
  {
    hide Shift8, Entry, LowByte, Up8, Down8, Xor;
    SplitWord(x);
    Shift8IsShifts(x);
    Shift8IsShifts(LowByte(x) as bv32);
    Shift8IsShifts(Up8(Down8(x)));
    ShiftsLinear(8, LowByte(x) as bv32, Up8(Down8(x)));
    Up8Back(Down8(x));
    TableIsShift8(LowByte(x));
  }

  lemma ByteShiftedOut(r: bv32, b: bv8)
    ensures Down8(Xor(r, b as bv32)) == Down8(r)
  {
  }

  lemma TableStep(r: bv32, b: bv8)
    ensures TableNext(r, b) == Next(r, b)
  {
    hide Shift8, Entry, LowByte, Xor, Down8;
    TableWord(Xor(r, b as bv32));
    ByteShiftedOut(r, b);
  }

  /** The complement of the bit-by-bit remainder, with the register starting at zero. */
  function Checksum(s: seq<bv8>): bv32 {
    Complement(Divide(0, s))
  }

  function Complement(r: bv32): bv32 {
    r ^ 0xFFFF_FFFF
  }

  lemma {:induction false} DivideConcat(r: bv32, s: seq<bv8>, t: seq<bv8>)
    ensures Divide(r, s + t) == Divide(Divide(r, s), t)
    decreases |s|
  {
    hide Next;
    if s == [] {
      assert s + t == t;
    } else {
      assert (s + t)[1..] == s[1..] + t;
      DivideConcat(Next(r, s[0]), s[1..], t);
    }
  }

  lemma {:induction false} DivideMore(r: bv32, s: seq<bv8>, b: bv8)
    ensures Divide(r, s + [b]) == Next(Divide(r, s), b)
  {
    hide Next;
    DivideConcat(r, s, [b]);
    assert [b][1..] == [];
  }

  /** getCRC: the empty buffer returns early, and the loop steps through the table. */
  method GetCRC(buf: array<bv8>, nLength: int) returns (crc: bv32)
    requires nLength <= buf.Length
    ensures crc == Checksum(buf[..if nLength < 0 then 0 else nLength])
  {
    if nLength < 1 {
      return 0xFFFF_FFFF;
    }
    crc := Remainder(buf, nLength);
    crc := crc ^ 0xFFFF_FFFF;
  }

  /** The loop of getCRC. */
  method Remainder(buf: array<bv8>, nLength: int) returns (crc: bv32)
    requires 0 <= nLength <= buf.Length
    ensures crc == Divide(0, buf[..nLength])
  {
    hide Next, TableNext;
    crc := 0;
    var i := 0;
    while i != nLength
      invariant 0 <= i <= nLength
      invariant crc == Divide(0, buf[..i])
    {
      TableStep(crc, buf[i]);
      DivideMore(0, buf[..i], buf[i]);
      assert buf[..i + 1] == buf[..i] + [buf[i]];
      crc := TableNext(crc, buf[i]);
      i := i + 1;
    }
  }

  // Short bursts are detected.

  lemma NextInjective(r: bv32, q: bv32, b: bv8)
    requires Next(r, b) == Next(q, b)
    ensures r == q
  {
    hide Shift8;
    Shift8Injective(Xor(r, b as bv32), Xor(q, b as bv32));
  }

  lemma {:induction false} DivideInjective(r: bv32, q: bv32, s: seq<bv8>)
    requires Divide(r, s) == Divide(q, s)
    ensures r == q
    decreases |s|
  {
    hide Next;
    if s != [] {
      DivideInjective(Next(r, s[0]), Next(q, s[0]), s[1..]);
      NextInjective(r, q, s[0]);
    }
  }

  /** Up to four bytes as one register, the first byte lowest. */
  function Word(s: seq<bv8>): bv32 {
    if s == [] then 0 else Xor(s[0] as bv32, Up8(Word(s[1..])))
  }

  lemma BytesFit(b: bv8, y: bv32)
    ensures y == 0 ==> Xor(b as bv32, Up8(y)) < 0x100
    ensures y < 0x100 ==> Xor(b as bv32, Up8(y)) < 0x1_0000
    ensures y < 0x1_0000 ==> Xor(b as bv32, Up8(y)) < 0x100_0000
  {
  }

  lemma BytesPart(b: bv8, y: bv32)
    requires y < 0x100_0000
    ensures LowByte(Xor(b as bv32, Up8(y))) == b
    ensures Down8(Xor(b as bv32, Up8(y))) == y
  {
  }

  lemma {:induction false} WordFits(s: seq<bv8>)
    requires |s| <= 3
    ensures Word(s) < 0x100_0000
    ensures |s| <= 2 ==> Word(s) < 0x1_0000
    ensures |s| <= 1 ==> Word(s) < 0x100
    decreases |s|
  {
    hide Xor, Up8;
    if s != [] {
      WordFits(s[1..]);
      BytesFit(s[0], Word(s[1..]));
    }
  }

  lemma {:induction false} WordParts(s: seq<bv8>)
    requires 0 < |s| <= 4
    ensures LowByte(Word(s)) == s[0] && Down8(Word(s)) == Word(s[1..])
  {
    hide Xor, Up8, LowByte, Down8;
    WordFits(s[1..]);
    BytesPart(s[0], Word(s[1..]));
  }

  lemma {:induction false} WordInjective(s: seq<bv8>, t: seq<bv8>)
    requires |s| == |t| <= 4 && Word(s) == Word(t)
    ensures s == t
    decreases |s|
  {
    hide Word, LowByte, Down8;
    if s != [] {
      WordParts(s);
      WordParts(t);
      WordInjective(s[1..], t[1..]);
      assert s == [s[0]] + s[1..] && t == [t[0]] + t[1..];
    }
  }

  function Shift8s(n: nat, r: bv32): bv32 {
    if n == 0 then r else Shift8s(n - 1, Shift8(r))
  }

  lemma {:induction false} Shift8sInjective(n: nat, r: bv32, q: bv32)
    requires Shift8s(n, r) == Shift8s(n, q)
    ensures r == q
  {
    hide Shift8;
    if n > 0 {
      Shift8sInjective(n - 1, Shift8(r), Shift8(q));
      Shift8Injective(r, q);
    }
  }

  lemma XorRegroup(a: bv32, b: bv32, c: bv32)
    ensures Xor(Xor(a, b), c) == Xor(a, Xor(b, c))
    ensures Xor(a, 0) == a
  {
  }

  lemma XorCancel(r: bv32, a: bv32, b: bv32)
    requires Xor(r, a) == Xor(r, b)
    ensures a == b
  {
    assert Xor(r, Xor(r, a)) == a && Xor(r, Xor(r, b)) == b;
  }

  /** Dividing up to four bytes is folding them in at once and shifting. */
  lemma {:induction false} DivideWord(r: bv32, s: seq<bv8>)
    requires |s| <= 4
    ensures Divide(r, s) == Shift8s(|s|, Xor(r, Word(s)))
    decreases |s|
  {
    hide Shift8, Xor, Up8;
    if s == [] {
      XorRegroup(r, 0, 0);
    } else {
      var w := Word(s[1..]);
      DivideWord(Next(r, s[0]), s[1..]);
      WordFits(s[1..]);
      Up8Back(w);
      var low := Xor(r, s[0] as bv32);
      Shift8IsShifts(Xor(low, Up8(w)));
      Shift8IsShifts(low);
      Shift8IsShifts(Up8(w));
      ShiftsLinear(8, low, Up8(w));
      XorRegroup(r, s[0] as bv32, Up8(w));
    }
  }

  /** Equal-length buffers that differ only inside four consecutive bytes have different CRCs. */
  lemma BurstDetected(s: seq<bv8>, t: seq<bv8>, w: nat)
    requires |s| == |t| && s != t
    requires forall i :: 0 <= i < |s| && !(w <= i < w + 4) ==> s[i] == t[i]
    ensures Checksum(s) != Checksum(t)
  {
    var lo := if w < |s| then w else |s|;
    var hi := if w + 4 < |s| then w + 4 else |s|;
    var a, b, before, after := s[lo..hi], t[lo..hi], s[..lo], s[hi..];
    assert t[..lo] == before && t[hi..] == after;
    assert s == before + (a + after) && t == before + (b + after);
    if Checksum(s) == Checksum(t) {
      ComplementInjective(Divide(0, s), Divide(0, t));
      BurstsEqual(before, a, b, after);
      assert false;
    }
  }

  lemma ComplementInjective(r: bv32, q: bv32)
    requires Complement(r) == Complement(q)
    ensures r == q
  {
  }

  lemma {:induction false} BurstsEqual(before: seq<bv8>, a: seq<bv8>, b: seq<bv8>, after: seq<bv8>)
    requires |a| == |b| <= 4
    requires Divide(0, before + (a + after)) == Divide(0, before + (b + after))
    ensures a == b
  {
    hide Shift8, Xor, Next;
    var r := Divide(0, before);
    DivideConcat(0, before, a + after);
    DivideConcat(0, before, b + after);
    DivideConcat(r, a, after);
    DivideConcat(r, b, after);
    DivideInjective(Divide(r, a), Divide(r, b), after);
    DivideWord(r, a);
    DivideWord(r, b);
    Shift8sInjective(|a|, Xor(r, Word(a)), Xor(r, Word(b)));
    XorCancel(r, Word(a), Word(b));
    WordInjective(a, b);
  }

  // What the checksum of nothing is, and what a message followed by its own checksum leaves.

  /** The empty message and a message of one byte. */
  lemma SmallChecksums()
    ensures Checksum([]) == 0xFFFF_FFFF
    ensures Checksum([1]) == 0x88F8_CF69
  {
    assert [1 as bv8][1..] == [];
    assert Shift8(1) == 0x7707_3096;
    assert Next(0, 1) == 0x7707_3096;
  }

  /** Thirty-two steps of the division from a register of ones. */
  lemma OnesShifted()
    ensures Shift8s(4, 0xFFFF_FFFF) == 0xDEBB_20E3
  {
    assert Shift8(0xFFFF_FFFF) == 0x2DFD_1072;
    assert Shift8(0x2DFD_1072) == 0xBE26_ED00;
    assert Shift8(0xBE26_ED00) == 0x00BE_26ED;
    assert Shift8(0x00BE_26ED) == 0xDEBB_20E3;
    hide Shift8;
  }

  /** Four bytes side by side, the first one lowest. */
  function Packed(a: bv8, b: bv8, c: bv8, d: bv8): bv32 {
    (a as bv32) | (b as bv32 << 8) | (c as bv32 << 16) | (d as bv32 << 24)
  }

  lemma FourBytes(a: bv8, b: bv8, c: bv8, d: bv8)
    ensures Xor(a as bv32, Up8(Xor(b as bv32, Up8(Xor(c as bv32, Up8(Xor(d as bv32, Up8(0))))))))
         == Packed(a, b, c, d)
  {
  }

  lemma {:induction false} WordUnfolds(a: bv8, b: bv8, c: bv8, d: bv8)
    ensures Word([a, b, c, d])
         == Xor(a as bv32, Up8(Xor(b as bv32, Up8(Xor(c as bv32, Up8(Xor(d as bv32, Up8(0))))))))
  {
    hide Xor, Up8;
    assert [a, b, c, d][1..] == [b, c, d] && [b, c, d][1..] == [c, d] && [c, d][1..] == [d] && [d][1..] == [];
    assert Word([d]) == Xor(d as bv32, Up8(0));
    assert Word([c, d]) == Xor(c as bv32, Up8(Word([d])));
    assert Word([b, c, d]) == Xor(b as bv32, Up8(Word([c, d])));
  }

  lemma {:induction false} WordOfBytes(t: seq<bv8>)
    requires |t| == 4
    ensures Word(t) == Packed(t[0], t[1], t[2], t[3])
  {
    hide Xor, Up8, Packed, Word;
    WordUnfolds(t[0], t[1], t[2], t[3]);
    FourBytes(t[0], t[1], t[2], t[3]);
    assert t == [t[0], t[1], t[2], t[3]];
  }

  lemma OwnComplement(r: bv32)
    ensures Xor(r, Complement(r)) == 0xFFFF_FFFF && Complement(0xDEBB_20E3) == 0x2144_DF1C
  {
  }

  /** A message with four bytes behind it has one fixed checksum, whatever the message, exactly when
      the four bytes are the message's own checksum, the lowest byte first. */
  lemma {:induction false} Residue(s: seq<bv8>, t: seq<bv8>)
    requires |t| == 4
    ensures Checksum(s + t) == 0x2144_DF1C <==> Packed(t[0], t[1], t[2], t[3]) == Checksum(s)
  {
    hide Shift8, Xor, Word, Next, Packed, Complement;
    WordOfBytes(t);
    var r := Divide(0, s);
    DivideConcat(0, s, t);
    DivideWord(r, t);
    OwnComplement(r);
    OnesShifted();
    if Checksum(s + t) == 0x2144_DF1C {
      ComplementInjective(Divide(r, t), 0xDEBB_20E3);
      Shift8sInjective(4, Xor(r, Word(t)), 0xFFFF_FFFF);
      XorCancel(r, Word(t), Complement(r));
    }
  }
}
