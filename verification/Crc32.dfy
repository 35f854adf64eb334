/** nginx/src/core/ngx_crc32.h and the tables of nginx/src/core/ngx_crc32.c. */
module Crc32 {
  import opened Sealing

  type Byte = x: bv32 | x < 256

  /** The polynomial of Annex D of the PNG specification, its lowest power first. */
  const POLY: bv32 := 0xedb8_8320

  // ----- the definition, bit by bit -----

  /** Shifting one bit out: if it is set the polynomial is subtracted. */
  function Shift(x: bv32): bv32 { (x >> 1) ^ (if x & 1 == 1 then POLY else 0) }

  /** The same behind a seal, for proofs about many shifts. */
  function Shifted(s: Seal, x: bv32): bv32 {
    match s
    case Bare => Shift(x)
    case Wrapped(inner) => Shifted(inner, x)
  }

  function Shift1(x: bv32): bv32 { Shifted(SEAL, x) }

  lemma Shift1Is(x: bv32)
    ensures Shift1(x) == Shift(x)
  {
    assert Shifted(Wrapped(Wrapped(Bare)), x) == Shifted(Wrapped(Bare), x) == Shifted(Bare, x);
  }

  /** The sum of two polynomials, behind a seal. */
  function Added(s: Seal, a: bv32, b: bv32): bv32 {
    match s
    case Bare => a ^ b
    case Wrapped(inner) => Added(inner, a, b)
  }

  function Add(a: bv32, b: bv32): bv32 { Added(SEAL, a, b) }

  lemma AddIs(a: bv32, b: bv32)
    ensures Add(a, b) == a ^ b
  {
    assert Added(Wrapped(Wrapped(Bare)), a, b) == Added(Wrapped(Bare), a, b) == Added(Bare, a, b);
  }

  function Shift4(x: bv32): bv32 { Shift1(Shift1(Shift1(Shift1(x)))) }

  function Shift8(x: bv32): bv32 { Shift4(Shift4(x)) }

  /** n bits of the message, the lowest first: each is added to the one shifted out. */
  function BitsIn(crc: bv32, c: bv32, n: nat): bv32
    decreases n
  {
    if n == 0 then crc else BitsIn(Shift1(crc ^ (c & 1)), c >> 1, n - 1)
  }

  /** How many bits a byte has. */
  const WIDTH: nat := 8

  function Update(crc: bv32, data: seq<Byte>): bv32
    decreases |data|
  {
    if data == [] then crc else Update(BitsIn(crc, data[0], WIDTH), data[1..])
  }

  const INIT: bv32 := 0xffff_ffff

  function Crc(data: seq<Byte>): bv32 { Update(INIT, data) ^ INIT }

  // ----- the tables -----

  /** ngx_crc32_table16 */
  function Entry16(i: bv32): bv32 {
    if i == 0 then 0x0000_0000 else if i == 1 then 0x1db7_1064 else if i == 2 then 0x3b6e_20c8 else if i == 3 then 0x26d9_30ac
    else if i == 4 then 0x76dc_4190 else if i == 5 then 0x6b6b_51f4 else if i == 6 then 0x4db2_6158 else if i == 7 then 0x5005_713c
    else if i == 8 then 0xedb8_8320 else if i == 9 then 0xf00f_9344 else if i == 10 then 0xd6d6_a3e8 else if i == 11 then 0xcb61_b38c
    else if i == 12 then 0x9b64_c2b0 else if i == 13 then 0x86d3_d2d4 else if i == 14 then 0xa00a_e278 else 0xbdbd_f21c
  }

  function Row0(i: bv32): bv32 {
    if i == 0 then 0x0000_0000 else if i == 1 then 0x7707_3096 else if i == 2 then 0xee0e_612c else if i == 3 then 0x9909_51ba
    else if i == 4 then 0x076d_c419 else if i == 5 then 0x706a_f48f else if i == 6 then 0xe963_a535 else if i == 7 then 0x9e64_95a3
    else if i == 8 then 0x0edb_8832 else if i == 9 then 0x79dc_b8a4 else if i == 10 then 0xe0d5_e91e else if i == 11 then 0x97d2_d988
    else if i == 12 then 0x09b6_4c2b else if i == 13 then 0x7eb1_7cbd else if i == 14 then 0xe7b8_2d07 else 0x90bf_1d91
  }

  function Row1(i: bv32): bv32 {
    if i == 0 then 0x1db7_1064 else if i == 1 then 0x6ab0_20f2 else if i == 2 then 0xf3b9_7148 else if i == 3 then 0x84be_41de
    else if i == 4 then 0x1ada_d47d else if i == 5 then 0x6ddd_e4eb else if i == 6 then 0xf4d4_b551 else if i == 7 then 0x83d3_85c7
    else if i == 8 then 0x136c_9856 else if i == 9 then 0x646b_a8c0 else if i == 10 then 0xfd62_f97a else if i == 11 then 0x8a65_c9ec
    else if i == 12 then 0x1401_5c4f else if i == 13 then 0x6306_6cd9 else if i == 14 then 0xfa0f_3d63 else 0x8d08_0df5
  }

  function Row2(i: bv32): bv32 {
    if i == 0 then 0x3b6e_20c8 else if i == 1 then 0x4c69_105e else if i == 2 then 0xd560_41e4 else if i == 3 then 0xa267_7172
    else if i == 4 then 0x3c03_e4d1 else if i == 5 then 0x4b04_d447 else if i == 6 then 0xd20d_85fd else if i == 7 then 0xa50a_b56b
    else if i == 8 then 0x35b5_a8fa else if i == 9 then 0x42b2_986c else if i == 10 then 0xdbbb_c9d6 else if i == 11 then 0xacbc_f940
    else if i == 12 then 0x32d8_6ce3 else if i == 13 then 0x45df_5c75 else if i == 14 then 0xdcd6_0dcf else 0xabd1_3d59
  }

  function Row3(i: bv32): bv32 {
    if i == 0 then 0x26d9_30ac else if i == 1 then 0x51de_003a else if i == 2 then 0xc8d7_5180 else if i == 3 then 0xbfd0_6116
    else if i == 4 then 0x21b4_f4b5 else if i == 5 then 0x56b3_c423 else if i == 6 then 0xcfba_9599 else if i == 7 then 0xb8bd_a50f
    else if i == 8 then 0x2802_b89e else if i == 9 then 0x5f05_8808 else if i == 10 then 0xc60c_d9b2 else if i == 11 then 0xb10b_e924
    else if i == 12 then 0x2f6f_7c87 else if i == 13 then 0x5868_4c11 else if i == 14 then 0xc161_1dab else 0xb666_2d3d
  }

  function Row4(i: bv32): bv32 {
    if i == 0 then 0x76dc_4190 else if i == 1 then 0x01db_7106 else if i == 2 then 0x98d2_20bc else if i == 3 then 0xefd5_102a
    else if i == 4 then 0x71b1_8589 else if i == 5 then 0x06b6_b51f else if i == 6 then 0x9fbf_e4a5 else if i == 7 then 0xe8b8_d433
    else if i == 8 then 0x7807_c9a2 else if i == 9 then 0x0f00_f934 else if i == 10 then 0x9609_a88e else if i == 11 then 0xe10e_9818
    else if i == 12 then 0x7f6a_0dbb else if i == 13 then 0x086d_3d2d else if i == 14 then 0x9164_6c97 else 0xe663_5c01
  }

  function Row5(i: bv32): bv32 {
    if i == 0 then 0x6b6b_51f4 else if i == 1 then 0x1c6c_6162 else if i == 2 then 0x8565_30d8 else if i == 3 then 0xf262_004e
    else if i == 4 then 0x6c06_95ed else if i == 5 then 0x1b01_a57b else if i == 6 then 0x8208_f4c1 else if i == 7 then 0xf50f_c457
    else if i == 8 then 0x65b0_d9c6 else if i == 9 then 0x12b7_e950 else if i == 10 then 0x8bbe_b8ea else if i == 11 then 0xfcb9_887c
    else if i == 12 then 0x62dd_1ddf else if i == 13 then 0x15da_2d49 else if i == 14 then 0x8cd3_7cf3 else 0xfbd4_4c65
  }

  function Row6(i: bv32): bv32 {
    if i == 0 then 0x4db2_6158 else if i == 1 then 0x3ab5_51ce else if i == 2 then 0xa3bc_0074 else if i == 3 then 0xd4bb_30e2
    else if i == 4 then 0x4adf_a541 else if i == 5 then 0x3dd8_95d7 else if i == 6 then 0xa4d1_c46d else if i == 7 then 0xd3d6_f4fb
    else if i == 8 then 0x4369_e96a else if i == 9 then 0x346e_d9fc else if i == 10 then 0xad67_8846 else if i == 11 then 0xda60_b8d0
    else if i == 12 then 0x4404_2d73 else if i == 13 then 0x3303_1de5 else if i == 14 then 0xaa0a_4c5f else 0xdd0d_7cc9
  }

  function Row7(i: bv32): bv32 {
    if i == 0 then 0x5005_713c else if i == 1 then 0x2702_41aa else if i == 2 then 0xbe0b_1010 else if i == 3 then 0xc90c_2086
    else if i == 4 then 0x5768_b525 else if i == 5 then 0x206f_85b3 else if i == 6 then 0xb966_d409 else if i == 7 then 0xce61_e49f
    else if i == 8 then 0x5ede_f90e else if i == 9 then 0x29d9_c998 else if i == 10 then 0xb0d0_9822 else if i == 11 then 0xc7d7_a8b4
    else if i == 12 then 0x59b3_3d17 else if i == 13 then 0x2eb4_0d81 else if i == 14 then 0xb7bd_5c3b else 0xc0ba_6cad
  }

  function Row8(i: bv32): bv32 {
    if i == 0 then 0xedb8_8320 else if i == 1 then 0x9abf_b3b6 else if i == 2 then 0x03b6_e20c else if i == 3 then 0x74b1_d29a
    else if i == 4 then 0xead5_4739 else if i == 5 then 0x9dd2_77af else if i == 6 then 0x04db_2615 else if i == 7 then 0x73dc_1683
    else if i == 8 then 0xe363_0b12 else if i == 9 then 0x9464_3b84 else if i == 10 then 0x0d6d_6a3e else if i == 11 then 0x7a6a_5aa8
    else if i == 12 then 0xe40e_cf0b else if i == 13 then 0x9309_ff9d else if i == 14 then 0x0a00_ae27 else 0x7d07_9eb1
  }

  function Row9(i: bv32): bv32 {
    if i == 0 then 0xf00f_9344 else if i == 1 then 0x8708_a3d2 else if i == 2 then 0x1e01_f268 else if i == 3 then 0x6906_c2fe
    else if i == 4 then 0xf762_575d else if i == 5 then 0x8065_67cb else if i == 6 then 0x196c_3671 else if i == 7 then 0x6e6b_06e7
    else if i == 8 then 0xfed4_1b76 else if i == 9 then 0x89d3_2be0 else if i == 10 then 0x10da_7a5a else if i == 11 then 0x67dd_4acc
    else if i == 12 then 0xf9b9_df6f else if i == 13 then 0x8ebe_eff9 else if i == 14 then 0x17b7_be43 else 0x60b0_8ed5
  }

  function Row10(i: bv32): bv32 {
    if i == 0 then 0xd6d6_a3e8 else if i == 1 then 0xa1d1_937e else if i == 2 then 0x38d8_c2c4 else if i == 3 then 0x4fdf_f252
    else if i == 4 then 0xd1bb_67f1 else if i == 5 then 0xa6bc_5767 else if i == 6 then 0x3fb5_06dd else if i == 7 then 0x48b2_364b
    else if i == 8 then 0xd80d_2bda else if i == 9 then 0xaf0a_1b4c else if i == 10 then 0x3603_4af6 else if i == 11 then 0x4104_7a60
    else if i == 12 then 0xdf60_efc3 else if i == 13 then 0xa867_df55 else if i == 14 then 0x316e_8eef else 0x4669_be79
  }

  function Row11(i: bv32): bv32 {
    if i == 0 then 0xcb61_b38c else if i == 1 then 0xbc66_831a else if i == 2 then 0x256f_d2a0 else if i == 3 then 0x5268_e236
    else if i == 4 then 0xcc0c_7795 else if i == 5 then 0xbb0b_4703 else if i == 6 then 0x2202_16b9 else if i == 7 then 0x5505_262f
    else if i == 8 then 0xc5ba_3bbe else if i == 9 then 0xb2bd_0b28 else if i == 10 then 0x2bb4_5a92 else if i == 11 then 0x5cb3_6a04
    else if i == 12 then 0xc2d7_ffa7 else if i == 13 then 0xb5d0_cf31 else if i == 14 then 0x2cd9_9e8b else 0x5bde_ae1d
  }

  function Row12(i: bv32): bv32 {
    if i == 0 then 0x9b64_c2b0 else if i == 1 then 0xec63_f226 else if i == 2 then 0x756a_a39c else if i == 3 then 0x026d_930a
    else if i == 4 then 0x9c09_06a9 else if i == 5 then 0xeb0e_363f else if i == 6 then 0x7207_6785 else if i == 7 then 0x0500_5713
    else if i == 8 then 0x95bf_4a82 else if i == 9 then 0xe2b8_7a14 else if i == 10 then 0x7bb1_2bae else if i == 11 then 0x0cb6_1b38
    else if i == 12 then 0x92d2_8e9b else if i == 13 then 0xe5d5_be0d else if i == 14 then 0x7cdc_efb7 else 0x0bdb_df21
  }

  function Row13(i: bv32): bv32 {
    if i == 0 then 0x86d3_d2d4 else if i == 1 then 0xf1d4_e242 else if i == 2 then 0x68dd_b3f8 else if i == 3 then 0x1fda_836e
    else if i == 4 then 0x81be_16cd else if i == 5 then 0xf6b9_265b else if i == 6 then 0x6fb0_77e1 else if i == 7 then 0x18b7_4777
    else if i == 8 then 0x8808_5ae6 else if i == 9 then 0xff0f_6a70 else if i == 10 then 0x6606_3bca else if i == 11 then 0x1101_0b5c
    else if i == 12 then 0x8f65_9eff else if i == 13 then 0xf862_ae69 else if i == 14 then 0x616b_ffd3 else 0x166c_cf45
  }

  function Row14(i: bv32): bv32 {
    if i == 0 then 0xa00a_e278 else if i == 1 then 0xd70d_d2ee else if i == 2 then 0x4e04_8354 else if i == 3 then 0x3903_b3c2
    else if i == 4 then 0xa767_2661 else if i == 5 then 0xd060_16f7 else if i == 6 then 0x4969_474d else if i == 7 then 0x3e6e_77db
    else if i == 8 then 0xaed1_6a4a else if i == 9 then 0xd9d6_5adc else if i == 10 then 0x40df_0b66 else if i == 11 then 0x37d8_3bf0
    else if i == 12 then 0xa9bc_ae53 else if i == 13 then 0xdebb_9ec5 else if i == 14 then 0x47b2_cf7f else 0x30b5_ffe9
  }

  function Row15(i: bv32): bv32 {
    if i == 0 then 0xbdbd_f21c else if i == 1 then 0xcaba_c28a else if i == 2 then 0x53b3_9330 else if i == 3 then 0x24b4_a3a6
    else if i == 4 then 0xbad0_3605 else if i == 5 then 0xcdd7_0693 else if i == 6 then 0x54de_5729 else if i == 7 then 0x23d9_67bf
    else if i == 8 then 0xb366_7a2e else if i == 9 then 0xc461_4ab8 else if i == 10 then 0x5d68_1b02 else if i == 11 then 0x2a6f_2b94
    else if i == 12 then 0xb40b_be37 else if i == 13 then 0xc30c_8ea1 else if i == 14 then 0x5a05_df1b else 0x2d02_ef8d
  }

  /** ngx_crc32_table256, by rows of 16 */
  function Entry256(i: bv32): bv32 {
    var h, l := i >> 4, i & 15;
    if h == 0 then Row0(l) else if h == 1 then Row1(l) else if h == 2 then Row2(l) else if h == 3 then Row3(l)
    else if h == 4 then Row4(l) else if h == 5 then Row5(l) else if h == 6 then Row6(l) else if h == 7 then Row7(l)
    else if h == 8 then Row8(l) else if h == 9 then Row9(l) else if h == 10 then Row10(l) else if h == 11 then Row11(l)
    else if h == 12 then Row12(l) else if h == 13 then Row13(l) else if h == 14 then Row14(l) else Row15(l)
  }

  /** The tables behind a seal. */
  function Looked(s: Seal, i: bv32, large: bool): bv32 {
    match s
    case Bare => if large then Entry256(i) else Entry16(i)
    case Wrapped(inner) => Looked(inner, i, large)
  }

  function Table16(i: bv32): bv32 { Looked(SEAL, i, false) }

  function Table256(i: bv32): bv32 { Looked(SEAL, i, true) }

  lemma TableIs(i: bv32)
    ensures Table16(i) == Entry16(i) && Table256(i) == Entry256(i)
  {
    assert Looked(Wrapped(Wrapped(Bare)), i, false) == Looked(Wrapped(Bare), i, false) == Looked(Bare, i, false);
    assert Looked(Wrapped(Wrapped(Bare)), i, true) == Looked(Wrapped(Bare), i, true) == Looked(Bare, i, true);
  }

  // ----- shifting is linear -----

  lemma Swap(a: bv32, b: bv32, c: bv32)
    ensures (a ^ b) ^ c == (a ^ c) ^ b
  {
  }

  lemma Cancel(a: bv32, b: bv32, c: bv32)
    ensures (a ^ c) ^ (b ^ c) == a ^ b
  {
  }

  lemma Associate(a: bv32, b: bv32, c: bv32)
    ensures a ^ (b ^ c) == (a ^ b) ^ c
  {
  }

  lemma LowBit(a: bv32, b: bv32)
    ensures ((a ^ b) & 1 == 1) == ((a & 1 == 1) != (b & 1 == 1))
  {
  }

  lemma HighBits(a: bv32, b: bv32)
    ensures (a ^ b) >> 1 == (a >> 1) ^ (b >> 1)
  {
  }

  lemma LinearShift(a: bv32, b: bv32)
    ensures Shift(a ^ b) == Shift(a) ^ Shift(b)
  {
    LowBit(a, b);
    HighBits(a, b);
    Swap(a >> 1, b >> 1, POLY);
    Cancel(a >> 1, b >> 1, POLY);
    Associate(a >> 1, b >> 1, POLY);
  }

  lemma Linear1(a: bv32, b: bv32)
    ensures Shift1(Add(a, b)) == Add(Shift1(a), Shift1(b))
  {
    LinearShift(a, b);
    Equal(a, b, a ^ b, Shift(a), Shift(b), Shift(a ^ b));
  }

  lemma Equal(a: bv32, b: bv32, ab: bv32, fa: bv32, fb: bv32, fab: bv32)
    requires ab == a ^ b && fa == Shift(a) && fb == Shift(b) && fab == Shift(ab) && fab == fa ^ fb
    ensures Shift1(Add(a, b)) == Add(Shift1(a), Shift1(b))
  {
    Shift1Is(a);
    Shift1Is(b);
    Shift1Is(ab);
    AddIs(a, b);
    AddIs(fa, fb);
  }

  lemma Linear4(a: bv32, b: bv32)
    ensures Shift4(Add(a, b)) == Add(Shift4(a), Shift4(b))
  {
    Linear1(a, b);
    var a1, b1 := Shift1(a), Shift1(b);
    Linear1(a1, b1);
    var a2, b2 := Shift1(a1), Shift1(b1);
    Linear1(a2, b2);
    Linear1(Shift1(a2), Shift1(b2));
  }

  // ----- the tables hold what shifting gives -----

  lemma Powers()
    ensures Shift1(0) == 0 && Shift1(8) == 4 && Shift1(4) == 2 && Shift1(2) == 1 && Shift1(1) == 0xedb8_8320
    ensures Shift1(0xedb8_8320) == 0x76dc_4190 && Shift1(0x76dc_4190) == 0x3b6e_20c8 && Shift1(0x3b6e_20c8) == 0x1db7_1064
  {
    Shift1Is(0);
    Shift1Is(8);
    Shift1Is(4);
    Shift1Is(2);
    Shift1Is(1);
    Shift1Is(0xedb8_8320);
    Shift1Is(0x76dc_4190);
    Shift1Is(0x3b6e_20c8);
  }

  lemma Entry16Is(i: bv32)
    requires i < 16
    ensures Shift4(i) == Entry16(i)
  {
    if i < 8 {
      LowEntry(i);
    } else {
      var rest := i ^ 8;
      assert rest < 8 && i == 8 ^ rest;
      LowEntry(rest);
      PowerEntry(8);
      HighEntry(i, rest);
      EntrySum(i, 8, rest);
    }
  }

  lemma HighEntry(i: bv32, rest: bv32)
    requires rest < 8 && i == 8 ^ rest
    ensures Entry16(i) == Entry16(8) ^ Entry16(rest)
  {
    if rest == 0 {} else if rest == 1 {} else if rest == 2 {} else if rest == 3 {} else if rest == 4 {} else if rest == 5 {} else if rest == 6 {} else {}
  }

  lemma LowEntry(i: bv32)
    requires i < 8
    ensures Shift4(i) == Entry16(i)
  {
    LowEntries();
    if i == 0 {} else if i == 1 {} else if i == 2 {} else if i == 3 {} else if i == 4 {} else if i == 5 {} else if i == 6 {} else {}
  }

  lemma LowEntries()
    ensures Shift4(0) == Entry16(0) && Shift4(1) == Entry16(1) && Shift4(2) == Entry16(2) && Shift4(3) == Entry16(3)
    ensures Shift4(4) == Entry16(4) && Shift4(5) == Entry16(5) && Shift4(6) == Entry16(6) && Shift4(7) == Entry16(7)
  {
    Powers();
    PowerEntry(1);
    PowerEntry(2);
    PowerEntry(4);
    EntrySum(3, 2, 1);
    EntrySum(5, 4, 1);
    EntrySum(6, 4, 2);
    EntrySum(7, 4, 3);
  }

  lemma PowerEntry(b: bv32)
    requires b == 1 || b == 2 || b == 4 || b == 8
    ensures Shift4(b) == Entry16(b)
  {
    Powers();
  }

  lemma EntrySum(i: bv32, b: bv32, rest: bv32)
    requires i == b ^ rest && Shift4(b) == Entry16(b) && Shift4(rest) == Entry16(rest) && Entry16(i) == Entry16(b) ^ Entry16(rest)
    ensures Shift4(i) == Entry16(i)
  {
    AddIs(b, rest);
    Linear4(b, rest);
    AddIs(Entry16(b), Entry16(rest));
  }

  lemma Parts4(x: bv32)
    ensures x == (x & 15) ^ ((x >> 4) << 4) && x & 15 < 16
  {
  }

  /** A low zero is shifted out without a trace. */
  lemma High1(x: bv32)
    requires x >> 31 == 0
    ensures Shift1(x << 1) == x
  {
    Shift1Is(x << 1);
    Back1(x);
  }

  lemma Back1(x: bv32)
    requires x >> 31 == 0
    ensures (x << 1) >> 1 == x && (x << 1) & 1 == 0
  {
  }

  lemma High2(x: bv32)
    requires x >> 30 == 0
    ensures Shift1(Shift1((x << 1) << 1)) == x
  {
    Room(x);
    High1(x << 1);
    High1(x);
  }

  lemma Room(x: bv32)
    requires x >> 30 == 0
    ensures (x << 1) >> 31 == 0 && x >> 31 == 0
  {
  }

  lemma High4(x: bv32)
    requires x >> 28 == 0
    ensures Shift4(x << 4) == x
  {
    var y := (x << 1) << 1;
    Room4(x);
    High2(y);
    High2(x);
  }

  lemma Room4(x: bv32)
    requires x >> 28 == 0
    ensures var y := (x << 1) << 1; y >> 30 == 0 && x >> 30 == 0 && x << 4 == (y << 1) << 1
  {
  }

  lemma Small(x: bv32)
    ensures (x >> 4) >> 28 == 0
  {
  }

  lemma Table16Is(i: bv32)
    requires i < 16
    ensures Shift4(i) == Table16(i)
  {
    Entry16Is(i);
    TableIs(i);
  }

  /** Four shifts at once, by the small table. */
  lemma Split4(x: bv32)
    ensures Shift4(x) == Add(Table16(x & 15), x >> 4)
  {
    var lo, hi := x & 15, x >> 4;
    assert lo < 16 by { Parts4(x); }
    PartsAdd(x, lo, hi << 4);
    Table16Is(lo);
    assert Shift4(hi << 4) == hi by { Small(x); High4(hi); }
    Join4(x, lo, hi << 4, Table16(lo), hi);
  }

  lemma PartsAdd(x: bv32, lo: bv32, hi: bv32)
    requires lo == x & 15 && hi == (x >> 4) << 4
    ensures x == Add(lo, hi)
  {
    Parts4(x);
    AddIs(lo, hi);
  }

  lemma Join4(x: bv32, lo: bv32, hi: bv32, t: bv32, h: bv32)
    requires x == Add(lo, hi) && Shift4(lo) == t && Shift4(hi) == h
    ensures Shift4(x) == Add(t, h)
  {
    Linear4(lo, hi);
  }

  /** An entry of the large table, by the small one. */
  function Twice(h: bv32, l: bv32): bv32 { Second(First(h, Entry16(l))) }

  function First(h: bv32, v: bv32): bv32 { v ^ h }

  function Second(y: bv32): bv32 { Sum(Entry16(y & 15), y >> 4) }

  function Sum(a: bv32, b: bv32): bv32 { a ^ b }

  lemma Row0Is(l: bv32)
    requires l < 16
    ensures Row0(l) == Twice(0, l)
  {
    if l < 8 {
      if l == 0 {} else if l == 1 {} else if l == 2 {} else if l == 3 {} else if l == 4 {} else if l == 5 {} else if l == 6 {} else {}
    } else {
      if l == 8 {} else if l == 9 {} else if l == 10 {} else if l == 11 {} else if l == 12 {} else if l == 13 {} else if l == 14 {} else {}
    }
  }

  lemma Row1Is(l: bv32)
    requires l < 16
    ensures Row1(l) == Twice(1, l)
  {
    if l < 8 {
      if l == 0 {} else if l == 1 {} else if l == 2 {} else if l == 3 {} else if l == 4 {} else if l == 5 {} else if l == 6 {} else {}
    } else {
      if l == 8 {} else if l == 9 {} else if l == 10 {} else if l == 11 {} else if l == 12 {} else if l == 13 {} else if l == 14 {} else {}
    }
  }

  lemma Row2Is(l: bv32)
    requires l < 16
    ensures Row2(l) == Twice(2, l)
  {
    if l < 8 {
      if l == 0 {} else if l == 1 {} else if l == 2 {} else if l == 3 {} else if l == 4 {} else if l == 5 {} else if l == 6 {} else {}
    } else {
      if l == 8 {} else if l == 9 {} else if l == 10 {} else if l == 11 {} else if l == 12 {} else if l == 13 {} else if l == 14 {} else {}
    }
  }

  lemma Row3Is(l: bv32)
    requires l < 16
    ensures Row3(l) == Twice(3, l)
  {
    if l < 8 {
      if l == 0 {} else if l == 1 {} else if l == 2 {} else if l == 3 {} else if l == 4 {} else if l == 5 {} else if l == 6 {} else {}
    } else {
      if l == 8 {} else if l == 9 {} else if l == 10 {} else if l == 11 {} else if l == 12 {} else if l == 13 {} else if l == 14 {} else {}
    }
  }

  lemma Row4Is(l: bv32)
    requires l < 16
    ensures Row4(l) == Twice(4, l)
  {
    if l < 8 {
      if l == 0 {} else if l == 1 {} else if l == 2 {} else if l == 3 {} else if l == 4 {} else if l == 5 {} else if l == 6 {} else {}
    } else {
      if l == 8 {} else if l == 9 {} else if l == 10 {} else if l == 11 {} else if l == 12 {} else if l == 13 {} else if l == 14 {} else {}
    }
  }

  lemma Row5Is(l: bv32)
    requires l < 16
    ensures Row5(l) == Twice(5, l)
  {
    if l < 8 {
      if l == 0 {} else if l == 1 {} else if l == 2 {} else if l == 3 {} else if l == 4 {} else if l == 5 {} else if l == 6 {} else {}
    } else {
      if l == 8 {} else if l == 9 {} else if l == 10 {} else if l == 11 {} else if l == 12 {} else if l == 13 {} else if l == 14 {} else {}
    }
  }

  lemma Row6Is(l: bv32)
    requires l < 16
    ensures Row6(l) == Twice(6, l)
  {
    if l < 8 {
      if l == 0 {} else if l == 1 {} else if l == 2 {} else if l == 3 {} else if l == 4 {} else if l == 5 {} else if l == 6 {} else {}
    } else {
      if l == 8 {} else if l == 9 {} else if l == 10 {} else if l == 11 {} else if l == 12 {} else if l == 13 {} else if l == 14 {} else {}
    }
  }

  lemma Row7Is(l: bv32)
    requires l < 16
    ensures Row7(l) == Twice(7, l)
  {
    if l < 8 {
      if l == 0 {} else if l == 1 {} else if l == 2 {} else if l == 3 {} else if l == 4 {} else if l == 5 {} else if l == 6 {} else {}
    } else {
      if l == 8 {} else if l == 9 {} else if l == 10 {} else if l == 11 {} else if l == 12 {} else if l == 13 {} else if l == 14 {} else {}
    }
  }

  lemma Row8Is(l: bv32)
    requires l < 16
    ensures Row8(l) == Twice(8, l)
  {
    if l < 8 {
      if l == 0 {} else if l == 1 {} else if l == 2 {} else if l == 3 {} else if l == 4 {} else if l == 5 {} else if l == 6 {} else {}
    } else {
      if l == 8 {} else if l == 9 {} else if l == 10 {} else if l == 11 {} else if l == 12 {} else if l == 13 {} else if l == 14 {} else {}
    }
  }

  lemma Row9Is(l: bv32)
    requires l < 16
    ensures Row9(l) == Twice(9, l)
  {
    if l < 8 {
      if l == 0 {} else if l == 1 {} else if l == 2 {} else if l == 3 {} else if l == 4 {} else if l == 5 {} else if l == 6 {} else {}
    } else {
      if l == 8 {} else if l == 9 {} else if l == 10 {} else if l == 11 {} else if l == 12 {} else if l == 13 {} else if l == 14 {} else {}
    }
  }

  lemma Row10Is(l: bv32)
    requires l < 16
    ensures Row10(l) == Twice(10, l)
  {
    if l < 8 {
      if l == 0 {} else if l == 1 {} else if l == 2 {} else if l == 3 {} else if l == 4 {} else if l == 5 {} else if l == 6 {} else {}
    } else {
      if l == 8 {} else if l == 9 {} else if l == 10 {} else if l == 11 {} else if l == 12 {} else if l == 13 {} else if l == 14 {} else {}
    }
  }

  lemma Row11Is(l: bv32)
    requires l < 16
    ensures Row11(l) == Twice(11, l)
  {
    if l < 8 {
      if l == 0 {} else if l == 1 {} else if l == 2 {} else if l == 3 {} else if l == 4 {} else if l == 5 {} else if l == 6 {} else {}
    } else {
      if l == 8 {} else if l == 9 {} else if l == 10 {} else if l == 11 {} else if l == 12 {} else if l == 13 {} else if l == 14 {} else {}
    }
  }

  lemma Row12Is(l: bv32)
    requires l < 16
    ensures Row12(l) == Twice(12, l)
  {
    if l < 8 {
      if l == 0 {} else if l == 1 {} else if l == 2 {} else if l == 3 {} else if l == 4 {} else if l == 5 {} else if l == 6 {} else {}
    } else {
      if l == 8 {} else if l == 9 {} else if l == 10 {} else if l == 11 {} else if l == 12 {} else if l == 13 {} else if l == 14 {} else {}
    }
  }

  lemma Row13Is(l: bv32)
    requires l < 16
    ensures Row13(l) == Twice(13, l)
  {
    if l < 8 {
      if l == 0 {} else if l == 1 {} else if l == 2 {} else if l == 3 {} else if l == 4 {} else if l == 5 {} else if l == 6 {} else {}
    } else {
      if l == 8 {} else if l == 9 {} else if l == 10 {} else if l == 11 {} else if l == 12 {} else if l == 13 {} else if l == 14 {} else {}
    }
  }

  lemma Row14Is(l: bv32)
    requires l < 16
    ensures Row14(l) == Twice(14, l)
  {
    if l < 8 {
      if l == 0 {} else if l == 1 {} else if l == 2 {} else if l == 3 {} else if l == 4 {} else if l == 5 {} else if l == 6 {} else {}
    } else {
      if l == 8 {} else if l == 9 {} else if l == 10 {} else if l == 11 {} else if l == 12 {} else if l == 13 {} else if l == 14 {} else {}
    }
  }

  lemma Row15Is(l: bv32)
    requires l < 16
    ensures Row15(l) == Twice(15, l)
  {
    if l < 8 {
      if l == 0 {} else if l == 1 {} else if l == 2 {} else if l == 3 {} else if l == 4 {} else if l == 5 {} else if l == 6 {} else {}
    } else {
      if l == 8 {} else if l == 9 {} else if l == 10 {} else if l == 11 {} else if l == 12 {} else if l == 13 {} else if l == 14 {} else {}
    }
  }

  lemma Entry256Is(i: bv32)
    requires i < 256
    ensures Entry256(i) == Twice(i >> 4, i & 15)
  {
    var h, l := i >> 4, i & 15;
    Nibbles(i);
    if h < 8 {
      if h == 0 { Row0Is(l); } else if h == 1 { Row1Is(l); } else if h == 2 { Row2Is(l); } else if h == 3 { Row3Is(l); }
      else if h == 4 { Row4Is(l); } else if h == 5 { Row5Is(l); } else if h == 6 { Row6Is(l); } else { Row7Is(l); }
    } else {
      if h == 8 { Row8Is(l); } else if h == 9 { Row9Is(l); } else if h == 10 { Row10Is(l); } else if h == 11 { Row11Is(l); }
      else if h == 12 { Row12Is(l); } else if h == 13 { Row13Is(l); } else if h == 14 { Row14Is(l); } else { Row15Is(l); }
    }
  }

  lemma Nibbles(i: bv32)
    requires i < 256
    ensures i & 15 < 16 && i >> 4 < 16
  {
  }

  /** Eight shifts of a byte, by the large table. */
  lemma Byte8(i: bv32)
    requires i < 256
    ensures Shift8(i) == Table256(i)
  {
    var l, h := i & 15, i >> 4;
    Split4(i);
    var y := Add(Table16(l), h);
    Split4(y);
    ByEntries(i, l, h, y);
  }

  lemma ByEntries(i: bv32, l: bv32, h: bv32, y: bv32)
    requires i < 256 && l == i & 15 && h == i >> 4 && y == Add(Table16(l), h)
    ensures Add(Table16(y & 15), y >> 4) == Table256(i)
  {
    TableIs(l);
    FirstIs(h, Entry16(l));
    SecondIs(y);
    Entry256Is(i);
    TableIs(i);
  }

  lemma FirstIs(h: bv32, v: bv32)
    ensures First(h, v) == Add(v, h)
  {
    AddIs(v, h);
  }

  lemma SecondIs(y: bv32)
    ensures Second(y) == Add(Table16(y & 15), y >> 4)
  {
    TableIs(y & 15);
    SumIs(Entry16(y & 15), y >> 4);
  }

  lemma SumIs(a: bv32, b: bv32)
    ensures Sum(a, b) == Add(a, b)
  {
    AddIs(a, b);
  }

  // ----- one byte at a time -----

  lemma Bytes(x: bv32)
    ensures x & 255 < 256 && x == (x & 255) ^ ((x >> 8) << 8) && (x >> 8) >> 24 == 0
  {
  }

  /** Eight shifts at once, by the large table. */
  lemma Split8(x: bv32)
    ensures Shift8(x) == Add(Table256(x & 255), x >> 8)
  {
    var lo, hi := x & 255, x >> 8;
    Parts8(x, lo, hi);
    Byte8(lo);
    High8(hi);
    Join8(x, lo, hi << 8, Table256(lo), hi);
  }

  lemma Parts8(x: bv32, lo: bv32, hi: bv32)
    requires lo == x & 255 && hi == x >> 8
    ensures lo < 256 && x == Add(lo, hi << 8) && hi >> 24 == 0
  {
    Bytes(x);
    AddIs(lo, hi << 8);
  }

  lemma High8(x: bv32)
    requires x >> 24 == 0
    ensures Shift8(x << 8) == x
  {
    Room8(x);
    High4(x << 4);
    High4(x);
  }

  lemma Room8(x: bv32)
    requires x >> 24 == 0
    ensures x >> 28 == 0 && (x << 4) >> 28 == 0 && x << 8 == (x << 4) << 4
  {
  }

  lemma Join8(x: bv32, lo: bv32, hi: bv32, t: bv32, h: bv32)
    requires x == Add(lo, hi) && Shift8(lo) == t && Shift8(hi) == h
    ensures Shift8(x) == Add(t, h)
  {
    Linear4(lo, hi);
    Linear4(Shift4(lo), Shift4(hi));
  }

  /** All bits of c are among its first n. */
  predicate Fits(c: bv32, n: nat)
    decreases n
  {
    if n == 0 then c == 0 else Fits(c >> 1, n - 1)
  }

  function Shifts(x: bv32, n: nat): bv32
    decreases n
  {
    if n == 0 then x else Shifts(Shift1(x), n - 1)
  }

  lemma NoBits(x: bv32)
    ensures Add(x, 0) == x
  {
    AddIs(x, 0);
  }

  /** The next bit may wait until after the shift. */
  lemma OneBit(crc: bv32, c: bv32, x: bv32, hi: bv32)
    requires c >> 31 == 0 && x == crc ^ (c & 1) && hi == c >> 1
    ensures Shift1(Add(crc, c)) == Add(Shift1(x), hi)
  {
    Halves(crc, c, x, hi);
    Linear1(x, hi << 1);
    assert Shift1(hi << 1) == hi by { Top(c); High1(hi); }
  }

  lemma Halves(crc: bv32, c: bv32, x: bv32, hi: bv32)
    requires x == crc ^ (c & 1) && hi == c >> 1
    ensures Add(crc, c) == Add(x, hi << 1)
  {
    XorAdd(crc, c & 1, x);
    PartsOne(c);
    AddAssociates(crc, c & 1, hi << 1);
  }

  lemma PartsOne(c: bv32)
    ensures c == Add(c & 1, (c >> 1) << 1)
  {
    PartsXor(c);
    AddIs(c & 1, (c >> 1) << 1);
  }

  lemma PartsXor(c: bv32)
    ensures c == (c & 1) ^ ((c >> 1) << 1)
  {
  }

  lemma AddAssociates(a: bv32, b: bv32, c: bv32)
    ensures Add(a, Add(b, c)) == Add(Add(a, b), c)
  {
    AddIs(b, c);
    AddIs(a, b);
    OneSum(a, b, c, b ^ c, a ^ b);
  }

  lemma OneSum(a: bv32, b: bv32, c: bv32, bc: bv32, ab: bv32)
    requires bc == b ^ c && ab == a ^ b
    ensures Add(a, bc) == Add(ab, c)
  {
    AddIs(a, bc);
    AddIs(ab, c);
    Associate(a, b, c);
  }

  lemma XorAdd(a: bv32, b: bv32, x: bv32)
    requires x == a ^ b
    ensures x == Add(a, b)
  {
    AddIs(a, b);
  }

  lemma Top(c: bv32)
    ensures (c >> 1) >> 31 == 0
  {
  }

  /** Bits added one by one, or all at once. */
  lemma {:induction false} BitsInIs(crc: bv32, c: bv32, n: nat)
    requires Fits(c, n) && c >> 31 == 0
    ensures BitsIn(crc, c, n) == Shifts(Add(crc, c), n)
    decreases n
  {
    if n == 0 {
      NoBits(crc);
    } else {
      var x, hi := crc ^ (c & 1), c >> 1;
      OneBit(crc, c, x, hi);
      Top(c);
      BitsInIs(Shift1(x), hi, n - 1);
    }
  }

  lemma FitsStep(c: bv32, n: nat)
    ensures Fits(c, n + 1) <==> Fits(c >> 1, n)
  {
  }

  lemma ByteFits(c: Byte)
    ensures Fits(c, WIDTH) && c >> 31 == 0
  {
    var c1 := c >> 1;
    var c2 := c1 >> 1;
    var c3 := c2 >> 1;
    var c4 := c3 >> 1;
    var c5 := c4 >> 1;
    var c6 := c5 >> 1;
    var c7 := c6 >> 1;
    assert c7 >> 1 == 0;
    FitsStep(c7, 0);
    FitsStep(c6, 1);
    FitsStep(c5, 2);
    FitsStep(c4, 3);
    FitsStep(c3, 4);
    FitsStep(c2, 5);
    FitsStep(c1, 6);
    FitsStep(c, 7);
  }

  lemma OneShift(x: bv32, n: nat)
    ensures Shifts(x, n + 1) == Shifts(Shift1(x), n)
  {
  }

  lemma FourShifts(x: bv32, n: nat)
    ensures Shifts(x, n + 4) == Shifts(Shift4(x), n)
  {
    OneShift(x, n + 3);
    OneShift(Shift1(x), n + 2);
    OneShift(Shift1(Shift1(x)), n + 1);
    OneShift(Shift1(Shift1(Shift1(x))), n);
  }

  lemma EightShifts(x: bv32)
    ensures Shifts(x, WIDTH) == Shift8(x)
  {
    FourShifts(x, 4);
    FourShifts(Shift4(x), 0);
  }

  /** A byte added bit by bit, as eight shifts. */
  lemma ByteIn(crc: bv32, c: Byte, x: bv32)
    requires x == crc ^ c
    ensures BitsIn(crc, c, WIDTH) == Shift8(x)
  {
    XorAdd(crc, c, x);
    ByteFits(c);
    BitsInIs(crc, c, WIDTH);
    EightShifts(x);
  }

  lemma Above(crc: bv32, c: Byte, x: bv32)
    requires x == crc ^ c
    ensures x >> 8 == crc >> 8
  {
  }

  /** The turn of the loops over the large table. */
  lemma LongTurn(crc: bv32, c: Byte, x: bv32, h: bv32, t: bv32, r: bv32)
    requires x == crc ^ c && h == crc >> 8 && t == Table256(x & 0xff) && r == t ^ h
    ensures r == BitsIn(crc, c, WIDTH)
  {
    Above(crc, c, x);
    XorAdd(t, h, r);
    ByteIn(crc, c, x);
    LargeStep(x, h, t, r);
  }

  lemma LargeStep(x: bv32, h: bv32, t: bv32, r: bv32)
    requires h == x >> 8 && t == Table256(x & 0xff) && r == Add(t, h)
    ensures r == Shift8(x)
  {
    Split8(x);
  }

  lemma SmallStep(x: bv32, h: bv32, t: bv32, r: bv32)
    requires h == x >> 4 && t == Table16(x & 0xf) && r == Add(t, h)
    ensures r == Shift4(x)
  {
    Split4(x);
  }

  lemma BelowIndex(crc: bv32, c: Byte, x: bv32, i: bv32)
    requires x == crc ^ c && i == (crc ^ (c & 0xf)) & 0xf
    ensures i == x & 0xf
  {
  }

  lemma BelowHigh(crc: bv32, c: Byte, x: bv32, h: bv32, u: bv32)
    requires x == crc ^ c && h == crc >> 4 && u == c >> 4
    ensures x >> 4 == h ^ u && u >> 4 == 0
  {
  }

  lemma Above4(crc: bv32, h: bv32, x: bv32)
    requires h >> 4 == 0 && x == crc ^ h
    ensures x >> 4 == crc >> 4
  {
  }

  /** The first half of a turn of the loop over the small table; the upper half of the byte
      is still to be added. */
  lemma ShortHalf(h: bv32, u: bv32, x: bv32, t: bv32, r: bv32, y: bv32)
    requires x >> 4 == h ^ u && t == Table16(x & 0xf) && r == t ^ h && y == r ^ u
    ensures y == Shift4(x)
  {
    Associate(t, h, u);
    XorAdd(t, h ^ u, y);
    SmallStep(x, h ^ u, t, y);
  }

  /** And the second. */
  lemma ShortTurn(crc: bv32, c: Byte, x: bv32, y: bv32, h: bv32, t: bv32, r: bv32)
    requires x == crc ^ c && y == Shift4(x) && h == y >> 4 && t == Table16(y & 0xf) && r == t ^ h
    ensures r == BitsIn(crc, c, WIDTH)
  {
    XorAdd(t, h, r);
    SmallStep(y, h, t, r);
    ByteIn(crc, c, x);
  }

  // ----- whole messages -----

  lemma UpdateSnoc(crc: bv32, data: seq<Byte>, i: nat)
    requires i < |data|
    ensures Update(crc, data[..i + 1]) == BitsIn(Update(crc, data[..i]), data[i], WIDTH)
  {
    assert data[..i + 1] == data[..i] + [data[i]];
    UpdateSplit(crc, data[..i], [data[i]]);
    UpdateOne(Update(crc, data[..i]), data[i]);
  }

  lemma UpdateOne(crc: bv32, c: Byte)
    ensures Update(crc, [c]) == BitsIn(crc, c, WIDTH)
  {
    assert [c][1..] == [];
  }

  /** Two parts of a message one after the other, or both in one pass. */
  lemma {:induction false} UpdateSplit(crc: bv32, a: seq<Byte>, b: seq<Byte>)
    ensures Update(crc, a + b) == Update(Update(crc, a), b)
    decreases |a|
  {
    if a == [] {
      assert a + b == b;
    } else {
      UpdateSplit(BitsIn(crc, a[0], WIDTH), a[1..], b);
      assert (a + b)[1..] == a[1..] + b;
    }
  }

  // ----- known values -----

  /** Nothing has the checksum zero. */
  lemma NothingCheck()
    ensures Crc([]) == 0
  {
  }

  lemma CheckStep(crc: bv32, c: Byte, x: bv32, i: bv32, t: bv32, r: bv32)
    requires x == crc ^ c && i == x & 0xff && t == Entry256(i) && r == t ^ (crc >> 8)
    ensures BitsIn(crc, c, WIDTH) == r
  {
    TableIs(i);
    LongTurn(crc, c, x, crc >> 8, t, r);
  }

  /** Byte after byte. */
  lemma {:induction false} Chain(states: seq<bv32>, msg: seq<Byte>)
    requires |states| == |msg| + 1 && forall k :: 0 <= k < |msg| ==> BitsIn(states[k], msg[k], WIDTH) == states[k + 1]
    ensures Update(states[0], msg) == states[|msg|]
    decreases |msg|
  {
    if msg != [] { Chain(states[1..], msg[1..]); }
  }

  /** The value that catalogues of checksums give for the digits from 1 to 9. */
  lemma DigitsCheck(msg: seq<Byte>)
    requires msg == [0x31, 0x32, 0x33, 0x34, 0x35, 0x36, 0x37, 0x38, 0x39]
    ensures Crc(msg) == 0xcbf4_3926
  {
    var states := seq(10, k requires 0 <= k < 10 => After(k));
    forall k | 0 <= k < 9 ensures BitsIn(states[k], msg[k], WIDTH) == states[k + 1] { NextDigit(k, states[k], msg[k]); }
    Chain(states, msg);
  }

  /** What stands after k digits. */
  function After(k: nat): bv32 {
    if k == 0 then 0xffff_ffff
    else if k == 1 then 0x7c23_1048
    else if k == 2 then 0xb0ac_bb32
    else if k == 3 then 0x77b7_9c2d
    else if k == 4 then 0x641c_1f5c
    else if k == 5 then 0x340a_c5e3
    else if k == 6 then 0xf68d_2c9e
    else if k == 7 then 0xaffc_9660
    else if k == 8 then 0x651f_2550
    else 0x340b_c6d9
  }

  lemma NextDigit(k: nat, crc: bv32, c: Byte)
    requires k < 9 && crc == After(k)
    requires c == match k case 0 => 0x31 case 1 => 0x32 case 2 => 0x33 case 3 => 0x34 case 4 => 0x35 case 5 => 0x36
                          case 6 => 0x37 case 7 => 0x38 case _ => 0x39
    ensures BitsIn(crc, c, WIDTH) == After(k + 1)
  {
    match k
    case 0 => Digit1(crc, c);
    case 1 => Digit2(crc, c);
    case 2 => Digit3(crc, c);
    case 3 => Digit4(crc, c);
    case 4 => Digit5(crc, c);
    case 5 => Digit6(crc, c);
    case 6 => Digit7(crc, c);
    case 7 => Digit8(crc, c);
    case _ => Digit9(crc, c);
  }

  lemma Digit1(crc: bv32, c: Byte)
    requires crc == 0xffff_ffff && c == 0x31
    ensures BitsIn(crc, c, WIDTH) == 0x7c23_1048
  {
    var x := crc ^ c;
    assert x & 0xff == 0xce && crc >> 8 == 0x00ff_ffff;
    CheckStep(crc, c, x, 0xce, 0x7cdc_efb7, 0x7c23_1048);
  }

  lemma Digit2(crc: bv32, c: Byte)
    requires crc == 0x7c23_1048 && c == 0x32
    ensures BitsIn(crc, c, WIDTH) == 0xb0ac_bb32
  {
    var x := crc ^ c;
    assert x & 0xff == 0x7a && crc >> 8 == 0x007c_2310;
    CheckStep(crc, c, x, 0x7a, 0xb0d0_9822, 0xb0ac_bb32);
  }

  lemma Digit3(crc: bv32, c: Byte)
    requires crc == 0xb0ac_bb32 && c == 0x33
    ensures BitsIn(crc, c, WIDTH) == 0x77b7_9c2d
  {
    var x := crc ^ c;
    assert x & 0xff == 0x01 && crc >> 8 == 0x00b0_acbb;
    CheckStep(crc, c, x, 0x01, 0x7707_3096, 0x77b7_9c2d);
  }

  lemma Digit4(crc: bv32, c: Byte)
    requires crc == 0x77b7_9c2d && c == 0x34
    ensures BitsIn(crc, c, WIDTH) == 0x641c_1f5c
  {
    var x := crc ^ c;
    assert x & 0xff == 0x19 && crc >> 8 == 0x0077_b79c;
    CheckStep(crc, c, x, 0x19, 0x646b_a8c0, 0x641c_1f5c);
  }

  lemma Digit5(crc: bv32, c: Byte)
    requires crc == 0x641c_1f5c && c == 0x35
    ensures BitsIn(crc, c, WIDTH) == 0x340a_c5e3
  {
    var x := crc ^ c;
    assert x & 0xff == 0x69 && crc >> 8 == 0x0064_1c1f;
    CheckStep(crc, c, x, 0x69, 0x346e_d9fc, 0x340a_c5e3);
  }

  lemma Digit6(crc: bv32, c: Byte)
    requires crc == 0x340a_c5e3 && c == 0x36
    ensures BitsIn(crc, c, WIDTH) == 0xf68d_2c9e
  {
    var x := crc ^ c;
    assert x & 0xff == 0xd5 && crc >> 8 == 0x0034_0ac5;
    CheckStep(crc, c, x, 0xd5, 0xf6b9_265b, 0xf68d_2c9e);
  }

  lemma Digit7(crc: bv32, c: Byte)
    requires crc == 0xf68d_2c9e && c == 0x37
    ensures BitsIn(crc, c, WIDTH) == 0xaffc_9660
  {
    var x := crc ^ c;
    assert x & 0xff == 0xa9 && crc >> 8 == 0x00f6_8d2c;
    CheckStep(crc, c, x, 0xa9, 0xaf0a_1b4c, 0xaffc_9660);
  }

  lemma Digit8(crc: bv32, c: Byte)
    requires crc == 0xaffc_9660 && c == 0x38
    ensures BitsIn(crc, c, WIDTH) == 0x651f_2550
  {
    var x := crc ^ c;
    assert x & 0xff == 0x58 && crc >> 8 == 0x00af_fc96;
    CheckStep(crc, c, x, 0x58, 0x65b0_d9c6, 0x651f_2550);
  }

  lemma Digit9(crc: bv32, c: Byte)
    requires crc == 0x651f_2550 && c == 0x39
    ensures BitsIn(crc, c, WIDTH) == 0x340b_c6d9
  {
    var x := crc ^ c;
    assert x & 0xff == 0x69 && crc >> 8 == 0x0065_1f25;
    CheckStep(crc, c, x, 0x69, 0x346e_d9fc, 0x340b_c6d9);
  }

  /** The source looks up the index before it adds the upper half of the byte. */
  lemma FirstHalf(crc: bv32, c: Byte, x: bv32, i: bv32, h: bv32, u: bv32, t: bv32, crc1: bv32, y: bv32)
    requires x == crc ^ c && i == (crc ^ (c & 0xf)) & 0xf && h == crc >> 4 && u == c >> 4
    requires t == Table16(i) && crc1 == t ^ h && y == crc1 ^ u
    ensures y == Shift4(x) && u >> 4 == 0
  {
    BelowIndex(crc, c, x, i);
    BelowHigh(crc, c, x, h, u);
    ShortHalf(h, u, x, t, crc1, y);
  }

  lemma SecondHalf(crc: bv32, c: Byte, x: bv32, u: bv32, crc1: bv32, y: bv32, h: bv32, t: bv32, r: bv32)
    requires x == crc ^ c && u >> 4 == 0 && y == crc1 ^ u && y == Shift4(x)
    requires h == crc1 >> 4 && t == Table16(y & 0xf) && r == t ^ h
    ensures r == BitsIn(crc, c, WIDTH)
  {
    Above4(crc1, u, y);
    ShortTurn(crc, c, x, y, h, t, r);
  }

  /** The body of the loop of ngx_crc32_short. */
  method ShortByte(crc: bv32, c: Byte) returns (r: bv32)
    ensures r == BitsIn(crc, c, WIDTH)
  {
    var i := (crc ^ (c & 0xf)) & 0xf;
    var h, u := crc >> 4, c >> 4;
    var t := Table16(i);
    var crc1 := t ^ h;
    var y := crc1 ^ u;
    FirstHalf(crc, c, crc ^ c, i, h, u, t, crc1, y);
    var h1, t1 := crc1 >> 4, Table16(y & 0xf);
    r := t1 ^ h1;
    SecondHalf(crc, c, crc ^ c, u, crc1, y, h1, t1, r);
  }

  /** The body of the loops over the large table. */
  method LongByte(crc: bv32, c: Byte) returns (r: bv32)
    ensures r == BitsIn(crc, c, WIDTH)
  {
    var x := crc ^ c;
    var t := Table256(x & 0xff);
    r := t ^ (crc >> 8);
    LongTurn(crc, c, x, crc >> 8, t, r);
  }

  /** ngx_crc32_short */
  method CrcShort(data: seq<Byte>) returns (crc: bv32)
    ensures crc == Crc(data)
  {
    crc := 0xffff_ffff;
    var i := 0;
    while i < |data|
      invariant i <= |data| && crc == Update(INIT, data[..i])
    {
      UpdateSnoc(INIT, data, i);
      crc := ShortByte(crc, data[i]);
      i := i + 1;
    }
    assert data[..i] == data;
    crc := crc ^ 0xffff_ffff;
  }

  /** ngx_crc32_long */
  method CrcLong(data: seq<Byte>) returns (crc: bv32)
    ensures crc == Crc(data)
  {
    crc := UpdateLong(0xffff_ffff, data);
    crc := crc ^ 0xffff_ffff;
  }

  /** ngx_crc32_update, and the loop of ngx_crc32_long */
  method UpdateLong(crc0: bv32, data: seq<Byte>) returns (crc: bv32)
    ensures crc == Update(crc0, data)
  {
    crc := crc0;
    var i := 0;
    while i < |data|
      invariant i <= |data| && crc == Update(crc0, data[..i])
    {
      UpdateSnoc(crc0, data, i);
      crc := LongByte(crc, data[i]);
      i := i + 1;
    }
    assert data[..i] == data;
  }
}
