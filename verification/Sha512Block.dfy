/**
 SHA-512 on one block: section 6.4.2 of FIPS 180-4, and the vector-shaped form of
 sha512_utils.rs, with two words per register in reversed lane order, ten rotating message
 registers and four state registers that take turns in receiving the new pair.
 */
module Sha512Block {
  import opened Sha512Bits

  /** consts.rs, K64. */
  function K64(t: nat): u64
    requires t < 80
  {
    match t
    case 0 => 0x428a_2f98_d728_ae22
    case 1 => 0x7137_4491_23ef_65cd
    case 2 => 0xb5c0_fbcf_ec4d_3b2f
    case 3 => 0xe9b5_dba5_8189_dbbc
    case 4 => 0x3956_c25b_f348_b538
    case 5 => 0x59f1_11f1_b605_d019
    case 6 => 0x923f_82a4_af19_4f9b
    case 7 => 0xab1c_5ed5_da6d_8118
    case 8 => 0xd807_aa98_a303_0242
    case 9 => 0x1283_5b01_4570_6fbe
    case 10 => 0x2431_85be_4ee4_b28c
    case 11 => 0x550c_7dc3_d5ff_b4e2
    case 12 => 0x72be_5d74_f27b_896f
    case 13 => 0x80de_b1fe_3b16_96b1
    case 14 => 0x9bdc_06a7_25c7_1235
    case 15 => 0xc19b_f174_cf69_2694
    case 16 => 0xe49b_69c1_9ef1_4ad2
    case 17 => 0xefbe_4786_384f_25e3
    case 18 => 0x0fc1_9dc6_8b8c_d5b5
    case 19 => 0x240c_a1cc_77ac_9c65
    case 20 => 0x2de9_2c6f_592b_0275
    case 21 => 0x4a74_84aa_6ea6_e483
    case 22 => 0x5cb0_a9dc_bd41_fbd4
    case 23 => 0x76f9_88da_8311_53b5
    case 24 => 0x983e_5152_ee66_dfab
    case 25 => 0xa831_c66d_2db4_3210
    case 26 => 0xb003_27c8_98fb_213f
    case 27 => 0xbf59_7fc7_beef_0ee4
    case 28 => 0xc6e0_0bf3_3da8_8fc2
    case 29 => 0xd5a7_9147_930a_a725
    case 30 => 0x06ca_6351_e003_826f
    case 31 => 0x1429_2967_0a0e_6e70
    case 32 => 0x27b7_0a85_46d2_2ffc
    case 33 => 0x2e1b_2138_5c26_c926
    case 34 => 0x4d2c_6dfc_5ac4_2aed
    case 35 => 0x5338_0d13_9d95_b3df
    case 36 => 0x650a_7354_8baf_63de
    case 37 => 0x766a_0abb_3c77_b2a8
    case 38 => 0x81c2_c92e_47ed_aee6
    case 39 => 0x9272_2c85_1482_353b
    case 40 => 0xa2bf_e8a1_4cf1_0364
    case 41 => 0xa81a_664b_bc42_3001
    case 42 => 0xc24b_8b70_d0f8_9791
    case 43 => 0xc76c_51a3_0654_be30
    case 44 => 0xd192_e819_d6ef_5218
    case 45 => 0xd699_0624_5565_a910
    case 46 => 0xf40e_3585_5771_202a
    case 47 => 0x106a_a070_32bb_d1b8
    case 48 => 0x19a4_c116_b8d2_d0c8
    case 49 => 0x1e37_6c08_5141_ab53
    case 50 => 0x2748_774c_df8e_eb99
    case 51 => 0x34b0_bcb5_e19b_48a8
    case 52 => 0x391c_0cb3_c5c9_5a63
    case 53 => 0x4ed8_aa4a_e341_8acb
    case 54 => 0x5b9c_ca4f_7763_e373
    case 55 => 0x682e_6ff3_d6b2_b8a3
    case 56 => 0x748f_82ee_5def_b2fc
    case 57 => 0x78a5_636f_4317_2f60
    case 58 => 0x84c8_7814_a1f0_ab72
    case 59 => 0x8cc7_0208_1a64_39ec
    case 60 => 0x90be_fffa_2363_1e28
    case 61 => 0xa450_6ceb_de82_bde9
    case 62 => 0xbef9_a3f7_b2c6_7915
    case 63 => 0xc671_78f2_e372_532b
    case 64 => 0xca27_3ece_ea26_619c
    case 65 => 0xd186_b8c7_21c0_c207
    case 66 => 0xeada_7dd6_cde0_eb1e
    case 67 => 0xf57d_4f7f_ee6e_d178
    case 68 => 0x06f0_67aa_7217_6fba
    case 69 => 0x0a63_7dc5_a2c8_98a6
    case 70 => 0x113f_9804_bef9_0dae
    case 71 => 0x1b71_0b35_131c_471b
    case 72 => 0x28db_77f5_2304_7d84
    case 73 => 0x32ca_ab7b_40c7_2493
    case 74 => 0x3c9e_be0a_15c9_bebc
    case 75 => 0x431d_67c4_9c10_0d4c
    case 76 => 0x4cc5_d4be_cb3e_42b6
    case 77 => 0x597f_299c_fc65_7e2a
    case 78 => 0x5fcb_6fab_3ad6_faec
    case 79 => 0x6c44_198c_4a47_5817
  }

  // ----- FIPS 180-4, section 6.4.2 -----

  type Block = b: seq<u64> | |b| == 16 witness seq(16, _ => 0)

  datatype Hash = Hash(a: u64, b: u64, c: u64, d: u64, e: u64, f: u64, g: u64, h: u64)

  /** The message schedule. */
  function W(m: Block, t: nat): u64 {
    if t < 16 then m[t]
    else Plus(Plus(Plus(Sigma1(W(m, t - 2)), W(m, t - 7)), Sigma0(W(m, t - 15))), W(m, t - 16))
  }

  function Round(s: Hash, k: u64, w: u64): Hash {
    var t1 := Plus(Plus(Plus(Plus(s.h, BigSigma1(s.e)), Ch(s.e, s.f, s.g)), k), w);
    var t2 := Plus(BigSigma0(s.a), Maj(s.a, s.b, s.c));
    Hash(Plus(t1, t2), s.a, s.b, s.c, Plus(s.d, t1), s.e, s.f, s.g)
  }

  /** The working variables after `t` rounds. */
  function Rounds(s: Hash, m: Block, t: nat): Hash
    requires t <= 80
  {
    if t == 0 then s else Round(Rounds(s, m, t - 1), K64(t - 1), W(m, t - 1))
  }

  function Compress(s: Hash, m: Block): Hash {
    var r := Rounds(s, m, 80);
    Hash(Plus(s.a, r.a), Plus(s.b, r.b), Plus(s.c, r.c), Plus(s.d, r.d),
         Plus(s.e, r.e), Plus(s.f, r.f), Plus(s.g, r.g), Plus(s.h, r.h))
  }

  // ----- sha512_utils.rs -----

  datatype U64x2 = U64x2(x0: u64, x1: u64)

  function Add(u: U64x2, v: U64x2): U64x2 {
    U64x2(Plus(u.x0, v.x0), Plus(u.x1, v.x1))
  }

  /** consts.rs, K64X2. */
  function K64X2(i: nat): U64x2
    requires i < 40
  {
    [
      U64x2(K64(1), K64(0)), U64x2(K64(3), K64(2)), U64x2(K64(5), K64(4)), U64x2(K64(7), K64(6)),
      U64x2(K64(9), K64(8)), U64x2(K64(11), K64(10)), U64x2(K64(13), K64(12)), U64x2(K64(15), K64(14)),
      U64x2(K64(17), K64(16)), U64x2(K64(19), K64(18)), U64x2(K64(21), K64(20)), U64x2(K64(23), K64(22)),
      U64x2(K64(25), K64(24)), U64x2(K64(27), K64(26)), U64x2(K64(29), K64(28)), U64x2(K64(31), K64(30)),
      U64x2(K64(33), K64(32)), U64x2(K64(35), K64(34)), U64x2(K64(37), K64(36)), U64x2(K64(39), K64(38)),
      U64x2(K64(41), K64(40)), U64x2(K64(43), K64(42)), U64x2(K64(45), K64(44)), U64x2(K64(47), K64(46)),
      U64x2(K64(49), K64(48)), U64x2(K64(51), K64(50)), U64x2(K64(53), K64(52)), U64x2(K64(55), K64(54)),
      U64x2(K64(57), K64(56)), U64x2(K64(59), K64(58)), U64x2(K64(61), K64(60)), U64x2(K64(63), K64(62)),
      U64x2(K64(65), K64(64)), U64x2(K64(67), K64(66)), U64x2(K64(69), K64(68)), U64x2(K64(71), K64(70)),
      U64x2(K64(73), K64(72)), U64x2(K64(75), K64(74)), U64x2(K64(77), K64(76)), U64x2(K64(79), K64(78))
    ][i]
  }

  function Load(v0: U64x2, v1: U64x2): U64x2 {
    U64x2(v1.x1, v0.x0)
  }

  function ScheduleX2(v0: U64x2, v1: U64x2, v4to5: U64x2, v7: U64x2): U64x2 {
    var U64x2(w1, w0) := v0;
    var U64x2(_, w2) := v1;
    var U64x2(w10, w9) := v4to5;
    var U64x2(w15, w14) := v7;
    var w16 := Plus(Plus(Plus(ShiftedSigma1(w14), w9), ShiftedSigma0(w1)), w0);
    var w17 := Plus(Plus(Plus(ShiftedSigma1(w15), w10), ShiftedSigma0(w2)), w1);
    U64x2(w17, w16)
  }

  function Schedule(v0: U64x2, v1: U64x2, v4: U64x2, v5: U64x2, v7: U64x2): U64x2 {
    ScheduleX2(v0, v1, Load(v4, v5), v7)
  }

  /** One round: the new pair (a, e). */
  function DigestRound(ae: U64x2, bf: U64x2, cg: U64x2, dh: U64x2, wk0: u64): U64x2 {
    var U64x2(a0, e0) := ae;
    var U64x2(b0, f0) := bf;
    var U64x2(c0, g0) := cg;
    var U64x2(d0, h0) := dh;
    var x0 := Plus(Plus(Plus(BigSigma1(e0), Choose(e0, f0, g0)), wk0), h0);
    var y0 := Plus(BigSigma0(a0), Maj(a0, b0, c0));
    U64x2(Plus(x0, y0), Plus(x0, d0))
  }

  // ----- the message registers -----

  /** Two schedule words, the higher index in the lower lane. */
  function Lanes(m: Block, i: nat): U64x2 {
    U64x2(W(m, 2 * i + 1), W(m, 2 * i))
  }

  lemma {:induction false} ScheduleWord(m: Block, t: nat)
    ensures W(m, t + 16) ==
            Plus(Plus(Plus(ShiftedSigma1(W(m, t + 14)), W(m, t + 9)), ShiftedSigma0(W(m, t + 1))), W(m, t))
  {
    hide Plus, Sigma0, Sigma1, ShiftedSigma0, ShiftedSigma1;
    ShiftsAreRotations(W(m, t + 1));
    ShiftsAreRotations(W(m, t + 14));
  }

  /** One vector step computes the next two words of the schedule. */
  lemma {:induction false} ScheduleStep(m: Block, i: nat)
    ensures Schedule(Lanes(m, i), Lanes(m, i + 1), Lanes(m, i + 4), Lanes(m, i + 5), Lanes(m, i + 7)) == Lanes(m, i + 8)
  {
    hide W, Plus, ShiftedSigma0, ShiftedSigma1;
    ScheduleWord(m, 2 * i);
    ScheduleWord(m, 2 * i + 1);
  }

  lemma {:induction false} FirstLanes(m: Block, i: nat)
    requires i < 8
    ensures Lanes(m, i) == U64x2(m[2 * i + 1], m[2 * i])
  {
  }

  // ----- the state registers -----

  function AE(s: Hash): U64x2 {
    U64x2(s.a, s.e)
  }

  function BF(s: Hash): U64x2 {
    U64x2(s.b, s.f)
  }

  function CG(s: Hash): U64x2 {
    U64x2(s.c, s.g)
  }

  function DH(s: Hash): U64x2 {
    U64x2(s.d, s.h)
  }

  lemma {:induction false} ReorderFive(s: u64, c: u64, k: u64, w: u64, h: u64)
    ensures Plus(Plus(Plus(s, c), Plus(k, w)), h) == Plus(Plus(Plus(Plus(h, s), c), k), w)
  {
    hide Plus;
    PlusCommutes(Plus(Plus(s, c), Plus(k, w)), h);
    PlusAssociates(h, Plus(s, c), Plus(k, w));
    PlusAssociates(h, s, c);
    PlusAssociates(Plus(Plus(h, s), c), k, w);
  }

  /** A round computes one register; the other three keep their contents and change roles. */
  lemma {:induction false} OneRound(s: Hash, k: u64, w: u64)
    ensures var s1 := Round(s, k, w);
            && DigestRound(AE(s), BF(s), CG(s), DH(s), Plus(k, w)) == AE(s1)
            && BF(s1) == AE(s) && CG(s1) == BF(s) && DH(s1) == CG(s)
  {
    hide Plus, BigSigma1, BigSigma0, Maj, Ch, Choose;
    ChooseIsCh(s.e, s.f, s.g);
    ReorderFive(BigSigma1(s.e), Ch(s.e, s.f, s.g), k, w, s.h);
    PlusCommutes(s.d, Plus(Plus(Plus(Plus(s.h, BigSigma1(s.e)), Ch(s.e, s.f, s.g)), k), w));
  }

  lemma {:induction false} ConstantLanes(i: nat)
    requires i < 40
    ensures K64X2(i) == U64x2(K64(2 * i + 1), K64(2 * i))
  {
    hide K64;
  }

  // ----- the block function -----

  function HashOf(state: seq<u64>): Hash
    requires |state| == 8
  {
    Hash(state[0], state[1], state[2], state[3], state[4], state[5], state[6], state[7])
  }

  ghost predicate Holds(s: Hash, ae: U64x2, bf: U64x2, cg: U64x2, dh: U64x2) {
    ae == AE(s) && bf == BF(s) && cg == CG(s) && dh == DH(s)
  }

  /** The rounds4 macro: rounds `4 * i` to `4 * i + 3`, each into the register that held the oldest pair. */
  method Rounds4(ghost s: Hash, ghost m: Block, i: nat, ae: U64x2, bf: U64x2, cg: U64x2, dh: U64x2, w0: U64x2, w1: U64x2)
    returns (ae': U64x2, bf': U64x2, cg': U64x2, dh': U64x2)
    requires i < 20
    requires w0 == Lanes(m, 2 * i) && w1 == Lanes(m, 2 * i + 1)
    requires Holds(Rounds(s, m, 4 * i), ae, bf, cg, dh)
    ensures Holds(Rounds(s, m, 4 * i + 4), ae', bf', cg', dh')
  {
    hide Plus, Round, W, K64, K64X2, DigestRound;
    ConstantLanes(2 * i);
    ConstantLanes(2 * i + 1);
    ghost var t := 4 * i;
    ghost var r0 := Rounds(s, m, t);
    ghost var r1 := Round(r0, K64(t), W(m, t));
    ghost var r2 := Round(r1, K64(t + 1), W(m, t + 1));
    ghost var r3 := Round(r2, K64(t + 2), W(m, t + 2));
    OneRound(r0, K64(t), W(m, t));
    OneRound(r1, K64(t + 1), W(m, t + 1));
    OneRound(r2, K64(t + 2), W(m, t + 2));
    OneRound(r3, K64(t + 3), W(m, t + 3));
    assert Rounds(s, m, t + 1) == r1;
    assert Rounds(s, m, t + 2) == r2;
    assert Rounds(s, m, t + 3) == r3;
    var U64x2(u, t0) := Add(K64X2(2 * i), w0);
    var U64x2(w, v) := Add(K64X2(2 * i + 1), w1);
    dh' := DigestRound(ae, bf, cg, dh, t0);
    cg' := DigestRound(dh', ae, bf, cg, u);
    bf' := DigestRound(cg', dh', ae, bf, v);
    ae' := DigestRound(bf', cg', dh', ae, w);
  }

  /** sha512_digest_block_u64: for every state and block, the compression function of the standard. */
  method DigestBlock(state: array<u64>, block: Block)
    requires state.Length == 8
    modifies state
    ensures HashOf(state[..]) == Compress(HashOf(old(state[..])), block)
  {
    hide Rounds, Schedule, Lanes, Plus;
    ghost var s := HashOf(state[..]);
    var ae := U64x2(state[0], state[4]);
    var bf := U64x2(state[1], state[5]);
    var cg := U64x2(state[2], state[6]);
    var dh := U64x2(state[3], state[7]);
    NoRounds(s, block);
    var w1, w0 := U64x2(block[3], block[2]), U64x2(block[1], block[0]);
    FirstLanes(block, 0);
    FirstLanes(block, 1);
    ae, bf, cg, dh := Rounds4(s, block, 0, ae, bf, cg, dh, w0, w1);
    var w3, w2 := U64x2(block[7], block[6]), U64x2(block[5], block[4]);
    FirstLanes(block, 2);
    FirstLanes(block, 3);
    ae, bf, cg, dh := Rounds4(s, block, 1, ae, bf, cg, dh, w2, w3);
    var w5, w4 := U64x2(block[11], block[10]), U64x2(block[9], block[8]);
    FirstLanes(block, 4);
    FirstLanes(block, 5);
    ae, bf, cg, dh := Rounds4(s, block, 2, ae, bf, cg, dh, w4, w5);
    var w7, w6 := U64x2(block[15], block[14]), U64x2(block[13], block[12]);
    FirstLanes(block, 6);
    FirstLanes(block, 7);
    ae, bf, cg, dh := Rounds4(s, block, 3, ae, bf, cg, dh, w6, w7);
    ScheduleStep(block, 0);
    var w8 := Schedule(w0, w1, w4, w5, w7);
    ScheduleStep(block, 1);
    var w9 := Schedule(w1, w2, w5, w6, w8);
    ae, bf, cg, dh := Rounds4(s, block, 4, ae, bf, cg, dh, w8, w9);
    ScheduleStep(block, 2);
    w0 := Schedule(w2, w3, w6, w7, w9);
    ScheduleStep(block, 3);
    w1 := Schedule(w3, w4, w7, w8, w0);
    ae, bf, cg, dh := Rounds4(s, block, 5, ae, bf, cg, dh, w0, w1);
    ScheduleStep(block, 4);
    w2 := Schedule(w4, w5, w8, w9, w1);
    ScheduleStep(block, 5);
    w3 := Schedule(w5, w6, w9, w0, w2);
    ae, bf, cg, dh := Rounds4(s, block, 6, ae, bf, cg, dh, w2, w3);
    ScheduleStep(block, 6);
    w4 := Schedule(w6, w7, w0, w1, w3);
    ScheduleStep(block, 7);
    w5 := Schedule(w7, w8, w1, w2, w4);
    ae, bf, cg, dh := Rounds4(s, block, 7, ae, bf, cg, dh, w4, w5);
    ScheduleStep(block, 8);
    w6 := Schedule(w8, w9, w2, w3, w5);
    ScheduleStep(block, 9);
    w7 := Schedule(w9, w0, w3, w4, w6);
    ae, bf, cg, dh := Rounds4(s, block, 8, ae, bf, cg, dh, w6, w7);
    ScheduleStep(block, 10);
    w8 := Schedule(w0, w1, w4, w5, w7);
    ScheduleStep(block, 11);
    w9 := Schedule(w1, w2, w5, w6, w8);
    ae, bf, cg, dh := Rounds4(s, block, 9, ae, bf, cg, dh, w8, w9);
    ScheduleStep(block, 12);
    w0 := Schedule(w2, w3, w6, w7, w9);
    ScheduleStep(block, 13);
    w1 := Schedule(w3, w4, w7, w8, w0);
    ae, bf, cg, dh := Rounds4(s, block, 10, ae, bf, cg, dh, w0, w1);
    ScheduleStep(block, 14);
    w2 := Schedule(w4, w5, w8, w9, w1);
    ScheduleStep(block, 15);
    w3 := Schedule(w5, w6, w9, w0, w2);
    ae, bf, cg, dh := Rounds4(s, block, 11, ae, bf, cg, dh, w2, w3);
    ScheduleStep(block, 16);
    w4 := Schedule(w6, w7, w0, w1, w3);
    ScheduleStep(block, 17);
    w5 := Schedule(w7, w8, w1, w2, w4);
    ae, bf, cg, dh := Rounds4(s, block, 12, ae, bf, cg, dh, w4, w5);
    ScheduleStep(block, 18);
    w6 := Schedule(w8, w9, w2, w3, w5);
    ScheduleStep(block, 19);
    w7 := Schedule(w9, w0, w3, w4, w6);
    ae, bf, cg, dh := Rounds4(s, block, 13, ae, bf, cg, dh, w6, w7);
    ScheduleStep(block, 20);
    w8 := Schedule(w0, w1, w4, w5, w7);
    ScheduleStep(block, 21);
    w9 := Schedule(w1, w2, w5, w6, w8);
    ae, bf, cg, dh := Rounds4(s, block, 14, ae, bf, cg, dh, w8, w9);
    ScheduleStep(block, 22);
    w0 := Schedule(w2, w3, w6, w7, w9);
    ScheduleStep(block, 23);
    w1 := Schedule(w3, w4, w7, w8, w0);
    ae, bf, cg, dh := Rounds4(s, block, 15, ae, bf, cg, dh, w0, w1);
    ScheduleStep(block, 24);
    w2 := Schedule(w4, w5, w8, w9, w1);
    ScheduleStep(block, 25);
    w3 := Schedule(w5, w6, w9, w0, w2);
    ae, bf, cg, dh := Rounds4(s, block, 16, ae, bf, cg, dh, w2, w3);
    ScheduleStep(block, 26);
    w4 := Schedule(w6, w7, w0, w1, w3);
    ScheduleStep(block, 27);
    w5 := Schedule(w7, w8, w1, w2, w4);
    ae, bf, cg, dh := Rounds4(s, block, 17, ae, bf, cg, dh, w4, w5);
    ScheduleStep(block, 28);
    w6 := Schedule(w8, w9, w2, w3, w5);
    ScheduleStep(block, 29);
    w7 := Schedule(w9, w0, w3, w4, w6);
    ae, bf, cg, dh := Rounds4(s, block, 18, ae, bf, cg, dh, w6, w7);
    ScheduleStep(block, 30);
    w8 := Schedule(w0, w1, w4, w5, w7);
    ScheduleStep(block, 31);
    w9 := Schedule(w1, w2, w5, w6, w8);
    ae, bf, cg, dh := Rounds4(s, block, 19, ae, bf, cg, dh, w8, w9);
    var U64x2(a, e) := ae;
    var U64x2(b, f) := bf;
    var U64x2(c, g) := cg;
    var U64x2(d, h) := dh;
    state[0] := Plus(state[0], a);
    state[1] := Plus(state[1], b);
    state[2] := Plus(state[2], c);
    state[3] := Plus(state[3], d);
    state[4] := Plus(state[4], e);
    state[5] := Plus(state[5], f);
    state[6] := Plus(state[6], g);
    state[7] := Plus(state[7], h);
  }

  lemma {:induction false} NoRounds(s: Hash, m: Block)
    ensures Rounds(s, m, 0) == s
  {
  }
}
