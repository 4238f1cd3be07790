/**
 SHA-256 on one block: section 6.2.2 of FIPS 180-4, and the vector-shaped form of
 sha256_utils.rs, which keeps four words per register in reversed lane order, rotates five
 message registers and does two rounds per step.
 */
module Sha256Block {
  import opened Sha256Bits

  /** consts.rs, K32. */
  function K32(t: nat): u32
    requires t < 64
  {
    match t
    case 0 => 0x428a_2f98
    case 1 => 0x7137_4491
    case 2 => 0xb5c0_fbcf
    case 3 => 0xe9b5_dba5
    case 4 => 0x3956_c25b
    case 5 => 0x59f1_11f1
    case 6 => 0x923f_82a4
    case 7 => 0xab1c_5ed5
    case 8 => 0xd807_aa98
    case 9 => 0x1283_5b01
    case 10 => 0x2431_85be
    case 11 => 0x550c_7dc3
    case 12 => 0x72be_5d74
    case 13 => 0x80de_b1fe
    case 14 => 0x9bdc_06a7
    case 15 => 0xc19b_f174
    case 16 => 0xe49b_69c1
    case 17 => 0xefbe_4786
    case 18 => 0x0fc1_9dc6
    case 19 => 0x240c_a1cc
    case 20 => 0x2de9_2c6f
    case 21 => 0x4a74_84aa
    case 22 => 0x5cb0_a9dc
    case 23 => 0x76f9_88da
    case 24 => 0x983e_5152
    case 25 => 0xa831_c66d
    case 26 => 0xb003_27c8
    case 27 => 0xbf59_7fc7
    case 28 => 0xc6e0_0bf3
    case 29 => 0xd5a7_9147
    case 30 => 0x06ca_6351
    case 31 => 0x1429_2967
    case 32 => 0x27b7_0a85
    case 33 => 0x2e1b_2138
    case 34 => 0x4d2c_6dfc
    case 35 => 0x5338_0d13
    case 36 => 0x650a_7354
    case 37 => 0x766a_0abb
    case 38 => 0x81c2_c92e
    case 39 => 0x9272_2c85
    case 40 => 0xa2bf_e8a1
    case 41 => 0xa81a_664b
    case 42 => 0xc24b_8b70
    case 43 => 0xc76c_51a3
    case 44 => 0xd192_e819
    case 45 => 0xd699_0624
    case 46 => 0xf40e_3585
    case 47 => 0x106a_a070
    case 48 => 0x19a4_c116
    case 49 => 0x1e37_6c08
    case 50 => 0x2748_774c
    case 51 => 0x34b0_bcb5
    case 52 => 0x391c_0cb3
    case 53 => 0x4ed8_aa4a
    case 54 => 0x5b9c_ca4f
    case 55 => 0x682e_6ff3
    case 56 => 0x748f_82ee
    case 57 => 0x78a5_636f
    case 58 => 0x84c8_7814
    case 59 => 0x8cc7_0208
    case 60 => 0x90be_fffa
    case 61 => 0xa450_6ceb
    case 62 => 0xbef9_a3f7
    case 63 => 0xc671_78f2
  }

  // ----- FIPS 180-4, section 6.2.2 -----

  type Block = b: seq<u32> | |b| == 16 witness seq(16, _ => 0)

  datatype Hash = Hash(a: u32, b: u32, c: u32, d: u32, e: u32, f: u32, g: u32, h: u32)

  /** The message schedule. */
  function W(m: Block, t: nat): u32 {
    if t < 16 then m[t]
    else Plus(Plus(Plus(Sigma1(W(m, t - 2)), W(m, t - 7)), Sigma0(W(m, t - 15))), W(m, t - 16))
  }

  function Round(s: Hash, k: u32, w: u32): Hash {
    var t1 := Plus(Plus(Plus(Plus(s.h, BigSigma1(s.e)), Ch(s.e, s.f, s.g)), k), w);
    var t2 := Plus(BigSigma0(s.a), Maj(s.a, s.b, s.c));
    Hash(Plus(t1, t2), s.a, s.b, s.c, Plus(s.d, t1), s.e, s.f, s.g)
  }

  /** The working variables after `t` rounds. */
  function Rounds(s: Hash, m: Block, t: nat): Hash
    requires t <= 64
  {
    if t == 0 then s else Round(Rounds(s, m, t - 1), K32(t - 1), W(m, t - 1))
  }

  function Compress(s: Hash, m: Block): Hash {
    var r := Rounds(s, m, 64);
    Hash(Plus(s.a, r.a), Plus(s.b, r.b), Plus(s.c, r.c), Plus(s.d, r.d),
         Plus(s.e, r.e), Plus(s.f, r.f), Plus(s.g, r.g), Plus(s.h, r.h))
  }

  // ----- sha256_utils.rs -----

  datatype U32x4 = U32x4(x0: u32, x1: u32, x2: u32, x3: u32)

  function Add(u: U32x4, v: U32x4): U32x4 {
    U32x4(Plus(u.x0, v.x0), Plus(u.x1, v.x1), Plus(u.x2, v.x2), Plus(u.x3, v.x3))
  }

  /** consts.rs, K32X4. */
  function K32X4(i: nat): U32x4
    requires i < 16
  {
    [
      U32x4(K32(3), K32(2), K32(1), K32(0)),
      U32x4(K32(7), K32(6), K32(5), K32(4)),
      U32x4(K32(11), K32(10), K32(9), K32(8)),
      U32x4(K32(15), K32(14), K32(13), K32(12)),
      U32x4(K32(19), K32(18), K32(17), K32(16)),
      U32x4(K32(23), K32(22), K32(21), K32(20)),
      U32x4(K32(27), K32(26), K32(25), K32(24)),
      U32x4(K32(31), K32(30), K32(29), K32(28)),
      U32x4(K32(35), K32(34), K32(33), K32(32)),
      U32x4(K32(39), K32(38), K32(37), K32(36)),
      U32x4(K32(43), K32(42), K32(41), K32(40)),
      U32x4(K32(47), K32(46), K32(45), K32(44)),
      U32x4(K32(51), K32(50), K32(49), K32(48)),
      U32x4(K32(55), K32(54), K32(53), K32(52)),
      U32x4(K32(59), K32(58), K32(57), K32(56)),
      U32x4(K32(63), K32(62), K32(61), K32(60))
    ][i]
  }

  function Load(v2: U32x4, v3: U32x4): U32x4 {
    U32x4(v3.x3, v2.x0, v2.x1, v2.x2)
  }

  function Swap(v: U32x4): U32x4 {
    U32x4(v.x2, v.x3, v.x0, v.x1)
  }

  function Msg1(v0: U32x4, v1: U32x4): U32x4 {
    var l := Load(v0, v1);
    Add(v0, U32x4(ShiftedSigma0(l.x0), ShiftedSigma0(l.x1), ShiftedSigma0(l.x2), ShiftedSigma0(l.x3)))
  }

  function Msg2(v4: U32x4, v3: U32x4): U32x4 {
    var w16 := Plus(v4.x3, Sigma1(v3.x1));
    var w17 := Plus(v4.x2, Sigma1(v3.x0));
    var w18 := Plus(v4.x1, Sigma1(w16));
    var w19 := Plus(v4.x0, Sigma1(w17));
    U32x4(w19, w18, w17, w16)
  }

  function Schedule(v0: U32x4, v1: U32x4, v2: U32x4, v3: U32x4): U32x4 {
    Msg2(Add(Msg1(v0, v1), Load(v2, v3)), v3)
  }

  /** Two rounds on the two halves of the state. */
  function DigestRoundX2(cdgh: U32x4, abef: U32x4, wk: U32x4): U32x4 {
    var U32x4(_, _, wk1, wk0) := wk;
    var U32x4(a0, b0, e0, f0) := abef;
    var U32x4(c0, d0, g0, h0) := cdgh;
    var x0 := Plus(Plus(Plus(BigSigma1(e0), Choose(e0, f0, g0)), wk0), h0);
    var y0 := Plus(BigSigma0(a0), Maj(a0, b0, c0));
    var (a1, b1, c1, d1, e1, f1, g1, h1) := (Plus(x0, y0), a0, b0, c0, Plus(x0, d0), e0, f0, g0);
    var x1 := Plus(Plus(Plus(BigSigma1(e1), Choose(e1, f1, g1)), wk1), h1);
    var y1 := Plus(BigSigma0(a1), Maj(a1, b1, c1));
    U32x4(Plus(x1, y1), a1, Plus(x1, d1), e1)
  }

  // ----- sums -----

  lemma {:induction false} ReorderFour(a: u32, b: u32, c: u32, d: u32)
    ensures Plus(Plus(Plus(a, b), c), d) == Plus(Plus(Plus(d, c), b), a)
  {
    hide Plus;
    PlusCommutes(Plus(Plus(a, b), c), d);
    PlusCommutes(Plus(a, b), c);
    PlusAssociates(d, c, Plus(a, b));
    PlusCommutes(a, b);
    PlusAssociates(Plus(d, c), b, a);
  }

  lemma {:induction false} ReorderFive(s: u32, c: u32, k: u32, w: u32, h: u32)
    ensures Plus(Plus(Plus(s, c), Plus(k, w)), h) == Plus(Plus(Plus(Plus(h, s), c), k), w)
  {
    hide Plus;
    PlusCommutes(Plus(Plus(s, c), Plus(k, w)), h);
    PlusAssociates(h, Plus(s, c), Plus(k, w));
    PlusAssociates(h, s, c);
    PlusAssociates(Plus(Plus(h, s), c), k, w);
  }

  // ----- the message registers -----

  /** Four schedule words, highest index in the lowest lane. */
  function Lanes(m: Block, i: nat): U32x4 {
    U32x4(W(m, 4 * i + 3), W(m, 4 * i + 2), W(m, 4 * i + 1), W(m, 4 * i))
  }

  lemma {:induction false} ScheduleWord(m: Block, t: nat)
    ensures W(m, t + 16) ==
            Plus(Plus(Plus(W(m, t), ShiftedSigma0(W(m, t + 1))), W(m, t + 9)), Sigma1(W(m, t + 14)))
  {
    hide Plus, Sigma0, Sigma1, ShiftedSigma0;
    ShiftsAreRotations(W(m, t + 1));
    ReorderFour(W(m, t), Sigma0(W(m, t + 1)), W(m, t + 9), Sigma1(W(m, t + 14)));
  }

  /** One vector step computes the next four words of the schedule. */
  lemma {:induction false} ScheduleStep(m: Block, i: nat)
    ensures Schedule(Lanes(m, i), Lanes(m, i + 1), Lanes(m, i + 2), Lanes(m, i + 3)) == Lanes(m, i + 4)
  {
    hide W, Plus, Sigma1, ShiftedSigma0;
    ScheduleWord(m, 4 * i);
    ScheduleWord(m, 4 * i + 1);
    ScheduleWord(m, 4 * i + 2);
    ScheduleWord(m, 4 * i + 3);
  }

  lemma {:induction false} FirstLanes(m: Block, i: nat)
    requires i < 4
    ensures Lanes(m, i) == U32x4(m[4 * i + 3], m[4 * i + 2], m[4 * i + 1], m[4 * i])
  {
  }

  // ----- the state registers -----

  function ABEF(s: Hash): U32x4 {
    U32x4(s.a, s.b, s.e, s.f)
  }

  function CDGH(s: Hash): U32x4 {
    U32x4(s.c, s.d, s.g, s.h)
  }

  lemma {:induction false} RoundAsWritten(s: Hash, k: u32, w: u32)
    ensures var x := Plus(Plus(Plus(BigSigma1(s.e), Choose(s.e, s.f, s.g)), Plus(k, w)), s.h);
            Round(s, k, w) ==
            Hash(Plus(x, Plus(BigSigma0(s.a), Maj(s.a, s.b, s.c))), s.a, s.b, s.c, Plus(x, s.d), s.e, s.f, s.g)
  {
    hide Plus, BigSigma1, BigSigma0, Maj, Ch, Choose;
    ChooseIsCh(s.e, s.f, s.g);
    ReorderFive(BigSigma1(s.e), Ch(s.e, s.f, s.g), k, w, s.h);
    PlusCommutes(s.d, Plus(Plus(Plus(Plus(s.h, BigSigma1(s.e)), Ch(s.e, s.f, s.g)), k), w));
  }

  /** Two rounds: the new first half is computed, and the old first half becomes the second half. */
  lemma {:induction false} TwoRounds(s: Hash, k0: u32, w0: u32, k1: u32, w1: u32, lo: u32, hi: u32)
    ensures var s2 := Round(Round(s, k0, w0), k1, w1);
            && DigestRoundX2(CDGH(s), ABEF(s), U32x4(lo, hi, Plus(k1, w1), Plus(k0, w0))) == ABEF(s2)
            && CDGH(s2) == ABEF(s)
  {
    hide Plus, BigSigma1, BigSigma0, Maj, Ch, Choose;
    RoundAsWritten(s, k0, w0);
    RoundAsWritten(Round(s, k0, w0), k1, w1);
  }

  lemma {:induction false} ConstantLanes(i: nat)
    requires i < 16
    ensures K32X4(i) == U32x4(K32(4 * i + 3), K32(4 * i + 2), K32(4 * i + 1), K32(4 * i))
  {
    hide K32;
  }

  /** Four rounds, the two registers trading roles. */
  lemma {:induction false} FourRounds(s: Hash, m: Block, i: nat)
    requires i < 16
    ensures var r, r' := Rounds(s, m, 4 * i), Rounds(s, m, 4 * i + 4);
            var wk := Add(K32X4(i), Lanes(m, i));
            var cdgh := DigestRoundX2(CDGH(r), ABEF(r), wk);
            && cdgh == CDGH(r')
            && DigestRoundX2(ABEF(r), cdgh, Swap(wk)) == ABEF(r')
  {
    hide Plus, Round, W, K32, K32X4, DigestRoundX2;
    ConstantLanes(i);
    var t := 4 * i;
    var k0, k1, k2, k3 := K32(t), K32(t + 1), K32(t + 2), K32(t + 3);
    var w0, w1, w2, w3 := W(m, t), W(m, t + 1), W(m, t + 2), W(m, t + 3);
    var r := Rounds(s, m, t);
    var mid := Round(Round(r, k0, w0), k1, w1);
    assert Rounds(s, m, t + 1) == Round(r, k0, w0);
    assert Rounds(s, m, t + 2) == mid;
    assert Rounds(s, m, t + 3) == Round(mid, k2, w2);
    assert Rounds(s, m, t + 4) == Round(Round(mid, k2, w2), k3, w3);
    TwoRounds(r, k0, w0, k1, w1, Plus(k3, w3), Plus(k2, w2));
    TwoRounds(mid, k2, w2, k3, w3, Plus(k1, w1), Plus(k0, w0));
  }

  // ----- the block function -----

  function HashOf(state: seq<u32>): Hash
    requires |state| == 8
  {
    Hash(state[0], state[1], state[2], state[3], state[4], state[5], state[6], state[7])
  }

  /** The rounds4 macro: rounds `4 * i` to `4 * i + 3`. */
  method Rounds4(ghost s: Hash, ghost m: Block, i: nat, abef: U32x4, cdgh: U32x4, w: U32x4)
    returns (abef': U32x4, cdgh': U32x4)
    requires i < 16
    requires w == Lanes(m, i)
    requires abef == ABEF(Rounds(s, m, 4 * i)) && cdgh == CDGH(Rounds(s, m, 4 * i))
    ensures abef' == ABEF(Rounds(s, m, 4 * i + 4)) && cdgh' == CDGH(Rounds(s, m, 4 * i + 4))
  {
    hide Rounds, Lanes, DigestRoundX2, K32X4, Add;
    FourRounds(s, m, i);
    var rest := Add(K32X4(i), w);
    cdgh' := DigestRoundX2(cdgh, abef, rest);
    abef' := DigestRoundX2(abef, cdgh', Swap(rest));
  }

  /** sha256_digest_block_u32: for every state and block, the compression function of the standard. */
  method DigestBlock(state: array<u32>, block: Block)
    requires state.Length == 8
    modifies state
    ensures HashOf(state[..]) == Compress(HashOf(old(state[..])), block)
  {
    hide Rounds, Schedule, Lanes, Plus;
    ghost var s := HashOf(state[..]);
    var abef := U32x4(state[0], state[1], state[4], state[5]);
    var cdgh := U32x4(state[2], state[3], state[6], state[7]);
    NoRounds(s, block);
    var w0 := U32x4(block[3], block[2], block[1], block[0]);
    FirstLanes(block, 0);
    abef, cdgh := Rounds4(s, block, 0, abef, cdgh, w0);
    var w1 := U32x4(block[7], block[6], block[5], block[4]);
    FirstLanes(block, 1);
    abef, cdgh := Rounds4(s, block, 1, abef, cdgh, w1);
    var w2 := U32x4(block[11], block[10], block[9], block[8]);
    FirstLanes(block, 2);
    abef, cdgh := Rounds4(s, block, 2, abef, cdgh, w2);
    var w3 := U32x4(block[15], block[14], block[13], block[12]);
    FirstLanes(block, 3);
    abef, cdgh := Rounds4(s, block, 3, abef, cdgh, w3);
    ScheduleStep(block, 0);
    var w4 := Schedule(w0, w1, w2, w3);
    abef, cdgh := Rounds4(s, block, 4, abef, cdgh, w4);
    ScheduleStep(block, 1);
    w0 := Schedule(w1, w2, w3, w4);
    abef, cdgh := Rounds4(s, block, 5, abef, cdgh, w0);
    ScheduleStep(block, 2);
    w1 := Schedule(w2, w3, w4, w0);
    abef, cdgh := Rounds4(s, block, 6, abef, cdgh, w1);
    ScheduleStep(block, 3);
    w2 := Schedule(w3, w4, w0, w1);
    abef, cdgh := Rounds4(s, block, 7, abef, cdgh, w2);
    ScheduleStep(block, 4);
    w3 := Schedule(w4, w0, w1, w2);
    abef, cdgh := Rounds4(s, block, 8, abef, cdgh, w3);
    ScheduleStep(block, 5);
    w4 := Schedule(w0, w1, w2, w3);
    abef, cdgh := Rounds4(s, block, 9, abef, cdgh, w4);
    ScheduleStep(block, 6);
    w0 := Schedule(w1, w2, w3, w4);
    abef, cdgh := Rounds4(s, block, 10, abef, cdgh, w0);
    ScheduleStep(block, 7);
    w1 := Schedule(w2, w3, w4, w0);
    abef, cdgh := Rounds4(s, block, 11, abef, cdgh, w1);
    ScheduleStep(block, 8);
    w2 := Schedule(w3, w4, w0, w1);
    abef, cdgh := Rounds4(s, block, 12, abef, cdgh, w2);
    ScheduleStep(block, 9);
    w3 := Schedule(w4, w0, w1, w2);
    abef, cdgh := Rounds4(s, block, 13, abef, cdgh, w3);
    ScheduleStep(block, 10);
    w4 := Schedule(w0, w1, w2, w3);
    abef, cdgh := Rounds4(s, block, 14, abef, cdgh, w4);
    ScheduleStep(block, 11);
    w0 := Schedule(w1, w2, w3, w4);
    abef, cdgh := Rounds4(s, block, 15, abef, cdgh, w0);
    var U32x4(a, b, e, f) := abef;
    var U32x4(c, d, g, h) := cdgh;
    state[0] := Plus(state[0], a);
    state[1] := Plus(state[1], b);
    state[2] := Plus(state[2], c);
    state[3] := Plus(state[3], d);
    state[4] := Plus(state[4], e);
    state[5] := Plus(state[5], f);
    state[6] := Plus(state[6], g);
    state[7] := Plus(state[7], h);
  }

  lemma {:induction false} NoRounds(s: Hash, m: Block)
    ensures Rounds(s, m, 0) == s
  {
  }
}
