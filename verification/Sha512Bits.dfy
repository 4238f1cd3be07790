/**
 The word functions of SHA-512: section 4.1.3 of FIPS 180-4, and the forms in which
 sha512_utils.rs writes them. A word is a number below 2^64; wrapping_add is `Plus`.
 */
module Sha512Bits {

  type u64 = n: nat | n < 0x1_0000_0000_0000_0000

  function Plus(x: u64, y: u64): u64 {
    (x + y) % 0x1_0000_0000_0000_0000
  }

  lemma {:induction false} PlusCommutes(x: u64, y: u64)
    ensures Plus(x, y) == Plus(y, x)
  {
  }

  lemma {:induction false} PlusAssociates(x: u64, y: u64, z: u64)
    ensures Plus(Plus(x, y), z) == Plus(x, Plus(y, z))
  {
    ReduceOnce(x + y, z);
    ReduceOnce(y + z, x);
  }

  lemma {:induction false} ReduceOnce(n: nat, z: nat)
    ensures (n % 0x1_0000_0000_0000_0000 + z) % 0x1_0000_0000_0000_0000 == (n + z) % 0x1_0000_0000_0000_0000
  {
  }

  // ----- the functions on bits -----

  function Rotated(x: bv64, k: nat): bv64
    requires k <= 64
  {
    x.RotateRight(k)
  }

  /** The rotation as the code writes it. */
  function Turned(x: bv64, k: nat): bv64
    requires k <= 64
  {
    (x >> k) | (x << (64 - k))
  }

  function Shifted(x: bv64, k: nat): bv64
    requires k <= 64
  {
    x >> k
  }

  function Exclusive(a: bv64, b: bv64, c: bv64): bv64 {
    a ^ b ^ c
  }

  function Both(a: bv64, b: bv64): bv64 {
    a & b
  }

  function Negated(a: bv64): bv64 {
    !a
  }

  function ChBits(x: bv64, y: bv64, z: bv64): bv64 {
    Exclusive(Both(x, y), Both(Negated(x), z), 0)
  }

  /** bool3ary_202. */
  function ChooseBits(a: bv64, b: bv64, c: bv64): bv64 {
    c ^ (a & (b ^ c))
  }

  function MajBits(x: bv64, y: bv64, z: bv64): bv64 {
    Exclusive(Both(x, y), Both(x, z), Both(y, z))
  }

  function Sigma0Bits(x: bv64): bv64 {
    Exclusive(Rotated(x, 1), Rotated(x, 8), Shifted(x, 7))
  }

  function ShiftedSigma0Bits(x: bv64): bv64 {
    Exclusive(Turned(x, 1), Turned(x, 8), Shifted(x, 7))
  }

  function Sigma1Bits(x: bv64): bv64 {
    Exclusive(Rotated(x, 19), Rotated(x, 61), Shifted(x, 6))
  }

  function ShiftedSigma1Bits(x: bv64): bv64 {
    Exclusive(Turned(x, 19), Turned(x, 61), Shifted(x, 6))
  }

  function BigSigma0Bits(x: bv64): bv64 {
    Exclusive(Rotated(x, 28), Rotated(x, 34), Rotated(x, 39))
  }

  function BigSigma1Bits(x: bv64): bv64 {
    Exclusive(Rotated(x, 14), Rotated(x, 18), Rotated(x, 41))
  }

  lemma {:induction false} ChooseIsChBits(a: bv64, b: bv64, c: bv64)
    ensures ChooseBits(a, b, c) == ChBits(a, b, c)
  {
    ChooseIdentity(a, b, c);
  }

  lemma {:induction false} ChooseIdentity(a: bv64, b: bv64, c: bv64)
    ensures c ^ (a & (b ^ c)) == (a & b) ^ (!a & c)
  {
  }

  lemma {:induction false} Turned1(x: bv64)
    ensures Turned(x, 1) == Rotated(x, 1)
  {
  }

  lemma {:induction false} Turned8(x: bv64)
    ensures Turned(x, 8) == Rotated(x, 8)
  {
  }

  lemma {:induction false} Turned19(x: bv64)
    ensures Turned(x, 19) == Rotated(x, 19)
  {
  }

  lemma {:induction false} Turned61(x: bv64)
    ensures Turned(x, 61) == Rotated(x, 61)
  {
  }

  lemma {:induction false} ShiftsAreRotationsBits(x: bv64)
    ensures ShiftedSigma0Bits(x) == Sigma0Bits(x)
    ensures ShiftedSigma1Bits(x) == Sigma1Bits(x)
  {
    hide Turned, Rotated, Shifted, Exclusive;
    Turned1(x);
    Turned8(x);
    Turned19(x);
    Turned61(x);
  }

  // ----- the functions on words -----

  function Ch(x: u64, y: u64, z: u64): u64 {
    ChBits(x as bv64, y as bv64, z as bv64) as int
  }

  function Choose(x: u64, y: u64, z: u64): u64 {
    ChooseBits(x as bv64, y as bv64, z as bv64) as int
  }

  function Maj(x: u64, y: u64, z: u64): u64 {
    MajBits(x as bv64, y as bv64, z as bv64) as int
  }

  function BigSigma0(x: u64): u64 {
    BigSigma0Bits(x as bv64) as int
  }

  function BigSigma1(x: u64): u64 {
    BigSigma1Bits(x as bv64) as int
  }

  function Sigma0(x: u64): u64 {
    Sigma0Bits(x as bv64) as int
  }

  function ShiftedSigma0(x: u64): u64 {
    ShiftedSigma0Bits(x as bv64) as int
  }

  function Sigma1(x: u64): u64 {
    Sigma1Bits(x as bv64) as int
  }

  function ShiftedSigma1(x: u64): u64 {
    ShiftedSigma1Bits(x as bv64) as int
  }

  lemma {:induction false} ChooseIsCh(x: u64, y: u64, z: u64)
    ensures Choose(x, y, z) == Ch(x, y, z)
  {
    hide ChooseBits, ChBits;
    ChooseIsChBits(x as bv64, y as bv64, z as bv64);
  }

  lemma {:induction false} ShiftsAreRotations(x: u64)
    ensures ShiftedSigma0(x) == Sigma0(x)
    ensures ShiftedSigma1(x) == Sigma1(x)
  {
    hide ShiftedSigma0Bits, Sigma0Bits, ShiftedSigma1Bits, Sigma1Bits;
    ShiftsAreRotationsBits(x as bv64);
  }

  // ----- bit by bit, section 4.1 of FIPS 180-4 -----

  /** Bit `i`, counted from the lowest; indices are taken modulo 64. */
  predicate Bit(x: bv64, i: bv6) {
    (x >> i) & 1 == 1
  }

  predicate Odd(a: bool, b: bool, c: bool) {
    (a != b) != c
  }

  predicate Majority(a: bool, b: bool, c: bool) {
    (a && b) || (a && c) || (b && c)
  }

  lemma {:induction false} RawExclusiveBit(a: bv64, b: bv64, c: bv64, i: bv6)
    ensures Bit(a ^ b ^ c, i) == Odd(Bit(a, i), Bit(b, i), Bit(c, i))
  {
  }

  lemma {:induction false} ExclusiveBit(a: bv64, b: bv64, c: bv64, i: bv6)
    ensures Bit(Exclusive(a, b, c), i) == Odd(Bit(a, i), Bit(b, i), Bit(c, i))
  {
    hide Bit;
    RawExclusiveBit(a, b, c, i);
  }

  lemma {:induction false} BothBit(a: bv64, b: bv64, i: bv6)
    ensures Bit(Both(a, b), i) == (Bit(a, i) && Bit(b, i))
  {
  }

  lemma {:induction false} NegatedBit(a: bv64, i: bv6)
    ensures Bit(Negated(a), i) == !Bit(a, i)
  {
  }

  lemma {:induction false} ZeroBit(i: bv6)
    ensures !Bit(0, i)
  {
  }

  lemma {:induction false} Rotated1(x: bv64, i: bv6)
    ensures Bit(Rotated(x, 1), i) == Bit(x, i + 1)
  {
  }

  lemma {:induction false} Rotated8(x: bv64, i: bv6)
    ensures Bit(Rotated(x, 8), i) == Bit(x, i + 8)
  {
  }

  lemma {:induction false} Rotated14(x: bv64, i: bv6)
    ensures Bit(Rotated(x, 14), i) == Bit(x, i + 14)
  {
  }

  lemma {:induction false} Rotated18(x: bv64, i: bv6)
    ensures Bit(Rotated(x, 18), i) == Bit(x, i + 18)
  {
  }

  lemma {:induction false} Rotated19(x: bv64, i: bv6)
    ensures Bit(Rotated(x, 19), i) == Bit(x, i + 19)
  {
  }

  lemma {:induction false} Rotated28(x: bv64, i: bv6)
    ensures Bit(Rotated(x, 28), i) == Bit(x, i + 28)
  {
  }

  lemma {:induction false} Rotated34(x: bv64, i: bv6)
    ensures Bit(Rotated(x, 34), i) == Bit(x, i + 34)
  {
  }

  lemma {:induction false} Rotated39(x: bv64, i: bv6)
    ensures Bit(Rotated(x, 39), i) == Bit(x, i + 39)
  {
  }

  lemma {:induction false} Rotated41(x: bv64, i: bv6)
    ensures Bit(Rotated(x, 41), i) == Bit(x, i + 41)
  {
  }

  lemma {:induction false} Rotated61(x: bv64, i: bv6)
    ensures Bit(Rotated(x, 61), i) == Bit(x, i + 61)
  {
  }

  lemma {:induction false} Shifted6(x: bv64, i: bv6)
    ensures Bit(Shifted(x, 6), i) == (i < 58 && Bit(x, i + 6))
  {
  }

  lemma {:induction false} Shifted7(x: bv64, i: bv6)
    ensures Bit(Shifted(x, 7), i) == (i < 57 && Bit(x, i + 7))
  {
  }

  /** Ch takes the bit of `y` where that of `x` is set, and the bit of `z` elsewhere. */
  lemma {:induction false} ChExactly(x: u64, y: u64, z: u64, i: bv6)
    ensures var a, b, c := x as bv64, y as bv64, z as bv64;
            Ch(x, y, z) == ChBits(a, b, c) as int && Bit(ChBits(a, b, c), i) == if Bit(a, i) then Bit(b, i) else Bit(c, i)
  {
    hide Bit, Both, Negated, Exclusive;
    var a, b, c := x as bv64, y as bv64, z as bv64;
    ExclusiveBit(Both(a, b), Both(Negated(a), c), 0, i);
    BothBit(a, b, i);
    BothBit(Negated(a), c, i);
    NegatedBit(a, i);
    ZeroBit(i);
  }

  /** Maj is the majority of the three bits. */
  lemma {:induction false} MajExactly(x: u64, y: u64, z: u64, i: bv6)
    ensures var a, b, c := x as bv64, y as bv64, z as bv64;
            Maj(x, y, z) == MajBits(a, b, c) as int && Bit(MajBits(a, b, c), i) == Majority(Bit(a, i), Bit(b, i), Bit(c, i))
  {
    hide Bit, Both, Exclusive;
    var a, b, c := x as bv64, y as bv64, z as bv64;
    ExclusiveBit(Both(a, b), Both(a, c), Both(b, c), i);
    BothBit(a, b, i);
    BothBit(a, c, i);
    BothBit(b, c, i);
  }

  lemma {:induction false} BigSigma0Exactly(x: u64, i: bv6)
    ensures var a := x as bv64;
            && BigSigma0(x) == BigSigma0Bits(a) as int
            && Bit(BigSigma0Bits(a), i) == Odd(Bit(a, i + 28), Bit(a, i + 34), Bit(a, i + 39))
  {
    hide Bit, Rotated, Shifted, Exclusive;
    var a := x as bv64;
    ExclusiveBit(Rotated(a, 28), Rotated(a, 34), Rotated(a, 39), i);
    Rotated28(a, i);
    Rotated34(a, i);
    Rotated39(a, i);
  }

  lemma {:induction false} BigSigma1Exactly(x: u64, i: bv6)
    ensures var a := x as bv64;
            && BigSigma1(x) == BigSigma1Bits(a) as int
            && Bit(BigSigma1Bits(a), i) == Odd(Bit(a, i + 14), Bit(a, i + 18), Bit(a, i + 41))
  {
    hide Bit, Rotated, Shifted, Exclusive;
    var a := x as bv64;
    ExclusiveBit(Rotated(a, 14), Rotated(a, 18), Rotated(a, 41), i);
    Rotated14(a, i);
    Rotated18(a, i);
    Rotated41(a, i);
  }

  lemma {:induction false} Sigma0Exactly(x: u64, i: bv6)
    ensures var a := x as bv64;
            && Sigma0(x) == Sigma0Bits(a) as int
            && Bit(Sigma0Bits(a), i) == Odd(Bit(a, i + 1), Bit(a, i + 8), i < 57 && Bit(a, i + 7))
  {
    hide Bit, Rotated, Shifted, Exclusive;
    var a := x as bv64;
    ExclusiveBit(Rotated(a, 1), Rotated(a, 8), Shifted(a, 7), i);
    Rotated1(a, i);
    Rotated8(a, i);
    Shifted7(a, i);
  }

  lemma {:induction false} Sigma1Exactly(x: u64, i: bv6)
    ensures var a := x as bv64;
            && Sigma1(x) == Sigma1Bits(a) as int
            && Bit(Sigma1Bits(a), i) == Odd(Bit(a, i + 19), Bit(a, i + 61), i < 58 && Bit(a, i + 6))
  {
    hide Bit, Rotated, Shifted, Exclusive;
    var a := x as bv64;
    ExclusiveBit(Rotated(a, 19), Rotated(a, 61), Shifted(a, 6), i);
    Rotated19(a, i);
    Rotated61(a, i);
    Shifted6(a, i);
  }
}
