/**
 The word functions of SHA-256: section 4.1.2 of FIPS 180-4, and the forms in which
 sha256_utils.rs writes them. A word is a number below 2^32; wrapping_add is `Plus`.
 */
module Sha256Bits {

  type u32 = n: nat | n < 0x1_0000_0000

  function Plus(x: u32, y: u32): u32 {
    (x + y) % 0x1_0000_0000
  }

  lemma {:induction false} PlusCommutes(x: u32, y: u32)
    ensures Plus(x, y) == Plus(y, x)
  {
  }

  lemma {:induction false} PlusAssociates(x: u32, y: u32, z: u32)
    ensures Plus(Plus(x, y), z) == Plus(x, Plus(y, z))
  {
    ReduceOnce(x + y, z);
    ReduceOnce(y + z, x);
  }

  lemma {:induction false} ReduceOnce(n: nat, z: nat)
    ensures (n % 0x1_0000_0000 + z) % 0x1_0000_0000 == (n + z) % 0x1_0000_0000
  {
  }

  // ----- the functions on bits -----

  function Rotated(x: bv32, k: nat): bv32
    requires k <= 32
  {
    x.RotateRight(k)
  }

  /** The rotation as the code writes it. */
  function Turned(x: bv32, k: nat): bv32
    requires k <= 32
  {
    (x >> k) | (x << (32 - k))
  }

  function Shifted(x: bv32, k: nat): bv32
    requires k <= 32
  {
    x >> k
  }

  function Exclusive(a: bv32, b: bv32, c: bv32): bv32 {
    a ^ b ^ c
  }

  function Both(a: bv32, b: bv32): bv32 {
    a & b
  }

  function Negated(a: bv32): bv32 {
    !a
  }

  function ChBits(x: bv32, y: bv32, z: bv32): bv32 {
    Exclusive(Both(x, y), Both(Negated(x), z), 0)
  }

  /** bool3ary_202. */
  function ChooseBits(a: bv32, b: bv32, c: bv32): bv32 {
    c ^ (a & (b ^ c))
  }

  function MajBits(x: bv32, y: bv32, z: bv32): bv32 {
    Exclusive(Both(x, y), Both(x, z), Both(y, z))
  }

  function Sigma0Bits(x: bv32): bv32 {
    Exclusive(Rotated(x, 7), Rotated(x, 18), Shifted(x, 3))
  }

  /** One lane of sigma0x4. */
  function ShiftedSigma0Bits(x: bv32): bv32 {
    Exclusive(Turned(x, 7), Turned(x, 18), Shifted(x, 3))
  }

  function BigSigma0Bits(x: bv32): bv32 {
    Exclusive(Rotated(x, 2), Rotated(x, 13), Rotated(x, 22))
  }

  function BigSigma1Bits(x: bv32): bv32 {
    Exclusive(Rotated(x, 6), Rotated(x, 11), Rotated(x, 25))
  }

  function Sigma1Bits(x: bv32): bv32 {
    Exclusive(Rotated(x, 17), Rotated(x, 19), Shifted(x, 10))
  }

  lemma {:induction false} ChooseIsChBits(a: bv32, b: bv32, c: bv32)
    ensures ChooseBits(a, b, c) == ChBits(a, b, c)
  {
    ChooseIdentity(a, b, c);
  }

  lemma {:induction false} ChooseIdentity(a: bv32, b: bv32, c: bv32)
    ensures c ^ (a & (b ^ c)) == (a & b) ^ (!a & c)
  {
  }

  lemma {:induction false} Turned7(x: bv32)
    ensures Turned(x, 7) == Rotated(x, 7)
  {
  }

  lemma {:induction false} Turned18(x: bv32)
    ensures Turned(x, 18) == Rotated(x, 18)
  {
  }

  lemma {:induction false} ShiftsAreRotationsBits(x: bv32)
    ensures ShiftedSigma0Bits(x) == Sigma0Bits(x)
  {
    hide Turned, Rotated, Shifted, Exclusive;
    Turned7(x);
    Turned18(x);
  }

  // ----- the functions on words -----

  function Ch(x: u32, y: u32, z: u32): u32 {
    ChBits(x as bv32, y as bv32, z as bv32) as int
  }

  function Choose(x: u32, y: u32, z: u32): u32 {
    ChooseBits(x as bv32, y as bv32, z as bv32) as int
  }

  function Maj(x: u32, y: u32, z: u32): u32 {
    MajBits(x as bv32, y as bv32, z as bv32) as int
  }

  function BigSigma0(x: u32): u32 {
    BigSigma0Bits(x as bv32) as int
  }

  function BigSigma1(x: u32): u32 {
    BigSigma1Bits(x as bv32) as int
  }

  function Sigma0(x: u32): u32 {
    Sigma0Bits(x as bv32) as int
  }

  function ShiftedSigma0(x: u32): u32 {
    ShiftedSigma0Bits(x as bv32) as int
  }

  function Sigma1(x: u32): u32 {
    Sigma1Bits(x as bv32) as int
  }

  lemma {:induction false} ChooseIsCh(x: u32, y: u32, z: u32)
    ensures Choose(x, y, z) == Ch(x, y, z)
  {
    hide ChooseBits, ChBits;
    ChooseIsChBits(x as bv32, y as bv32, z as bv32);
  }

  lemma {:induction false} ShiftsAreRotations(x: u32)
    ensures ShiftedSigma0(x) == Sigma0(x)
  {
    hide ShiftedSigma0Bits, Sigma0Bits;
    ShiftsAreRotationsBits(x as bv32);
  }

  // ----- bit by bit, section 4.1 of FIPS 180-4 -----

  /** Bit `i`, counted from the lowest; indices are taken modulo 32. */
  predicate Bit(x: bv32, i: bv5) {
    (x >> i) & 1 == 1
  }

  predicate Odd(a: bool, b: bool, c: bool) {
    (a != b) != c
  }

  predicate Majority(a: bool, b: bool, c: bool) {
    (a && b) || (a && c) || (b && c)
  }

  lemma {:induction false} RawExclusiveBit(a: bv32, b: bv32, c: bv32, i: bv5)
    ensures Bit(a ^ b ^ c, i) == Odd(Bit(a, i), Bit(b, i), Bit(c, i))
  {
  }

  lemma {:induction false} ExclusiveBit(a: bv32, b: bv32, c: bv32, i: bv5)
    ensures Bit(Exclusive(a, b, c), i) == Odd(Bit(a, i), Bit(b, i), Bit(c, i))
  {
    hide Bit;
    RawExclusiveBit(a, b, c, i);
  }

  lemma {:induction false} BothBit(a: bv32, b: bv32, i: bv5)
    ensures Bit(Both(a, b), i) == (Bit(a, i) && Bit(b, i))
  {
  }

  lemma {:induction false} NegatedBit(a: bv32, i: bv5)
    ensures Bit(Negated(a), i) == !Bit(a, i)
  {
  }

  lemma {:induction false} ZeroBit(i: bv5)
    ensures !Bit(0, i)
  {
  }

  lemma {:induction false} Rotated2(x: bv32, i: bv5)
    ensures Bit(Rotated(x, 2), i) == Bit(x, i + 2)
  {
  }

  lemma {:induction false} Rotated6(x: bv32, i: bv5)
    ensures Bit(Rotated(x, 6), i) == Bit(x, i + 6)
  {
  }

  lemma {:induction false} Rotated7(x: bv32, i: bv5)
    ensures Bit(Rotated(x, 7), i) == Bit(x, i + 7)
  {
  }

  lemma {:induction false} Rotated11(x: bv32, i: bv5)
    ensures Bit(Rotated(x, 11), i) == Bit(x, i + 11)
  {
  }

  lemma {:induction false} Rotated13(x: bv32, i: bv5)
    ensures Bit(Rotated(x, 13), i) == Bit(x, i + 13)
  {
  }

  lemma {:induction false} Rotated17(x: bv32, i: bv5)
    ensures Bit(Rotated(x, 17), i) == Bit(x, i + 17)
  {
  }

  lemma {:induction false} Rotated18(x: bv32, i: bv5)
    ensures Bit(Rotated(x, 18), i) == Bit(x, i + 18)
  {
  }

  lemma {:induction false} Rotated19(x: bv32, i: bv5)
    ensures Bit(Rotated(x, 19), i) == Bit(x, i + 19)
  {
  }

  lemma {:induction false} Rotated22(x: bv32, i: bv5)
    ensures Bit(Rotated(x, 22), i) == Bit(x, i + 22)
  {
  }

  lemma {:induction false} Rotated25(x: bv32, i: bv5)
    ensures Bit(Rotated(x, 25), i) == Bit(x, i + 25)
  {
  }

  lemma {:induction false} Shifted3(x: bv32, i: bv5)
    ensures Bit(Shifted(x, 3), i) == (i < 29 && Bit(x, i + 3))
  {
  }

  lemma {:induction false} Shifted10(x: bv32, i: bv5)
    ensures Bit(Shifted(x, 10), i) == (i < 22 && Bit(x, i + 10))
  {
  }

  /** Ch takes the bit of `y` where that of `x` is set, and the bit of `z` elsewhere. */
  lemma {:induction false} ChExactly(x: u32, y: u32, z: u32, i: bv5)
    ensures var a, b, c := x as bv32, y as bv32, z as bv32;
            Ch(x, y, z) == ChBits(a, b, c) as int && Bit(ChBits(a, b, c), i) == if Bit(a, i) then Bit(b, i) else Bit(c, i)
  {
    hide Bit, Both, Negated, Exclusive;
    var a, b, c := x as bv32, y as bv32, z as bv32;
    ExclusiveBit(Both(a, b), Both(Negated(a), c), 0, i);
    BothBit(a, b, i);
    BothBit(Negated(a), c, i);
    NegatedBit(a, i);
    ZeroBit(i);
  }

  /** Maj is the majority of the three bits. */
  lemma {:induction false} MajExactly(x: u32, y: u32, z: u32, i: bv5)
    ensures var a, b, c := x as bv32, y as bv32, z as bv32;
            Maj(x, y, z) == MajBits(a, b, c) as int && Bit(MajBits(a, b, c), i) == Majority(Bit(a, i), Bit(b, i), Bit(c, i))
  {
    hide Bit, Both, Exclusive;
    var a, b, c := x as bv32, y as bv32, z as bv32;
    ExclusiveBit(Both(a, b), Both(a, c), Both(b, c), i);
    BothBit(a, b, i);
    BothBit(a, c, i);
    BothBit(b, c, i);
  }

  lemma {:induction false} BigSigma0Exactly(x: u32, i: bv5)
    ensures var a := x as bv32;
            && BigSigma0(x) == BigSigma0Bits(a) as int
            && Bit(BigSigma0Bits(a), i) == Odd(Bit(a, i + 2), Bit(a, i + 13), Bit(a, i + 22))
  {
    hide Bit, Rotated, Shifted, Exclusive;
    var a := x as bv32;
    ExclusiveBit(Rotated(a, 2), Rotated(a, 13), Rotated(a, 22), i);
    Rotated2(a, i);
    Rotated13(a, i);
    Rotated22(a, i);
  }

  lemma {:induction false} BigSigma1Exactly(x: u32, i: bv5)
    ensures var a := x as bv32;
            && BigSigma1(x) == BigSigma1Bits(a) as int
            && Bit(BigSigma1Bits(a), i) == Odd(Bit(a, i + 6), Bit(a, i + 11), Bit(a, i + 25))
  {
    hide Bit, Rotated, Shifted, Exclusive;
    var a := x as bv32;
    ExclusiveBit(Rotated(a, 6), Rotated(a, 11), Rotated(a, 25), i);
    Rotated6(a, i);
    Rotated11(a, i);
    Rotated25(a, i);
  }

  lemma {:induction false} Sigma0Exactly(x: u32, i: bv5)
    ensures var a := x as bv32;
            && Sigma0(x) == Sigma0Bits(a) as int
            && Bit(Sigma0Bits(a), i) == Odd(Bit(a, i + 7), Bit(a, i + 18), i < 29 && Bit(a, i + 3))
  {
    hide Bit, Rotated, Shifted, Exclusive;
    var a := x as bv32;
    ExclusiveBit(Rotated(a, 7), Rotated(a, 18), Shifted(a, 3), i);
    Rotated7(a, i);
    Rotated18(a, i);
    Shifted3(a, i);
  }

  lemma {:induction false} Sigma1Exactly(x: u32, i: bv5)
    ensures var a := x as bv32;
            && Sigma1(x) == Sigma1Bits(a) as int
            && Bit(Sigma1Bits(a), i) == Odd(Bit(a, i + 17), Bit(a, i + 19), i < 22 && Bit(a, i + 10))
  {
    hide Bit, Rotated, Shifted, Exclusive;
    var a := x as bv32;
    ExclusiveBit(Rotated(a, 17), Rotated(a, 19), Shifted(a, 10), i);
    Rotated17(a, i);
    Rotated19(a, i);
    Shifted10(a, i);
  }
}
