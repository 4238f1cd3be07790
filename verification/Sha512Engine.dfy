/**
 The streaming engine of sha512.rs, with its message length kept in two 64-bit words.
 BlockBuffer comes from another crate and is modelled by its contract.
 */
module Sha512Engine {
  import opened ByteCodec
  import opened BlockStream
  import opened Sha512Bits
  import opened Sha512Block

  const TWO61: nat := 0x2000_0000_0000_0000
  const TWO64: nat := 0x1_0000_0000_0000_0000
  const TWO128: nat := 0x1_0000_0000_0000_0000_0000_0000_0000_0000

  /** consts.rs, H512, H384, H512_TRUNC_256 and H512_TRUNC_224. */
  const H512: seq<u64> := [
    0x6a09_e667_f3bc_c908, 0xbb67_ae85_84ca_a73b, 0x3c6e_f372_fe94_f82b, 0xa54f_f53a_5f1d_36f1,
    0x510e_527f_ade6_82d1, 0x9b05_688c_2b3e_6c1f, 0x1f83_d9ab_fb41_bd6b, 0x5be0_cd19_137e_2179
  ]
  const H384: seq<u64> := [
    0xcbbb_9d5d_c105_9ed8, 0x629a_292a_367c_d507, 0x9159_015a_3070_dd17, 0x152f_ecd8_f70e_5939,
    0x6733_2667_ffc0_0b31, 0x8eb4_4a87_6858_1511, 0xdb0c_2e0d_64f9_8fa7, 0x47b5_481d_befa_4fa4
  ]
  const H512_TRUNC_256: seq<u64> := [
    0x2231_2194_fc2b_f72c, 0x9f55_5fa3_c84c_64c2, 0x2393_b86b_6f53_b151, 0x9638_7719_5940_eabd,
    0x9628_3ee2_a88e_ffe3, 0xbe5e_1e25_5386_3992, 0x2b01_99fc_2c85_b8aa, 0x0eb7_2ddc_81c5_2ca2
  ]
  const H512_TRUNC_224: seq<u64> := [
    0x8c3d_37c8_1954_4da2, 0x73e1_9966_89dc_d4d6, 0x1dfa_b7ae_32ff_9c82, 0x679d_d514_582f_9fcf,
    0x0f6d_2b69_7bd4_4da8, 0x77e3_6f73_04c4_8942, 0x3f9d_85a8_6a1d_36c8, 0x1112_e6ad_91d6_92a1
  ]

  // ----- FIPS 180-4, section 6.4, on bytes -----

  function WordAt(b: bytes, i: nat): u64
    requires 8 * i + 8 <= |b|
  {
    var w := b[8 * i..8 * i + 8];
    ToFromBE(w);
    assert Pow256(8) == TWO64;
    FromBE(w)
  }

  /** BE::read_u64_into. */
  function WordsOf(b: bytes): Block
    requires |b| == 128
  {
    seq(16, i requires 0 <= i < 16 => WordAt(b, i))
  }

  function CompressBytes(h: Hash, b: bytes): Hash {
    if |b| == 128 then Compress(h, WordsOf(b)) else h
  }

  /** The length field: the number of message bits as 128 bits. */
  function LengthField(message: bytes): (f: bytes)
    ensures |f| == 16
  {
    ToBE(8 * |message| % TWO128, 16)
  }

  /** The hash value of a message from a given initial value. */
  function HashMessage(init: Hash, message: bytes): Hash {
    HashWith(init, LengthField(message), message)
  }

  function HashWith(init: Hash, field: bytes, message: bytes): Hash {
    Absorb(CompressBytes, 128, init, Pad(128, field, message))
  }

  /** BE::write_u64_into. */
  function WordsToBytes(words: seq<u64>): (b: bytes)
    ensures |b| == 8 * |words|
  {
    if words == [] then [] else ToBE(words[0], 8) + WordsToBytes(words[1..])
  }

  function WordsOfHash(h: Hash): (s: seq<u64>)
    ensures |s| == 8
  {
    [h.a, h.b, h.c, h.d, h.e, h.f, h.g, h.h]
  }

  /** The functions the engine serves. */
  datatype Variant = Sha512 | Sha384 | Sha512Trunc256 | Sha512Trunc224

  function Initial(v: Variant): (h: seq<u64>)
    ensures |h| == 8
  {
    match v
    case Sha512 => H512
    case Sha384 => H384
    case Sha512Trunc256 => H512_TRUNC_256
    case Sha512Trunc224 => H512_TRUNC_224
  }

  function DigestLength(v: Variant): (n: nat)
    ensures n <= 64
  {
    match v
    case Sha512 => 64
    case Sha384 => 48
    case Sha512Trunc256 => 32
    case Sha512Trunc224 => 28
  }

  /** The leftmost bits of the hash value. */
  function Digest(v: Variant, message: bytes): (digest: bytes)
    ensures |digest| == DigestLength(v)
  {
    WordsToBytes(WordsOfHash(HashMessage(HashOf(Initial(v)), message)))[..DigestLength(v)]
  }

  lemma {:induction false} FirstWords(words: seq<u64>, n: nat)
    requires n <= |words|
    ensures WordsToBytes(words[..n]) == WordsToBytes(words)[..8 * n]
  {
    hide ToBE;
    if n == 0 {
      assert WordsToBytes(words[..0]) == [];
    } else {
      assert words[..n][1..] == words[1..][..n - 1];
      FirstWords(words[1..], n - 1);
    }
  }

  /** The upper half of a word is its first four bytes. */
  lemma {:induction false} UpperHalf(x: u64)
    ensures x / 0x1_0000_0000 < 0x1_0000_0000 && ToBE(x / 0x1_0000_0000, 4) == ToBE(x, 8)[..4]
  {
    var low := x % 0x1_0000_0000;
    assert Pow256(4) == 0x1_0000_0000;
    SplitBE(x / 0x1_0000_0000, low, 4, 4);
    assert x == x / 0x1_0000_0000 * Pow256(4) + low;
  }

  /** fixed_result: whole words, and for SHA-512/224 the upper half of one more. */
  method FixedResult(v: Variant, h: seq<u64>) returns (out: bytes)
    requires |h| == 8
    ensures out == WordsToBytes(h)[..DigestLength(v)]
  {
    hide ToBE;
    if v == Sha512Trunc224 {
      out := WordsToBytes(h[..3]) + ToBE(h[3] / 0x1_0000_0000, 4);
      FirstWords(h, 3);
      FirstWords(h, 4);
      UpperHalf(h[3]);
      WordBytes(h, 3);
    } else {
      out := WordsToBytes(h[..DigestLength(v) / 8]);
      FirstWords(h, DigestLength(v) / 8);
    }
  }

  lemma {:induction false} WordBytes(words: seq<u64>, i: nat)
    requires i < |words|
    ensures WordsToBytes(words)[8 * i..8 * i + 8] == ToBE(words[i], 8)
  {
    hide ToBE;
    if i == 0 {
    } else {
      WordBytes(words[1..], i - 1);
    }
  }

  // ----- the two-word counter -----

  /** overflowing_add of the bit count to the low word, with the carry into the high word. */
  function AddBits(hi: u64, lo: u64, count: nat): (u64, u64) {
    var sum := lo + (8 * count) % TWO64;
    if sum >= TWO64 then ((hi + 1) % TWO64, sum - TWO64) else (hi, sum)
  }

  function Counter(hi: u64, lo: u64): nat {
    hi * TWO64 + lo
  }

  /** The counter moves by the number of bits, modulo 2^128, exactly when the shift by three loses none of them. */
  lemma {:induction false} AddBitsExactly(hi: u64, lo: u64, count: nat)
    requires count < TWO64
    ensures var (hi', lo') := AddBits(hi, lo, count);
            Counter(hi', lo') == (Counter(hi, lo) + 8 * count) % TWO128 <==> count < TWO61
  {
  }

  lemma {:induction false} CounterBytes(hi: u64, lo: u64)
    ensures ToBE(hi, 8) + ToBE(lo, 8) == ToBE(Counter(hi, lo), 16)
  {
    SplitBE(hi, lo, 8, 8);
  }

  lemma {:induction false} SplitBE(hi: nat, lo: nat, j: nat, k: nat)
    requires lo < Pow256(k)
    ensures ToBE(hi * Pow256(k) + lo, j + k) == ToBE(hi, j) + ToBE(lo, k)
    decreases k
  {
    if k == 0 {
    } else {
      var n, p := hi * Pow256(k) + lo, Pow256(k - 1);
      assert hi * (256 * p) == 256 * (hi * p);
      assert n == 256 * (hi * p + lo / 256) + lo % 256;
      SplitBE(hi, lo / 256, j, k - 1);
      assert ToBE(n, j + k) == ToBE(n / 256, j + (k - 1)) + [n % 256];
      assert ToBE(hi, j) + (ToBE(lo / 256, k - 1) + [lo % 256]) == ToBE(hi, j) + ToBE(lo / 256, k - 1) + [lo % 256];
    }
  }

  // ----- the engine -----

  class Engine512 {
    var hi: u64
    var lo: u64
    var buffer: bytes
    const state: array<u64>
    ghost const init: Hash
    ghost var message: bytes

    /** The message so far is absorbed up to the last whole block, and the rest is in the buffer. */
    ghost predicate Absorbed()
      reads this, state
    {
      && state.Length == 8
      && buffer == Rest(128, message)
      && HashOf(state[..]) == Absorb(CompressBytes, 128, init, message)
    }

    ghost predicate Counted()
      reads this
    {
      Counter(hi, lo) == 8 * |message| % TWO128
    }

    /** Less than a block is pending. */
    ghost predicate Sized()
      reads this, state
    {
      state.Length == 8 && |buffer| < 128
    }

    constructor (h: seq<u64>)
      requires |h| == 8
      ensures Absorbed() && Counted() && message == [] && init == HashOf(h) && fresh(state)
    {
      hi, lo, buffer := 0, 0, [];
      var a := new u64[8](i requires 0 <= i < 8 => h[i]);
      state := a;
      init := HashOf(h);
      message := [];
      new;
      assert state[..] == h;
    }

    /** compress512: big-endian words, then the block function. */
    method ProcessBlock(block: bytes)
      requires state.Length == 8 && |block| == 128
      modifies state
      ensures HashOf(state[..]) == CompressBytes(HashOf(old(state[..])), block)
    {
      hide Compress;
      DigestBlock(state, WordsOf(block));
    }

    method CountBits(count: nat)
      modifies `hi, `lo
      ensures (hi, lo) == AddBits(old(hi), old(lo), count)
    {
      var over := lo + (8 * count) % TWO64 >= TWO64;
      lo := (lo + (8 * count) % TWO64) % TWO64;
      if over {
        hi := (hi + 1) % TWO64;
      }
    }

    /** The data is absorbed whatever its size; the counter stays right exactly if the data is below 2^61 bytes. */
    method Input(data: bytes)
      requires Sized() && |data| < TWO64
      modifies this, state
      ensures Sized() && message == old(message) + data
      ensures old(Absorbed()) ==> Absorbed()
      ensures (hi, lo) == AddBits(old(hi), old(lo), |data|)
      ensures old(Counted()) ==> (Counted() <==> |data| < TWO61)
    {
      hide CompressBytes, Absorb, Rest, Counter, AddBits;
      CounterStep(|message|, |data|);
      AddBitsExactly(hi, lo, |data|);
      CountBits(|data|);
      ghost var h, all := HashOf(state[..]), buffer + data;
      AbsorbSplit(CompressBytes, 128, init, message, data);
      var pending := buffer + data;
      while |pending| >= 128
        invariant Absorb(CompressBytes, 128, h, all) == Absorb(CompressBytes, 128, HashOf(state[..]), pending)
        invariant Rest(128, all) == Rest(128, pending)
        decreases |pending|
        modifies state
      {
        DropBlock(CompressBytes, 128, HashOf(state[..]), pending);
        ProcessBlock(pending[..128]);
        pending := pending[128..];
      }
      NoBlock(CompressBytes, 128, HashOf(state[..]), pending);
      buffer := pending;
      message := message + data;
    }

    /** len128_padding_be: the end marker, zeros, and the two counter words at the end of a block. */
    method Finish()
      requires Sized()
      modifies this, state
      ensures state.Length == 8
      ensures old(Absorbed()) ==>
                HashOf(state[..]) == HashWith(init, ToBE(Counter(old(hi), old(lo)), 16), old(message))
      ensures old(Absorbed() && Counted()) ==> HashOf(state[..]) == HashMessage(init, old(message))
    {
      hide CompressBytes, Absorb, Rest, ToBE, Counter;
      AbsorbPadded(CompressBytes, 128, init, ToBE(Counter(hi, lo), 16), message);
      CounterBytes(hi, lo);
      var rest := buffer + [0x80];
      if 128 - |rest| < 16 {
        ProcessBlock(rest + Zeros(128 - |rest|));
        rest := [];
      }
      ProcessBlock(rest + Zeros(112 - |rest|) + (ToBE(hi, 8) + ToBE(lo, 8)));
      assert [] + Zeros(112) + (ToBE(hi, 8) + ToBE(lo, 8)) == Zeros(112) + (ToBE(hi, 8) + ToBE(lo, 8));
    }
  }

  lemma {:induction false} CounterStep(before: nat, more: nat)
    ensures (8 * before % TWO128 + 8 * more) % TWO128 == 8 * (before + more) % TWO128
  {
  }

  /** Any way of cutting a message into pieces whose bits the counter can take gives the digest of the standard. */
  method HashPieces(v: Variant, pieces: seq<bytes>) returns (digest: bytes)
    requires forall p | p in pieces :: |p| < TWO64
    ensures (forall p | p in pieces :: |p| < TWO61) ==> digest == Digest(v, Joined(pieces))
  {
    hide HashMessage, HashWith, Counter, Absorb, Rest, Initial, AddBits, ToBE;
    var engine := new Engine512(Initial(v));
    for i := 0 to |pieces|
      invariant fresh(engine) && fresh(engine.state)
      invariant engine.Absorbed() && engine.init == HashOf(Initial(v))
      invariant (forall p | p in pieces :: |p| < TWO61) ==> engine.Counted()
      invariant engine.message == Joined(pieces[..i])
    {
      assert pieces[i] in pieces;
      engine.Input(pieces[i]);
      JoinedPush(pieces[..i], pieces[i]);
      assert pieces[..i + 1] == pieces[..i] + [pieces[i]];
    }
    assert pieces[..|pieces|] == pieces;
    engine.Finish();
    digest := FixedResult(v, engine.state[..]);
    assert engine.state[..] == WordsOfHash(HashOf(engine.state[..]));
  }
}
