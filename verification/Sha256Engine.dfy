/**
 The streaming engine of sha256.rs and its snapshot extension. BlockBuffer comes from another
 crate and is modelled by its contract: it holds the bytes that do not fill a block yet.
 */
module Sha256Engine {
  import opened ByteCodec
  import opened BlockStream
  import opened Sha256Bits
  import opened Sha256Block

  const TWO64: nat := 0x1_0000_0000_0000_0000

  /** consts.rs, H256 and H224. */
  const H256: seq<u32> := [
    0x6a09_e667, 0xbb67_ae85, 0x3c6e_f372, 0xa54f_f53a, 0x510e_527f, 0x9b05_688c, 0x1f83_d9ab, 0x5be0_cd19
  ]
  const H224: seq<u32> := [
    0xc105_9ed8, 0x367c_d507, 0x3070_dd17, 0xf70e_5939, 0xffc0_0b31, 0x6858_1511, 0x64f9_8fa7, 0xbefa_4fa4
  ]

  // ----- FIPS 180-4, section 6.2, on bytes -----

  function WordAt(b: bytes, i: nat): u32
    requires 4 * i + 4 <= |b|
  {
    var w := b[4 * i..4 * i + 4];
    ToFromBE(w);
    assert Pow256(4) == 0x1_0000_0000;
    FromBE(w)
  }

  /** BE::read_u32_into. */
  function WordsOf(b: bytes): Block
    requires |b| == 64
  {
    seq(16, i requires 0 <= i < 16 => WordAt(b, i))
  }

  function CompressBytes(h: Hash, b: bytes): Hash {
    if |b| == 64 then Compress(h, WordsOf(b)) else h
  }

  /** The length field: the number of message bits as 64 bits. */
  function LengthField(message: bytes): (f: bytes)
    ensures |f| == 8
  {
    ToBE(8 * |message| % TWO64, 8)
  }

  /** The hash value of a message from a given initial value. */
  function HashMessage(init: Hash, message: bytes): Hash {
    Absorb(CompressBytes, 64, init, Pad(64, LengthField(message), message))
  }

  /** BE::write_u32_into. */
  function WordsToBytes(words: seq<u32>): (b: bytes)
    ensures |b| == 4 * |words|
  {
    if words == [] then [] else ToBE(words[0], 4) + WordsToBytes(words[1..])
  }

  function WordsOfHash(h: Hash): (s: seq<u32>)
    ensures |s| == 8
  {
    [h.a, h.b, h.c, h.d, h.e, h.f, h.g, h.h]
  }

  /** The two functions the engine serves. */
  datatype Variant = Sha256 | Sha224

  function Initial(v: Variant): (h: seq<u32>)
    ensures |h| == 8
  {
    match v
    case Sha256 => H256
    case Sha224 => H224
  }

  function WordCount(v: Variant): (n: nat)
    ensures n <= 8
  {
    match v
    case Sha256 => 8
    case Sha224 => 7
  }

  /** The leftmost bits of the hash value. */
  function Digest(v: Variant, message: bytes): (digest: bytes)
    ensures |digest| == 4 * WordCount(v)
  {
    WordsToBytes(WordsOfHash(HashMessage(HashOf(Initial(v)), message)))[..4 * WordCount(v)]
  }

  lemma {:induction false} FirstWords(words: seq<u32>, n: nat)
    requires n <= |words|
    ensures WordsToBytes(words[..n]) == WordsToBytes(words)[..4 * n]
  {
    hide ToBE;
    if n == 0 {
      assert WordsToBytes(words[..0]) == [];
    } else {
      assert words[..n][1..] == words[1..][..n - 1];
      FirstWords(words[1..], n - 1);
    }
  }

  // ----- the engine -----

  class Engine256 {
    var len: nat
    var buffer: bytes
    const state: array<u32>
    ghost const init: Hash
    ghost var message: bytes

    /** The message so far is absorbed up to the last whole block, and the rest is in the buffer. */
    ghost predicate Valid()
      reads this, state
    {
      && state.Length == 8
      && len == 8 * |message| % TWO64
      && buffer == Rest(64, message)
      && HashOf(state[..]) == Absorb(CompressBytes, 64, init, message)
    }

    /** Less than a block is pending. */
    ghost predicate Sized()
      reads this, state
    {
      state.Length == 8 && |buffer| < 64
    }

    constructor (h: seq<u32>)
      requires |h| == 8
      ensures Valid() && message == [] && init == HashOf(h) && fresh(state)
    {
      len, buffer := 0, [];
      var a := new u32[8](i requires 0 <= i < 8 => h[i]);
      state := a;
      init := HashOf(h);
      message := [];
      new;
      assert state[..] == h;
    }

    /**
     Engine256::from: the buffer starts empty. The new engine goes on as if it had read `read` itself exactly when
     the counter and the hash are those of `read` and `read` is a whole number of blocks.
     */
    constructor From(savedLen: nat, saved: seq<u32>, ghost start: Hash, ghost read: bytes)
      requires |saved| == 8
      ensures len == savedLen && buffer == [] && state[..] == saved
      ensures message == read && init == start && fresh(state)
      ensures Valid() <==>
              && savedLen == 8 * |read| % TWO64
              && |read| % 64 == 0
              && HashOf(saved) == Absorb(CompressBytes, 64, start, read)
    {
      len, buffer := savedLen, [];
      var a := new u32[8](i requires 0 <= i < 8 => saved[i]);
      state := a;
      init := start;
      message := read;
      new;
      assert state[..] == saved;
    }

    method GetState() returns (savedLen: nat, saved: seq<u32>)
      ensures savedLen == len && saved == state[..]
    {
      savedLen, saved := len, state[..];
    }

    /** compress256: big-endian words, then the block function. */
    method ProcessBlock(block: bytes)
      requires state.Length == 8 && |block| == 64
      modifies state
      ensures HashOf(state[..]) == CompressBytes(HashOf(old(state[..])), block)
    {
      hide Compress;
      DigestBlock(state, WordsOf(block));
    }

    method Input(data: bytes)
      requires Sized()
      modifies this, state
      ensures Sized() && message == old(message) + data
      ensures old(Valid()) ==> Valid()
    {
      hide CompressBytes, Absorb, Rest;
      CounterStep(|message|, |data|);
      len := (len + 8 * |data|) % TWO64;
      ghost var h, all := HashOf(state[..]), buffer + data;
      AbsorbSplit(CompressBytes, 64, init, message, data);
      var pending := buffer + data;
      while |pending| >= 64
        invariant Absorb(CompressBytes, 64, h, all) == Absorb(CompressBytes, 64, HashOf(state[..]), pending)
        invariant Rest(64, all) == Rest(64, pending)
        decreases |pending|
        modifies state
      {
        DropBlock(CompressBytes, 64, HashOf(state[..]), pending);
        ProcessBlock(pending[..64]);
        pending := pending[64..];
      }
      NoBlock(CompressBytes, 64, HashOf(state[..]), pending);
      buffer := pending;
      message := message + data;
    }

    /** len64_padding: the end marker, zeros, and the length in the last eight bytes of a block. */
    method Finish()
      requires Sized()
      modifies this, state
      ensures state.Length == 8
      ensures old(Valid()) ==> HashOf(state[..]) == HashMessage(init, old(message))
    {
      hide CompressBytes, Absorb, Rest, ToBE;
      AbsorbPadded(CompressBytes, 64, init, LengthField(message), message);
      var rest := buffer + [0x80];
      if 64 - |rest| < 8 {
        ProcessBlock(rest + Zeros(64 - |rest|));
        rest := [];
      }
      ProcessBlock(rest + Zeros(56 - |rest|) + ToBE(len, 8));
      assert [] + Zeros(56) + ToBE(len, 8) == Zeros(56) + ToBE(len, 8);
    }
  }

  lemma {:induction false} CounterStep(before: nat, more: nat)
    ensures (8 * before % TWO64 + 8 * more) % TWO64 == 8 * (before + more) % TWO64
  {
  }

  /** Any way of cutting a message into pieces gives the digest of the standard. */
  method HashPieces(v: Variant, pieces: seq<bytes>) returns (digest: bytes)
    ensures digest == Digest(v, Joined(pieces))
  {
    hide HashMessage, Absorb, Rest, Initial;
    var engine := new Engine256(Initial(v));
    for i := 0 to |pieces|
      invariant fresh(engine) && fresh(engine.state)
      invariant engine.Valid() && engine.init == HashOf(Initial(v))
      invariant engine.message == Joined(pieces[..i])
    {
      engine.Input(pieces[i]);
      JoinedPush(pieces[..i], pieces[i]);
      assert pieces[..i + 1] == pieces[..i] + [pieces[i]];
    }
    assert pieces[..|pieces|] == pieces;
    engine.Finish();
    digest := WordsToBytes(engine.state[..WordCount(v)]);
    assert engine.state[..] == WordsOfHash(HashOf(engine.state[..]));
    assert engine.state[..WordCount(v)] == engine.state[..][..WordCount(v)];
    FirstWords(engine.state[..], WordCount(v));
  }

  /** Saving the engine at a block boundary and resuming from the snapshot does not change the digest. */
  method HashResumed(first: bytes, second: bytes) returns (digest: bytes)
    requires |first| % 64 == 0
    ensures digest == Digest(Sha256, first + second)
  {
    hide HashMessage, Absorb, Rest;
    var engine := new Engine256(H256);
    engine.Input(first);
    var savedLen, saved := engine.GetState();
    var resumed := new Engine256.From(savedLen, saved, HashOf(H256), first);
    assert [] + first == first;
    resumed.Input(second);
    resumed.Finish();
    digest := WordsToBytes(resumed.state[..]);
    assert resumed.state[..] == WordsOfHash(HashOf(resumed.state[..]));
    assert digest[..32] == digest;
  }
}
