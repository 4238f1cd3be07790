/**
 The ABI encoder (encoder.rs): tokens become a tree of mediates, and a mediate list is laid
 out as head words followed by tail words.

 Lengths and offsets are u32 in the source. A sum that wraps is congruent to the unbounded
 sum, so the model adds without bound and reduces modulo 2^32 where a number becomes a word.
 */
module AbiEncoder {
  import opened ByteCodec
  import opened AbiTypes
  import opened AbiSpec

  datatype Mediate =
    | Raw(words: seq<word>)
    | Prefixed(words: seq<word>)
    | PrefixedArray(mediates: seq<Mediate>)
    | PrefixedArrayWithLength(mediates: seq<Mediate>)
    | RawTuple(mediates: seq<Mediate>)
    | PrefixedTuple(mediates: seq<Mediate>)

  predicate IsPrefixed(m: Mediate) {
    !m.Raw? && !m.RawTuple?
  }

  /** util::pad_u32. */
  function PadU32(value: nat): word {
    Zeros(28) + ToBE(value % 0x1_0000_0000, 4)
  }

  function Flatten(ws: seq<word>): (s: bytes)
    ensures |s| == 32 * |ws|
  {
    if ws == [] then [] else ws[0] + Flatten(ws[1..])
  }

  function PaddedWords(b: bytes): (ws: seq<word>)
    ensures |ws| == Words(|b|)
  {
    if b == [] then []
    else if |b| <= 32 then [b + Zeros(32 - |b|)]
    else [b[..32]] + PaddedWords(b[32..])
  }

  /** pad_fixed_bytes: one zeroed word per step, with the bytes that fall into it copied over. */
  method PadFixedBytes(b: bytes) returns (result: seq<word>)
    ensures result == PaddedWords(b)
    ensures Flatten(result) == PadRight(b)
  {
    var len := (|b| + 31) / 32;
    result := [];
    for i := 0 to len
      invariant |result| == i
      invariant forall k | 0 <= k < i :: result[k] == PaddedWords(b)[k]
    {
      var padded := new byte[32](_ => 0);
      var toCopy := if i != len - 1 then 32 else if |b| % 32 == 0 then 32 else |b| % 32;
      var offset := 32 * i;
      for j := 0 to toCopy
        invariant forall k | 0 <= k < 32 :: padded[k] == if k < j then b[offset + k] else 0
      {
        padded[j] := b[offset + j];
      }
      PaddedWordsAt(b, i, padded[..]);
      result := result + [padded[..]];
    }
    FlattenPadded(b);
  }

  /** Word `i` holds the bytes from `32 * i` on, and zeros past the end. */
  lemma {:induction false} PaddedWordsAt(b: bytes, i: nat, w: word)
    requires i < Words(|b|)
    requires forall k | 0 <= k < 32 :: w[k] == if 32 * i + k < |b| then b[32 * i + k] else 0
    ensures PaddedWords(b)[i] == w
  {
    if |b| > 32 && i > 0 {
      forall k | 0 <= k < 32
        ensures w[k] == if 32 * (i - 1) + k < |b[32..]| then b[32..][32 * (i - 1) + k] else 0
      {
      }
      PaddedWordsAt(b[32..], i - 1, w);
    }
  }

  lemma {:induction false} FlattenPadded(b: bytes)
    ensures Flatten(PaddedWords(b)) == PadRight(b)
  {
    if |b| > 32 {
      FlattenPadded(b[32..]);
      assert b == b[..32] + b[32..];
    } else if b != [] {
      assert Flatten(PaddedWords(b)) == PaddedWords(b)[0] + [];
    }
  }

  function HeadLen(m: Mediate): nat
    decreases m, 0
  {
    match m
    case Raw(words) => 32 * |words|
    case RawTuple(mediates) => HeadsLen(mediates)
    case _ => 32
  }

  function HeadsLen(ms: seq<Mediate>): nat
    decreases ms, 1
  {
    if ms == [] then 0 else HeadLen(ms[0]) + HeadsLen(ms[1..])
  }

  function TailLen(m: Mediate): nat
    decreases m, 0
  {
    match m
    case Raw(_) => 0
    case RawTuple(_) => 0
    case Prefixed(words) => 32 * |words|
    case PrefixedArray(mediates) => HeadsLen(mediates) + TailsLen(mediates)
    case PrefixedArrayWithLength(mediates) => 32 + HeadsLen(mediates) + TailsLen(mediates)
    case PrefixedTuple(mediates) => HeadsLen(mediates) + TailsLen(mediates)
  }

  function TailsLen(ms: seq<Mediate>): nat
    decreases ms, 1
  {
    if ms == [] then 0 else TailLen(ms[0]) + TailsLen(ms[1..])
  }

  function HeadWords(m: Mediate, suffixOffset: nat): seq<word>
    decreases m, 0
  {
    match m
    case Raw(words) => words
    case RawTuple(mediates) => TupleHeads(mediates)
    case _ => [PadU32(suffixOffset)]
  }

  /** The elements of an inlined tuple are all given offset 0. */
  function TupleHeads(ms: seq<Mediate>): seq<word>
    decreases ms, 1
  {
    if ms == [] then [] else HeadWords(ms[0], 0) + TupleHeads(ms[1..])
  }

  function HeadsWords(ms: seq<Mediate>, offset: nat): seq<word>
    decreases ms, 1
  {
    if ms == [] then [] else HeadWords(ms[0], offset) + HeadsWords(ms[1..], offset + TailLen(ms[0]))
  }

  function TailWords(m: Mediate): seq<word>
    decreases m, 0
  {
    match m
    case Raw(_) => []
    case RawTuple(_) => []
    case Prefixed(words) => words
    case PrefixedArray(mediates) => EncodeHeadTail(mediates)
    case PrefixedArrayWithLength(mediates) => [PadU32(|mediates|)] + EncodeHeadTail(mediates)
    case PrefixedTuple(mediates) => EncodeHeadTail(mediates)
  }

  function TailsWords(ms: seq<Mediate>): seq<word>
    decreases ms, 1
  {
    if ms == [] then [] else TailWords(ms[0]) + TailsWords(ms[1..])
  }

  function EncodeHeadTail(ms: seq<Mediate>): seq<word>
    decreases ms, 2
  {
    HeadsWords(ms, HeadsLen(ms)) + TailsWords(ms)
  }

  function EncodeToken(t: Token): Mediate
    decreases t, 0
  {
    match t
    case Address(id) => Raw([id])
    case Bytes(data) => Prefixed([PadU32(|data|)] + PaddedWords(data))
    case String(data) => Prefixed([PadU32(|data|)] + PaddedWords(data))
    case FixedBytes(data) => Raw(PaddedWords(data))
    case Int(value) => Raw([ToBE(value, 32)])
    case Uint(value) => Raw([ToBE(value, 32)])
    case Bool(flag) => Raw([Zeros(31) + [if flag then 1 else 0]])
    case Array(items) => PrefixedArrayWithLength(EncodeTokens(items))
    case FixedArray(items) =>
      if IsDynamic(t) then PrefixedArray(EncodeTokens(items)) else Raw(EncodeHeadTail(EncodeTokens(items)))
    case Tuple(items) =>
      if IsDynamic(t) then PrefixedTuple(EncodeTokens(items)) else RawTuple(EncodeTokens(items))
  }

  function EncodeTokens(ts: seq<Token>): (ms: seq<Mediate>)
    ensures |ms| == |ts|
    decreases ts, 1
  {
    if ts == [] then [] else [EncodeToken(ts[0])] + EncodeTokens(ts[1..])
  }

  function Encode(ts: seq<Token>): bytes {
    Flatten(EncodeHeadTail(EncodeTokens(ts)))
  }

  // ----- layout of every mediate tree -----

  /** The lengths that the offsets are computed from are the lengths of what is written. */
  lemma {:induction false} LayoutExact(m: Mediate, offset: nat)
    ensures 32 * |HeadWords(m, offset)| == HeadLen(m)
    ensures 32 * |TailWords(m)| == TailLen(m)
    decreases m, 0
  {
    match m
    case RawTuple(mediates) => LayoutsExact(mediates, 0);
    case PrefixedArray(mediates) => LayoutsExact(mediates, HeadsLen(mediates));
    case PrefixedArrayWithLength(mediates) => LayoutsExact(mediates, HeadsLen(mediates));
    case PrefixedTuple(mediates) => LayoutsExact(mediates, HeadsLen(mediates));
    case _ =>
  }

  lemma {:induction false} LayoutsExact(ms: seq<Mediate>, offset: nat)
    ensures 32 * |HeadsWords(ms, offset)| == 32 * |TupleHeads(ms)| == HeadsLen(ms)
    ensures 32 * |TailsWords(ms)| == TailsLen(ms)
    decreases ms, 1
  {
    if ms == [] {
    } else {
      LayoutExact(ms[0], offset);
      LayoutExact(ms[0], 0);
      LayoutsExact(ms[1..], offset + TailLen(ms[0]));
    }
  }

  predicate WordsAt(block: seq<word>, pos: nat, ws: seq<word>) {
    pos + |ws| <= |block| && block[pos..pos + |ws|] == ws
  }

  lemma {:induction false} Assoc<T>(a: seq<T>, b: seq<T>, c: seq<T>)
    ensures a + (b + c) == (a + b) + c
  {
  }

  lemma {:induction false} WordsAtMiddle(a: seq<word>, b: seq<word>, c: seq<word>)
    ensures WordsAt(a + b + c, |a|, b)
  {
  }

  lemma {:induction false} HeadsConcat(a: seq<Mediate>, b: seq<Mediate>, offset: nat)
    ensures HeadsWords(a + b, offset) == HeadsWords(a, offset) + HeadsWords(b, offset + TailsLen(a))
    ensures TailsWords(a + b) == TailsWords(a) + TailsWords(b)
  {
    hide HeadWords, TailWords, TailLen;
    if a == [] {
      assert a + b == b;
    } else {
      assert (a + b)[0] == a[0] && (a + b)[1..] == a[1..] + b;
      var next := offset + TailLen(a[0]);
      HeadsConcat(a[1..], b, next);
      Assoc(HeadWords(a[0], offset), HeadsWords(a[1..], next), HeadsWords(b, offset + TailsLen(a)));
      Assoc(TailWords(a[0]), TailsWords(a[1..]), TailsWords(b));
    }
  }

  /**
   In the block of a mediate list the i-th head stands after the heads before it, the i-th tail stands
   after all heads and the tails before it, and a prefixed head is the byte offset of that tail.
   */
  lemma {:induction false} OffsetsPointAtTails(ms: seq<Mediate>, i: nat)
    requires i < |ms|
    ensures var block := EncodeHeadTail(ms);
            var head, tail := HeadsLen(ms[..i]), HeadsLen(ms) + TailsLen(ms[..i]);
            && head % 32 == tail % 32 == 0
            && WordsAt(block, head / 32, HeadWords(ms[i], tail))
            && WordsAt(block, tail / 32, TailWords(ms[i]))
            && (IsPrefixed(ms[i]) ==> WordsAt(block, head / 32, [PadU32(tail)]))
  {
    var offset, a := HeadsLen(ms), ms[..i];
    var tail := offset + TailsLen(a);
    PrefixCounts(ms, a, offset);
    var post, post' := SplitAt(ms, i, offset);
    BlockMiddle(HeadsWords(a, offset), HeadWords(ms[i], tail), post, TailsWords(a), TailWords(ms[i]), post');
  }

  lemma {:induction false} PrefixCounts(ms: seq<Mediate>, a: seq<Mediate>, offset: nat)
    ensures var head, tail := HeadsLen(a), HeadsLen(ms) + TailsLen(a);
            && head % 32 == tail % 32 == 0
            && head / 32 == |HeadsWords(a, offset)|
            && tail / 32 == |HeadsWords(ms, offset)| + |TailsWords(a)|
  {
    LayoutsExact(a, offset);
    LayoutsExact(ms, offset);
    Div32(HeadsLen(a), |HeadsWords(a, offset)|);
    Div32(HeadsLen(ms) + TailsLen(a), |HeadsWords(ms, offset)| + |TailsWords(a)|);
  }

  lemma {:induction false} Div32(n: nat, k: nat)
    requires n == 32 * k
    ensures n % 32 == 0 && n / 32 == k
  {
  }

  lemma {:induction false} SplitAt(ms: seq<Mediate>, i: nat, offset: nat) returns (heads: seq<word>, tails: seq<word>)
    requires i < |ms|
    ensures HeadsWords(ms, offset) ==
            HeadsWords(ms[..i], offset) + (HeadWords(ms[i], offset + TailsLen(ms[..i])) + heads)
    ensures TailsWords(ms) == TailsWords(ms[..i]) + (TailWords(ms[i]) + tails)
  {
    var a, m, b := ms[..i], ms[i], ms[i + 1..];
    var tail := offset + TailsLen(a);
    assert ms == a + ([m] + b);
    HeadsConcat(a, [m] + b, offset);
    HeadsConcat([m], b, tail);
    OneMediate(m, tail);
    heads, tails := HeadsWords(b, tail + TailLen(m)), TailsWords(b);
  }

  lemma {:induction false} BlockMiddle(pre: seq<word>, mid: seq<word>, post: seq<word>,
                    pre': seq<word>, mid': seq<word>, post': seq<word>)
    ensures var block := (pre + (mid + post)) + (pre' + (mid' + post'));
            WordsAt(block, |pre|, mid) && WordsAt(block, |pre + (mid + post)| + |pre'|, mid')
  {
    var heads, tails := pre + (mid + post), pre' + (mid' + post');
    assert heads + tails == pre + mid + (post + tails);
    WordsAtMiddle(pre, mid, post + tails);
    assert heads + tails == (heads + pre') + mid' + post';
    WordsAtMiddle(heads + pre', mid', post');
  }

  lemma {:induction false} OneMediate(m: Mediate, offset: nat)
    ensures HeadsWords([m], offset) == HeadWords(m, offset)
    ensures TailsWords([m]) == TailWords(m)
    ensures TailsLen([m]) == TailLen(m)
  {
    assert HeadsWords([m], offset) == HeadWords(m, offset) + HeadsWords([], offset + TailLen(m));
    assert TailsWords([m]) == TailWords(m) + TailsWords([]);
  }

  // ----- the encoder against the specification -----

  lemma {:induction false} FlattenConcat(a: seq<word>, b: seq<word>)
    ensures Flatten(a + b) == Flatten(a) + Flatten(b)
  {
    if a == [] {
      assert a + b == b;
    } else {
      FlattenConcat(a[1..], b);
      assert (a + b)[0] == a[0] && (a + b)[1..] == a[1..] + b;
      assert a[0] + (Flatten(a[1..]) + Flatten(b)) == (a[0] + Flatten(a[1..])) + Flatten(b);
    }
  }

  /** A count or offset word is the 32-byte number of what is left of it in 32 bits. */
  lemma {:induction false} PadU32Wraps(n: nat)
    ensures PadU32(n) == Number(n % 0x1_0000_0000)
  {
    hide ToBE;
    PadU32IsNumber(n % 0x1_0000_0000);
  }

  lemma {:induction false} PadU32IsNumber(n: nat)
    requires n < 0x1_0000_0000
    ensures PadU32(n) == Number(n)
  {
    hide ToBE;
    assert Pow256(4) == 0x1_0000_0000;
    ToBEPadded(n, 4, 28);
  }

  lemma {:induction false} FlattenOne(w: word)
    ensures Flatten([w]) == w
  {
    assert Flatten([w]) == w + Flatten([]);
  }

  /** A sized payload: its length word, then the payload. */
  lemma {:induction false} FlattenCounted(n: nat, ws: seq<word>)
    requires n < 0x1_0000_0000
    ensures Flatten([PadU32(n)] + ws) == Number(n) + Flatten(ws)
  {
    PadU32IsNumber(n);
    FlattenConcat([PadU32(n)], ws);
    FlattenOne(PadU32(n));
  }

  predicate SomeDynamic(ts: seq<Token>) {
    exists t | t in ts :: IsDynamic(t)
  }

  /** The mediate of a static token is inlined where it stands; that of a dynamic token goes to the tail. */
  ghost predicate Renders(m: Mediate, t: Token) {
    if IsDynamic(t) then
      IsPrefixed(m) && Flatten(TailWords(m)) == Enc(t)
    else
      !IsPrefixed(m) && forall offset: nat :: Flatten(HeadWords(m, offset)) == Enc(t)
  }

  /** The number of bytes is the specified one, even where counts and offsets wrap. */
  lemma {:induction false} SizeExact(t: Token)
    ensures IsDynamic(t) <==> IsPrefixed(EncodeToken(t))
    ensures HeadLen(EncodeToken(t)) == HeadSize(t)
    ensures TailLen(EncodeToken(t)) == |Tail(t)|
    decreases t, 0
  {
    hide ToBE, PadRight, PaddedWords, Number, PadU32;
    match t
    case Array(items) =>
      SizesExact(items);
      assert Enc(t) == Number(|items|) + EncAll(items);
    case FixedArray(items) =>
      var ms := EncodeTokens(items);
      SizesExact(items);
      LayoutsExact(ms, HeadsLen(ms));
      assert Enc(t) == EncAll(items);
    case Tuple(items) =>
      SizesExact(items);
      assert Enc(t) == EncAll(items);
      if !IsDynamic(t) {
        StaticHeads(items, 0, 0);
      }
    case _ =>
  }

  lemma {:induction false} SizesExact(ts: seq<Token>)
    ensures HeadsLen(EncodeTokens(ts)) == HeadsSize(ts)
    ensures TailsLen(EncodeTokens(ts)) == |Tails(ts)|
    decreases ts, 1
  {
    if ts == [] {
    } else {
      SizeExact(ts[0]);
      SizesExact(ts[1..]);
    }
  }

  lemma {:induction false} EncodeSize(ts: seq<Token>)
    ensures |Encode(ts)| == |EncAll(ts)|
  {
    SizesExact(ts);
    LayoutsExact(EncodeTokens(ts), HeadsLen(EncodeTokens(ts)));
  }

  lemma {:induction false} EncodeTokenRenders(t: Token)
    requires CountsFit(t) && (IsDynamic(t) ==> |Enc(t)| < 0x1_0000_0000)
    ensures Renders(EncodeToken(t), t)
    decreases t, 0
  {
    match t
    case Array(items) =>
      EncodeTokensRender(items);
      ArrayRenders(items);
    case FixedArray(items) =>
      assert Enc(t) == EncAll(items);
      EncodeTokensRender(items);
    case Tuple(items) =>
      assert Enc(t) == EncAll(items);
      EncodeTokensRender(items);
      if !IsDynamic(t) {
        StaticHeads(items, 0, HeadsSize(items));
        StaticTupleHeads(items);
      }
    case _ => LeafRenders(t);
  }

  lemma {:induction false} LeafRenders(t: Token)
    requires !t.Array? && !t.FixedArray? && !t.Tuple?
    requires IsDynamic(t) ==> |Enc(t)| < 0x1_0000_0000
    ensures Renders(EncodeToken(t), t)
  {
    hide ToBE, Flatten, PaddedWords;
    match t
    case Address(id) => FlattenOne(id);
    case Bytes(data) => CountedBytes(data);
    case String(data) => CountedBytes(data);
    case FixedBytes(data) => FlattenPadded(data);
    case Int(value) => FlattenOne(ToBE(value, 32));
    case Uint(value) => FlattenOne(ToBE(value, 32));
    case Bool(flag) =>
      BoolWord(flag);
      FlattenOne(Zeros(31) + [if flag then 1 else 0]);
  }

  lemma {:induction false} BoolWord(flag: bool)
    ensures Zeros(31) + [if flag then 1 else 0] == Number(if flag then 1 else 0)
  {
    ToBEPadded(if flag then 1 else 0, 1, 31);
  }

  lemma {:induction false} CountedBytes(data: bytes)
    requires |data| < 0x1_0000_0000
    ensures Flatten([PadU32(|data|)] + PaddedWords(data)) == Number(|data|) + PadRight(data)
  {
    FlattenPadded(data);
    FlattenCounted(|data|, PaddedWords(data));
  }

  lemma {:induction false} ArrayRenders(items: seq<Token>)
    requires |items| < 0x1_0000_0000
    requires Flatten(EncodeHeadTail(EncodeTokens(items))) == EncAll(items)
    ensures Renders(EncodeToken(Array(items)), Array(items))
  {
    var ms := EncodeTokens(items);
    FlattenCounted(|items|, EncodeHeadTail(ms));
    assert TailWords(PrefixedArrayWithLength(ms)) == [PadU32(|items|)] + EncodeHeadTail(ms);
  }

  lemma {:induction false} EncodeTokensRender(ts: seq<Token>)
    requires forall t | t in ts :: CountsFit(t)
    requires SomeDynamic(ts) ==> |EncAll(ts)| < 0x1_0000_0000
    ensures Flatten(EncodeHeadTail(EncodeTokens(ts))) == EncAll(ts)
    ensures (forall t | t in ts :: !IsDynamic(t)) ==> Flatten(HeadsWords(EncodeTokens(ts), 0)) == Heads(ts, 0)
    decreases ts, 2
  {
    var ms := EncodeTokens(ts);
    SizesExact(ts);
    HeadsRender(ts, HeadsSize(ts));
    FlattenConcat(HeadsWords(ms, HeadsLen(ms)), TailsWords(ms));
    if forall t | t in ts :: !IsDynamic(t) {
      StaticHeads(ts, 0, 0);
      HeadsRender(ts, 0);
    }
  }

  lemma {:induction false} HeadsRender(ts: seq<Token>, offset: nat)
    requires forall t | t in ts :: CountsFit(t)
    requires SomeDynamic(ts) ==> offset + |Tails(ts)| < 0x1_0000_0000
    ensures Flatten(HeadsWords(EncodeTokens(ts), offset)) == Heads(ts, offset)
    ensures Flatten(TailsWords(EncodeTokens(ts))) == Tails(ts)
    decreases ts, 1
  {
    hide Enc, EncAll, IsDynamic, EncodeToken, CountsFit, HeadWords, TailWords, HeadLen, TailLen, Flatten, HeadsWords,
         TailsWords, Renders, SomeDynamic;
    if ts == [] {
      NoHeads(offset);
    } else {
      var t, rest := ts[0], ts[1..];
      assert t in ts;
      SomeDynamicSplit(ts);
      assert Tails(ts) == Tail(t) + Tails(rest);
      SizeExact(t);
      EncodeTokenRenders(t);
      HeadRenders(EncodeToken(t), t, offset);
      HeadsRender(rest, offset + |Tail(t)|);
      JoinHeads(EncodeToken(t), EncodeTokens(rest), offset);
      assert EncodeTokens(ts) == [EncodeToken(t)] + EncodeTokens(rest);
    }
  }

  lemma {:induction false} SomeDynamicSplit(ts: seq<Token>)
    requires ts != []
    ensures SomeDynamic(ts) <==> IsDynamic(ts[0]) || SomeDynamic(ts[1..])
  {
    hide IsDynamic;
    assert ts == [ts[0]] + ts[1..];
  }

  lemma {:induction false} NoHeads(offset: nat)
    ensures Flatten(HeadsWords([], offset)) == [] && Flatten(TailsWords([])) == []
  {
  }

  lemma {:induction false} JoinHeads(m: Mediate, ms: seq<Mediate>, offset: nat)
    ensures Flatten(HeadsWords([m] + ms, offset)) ==
            Flatten(HeadWords(m, offset)) + Flatten(HeadsWords(ms, offset + TailLen(m)))
    ensures Flatten(TailsWords([m] + ms)) == Flatten(TailWords(m)) + Flatten(TailsWords(ms))
  {
    hide Flatten;
    HeadsCons(m, ms, offset);
    FlattenConcat(HeadWords(m, offset), HeadsWords(ms, offset + TailLen(m)));
    FlattenConcat(TailWords(m), TailsWords(ms));
  }

  lemma {:induction false} HeadsCons(m: Mediate, ms: seq<Mediate>, offset: nat)
    ensures HeadsWords([m] + ms, offset) == HeadWords(m, offset) + HeadsWords(ms, offset + TailLen(m))
    ensures TailsWords([m] + ms) == TailWords(m) + TailsWords(ms)
  {
    assert ([m] + ms)[1..] == ms;
  }

  lemma {:induction false} HeadRenders(m: Mediate, t: Token, offset: nat)
    requires Renders(m, t)
    requires IsDynamic(t) ==> offset < 0x1_0000_0000
    ensures Flatten(HeadWords(m, offset)) == Head(t, offset)
    ensures Flatten(TailWords(m)) == Tail(t)
  {
    if IsDynamic(t) {
      PadU32IsNumber(offset);
      FlattenOne(PadU32(offset));
    }
  }

  /** With no tails, giving every element offset 0 is the same as laying the elements out from 0. */
  lemma {:induction false} StaticTupleHeads(ts: seq<Token>)
    requires forall t | t in ts :: !IsDynamic(t)
    ensures TupleHeads(EncodeTokens(ts)) == HeadsWords(EncodeTokens(ts), 0)
  {
    if ts == [] {
    } else {
      assert ts[0] in ts;
      SizeExact(ts[0]);
      StaticTupleHeads(ts[1..]);
    }
  }

  /** The encoder writes the bytes of the specification; where offsets are written these must number less than 2^32. */
  lemma {:induction false} EncodeMeetsSpec(ts: seq<Token>)
    requires forall t | t in ts :: CountsFit(t)
    requires SomeDynamic(ts) ==> |Encode(ts)| < 0x1_0000_0000
    ensures Encode(ts) == EncAll(ts)
  {
    EncodeSize(ts);
    EncodeTokensRender(ts);
  }
}
