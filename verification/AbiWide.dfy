/**
 Fixed bytes of more than 32 bytes among canonical types, dynamic ones included: the encoder writes all
 their words and the decoder moves by one, so they survive only as the last thing that is read. And an
 empty fixed array of a dynamic type, which is not written at all, can still survive by accident.
 */
module AbiWide {
  import opened ByteCodec
  import opened AbiTypes
  import opened AbiSpec
  import opened AbiEncoder
  import opened AbiDecoder
  import opened AbiStatic

  predicate AllCanonical(tys: seq<ParamType>) {
    forall ty | ty in tys :: Canonical(ty)
  }

  /** The values whose counts and offsets fit 32 bits. */
  predicate InRange(ts: seq<Token>) {
    (forall t | t in ts :: CountsFit(t)) && (SomeDynamic(ts) ==> |Encode(ts)| < 0x1_0000_0000)
  }

  /** All such values come back, whatever bytes follow. */
  ghost predicate AllReadBack(tys: seq<ParamType>) {
    forall ts, suffix | WellTypedAll(ts, tys) && InRange(ts) :: Survives(tys, ts, suffix)
  }

  // ----- lists in two parts -----

  lemma {:induction false} HeadsSplit(xs: seq<Token>, zs: seq<Token>, offset: nat)
    ensures Heads(xs + zs, offset) == Heads(xs, offset) + Heads(zs, offset + |Tails(xs)|)
    ensures Tails(xs + zs) == Tails(xs) + Tails(zs)
    ensures HeadsSize(xs + zs) == HeadsSize(xs) + HeadsSize(zs)
  {
    if xs == [] {
      assert xs + zs == zs;
    } else {
      hide Heads, Tails, HeadsSize, Head, Tail, HeadSize;
      assert (xs + zs)[0] == xs[0] && (xs + zs)[1..] == xs[1..] + zs;
      var next := offset + |Tail(xs[0])|;
      FirstHead(xs, offset);
      FirstHead(xs + zs, offset);
      HeadsSplit(xs[1..], zs, next);
      Assoc(Head(xs[0], offset), Heads(xs[1..], next), Heads(zs, next + |Tails(xs[1..])|));
      Assoc(Tail(xs[0]), Tails(xs[1..]), Tails(zs));
    }
  }

  lemma {:induction false} FirstHead(ts: seq<Token>, offset: nat)
    requires ts != []
    ensures Heads(ts, offset) == Head(ts[0], offset) + Heads(ts[1..], offset + |Tail(ts[0])|)
    ensures Tails(ts) == Tail(ts[0]) + Tails(ts[1..])
    ensures HeadsSize(ts) == HeadSize(ts[0]) + HeadsSize(ts[1..])
  {
    hide Enc, IsDynamic;
  }

  /** If a list is read, so is each part, the second from where the first ends; and the other way round. */
  lemma {:induction false} ParamsSplit(a: seq<ParamType>, b: seq<ParamType>, data: bytes, offset: nat)
    ensures var r, first := DecodedParams(a + b, data, offset), DecodedParams(a, data, offset);
            && (r.Ok? ==> first.Ok?)
            && (first.Ok? ==>
                  var second := DecodedParams(b, data, first.value.newOffset);
                  r == if second.Ok? then
                         Ok(DecodeResults(first.value.tokens + second.value.tokens, second.value.newOffset))
                       else second)
  {
    hide DecodedParam;
    if a == [] {
      assert a + b == b;
      var second := DecodedParams(b, data, offset);
      assert second.Ok? ==> [] + second.value.tokens == second.value.tokens;
    } else {
      assert (a + b)[0] == a[0] && (a + b)[1..] == a[1..] + b;
      var head := DecodedParam(a[0], data, offset);
      if head.Ok? {
        var next := head.value.newOffset;
        ParamsSplit(a[1..], b, data, next);
        var mid := DecodedParams(a[1..], data, next);
        if mid.Ok? {
          var second := DecodedParams(b, data, mid.value.newOffset);
          if second.Ok? {
            Assoc([head.value.token], mid.value.tokens, second.value.tokens);
          }
        }
      }
    }
  }

  lemma {:induction false} TypedSplit(ts: seq<Token>, a: seq<ParamType>, b: seq<ParamType>)
    requires WellTypedAll(ts, a + b)
    ensures |ts| == |a| + |b| && WellTypedAll(ts[..|a|], a) && WellTypedAll(ts[|a|..], b)
    ensures ts == ts[..|a|] + ts[|a|..]
  {
    hide WellTyped;
    assert forall i | 0 <= i < |a| :: (a + b)[i] == a[i];
    assert forall i | 0 <= i < |b| :: (a + b)[|a| + i] == b[i];
  }

  lemma {:induction false} TypedJoin(xs: seq<Token>, a: seq<ParamType>, zs: seq<Token>, b: seq<ParamType>)
    requires WellTypedAll(xs, a) && WellTypedAll(zs, b)
    ensures WellTypedAll(xs + zs, a + b)
  {
    hide WellTyped;
    forall i | 0 <= i < |a + b|
      ensures WellTyped((xs + zs)[i], (a + b)[i])
    {
      if i < |a| {
        assert (xs + zs)[i] == xs[i] && (a + b)[i] == a[i];
      } else {
        assert (xs + zs)[i] == zs[i - |a|] && (a + b)[i] == b[i - |a|];
      }
    }
  }

  /** The canonical part in front is read, and what is written next stands where its reading ends. */
  lemma {:induction false} PrefixDecodes(a: seq<ParamType>, xs: seq<Token>, zs: seq<Token>, data: bytes)
    requires AllCanonical(a) && WellTypedAll(xs, a) && InRange(xs + zs)
    requires At(data, 0, Encode(xs + zs))
    ensures DecodedParams(a, data, 0) == Ok(DecodeResults(xs, HeadsSize(xs)))
    ensures At(data, HeadsSize(xs), Heads(zs, HeadsSize(xs + zs) + |Tails(xs)|))
  {
    hide Encode, Heads, Tails, HeadsSize, DecodedParams, WellTypedAll, Canonical, CountsFit, IsDynamic, At;
    var ts := xs + zs;
    var h := HeadsSize(ts);
    EncodeMeetsSpec(ts);
    HeadsSplit(xs, zs, h);
    AtSplit(data, 0, Heads(ts, h), Tails(ts));
    AtSplit(data, 0, Heads(xs, h), Heads(zs, h + |Tails(xs)|));
    AtSplit(data, h, Tails(xs), Tails(zs));
    assert forall t | t in xs :: t in ts;
    if SomeDynamic(xs) {
      DecodedParamsAt(a, xs, data, 0, h);
    } else {
      StaticHeads(xs, h, 0);
      DecodedParamsAt(a, xs, data, 0, 0);
    }
  }

  // ----- types that read nothing -----

  lemma {:induction false} NothingToRead(ty: ParamType, w: nat, r: nat, total: nat)
    requires Advance(ty) == 0
    ensures !IsDynamicType(ty) && Width(ty) == 0 && Aligned(ty, w, r, total)
    decreases ty, 0
  {
    match ty
    case FixedArrayT(elem, len) =>
      if len > 0 {
        assert Advance(ty) == len * Advance(elem);
        NothingToReadCopies(elem, len, w, r, total);
      }
    case TupleT(params) => NothingToReadAll(params, w, r, total);
    case _ =>
  }

  lemma {:induction false} NothingToReadCopies(elem: ParamType, n: nat, w: nat, r: nat, total: nat)
    requires Advance(elem) == 0
    ensures !IsDynamicType(elem) && Width(elem) == 0 && AlignedCopies(elem, n, w, r, total)
    decreases elem, 1, n
  {
    NothingToRead(elem, w, r, total);
    if n == 0 {
    } else {
      NothingToReadCopies(elem, n - 1, w, r, total);
    }
  }

  lemma {:induction false} NothingToReadAll(tys: seq<ParamType>, w: nat, r: nat, total: nat)
    requires AdvanceAll(tys) == 0
    ensures AllStatic(tys) && WidthAll(tys) == 0 && AlignedAll(tys, w, r, total)
    decreases tys, 1
  {
    hide IsDynamicType, Aligned, Width, Advance;
    if tys == [] {
    } else {
      NothingToRead(tys[0], w, r, total);
      NothingToReadAll(tys[1..], w, r, total);
    }
  }

  // ----- a first byte that is not zero is not read as a sample -----

  lemma {:induction false} BadRead(ty: ParamType, data: bytes, r: nat)
    requires Canonical(ty) && Advance(ty) > 0 && r < |data| && data[r] != 0
    ensures var d := DecodedParam(ty, data, r);
            d.Ok? ==> d.value.token != Sample(ty)
    decreases ty, 0
  {
    if IsDynamicType(ty) {
      BadOffset(ty, data, r);
    } else {
      match ty
      case FixedArrayT(elem, len) =>
        assert Advance(ty) == len * Advance(elem);
        ArrayParts(elem, len, data, r);
        if len > 0 {
          CopiesHeadTail(elem, len, data, r);
          BadRead(elem, data, r);
        }
      case TupleT(params) =>
        TupleParts(params, data, r);
        BadReads(params, data, r);
      case _ => BadLeaf(ty, data, r);
    }
  }

  lemma {:induction false} BadOffset(ty: ParamType, data: bytes, r: nat)
    requires IsDynamicType(ty) && r < |data| && data[r] != 0
    ensures !DecodedParam(ty, data, r).Ok?
  {
    hide DecodedCopies, DecodedParams;
    if r + 32 <= |data| {
      assert data[r..r + 32][0] == data[r];
    }
    assert !PeekUsize(data, r).Ok?;
  }

  lemma {:induction false} BadLeaf(ty: ParamType, data: bytes, r: nat)
    requires IsLeaf(ty) && Canonical(ty) && r < |data| && data[r] != 0
    ensures var d := DecodedParam(ty, data, r);
            d.Ok? ==> d.value.token != Sample(ty)
  {
    hide ToBE, FromBE;
    if DecodedParam(ty, data, r).Ok? {
      var s := data[r..r + Reads(ty)];
      assert s[0] == data[r];
      if ty.IntT? || ty.UintT? {
        ToFromBE(s);
        ToBEZero(32);
      }
    }
  }

  lemma {:induction false} BadReads(tys: seq<ParamType>, data: bytes, r: nat)
    requires AllCanonical(tys) && AdvanceAll(tys) > 0 && r < |data| && data[r] != 0
    ensures var d := DecodedParams(tys, data, r);
            d.Ok? ==> d.value.tokens != Samples(tys)
    decreases tys, 1
  {
    hide DecodedParam, DecodedParams, Canonical, Sample, Advance, WellTyped;
    assert tys[0] in tys;
    ParamsHeadTail(tys, data, r);
    DecodedParamShape(tys[0], data, r);
    assert Samples(tys)[0] == Sample(tys[0]) && Samples(tys)[1..] == Samples(tys[1..]);
    if Advance(tys[0]) > 0 {
      BadRead(tys[0], data, r);
    } else {
      BadReads(tys[1..], data, r);
    }
  }

  // ----- the law -----

  function WithWide(a: seq<ParamType>, size: nat, b: seq<ParamType>): seq<ParamType> {
    a + ([FixedBytesT(size)] + b)
  }

  /** Wide fixed bytes at the end, but for types that read nothing, are read back with all values around them. */
  lemma {:induction false} WideLast(
    a: seq<ParamType>, size: nat, b: seq<ParamType>, ts: seq<Token>, suffix: bytes)
    requires AllCanonical(a) && size > 32 && AdvanceAll(b) == 0
    requires WellTypedAll(ts, WithWide(a, size, b)) && InRange(ts)
    ensures Survives(WithWide(a, size, b), ts, suffix)
  {
    hide Encode, DecodedParams, WellTyped, Heads, Tails, HeadsSize, Canonical, CountsFit, IsDynamic, InRange, AdvanceAll;
    var ty, data := FixedBytesT(size), Encode(ts) + suffix;
    TypedSplit(ts, a, [ty] + b);
    var xs, zs := ts[..|a|], ts[|a|..];
    TypedSplit(zs, [ty], b);
    var wide, ys := zs[0], zs[1..];
    assert zs == [wide] + ys && zs[..1] == [wide] && zs[|[ty]|..] == ys;
    IsWide(wide, size);
    assert data[0..|Encode(ts)|] == Encode(ts);
    PrefixDecodes(a, xs, zs, data);
    var r := HeadsSize(xs);
    WideHead(wide, ys, HeadsSize(ts) + |Tails(xs)|, data, r);
    var read := DecodeResults([wide], r + 32);
    WideRead(size, wide, data, r);
    NothingToReadAll(b, 0, r + 32, 0);
    AllWidth(b, ys);
    AlignedDecodesAll(b, ys, data, 0, r + 32, 0);
    ParamsSplit(a, [ty] + b, data, 0);
    ParamsSplit([ty], b, data, r);
    assert xs + ([wide] + ys) == ts;
  }

  /** The bytes of a leaf that heads a list. */
  lemma {:induction false} WideHead(wide: Token, ys: seq<Token>, offset: nat, data: bytes, r: nat)
    requires wide.FixedBytes? && At(data, r, Heads([wide] + ys, offset))
    ensures At(data, r, wide.data)
  {
    hide At, Heads, IsDynamic;
    HeadsOfCons(wide, ys, offset);
    AtSplit(data, r, Enc(wide), Heads(ys, offset));
    AtSplit(data, r, wide.data, Zeros(|PadRight(wide.data)| - |wide.data|));
  }

  lemma {:induction false} HeadsOfCons(wide: Token, ys: seq<Token>, offset: nat)
    requires wide.FixedBytes?
    ensures Heads([wide] + ys, offset) == Enc(wide) + Heads(ys, offset)
  {
    assert ([wide] + ys)[1..] == ys;
  }

  lemma {:induction false} WideRead(size: nat, wide: Token, data: bytes, r: nat)
    requires wide.FixedBytes? && |wide.data| == size && At(data, r, wide.data)
    ensures DecodedParams([FixedBytesT(size)], data, r) == Ok(DecodeResults([wide], r + 32))
  {
    var ty := FixedBytesT(size);
    assert DecodedParam(ty, data, r) == Ok(DecodeResult(wide, r + 32));
    assert [ty][1..] == [];
    assert DecodedParams([ty][1..], data, r + 32) == Ok(DecodeResults([], r + 32));
    assert [wide] + [] == [wide];
  }

  lemma {:induction false} IsWide(wide: Token, size: nat)
    requires WellTypedAll([wide], [FixedBytesT(size)])
    ensures wide.FixedBytes? && |wide.data| == size
  {
    assert WellTyped([wide][0], [FixedBytesT(size)][0]);
  }

  /** Wide fixed bytes whose byte number 32 is not zero. */
  function Spoiler(size: nat): (t: Token)
    requires size > 32
    ensures t.FixedBytes? && |t.data| == size && t.data[32] == 0xff
  {
    FixedBytes(Zeros(32) + [0xff] + Zeros(size - 33))
  }

  lemma {:induction false} SpoilerTyped(a: seq<ParamType>, size: nat, b: seq<ParamType>)
    requires size > 32
    ensures WellTypedAll(Samples(a) + ([Spoiler(size)] + Samples(b)), WithWide(a, size, b))
    ensures forall t | t in Samples(a) + ([Spoiler(size)] + Samples(b)) :: CountsFit(t)
  {
    SamplesOk(a);
    SamplesOk(b);
    hide WellTyped, Samples, Spoiler, CountsFit;
    assert WellTypedAll([Spoiler(size)], [FixedBytesT(size)]) && CountsFit(Spoiler(size)) by {
      SpoilerOk(size);
    }
    TypedJoin([Spoiler(size)], [FixedBytesT(size)], Samples(b), b);
    TypedJoin(Samples(a), a, [Spoiler(size)] + Samples(b), [FixedBytesT(size)] + b);
  }

  lemma {:induction false} SpoilerOk(size: nat)
    requires size > 32
    ensures WellTypedAll([Spoiler(size)], [FixedBytesT(size)]) && CountsFit(Spoiler(size))
  {
    hide Spoiler;
  }

  /** Anything that is read after wide fixed bytes is read from the middle of them. */
  lemma {:induction false} WideNotLast(a: seq<ParamType>, size: nat, b: seq<ParamType>)
    requires AllCanonical(a) && AllCanonical(b) && size > 32 && AdvanceAll(b) > 0
    requires InRange(Samples(a) + ([Spoiler(size)] + Samples(b)))
    ensures !AllReadBack(WithWide(a, size, b))
  {
    hide Encode, DecodedParams, WellTyped, Heads, Tails, HeadsSize, Canonical, CountsFit, IsDynamic, InRange, AdvanceAll,
         Samples, Spoiler, WellTypedAll;
    var ty, xs, wide, ys := FixedBytesT(size), Samples(a), Spoiler(size), Samples(b);
    var zs := [wide] + ys;
    var ts, data := xs + zs, Encode(xs + zs);
    SpoilerTyped(a, size, b);
    SamplesOk(a);
    assert data + [] == data && data[0..|data|] == data;
    PrefixDecodes(a, xs, zs, data);
    var r := HeadsSize(xs);
    WideHead(wide, ys, HeadsSize(ts) + |Tails(xs)|, data, r);
    WideRead(size, wide, data, r);
    assert data[r + 32] == data[r..r + size][32] == 0xff;
    BadReads(b, data, r + 32);
    ParamsSplit(a, [ty] + b, data, 0);
    ParamsSplit([ty], b, data, r);
    var second := DecodedParams(b, data, r + 32);
    if second.Ok? {
      Cancelled(xs, [wide], second.value.tokens, ys);
    }
    assert !Survives(WithWide(a, size, b), ts, []);
  }

  lemma {:induction false} Cancelled(xs: seq<Token>, mid: seq<Token>, us: seq<Token>, vs: seq<Token>)
    requires us != vs
    ensures xs + (mid + us) != xs + (mid + vs)
  {
    var k := |xs| + |mid|;
    assert (xs + (mid + us))[k..] == us && (xs + (mid + vs))[k..] == vs;
  }

  /**
   Fixed bytes of more than 32 bytes in any list of otherwise canonical types, dynamic ones included: all
   values survive, with any bytes after them, exactly when nothing is read after the wide ones.
   */
  lemma {:induction false} WideExactly(a: seq<ParamType>, size: nat, b: seq<ParamType>)
    requires AllCanonical(a) && AllCanonical(b) && size > 32
    requires InRange(Samples(a) + ([Spoiler(size)] + Samples(b)))
    ensures AllReadBack(WithWide(a, size, b)) <==> AdvanceAll(b) == 0
  {
    hide WellTypedAll, InRange, Survives, AdvanceAll, Canonical;
    var tys := WithWide(a, size, b);
    if AdvanceAll(b) == 0 {
      forall ts, suffix | WellTypedAll(ts, tys) && InRange(ts)
        ensures Survives(tys, ts, suffix)
      {
        WideLast(a, size, b, ts, suffix);
      }
    } else {
      WideNotLast(a, size, b);
    }
  }

  // ----- an accident -----

  /**
   Alone, an empty fixed array of a dynamic type does not survive. After one byte string it does: the word
   read as its offset is the length of the string, which is never past the data.
   */
  lemma {:induction false} EmptyArrayAfterBytes(elem: ParamType, data: bytes, suffix: bytes)
    requires IsDynamicType(elem) && |data| < 0xffff_ff00
    ensures Survives([BytesT, FixedArrayT(elem, 0)], [Bytes(data), FixedArray([])], suffix)
  {
    hide ToBE, Number, PadRight, DecodedBytes, PeekUsize;
    var ty, none := FixedArrayT(elem, 0), FixedArray([]);
    var ts := [Bytes(data), none];
    BytesThenNothing(data);
    var all := Encode(ts) + suffix;
    var body := Number(|data|) + PadRight(data);
    assert all == Number(32) + (body + suffix);
    assert At(all, 0, Number(32)) && At(all, 32, body);
    AtSplit(all, 32, Number(|data|), PadRight(data));
    DecodedBytesAt(all, 0, 32, data);
    PeekNumber(all, 32, |data|);
    NoCopies(elem, all[|data|..]);
    assert DecodedParam(BytesT, all, 0) == Ok(DecodeResult(Bytes(data), 32));
    DynamicArrayUnfold(elem, 0, all, 32, |data|, DecodeResults([], 0));
    var tys := [BytesT, ty];
    assert tys[1..] == [ty] && tys[1..][1..] == [];
    hide DecodedParam;
    assert DecodedParams([], all, 64) == Ok(DecodeResults([], 64));
    ParamsUnfold([ty], all, 32, DecodeResult(none, 64), DecodeResults([], 64));
    assert [none] + [] == [none];
    ParamsUnfold(tys, all, 0, DecodeResult(Bytes(data), 32), DecodeResults([none], 64));
    assert [Bytes(data)] + [none] == ts;
  }

  lemma {:induction false} BytesThenNothing(data: bytes)
    requires |data| < 0xffff_ff00
    ensures Encode([Bytes(data), FixedArray([])]) == Number(32) + (Number(|data|) + PadRight(data))
  {
    var b, none := Bytes(data), FixedArray([]);
    var ts := [b, none];
    NoneWritten();
    assert IsDynamic(b) && Enc(b) == Number(|data|) + PadRight(data) && Head(b, 32) == Number(32);
    hide ToBE, Number, PadRight, Heads, Tails, HeadsSize, Enc, Encode;
    assert ts[1..] == [none];
    FirstHead(ts, 32);
    assert EncAll(ts) == Number(32) + Enc(b);
    EncodeSize(ts);
    EncodeMeetsSpec(ts);
  }

  lemma {:induction false} NoneWritten()
    ensures var none := [FixedArray([])];
            HeadsSize(none) == 0 && Tails(none) == [] && forall offset: nat :: Heads(none, offset) == []
  {
    var none := [FixedArray([])];
    NothingWritten();
    EncItems([]);
    assert none[1..] == [] && !IsDynamic(none[0]);
    hide Enc;
    forall offset: nat
      ensures Heads(none, offset) == []
    {
      FirstHead(none, offset);
    }
    FirstHead(none, 0);
  }
}
