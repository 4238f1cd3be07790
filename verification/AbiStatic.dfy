/**
 The codec on every list of static types, nested tuples and fixed arrays included, canonical or not:
 its values survive exactly when each leaf is read where it was written. The decoder moves by one word
 per leaf, the encoder by as many words as the bytes of the leaf fill.
 */
module AbiStatic {
  import opened ByteCodec
  import opened AbiTypes
  import opened AbiSpec
  import opened AbiEncoder
  import opened AbiDecoder

  /** The bytes the encoder writes for a value of a static type. */
  function Width(ty: ParamType): nat
    decreases ty, 0
  {
    match ty
    case FixedBytesT(size) => 32 * Words(size)
    case FixedArrayT(elem, len) => len * Width(elem)
    case TupleT(params) => WidthAll(params)
    case _ => 32
  }

  function WidthAll(tys: seq<ParamType>): nat
    decreases tys, 1
  {
    if tys == [] then 0 else Width(tys[0]) + WidthAll(tys[1..])
  }

  /** The bytes the decoder takes for a leaf. */
  function Reads(ty: ParamType): nat {
    if ty.FixedBytesT? then ty.size else 32
  }

  /**
   A value written at `w` and read at `r`, in `total` bytes: each leaf is read inside the bytes, and where it
   was written unless it reads nothing.
   */
  predicate Aligned(ty: ParamType, w: nat, r: nat, total: nat)
    decreases ty, 0
  {
    match ty
    case FixedArrayT(elem, len) => AlignedCopies(elem, len, w, r, total)
    case TupleT(params) => AlignedAll(params, w, r, total)
    case _ => r + Reads(ty) <= total && (Reads(ty) > 0 ==> w == r)
  }

  predicate AlignedCopies(elem: ParamType, n: nat, w: nat, r: nat, total: nat)
    decreases elem, 1, n
  {
    n == 0 || (Aligned(elem, w, r, total) && AlignedCopies(elem, n - 1, w + Width(elem), r + Advance(elem), total))
  }

  predicate AlignedAll(tys: seq<ParamType>, w: nat, r: nat, total: nat)
    decreases tys, 1
  {
    tys == [] || (Aligned(tys[0], w, r, total) && AlignedAll(tys[1..], w + Width(tys[0]), r + Advance(tys[0]), total))
  }

  predicate AllStatic(tys: seq<ParamType>) {
    forall ty | ty in tys :: !IsDynamicType(ty)
  }

  predicate AllOf(items: seq<Token>, elem: ParamType) {
    forall i | i in items :: WellTyped(i, elem)
  }

  predicate NoneDynamic(ts: seq<Token>) {
    forall t | t in ts :: !IsDynamic(t)
  }

  // ----- what is written -----

  lemma {:induction false} EncFirst(ts: seq<Token>)
    requires ts != [] && NoneDynamic(ts)
    ensures EncAll(ts) == Enc(ts[0]) + EncAll(ts[1..])
  {
    hide Enc, IsDynamic;
    var t, rest := ts[0], ts[1..];
    assert t in ts && NoneDynamic(rest);
    StaticHeads(ts, HeadsSize(ts), 0);
    StaticHeads(rest, HeadsSize(rest), 0);
    StaticHeads(rest, 0 + |Tail(t)|, 0);
    assert EncAll(ts) == Heads(ts, 0) && EncAll(rest) == Heads(rest, 0);
  }

  /** Values of a static type are static and all equally long. */
  lemma {:induction false} StaticWidth(ty: ParamType, t: Token)
    requires !IsDynamicType(ty) && WellTyped(t, ty)
    ensures !IsDynamic(t) && |Enc(t)| == Width(ty)
    decreases ty, 0
  {
    match ty
    case FixedArrayT(elem, _) => ItemsWidth(elem, t.items);
    case TupleT(params) => AllWidth(params, t.items);
    case _ =>
  }

  lemma {:induction false} ItemsWidth(elem: ParamType, items: seq<Token>)
    requires !IsDynamicType(elem) && AllOf(items, elem)
    ensures NoneDynamic(items) && |EncAll(items)| == |items| * Width(elem)
    decreases elem, 1, |items|
  {
    if items == [] {
    } else {
      assert items[0] in items;
      StaticWidth(elem, items[0]);
      ItemsWidth(elem, items[1..]);
      assert NoneDynamic(items);
      EncFirst(items);
      assert |items| * Width(elem) == Width(elem) + (|items| - 1) * Width(elem);
    }
  }

  lemma {:induction false} AllWidth(tys: seq<ParamType>, ts: seq<Token>)
    requires AllStatic(tys) && WellTypedAll(ts, tys)
    ensures NoneDynamic(ts) && |EncAll(ts)| == WidthAll(tys)
    decreases tys, 1
  {
    if tys == [] {
    } else {
      assert tys[0] in tys;
      StaticWidth(tys[0], ts[0]);
      AllWidth(tys[1..], ts[1..]);
      assert NoneDynamic(ts);
      EncFirst(ts);
    }
  }

  lemma {:induction false} ItemsStatic(elem: ParamType, items: seq<Token>)
    requires !IsDynamicType(elem) && AllOf(items, elem)
    ensures NoneDynamic(items)
  {
    ItemsWidth(elem, items);
  }

  // ----- aligned types are read back -----

  predicate IsLeaf(ty: ParamType) {
    !IsDynamicType(ty) && !ty.FixedArrayT? && !ty.TupleT?
  }

  lemma {:induction false} AlignedDecodes(ty: ParamType, t: Token, data: bytes, w: nat, r: nat, total: nat)
    requires !IsDynamicType(ty) && WellTyped(t, ty) && Aligned(ty, w, r, total)
    requires total <= |data| && At(data, w, Enc(t))
    ensures DecodedParam(ty, data, r).Ok? && DecodedParam(ty, data, r).value.token == t
    decreases ty, 0
  {
    hide DecodedParam, DecodedParams, DecodedCopies, EncAll, At;
    match ty
    case FixedArrayT(elem, len) =>
      AlignedDecodesCopies(elem, t.items, data, w, r, total);
      StaticArrayUnfold(elem, len, data, r, DecodedCopies(elem, len, data, r).value);
    case TupleT(params) =>
      AlignedDecodesAll(params, t.items, data, w, r, total);
      StaticTupleUnfold(params, data, r, DecodedParams(params, data, r).value);
    case _ => LeafDecodes(ty, t, data, w, r);
  }

  lemma {:induction false} LeafDecodes(ty: ParamType, t: Token, data: bytes, w: nat, r: nat)
    requires IsLeaf(ty) && WellTyped(t, ty)
    requires At(data, w, Enc(t)) && r + Reads(ty) <= |data| && (Reads(ty) > 0 ==> w == r)
    ensures DecodedParam(ty, data, r) == Ok(DecodeResult(t, r + 32))
  {
    if ty.FixedBytesT? {
      AtSplit(data, w, t.data, Zeros(|PadRight(t.data)| - |t.data|));
      assert ty.size == 0 ==> data[r..r] == t.data;
    } else {
      DecodedLeafAt(ty, t, data, r, 0);
    }
  }

  lemma {:induction false} AlignedDecodesCopies(elem: ParamType, items: seq<Token>, data: bytes, w: nat, r: nat, total: nat)
    requires !IsDynamicType(elem) && AllOf(items, elem) && AlignedCopies(elem, |items|, w, r, total)
    requires total <= |data| && At(data, w, EncAll(items))
    ensures DecodedCopies(elem, |items|, data, r).Ok? && DecodedCopies(elem, |items|, data, r).value.tokens == items
    decreases elem, 1, |items|
  {
    hide DecodedParam, Aligned, Enc, EncAll, At, Advance, Width, WellTyped, IsDynamicType;
    if items == [] {
    } else {
      var t, rest := items[0], items[1..];
      assert t in items && AllOf(rest, elem);
      ItemsStatic(elem, items);
      StaticWidth(elem, t);
      EncFirst(items);
      AtSplit(data, w, Enc(t), EncAll(rest));
      AlignedDecodes(elem, t, data, w, r, total);
      DecodedParamShape(elem, data, r);
      AlignedDecodesCopies(elem, rest, data, w + Width(elem), r + Advance(elem), total);
      assert [t] + rest == items;
    }
  }

  lemma {:induction false} AlignedDecodesAll(tys: seq<ParamType>, ts: seq<Token>, data: bytes, w: nat, r: nat, total: nat)
    requires AllStatic(tys) && WellTypedAll(ts, tys) && AlignedAll(tys, w, r, total)
    requires total <= |data| && At(data, w, EncAll(ts))
    ensures DecodedParams(tys, data, r).Ok? && DecodedParams(tys, data, r).value.tokens == ts
    decreases tys, 1
  {
    hide DecodedParam, Aligned, Enc, EncAll, At, Advance, Width, WellTyped, IsDynamicType;
    if tys == [] {
    } else {
      var t, rest := ts[0], ts[1..];
      assert tys[0] in tys && AllStatic(tys[1..]);
      WellTypedSplit(ts, tys);
      AllWidth(tys, ts);
      StaticWidth(tys[0], t);
      EncFirst(ts);
      AtSplit(data, w, Enc(t), EncAll(rest));
      AlignedDecodes(tys[0], t, data, w, r, total);
      DecodedParamShape(tys[0], data, r);
      AlignedDecodesAll(tys[1..], rest, data, w + Width(tys[0]), r + Advance(tys[0]), total);
      assert [t] + rest == ts;
    }
  }

  // ----- others are not -----

  /** The value of a leaf with one byte set. */
  function Marked(ty: ParamType): Token
    requires IsLeaf(ty)
  {
    match ty
    case AddressT => Address(Zeros(31) + [1])
    case IntT(_) => Int(1)
    case UintT(_) => Uint(1)
    case BoolT => Bool(true)
    case FixedBytesT(size) => FixedBytes(if size == 0 then [] else [1] + Zeros(size - 1))
  }

  /** Which byte that is. */
  function MarkAt(ty: ParamType): nat {
    if ty.FixedBytesT? then 0 else 31
  }

  /** A value that is all zeros but for one leaf that is not read where it is written. */
  function Bad(ty: ParamType, w: nat, r: nat, total: nat): Token
    requires !IsDynamicType(ty) && !Aligned(ty, w, r, total)
    decreases ty, 0
  {
    match ty
    case FixedArrayT(elem, len) => FixedArray(BadCopies(elem, len, w, r, total))
    case TupleT(params) => Tuple(BadAll(params, w, r, total))
    case _ => Marked(ty)
  }

  function BadCopies(elem: ParamType, n: nat, w: nat, r: nat, total: nat): (ts: seq<Token>)
    requires !IsDynamicType(elem) && !AlignedCopies(elem, n, w, r, total)
    ensures |ts| == n
    decreases elem, 1, n
  {
    if Aligned(elem, w, r, total)
    then [Sample(elem)] + BadCopies(elem, n - 1, w + Width(elem), r + Advance(elem), total)
    else [Bad(elem, w, r, total)] + seq(n - 1, _ => Sample(elem))
  }

  function BadAll(tys: seq<ParamType>, w: nat, r: nat, total: nat): (ts: seq<Token>)
    requires AllStatic(tys) && !AlignedAll(tys, w, r, total)
    ensures |ts| == |tys|
    decreases tys, 1
  {
    assert tys[0] in tys;
    if Aligned(tys[0], w, r, total)
    then [Sample(tys[0])] + BadAll(tys[1..], w + Width(tys[0]), r + Advance(tys[0]), total)
    else [Bad(tys[0], w, r, total)] + Samples(tys[1..])
  }

  lemma {:induction false} BadTyped(ty: ParamType, w: nat, r: nat, total: nat)
    requires !IsDynamicType(ty) && !Aligned(ty, w, r, total)
    ensures WellTyped(Bad(ty, w, r, total), ty)
    decreases ty, 0
  {
    match ty
    case FixedArrayT(elem, len) => BadCopiesTyped(elem, len, w, r, total);
    case TupleT(params) => BadAllTyped(params, w, r, total);
    case _ =>
  }

  lemma {:induction false} BadCopiesTyped(elem: ParamType, n: nat, w: nat, r: nat, total: nat)
    requires !IsDynamicType(elem) && !AlignedCopies(elem, n, w, r, total)
    ensures AllOf(BadCopies(elem, n, w, r, total), elem)
    decreases elem, 1, n
  {
    hide Bad, WellTyped, Sample, Advance, Width, Aligned, IsDynamicType;
    SampleOk(elem);
    if Aligned(elem, w, r, total) {
      BadCopiesTyped(elem, n - 1, w + Width(elem), r + Advance(elem), total);
      AllOfCons(Sample(elem), BadCopies(elem, n - 1, w + Width(elem), r + Advance(elem), total), elem);
    } else {
      BadTyped(elem, w, r, total);
      AllOfCons(Bad(elem, w, r, total), seq(n - 1, _ => Sample(elem)), elem);
    }
  }

  lemma {:induction false} AllOfCons(t: Token, ts: seq<Token>, elem: ParamType)
    requires WellTyped(t, elem) && AllOf(ts, elem)
    ensures AllOf([t] + ts, elem)
  {
    hide WellTyped;
  }

  lemma {:induction false} TypedCons(t: Token, ts: seq<Token>, tys: seq<ParamType>)
    requires tys != [] && WellTyped(t, tys[0]) && WellTypedAll(ts, tys[1..])
    ensures WellTypedAll([t] + ts, tys)
  {
    hide WellTyped;
    forall i | 0 <= i < |tys|
      ensures WellTyped(([t] + ts)[i], tys[i])
    {
      assert i > 0 ==> ([t] + ts)[i] == ts[i - 1] && tys[i] == tys[1..][i - 1];
    }
  }

  lemma {:induction false} BadAllTyped(tys: seq<ParamType>, w: nat, r: nat, total: nat)
    requires AllStatic(tys) && !AlignedAll(tys, w, r, total)
    ensures WellTypedAll(BadAll(tys, w, r, total), tys)
    decreases tys, 1
  {
    hide Bad, WellTyped, WellTypedAll, Sample, Samples;
    assert tys[0] in tys;
    if Aligned(tys[0], w, r, total) {
      SampleOk(tys[0]);
      BadAllTyped(tys[1..], w + Width(tys[0]), r + Advance(tys[0]), total);
      TypedCons(Sample(tys[0]), BadAll(tys[1..], w + Width(tys[0]), r + Advance(tys[0]), total), tys);
    } else {
      BadTyped(tys[0], w, r, total);
      SamplesOk(tys[1..]);
      TypedCons(Bad(tys[0], w, r, total), Samples(tys[1..]), tys);
    }
  }

  lemma {:induction false} ZerosJoin(a: nat, b: nat)
    ensures Zeros(a) + Zeros(b) == Zeros(a + b)
  {
  }

  lemma {:induction false} PaddedZeros(size: nat)
    ensures PadRight(Zeros(size)) == Zeros(32 * Words(size))
  {
    ZerosJoin(size, 32 * Words(size) - size);
  }

  /** Samples are written as zeros. */
  lemma {:induction false} SampleZeros(ty: ParamType)
    requires !IsDynamicType(ty)
    ensures Enc(Sample(ty)) == Zeros(Width(ty))
    decreases ty, 0
  {
    assert ty.FixedArrayT? ==> !IsDynamicType(ty.elem);
    assert ty.TupleT? ==> AllStatic(ty.params);
    hide ToBE, Number, EncAll, PadRight, Enc, IsDynamicType;
    match ty
    case FixedArrayT(elem, len) =>
      CopiesZeros(elem, len);
      EncItems(seq(len, _ => Sample(elem)));
    case TupleT(params) =>
      SamplesZeros(params);
      EncItems(Samples(params));
    case _ => LeafZeros(ty);
  }

  lemma {:induction false} EncItems(items: seq<Token>)
    ensures Enc(FixedArray(items)) == EncAll(items) && Enc(Tuple(items)) == EncAll(items)
  {
    hide EncAll;
  }

  lemma {:induction false} LeafZeros(ty: ParamType)
    requires IsLeaf(ty)
    ensures Enc(Sample(ty)) == Zeros(Width(ty))
  {
    hide EncAll;
    ToBEZero(32);
    assert Number(0) == Zeros(32);
    hide ToBE, Number, PadRight;
    if ty.FixedBytesT? {
      PaddedZeros(ty.size);
    }
  }

  lemma {:induction false} CopiesZeros(elem: ParamType, n: nat)
    requires !IsDynamicType(elem)
    ensures EncAll(seq(n, _ => Sample(elem))) == Zeros(n * Width(elem))
    decreases elem, 1, n
  {
    hide Sample, Enc, EncAll, WellTyped;
    var items := seq(n, _ => Sample(elem));
    if n == 0 {
      NothingWritten();
      assert items == [];
    } else {
      SampleOk(elem);
      ItemsWidth(elem, items);
      EncFirst(items);
      assert items[1..] == seq(n - 1, _ => Sample(elem));
      SampleZeros(elem);
      CopiesZeros(elem, n - 1);
      ZerosJoin(Width(elem), (n - 1) * Width(elem));
      assert n * Width(elem) == Width(elem) + (n - 1) * Width(elem);
    }
  }

  lemma {:induction false} NothingWritten()
    ensures EncAll([]) == []
  {
  }

  lemma {:induction false} SamplesZeros(tys: seq<ParamType>)
    requires AllStatic(tys)
    ensures EncAll(Samples(tys)) == Zeros(WidthAll(tys))
    decreases tys, 1
  {
    hide Sample, Enc, EncAll, WellTyped;
    if tys == [] {
      NothingWritten();
    } else {
      assert tys[0] in tys;
      SamplesOk(tys);
      AllWidth(tys, Samples(tys));
      EncFirst(Samples(tys));
      assert Samples(tys)[1..] == Samples(tys[1..]);
      SampleZeros(tys[0]);
      SamplesZeros(tys[1..]);
      ZerosJoin(Width(tys[0]), WidthAll(tys[1..]));
    }
  }

  /** `s` stands at `w` and all other bytes are zero. */
  predicate Only(data: bytes, w: nat, s: bytes) {
    At(data, w, s) && forall i | 0 <= i < |data| && !(w <= i < w + |s|) :: data[i] == 0
  }

  lemma {:induction false} OnlyLeft(data: bytes, w: nat, a: bytes, k: nat)
    requires Only(data, w, a + Zeros(k))
    ensures Only(data, w, a)
  {
    AtSplit(data, w, a, Zeros(k));
    forall i | w + |a| <= i < w + |a| + k
      ensures data[i] == 0
    {
      assert data[w + |a|..w + |a| + k][i - w - |a|] == Zeros(k)[i - w - |a|];
    }
  }

  lemma {:induction false} OnlyRight(data: bytes, w: nat, k: nat, b: bytes)
    requires Only(data, w, Zeros(k) + b)
    ensures Only(data, w + k, b)
  {
    AtSplit(data, w, Zeros(k), b);
    forall i | w <= i < w + k
      ensures data[i] == 0
    {
      assert data[w..w + k][i - w] == Zeros(k)[i - w];
    }
  }

  /** The bytes of a marked leaf: zeros but for the mark. */
  lemma {:induction false} MarkedBytes(ty: ParamType)
    requires IsLeaf(ty) && Reads(ty) > 0
    ensures var s := Enc(Marked(ty));
            |s| == Width(ty) > MarkAt(ty) && forall i | 0 <= i < |s| :: s[i] == if i == MarkAt(ty) then 1 else 0
  {
    hide ToBE, Number, PadRight;
    NumberOne();
    if ty.FixedBytesT? {
      MarkedPadded(ty.size);
    }
  }

  lemma {:induction false} NumberOne()
    ensures Number(1) == Zeros(31) + [1]
  {
    assert ToBE(1, 1) == [1];
    ToBEPadded(1, 1, 31);
  }

  lemma {:induction false} MarkedPadded(size: nat)
    requires size > 0
    ensures PadRight([1] + Zeros(size - 1)) == [1] + Zeros(32 * Words(size) - 1)
  {
    ZerosJoin(size - 1, 32 * Words(size) - size);
  }

  /** What is read as a marked leaf has its mark. */
  lemma {:induction false} MarkRead(ty: ParamType, data: bytes, r: nat)
    requires IsLeaf(ty) && Reads(ty) > 0
    requires DecodedParam(ty, data, r).Ok? && DecodedParam(ty, data, r).value.token == Marked(ty)
    ensures r + MarkAt(ty) < |data| && data[r + MarkAt(ty)] == 1
  {
    var s := Peek(data, r, Reads(ty)).value;
    assert s == data[r..r + Reads(ty)];
    assert s[MarkAt(ty)] == data[r + MarkAt(ty)];
    if ty.IntT? || ty.UintT? {
      ToFromBE(s);
      NumberOne();
    }
  }

  lemma {:induction false} BadFails(ty: ParamType, data: bytes, w: nat, r: nat)
    requires !IsDynamicType(ty) && !Aligned(ty, w, r, |data|)
    requires Only(data, w, Enc(Bad(ty, w, r, |data|)))
    ensures var d := DecodedParam(ty, data, r);
            d.Ok? ==> d.value.token != Bad(ty, w, r, |data|)
    decreases ty, 0
  {
    hide DecodedParam, DecodedCopies, DecodedParams, Only, Enc, EncAll, BadCopies, BadAll;
    match ty
    case FixedArrayT(elem, len) =>
      EncItems(BadCopies(elem, len, w, r, |data|));
      BadCopiesFail(elem, len, data, w, r);
      ArrayParts(elem, len, data, r);
    case TupleT(params) =>
      EncItems(BadAll(params, w, r, |data|));
      BadAllFail(params, data, w, r);
      TupleParts(params, data, r);
    case _ => BadLeafFails(ty, data, w, r);
  }

  lemma {:induction false} ArrayParts(elem: ParamType, len: nat, data: bytes, r: nat)
    requires !IsDynamicType(elem)
    ensures var d := DecodedParam(FixedArrayT(elem, len), data, r);
            var items := DecodedCopies(elem, len, data, r);
            d.Ok? ==> items.Ok? && d.value.token == FixedArray(items.value.tokens)
  {
    hide DecodedCopies;
  }

  lemma {:induction false} TupleParts(params: seq<ParamType>, data: bytes, r: nat)
    requires AllStatic(params)
    ensures var d := DecodedParam(TupleT(params), data, r);
            var items := DecodedParams(params, data, r);
            d.Ok? ==> items.Ok? && d.value.token == Tuple(items.value.tokens)
  {
    hide DecodedParams;
  }

  lemma {:induction false} BadLeafFails(ty: ParamType, data: bytes, w: nat, r: nat)
    requires IsLeaf(ty) && !(r + Reads(ty) <= |data| && (Reads(ty) > 0 ==> w == r))
    requires Only(data, w, Enc(Marked(ty)))
    ensures var d := DecodedParam(ty, data, r);
            d.Ok? ==> d.value.token != Marked(ty)
  {
    hide DecodedParam, Enc, Marked, At;
    if r + Reads(ty) > |data| {
      ReadPastEnd(ty, data, r);
    } else if DecodedParam(ty, data, r).Ok? && DecodedParam(ty, data, r).value.token == Marked(ty) {
      MarkRead(ty, data, r);
      MarkedBytes(ty);
      OnlyMark(data, w, Enc(Marked(ty)), MarkAt(ty), r + MarkAt(ty));
    }
  }

  lemma {:induction false} ReadPastEnd(ty: ParamType, data: bytes, r: nat)
    requires IsLeaf(ty) && r + Reads(ty) > |data|
    ensures !DecodedParam(ty, data, r).Ok?
  {
  }

  /** If the bytes are zero but for one byte of `s`, only the place of that byte is not. */
  lemma {:induction false} OnlyMark(data: bytes, w: nat, s: bytes, q: nat, k: nat)
    requires Only(data, w, s) && q < |s| && (forall i | 0 <= i < |s| :: s[i] == if i == q then 1 else 0)
    requires k < |data| && data[k] == 1
    ensures k == w + q
  {
    if w <= k < w + |s| {
      assert data[w..w + |s|][k - w] == data[k];
    }
  }

  lemma {:induction false} BadCopiesFail(elem: ParamType, n: nat, data: bytes, w: nat, r: nat)
    requires !IsDynamicType(elem) && !AlignedCopies(elem, n, w, r, |data|)
    requires Only(data, w, EncAll(BadCopies(elem, n, w, r, |data|)))
    ensures var d := DecodedCopies(elem, n, data, r);
            d.Ok? ==> d.value.tokens != BadCopies(elem, n, w, r, |data|)
    decreases elem, 1, n
  {
    hide DecodedParam, DecodedCopies, Aligned, Bad, Enc, EncAll, Only, Sample, WellTyped, Advance, Width, IsDynamicType, AllOf;
    var total := |data|;
    var ts := BadCopies(elem, n, w, r, total);
    BadCopiesTyped(elem, n, w, r, total);
    ItemsWidth(elem, ts);
    EncFirst(ts);
    DecodedParamShape(elem, data, r);
    CopiesHeadTail(elem, n, data, r);
    if Aligned(elem, w, r, total) {
      SampleZeros(elem);
      assert ts[1..] == BadCopies(elem, n - 1, w + Width(elem), r + Advance(elem), total);
      OnlyRight(data, w, Width(elem), EncAll(ts[1..]));
      BadCopiesFail(elem, n - 1, data, w + Width(elem), r + Advance(elem));
    } else {
      CopiesZeros(elem, n - 1);
      assert ts[1..] == seq(n - 1, _ => Sample(elem));
      OnlyLeft(data, w, Enc(ts[0]), (n - 1) * Width(elem));
      BadFails(elem, data, w, r);
    }
  }

  /** The parts of a result are the results of the parts. */
  lemma {:induction false} CopiesHeadTail(elem: ParamType, n: nat, data: bytes, r: nat)
    requires n > 0
    ensures var d := DecodedCopies(elem, n, data, r);
            d.Ok? ==>
              && |d.value.tokens| > 0
              && DecodedParam(elem, data, r).Ok? && DecodedParam(elem, data, r).value.token == d.value.tokens[0]
              && var next := DecodedCopies(elem, n - 1, data, DecodedParam(elem, data, r).value.newOffset);
                 next.Ok? && next.value.tokens == d.value.tokens[1..]
  {
    hide DecodedParam;
  }

  lemma {:induction false} ParamsHeadTail(tys: seq<ParamType>, data: bytes, r: nat)
    requires tys != []
    ensures var d := DecodedParams(tys, data, r);
            d.Ok? ==>
              && |d.value.tokens| > 0
              && DecodedParam(tys[0], data, r).Ok? && DecodedParam(tys[0], data, r).value.token == d.value.tokens[0]
              && var next := DecodedParams(tys[1..], data, DecodedParam(tys[0], data, r).value.newOffset);
                 next.Ok? && next.value.tokens == d.value.tokens[1..]
  {
    hide DecodedParam;
  }

  lemma {:induction false} BadAllFail(tys: seq<ParamType>, data: bytes, w: nat, r: nat)
    requires AllStatic(tys) && !AlignedAll(tys, w, r, |data|)
    requires Only(data, w, EncAll(BadAll(tys, w, r, |data|)))
    ensures var d := DecodedParams(tys, data, r);
            d.Ok? ==> d.value.tokens != BadAll(tys, w, r, |data|)
    decreases tys, 1
  {
    hide DecodedParam, DecodedParams, Aligned, Bad, Enc, EncAll, Only, Sample, WellTyped, Advance, Width, IsDynamicType,
         WellTypedAll;
    var total := |data|;
    var ts := BadAll(tys, w, r, total);
    assert tys[0] in tys;
    BadAllTyped(tys, w, r, total);
    AllWidth(tys, ts);
    EncFirst(ts);
    DecodedParamShape(tys[0], data, r);
    ParamsHeadTail(tys, data, r);
    if Aligned(tys[0], w, r, total) {
      SampleZeros(tys[0]);
      assert ts[1..] == BadAll(tys[1..], w + Width(tys[0]), r + Advance(tys[0]), total);
      OnlyRight(data, w, Width(tys[0]), EncAll(ts[1..]));
      BadAllFail(tys[1..], data, w + Width(tys[0]), r + Advance(tys[0]));
    } else {
      SamplesZeros(tys[1..]);
      assert ts[1..] == Samples(tys[1..]);
      OnlyLeft(data, w, Enc(ts[0]), WidthAll(tys[1..]));
      BadFails(tys[0], data, w, r);
    }
  }

  // ----- the law -----

  /** All values of the types come back, whatever bytes follow. */
  ghost predicate AllSurvive(tys: seq<ParamType>) {
    forall ts, suffix | WellTypedAll(ts, tys) :: Survives(tys, ts, suffix)
  }

  ghost predicate Survives(tys: seq<ParamType>, ts: seq<Token>, suffix: bytes) {
    Decoded(tys, Encode(ts) + suffix) == Ok(ts)
  }

  lemma {:induction false} StaticCounts(ty: ParamType, t: Token)
    requires !IsDynamicType(ty) && WellTyped(t, ty)
    ensures CountsFit(t)
    decreases ty
  {
    match ty
    case FixedArrayT(elem, _) =>
      forall i | i in t.items
        ensures CountsFit(i)
      {
        StaticCounts(elem, i);
      }
    case TupleT(params) =>
      forall i | 0 <= i < |params|
        ensures CountsFit(t.items[i])
      {
        assert params[i] in params;
        StaticCounts(params[i], t.items[i]);
      }
    case _ =>
  }

  lemma {:induction false} EncodedStatic(tys: seq<ParamType>, ts: seq<Token>)
    requires AllStatic(tys) && WellTypedAll(ts, tys)
    ensures Encode(ts) == EncAll(ts) && |Encode(ts)| == WidthAll(tys)
  {
    AllWidth(tys, ts);
    EncodeSize(ts);
    forall t | t in ts
      ensures CountsFit(t)
    {
      var i :| 0 <= i < |ts| && ts[i] == t;
      assert tys[i] in tys;
      StaticCounts(tys[i], t);
    }
    EncodeMeetsSpec(ts);
  }

  /**
   For every list of static types: all values survive, with any bytes after them, exactly when every leaf is read
   inside the encoding and where it was written, and the gate lets an empty encoding through.
   */
  lemma {:induction false} StaticExactly(tys: seq<ParamType>)
    requires AllStatic(tys)
    ensures AllSurvive(tys) <==>
            AlignedAll(tys, 0, 0, WidthAll(tys)) && (WidthAll(tys) > 0 || forall ty | ty in tys :: EmptyBytesValid(ty))
  {
    var total := WidthAll(tys);
    if !AlignedAll(tys, 0, 0, total) {
      Misaligned(tys);
    } else if total == 0 && exists ty | ty in tys :: !EmptyBytesValid(ty) {
      SamplesOk(tys);
      EncodedStatic(tys, Samples(tys));
      assert !Survives(tys, Samples(tys), []);
    } else {
      forall ts, suffix | WellTypedAll(ts, tys)
        ensures Survives(tys, ts, suffix)
      {
        AlignedSurvives(tys, ts, suffix);
      }
    }
  }

  lemma {:induction false} AlignedSurvives(tys: seq<ParamType>, ts: seq<Token>, suffix: bytes)
    requires AllStatic(tys) && WellTypedAll(ts, tys)
    requires AlignedAll(tys, 0, 0, WidthAll(tys)) && (WidthAll(tys) > 0 || forall ty | ty in tys :: EmptyBytesValid(ty))
    ensures Survives(tys, ts, suffix)
  {
    hide WellTyped, IsDynamicType, DecodedParams, AlignedAll, EncAll, Encode;
    EncodedStatic(tys, ts);
    var data := Encode(ts) + suffix;
    assert data[0..|Encode(ts)|] == Encode(ts);
    AlignedDecodesAll(tys, ts, data, 0, 0, WidthAll(tys));
  }

  lemma {:induction false} Misaligned(tys: seq<ParamType>)
    requires AllStatic(tys) && !AlignedAll(tys, 0, 0, WidthAll(tys))
    ensures !AllSurvive(tys)
  {
    hide WellTyped, WellTypedAll, IsDynamicType, DecodedParams, AlignedAll, EncAll, Encode, BadAll, EmptyBytesValid, AllStatic,
         WidthAll;
    var total := WidthAll(tys);
    var ts := BadAll(tys, 0, 0, total);
    BadAllTyped(tys, 0, 0, total);
    EncodedStatic(tys, ts);
    var data := Encode(ts);
    assert data + [] == data && data[0..|data|] == data;
    BadAllFail(tys, data, 0, 0);
    assert !Survives(tys, ts, []);
  }

  /** What follows fixed bytes survives exactly for bytes1 to bytes32. */
  lemma {:induction false} FixedBytesExactly(size: nat)
    ensures AllSurvive([FixedBytesT(size), UintT(256)]) <==> 1 <= size <= 32
  {
    var tys := [FixedBytesT(size), UintT(256)];
    var width := 32 * Words(size);
    assert tys[1..] == [UintT(256)] && tys[1..][1..] == [];
    assert WidthAll(tys[1..]) == 32 + WidthAll(tys[1..][1..]) == 32;
    assert AlignedAll(tys[1..], width, 32, width + 32) <==>
           Aligned(UintT(256), width, 32, width + 32) && AlignedAll([], width + 32, 64, width + 32);
    StaticExactly(tys);
  }
}
