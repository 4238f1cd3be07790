/**
 The ABI decoder (decoder.rs). `DecodedParam` and its companions are the recursive meaning of
 the decoder; the methods below them are its loops. A slice out of bounds is `Panic`.
 */
module AbiDecoder {
  import opened ByteCodec
  import opened AbiTypes
  import opened AbiSpec
  import opened AbiEncoder

  datatype Error = InvalidData | InvalidName

  datatype Outcome<+T> = Ok(value: T) | Err(error: Error) | Panic {
    predicate IsFailure() {
      !Ok?
    }

    function PropagateFailure<U>(): Outcome<U>
      requires !Ok?
    {
      if Err? then Outcome<U>.Err(error) else Outcome<U>.Panic
    }

    function Extract(): T
      requires Ok?
    {
      value
    }
  }

  datatype DecodeResult = DecodeResult(token: Token, newOffset: nat)

  datatype DecodeResults = DecodeResults(tokens: seq<Token>, newOffset: nat)

  function AsUsize(w: word): (r: Outcome<nat>)
    ensures !r.Panic?
    ensures r.Ok? ==> r.value < 0x1_0000_0000
  {
    if exists i | 0 <= i < 28 :: w[i] != 0 then Err(InvalidData)
    else Ok(w[28] as int * 0x100_0000 + w[29] as int * 0x1_0000 + w[30] as int * 0x100 + w[31] as int)
  }

  function AsBool(w: word): (r: Outcome<bool>)
    ensures !r.Panic?
  {
    if exists i | 0 <= i < 31 :: w[i] != 0 then Err(InvalidData) else Ok(w[31] == 1)
  }

  /** peek and take_bytes. */
  function Peek(data: bytes, offset: nat, len: nat): (r: Outcome<bytes>)
    ensures !r.Panic?
    ensures r.Ok? <==> offset + len <= |data|
    ensures r.Ok? ==> At(data, offset, r.value) && |r.value| == len
  {
    if offset + len > |data| then Err(InvalidData) else Ok(data[offset..offset + len])
  }

  function PeekWord(data: bytes, offset: nat): (r: Outcome<word>)
    ensures !r.Panic?
    ensures r.Ok? ==> offset + 32 <= |data|
  {
    var s :- Peek(data, offset, 32);
    Ok(s)
  }

  function PeekUsize(data: bytes, offset: nat): (r: Outcome<nat>)
    ensures !r.Panic?
    ensures r.Ok? ==> offset + 32 <= |data| && r.value < 0x1_0000_0000
  {
    var w :- PeekWord(data, offset);
    AsUsize(w)
  }

  function SliceFrom(data: bytes, start: nat): (r: Outcome<bytes>) {
    if start > |data| then Panic else Ok(data[start..])
  }

  function DecodedBytes(data: bytes, offset: nat): (r: Outcome<bytes>)
    ensures !r.Panic?
  {
    var dynamicOffset :- PeekUsize(data, offset);
    var len :- PeekUsize(data, dynamicOffset);
    Peek(data, dynamicOffset + 32, len)
  }

  function DecodedParam(ty: ParamType, data: bytes, offset: nat): Outcome<DecodeResult>
    decreases ty, 0
  {
    match ty
    case AddressT =>
      var w :- PeekWord(data, offset);
      Ok(DecodeResult(Address(w), offset + 32))
    case IntT(_) =>
      var w :- PeekWord(data, offset);
      Ok(DecodeResult(Int(WordValue(w)), offset + 32))
    case UintT(_) =>
      var w :- PeekWord(data, offset);
      Ok(DecodeResult(Uint(WordValue(w)), offset + 32))
    case BoolT =>
      var w :- PeekWord(data, offset);
      var b :- AsBool(w);
      Ok(DecodeResult(Bool(b), offset + 32))
    case FixedBytesT(size) =>
      var b :- Peek(data, offset, size);
      Ok(DecodeResult(FixedBytes(b), offset + 32))
    case BytesT =>
      var b :- DecodedBytes(data, offset);
      Ok(DecodeResult(Bytes(b), offset + 32))
    case StringT =>
      var b :- DecodedBytes(data, offset);
      Ok(DecodeResult(String(b), offset + 32))
    case ArrayT(elem) =>
      var lenOffset :- PeekUsize(data, offset);
      var len :- PeekUsize(data, lenOffset);
      var tail :- SliceFrom(data, lenOffset + 32);
      var items :- DecodedCopies(elem, len, tail, 0);
      Ok(DecodeResult(Array(items.tokens), offset + 32))
    case FixedArrayT(elem, len) =>
      if IsDynamicType(ty) then
        var start :- PeekUsize(data, offset);
        var tail :- SliceFrom(data, start);
        var items :- DecodedCopies(elem, len, tail, 0);
        Ok(DecodeResult(FixedArray(items.tokens), offset + 32))
      else
        var items :- DecodedCopies(elem, len, data, offset);
        Ok(DecodeResult(FixedArray(items.tokens), items.newOffset))
    case TupleT(params) =>
      if IsDynamicType(ty) then
        var start :- PeekUsize(data, offset);
        if start > |data| then Err(InvalidData)
        else
          var items :- DecodedParams(params, data[start..], 0);
          Ok(DecodeResult(Tuple(items.tokens), offset + 32))
      else
        var items :- DecodedParams(params, data, offset);
        Ok(DecodeResult(Tuple(items.tokens), items.newOffset))
  }

  function WordValue(w: word): u256 {
    ToFromBE(w);
    FromBE(w)
  }

  /** Parameters of the given types, one after the other from `offset`. */
  function DecodedParams(tys: seq<ParamType>, data: bytes, offset: nat): Outcome<DecodeResults>
    decreases tys, 1
  {
    if tys == [] then Ok(DecodeResults([], offset))
    else
      var first :- DecodedParam(tys[0], data, offset);
      var rest :- DecodedParams(tys[1..], data, first.newOffset);
      Ok(DecodeResults([first.token] + rest.tokens, rest.newOffset))
  }

  /** `n` parameters of the same type. */
  function DecodedCopies(ty: ParamType, n: nat, data: bytes, offset: nat): Outcome<DecodeResults>
    decreases ty, 1, n
  {
    if n == 0 then Ok(DecodeResults([], offset))
    else
      var first :- DecodedParam(ty, data, offset);
      var rest :- DecodedCopies(ty, n - 1, data, first.newOffset);
      Ok(DecodeResults([first.token] + rest.tokens, rest.newOffset))
  }

  function Decoded(tys: seq<ParamType>, data: bytes): Outcome<seq<Token>> {
    if (exists t | t in tys :: !EmptyBytesValid(t)) && data == [] then Err(InvalidName)
    else
      var r :- DecodedParams(tys, data, 0);
      Ok(r.tokens)
  }

  // ----- the loops of the decoder -----

  /** What the remaining steps of a decoding loop add to the tokens already pushed. */
  function Continue(pushed: seq<Token>, rest: Outcome<DecodeResults>): Outcome<DecodeResults> {
    if rest.Ok? then Ok(DecodeResults(pushed + rest.value.tokens, rest.value.newOffset)) else rest
  }

  lemma {:induction false} ContinueNone(rest: Outcome<DecodeResults>)
    ensures Continue([], rest) == rest
  {
    if rest.Ok? {
      assert [] + rest.value.tokens == rest.value.tokens;
    }
  }

  lemma {:induction false} ParamsStep(tys: seq<ParamType>, data: bytes, offset: nat, pushed: seq<Token>)
    requires tys != []
    ensures var first := DecodedParam(tys[0], data, offset);
            Continue(pushed, DecodedParams(tys, data, offset)) ==
            if first.Ok? then
              Continue(pushed + [first.value.token], DecodedParams(tys[1..], data, first.value.newOffset))
            else first.PropagateFailure()
  {
    var first := DecodedParam(tys[0], data, offset);
    if first.Ok? {
      var rest := DecodedParams(tys[1..], data, first.value.newOffset);
      if rest.Ok? {
        assert pushed + ([first.value.token] + rest.value.tokens) == (pushed + [first.value.token]) + rest.value.tokens;
      }
    }
  }

  lemma {:induction false} CopiesStep(ty: ParamType, n: nat, data: bytes, offset: nat, pushed: seq<Token>)
    requires n > 0
    ensures var first := DecodedParam(ty, data, offset);
            Continue(pushed, DecodedCopies(ty, n, data, offset)) ==
            if first.Ok? then
              Continue(pushed + [first.value.token], DecodedCopies(ty, n - 1, data, first.value.newOffset))
            else first.PropagateFailure()
  {
    var first := DecodedParam(ty, data, offset);
    if first.Ok? {
      var rest := DecodedCopies(ty, n - 1, data, first.value.newOffset);
      if rest.Ok? {
        assert pushed + ([first.value.token] + rest.value.tokens) == (pushed + [first.value.token]) + rest.value.tokens;
      }
    }
  }

  method Decode(types: seq<ParamType>, data: bytes) returns (r: Outcome<seq<Token>>)
    ensures r == Decoded(types, data)
  {
    var emptyValid := forall t | t in types :: EmptyBytesValid(t);
    if !emptyValid && data == [] {
      return Err(InvalidName);
    }
    var res := DecodeEach(types, data, 0);
    if !res.Ok? {
      return res.PropagateFailure();
    }
    return Ok(res.value.tokens);
  }

  method DecodeEach(types: seq<ParamType>, data: bytes, start: nat) returns (r: Outcome<DecodeResults>)
    ensures r == DecodedParams(types, data, start)
    decreases types, 1
  {
    var tokens := [];
    var offset := start;
    assert types[0..] == types;
    ContinueNone(DecodedParams(types, data, start));
    for i := 0 to |types|
      invariant DecodedParams(types, data, start) == Continue(tokens, DecodedParams(types[i..], data, offset))
    {
      assert types[i..][0] == types[i] && types[i..][1..] == types[i + 1..];
      assert types[i] in types;
      ParamsStep(types[i..], data, offset, tokens);
      var res := DecodeParam(types[i], data, offset);
      if !res.Ok? {
        return res.PropagateFailure();
      }
      offset := res.value.newOffset;
      tokens := tokens + [res.value.token];
    }
    assert tokens + [] == tokens;
    return Ok(DecodeResults(tokens, offset));
  }

  method DecodeCopies(ty: ParamType, len: nat, data: bytes, start: nat) returns (r: Outcome<DecodeResults>)
    ensures r == DecodedCopies(ty, len, data, start)
    decreases ty, 1
  {
    hide DecodedParam;
    var tokens := [];
    var offset := start;
    ContinueNone(DecodedCopies(ty, len, data, start));
    for i := 0 to len
      invariant DecodedCopies(ty, len, data, start) == Continue(tokens, DecodedCopies(ty, len - i, data, offset))
    {
      CopiesStep(ty, len - i, data, offset, tokens);
      var res := DecodeParam(ty, data, offset);
      if !res.Ok? {
        return res.PropagateFailure();
      }
      offset := res.value.newOffset;
      tokens := tokens + [res.value.token];
    }
    assert tokens + [] == tokens;
    return Ok(DecodeResults(tokens, offset));
  }

  method DecodeParam(ty: ParamType, data: bytes, offset: nat) returns (r: Outcome<DecodeResult>)
    ensures r == DecodedParam(ty, data, offset)
    decreases ty, 0
  {
    match ty
    case ArrayT(elem) =>
      var lenOffset :- PeekUsize(data, offset);
      var len :- PeekUsize(data, lenOffset);
      var items := DecodeCopies(elem, len, data[lenOffset + 32..], 0);
      if !items.Ok? {
        return items.PropagateFailure();
      }
      return Ok(DecodeResult(Array(items.value.tokens), offset + 32));
    case FixedArrayT(elem, len) =>
      var tail, newOffset := data, offset;
      if IsDynamicType(ty) {
        var start :- PeekUsize(data, offset);
        if start > |data| {
          return Panic;
        }
        tail, newOffset := data[start..], 0;
      }
      var items := DecodeCopies(elem, len, tail, newOffset);
      if !items.Ok? {
        return items.PropagateFailure();
      }
      return Ok(DecodeResult(FixedArray(items.value.tokens),
                             if IsDynamicType(ty) then offset + 32 else items.value.newOffset));
    case TupleT(params) =>
      var tail, newOffset := data, offset;
      if IsDynamicType(ty) {
        var start :- PeekUsize(data, offset);
        if start > |data| {
          return Err(InvalidData);
        }
        tail, newOffset := data[start..], 0;
      }
      var items := DecodeEach(params, tail, newOffset);
      if !items.Ok? {
        return items.PropagateFailure();
      }
      return Ok(DecodeResult(Tuple(items.value.tokens),
                             if IsDynamicType(ty) then offset + 32 else items.value.newOffset));
    case _ =>
      return DecodedParam(ty, data, offset);
  }

  // ----- decoding arbitrary bytes -----

  /** How far the decoder moves past a parameter of the type. */
  function Advance(ty: ParamType): nat
    decreases ty, 0
  {
    if IsDynamicType(ty) then 32
    else match ty
      case FixedArrayT(elem, len) => len * Advance(elem)
      case TupleT(params) => AdvanceAll(params)
      case _ => 32
  }

  function AdvanceAll(tys: seq<ParamType>): nat
    decreases tys, 1
  {
    if tys == [] then 0 else Advance(tys[0]) + AdvanceAll(tys[1..])
  }

  /** No fixed array of a dynamic type anywhere: the one slice that the decoder does not guard. */
  predicate GuardedSlices(ty: ParamType) {
    match ty
    case ArrayT(elem) => GuardedSlices(elem)
    case FixedArrayT(elem, _) => !IsDynamicType(elem) && GuardedSlices(elem)
    case TupleT(params) => forall p | p in params :: GuardedSlices(p)
    case _ => true
  }

  /** Whatever the bytes: a result has the type asked for, and the new offset depends only on the type. */
  lemma {:induction false} DecodedParamShape(ty: ParamType, data: bytes, offset: nat)
    ensures var r := DecodedParam(ty, data, offset);
            && (r.Ok? ==> WellTyped(r.value.token, ty) && r.value.newOffset == offset + Advance(ty))
            && (GuardedSlices(ty) ==> !r.Panic?)
    decreases ty, 0
  {
    match ty
    case ArrayT(elem) =>
      var lenOffset := PeekUsize(data, offset);
      if lenOffset.Ok? {
        var len := PeekUsize(data, lenOffset.value);
        if len.Ok? {
          DecodedCopiesShape(elem, len.value, data[lenOffset.value + 32..], 0);
        }
      }
    case FixedArrayT(elem, len) =>
      if IsDynamicType(ty) {
        var start := PeekUsize(data, offset);
        if start.Ok? && start.value <= |data| {
          DecodedCopiesShape(elem, len, data[start.value..], 0);
        }
      } else {
        DecodedCopiesShape(elem, len, data, offset);
      }
    case TupleT(params) =>
      if IsDynamicType(ty) {
        var start := PeekUsize(data, offset);
        if start.Ok? && start.value <= |data| {
          DecodedParamsShape(params, data[start.value..], 0);
        }
      } else {
        DecodedParamsShape(params, data, offset);
      }
    case _ =>
  }

  lemma {:induction false} DecodedParamsShape(tys: seq<ParamType>, data: bytes, offset: nat)
    ensures var r := DecodedParams(tys, data, offset);
            && (r.Ok? ==> WellTypedAll(r.value.tokens, tys) && r.value.newOffset == offset + AdvanceAll(tys))
            && ((forall p | p in tys :: GuardedSlices(p)) ==> !r.Panic?)
    decreases tys, 1
  {
    if tys == [] {
    } else {
      assert tys[0] in tys;
      DecodedParamShape(tys[0], data, offset);
      var first := DecodedParam(tys[0], data, offset);
      if first.Ok? {
        DecodedParamsShape(tys[1..], data, first.value.newOffset);
      }
    }
  }

  lemma {:induction false} DecodedCopiesShape(ty: ParamType, n: nat, data: bytes, offset: nat)
    ensures var r := DecodedCopies(ty, n, data, offset);
            && (r.Ok? ==>
                  && |r.value.tokens| == n
                  && (forall t | t in r.value.tokens :: WellTyped(t, ty))
                  && r.value.newOffset == offset + n * Advance(ty))
            && (GuardedSlices(ty) ==> !r.Panic?)
    decreases ty, 1, n
  {
    hide DecodedParam, Advance, WellTyped, GuardedSlices;
    if n == 0 {
    } else {
      DecodedParamShape(ty, data, offset);
      var first := DecodedParam(ty, data, offset);
      if first.Ok? {
        DecodedCopiesShape(ty, n - 1, data, first.value.newOffset);
        assert n * Advance(ty) == Advance(ty) + (n - 1) * Advance(ty);
      }
    }
  }

  /** Decoding any bytes yields values of the requested types or an error, and cannot panic on guarded types. */
  lemma {:induction false} DecodeAnyBytes(tys: seq<ParamType>, data: bytes)
    ensures Decoded(tys, data).Ok? ==> WellTypedAll(Decoded(tys, data).value, tys)
    ensures (forall p | p in tys :: GuardedSlices(p)) ==> !Decoded(tys, data).Panic?
  {
    DecodedParamsShape(tys, data, 0);
  }

  lemma {:induction false} StaticIsGuarded(ty: ParamType)
    requires !IsDynamicType(ty)
    ensures GuardedSlices(ty)
  {
    match ty
    case FixedArrayT(elem, _) => StaticIsGuarded(elem);
    case TupleT(params) =>
      forall p | p in params
        ensures GuardedSlices(p)
      {
        StaticIsGuarded(p);
      }
    case _ =>
  }

  /** Some input makes the decoder slice out of bounds on a fixed array exactly when its element type is dynamic. */
  lemma {:induction false} FixedArrayPanicsExactly(elem: ParamType, len: nat)
    ensures (exists data :: Decoded([FixedArrayT(elem, len)], data).Panic?) <==> IsDynamicType(elem)
  {
    var ty := FixedArrayT(elem, len);
    if IsDynamicType(elem) {
      var data := Number(33);
      PadU32IsNumber(33);
      UsizeOfNumber(33);
      assert PeekUsize(data, 0) == Ok(33) by { assert data[0..32] == data; }
      assert [ty][0] == ty;
      assert DecodedParam(ty, data, 0).Panic?;
      assert DecodedParams([ty], data, 0).Panic?;
      assert Decoded([ty], data).Panic?;
    } else {
      StaticIsGuarded(ty);
      forall data
        ensures !Decoded([ty], data).Panic?
      {
        DecodeAnyBytes([ty], data);
      }
    }
  }

  lemma {:induction false} UsizeOfNumber(n: nat)
    requires n < 0x1_0000_0000
    ensures AsUsize(Number(n)) == Ok(n)
  {
    hide ToBE, Pow256;
    PadU32IsNumber(n);
    FourBytes(n);
    var w := Number(n);
    assert w == Zeros(28) + [n / 256 / 256 / 256 % 256, n / 256 / 256 % 256, n / 256 % 256, n % 256];
  }

  lemma {:induction false} FourBytes(n: nat)
    ensures ToBE(n, 4) == [n / 256 / 256 / 256 % 256, n / 256 / 256 % 256, n / 256 % 256, n % 256]
  {
    hide ToBE;
    ToBEStep(n, 4);
    ToBEStep(n / 256, 3);
    ToBEStep(n / 256 / 256, 2);
    ToBEStep(n / 256 / 256 / 256, 1);
  }

  lemma {:induction false} ToBEStep(n: nat, k: nat)
    requires k > 0
    ensures ToBE(n, k) == ToBE(n / 256, k - 1) + [n % 256]
  {
  }

  /** A word is read as the number it is, exactly when that number is below 2^32. */
  lemma {:induction false} AsUsizeExactly(w: word)
    ensures AsUsize(w).Ok? <==> FromBE(w) < 0x1_0000_0000
    ensures AsUsize(w).Ok? ==> AsUsize(w).value == FromBE(w)
  {
    hide ToBE, FromBE, Pow256, AsUsize;
    ToFromBE(w);
    if FromBE(w) < 0x1_0000_0000 {
      UsizeOfNumber(FromBE(w));
    } else {
      LargeWord(w);
    }
  }

  lemma {:induction false} LargeWord(w: word)
    requires FromBE(w) >= 0x1_0000_0000
    ensures !AsUsize(w).Ok?
  {
    hide ToBE, Pow256;
    if forall i | 0 <= i < 28 :: w[i] == 0 {
      var low := w[28..];
      assert w == Zeros(28) + low;
      LeadingZeros(low, 28);
      ToFromBE(low);
      Powers();
    }
  }

  lemma {:induction false} Powers()
    ensures Pow256(4) == 0x1_0000_0000
  {
  }

  lemma {:induction false} LeadingZeros(s: bytes, k: nat)
    ensures FromBE(Zeros(k) + s) == FromBE(s)
    decreases |s|, k
  {
    if s == [] {
      assert Zeros(k) + s == Zeros(k);
      if k > 0 {
        assert Zeros(k)[..k - 1] == Zeros(k - 1);
        LeadingZeros(s, k - 1);
        assert Zeros(k - 1) + s == Zeros(k - 1);
      }
    } else {
      var n := |s| - 1;
      assert (Zeros(k) + s)[..k + n] == Zeros(k) + s[..n];
      LeadingZeros(s[..n], k);
    }
  }

  // ----- round trip -----

  lemma {:induction false} PeekAt(data: bytes, offset: nat, s: bytes)
    requires At(data, offset, s)
    ensures Peek(data, offset, |s|) == Ok(s)
  {
  }

  lemma {:induction false} PeekNumber(data: bytes, offset: nat, n: nat)
    requires At(data, offset, Number(n))
    requires n < 0x1_0000_0000
    ensures PeekUsize(data, offset) == Ok(n)
  {
    UsizeOfNumber(n);
  }

  lemma {:induction false} BoolOfNumber(b: bool)
    ensures AsBool(Number(if b then 1 else 0)) == Ok(b)
  {
    ToBEPadded(if b then 1 else 0, 1, 31);
  }

  lemma {:induction false} DecodedBytesAt(data: bytes, offset: nat, tail: nat, b: bytes)
    requires At(data, offset, Number(tail)) && tail < 0x1_0000_0000
    requires At(data, tail, Number(|b|) + PadRight(b)) && |b| < 0x1_0000_0000
    ensures DecodedBytes(data, offset) == Ok(b)
  {
    AtSplit(data, tail, Number(|b|), PadRight(b));
    AtSplit(data, tail + 32, b, Zeros(|PadRight(b)| - |b|));
    PeekNumber(data, offset, tail);
    PeekNumber(data, tail, |b|);
    PeekAt(data, tail + 32, b);
  }

  /** `n` copies of a type decode like the type list that repeats it. */
  lemma {:induction false} CopiesAreParams(ty: ParamType, n: nat, tys: seq<ParamType>, data: bytes, offset: nat)
    requires |tys| == n && forall i | 0 <= i < n :: tys[i] == ty
    ensures DecodedCopies(ty, n, data, offset) == DecodedParams(tys, data, offset)
  {
    if n == 0 {
    } else {
      var first := DecodedParam(ty, data, offset);
      if first.Ok? {
        CopiesAreParams(ty, n - 1, tys[1..], data, first.value.newOffset);
      }
    }
  }

  /**
   The frame: a token whose head stands at `offset`, and whose tail stands at `tail` if it has one, is decoded
   whatever the other bytes are.
   */
  lemma {:induction false} DecodedParamAt(ty: ParamType, t: Token, data: bytes, offset: nat, tail: nat)
    requires Canonical(ty) && WellTyped(t, ty) && CountsFit(t)
    requires At(data, offset, Head(t, tail))
    requires IsDynamic(t) ==> At(data, tail, Enc(t)) && tail + |Enc(t)| < 0x1_0000_0000
    ensures DecodedParam(ty, data, offset) == Ok(DecodeResult(t, offset + HeadSize(t)))
    decreases t, 0
  {
    hide At, ToBE, PadRight, Number, EncAll, DecodedBytes;
    DynamicAgrees(t, ty);
    match ty
    case BytesT => DecodedBytesAt(data, offset, tail, t.data);
    case StringT => DecodedBytesAt(data, offset, tail, t.data);
    case ArrayT(elem) => DecodedArrayAt(elem, t.items, data, offset, tail);
    case FixedArrayT(elem, len) => DecodedFixedArrayAt(elem, t.items, data, offset, tail);
    case TupleT(params) => DecodedTupleAt(params, t.items, data, offset, tail);
    case _ => DecodedLeafAt(ty, t, data, offset, tail);
  }

  lemma {:induction false} DecodedLeafAt(ty: ParamType, t: Token, data: bytes, offset: nat, tail: nat)
    requires !IsDynamicType(ty) && !ty.FixedArrayT? && !ty.TupleT?
    requires Canonical(ty) && WellTyped(t, ty)
    requires At(data, offset, Head(t, tail))
    ensures DecodedParam(ty, data, offset) == Ok(DecodeResult(t, offset + HeadSize(t)))
  {
    hide ToBE, FromBE, Pow256;
    if ty.FixedBytesT? {
      assert Enc(t) == t.data + Zeros(32 - ty.size);
      AtSplit(data, offset, t.data, Zeros(32 - ty.size));
      PeekAt(data, offset, t.data);
    } else {
      PeekAt(data, offset, Enc(t));
      WordOf(ty, t, data, offset);
    }
  }

  lemma {:induction false} WordOf(ty: ParamType, t: Token, data: bytes, offset: nat)
    requires ty.AddressT? || ty.IntT? || ty.UintT? || ty.BoolT?
    requires WellTyped(t, ty)
    requires Peek(data, offset, 32) == Ok(Enc(t))
    ensures DecodedParam(ty, data, offset) == Ok(DecodeResult(t, offset + 32))
  {
    hide ToBE, FromBE, Pow256, At;
    match ty
    case IntT(_) => FromToBE(t.value, 32);
    case UintT(_) => FromToBE(t.value, 32);
    case BoolT => BoolOfNumber(t.flag);
    case AddressT =>
  }

  lemma {:induction false} ArrayUnfold(elem: ParamType, n: nat, data: bytes, offset: nat, tail: nat, r: DecodeResults)
    requires PeekUsize(data, offset) == Ok(tail)
    requires PeekUsize(data, tail) == Ok(n)
    requires DecodedCopies(elem, n, data[tail + 32..], 0) == Ok(r)
    ensures DecodedParam(ArrayT(elem), data, offset) == Ok(DecodeResult(Array(r.tokens), offset + 32))
  {
    hide PeekUsize, DecodedCopies;
  }

  lemma {:induction false} DecodedArrayAt(elem: ParamType, items: seq<Token>, data: bytes, offset: nat, tail: nat)
    requires Canonical(elem) && |items| < 0x1_0000_0000
    requires forall i | i in items :: WellTyped(i, elem) && CountsFit(i)
    requires At(data, offset, Number(tail))
    requires At(data, tail, Number(|items|) + EncAll(items))
    requires tail + 32 + |EncAll(items)| < 0x1_0000_0000
    ensures DecodedParam(ArrayT(elem), data, offset) == Ok(DecodeResult(Array(items), offset + 32))
    decreases items, 2
  {
    AtSplit(data, tail, Number(|items|), EncAll(items));
    PeekNumber(data, offset, tail);
    PeekNumber(data, tail, |items|);
    AtSlice(data, tail + 32, 0, EncAll(items));
    DecodedCopiesOf(elem, items, data[tail + 32..]);
    ArrayUnfold(elem, |items|, data, offset, tail, DecodeResults(items, HeadsSize(items)));
  }

  lemma {:induction false} DecodedFixedArrayAt(elem: ParamType, items: seq<Token>, data: bytes, offset: nat, tail: nat)
    requires Canonical(FixedArrayT(elem, |items|))
    requires forall i | i in items :: WellTyped(i, elem) && CountsFit(i)
    requires IsDynamic(FixedArray(items)) <==> IsDynamicType(elem)
    requires At(data, offset, Head(FixedArray(items), tail))
    requires IsDynamicType(elem) ==> At(data, tail, EncAll(items)) && tail + |EncAll(items)| < 0x1_0000_0000
    ensures DecodedParam(FixedArrayT(elem, |items|), data, offset) ==
            Ok(DecodeResult(FixedArray(items), offset + HeadSize(FixedArray(items))))
    decreases items, 2
  {
    hide PeekUsize, CountsFit, WellTyped, DecodedParam, Enc, EncAll, Head, HeadSize, Heads, HeadsSize, Tails, Number;
    ContainerHead(FixedArray(items), items, tail);
    if IsDynamicType(elem) {
      PeekNumber(data, offset, tail);
      AtSlice(data, tail, 0, EncAll(items));
      DecodedCopiesOf(elem, items, data[tail..]);
      DynamicArrayUnfold(elem, |items|, data, offset, tail, DecodeResults(items, HeadsSize(items)));
    } else {
      var tys := seq(|items|, _ => elem);
      DecodedParamsAt(tys, items, data, offset, 0);
      CopiesAreParams(elem, |items|, tys, data, offset);
      StaticArrayUnfold(elem, |items|, data, offset, DecodeResults(items, offset + HeadsSize(items)));
    }
  }

  lemma {:induction false} ContainerHead(t: Token, items: seq<Token>, tail: nat)
    requires t == FixedArray(items) || t == Tuple(items)
    ensures Enc(t) == EncAll(items)
    ensures IsDynamic(t) ==> Head(t, tail) == Number(tail) && HeadSize(t) == 32
    ensures !IsDynamic(t) ==> Head(t, tail) == Heads(items, 0) && HeadSize(t) == HeadsSize(items) && Tails(items) == []
  {
    if !IsDynamic(t) {
      StaticHeads(items, HeadsSize(items), 0);
      assert Enc(t) == EncAll(items) == Heads(items, 0) + [];
    }
  }

  lemma {:induction false} DynamicArrayUnfold(elem: ParamType, n: nat, data: bytes, offset: nat, tail: nat, r: DecodeResults)
    requires IsDynamicType(elem) && tail <= |data|
    requires PeekUsize(data, offset) == Ok(tail)
    requires DecodedCopies(elem, n, data[tail..], 0) == Ok(r)
    ensures DecodedParam(FixedArrayT(elem, n), data, offset) == Ok(DecodeResult(FixedArray(r.tokens), offset + 32))
  {
  }

  lemma {:induction false} StaticArrayUnfold(elem: ParamType, n: nat, data: bytes, offset: nat, r: DecodeResults)
    requires !IsDynamicType(elem)
    requires DecodedCopies(elem, n, data, offset) == Ok(r)
    ensures DecodedParam(FixedArrayT(elem, n), data, offset) == Ok(DecodeResult(FixedArray(r.tokens), r.newOffset))
  {
  }

  lemma {:induction false} DecodedTupleAt(params: seq<ParamType>, items: seq<Token>, data: bytes, offset: nat, tail: nat)
    requires Canonical(TupleT(params)) && WellTypedAll(items, params)
    requires forall i | i in items :: CountsFit(i)
    requires IsDynamic(Tuple(items)) <==> IsDynamicType(TupleT(params))
    requires At(data, offset, Head(Tuple(items), tail))
    requires IsDynamic(Tuple(items)) ==> At(data, tail, EncAll(items)) && tail + |EncAll(items)| < 0x1_0000_0000
    ensures DecodedParam(TupleT(params), data, offset) ==
            Ok(DecodeResult(Tuple(items), offset + HeadSize(Tuple(items))))
    decreases items, 2
  {
    hide PeekUsize, CountsFit, WellTyped, DecodedParam, Enc, EncAll, Head, HeadSize, Heads, HeadsSize, Tails, Number;
    ContainerHead(Tuple(items), items, tail);
    if IsDynamic(Tuple(items)) {
      PeekNumber(data, offset, tail);
      AtSlice(data, tail, 0, EncAll(items));
      DecodedBlock(params, items, data[tail..]);
      DynamicTupleUnfold(params, data, offset, tail, DecodeResults(items, HeadsSize(items)));
    } else {
      DecodedParamsAt(params, items, data, offset, 0);
      StaticTupleUnfold(params, data, offset, DecodeResults(items, offset + HeadsSize(items)));
    }
  }

  lemma {:induction false} DynamicTupleUnfold(params: seq<ParamType>, data: bytes, offset: nat, tail: nat, r: DecodeResults)
    requires IsDynamicType(TupleT(params)) && tail <= |data|
    requires PeekUsize(data, offset) == Ok(tail)
    requires DecodedParams(params, data[tail..], 0) == Ok(r)
    ensures DecodedParam(TupleT(params), data, offset) == Ok(DecodeResult(Tuple(r.tokens), offset + 32))
  {
  }

  lemma {:induction false} StaticTupleUnfold(params: seq<ParamType>, data: bytes, offset: nat, r: DecodeResults)
    requires !IsDynamicType(TupleT(params))
    requires DecodedParams(params, data, offset) == Ok(r)
    ensures DecodedParam(TupleT(params), data, offset) == Ok(DecodeResult(Tuple(r.tokens), r.newOffset))
  {
  }

  lemma {:induction false} DecodedCopiesOf(elem: ParamType, items: seq<Token>, data: bytes)
    requires Canonical(elem)
    requires forall i | i in items :: WellTyped(i, elem) && CountsFit(i)
    requires At(data, 0, EncAll(items)) && |EncAll(items)| < 0x1_0000_0000
    ensures DecodedCopies(elem, |items|, data, 0) == Ok(DecodeResults(items, HeadsSize(items)))
    decreases items, 1
  {
    var tys := seq(|items|, _ => elem);
    DecodedBlock(tys, items, data);
    CopiesAreParams(elem, |items|, tys, data, 0);
  }

  /** A block of heads and tails at the start of the data. */
  lemma {:induction false} DecodedBlock(tys: seq<ParamType>, ts: seq<Token>, data: bytes)
    requires WellTypedAll(ts, tys)
    requires forall ty | ty in tys :: Canonical(ty)
    requires forall t | t in ts :: CountsFit(t)
    requires At(data, 0, EncAll(ts)) && (SomeDynamic(ts) ==> |EncAll(ts)| < 0x1_0000_0000)
    ensures DecodedParams(tys, data, 0) == Ok(DecodeResults(ts, HeadsSize(ts)))
    decreases ts, 0, 1
  {
    hide At, Heads, Tails, HeadsSize, DecodedParams, IsDynamic, WellTyped, Canonical;
    AtSplit(data, 0, Heads(ts, HeadsSize(ts)), Tails(ts));
    if SomeDynamic(ts) {
      DecodedParamsAt(tys, ts, data, 0, HeadsSize(ts));
    } else {
      StaticHeads(ts, HeadsSize(ts), 0);
      DecodedParamsAt(tys, ts, data, 0, 0);
    }
  }

  lemma {:induction false} DecodedParamsAt(tys: seq<ParamType>, ts: seq<Token>, data: bytes, offset: nat, tail: nat)
    requires WellTypedAll(ts, tys)
    requires forall ty | ty in tys :: Canonical(ty)
    requires forall t | t in ts :: CountsFit(t)
    requires At(data, offset, Heads(ts, tail))
    requires Tails(ts) == [] || At(data, tail, Tails(ts))
    requires tail + |Tails(ts)| < 0x1_0000_0000
    ensures DecodedParams(tys, data, offset) == Ok(DecodeResults(ts, offset + HeadsSize(ts)))
    decreases ts, 0, 0
  {
    hide *;
    WellTypedSplit(ts, tys);
    NoParams(data, offset);
    if ts == [] {
    } else {
      var t, rest := ts[0], ts[1..];
      var next := tail + |Tail(t)|;
      assert t in ts && tys[0] in tys;
      SplitFirst(ts, data, offset, tail);
      if IsDynamic(t) {
        DynamicNotEmpty(t);
      }
      DecodedParamAt(tys[0], t, data, offset, tail);
      DecodedParamsAt(tys[1..], rest, data, offset + HeadSize(t), next);
      assert ts == [t] + rest;
      ParamsUnfold(tys, data, offset, DecodeResult(t, offset + HeadSize(t)),
                   DecodeResults(rest, offset + HeadSize(t) + HeadsSize(rest)));
    }
  }

  lemma {:induction false} NoParams(data: bytes, offset: nat)
    ensures DecodedParams([], data, offset) == Ok(DecodeResults([], offset + HeadsSize([])))
  {
  }

  lemma {:induction false} WellTypedSplit(ts: seq<Token>, tys: seq<ParamType>)
    requires WellTypedAll(ts, tys)
    ensures |ts| == |tys|
    ensures ts != [] ==> WellTyped(ts[0], tys[0]) && WellTypedAll(ts[1..], tys[1..])
  {
  }

  /** The placement of a list splits into that of its first token and that of the others. */
  lemma {:induction false} SplitFirst(ts: seq<Token>, data: bytes, offset: nat, tail: nat)
    requires ts != []
    requires At(data, offset, Heads(ts, tail))
    requires Tails(ts) == [] || At(data, tail, Tails(ts))
    ensures At(data, offset, Head(ts[0], tail))
    ensures IsDynamic(ts[0]) && |Enc(ts[0])| > 0 ==> At(data, tail, Enc(ts[0]))
    ensures At(data, offset + HeadSize(ts[0]), Heads(ts[1..], tail + |Tail(ts[0])|))
    ensures Tails(ts[1..]) == [] || At(data, tail + |Tail(ts[0])|, Tails(ts[1..]))
    ensures |Tails(ts)| == |Tail(ts[0])| + |Tails(ts[1..])|
    ensures IsDynamic(ts[0]) ==> Tail(ts[0]) == Enc(ts[0])
    ensures HeadsSize(ts) == HeadSize(ts[0]) + HeadsSize(ts[1..])
  {
    hide At, Enc, EncAll, IsDynamic;
    var t, rest := ts[0], ts[1..];
    AtSplit(data, offset, Head(t, tail), Heads(rest, tail + |Tail(t)|));
    assert Tails(ts) == Tail(t) + Tails(rest);
    if Tails(ts) != [] {
      AtSplit(data, tail, Tail(t), Tails(rest));
    }
  }

  /** A dynamic tail is never empty. */
  lemma {:induction false} DynamicNotEmpty(t: Token)
    requires IsDynamic(t)
    ensures |Enc(t)| > 0
  {
    match t
    case FixedArray(items) => DynamicHeadsNotEmpty(items);
    case Tuple(items) => DynamicHeadsNotEmpty(items);
    case _ =>
  }

  lemma {:induction false} DynamicHeadsNotEmpty(ts: seq<Token>)
    requires exists t | t in ts :: IsDynamic(t)
    ensures HeadsSize(ts) > 0
  {
    if IsDynamic(ts[0]) {
    } else {
      var t :| t in ts && IsDynamic(t);
      assert t in ts[1..];
      DynamicHeadsNotEmpty(ts[1..]);
    }
  }

  lemma {:induction false} ParamsUnfold(tys: seq<ParamType>, data: bytes, offset: nat,
                                        first: DecodeResult, rest: DecodeResults)
    requires tys != []
    requires DecodedParam(tys[0], data, offset) == Ok(first)
    requires DecodedParams(tys[1..], data, first.newOffset) == Ok(rest)
    ensures DecodedParams(tys, data, offset) == Ok(DecodeResults([first.token] + rest.tokens, rest.newOffset))
  {
  }

  /**
   The law of the codec, with an arbitrary suffix after the encoding: on canonical types, decoding gives the
   tokens back exactly when they are values of the types and the empty-input gate lets the bytes through.
   */
  lemma {:induction false} RoundTrip(tys: seq<ParamType>, ts: seq<Token>, suffix: bytes)
    requires forall ty | ty in tys :: Canonical(ty)
    requires forall t | t in ts :: CountsFit(t)
    requires SomeDynamic(ts) ==> |Encode(ts)| < 0x1_0000_0000
    ensures Decoded(tys, Encode(ts) + suffix) == Ok(ts) <==>
            WellTypedAll(ts, tys) && (Encode(ts) + suffix != [] || forall ty | ty in tys :: EmptyBytesValid(ty))
  {
    hide Encode, EncAll, DecodedParams, WellTyped, Canonical, IsDynamic, CountsFit;
    var data := Encode(ts) + suffix;
    DecodeAnyBytes(tys, data);
    if WellTypedAll(ts, tys) {
      EncodeMeetsSpec(ts);
      DecodedBlock(tys, ts, data);
    }
  }

  /** Two token lists of the same types with the same encoding are the same. */
  lemma {:induction false} EncodeInjective(tys: seq<ParamType>, ts: seq<Token>, us: seq<Token>)
    requires forall ty | ty in tys :: Canonical(ty)
    requires forall t | t in ts + us :: CountsFit(t)
    requires SomeDynamic(ts + us) ==> |Encode(ts)| < 0x1_0000_0000
    requires WellTypedAll(ts, tys) && WellTypedAll(us, tys)
    requires Encode(ts) == Encode(us)
    ensures ts == us
  {
    RoundTrip(tys, ts, [0]);
    RoundTrip(tys, us, [0]);
  }

  // ----- when arbitrary bytes can make the decoder panic -----

  /** A small value of the type. */
  function Sample(ty: ParamType): Token
    decreases ty, 0
  {
    match ty
    case AddressT => Address(Zeros(32))
    case BytesT => Bytes([])
    case IntT(_) => Int(0)
    case UintT(_) => Uint(0)
    case BoolT => Bool(false)
    case StringT => String([])
    case FixedBytesT(size) => FixedBytes(Zeros(size))
    case ArrayT(_) => Array([])
    case FixedArrayT(elem, len) => FixedArray(seq(len, _ => Sample(elem)))
    case TupleT(params) => Tuple(Samples(params))
  }

  function Samples(tys: seq<ParamType>): (ts: seq<Token>)
    ensures |ts| == |tys|
    decreases tys, 1
  {
    if tys == [] then [] else [Sample(tys[0])] + Samples(tys[1..])
  }

  lemma {:induction false} SampleOk(ty: ParamType)
    ensures WellTyped(Sample(ty), ty) && CountsFit(Sample(ty))
    decreases ty, 0
  {
    match ty
    case FixedArrayT(elem, _) => SampleOk(elem);
    case TupleT(params) => SamplesOk(params);
    case _ =>
  }

  lemma {:induction false} SamplesOk(tys: seq<ParamType>)
    ensures WellTypedAll(Samples(tys), tys) && forall t | t in Samples(tys) :: CountsFit(t)
    decreases tys, 1
  {
    if tys == [] {
    } else {
      SampleOk(tys[0]);
      SamplesOk(tys[1..]);
      forall i | 0 <= i < |tys|
        ensures WellTyped(Samples(tys)[i], tys[i]) && CountsFit(Samples(tys)[i])
      {
        assert i > 0 ==> Samples(tys)[i] == Samples(tys[1..])[i - 1] && tys[i] == tys[1..][i - 1];
      }
    }
  }

  predicate AllGuarded(tys: seq<ParamType>) {
    forall p | p in tys :: GuardedSlices(p)
  }

  /** The first type with an unguarded slice. */
  function FirstUnguarded(tys: seq<ParamType>): (k: nat)
    requires !AllGuarded(tys)
    ensures k < |tys| && !GuardedSlices(tys[k])
  {
    if !GuardedSlices(tys[0]) then 0
    else
      assert forall p | p in tys :: p == tys[0] || p in tys[1..];
      1 + FirstUnguarded(tys[1..])
  }

  /** A head that leads to an unguarded slice: an offset past the data where the type itself is such a slice. */
  function BadHead(ty: ParamType, tail: nat): (s: bytes)
    ensures |s| == 32
  {
    Number(if ty.FixedArrayT? then 0xffff_ffff else tail)
  }

  function BadTail(ty: ParamType): bytes
    requires !GuardedSlices(ty)
    decreases ty, 0
  {
    match ty
    case ArrayT(elem) => Number(1) + BadHead(elem, 32) + BadTail(elem)
    case TupleT(params) => BadBlock(params)
    case FixedArrayT(_, _) => []
  }

  /** Bytes that make the decoder panic on a list of types: samples, and then the bad head. */
  function BadBlock(tys: seq<ParamType>): bytes
    requires !AllGuarded(tys)
    decreases tys, 1
  {
    var k := FirstUnguarded(tys);
    var ts := Samples(tys[..k]);
    var h := HeadsSize(ts) + 32;
    Heads(ts, h) + BadHead(tys[k], h + |Tails(ts)|) + (Tails(ts) + BadTail(tys[k]))
  }

  lemma {:induction false} BadParam(ty: ParamType, data: bytes, offset: nat, tail: nat)
    requires Canonical(ty) && !GuardedSlices(ty) && |data| < 0xffff_ffff
    requires At(data, offset, BadHead(ty, tail)) && At(data, tail, BadTail(ty))
    ensures DecodedParam(ty, data, offset).Panic?
    decreases ty, 0
  {
    hide Number;
    match ty
    case FixedArrayT(elem, len) =>
      if !IsDynamicType(elem) {
        StaticIsGuarded(elem);
      }
      PeekNumber(data, offset, 0xffff_ffff);
    case ArrayT(elem) =>
      var head, rest := BadHead(elem, 32), BadTail(elem);
      assert Number(1) + head + rest == Number(1) + (head + rest);
      AtSplit(data, tail, Number(1), head + rest);
      AtSplit(data, tail + 32, head, rest);
      PeekNumber(data, offset, tail);
      PeekNumber(data, tail, 1);
      AtSlice(data, tail + 32, 0, head);
      AtSlice(data, tail + 32, 32, rest);
      BadParam(elem, data[tail + 32..], 0, 32);
      ArrayPanics(elem, data, offset, tail);
    case TupleT(params) =>
      PeekNumber(data, offset, tail);
      AtSlice(data, tail, 0, BadBlock(params));
      BadParams(params, data[tail..]);
      TuplePanics(params, data, offset, tail);
  }

  lemma {:induction false} ArrayPanics(elem: ParamType, data: bytes, offset: nat, tail: nat)
    requires PeekUsize(data, offset) == Ok(tail) && PeekUsize(data, tail) == Ok(1)
    requires DecodedParam(elem, data[tail + 32..], 0).Panic?
    ensures DecodedParam(ArrayT(elem), data, offset).Panic?
  {
    hide PeekUsize;
    assert DecodedCopies(elem, 1, data[tail + 32..], 0).Panic?;
  }

  lemma {:induction false} TuplePanics(params: seq<ParamType>, data: bytes, offset: nat, tail: nat)
    requires !GuardedSlices(TupleT(params)) && tail <= |data|
    requires PeekUsize(data, offset) == Ok(tail)
    requires DecodedParams(params, data[tail..], 0).Panic?
    ensures DecodedParam(TupleT(params), data, offset).Panic?
  {
    hide PeekUsize, DecodedParams;
    if !IsDynamicType(TupleT(params)) {
      StaticIsGuarded(TupleT(params));
    }
  }

  lemma {:induction false} BadParams(tys: seq<ParamType>, data: bytes)
    requires (forall ty | ty in tys :: Canonical(ty)) && !AllGuarded(tys)
    requires At(data, 0, BadBlock(tys)) && |data| < 0xffff_ffff
    ensures DecodedParams(tys, data, 0).Panic?
    decreases tys, 1
  {
    hide Number, BadTail, BadHead, DecodedParam, DecodedParams, Heads, Tails, HeadsSize, GuardedSlices, Canonical;
    var k := FirstUnguarded(tys);
    var before := tys[..k];
    var ts := Samples(before);
    var h := HeadsSize(ts) + 32;
    var head, tails, rest := BadHead(tys[k], h + |Tails(ts)|), Tails(ts), BadTail(tys[k]);
    assert tys[k] in tys;
    AtSplit(data, 0, Heads(ts, h) + head, tails + rest);
    AtSplit(data, 0, Heads(ts, h), head);
    AtSplit(data, h, tails, rest);
    SamplesOk(before);
    DecodedParamsAt(before, ts, data, 0, h);
    BadParam(tys[k], data, HeadsSize(ts), h + |tails|);
    PanicAfter(tys, k, data, 0, DecodeResults(ts, 0 + HeadsSize(ts)));
  }

  /** If the first `k` parameters are read and the next one panics, the list panics. */
  lemma {:induction false} PanicAfter(tys: seq<ParamType>, k: nat, data: bytes, offset: nat, r: DecodeResults)
    requires k < |tys| && DecodedParams(tys[..k], data, offset) == Ok(r)
    requires DecodedParam(tys[k], data, r.newOffset).Panic?
    ensures DecodedParams(tys, data, offset).Panic?
    decreases k
  {
    hide DecodedParam;
    if k == 0 {
    } else {
      assert tys[..k][0] == tys[0] && tys[..k][1..] == tys[1..][..k - 1];
      var first := DecodedParam(tys[0], data, offset);
      var rest := DecodedParams(tys[1..][..k - 1], data, first.value.newOffset);
      PanicAfter(tys[1..], k - 1, data, first.value.newOffset, rest.value);
    }
  }

  /**
   Some input makes the decoder slice out of bounds exactly when an unguarded slice occurs anywhere in the
   types, however deep; the offset that does it must be larger than the bytes that lead to it.
   */
  lemma {:induction false} PanicsExactly(tys: seq<ParamType>)
    requires forall ty | ty in tys :: Canonical(ty)
    requires !AllGuarded(tys) ==> |BadBlock(tys)| < 0xffff_ffff
    ensures (exists data :: Decoded(tys, data).Panic?) <==> !AllGuarded(tys)
  {
    if AllGuarded(tys) {
      forall data
        ensures !Decoded(tys, data).Panic?
      {
        DecodeAnyBytes(tys, data);
      }
    } else {
      var data := BadBlock(tys);
      assert At(data, 0, data);
      BadParams(tys, data);
      assert Decoded(tys, data).Panic?;
    }
  }

  // ----- where the law fails outside canonical types, and exactly when -----

  ghost predicate RoundTrips(tys: seq<ParamType>, ts: seq<Token>) {
    forall suffix :: Decoded(tys, Encode(ts) + suffix) == Ok(ts)
  }

  /** An empty fixed array survives exactly when its element type is static: the encoder writes nothing for it. */
  lemma {:induction false} EmptyFixedArrayExactly(elem: ParamType)
    ensures RoundTrips([FixedArrayT(elem, 0)], [FixedArray([])]) <==> !IsDynamicType(elem)
  {
    var ty, ts := FixedArrayT(elem, 0), [FixedArray([])];
    EmptyArrayIsNothing();
    if IsDynamicType(elem) {
      EmptyArrayLost(elem);
      assert Encode(ts) + [] == [];
      assert Decoded([ty], Encode(ts) + []) != Ok(ts);
    } else {
      forall suffix
        ensures Decoded([ty], Encode(ts) + suffix) == Ok(ts)
      {
        assert Encode(ts) + suffix == suffix;
        EmptyArrayKept(elem, suffix);
      }
    }
  }

  lemma {:induction false} EmptyArrayKept(elem: ParamType, data: bytes)
    requires !IsDynamicType(elem)
    ensures Decoded([FixedArrayT(elem, 0)], data) == Ok([FixedArray([])])
  {
    hide DecodedParam, DecodedParams, IsDynamicType;
    var ty := FixedArrayT(elem, 0);
    NoCopies(elem, data);
    StaticArrayUnfold(elem, 0, data, 0, DecodeResults([], 0));
    NoParams(data, 0);
    assert [ty][1..] == [];
    ParamsUnfold([ty], data, 0, DecodeResult(FixedArray([]), 0), DecodeResults([], 0 + HeadsSize([])));
    assert [FixedArray([])] + [] == [FixedArray([])];
  }

  lemma {:induction false} EmptyArrayLost(elem: ParamType)
    requires IsDynamicType(elem)
    ensures Decoded([FixedArrayT(elem, 0)], []).Err?
  {
    hide PeekUsize;
    var ty := FixedArrayT(elem, 0);
    NothingToPeek();
    assert DecodedParam(ty, [], 0).Err?;
    assert [ty][0] == ty;
  }

  lemma {:induction false} NothingToPeek()
    ensures PeekUsize([], 0).Err?
  {
  }

  lemma {:induction false} EmptyArrayIsNothing()
    ensures Encode([FixedArray([])]) == []
  {
    var ts := [FixedArray([])];
    EncodeSize(ts);
    assert HeadsSize(ts) == HeadSize(ts[0]) + HeadsSize([]);
    assert Tails(ts) == Tail(ts[0]) + Tails([]);
  }

  lemma {:induction false} NoCopies(ty: ParamType, data: bytes)
    ensures DecodedCopies(ty, 0, data, 0) == Ok(DecodeResults([], 0))
  {
  }

  /** The repository's own type check accepts values that do not survive: short fixed bytes come back padded. */
  lemma {:induction false} TypeCheckIsTooWeak()
    ensures TypeCheck(FixedBytes([1]), FixedBytesT(2))
    ensures Decoded([FixedBytesT(2)], Encode([FixedBytes([1])])) != Ok([FixedBytes([1])])
  {
    DecodeAnyBytes([FixedBytesT(2)], Encode([FixedBytes([1])]));
  }

  /** Every fixed-bytes value has all its bytes and every tuple all its items. */
  predicate Full(t: Token, ty: ParamType) {
    match t
    case FixedBytes(data) => ty.FixedBytesT? ==> |data| == ty.size
    case Array(items) => ty.ArrayT? ==> forall i | i in items :: Full(i, ty.elem)
    case FixedArray(items) => ty.FixedArrayT? ==> forall i | i in items :: Full(i, ty.elem)
    case Tuple(items) =>
      ty.TupleT? ==> |items| == |ty.params| && forall i | 0 <= i < |items| :: Full(items[i], ty.params[i])
    case _ => true
  }

  /** For this token and type, `WellTyped` is `TypeCheck` with `Full`. */
  predicate Agree(t: Token, ty: ParamType) {
    WellTyped(t, ty) <==> TypeCheck(t, ty) && Full(t, ty)
  }

  lemma {:induction false} TupleAgrees(items: seq<Token>, params: seq<ParamType>)
    requires |items| == |params| ==> forall i | 0 <= i < |items| :: Agree(items[i], params[i])
    ensures Agree(Tuple(items), TupleT(params))
  {
    if |items| == |params| {
      assert forall i | 0 <= i < |items| :: Agree(items[i], params[i]);
    }
  }

  lemma {:induction false} ItemsAgree(items: seq<Token>, elem: ParamType, len: nat)
    requires forall i | i in items :: Agree(i, elem)
    ensures Agree(Array(items), ArrayT(elem)) && Agree(FixedArray(items), FixedArrayT(elem, len))
  {
    assert forall i | i in items :: Agree(i, elem);
  }

  lemma {:induction false} LeafTypeAgrees(t: Token, ty: ParamType)
    requires !ty.ArrayT? && !ty.FixedArrayT? && !ty.TupleT?
    ensures Agree(t, ty)
  {
  }

  lemma {:induction false} MismatchAgrees(t: Token, ty: ParamType)
    requires ty.ArrayT? || ty.FixedArrayT? || ty.TupleT?
    requires ty.ArrayT? ==> !t.Array?
    requires ty.FixedArrayT? ==> !t.FixedArray?
    requires ty.TupleT? ==> !t.Tuple?
    ensures Agree(t, ty)
  {
    hide Full;
    assert !WellTyped(t, ty);
  }

  /** A token is a value of the type exactly if it passes `type_check` and nothing in it is short. */
  lemma {:induction false} TypeCheckExactly(t: Token, ty: ParamType)
    ensures WellTyped(t, ty) <==> TypeCheck(t, ty) && Full(t, ty)
    decreases t
  {
    hide WellTyped, TypeCheck, Full;
    if (t.Array? && ty.ArrayT?) || (t.FixedArray? && ty.FixedArrayT?) {
      forall i | i in t.items
        ensures Agree(i, ty.elem)
      {
        TypeCheckExactly(i, ty.elem);
      }
      ItemsAgree(t.items, ty.elem, if ty.FixedArrayT? then ty.len else 0);
    } else if t.Tuple? && ty.TupleT? {
      if |t.items| == |ty.params| {
        forall i | 0 <= i < |t.items|
          ensures Agree(t.items[i], ty.params[i])
        {
          TypeCheckExactly(t.items[i], ty.params[i]);
        }
      }
      TupleAgrees(t.items, ty.params);
    } else if ty.ArrayT? || ty.FixedArrayT? || ty.TupleT? {
      MismatchAgrees(t, ty);
    } else {
      LeafTypeAgrees(t, ty);
    }
    assert Agree(t, ty);
  }
}
