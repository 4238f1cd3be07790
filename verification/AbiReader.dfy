/**
 What the ABI decoder makes of arbitrary bytes (decoder.rs), said without it: `Reads` is the
 relation between a type, the bytes and the token they hold, and `Breaks` says where the one
 slice that decode_param does not guard runs past the end.
 */
module AbiReader {
  import opened ByteCodec
  import opened AbiTypes
  import opened AbiSpec
  import opened AbiDecoder

  /** The word at `pos` is the number `n`, in 32 bits. */
  predicate NumberAt(data: bytes, pos: nat, n: nat) {
    n < 0x1_0000_0000 && At(data, pos, Number(n))
  }

  /** The word at `pos` is zero up to its last byte. */
  predicate BoolAt(data: bytes, pos: nat, last: byte) {
    At(data, pos, Zeros(31) + [last])
  }

  /** The word at `pos` points to a length word, and right behind that stands `b`, unpadded or not. */
  ghost predicate StringAt(data: bytes, pos: nat, b: bytes) {
    exists p: nat :: NumberAt(data, pos, p) && NumberAt(data, p, |b|) && At(data, p + 32, b)
  }

  /** The bytes hold token `t` of type `ty` at `pos`. A flag may end in any byte, and only 1 is true. */
  ghost predicate Reads(ty: ParamType, data: bytes, pos: nat, t: Token)
    decreases ty, 0
  {
    match ty
    case AddressT => t.Address? && At(data, pos, t.id)
    case IntT(_) => t.Int? && At(data, pos, Number(t.value))
    case UintT(_) => t.Uint? && At(data, pos, Number(t.value))
    case BoolT => t.Bool? && exists last: byte :: BoolAt(data, pos, last) && t.flag == (last == 1)
    case FixedBytesT(size) => t.FixedBytes? && |t.data| == size && At(data, pos, t.data)
    case BytesT => t.Bytes? && StringAt(data, pos, t.data)
    case StringT => t.String? && StringAt(data, pos, t.data)
    case ArrayT(elem) =>
      && t.Array?
      && exists p: nat ::
        && NumberAt(data, pos, p)
        && NumberAt(data, p, |t.items|)
        && ReadsCopies(elem, data[p + 32..], 0, t.items)
    case FixedArrayT(elem, len) =>
      && t.FixedArray?
      && |t.items| == len
      && if IsDynamicType(elem) then
           exists p: nat :: NumberAt(data, pos, p) && p <= |data| && ReadsCopies(elem, data[p..], 0, t.items)
         else
           ReadsCopies(elem, data, pos, t.items)
    case TupleT(params) =>
      && t.Tuple?
      && if IsDynamicType(ty) then
           exists p: nat :: NumberAt(data, pos, p) && p <= |data| && ReadsEach(params, data[p..], 0, t.items)
         else
           ReadsEach(params, data, pos, t.items)
  }

  /** One token after the other, each as far behind the last as its type says. */
  ghost predicate ReadsEach(tys: seq<ParamType>, data: bytes, pos: nat, ts: seq<Token>)
    decreases tys, 1
  {
    if tys == [] then ts == []
    else
      && ts != []
      && Reads(tys[0], data, pos, ts[0])
      && ReadsEach(tys[1..], data, pos + Advance(tys[0]), ts[1..])
  }

  ghost predicate ReadsCopies(ty: ParamType, data: bytes, pos: nat, ts: seq<Token>)
    decreases ty, 1, ts
  {
    ts != [] ==> Reads(ty, data, pos, ts[0]) && ReadsCopies(ty, data, pos + Advance(ty), ts[1..])
  }

  ghost predicate Readable(ty: ParamType, data: bytes, pos: nat) {
    exists t :: Reads(ty, data, pos, t)
  }

  /** Before anything unreadable, a fixed array of a dynamic type points past the end. */
  ghost predicate Breaks(ty: ParamType, data: bytes, pos: nat)
    decreases ty, 0
  {
    match ty
    case ArrayT(elem) =>
      exists p: nat, n: nat :: NumberAt(data, pos, p) && NumberAt(data, p, n) && BreaksCopies(elem, n, data[p + 32..], 0)
    case FixedArrayT(elem, len) =>
      if IsDynamicType(elem) then
        exists p: nat :: NumberAt(data, pos, p) && (p > |data| || BreaksCopies(elem, len, data[p..], 0))
      else
        BreaksCopies(elem, len, data, pos)
    case TupleT(params) =>
      if IsDynamicType(ty) then
        exists p: nat :: NumberAt(data, pos, p) && p <= |data| && BreaksEach(params, data[p..], 0)
      else
        BreaksEach(params, data, pos)
    case _ => false
  }

  ghost predicate BreaksEach(tys: seq<ParamType>, data: bytes, pos: nat)
    decreases tys, 1
  {
    && tys != []
    && (|| Breaks(tys[0], data, pos)
        || (Readable(tys[0], data, pos) && BreaksEach(tys[1..], data, pos + Advance(tys[0]))))
  }

  ghost predicate BreaksCopies(ty: ParamType, n: nat, data: bytes, pos: nat)
    decreases ty, 1, n
  {
    && n > 0
    && (|| Breaks(ty, data, pos)
        || (Readable(ty, data, pos) && BreaksCopies(ty, n - 1, data, pos + Advance(ty))))
  }

  // ----- words -----

  lemma {:induction false} PeekExactly(data: bytes, pos: nat, b: bytes)
    ensures Peek(data, pos, |b|) == Ok(b) <==> At(data, pos, b)
  {
  }

  lemma {:induction false} NumberExactly(data: bytes, pos: nat, n: nat)
    ensures PeekUsize(data, pos) == Ok(n) <==> NumberAt(data, pos, n)
  {
    hide AsUsize, ToBE, FromBE, Pow256;
    if NumberAt(data, pos, n) {
      PeekNumber(data, pos, n);
    }
    if PeekUsize(data, pos) == Ok(n) {
      var w: word := data[pos..pos + 32];
      AsUsizeExactly(w);
      ToFromBE(w);
    }
  }

  lemma {:induction false} NumbersAgree(data: bytes, pos: nat, m: nat, n: nat)
    requires NumberAt(data, pos, m) && NumberAt(data, pos, n)
    ensures m == n
  {
    hide *;
    NumberExactly(data, pos, m);
    NumberExactly(data, pos, n);
  }

  /** as_bool: which words are flags, and which flag. */
  lemma {:induction false} BoolExactly(w: word, flag: bool)
    ensures AsBool(w) == Ok(flag) <==> exists last: byte :: w == Zeros(31) + [last] && flag == (last == 1)
  {
    if AsBool(w) == Ok(flag) {
      assert w == Zeros(31) + [w[31]];
    }
    if last: byte :| w == Zeros(31) + [last] && flag == (last == 1) {
      assert forall i | 0 <= i < 31 :: w[i] == Zeros(31)[i] == 0;
      assert w[31] == last;
    }
  }

  lemma {:induction false} ValueExactly(data: bytes, pos: nat, v: u256)
    ensures (PeekWord(data, pos).Ok? && WordValue(PeekWord(data, pos).value) == v) <==> At(data, pos, Number(v))
  {
    hide ToBE, FromBE, Pow256;
    if pos + 32 <= |data| {
      var w: word := data[pos..pos + 32];
      ToFromBE(w);
      FromToBE(v, 32);
    }
  }

  lemma {:induction false} FlagExactly(data: bytes, pos: nat, flag: bool)
    ensures (PeekWord(data, pos).Ok? && AsBool(PeekWord(data, pos).value) == Ok(flag)) <==>
            exists last: byte :: BoolAt(data, pos, last) && flag == (last == 1)
  {
    hide AsBool, Zeros;
    if pos + 32 <= |data| {
      var w: word := data[pos..pos + 32];
      BoolExactly(w, flag);
      if last: byte :| w == Zeros(31) + [last] && flag == (last == 1) {
        assert BoolAt(data, pos, last);
      }
      if last: byte :| BoolAt(data, pos, last) && flag == (last == 1) {
        assert w == Zeros(31) + [last];
      }
    }
  }

  /** decoder.rs:120-126 and its twin: no padding is asked for. */
  lemma {:induction false} StringExactly(data: bytes, pos: nat, b: bytes)
    ensures DecodedBytes(data, pos) == Ok(b) <==> StringAt(data, pos, b)
  {
    hide PeekUsize, Peek, NumberAt, At;
    if DecodedBytes(data, pos) == Ok(b) {
      var p := PeekUsize(data, pos).value;
      var n := PeekUsize(data, p).value;
      NumberExactly(data, pos, p);
      NumberExactly(data, p, n);
      assert n == |b| && At(data, p + 32, b);
    }
    if p: nat :| NumberAt(data, pos, p) && NumberAt(data, p, |b|) && At(data, p + 32, b) {
      NumberExactly(data, pos, p);
      NumberExactly(data, p, |b|);
      PeekExactly(data, p + 32, b);
    }
  }

  // ----- the whole type tree -----

  /** The decoder answers token `t`, and moves on by the size of the type. */
  predicate Answers(ty: ParamType, data: bytes, pos: nat, t: Token) {
    DecodedParam(ty, data, pos) == Ok(DecodeResult(t, pos + Advance(ty)))
  }

  lemma {:induction false} LeafExactly(ty: ParamType, data: bytes, pos: nat, t: Token)
    requires !ty.ArrayT? && !ty.FixedArrayT? && !ty.TupleT?
    ensures Answers(ty, data, pos, t) <==> Reads(ty, data, pos, t)
  {
    hide PeekWord, Peek, DecodedBytes, AsBool, WordValue, Number, At, BoolAt, StringAt;
    match ty
    case AddressT =>
      if t.Address? {
        WordExactly(data, pos, t.id);
      }
    case IntT(_) =>
      if t.Int? {
        ValueExactly(data, pos, t.value);
      }
    case UintT(_) =>
      if t.Uint? {
        ValueExactly(data, pos, t.value);
      }
    case BoolT =>
      if t.Bool? {
        FlagExactly(data, pos, t.flag);
      }
    case FixedBytesT(size) =>
      if t.FixedBytes? {
        PeekExactly(data, pos, t.data);
      }
    case BytesT =>
      if t.Bytes? {
        StringExactly(data, pos, t.data);
      }
    case StringT =>
      if t.String? {
        StringExactly(data, pos, t.data);
      }
  }

  lemma {:induction false} WordExactly(data: bytes, pos: nat, w: word)
    ensures PeekWord(data, pos) == Ok(w) <==> At(data, pos, w)
  {
  }

  /** For every type, every input and every offset: the decoder answers a token exactly when the bytes hold it. */
  lemma {:induction false} ParamExactly(ty: ParamType, data: bytes, pos: nat, t: Token)
    ensures Answers(ty, data, pos, t) <==> Reads(ty, data, pos, t)
    decreases ty, 2
  {
    hide *;
    match ty
    case ArrayT(elem) => ArrayExactly(elem, data, pos, t);
    case FixedArrayT(elem, len) => FixedArrayExactly(elem, len, data, pos, t);
    case TupleT(params) => TupleExactly(params, data, pos, t);
    case _ => LeafExactly(ty, data, pos, t);
  }

  lemma {:induction false} EachExactly(tys: seq<ParamType>, data: bytes, pos: nat, ts: seq<Token>)
    ensures DecodedParams(tys, data, pos) == Ok(DecodeResults(ts, pos + AdvanceAll(tys))) <==> ReadsEach(tys, data, pos, ts)
    decreases tys, 3
  {
    hide DecodedParam, Reads, Advance;
    if tys == [] {
    } else {
      var first := DecodedParam(tys[0], data, pos);
      DecodedParamShape(tys[0], data, pos);
      if ts != [] {
        ParamExactly(tys[0], data, pos, ts[0]);
        EachExactly(tys[1..], data, pos + Advance(tys[0]), ts[1..]);
        DecodedParamsShape(tys[1..], data, pos + Advance(tys[0]));
        assert ts == [ts[0]] + ts[1..];
      }
    }
  }

  lemma {:induction false} CopiesExactly(ty: ParamType, data: bytes, pos: nat, ts: seq<Token>)
    ensures DecodedCopies(ty, |ts|, data, pos) == Ok(DecodeResults(ts, pos + |ts| * Advance(ty))) <==>
            ReadsCopies(ty, data, pos, ts)
    decreases ty, 3, ts
  {
    hide DecodedParam, Reads, Advance;
    if ts == [] {
    } else {
      var first := DecodedParam(ty, data, pos);
      DecodedParamShape(ty, data, pos);
      ParamExactly(ty, data, pos, ts[0]);
      CopiesExactly(ty, data, pos + Advance(ty), ts[1..]);
      DecodedCopiesShape(ty, |ts| - 1, data, pos + Advance(ty));
      assert ts == [ts[0]] + ts[1..];
      OneMore(|ts|, Advance(ty));
    }
  }

  lemma {:induction false} OneMore(n: nat, size: nat)
    ensures n * size == size + (n - 1) * size
  {
  }

  // ----- arrays -----

  /** If no word is there, nothing is read; if one is, it is the only one. */
  lemma {:induction false} NumberOrNone(data: bytes, pos: nat)
    ensures PeekUsize(data, pos).Ok? ==>
              && NumberAt(data, pos, PeekUsize(data, pos).value)
              && forall p | NumberAt(data, pos, p) :: p == PeekUsize(data, pos).value
    ensures !PeekUsize(data, pos).Ok? ==> forall p :: !NumberAt(data, pos, p)
  {
    hide PeekUsize, NumberAt;
    forall p: nat
      ensures PeekUsize(data, pos) == Ok(p) <==> NumberAt(data, pos, p)
    {
      NumberExactly(data, pos, p);
    }
  }

  lemma {:induction false} ArrayUnread(elem: ParamType, data: bytes, pos: nat)
    requires var p := PeekUsize(data, pos); !p.Ok? || !PeekUsize(data, p.value).Ok?
    ensures DecodedParam(ArrayT(elem), data, pos) == Err(InvalidData)
  {
    hide PeekUsize;
    UnreadNumber(data, pos);
    if PeekUsize(data, pos).Ok? {
      UnreadNumber(data, PeekUsize(data, pos).value);
    }
  }

  lemma {:induction false} ArrayAnswers(elem: ParamType, data: bytes, pos: nat, p: nat, n: nat)
    requires PeekUsize(data, pos) == Ok(p) && PeekUsize(data, p) == Ok(n)
    ensures var items := DecodedCopies(elem, n, data[p + 32..], 0);
            DecodedParam(ArrayT(elem), data, pos) ==
            if items.Ok? then Ok(DecodeResult(Array(items.value.tokens), pos + 32)) else items.PropagateFailure()
  {
    hide AsUsize, DecodedCopies, PeekWord;
  }

  lemma {:induction false} ArrayReads(elem: ParamType, data: bytes, pos: nat, p: nat, n: nat, t: Token)
    requires NumberAt(data, pos, p) && NumberAt(data, p, n)
    ensures Reads(ArrayT(elem), data, pos, t) <==>
            t.Array? && |t.items| == n && ReadsCopies(elem, data[p + 32..], 0, t.items)
  {
    hide ReadsCopies;
    if Reads(ArrayT(elem), data, pos, t) {
      var q: nat :| NumberAt(data, pos, q) && NumberAt(data, q, |t.items|) && ReadsCopies(elem, data[q + 32..], 0, t.items);
      NumbersAgree(data, pos, p, q);
      NumbersAgree(data, p, n, |t.items|);
    }
  }

  lemma {:induction false} ArrayExactly(elem: ParamType, data: bytes, pos: nat, t: Token)
    ensures Answers(ArrayT(elem), data, pos, t) <==> Reads(ArrayT(elem), data, pos, t)
    decreases elem, 4
  {
    hide DecodedParam, DecodedCopies, ReadsCopies, PeekUsize, NumberAt;
    NumberOrNone(data, pos);
    var p := PeekUsize(data, pos);
    if p.Ok? {
      NumberOrNone(data, p.value);
      var n := PeekUsize(data, p.value);
      if n.Ok? {
        ArrayAnswers(elem, data, pos, p.value, n.value);
        ArrayReads(elem, data, pos, p.value, n.value, t);
        DecodedCopiesShape(elem, n.value, data[p.value + 32..], 0);
        if t.Array? && |t.items| == n.value {
          CopiesExactly(elem, data[p.value + 32..], 0, t.items);
        }
      } else {
        ArrayUnread(elem, data, pos);
      }
    } else {
      ArrayUnread(elem, data, pos);
    }
  }

  lemma {:induction false} DynamicArrayAnswers(elem: ParamType, len: nat, data: bytes, pos: nat)
    requires IsDynamicType(elem)
    ensures var p := PeekUsize(data, pos);
            DecodedParam(FixedArrayT(elem, len), data, pos) ==
            if !p.Ok? then Err(InvalidData)
            else if p.value > |data| then Panic
            else
              var items := DecodedCopies(elem, len, data[p.value..], 0);
              if items.Ok? then Ok(DecodeResult(FixedArray(items.value.tokens), pos + 32)) else items.PropagateFailure()
  {
    hide AsUsize, DecodedCopies, PeekWord;
    UnreadNumber(data, pos);
  }

  lemma {:induction false} UnreadNumber(data: bytes, pos: nat)
    ensures PeekUsize(data, pos).Ok? || PeekUsize(data, pos) == Err(InvalidData)
  {
  }

  lemma {:induction false} FixedArrayExactly(elem: ParamType, len: nat, data: bytes, pos: nat, t: Token)
    ensures Answers(FixedArrayT(elem, len), data, pos, t) <==> Reads(FixedArrayT(elem, len), data, pos, t)
    decreases elem, 4
  {
    hide DecodedCopies, ReadsCopies, PeekUsize, NumberAt, IsDynamicType;
    assert IsDynamicType(FixedArrayT(elem, len)) == IsDynamicType(elem) by {
      DynamicOfArray(elem, len);
    }
    if IsDynamicType(elem) {
      DynamicArrayAnswers(elem, len, data, pos);
      NumberOrNone(data, pos);
      var p := PeekUsize(data, pos);
      if p.Ok? && p.value <= |data| {
        DecodedCopiesShape(elem, len, data[p.value..], 0);
        if t.FixedArray? && |t.items| == len {
          CopiesExactly(elem, data[p.value..], 0, t.items);
        }
      }
    } else {
      DecodedCopiesShape(elem, len, data, pos);
      if t.FixedArray? && |t.items| == len {
        CopiesExactly(elem, data, pos, t.items);
      }
    }
  }

  lemma {:induction false} DynamicOfArray(elem: ParamType, len: nat)
    ensures IsDynamicType(FixedArrayT(elem, len)) == IsDynamicType(elem)
  {
  }

  lemma {:induction false} TupleExactly(params: seq<ParamType>, data: bytes, pos: nat, t: Token)
    ensures Answers(TupleT(params), data, pos, t) <==> Reads(TupleT(params), data, pos, t)
    decreases params, 4
  {
    hide DecodedParams, ReadsEach, PeekUsize, NumberAt, IsDynamicType;
    if IsDynamicType(TupleT(params)) {
      NumberOrNone(data, pos);
      var p := PeekUsize(data, pos);
      if p.Ok? && p.value <= |data| {
        DecodedParamsShape(params, data[p.value..], 0);
        if t.Tuple? {
          EachExactly(params, data[p.value..], 0, t.items);
        }
      }
    } else {
      DecodedParamsShape(params, data, pos);
      if t.Tuple? {
        EachExactly(params, data, pos, t.items);
      }
    }
  }

  // ----- where it breaks -----

  /** The decoder panics exactly where the bytes break it, and every other refusal is InvalidData. */
  lemma {:induction false} ParamBreaksExactly(ty: ParamType, data: bytes, pos: nat)
    ensures DecodedParam(ty, data, pos).Panic? <==> Breaks(ty, data, pos)
    ensures DecodedParam(ty, data, pos).Err? ==> DecodedParam(ty, data, pos) == Err(InvalidData)
    decreases ty, 2
  {
    hide *;
    match ty
    case ArrayT(elem) => ArrayBreaks(elem, data, pos);
    case FixedArrayT(elem, len) => FixedArrayBreaks(elem, len, data, pos);
    case TupleT(params) => TupleBreaks(params, data, pos);
    case _ => LeafBreaks(ty, data, pos);
  }

  lemma {:induction false} LeafBreaks(ty: ParamType, data: bytes, pos: nat)
    requires !ty.ArrayT? && !ty.FixedArrayT? && !ty.TupleT?
    ensures !Breaks(ty, data, pos)
    ensures var r := DecodedParam(ty, data, pos); r.Ok? || r == Err(InvalidData)
  {
    hide AsUsize;
    UnreadNumber(data, pos);
    if PeekUsize(data, pos).Ok? {
      UnreadNumber(data, PeekUsize(data, pos).value);
    }
  }

  /** An answer is there exactly if the bytes are readable. */
  lemma {:induction false} ReadableExactly(ty: ParamType, data: bytes, pos: nat)
    ensures DecodedParam(ty, data, pos).Ok? <==> Readable(ty, data, pos)
    ensures DecodedParam(ty, data, pos).Ok? ==> DecodedParam(ty, data, pos).value.newOffset == pos + Advance(ty)
  {
    hide DecodedParam, Reads;
    DecodedParamShape(ty, data, pos);
    forall t
      ensures Answers(ty, data, pos, t) <==> Reads(ty, data, pos, t)
    {
      ParamExactly(ty, data, pos, t);
    }
    var r := DecodedParam(ty, data, pos);
    if r.Ok? {
      assert Answers(ty, data, pos, r.value.token);
    }
  }

  lemma {:induction false} EachBreaks(tys: seq<ParamType>, data: bytes, pos: nat)
    ensures DecodedParams(tys, data, pos).Panic? <==> BreaksEach(tys, data, pos)
    ensures DecodedParams(tys, data, pos).Err? ==> DecodedParams(tys, data, pos) == Err(InvalidData)
    decreases tys, 3
  {
    hide DecodedParam, Breaks, Readable, Advance;
    if tys == [] {
    } else {
      ReadableExactly(tys[0], data, pos);
      ParamBreaksExactly(tys[0], data, pos);
      EachBreaks(tys[1..], data, pos + Advance(tys[0]));
    }
  }

  lemma {:induction false} CopiesBreak(ty: ParamType, n: nat, data: bytes, pos: nat)
    ensures DecodedCopies(ty, n, data, pos).Panic? <==> BreaksCopies(ty, n, data, pos)
    ensures DecodedCopies(ty, n, data, pos).Err? ==> DecodedCopies(ty, n, data, pos) == Err(InvalidData)
    decreases ty, 3, n
  {
    hide DecodedParam, Breaks, Readable, Advance;
    if n == 0 {
    } else {
      ReadableExactly(ty, data, pos);
      ParamBreaksExactly(ty, data, pos);
      CopiesBreak(ty, n - 1, data, pos + Advance(ty));
    }
  }

  lemma {:induction false} ArrayBreaks(elem: ParamType, data: bytes, pos: nat)
    ensures DecodedParam(ArrayT(elem), data, pos).Panic? <==> Breaks(ArrayT(elem), data, pos)
    ensures DecodedParam(ArrayT(elem), data, pos).Err? ==> DecodedParam(ArrayT(elem), data, pos) == Err(InvalidData)
    decreases elem, 4
  {
    hide DecodedParam, DecodedCopies, BreaksCopies, PeekUsize, NumberAt;
    NumberOrNone(data, pos);
    var p := PeekUsize(data, pos);
    if p.Ok? {
      NumberOrNone(data, p.value);
      var n := PeekUsize(data, p.value);
      if n.Ok? {
        ArrayAnswers(elem, data, pos, p.value, n.value);
        CopiesBreak(elem, n.value, data[p.value + 32..], 0);
      } else {
        ArrayUnread(elem, data, pos);
      }
    } else {
      ArrayUnread(elem, data, pos);
    }
  }

  lemma {:induction false} FixedArrayBreaks(elem: ParamType, len: nat, data: bytes, pos: nat)
    ensures var r := DecodedParam(FixedArrayT(elem, len), data, pos);
            && (r.Panic? <==> Breaks(FixedArrayT(elem, len), data, pos))
            && (r.Err? ==> r == Err(InvalidData))
    decreases elem, 4
  {
    hide DecodedCopies, BreaksCopies, PeekUsize, NumberAt, IsDynamicType;
    assert IsDynamicType(FixedArrayT(elem, len)) == IsDynamicType(elem) by {
      DynamicOfArray(elem, len);
    }
    if IsDynamicType(elem) {
      DynamicArrayAnswers(elem, len, data, pos);
      NumberOrNone(data, pos);
      var p := PeekUsize(data, pos);
      if p.Ok? && p.value <= |data| {
        CopiesBreak(elem, len, data[p.value..], 0);
      }
    } else {
      CopiesBreak(elem, len, data, pos);
    }
  }

  lemma {:induction false} TupleBreaks(params: seq<ParamType>, data: bytes, pos: nat)
    ensures var r := DecodedParam(TupleT(params), data, pos);
            && (r.Panic? <==> Breaks(TupleT(params), data, pos))
            && (r.Err? ==> r == Err(InvalidData))
    decreases params, 4
  {
    hide DecodedParams, BreaksEach, PeekUsize, NumberAt, IsDynamicType;
    if IsDynamicType(TupleT(params)) {
      NumberOrNone(data, pos);
      UnreadNumber(data, pos);
      var p := PeekUsize(data, pos);
      if p.Ok? && p.value <= |data| {
        EachBreaks(params, data[p.value..], 0);
      }
    } else {
      EachBreaks(params, data, pos);
    }
  }

  // ----- whole inputs -----

  /** No bytes at all, and a type other than `bytes0` or a fixed array of no elements. */
  predicate Gated(tys: seq<ParamType>, data: bytes) {
    data == [] && exists t | t in tys :: t != FixedBytesT(0) && !(t.FixedArrayT? && t.len == 0)
  }

  /** For every type list and every input: which of the four answers the decoder gives, and which tokens. */
  lemma {:induction false} DecodedExactly(tys: seq<ParamType>, data: bytes, ts: seq<Token>)
    ensures Decoded(tys, data) == Ok(ts) <==> !Gated(tys, data) && ReadsEach(tys, data, 0, ts)
    ensures Decoded(tys, data) == Panic <==> !Gated(tys, data) && BreaksEach(tys, data, 0)
    ensures Decoded(tys, data) == Err(InvalidName) <==> Gated(tys, data)
  {
    hide DecodedParams, ReadsEach, BreaksEach;
    DecodedParamsShape(tys, data, 0);
    EachExactly(tys, data, 0, ts);
    EachBreaks(tys, data, 0);
  }
}
