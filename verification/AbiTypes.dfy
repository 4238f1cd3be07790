/**
 ABI types and tokens (param_type/param_type.rs, token/token.rs).
 */
module AbiTypes {
  import opened ByteCodec

  type word = w: bytes | |w| == 32 witness Zeros(32)

  type u256 = n: nat | n < Pow256(32)

  datatype ParamType =
    | AddressT
    | BytesT
    | IntT(bits: nat)
    | UintT(bits: nat)
    | BoolT
    | StringT
    | ArrayT(elem: ParamType)
    | FixedBytesT(size: nat)
    | FixedArrayT(elem: ParamType, len: nat)
    | TupleT(params: seq<ParamType>)

  /** An address is a full 32-byte object id; a string is its UTF-8 bytes. */
  datatype Token =
    | Address(id: word)
    | FixedBytes(data: bytes)
    | Bytes(data: bytes)
    | Int(value: u256)
    | Uint(value: u256)
    | Bool(flag: bool)
    | String(data: bytes)
    | FixedArray(items: seq<Token>)
    | Array(items: seq<Token>)
    | Tuple(items: seq<Token>)

  /** ParamType::is_dynamic. */
  predicate IsDynamicType(t: ParamType) {
    match t
    case BytesT | StringT | ArrayT(_) => true
    case FixedArrayT(elem, _) => IsDynamicType(elem)
    case TupleT(params) => exists p | p in params :: IsDynamicType(p)
    case _ => false
  }

  /** Token::is_dynamic. */
  predicate IsDynamic(t: Token) {
    match t
    case Bytes(_) | String(_) | Array(_) => true
    case FixedArray(items) => exists i | i in items :: IsDynamic(i)
    case Tuple(items) => exists i | i in items :: IsDynamic(i)
    case _ => false
  }

  /** ParamType::is_empty_bytes_valid_encoding. */
  predicate EmptyBytesValid(t: ParamType) {
    match t
    case FixedBytesT(size) => size == 0
    case FixedArrayT(_, len) => len == 0
    case _ => false
  }

  /** The token is a value of the type. */
  predicate WellTyped(t: Token, ty: ParamType)
    decreases t, 0
  {
    match ty
    case AddressT => t.Address?
    case BytesT => t.Bytes?
    case IntT(_) => t.Int?
    case UintT(_) => t.Uint?
    case BoolT => t.Bool?
    case StringT => t.String?
    case FixedBytesT(size) => t.FixedBytes? && |t.data| == size
    case ArrayT(elem) => t.Array? && forall i | i in t.items :: WellTyped(i, elem)
    case FixedArrayT(elem, len) =>
      t.FixedArray? && |t.items| == len && forall i | i in t.items :: WellTyped(i, elem)
    case TupleT(params) => t.Tuple? && WellTypedAll(t.items, params)
  }

  predicate WellTypedAll(ts: seq<Token>, tys: seq<ParamType>)
    decreases ts, 1
  {
    && |ts| == |tys|
    && forall i | 0 <= i < |ts| :: WellTyped(ts[i], tys[i])
  }

  /** Token::type_check: looser than `WellTyped` on fixed bytes and on tuples, where it lets a short value pass. */
  predicate TypeCheck(t: Token, ty: ParamType) {
    match t
    case Address(_) => ty.AddressT?
    case Bytes(_) => ty.BytesT?
    case Int(_) => ty.IntT?
    case Uint(_) => ty.UintT?
    case Bool(_) => ty.BoolT?
    case String(_) => ty.StringT?
    case FixedBytes(data) => ty.FixedBytesT? && ty.size >= |data|
    case Array(items) => ty.ArrayT? && forall i | i in items :: TypeCheck(i, ty.elem)
    case FixedArray(items) =>
      ty.FixedArrayT? && ty.len == |items| && forall i | i in items :: TypeCheck(i, ty.elem)
    case Tuple(items) =>
      ty.TupleT? && |items| <= |ty.params| && forall i | 0 <= i < |items| :: TypeCheck(items[i], ty.params[i])
  }

  /** The types of the Solidity ABI: bytes1 to bytes32, and no empty fixed array of a dynamic type. */
  predicate Canonical(t: ParamType) {
    match t
    case FixedBytesT(size) => 1 <= size <= 32
    case ArrayT(elem) => Canonical(elem)
    case FixedArrayT(elem, len) => Canonical(elem) && (len == 0 ==> !IsDynamicType(elem))
    case TupleT(params) => forall p | p in params :: Canonical(p)
    case _ => true
  }

  /** Element counts are written as 32-bit numbers. */
  predicate CountsFit(t: Token) {
    match t
    case Array(items) => |items| < 0x1_0000_0000 && forall i | i in items :: CountsFit(i)
    case FixedArray(items) => forall i | i in items :: CountsFit(i)
    case Tuple(items) => forall i | i in items :: CountsFit(i)
    case _ => true
  }

  /** On canonical types a token is dynamic exactly when its type is. */
  lemma {:induction false} DynamicAgrees(t: Token, ty: ParamType)
    requires WellTyped(t, ty) && Canonical(ty)
    ensures IsDynamic(t) <==> IsDynamicType(ty)
    decreases t
  {
    match ty
    case FixedArrayT(elem, len) =>
      forall i | i in t.items
        ensures IsDynamic(i) <==> IsDynamicType(elem)
      {
        DynamicAgrees(i, elem);
      }
      if len > 0 {
        assert t.items[0] in t.items;
      }
    case TupleT(params) =>
      forall i | 0 <= i < |params|
        ensures IsDynamic(t.items[i]) <==> IsDynamicType(params[i])
      {
        assert params[i] in params;
        DynamicAgrees(t.items[i], params[i]);
      }
      TupleDynamicAgrees(t.items, params);
    case _ =>
  }

  lemma {:induction false} TupleDynamicAgrees(items: seq<Token>, params: seq<ParamType>)
    requires |items| == |params|
    requires forall i | 0 <= i < |params| :: IsDynamic(items[i]) <==> IsDynamicType(params[i])
    ensures IsDynamic(Tuple(items)) <==> IsDynamicType(TupleT(params))
  {
    if p :| p in params && IsDynamicType(p) {
      var i :| 0 <= i < |params| && params[i] == p;
      assert items[i] in items;
    }
    if x :| x in items && IsDynamic(x) {
      var i :| 0 <= i < |items| && items[i] == x;
      assert params[i] in params;
    }
  }
}
