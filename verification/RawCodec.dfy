/**
 The codec that en.rs and de.rs generate for a type. A `Shape` is the part of the type's syntax
 that the generator looks at; `Encode`, `Measure` and `Decode` run the generated code.
 */
module RawCodec {
  import opened ByteCodec
  import opened Options
  import opened VarSize

  datatype Style = Unit | Newtype | Tuple | Named

  /** `Blob` is a field written Vec<u8>; anywhere else a Vec<u8> is a `List` of one-byte numbers. */
  datatype Shape =
    | Number(width: nat)
    | Blob
    | Optional(inner: Shape)
    | List(elem: Shape)
    | Struct(style: Style, fields: seq<Field>, optimize: bool)
    | Enum(variants: seq<Variant>, optimize: bool)

  /** A field with its skip attribute and the value that Default::default() gives. */
  datatype Field = Field(shape: Shape, skip: bool, default: Value)

  datatype Variant = Variant(style: Style, fields: seq<Field>)

  datatype Value =
    | Num(n: nat)
    | Raw(data: bytes)
    | Nothing
    | Just(value: Value)
    | Items(items: seq<Value>)
    | Record(fields: seq<Value>)
    | Case(index: nat, fields: seq<Value>)

  predicate Conforms(s: Shape, v: Value)
    decreases s, 0
  {
    match s
    case Number(width) => v.Num? && v.n < Pow256(width)
    case Blob => v.Raw? && |v.data| < LIMIT
    case Optional(inner) => v.Nothing? || (v.Just? && Conforms(inner, v.value))
    case List(elem) => v.Items? && |v.items| <= 0xffff_ffff && forall i | i in v.items :: Conforms(elem, i)
    case Struct(_, fields, _) => v.Record? && ConformAll(fields, v.fields)
    case Enum(variants, _) => v.Case? && v.index < |variants| && ConformsVariant(variants[v.index], v.fields)
  }

  predicate ConformsVariant(x: Variant, vs: seq<Value>)
    decreases x, 3
  {
    ConformAll(x.fields, vs)
  }

  predicate ConformAll(fields: seq<Field>, vs: seq<Value>)
    decreases fields, 2
  {
    |fields| == |vs| && (fields != [] ==> ConformsField(fields[0], vs[0]) && ConformAll(fields[1..], vs[1..]))
  }

  predicate ConformsField(f: Field, v: Value)
    decreases f, 1
  {
    Conforms(f.shape, v)
  }

  /** skip_serializing and skip_deserializing are looked at for named fields only. */
  predicate Skipped(style: Style, f: Field) {
    style.Named? && f.skip
  }

  /** A field that is reduced to a bit of the flag when it is absent. */
  predicate Flagged(f: Field, optimize: bool) {
    optimize && f.shape.Optional?
  }

  // ----- option flags -----

  /** One bit per option field, skipped or not. */
  function OptionBits(fields: seq<Field>, vs: seq<Value>, optimize: bool): (bits: seq<bool>)
    ensures |fields| == |vs| ==> |bits| == OptionCount(fields, optimize)
  {
    if fields == [] || vs == [] then []
    else (if Flagged(fields[0], optimize) then [vs[0].Just?] else []) + OptionBits(fields[1..], vs[1..], optimize)
  }

  function OptionCount(fields: seq<Field>, optimize: bool): nat {
    if fields == [] then 0 else (if Flagged(fields[0], optimize) then 1 else 0) + OptionCount(fields[1..], optimize)
  }

  function FlagWidth(count: nat): nat {
    if count == 0 then 0
    else if count <= 8 then 1
    else if count <= 16 then 2
    else if count <= 32 then 4
    else if count <= 64 then 8
    else if count <= 128 then 16
    else if count <= 256 then 32
    else 0
  }

  /** Nothing for no options, and else the narrowest of the six integer types that has a bit for every one. */
  lemma {:induction false} FlagWidthLeast(count: nat)
    requires count <= 256
    ensures FlagWidth(count) == 0 <==> count == 0
    ensures count > 0 ==> FlagWidth(count) in {1, 2, 4, 8, 16, 32} && 8 * FlagWidth(count) >= count
    ensures forall w | w in {1, 2, 4, 8, 16, 32} && 8 * w >= count :: FlagWidth(count) <= w
  {
  }

  function Pow2(k: nat): (p: nat)
    ensures p >= 1
  {
    if k == 0 then 1 else 2 * Pow2(k - 1)
  }

  function FlagOf(bits: seq<bool>): nat {
    if bits == [] then 0 else (if bits[0] then 1 else 0) + 2 * FlagOf(bits[1..])
  }

  /** flag & (1 << i) != 0. */
  predicate BitAt(flag: nat, i: nat) {
    if i == 0 then flag % 2 == 1 else BitAt(flag / 2, i - 1)
  }

  /** The generated statements that set the flag: bit `i` is still clear, so the or adds 1 << i. */
  method SetFlag(bits: seq<bool>) returns (flag: nat)
    ensures flag == FlagOf(bits)
  {
    flag := 0;
    for i := 0 to |bits|
      invariant flag == FlagOf(bits[..i])
    {
      FlagPush(bits[..i], bits[i]);
      assert bits[..i + 1] == bits[..i] + [bits[i]];
      if bits[i] {
        flag := flag + Pow2(i);
      }
    }
    assert bits[..|bits|] == bits;
  }

  lemma {:induction false} FlagPush(bits: seq<bool>, b: bool)
    ensures FlagOf(bits + [b]) == FlagOf(bits) + (if b then Pow2(|bits|) else 0)
  {
    if bits == [] {
      assert bits + [b] == [b];
      assert FlagOf([b]) == (if b then 1 else 0) + 2 * FlagOf([]);
    } else {
      assert (bits + [b])[1..] == bits[1..] + [b];
      FlagPush(bits[1..], b);
    }
  }

  lemma {:induction false} FlagBit(bits: seq<bool>, i: nat)
    requires i < |bits|
    ensures BitAt(FlagOf(bits), i) == bits[i]
  {
    if i == 0 {
    } else {
      FlagBit(bits[1..], i - 1);
    }
  }

  lemma {:induction false} FlagBound(bits: seq<bool>)
    ensures FlagOf(bits) < Pow2(|bits|)
  {
    if bits == [] {
    } else {
      FlagBound(bits[1..]);
    }
  }

  lemma {:induction false} Pow2Grows(a: nat, b: nat)
    requires a <= b
    ensures Pow2(a) <= Pow2(b)
    decreases b - a
  {
    if a == b {
    } else {
      Pow2Grows(a + 1, b);
    }
  }

  lemma {:induction false} BytesOfBits(w: nat)
    ensures Pow2(8 * w) == Pow256(w)
  {
    if w == 0 {
    } else {
      BytesOfBits(w - 1);
      var k := 8 * (w - 1);
      assert Pow2(k + 4) == 2 * Pow2(k + 3) == 4 * Pow2(k + 2) == 8 * Pow2(k + 1) == 16 * Pow2(k);
      assert Pow2(k + 8) == 2 * Pow2(k + 7) == 4 * Pow2(k + 6) == 8 * Pow2(k + 5) == 16 * Pow2(k + 4);
    }
  }

  lemma {:induction false} FlagFits(bits: seq<bool>)
    requires |bits| <= 128
    ensures FlagOf(bits) < Pow256(FlagWidth(|bits|))
  {
    FlagBound(bits);
    Pow2Grows(|bits|, 8 * FlagWidth(|bits|));
    BytesOfBits(FlagWidth(|bits|));
  }

  // ----- en.rs -----

  function SizeBytes(n: nat): bytes {
    if n < LIMIT then EncodeSize(n).value else []
  }

  function SizeCount(n: nat): nat {
    if n < LIMIT then MeasureSize(n).value else 0
  }

  function FlagBytes(fields: seq<Field>, vs: seq<Value>, optimize: bool): bytes {
    var bits := OptionBits(fields, vs, optimize);
    ToBE(FlagOf(bits), FlagWidth(|bits|))
  }

  /** A named variant with no field to write. */
  predicate AllSkipped(x: Variant) {
    x.style.Named? && forall f | f in x.fields :: f.skip
  }

  /** For such a variant the generator writes and measures the index alone. */
  function VariantFlag(x: Variant, vs: seq<Value>, optimize: bool): bytes {
    if AllSkipped(x) then [] else FlagBytes(x.fields, vs, optimize)
  }

  function VariantFlagWidth(x: Variant, optimize: bool): nat {
    if AllSkipped(x) then 0 else FlagWidth(OptionCount(x.fields, optimize))
  }

  function Encode(s: Shape, v: Value): bytes
    decreases s, 0
  {
    match (s, v)
    case (Number(width), Num(n)) => ToBE(n, width)
    case (Blob, Raw(data)) => SizeBytes(|data|) + data
    case (Optional(inner), Just(x)) => [1] + Encode(inner, x)
    case (Optional(_), Nothing) => [0]
    case (List(elem), Items(items)) => SizeBytes(|items|) + EncodeItems(elem, items)
    case (Struct(style, fields, optimize), Record(vs)) =>
      // the generator writes the field of a newtype struct through its own codec
      FlagBytes(fields, vs, optimize) +
      if style.Newtype? then EncodeOwn(fields, vs) else EncodeFields(style, fields, vs, optimize)
    case (Enum(variants, optimize), Case(index, vs)) =>
      if index >= |variants| then []
      else SizeBytes(index) + VariantFlag(variants[index], vs, optimize) + EncodeVariant(variants[index], vs, optimize)
    case _ => []
  }

  function EncodeItems(elem: Shape, vs: seq<Value>): bytes
    decreases elem, 1, |vs|
  {
    if vs == [] then [] else Encode(elem, vs[0]) + EncodeItems(elem, vs[1..])
  }

  function EncodeOwn(fields: seq<Field>, vs: seq<Value>): bytes
    decreases fields, 2
  {
    if fields == [] || vs == [] then [] else EncodeField(Newtype, fields[0], vs[0], false)
  }

  function EncodeVariant(x: Variant, vs: seq<Value>, optimize: bool): bytes
    decreases x, 3
  {
    EncodeFields(x.style, x.fields, vs, optimize)
  }

  function EncodeFields(style: Style, fields: seq<Field>, vs: seq<Value>, optimize: bool): bytes
    decreases fields, 2
  {
    if fields == [] || vs == [] then []
    else EncodeField(style, fields[0], vs[0], optimize) + EncodeFields(style, fields[1..], vs[1..], optimize)
  }

  function EncodeField(style: Style, f: Field, v: Value, optimize: bool): bytes
    decreases f, 1
  {
    if Skipped(style, f) then []
    else if Flagged(f, optimize) then (if v.Just? then Encode(f.shape.inner, v.value) else [])
    else Encode(f.shape, v)
  }

  /** raw_measure: a sum that never looks at the bytes. */
  function Measure(s: Shape, v: Value): nat
    decreases s, 0
  {
    match (s, v)
    case (Number(width), Num(_)) => width
    case (Blob, Raw(data)) => SizeCount(|data|) + |data|
    case (Optional(inner), Just(x)) => Measure(inner, x) + 1
    case (Optional(_), Nothing) => 1
    case (List(elem), Items(items)) => SizeCount(|items|) + MeasureItems(elem, items)
    case (Struct(style, fields, optimize), Record(vs)) =>
      FlagWidth(OptionCount(fields, optimize)) +
      if style.Newtype? then MeasureOwn(fields, vs) else MeasureFields(style, fields, vs, optimize)
    case (Enum(variants, optimize), Case(index, vs)) =>
      if index >= |variants| then 0
      else SizeCount(index) + VariantFlagWidth(variants[index], optimize) + MeasureVariant(variants[index], vs, optimize)
    case _ => 0
  }

  function MeasureItems(elem: Shape, vs: seq<Value>): nat
    decreases elem, 1, |vs|
  {
    if vs == [] then 0 else Measure(elem, vs[0]) + MeasureItems(elem, vs[1..])
  }

  function MeasureOwn(fields: seq<Field>, vs: seq<Value>): nat
    decreases fields, 2
  {
    if fields == [] || vs == [] then 0 else MeasureField(Newtype, fields[0], vs[0], false)
  }

  function MeasureVariant(x: Variant, vs: seq<Value>, optimize: bool): nat
    decreases x, 3
  {
    MeasureFields(x.style, x.fields, vs, optimize)
  }

  function MeasureFields(style: Style, fields: seq<Field>, vs: seq<Value>, optimize: bool): nat
    decreases fields, 2
  {
    if fields == [] || vs == [] then 0
    else MeasureField(style, fields[0], vs[0], optimize) + MeasureFields(style, fields[1..], vs[1..], optimize)
  }

  function MeasureField(style: Style, f: Field, v: Value, optimize: bool): nat
    decreases f, 1
  {
    if Skipped(style, f) then 0
    else if Flagged(f, optimize) then (if v.Just? then Measure(f.shape.inner, v.value) else 0)
    else Measure(f.shape, v)
  }

  // ----- de.rs -----

  function Decode(s: Shape, buf: bytes): Option<(Value, bytes)>
    decreases s, 0
  {
    match s
    case Number(width) =>
      var (n, rest) :- DecodeNumber(width, buf);
      Some((Num(n), rest))
    case Blob =>
      var (len, rest) :- DecodeSize(buf);
      if len > |rest| then None else Some((Raw(rest[..len]), rest[len..]))
    case Optional(inner) =>
      var (tag, rest) :- DecodeNumber(1, buf);
      if tag == 1 then
        var (v, rest) :- Decode(inner, rest);
        Some((Just(v), rest))
      else Some((Nothing, rest))
    case List(elem) =>
      var (len, rest) :- DecodeSize(buf);
      if len > 0xffff_ffff then None
      else
        var (vs, rest) :- DecodeItems(elem, len, rest);
        Some((Items(vs), rest))
    case Struct(style, fields, optimize) =>
      var (vs, rest) :- DecodeBody(style, fields, optimize, buf);
      Some((Record(vs), rest))
    case Enum(variants, optimize) =>
      var (index, rest) :- DecodeSize(buf);
      if index >= |variants| then None
      else
        var (vs, rest) :- DecodeVariant(variants[index], optimize, rest);
        Some((Case(index, vs), rest))
  }

  /** Whatever the bytes: an option is a tag byte of which 1 alone says that a value follows. */
  lemma {:induction false} OptionReadExactly(inner: Shape, buf: bytes)
    ensures Decode(Optional(inner), buf).Some? <==> buf != [] && (buf[0] == 1 ==> Decode(inner, buf[1..]).Some?)
    ensures buf != [] && buf[0] != 1 ==> Decode(Optional(inner), buf) == Some((Nothing, buf[1..]))
    ensures buf != [] && buf[0] == 1 && Decode(inner, buf[1..]).Some? ==>
              var (v, rest) := Decode(inner, buf[1..]).value; Decode(Optional(inner), buf) == Some((Just(v), rest))
  {
    if buf != [] {
      assert buf[..1] == [buf[0]] && FromBE([buf[0]]) == buf[0];
    }
  }

  /** Whatever the bytes: a byte vector is its size and as many bytes as that says, if they are there. */
  lemma {:induction false} BlobReadExactly(buf: bytes, data: bytes, rest: bytes)
    ensures Decode(Blob, buf) == Some((Raw(data), rest)) <==>
            && buf != []
            && |buf| >= Announced(buf[0])
            && |data| == FromBE(buf[..Announced(buf[0])]) % Room(Announced(buf[0]))
            && buf[Announced(buf[0])..] == data + rest
  {
    hide DecodeSize, FromBE;
    SizeReadExactly(buf);
    if buf != [] && |buf| >= Announced(buf[0]) {
      var tail := buf[Announced(buf[0])..];
      assert |data| <= |tail| ==> tail == tail[..|data|] + tail[|data|..];
      if tail == data + rest {
        assert tail[..|data|] == data && tail[|data|..] == rest;
      }
    }
  }

  /** Whatever the bytes: a list is a size of at most 32 bits and as many items. */
  lemma {:induction false} ListReadExactly(elem: Shape, buf: bytes, vs: seq<Value>, rest: bytes)
    ensures Decode(List(elem), buf) == Some((Items(vs), rest)) <==>
            && buf != []
            && |buf| >= Announced(buf[0])
            && |vs| == FromBE(buf[..Announced(buf[0])]) % Room(Announced(buf[0])) < 0x1_0000_0000
            && DecodeItems(elem, |vs|, buf[Announced(buf[0])..]) == Some((vs, rest))
  {
    hide DecodeSize, FromBE, Announced, Room;
    SizeReadExactly(buf);
    if DecodeSize(buf).Some? {
      var (n, tail) := DecodeSize(buf).value;
      ItemsCount(elem, n, tail);
    }
  }

  lemma {:induction false} ItemsCount(elem: Shape, n: nat, buf: bytes)
    ensures DecodeItems(elem, n, buf).Some? ==> |DecodeItems(elem, n, buf).value.0| == n
    decreases n
  {
    hide Decode;
    if n == 0 {
    } else {
      var first := Decode(elem, buf);
      if first.Some? {
        ItemsCount(elem, n - 1, first.value.1);
      }
    }
  }

  /** Whatever the bytes: an enum is the index of one of its variants and the fields of that. */
  lemma {:induction false} EnumReadExactly(variants: seq<Variant>, optimize: bool, buf: bytes, index: nat, vs: seq<Value>, rest: bytes)
    ensures Decode(Enum(variants, optimize), buf) == Some((Case(index, vs), rest)) <==>
            && buf != []
            && |buf| >= Announced(buf[0])
            && index == FromBE(buf[..Announced(buf[0])]) % Room(Announced(buf[0])) < |variants|
            && DecodeVariant(variants[index], optimize, buf[Announced(buf[0])..]) == Some((vs, rest))
  {
    hide DecodeSize, FromBE, Announced, Room, DecodeVariant;
    SizeReadExactly(buf);
    if DecodeSize(buf).Some? && DecodeSize(buf).value.0 < |variants| {
      var (n, tail) := DecodeSize(buf).value;
      var fields := DecodeVariant(variants[n], optimize, tail);
      assert Decode(Enum(variants, optimize), buf) ==
             if fields.Some? then Some((Case(n, fields.value.0), fields.value.1)) else None;
    }
  }

  function DecodeItems(elem: Shape, n: nat, buf: bytes): Option<(seq<Value>, bytes)>
    decreases elem, 1, n
  {
    if n == 0 then Some(([], buf))
    else
      var (v, rest) :- Decode(elem, buf);
      var (vs, rest) :- DecodeItems(elem, n - 1, rest);
      Some(([v] + vs, rest))
  }

  function DecodeVariant(x: Variant, optimize: bool, buf: bytes): Option<(seq<Value>, bytes)>
    decreases x, 4
  {
    DecodeBody(x.style, x.fields, optimize, buf)
  }

  /** The flag is as wide as the number of option fields, skipped or not. */
  function DecodeBody(style: Style, fields: seq<Field>, optimize: bool, buf: bytes): Option<(seq<Value>, bytes)>
    decreases fields, 3
  {
    var (flag, rest) :- DecodeNumber(FlagWidth(OptionCount(fields, optimize)), buf);
    DecodeFields(style, fields, optimize, flag, 0, rest)
  }

  /** The bit index moves only past option fields that are not skipped. */
  function DecodeFields(style: Style, fields: seq<Field>, optimize: bool, flag: nat, index: nat, buf: bytes)
    : Option<(seq<Value>, bytes)>
    decreases fields, 2
  {
    if fields == [] then Some(([], buf))
    else
      var (v, rest) :- DecodeField(style, fields[0], optimize, flag, index, buf);
      var next := if !Skipped(style, fields[0]) && Flagged(fields[0], optimize) then index + 1 else index;
      var (vs, rest) :- DecodeFields(style, fields[1..], optimize, flag, next, rest);
      Some(([v] + vs, rest))
  }

  function DecodeField(style: Style, f: Field, optimize: bool, flag: nat, index: nat, buf: bytes): Option<(Value, bytes)>
    decreases f, 1
  {
    if Skipped(style, f) then Some((f.default, buf))
    else if Flagged(f, optimize) then
      if BitAt(flag, index) then
        var (v, rest) :- Decode(f.shape.inner, buf);
        Some((Just(v), rest))
      else Some((Nothing, buf))
    else Decode(f.shape, buf)
  }

  // ----- shapes on which the law holds -----

  /** No option field that is skipped stands before one that is not. */
  predicate SkipsLast(style: Style, fields: seq<Field>, optimize: bool) {
    forall i, j | 0 <= i < j < |fields| && Flagged(fields[i], optimize) && Flagged(fields[j], optimize) ::
      Skipped(style, fields[i]) ==> Skipped(style, fields[j])
  }

  predicate LawfulFields(style: Style, fields: seq<Field>, optimize: bool)
    decreases fields, 2
  {
    && OptionCount(fields, optimize) <= 128
    && SkipsLast(style, fields, optimize)
    && forall f | f in fields :: LawfulField(f)
  }

  predicate LawfulField(f: Field)
    decreases f, 1
  {
    Lawful(f.shape)
  }

  predicate Lawful(s: Shape)
    decreases s, 0
  {
    match s
    case Optional(inner) => Lawful(inner)
    case List(elem) => Lawful(elem)
    case Struct(style, fields, optimize) =>
      && LawfulFields(style, fields, optimize)
      && (style.Newtype? ==> |fields| == 1 && !Flagged(fields[0], optimize))
    case Enum(variants, optimize) =>
      |variants| < LIMIT && forall x | x in variants :: LawfulVariant(x, optimize)
    case _ => true
  }

  /** The decoder reads a flag for a variant whose options are all skipped, though none is written. */
  predicate LawfulVariant(x: Variant, optimize: bool)
    decreases x, 3
  {
    LawfulFields(x.style, x.fields, optimize) && (AllSkipped(x) ==> OptionCount(x.fields, optimize) == 0)
  }

  /** The value with every skipped field set to its default. */
  function Reset(s: Shape, v: Value): Value
    decreases s, 0
  {
    match (s, v)
    case (Optional(inner), Just(x)) => Just(Reset(inner, x))
    case (List(elem), Items(items)) => Items(ResetItems(elem, items))
    case (Struct(style, fields, _), Record(vs)) => Record(ResetFields(style, fields, vs))
    case (Enum(variants, _), Case(index, vs)) =>
      if index >= |variants| then v else Case(index, ResetVariant(variants[index], vs))
    case _ => v
  }

  function ResetItems(elem: Shape, vs: seq<Value>): seq<Value>
    decreases elem, 1, |vs|
  {
    if vs == [] then [] else [Reset(elem, vs[0])] + ResetItems(elem, vs[1..])
  }

  function ResetVariant(x: Variant, vs: seq<Value>): seq<Value>
    decreases x, 3
  {
    ResetFields(x.style, x.fields, vs)
  }

  function ResetFields(style: Style, fields: seq<Field>, vs: seq<Value>): seq<Value>
    decreases fields, 2
  {
    if fields == [] || vs == [] then []
    else [ResetField(style, fields[0], vs[0])] + ResetFields(style, fields[1..], vs[1..])
  }

  function ResetField(style: Style, f: Field, v: Value): Value
    decreases f, 1
  {
    if Skipped(style, f) then f.default else Reset(f.shape, v)
  }

  // ----- the law -----

  /** The bits of the option fields that are not skipped. */
  function LiveBits(style: Style, fields: seq<Field>, vs: seq<Value>, optimize: bool): seq<bool> {
    if fields == [] || vs == [] then []
    else (if !Skipped(style, fields[0]) && Flagged(fields[0], optimize) then [vs[0].Just?] else []) +
         LiveBits(style, fields[1..], vs[1..], optimize)
  }

  lemma {:induction false} LiveBitsFirst(style: Style, fields: seq<Field>, vs: seq<Value>, optimize: bool)
    requires |fields| == |vs| && SkipsLast(style, fields, optimize)
    ensures LiveBits(style, fields, vs, optimize) <= OptionBits(fields, vs, optimize)
    ensures (exists f | f in fields :: Skipped(style, f) && Flagged(f, optimize)) ||
            LiveBits(style, fields, vs, optimize) == OptionBits(fields, vs, optimize)
  {
    if fields == [] {
    } else {
      var rest := fields[1..];
      LiveBitsFirst(style, rest, vs[1..], optimize);
      if Skipped(style, fields[0]) && Flagged(fields[0], optimize) {
        NoLiveBits(style, rest, vs[1..], optimize);
        assert fields[0] in fields;
      } else if f :| f in rest && Skipped(style, f) && Flagged(f, optimize) {
        assert f in fields;
      }
    }
  }

  lemma {:induction false} NoLiveBits(style: Style, fields: seq<Field>, vs: seq<Value>, optimize: bool)
    requires |fields| == |vs|
    requires forall j | 0 <= j < |fields| && Flagged(fields[j], optimize) :: Skipped(style, fields[j])
    ensures LiveBits(style, fields, vs, optimize) == []
  {
    if fields == [] {
    } else {
      NoLiveBits(style, fields[1..], vs[1..], optimize);
    }
  }

  lemma {:induction false} SizeCounted(n: nat)
    ensures SizeCount(n) == |SizeBytes(n)|
  {
    if n < LIMIT {
      SizeWidth(n);
    }
  }

  /** For every shape, the measured size is the number of bytes written. */
  lemma {:induction false} MeasureExact(s: Shape, v: Value)
    requires Conforms(s, v)
    ensures Measure(s, v) == |Encode(s, v)|
    decreases s, 0
  {
    hide SizeCount, SizeBytes, ToBE, FlagOf;
    match s
    case Number(width) =>
    case Blob => SizeCounted(|v.data|);
    case Optional(inner) =>
      if v.Just? {
        MeasureExact(inner, v.value);
      }
    case List(elem) =>
      SizeCounted(|v.items|);
      MeasureItemsExact(elem, v.items);
    case Struct(style, fields, optimize) =>
      if style.Newtype? {
        MeasureOwnExact(fields, v.fields);
      } else {
        MeasureFieldsExact(style, fields, v.fields, optimize);
      }
    case Enum(variants, optimize) =>
      SizeCounted(v.index);
      MeasureVariantExact(variants[v.index], v.fields, optimize);
  }

  lemma {:induction false} MeasureItemsExact(elem: Shape, vs: seq<Value>)
    requires forall i | i in vs :: Conforms(elem, i)
    ensures MeasureItems(elem, vs) == |EncodeItems(elem, vs)|
    decreases elem, 1, |vs|
  {
    if vs == [] {
    } else {
      MeasureExact(elem, vs[0]);
      MeasureItemsExact(elem, vs[1..]);
    }
  }

  lemma {:induction false} MeasureOwnExact(fields: seq<Field>, vs: seq<Value>)
    requires ConformAll(fields, vs)
    ensures MeasureOwn(fields, vs) == |EncodeOwn(fields, vs)|
    decreases fields, 2
  {
    if fields != [] {
      MeasureFieldExact(Newtype, fields[0], vs[0], false);
    }
  }

  lemma {:induction false} MeasureVariantExact(x: Variant, vs: seq<Value>, optimize: bool)
    requires ConformsVariant(x, vs)
    ensures MeasureVariant(x, vs, optimize) == |EncodeVariant(x, vs, optimize)|
    ensures |VariantFlag(x, vs, optimize)| == VariantFlagWidth(x, optimize)
    decreases x, 3
  {
    MeasureFieldsExact(x.style, x.fields, vs, optimize);
  }

  lemma {:induction false} MeasureFieldsExact(style: Style, fields: seq<Field>, vs: seq<Value>, optimize: bool)
    requires ConformAll(fields, vs)
    ensures MeasureFields(style, fields, vs, optimize) == |EncodeFields(style, fields, vs, optimize)|
    decreases fields, 2
  {
    if fields == [] {
    } else {
      MeasureFieldExact(style, fields[0], vs[0], optimize);
      MeasureFieldsExact(style, fields[1..], vs[1..], optimize);
    }
  }

  lemma {:induction false} MeasureFieldExact(style: Style, f: Field, v: Value, optimize: bool)
    requires ConformsField(f, v)
    ensures MeasureField(style, f, v, optimize) == |EncodeField(style, f, v, optimize)|
    decreases f, 1
  {
    if !Skipped(style, f) {
      if Flagged(f, optimize) {
        if v.Just? {
          MeasureExact(f.shape.inner, v.value);
        }
      } else {
        MeasureExact(f.shape, v);
      }
    }
  }

  /**
   The law of the derived codec, with any bytes after the encoding: decoding gives the value back, with its skipped
   fields reset, and leaves exactly those bytes.
   */
  lemma {:induction false} RoundTrip(s: Shape, v: Value, rest: bytes)
    requires Lawful(s) && Conforms(s, v)
    ensures Decode(s, Encode(s, v) + rest) == Some((Reset(s, v), rest))
    decreases s, 0
  {
    hide SizeBytes, FlagOf, DecodeSize, FlagBytes, ToBE, FromBE, Pow256, EncodeItems, DecodeItems, ResetItems,
         EncodeVariant, DecodeVariant, ResetVariant, LawfulFields, LawfulVariant, ConformsVariant, ConformAll, VariantFlag;
    match s
    case Number(width) => NumberRoundTrip(width, v.n, rest);
    case Blob =>
      SizeBack(|v.data|, v.data + rest);
      assert SizeBytes(|v.data|) + v.data + rest == SizeBytes(|v.data|) + (v.data + rest);
    case Optional(inner) =>
      TagBack(v.Just?, (if v.Just? then Encode(inner, v.value) else []) + rest);
      if v.Just? {
        RoundTrip(inner, v.value, rest);
        assert [1] + Encode(inner, v.value) + rest == [1] + (Encode(inner, v.value) + rest);
      } else {
        assert [0] + rest == [0] + ([] + rest) && [] + rest == rest;
      }
    case List(elem) =>
      var items := EncodeItems(elem, v.items);
      SizeBack(|v.items|, items + rest);
      assert SizeBytes(|v.items|) + items + rest == SizeBytes(|v.items|) + (items + rest);
      ItemsRoundTrip(elem, v.items, rest);
    case Struct(style, fields, optimize) =>
      StructRoundTrip(style, fields, optimize, v.fields, rest);
    case Enum(variants, optimize) =>
      VariantRoundTrip(variants[v.index], optimize, v.fields, rest);
      var x := variants[v.index];
      var flag, body := VariantFlag(x, v.fields, optimize), EncodeVariant(x, v.fields, optimize);
      SizeBack(v.index, flag + body + rest);
      assert SizeBytes(v.index) + flag + body + rest == SizeBytes(v.index) + (flag + body + rest);
  }

  // ----- where things stand -----

  /** Field `i` stands behind the fields before it. */
  lemma {:induction false} FieldAt(style: Style, fields: seq<Field>, vs: seq<Value>, optimize: bool, i: nat)
    requires ConformAll(fields, vs) && i < |fields| == |vs|
    ensures At(EncodeFields(style, fields, vs, optimize),
               MeasureFields(style, fields[..i], vs[..i], optimize),
               EncodeField(style, fields[i], vs[i], optimize))
    decreases i
  {
    hide EncodeField, MeasureField;
    var first, rest := EncodeField(style, fields[0], vs[0], optimize), EncodeFields(style, fields[1..], vs[1..], optimize);
    assert EncodeFields(style, fields, vs, optimize) == first + rest;
    if i == 0 {
      assert (first + rest)[0..|first|] == first;
    } else {
      FieldAt(style, fields[1..], vs[1..], optimize, i - 1);
      MeasureFieldExact(style, fields[0], vs[0], optimize);
      assert fields[..i][0] == fields[0] && fields[..i][1..] == fields[1..][..i - 1];
      assert vs[..i][0] == vs[0] && vs[..i][1..] == vs[1..][..i - 1];
      AtBehind(first, rest, MeasureFields(style, fields[1..][..i - 1], vs[1..][..i - 1], optimize),
               EncodeField(style, fields[i], vs[i], optimize));
    }
  }

  lemma {:induction false} AtBehind(first: bytes, rest: bytes, pos: nat, s: bytes)
    requires At(rest, pos, s)
    ensures At(first + rest, |first| + pos, s)
  {
    assert (first + rest)[|first|..] == rest;
    AtSlice(first + rest, |first|, pos, s);
  }

  /**
   The layout of a struct: its flag, with a bit for every option in order, then its fields in order, each where
   the measured sizes of those before it say.
   */
  lemma {:induction false} StructLayout(style: Style, fields: seq<Field>, vs: seq<Value>, optimize: bool, i: nat)
    requires !style.Newtype? && ConformAll(fields, vs) && i < |fields| == |vs|
    ensures var whole := Encode(Struct(style, fields, optimize), Record(vs));
            var width := FlagWidth(OptionCount(fields, optimize));
            && At(whole, 0, ToBE(FlagOf(OptionBits(fields, vs, optimize)), width))
            && At(whole, width + MeasureFields(style, fields[..i], vs[..i], optimize),
                  EncodeField(style, fields[i], vs[i], optimize))
  {
    hide FlagOf, FlagWidth, ToBE;
    var flag, body := FlagBytes(fields, vs, optimize), EncodeFields(style, fields, vs, optimize);
    assert (flag + body)[0..|flag|] == flag;
    FieldAt(style, fields, vs, optimize, i);
    AtBehind(flag, body, MeasureFields(style, fields[..i], vs[..i], optimize), EncodeField(style, fields[i], vs[i], optimize));
  }

  lemma {:induction false} SizeBack(n: nat, rest: bytes)
    requires n < LIMIT
    ensures DecodeSize(SizeBytes(n) + rest) == Some((n, rest))
  {
    SizeRoundTrip(n, rest);
  }

  lemma {:induction false} TagBack(present: bool, rest: bytes)
    ensures DecodeNumber(1, [if present then 1 else 0] + rest) == Some((if present then 1 else 0, rest))
  {
    var n := if present then 1 else 0;
    assert ToBE(n, 1) == [n];
    NumberRoundTrip(1, n, rest);
  }

  lemma {:induction false} ItemsRoundTrip(elem: Shape, vs: seq<Value>, rest: bytes)
    requires Lawful(elem) && forall i | i in vs :: Conforms(elem, i)
    ensures DecodeItems(elem, |vs|, EncodeItems(elem, vs) + rest) == Some((ResetItems(elem, vs), rest))
    decreases elem, 1, |vs|
  {
    hide Encode, Decode, Reset, Lawful, Conforms;
    if vs == [] {
      assert [] + rest == rest;
    } else {
      var first, others := Encode(elem, vs[0]), EncodeItems(elem, vs[1..]);
      assert first + others + rest == first + (others + rest);
      RoundTrip(elem, vs[0], others + rest);
      ItemsRoundTrip(elem, vs[1..], rest);
    }
  }

  lemma {:induction false} StructRoundTrip(style: Style, fields: seq<Field>, optimize: bool, vs: seq<Value>, rest: bytes)
    requires Lawful(Struct(style, fields, optimize)) && ConformAll(fields, vs)
    ensures Decode(Struct(style, fields, optimize), Encode(Struct(style, fields, optimize), Record(vs)) + rest) ==
            Some((Reset(Struct(style, fields, optimize), Record(vs)), rest))
    decreases fields, 6
  {
    BodyRoundTrip(style, fields, optimize, vs, rest);
    if style.Newtype? {
      OwnIsField(fields, vs, optimize);
    }
  }

  /** A newtype struct that is not over an option writes what a tuple of one field would. */
  lemma {:induction false} OwnIsField(fields: seq<Field>, vs: seq<Value>, optimize: bool)
    requires |fields| == |vs| == 1 && !Flagged(fields[0], optimize)
    ensures EncodeOwn(fields, vs) == EncodeFields(Newtype, fields, vs, optimize)
  {
    assert EncodeFields(Newtype, fields, vs, optimize) ==
           EncodeField(Newtype, fields[0], vs[0], optimize) + EncodeFields(Newtype, [], [], optimize);
  }

  lemma {:induction false} VariantRoundTrip(x: Variant, optimize: bool, vs: seq<Value>, rest: bytes)
    requires LawfulVariant(x, optimize) && ConformsVariant(x, vs)
    ensures DecodeVariant(x, optimize, VariantFlag(x, vs, optimize) + EncodeVariant(x, vs, optimize) + rest) ==
            Some((ResetVariant(x, vs), rest))
    decreases x, 5
  {
    BodyRoundTrip(x.style, x.fields, optimize, vs, rest);
    if AllSkipped(x) {
      NoFlag(x.fields, vs, optimize);
    }
  }

  lemma {:induction false} NoFlag(fields: seq<Field>, vs: seq<Value>, optimize: bool)
    requires OptionCount(fields, optimize) == 0 && |fields| == |vs|
    ensures FlagBytes(fields, vs, optimize) == []
  {
  }

  lemma {:induction false} BodyRoundTrip(style: Style, fields: seq<Field>, optimize: bool, vs: seq<Value>, rest: bytes)
    requires LawfulFields(style, fields, optimize) && ConformAll(fields, vs)
    ensures DecodeBody(style, fields, optimize,
                       FlagBytes(fields, vs, optimize) + EncodeFields(style, fields, vs, optimize) + rest) ==
            Some((ResetFields(style, fields, vs), rest))
    decreases fields, 5
  {
    LiveBitsFirst(style, fields, vs, optimize);
    BodyRoundTripIf(style, fields, optimize, vs, rest);
  }

  /** The body is read back whenever the bits of the fields that are read stand at the front of the flag. */
  lemma {:induction false} BodyRoundTripIf(style: Style, fields: seq<Field>, optimize: bool, vs: seq<Value>, rest: bytes)
    requires OptionCount(fields, optimize) <= 128
    requires forall f | f in fields :: LawfulField(f)
    requires ConformAll(fields, vs)
    requires LiveBits(style, fields, vs, optimize) <= OptionBits(fields, vs, optimize)
    ensures DecodeBody(style, fields, optimize,
                       FlagBytes(fields, vs, optimize) + EncodeFields(style, fields, vs, optimize) + rest) ==
            Some((ResetFields(style, fields, vs), rest))
    decreases fields, 4
  {
    hide FlagOf, BitAt, ToBE, FromBE, Pow256, EncodeFields, DecodeFields, ResetFields, LawfulField, ConformsField;
    var flag := FlagRead(fields, vs, optimize, EncodeFields(style, fields, vs, optimize) + rest);
    var bits, live := OptionBits(fields, vs, optimize), LiveBits(style, fields, vs, optimize);
    FlagMatches(bits);
    assert BitsMatch(flag, 0, live);
    FieldsRoundTrip(style, fields, optimize, vs, flag, 0, rest);
    assert FlagBytes(fields, vs, optimize) + EncodeFields(style, fields, vs, optimize) + rest ==
           FlagBytes(fields, vs, optimize) + (EncodeFields(style, fields, vs, optimize) + rest);
  }

  lemma {:induction false} FlagRead(fields: seq<Field>, vs: seq<Value>, optimize: bool, rest: bytes) returns (flag: nat)
    requires |fields| == |vs| && OptionCount(fields, optimize) <= 128
    ensures flag == FlagOf(OptionBits(fields, vs, optimize))
    ensures DecodeNumber(FlagWidth(OptionCount(fields, optimize)), FlagBytes(fields, vs, optimize) + rest) ==
            Some((flag, rest))
  {
    var bits := OptionBits(fields, vs, optimize);
    flag := FlagOf(bits);
    FlagFits(bits);
    NumberRoundTrip(FlagWidth(|bits|), flag, rest);
  }

  lemma {:induction false} FlagMatches(bits: seq<bool>)
    ensures BitsMatch(FlagOf(bits), 0, bits)
  {
    hide FlagOf, BitAt;
    forall i | 0 <= i < |bits|
      ensures BitAt(FlagOf(bits), 0 + i) == bits[i]
    {
      FlagBit(bits, i);
    }
  }

  predicate BitsMatch(flag: nat, index: nat, bits: seq<bool>) {
    forall i | 0 <= i < |bits| :: BitAt(flag, index + i) == bits[i]
  }

  lemma {:induction false} BitsMatchTail(flag: nat, index: nat, b: bool, bits: seq<bool>)
    requires BitsMatch(flag, index, [b] + bits)
    ensures BitAt(flag, index) == b && BitsMatch(flag, index + 1, bits)
  {
    hide BitAt;
    assert ([b] + bits)[0] == b;
    forall i | 0 <= i < |bits|
      ensures BitAt(flag, index + 1 + i) == bits[i]
    {
      assert ([b] + bits)[i + 1] == bits[i];
    }
  }

  lemma {:induction false} FieldsRoundTrip(style: Style, fields: seq<Field>, optimize: bool, vs: seq<Value>,
                                           flag: nat, index: nat, rest: bytes)
    requires ConformAll(fields, vs) && forall f | f in fields :: LawfulField(f)
    requires BitsMatch(flag, index, LiveBits(style, fields, vs, optimize))
    ensures DecodeFields(style, fields, optimize, flag, index, EncodeFields(style, fields, vs, optimize) + rest) ==
            Some((ResetFields(style, fields, vs), rest))
    decreases fields, 3
  {
    hide EncodeField, DecodeField, ResetField, LawfulField, ConformsField, BitsMatch;
    if fields == [] {
      assert [] + rest == rest;
    } else {
      var f, v := fields[0], vs[0];
      var live, live' := LiveBits(style, fields, vs, optimize), LiveBits(style, fields[1..], vs[1..], optimize);
      var first, others := EncodeField(style, f, v, optimize), EncodeFields(style, fields[1..], vs[1..], optimize);
      assert first + others + rest == first + (others + rest);
      assert f in fields;
      if !Skipped(style, f) && Flagged(f, optimize) {
        assert live == [v.Just?] + live';
        BitsMatchTail(flag, index, v.Just?, live');
        FieldRoundTrip(style, f, optimize, v, flag, index, others + rest);
        FieldsRoundTrip(style, fields[1..], optimize, vs[1..], flag, index + 1, rest);
      } else {
        assert live == [] + live' == live';
        FieldRoundTrip(style, f, optimize, v, flag, index, others + rest);
        FieldsRoundTrip(style, fields[1..], optimize, vs[1..], flag, index, rest);
      }
    }
  }

  lemma {:induction false} FieldRoundTrip(style: Style, f: Field, optimize: bool, v: Value, flag: nat, index: nat, rest: bytes)
    requires ConformsField(f, v) && LawfulField(f)
    requires !Skipped(style, f) && Flagged(f, optimize) ==> BitAt(flag, index) == v.Just?
    ensures DecodeField(style, f, optimize, flag, index, EncodeField(style, f, v, optimize) + rest) ==
            Some((ResetField(style, f, v), rest))
    decreases f, 1
  {
    hide BitAt;
    if Skipped(style, f) {
      assert [] + rest == rest;
    } else if Flagged(f, optimize) {
      if v.Just? {
        RoundTrip(f.shape.inner, v.value, rest);
      } else {
        assert [] + rest == rest;
      }
    } else {
      RoundTrip(f.shape, v, rest);
    }
  }

  /** No encoding is a prefix of another: values of one shape, and in particular variants of one enum, are never confused. */
  lemma {:induction false} NeverConfused(s: Shape, v: Value, w: Value, rest: bytes, rest': bytes)
    requires Lawful(s) && Conforms(s, v) && Conforms(s, w)
    requires Encode(s, v) + rest == Encode(s, w) + rest'
    ensures Reset(s, v) == Reset(s, w) && rest == rest'
    ensures s.Enum? ==> v.index == w.index
  {
    RoundTrip(s, v, rest);
    RoundTrip(s, w, rest');
  }

  // ----- where the law fails, and exactly when -----

  /** The generator gives the field of a newtype struct both a flag and its own presence byte: only one is read. */
  lemma {:induction false} NewtypeOptionExactly(f: Field, optimize: bool)
    requires f.shape.Optional? && Lawful(f.shape)
    ensures var s := Struct(Newtype, [f], optimize);
            (forall v, rest | Conforms(s, v) :: ReadsBack(s, v, rest)) <==> !optimize
  {
    var s := Struct(Newtype, [f], optimize);
    if optimize {
      NewtypeNothing(f, []);
      assert Conforms(s, Record([Nothing])) by {
        assert [f][1..] == [] && [Nothing][1..] == [];
        assert ConformAll([], []) && ConformAll([f], [Nothing]);
      }
      assert !ReadsBack(s, Record([Nothing]), []);
    } else {
      assert LawfulFields(Newtype, [f], optimize) by {
        assert LawfulField(f);
      }
      forall v, rest | Conforms(s, v)
        ensures ReadsBack(s, v, rest)
      {
        RoundTrip(s, v, rest);
      }
    }
  }

  lemma {:induction false} NewtypeNothing(f: Field, rest: bytes)
    requires f.shape.Optional?
    ensures var s := Struct(Newtype, [f], true);
            Decode(s, Encode(s, Record([Nothing])) + rest) == Some((Record([Nothing]), [0] + rest))
  {
    var s := Struct(Newtype, [f], true);
    var fields, vs := [f], [Nothing];
    assert fields[1..] == [] && vs[1..] == [];
    assert OptionBits(fields, vs, true) == [false] + OptionBits([], [], true) == [false];
    assert FlagOf([false]) == 0 + 2 * FlagOf([]);
    assert FlagBytes(fields, vs, true) == [0];
    assert Encode(f.shape, Nothing) == [0];
    assert EncodeOwn(fields, vs) == [0];
    assert Encode(s, Record(vs)) == [0] + [0];
    var buf := [0] + ([0] + rest);
    assert Encode(s, Record(vs)) + rest == buf;
    TagBack(false, [0] + rest);
    assert OptionCount(fields, true) == 1 + OptionCount([], true);
    var tail := [0] + rest;
    assert DecodeField(Newtype, f, true, 0, 0, tail) == Some((Nothing, tail));
    assert DecodeFields(Newtype, [], true, 0, 1, tail) == Some(([], tail));
    assert DecodeFields(Newtype, fields, true, 0, 0, tail) == Some(([Nothing] + [], tail));
    assert [Nothing] + [] == vs;
  }

  /** Whatever is decoded, its option fields that are not skipped are present as the flag says, in order. */
  lemma {:induction false} DecodedBits(style: Style, fields: seq<Field>, optimize: bool, flag: nat, index: nat, buf: bytes)
    ensures var r := DecodeFields(style, fields, optimize, flag, index, buf);
            r.Some? ==> |r.value.0| == |fields| && BitsMatch(flag, index, LiveBits(style, fields, r.value.0, optimize))
  {
    hide Decode, BitAt;
    if fields == [] {
    } else {
      var first := DecodeField(style, fields[0], optimize, flag, index, buf);
      if first.Some? {
        var live := !Skipped(style, fields[0]) && Flagged(fields[0], optimize);
        var next := if live then index + 1 else index;
        var others := DecodeFields(style, fields[1..], optimize, flag, next, first.value.1);
        DecodedBits(style, fields[1..], optimize, flag, next, first.value.1);
        if others.Some? {
          var v, vs := first.value.0, others.value.0;
          assert ([v] + vs)[1..] == vs;
          var bits := LiveBits(style, fields[1..], vs, optimize);
          if live {
            BitsMatchCons(flag, index, v.Just?, bits);
          } else {
            assert [] + bits == bits;
          }
        }
      }
    }
  }

  lemma {:induction false} BitsMatchCons(flag: nat, index: nat, b: bool, bits: seq<bool>)
    requires BitAt(flag, index) == b && BitsMatch(flag, index + 1, bits)
    ensures BitsMatch(flag, index, [b] + bits)
  {
    hide BitAt;
    forall i | 0 <= i < |bits| + 1
      ensures BitAt(flag, index + i) == ([b] + bits)[i]
    {
      if i > 0 {
        assert BitAt(flag, index + 1 + (i - 1)) == bits[i - 1];
      }
    }
  }

  lemma {:induction false} ResetPresence(style: Style, f: Field, v: Value)
    requires f.shape.Optional? && !Skipped(style, f) && ConformsField(f, v)
    ensures ResetField(style, f, v).Just? == v.Just?
  {
    match f.shape
    case Optional(inner) => assert v.Just? ==> Reset(f.shape, v) == Just(Reset(inner, v.value));
  }

  lemma {:induction false} ResetKeepsBits(style: Style, fields: seq<Field>, vs: seq<Value>, optimize: bool)
    requires ConformAll(fields, vs)
    ensures |ResetFields(style, fields, vs)| == |fields|
    ensures LiveBits(style, fields, ResetFields(style, fields, vs), optimize) == LiveBits(style, fields, vs, optimize)
  {
    if fields == [] {
    } else {
      ResetKeepsBits(style, fields[1..], vs[1..], optimize);
      var v, rest := ResetField(style, fields[0], vs[0]), ResetFields(style, fields[1..], vs[1..]);
      assert ([v] + rest)[1..] == rest;
      if !Skipped(style, fields[0]) && Flagged(fields[0], optimize) {
        ResetPresence(style, fields[0], vs[0]);
      }
    }
  }

  /** For every value: the fields are read back exactly when the bits that the decoder looks at are the first ones. */
  lemma {:induction false} BodyExactly(style: Style, fields: seq<Field>, optimize: bool, vs: seq<Value>, rest: bytes)
    requires OptionCount(fields, optimize) <= 128
    requires forall f | f in fields :: LawfulField(f)
    requires ConformAll(fields, vs)
    ensures DecodeBody(style, fields, optimize,
                       FlagBytes(fields, vs, optimize) + EncodeFields(style, fields, vs, optimize) + rest) ==
            Some((ResetFields(style, fields, vs), rest))
            <==> LiveBits(style, fields, vs, optimize) <= OptionBits(fields, vs, optimize)
  {
    hide FlagOf, BitAt, ToBE, FromBE, EncodeFields, DecodeFields, ResetFields, LawfulField, ConformsField;
    var bits, live := OptionBits(fields, vs, optimize), LiveBits(style, fields, vs, optimize);
    if live <= bits {
      BodyRoundTripIf(style, fields, optimize, vs, rest);
    }
    var body := EncodeFields(style, fields, vs, optimize) + rest;
    var buf := FlagBytes(fields, vs, optimize) + EncodeFields(style, fields, vs, optimize) + rest;
    assert buf == FlagBytes(fields, vs, optimize) + body;
    if DecodeBody(style, fields, optimize, buf) == Some((ResetFields(style, fields, vs), rest)) {
      var flag := FlagRead(fields, vs, optimize, body);
      DecodedBits(style, fields, optimize, flag, 0, body);
      ResetKeepsBits(style, fields, vs, optimize);
      FlagMatches(bits);
      LiveNotMore(style, fields, vs, optimize);
      forall i | 0 <= i < |live|
        ensures live[i] == bits[i]
      {
        assert BitAt(flag, 0 + i) == live[i];
        assert BitAt(flag, 0 + i) == bits[i];
      }
    }
  }

  lemma {:induction false} LiveNotMore(style: Style, fields: seq<Field>, vs: seq<Value>, optimize: bool)
    requires |fields| == |vs|
    ensures |LiveBits(style, fields, vs, optimize)| <= |OptionBits(fields, vs, optimize)|
  {
    if fields == [] {
    } else {
      LiveNotMore(style, fields[1..], vs[1..], optimize);
    }
  }

  /** The values in which exactly the skipped options are present. */
  function OnlySkipped(style: Style, fields: seq<Field>, samples: seq<Value>, optimize: bool): (vs: seq<Value>)
    requires |fields| == |samples|
    ensures |vs| == |fields|
  {
    if fields == [] then []
    else [if Flagged(fields[0], optimize) && !Skipped(style, fields[0]) then Nothing else samples[0]] +
         OnlySkipped(style, fields[1..], samples[1..], optimize)
  }

  predicate ReadsBack(s: Shape, v: Value, rest: bytes) {
    Decode(s, Encode(s, v) + rest) == Some((Reset(s, v), rest))
  }

  /** A struct with named fields is written and read as its body. */
  lemma {:induction false} NamedExactly(fields: seq<Field>, optimize: bool, vs: seq<Value>, rest: bytes)
    requires OptionCount(fields, optimize) <= 128
    requires forall f | f in fields :: LawfulField(f)
    requires ConformAll(fields, vs)
    ensures ReadsBack(Struct(Named, fields, optimize), Record(vs), rest) <==>
            LiveBits(Named, fields, vs, optimize) <= OptionBits(fields, vs, optimize)
  {
    hide FlagBytes, EncodeFields, DecodeFields, ResetFields, LawfulField, ConformsField, OptionBits, LiveBits;
    BodyExactly(Named, fields, optimize, vs, rest);
    var s := Struct(Named, fields, optimize);
    var body := FlagBytes(fields, vs, optimize) + EncodeFields(Named, fields, vs, optimize);
    assert Encode(s, Record(vs)) == body;
    assert Reset(s, Record(vs)) == Record(ResetFields(Named, fields, vs));
    hide DecodeBody, Encode, Reset;
    var r := DecodeBody(Named, fields, optimize, body + rest);
    assert Decode(s, body + rest) == if r.None? then None else Some((Record(r.value.0), r.value.1));
  }

  /**
   For every struct with named fields whose options can be present: all its values are read back, with
   any bytes after them, exactly when no skipped option field stands before one that is not skipped.
   */
  lemma {:induction false} SkippedOptionsExactly(fields: seq<Field>, optimize: bool, samples: seq<Value>)
    requires OptionCount(fields, optimize) <= 128
    requires forall f | f in fields :: LawfulField(f)
    requires ConformAll(fields, samples)
    requires forall i | 0 <= i < |fields| && Flagged(fields[i], optimize) :: samples[i].Just?
    ensures var s := Struct(Named, fields, optimize);
            (forall v, rest | Conforms(s, v) :: ReadsBack(s, v, rest)) <==> SkipsLast(Named, fields, optimize)
  {
    hide LawfulField, ConformsField, Encode, Decode, Reset, ReadsBack;
    var s := Struct(Named, fields, optimize);
    if SkipsLast(Named, fields, optimize) {
      forall v, rest | Conforms(s, v)
        ensures ReadsBack(s, v, rest)
      {
        assert v.Record? && ConformAll(fields, v.fields);
        LiveBitsFirst(Named, fields, v.fields, optimize);
        NamedExactly(fields, optimize, v.fields, rest);
      }
    } else {
      var vs := OnlySkipped(Named, fields, samples, optimize);
      OnlySkippedConforms(Named, fields, samples, optimize);
      OnlySkippedBits(Named, fields, samples, optimize);
      NamedExactly(fields, optimize, vs, []);
      assert Conforms(s, Record(vs)) && !ReadsBack(s, Record(vs), []);
    }
  }

  lemma {:induction false} SkippedReadNothing(fields: seq<Field>, optimize: bool, flag: nat, index: nat, buf: bytes)
    requires forall f | f in fields :: f.skip
    ensures var r := DecodeFields(Named, fields, optimize, flag, index, buf);
            r.Some? ==> r.value.1 == buf
  {
    hide Decode, BitAt;
    if fields == [] {
    } else {
      assert fields[0] in fields;
      SkippedReadNothing(fields[1..], optimize, flag, index, buf);
    }
  }

  lemma {:induction false} FlagWide(count: nat)
    requires 0 < count <= 128
    ensures FlagWidth(count) > 0
  {
  }

  /**
   An enum variant whose named fields are all skipped, options among them, is never read back, whatever
   follows it: its index is written, and the index and a flag are read.
   */
  lemma {:induction false} AllSkippedVariantLost(
    variants: seq<Variant>, i: nat, optimize: bool, vs: seq<Value>, rest: bytes)
    requires i < |variants| < LIMIT && AllSkipped(variants[i]) && |vs| == |variants[i].fields|
    requires 0 < OptionCount(variants[i].fields, optimize) <= 128
    ensures !ReadsBack(Enum(variants, optimize), Case(i, vs), rest)
  {
    hide SizeBytes, DecodeSize, DecodeFields, FlagWidth;
    var x, s := variants[i], Enum(variants, optimize);
    SkippedWriteNothing(x.fields, vs, optimize);
    assert Encode(s, Case(i, vs)) == SizeBytes(i) + [] + [];
    assert Encode(s, Case(i, vs)) + rest == SizeBytes(i) + rest;
    SizeBack(i, rest);
    var width := FlagWidth(OptionCount(x.fields, optimize));
    FlagWide(OptionCount(x.fields, optimize));
    var flag := DecodeNumber(width, rest);
    var body := DecodeBody(Named, x.fields, optimize, rest);
    if flag.Some? {
      SkippedReadNothing(x.fields, optimize, flag.value.0, 0, flag.value.1);
      assert body == DecodeFields(Named, x.fields, optimize, flag.value.0, 0, flag.value.1);
      assert |flag.value.1| == |rest| - width;
    }
    assert body.Some? ==> body.value.1 != rest;
    hide DecodeBody, DecodeNumber, Encode;
    assert Decode(s, SizeBytes(i) + rest) == if body.None? then None else Some((Case(i, body.value.0), body.value.1));
  }

  lemma {:induction false} SkippedWriteNothing(fields: seq<Field>, vs: seq<Value>, optimize: bool)
    requires (forall f | f in fields :: f.skip) && |fields| == |vs|
    ensures EncodeFields(Named, fields, vs, optimize) == []
  {
    hide Encode;
    if fields == [] {
    } else {
      assert fields[0] in fields;
      SkippedWriteNothing(fields[1..], vs[1..], optimize);
    }
  }

  /** A named variant with a field to write is written and read as its body behind the index. */
  lemma {:induction false} VariantExactly(variants: seq<Variant>, i: nat, optimize: bool, vs: seq<Value>, rest: bytes)
    requires i < |variants| < LIMIT && variants[i].style.Named? && !AllSkipped(variants[i])
    requires OptionCount(variants[i].fields, optimize) <= 128
    requires forall f | f in variants[i].fields :: LawfulField(f)
    requires ConformAll(variants[i].fields, vs)
    ensures ReadsBack(Enum(variants, optimize), Case(i, vs), rest) <==>
            LiveBits(Named, variants[i].fields, vs, optimize) <= OptionBits(variants[i].fields, vs, optimize)
  {
    hide FlagBytes, EncodeFields, DecodeFields, ResetFields, LawfulField, ConformsField, OptionBits, LiveBits, SizeBytes,
         DecodeSize;
    var x, s := variants[i], Enum(variants, optimize);
    BodyExactly(Named, x.fields, optimize, vs, rest);
    var flag, fields := FlagBytes(x.fields, vs, optimize), EncodeFields(Named, x.fields, vs, optimize);
    assert Encode(s, Case(i, vs)) == SizeBytes(i) + flag + fields;
    assert SizeBytes(i) + flag + fields + rest == SizeBytes(i) + (flag + fields + rest);
    assert Reset(s, Case(i, vs)) == Case(i, ResetFields(Named, x.fields, vs));
    SizeBack(i, flag + fields + rest);
    hide DecodeBody, Encode, Reset;
    var r := DecodeBody(Named, x.fields, optimize, flag + fields + rest);
    assert Decode(s, SizeBytes(i) + (flag + fields + rest)) ==
           if r.None? then None else Some((Case(i, r.value.0), r.value.1));
  }

  /**
   For every enum and every variant of it with named fields whose options can be present: all its values are
   read back, with any bytes after them, exactly when no skipped option field stands before one that is not
   skipped, and some field is not skipped if there are options at all.
   */
  lemma {:induction false} NamedVariantExactly(variants: seq<Variant>, i: nat, optimize: bool, samples: seq<Value>)
    requires i < |variants| < LIMIT && variants[i].style.Named?
    requires OptionCount(variants[i].fields, optimize) <= 128
    requires forall f | f in variants[i].fields :: LawfulField(f)
    requires ConformAll(variants[i].fields, samples)
    requires forall k | 0 <= k < |variants[i].fields| && Flagged(variants[i].fields[k], optimize) :: samples[k].Just?
    ensures var s, fields := Enum(variants, optimize), variants[i].fields;
            (forall vs, rest | ConformAll(fields, vs) :: ReadsBack(s, Case(i, vs), rest)) <==>
            && SkipsLast(Named, fields, optimize)
            && (OptionCount(fields, optimize) == 0 || exists f | f in fields :: !f.skip)
  {
    hide LawfulField, ConformsField, Encode, Decode, Reset, ReadsBack;
    var s, fields := Enum(variants, optimize), variants[i].fields;
    if AllSkipped(variants[i]) {
      if OptionCount(fields, optimize) == 0 {
        forall vs, rest | ConformAll(fields, vs)
          ensures ReadsBack(s, Case(i, vs), rest)
        {
          SkippedVariantKept(variants, i, optimize, vs, rest);
        }
        NoFlagged(fields, optimize);
      } else {
        AllSkippedVariantLost(variants, i, optimize, samples, []);
      }
    } else if SkipsLast(Named, fields, optimize) {
      forall vs, rest | ConformAll(fields, vs)
        ensures ReadsBack(s, Case(i, vs), rest)
      {
        LiveBitsFirst(Named, fields, vs, optimize);
        VariantExactly(variants, i, optimize, vs, rest);
      }
    } else {
      var vs := OnlySkipped(Named, fields, samples, optimize);
      OnlySkippedConforms(Named, fields, samples, optimize);
      OnlySkippedBits(Named, fields, samples, optimize);
      VariantExactly(variants, i, optimize, vs, []);
      assert !ReadsBack(s, Case(i, vs), []);
    }
  }

  lemma {:induction false} NoFlagged(fields: seq<Field>, optimize: bool)
    requires OptionCount(fields, optimize) == 0
    ensures forall i | 0 <= i < |fields| :: !Flagged(fields[i], optimize)
  {
    if fields == [] {
    } else {
      NoFlagged(fields[1..], optimize);
      assert forall i | 1 <= i < |fields| :: fields[i] == fields[1..][i - 1];
    }
  }

  lemma {:induction false} SkippedVariantKept(variants: seq<Variant>, i: nat, optimize: bool, vs: seq<Value>, rest: bytes)
    requires i < |variants| < LIMIT && AllSkipped(variants[i]) && OptionCount(variants[i].fields, optimize) == 0
    requires (forall f | f in variants[i].fields :: LawfulField(f)) && ConformAll(variants[i].fields, vs)
    ensures ReadsBack(Enum(variants, optimize), Case(i, vs), rest)
  {
    hide SizeBytes, DecodeSize, DecodeBody, DecodeFields, EncodeFields, FlagBytes, ResetFields, LawfulField, ConformsField;
    var x, s := variants[i], Enum(variants, optimize);
    NoFlagged(x.fields, optimize);
    VariantRoundTrip(x, optimize, vs, rest);
    SkippedWriteNothing(x.fields, vs, optimize);
    assert Encode(s, Case(i, vs)) == SizeBytes(i) + [] + [];
    assert Encode(s, Case(i, vs)) + rest == SizeBytes(i) + rest;
    assert [] + [] + rest == rest;
    SizeBack(i, rest);
  }

  lemma {:induction false} OnlySkippedConforms(style: Style, fields: seq<Field>, samples: seq<Value>, optimize: bool)
    requires ConformAll(fields, samples)
    ensures ConformAll(fields, OnlySkipped(style, fields, samples, optimize))
  {
    if fields == [] {
    } else {
      OnlySkippedConforms(style, fields[1..], samples[1..], optimize);
      var vs := OnlySkipped(style, fields, samples, optimize);
      assert vs[1..] == OnlySkipped(style, fields[1..], samples[1..], optimize);
    }
  }

  lemma {:induction false} OnlySkippedBits(style: Style, fields: seq<Field>, samples: seq<Value>, optimize: bool)
    requires |fields| == |samples|
    requires forall i | 0 <= i < |fields| && Flagged(fields[i], optimize) :: samples[i].Just?
    requires !SkipsLast(style, fields, optimize)
    ensures var vs := OnlySkipped(style, fields, samples, optimize);
            !(LiveBits(style, fields, vs, optimize) <= OptionBits(fields, vs, optimize))
  {
    var vs := OnlySkipped(style, fields, samples, optimize);
    var i, j :| 0 <= i < j < |fields| && Flagged(fields[i], optimize) && Flagged(fields[j], optimize) &&
                Skipped(style, fields[i]) && !Skipped(style, fields[j]);
    var rest, vs' := fields[1..], OnlySkipped(style, fields[1..], samples[1..], optimize);
    assert vs[1..] == vs';
    var live, bits := LiveBits(style, rest, vs', optimize), OptionBits(rest, vs', optimize);
    AllAbsent(style, fields, samples, optimize);
    if Flagged(fields[0], optimize) && Skipped(style, fields[0]) {
      LiveExists(style, fields, vs, optimize, j);
      assert OptionBits(fields, vs, optimize) == [true] + bits;
      assert LiveBits(style, fields, vs, optimize)[0] == false;
    } else {
      assert i > 0;
      assert rest[i - 1] == fields[i] && rest[j - 1] == fields[j];
      OnlySkippedBits(style, rest, samples[1..], optimize);
      if Flagged(fields[0], optimize) {
        assert LiveBits(style, fields, vs, optimize) == [false] + live;
        assert OptionBits(fields, vs, optimize) == [false] + bits;
        PrefixTail(false, live, bits);
      } else {
        assert LiveBits(style, fields, vs, optimize) == [] + live == live;
        assert OptionBits(fields, vs, optimize) == [] + bits == bits;
      }
    }
  }

  lemma {:induction false} PrefixTail(b: bool, short: seq<bool>, long: seq<bool>)
    ensures [b] + short <= [b] + long <==> short <= long
  {
    if [b] + short <= [b] + long {
      assert ([b] + long)[..|short| + 1] == [b] + short;
      assert long[..|short|] == ([b] + long)[..|short| + 1][1..] == short;
    }
  }

  lemma {:induction false} AllAbsent(style: Style, fields: seq<Field>, samples: seq<Value>, optimize: bool)
    requires |fields| == |samples|
    ensures true !in LiveBits(style, fields, OnlySkipped(style, fields, samples, optimize), optimize)
  {
    if fields == [] {
    } else {
      AllAbsent(style, fields[1..], samples[1..], optimize);
      assert OnlySkipped(style, fields, samples, optimize)[1..] == OnlySkipped(style, fields[1..], samples[1..], optimize);
    }
  }

  lemma {:induction false} LiveExists(style: Style, fields: seq<Field>, vs: seq<Value>, optimize: bool, j: nat)
    requires |fields| == |vs| && j < |fields|
    requires Flagged(fields[j], optimize) && !Skipped(style, fields[j])
    ensures LiveBits(style, fields, vs, optimize) != []
  {
    if j == 0 {
    } else {
      LiveExists(style, fields[1..], vs[1..], optimize, j - 1);
    }
  }
}
