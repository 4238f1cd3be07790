/**
 The encoding of the Solidity Contract ABI Specification, section "Formal Specification
 of the Encoding", written directly on bytes: no intermediate tree, no 32-bit arithmetic.
 */
module AbiSpec {
  import opened ByteCodec
  import opened AbiTypes

  function Number(n: nat): (s: bytes)
    ensures |s| == 32
  {
    ToBE(n, 32)
  }

  function Words(n: nat): nat {
    (n + 31) / 32
  }

  /** Right-padded with zeros to a multiple of 32 bytes. */
  function PadRight(b: bytes): (s: bytes)
    ensures |s| == 32 * Words(|b|)
  {
    b + Zeros(32 * Words(|b|) - |b|)
  }

  function Enc(t: Token): bytes
    decreases t, 0
  {
    match t
    case Address(id) => id
    case FixedBytes(data) => PadRight(data)
    case Bytes(data) => Number(|data|) + PadRight(data)
    case String(data) => Number(|data|) + PadRight(data)
    case Int(value) => Number(value)
    case Uint(value) => Number(value)
    case Bool(flag) => Number(if flag then 1 else 0)
    case Array(items) => Number(|items|) + EncAll(items)
    case FixedArray(items) => EncAll(items)
    case Tuple(items) => EncAll(items)
  }

  /** The heads of all elements, then the tails of all elements. */
  function EncAll(ts: seq<Token>): bytes
    decreases ts, 3
  {
    Heads(ts, HeadsSize(ts)) + Tails(ts)
  }

  function HeadSize(t: Token): nat
    decreases t, 1
  {
    if IsDynamic(t) then 32 else |Enc(t)|
  }

  /** A static element is inlined; a dynamic one leaves the distance from the block's start to its tail. */
  function Head(t: Token, offset: nat): (s: bytes)
    ensures |s| == HeadSize(t)
    decreases t, 2
  {
    if IsDynamic(t) then Number(offset) else Enc(t)
  }

  function Tail(t: Token): bytes
    decreases t, 1
  {
    if IsDynamic(t) then Enc(t) else []
  }

  function HeadsSize(ts: seq<Token>): nat
    decreases ts, 1
  {
    if ts == [] then 0 else HeadSize(ts[0]) + HeadsSize(ts[1..])
  }

  function Heads(ts: seq<Token>, offset: nat): (s: bytes)
    ensures |s| == HeadsSize(ts)
    decreases ts, 2
  {
    if ts == [] then [] else Head(ts[0], offset) + Heads(ts[1..], offset + |Tail(ts[0])|)
  }

  function Tails(ts: seq<Token>): bytes
    decreases ts, 1
  {
    if ts == [] then [] else Tail(ts[0]) + Tails(ts[1..])
  }

  /** Static elements have no tails, so their heads do not depend on where the tails would start. */
  lemma {:induction false} StaticHeads(ts: seq<Token>, offset: nat, other: nat)
    requires forall t | t in ts :: !IsDynamic(t)
    ensures Tails(ts) == []
    ensures Heads(ts, offset) == Heads(ts, other)
  {
    if ts == [] {
    } else {
      assert ts[0] in ts;
      StaticHeads(ts[1..], offset, other);
    }
  }
}
