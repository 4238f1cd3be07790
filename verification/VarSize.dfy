/**
 The variable-length size of raw_types.rs (VarSizeHelper, USize): the two top bits of the
 first byte say how many bytes follow, and the rest is the number, most significant first.
 */
module VarSize {
  import opened ByteCodec
  import opened Options

  const LIMIT: nat := 0x4000_0000_0000_0000

  /** A size above u64::MAX >> 2 is refused. */
  function MeasureSize(n: nat): Option<nat> {
    if n <= 0x3f then Some(1)
    else if n <= 0x3fff then Some(2)
    else if n <= 0x3fff_ffff then Some(4)
    else if n < LIMIT then Some(8)
    else None
  }

  function EncodeSize(n: nat): Option<bytes> {
    if n <= 0x3f then Some(ToBE(n, 1))
    else if n <= 0x3fff then Some(ToBE(0x4000 + n, 2))
    else if n <= 0x3fff_ffff then Some(ToBE(0xc000_0000 + n, 4))
    else if n < LIMIT then Some(ToBE(0x8000_0000_0000_0000 + n, 8))
    else None
  }

  /** A fixed-width unsigned number, big-endian. */
  function DecodeNumber(width: nat, buf: bytes): Option<(nat, bytes)> {
    if |buf| < width then None else Some((FromBE(buf[..width]), buf[width..]))
  }

  function DecodeSize(buf: bytes): Option<(nat, bytes)> {
    var (first, rest) :- DecodeNumber(1, buf);
    var tag := buf[0] / 64;
    if tag == 0 then Some((first, rest))
    else if tag == 1 then
      var (value, rest) :- DecodeNumber(2, buf);
      Some((value % 0x4000, rest))
    else if tag == 3 then
      var (value, rest) :- DecodeNumber(4, buf);
      Some((value % 0x4000_0000, rest))
    else
      var (value, rest) :- DecodeNumber(8, buf);
      Some((value % LIMIT, rest))
  }

  lemma {:induction false} NumberRoundTrip(width: nat, n: nat, rest: bytes)
    requires n < Pow256(width)
    ensures DecodeNumber(width, ToBE(n, width) + rest) == Some((n, rest))
  {
    var buf := ToBE(n, width) + rest;
    assert buf[..width] == ToBE(n, width) && buf[width..] == rest;
    FromToBE(n, width);
  }

  /** The first of `k` bytes is what is left after dividing the others away. */
  function Top(n: nat, k: nat): nat {
    if k <= 1 then n % 256 else Top(n / 256, k - 1)
  }

  lemma {:induction false} FirstByte(n: nat, k: nat)
    requires k > 0
    ensures ToBE(n, k)[0] == Top(n, k)
  {
    if k == 1 {
    } else {
      FirstByte(n / 256, k - 1);
    }
  }

  lemma {:induction false} TopOfFour(n: nat)
    ensures Top(n, 4) == n / 256 / 256 / 256 % 256
  {
    assert Top(n, 4) == Top(n / 256, 3) == Top(n / 256 / 256, 2) == Top(n / 256 / 256 / 256, 1);
  }

  lemma {:induction false} TopOfEight(n: nat)
    requires 0x8000_0000_0000_0000 <= n < 0xc000_0000_0000_0000
    ensures Top(n, 8) / 64 == 2
  {
    var four := n / 256 / 256 / 256 / 256;
    assert Top(n, 8) == Top(n / 256, 7) == Top(n / 256 / 256, 6) == Top(n / 256 / 256 / 256, 5) == Top(four, 4);
    TopOfFour(four);
    assert 0x8000_0000 <= four < 0xc000_0000;
  }

  lemma {:induction false} Powers()
    ensures Pow256(1) == 0x100 && Pow256(2) == 0x1_0000 && Pow256(4) == 0x1_0000_0000
    ensures Pow256(8) == 0x1_0000_0000_0000_0000
  {
  }

  /** The numbers that fit in `w` bytes beside the two tag bits. */
  function Room(w: nat): nat {
    if w == 1 then 0x40 else if w == 2 then 0x4000 else if w == 4 then 0x4000_0000 else LIMIT
  }

  /** How many bytes a first byte announces, by its two top bits: 00 one, 01 two, 11 four, 10 eight. */
  function Announced(first: byte): nat {
    if first < 0x40 then 1 else if first < 0x80 then 2 else if first < 0xc0 then 8 else 4
  }

  /** A size takes the least of 1, 2, 4 and 8 bytes that has room for it, and its first byte says which. */
  lemma {:induction false} SizeWidth(n: nat)
    requires n < LIMIT
    ensures EncodeSize(n).Some? && MeasureSize(n) == Some(|EncodeSize(n).value|)
    ensures var w := |EncodeSize(n).value|;
            && w in {1, 2, 4, 8} && n < Room(w)
            && (forall v | v in {1, 2, 4, 8} && n < Room(v) :: w <= v)
            && Announced(EncodeSize(n).value[0]) == w
  {
    hide ToBE;
    if n <= 0x3f {
      FirstByte(n, 1);
    } else if n <= 0x3fff {
      FirstByte(0x4000 + n, 2);
    } else if n <= 0x3fff_ffff {
      FirstByte(0xc000_0000 + n, 4);
      TopOfFour(0xc000_0000 + n);
    } else {
      FirstByte(0x8000_0000_0000_0000 + n, 8);
      TopOfEight(0x8000_0000_0000_0000 + n);
    }
  }

  /** Whatever the bytes: a size is the announced bytes, if they are there, without the tag. */
  lemma {:induction false} SizeReadExactly(buf: bytes)
    ensures DecodeSize(buf) ==
            if buf == [] || |buf| < Announced(buf[0]) then None
            else Some((FromBE(buf[..Announced(buf[0])]) % Room(Announced(buf[0])), buf[Announced(buf[0])..]))
  {
    if buf != [] {
      assert buf[..1] == [buf[0]] && FromBE([buf[0]]) == buf[0];
    }
    hide FromBE;
  }

  /** Every size below the limit is read back, whatever follows it. */
  lemma {:induction false} SizeRoundTrip(n: nat, rest: bytes)
    requires n < LIMIT
    ensures EncodeSize(n).Some? && DecodeSize(EncodeSize(n).value + rest) == Some((n, rest))
  {
    SizeWidth(n);
    hide ToBE, Pow256, FromBE, DecodeSize;
    var bytes := EncodeSize(n).value;
    var buf := bytes + rest;
    assert buf[0] == bytes[0] && buf[..|bytes|] == bytes && buf[|bytes|..] == rest;
    SizeReadExactly(buf);
    SizeValue(n);
  }

  lemma {:induction false} SizeValue(n: nat)
    requires n < LIMIT
    ensures EncodeSize(n).Some? && FromBE(EncodeSize(n).value) % Room(|EncodeSize(n).value|) == n
  {
    hide ToBE, Pow256, FromBE;
    Powers();
    if n <= 0x3f {
      FromToBE(n, 1);
    } else if n <= 0x3fff {
      FromToBE(0x4000 + n, 2);
    } else if n <= 0x3fff_ffff {
      FromToBE(0xc000_0000 + n, 4);
    } else {
      FromToBE(0x8000_0000_0000_0000 + n, 8);
    }
  }
}
