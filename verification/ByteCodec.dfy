/**
 Big-endian numbers over bytes, and the placement of one byte sequence inside another.
 Shared by the ABI codec, the SHA-2 engines and the derived codec.
 */
module ByteCodec {

  type byte = x: int | 0 <= x < 256

  type bytes = seq<byte>

  function Pow256(k: nat): (p: nat)
    ensures p >= 1
  {
    if k == 0 then 1 else 256 * Pow256(k - 1)
  }

  /** The `k` low bytes of `n`, most significant first. */
  function ToBE(n: nat, k: nat): (s: bytes)
    ensures |s| == k
  {
    if k == 0 then [] else ToBE(n / 256, k - 1) + [n % 256]
  }

  function FromBE(s: bytes): nat {
    if s == [] then 0 else FromBE(s[..|s| - 1]) * 256 + s[|s| - 1]
  }

  function Zeros(k: nat): (s: bytes)
    ensures |s| == k
  {
    seq(k, _ => 0)
  }

  lemma {:induction false} FromToBE(n: nat, k: nat)
    requires n < Pow256(k)
    ensures FromBE(ToBE(n, k)) == n
  {
    if k == 0 {
    } else {
      FromToBE(n / 256, k - 1);
      assert ToBE(n, k)[..k - 1] == ToBE(n / 256, k - 1);
    }
  }

  lemma {:induction false} ToFromBE(s: bytes)
    ensures FromBE(s) < Pow256(|s|)
    ensures ToBE(FromBE(s), |s|) == s
  {
    if s == [] {
    } else {
      var init := s[..|s| - 1];
      ToFromBE(init);
      assert s == init + [s[|s| - 1]];
    }
  }

  /** A number that fits in `k` bytes is padded on the left with zeros. */
  lemma {:induction false} ToBEPadded(n: nat, k: nat, j: nat)
    requires n < Pow256(k)
    ensures ToBE(n, j + k) == Zeros(j) + ToBE(n, k)
  {
    if k == 0 {
      ToBEZero(j);
    } else {
      ToBEPadded(n / 256, k - 1, j);
      assert Zeros(j) + (ToBE(n / 256, k - 1) + [n % 256]) == Zeros(j) + ToBE(n / 256, k - 1) + [n % 256];
    }
  }

  lemma {:induction false} ToBEZero(j: nat)
    ensures ToBE(0, j) == Zeros(j)
  {
    if j == 0 {
    } else {
      ToBEZero(j - 1);
    }
  }

  /** `s` stands at position `pos` of `data`. */
  predicate At(data: bytes, pos: nat, s: bytes) {
    pos + |s| <= |data| && data[pos..pos + |s|] == s
  }

  lemma {:induction false} AtSplit(data: bytes, pos: nat, s: bytes, t: bytes)
    ensures At(data, pos, s + t) <==> At(data, pos, s) && At(data, pos + |s|, t)
  {
    if At(data, pos, s + t) {
      assert data[pos..pos + |s|] == (s + t)[..|s|];
      assert data[pos + |s|..pos + |s| + |t|] == (s + t)[|s|..];
    }
    if At(data, pos, s) && At(data, pos + |s|, t) {
      assert data[pos..pos + |s + t|] == data[pos..pos + |s|] + data[pos + |s|..pos + |s| + |t|];
    }
  }

  /** Positions seen from a later base. */
  lemma {:induction false} AtSlice(data: bytes, base: nat, pos: nat, s: bytes)
    requires base <= |data|
    ensures At(data[base..], pos, s) <==> At(data, base + pos, s)
  {
    if base + pos + |s| <= |data| {
      assert data[base..][pos..pos + |s|] == data[base + pos..base + pos + |s|];
    }
  }
}
