/**
 Hashing a message block by block, for any block size and any compression function:
 the blocks of sections 5.2, 6.2.2 and 6.4.2 of FIPS 180-4 and the padding of section 5.1.
 */
module BlockStream {
  import opened ByteCodec

  /** Compresses the whole blocks of `data` in order and ignores an incomplete last one. */
  function Absorb<H>(f: (H, bytes) -> H, n: nat, h: H, data: bytes): H
    requires n > 0
    decreases |data|
  {
    if |data| < n then h else Absorb(f, n, f(h, data[..n]), data[n..])
  }

  /** The incomplete last block. */
  function Rest(n: nat, data: bytes): (r: bytes)
    requires n > 0
    ensures |r| < n && |r| == |data| % n
  {
    data[|data| - |data| % n..]
  }

  /** The number of zero bytes between the end marker and a length field of `k` bytes. */
  function ZeroCount(n: nat, k: nat, len: nat): (z: nat)
    requires n > 0
    ensures z < n
  {
    (n - (len + 1 + k) % n) % n
  }

  function Pad(n: nat, field: bytes, message: bytes): bytes
    requires n > 0
  {
    message + [0x80] + Zeros(ZeroCount(n, |field|, |message|)) + field
  }

  lemma {:induction false} ModShift(a: nat, b: nat, n: nat)
    requires n > 0 && a % n == 0
    ensures (a + b) % n == b % n
  {
    assert a == a / n * n;
    ModMultiple(a / n, b, n);
  }

  lemma {:induction false} ModMultiple(q: nat, b: nat, n: nat)
    requires n > 0
    ensures (q * n + b) % n == b % n
  {
    if q == 0 {
    } else {
      ModMultiple(q - 1, b, n);
      assert q * n + b == (q - 1) * n + b + n;
      ModStep((q - 1) * n + b, n);
    }
  }

  lemma {:induction false} ModStep(a: nat, n: nat)
    requires n > 0
    ensures (a + n) % n == a % n
  {
    var q, r := a / n, a % n;
    assert a + n == (q + 1) * n + r;
    DivUnique(a + n, n, q + 1, r);
  }

  lemma {:induction false} DivUnique(a: nat, n: nat, q: nat, r: nat)
    requires n > 0 && r < n && a == q * n + r
    ensures a % n == r
  {
    var q', r' := a / n, a % n;
    assert a == q' * n + r';
    Difference(q', q, n);
    if q' > q {
      AtLeastOnce(q' - q, n);
      assert false;
    } else if q' < q {
      AtLeastOnce(q - q', n);
      assert false;
    }
  }

  lemma {:induction false} Difference(p: nat, q: nat, n: nat)
    ensures (p - q) * n == p * n - q * n && (q - p) * n == q * n - p * n
  {
  }

  lemma {:induction false} AtLeastOnce(k: nat, n: nat)
    requires k > 0
    ensures k * n >= n
  {
  }

  /** The padded message is a whole number of blocks, with no fewer zeros possible. */
  lemma {:induction false} PadWhole(n: nat, field: bytes, message: bytes)
    requires n > 0
    ensures |Pad(n, field, message)| % n == 0
    ensures forall z: nat | z < ZeroCount(n, |field|, |message|) :: |message + [0x80] + Zeros(z) + field| % n != 0
  {
    var z := ZeroCount(n, |field|, |message|);
    var base := |message| + 1 + |field|;
    ZeroCountOf(n, |field|, |message|);
    if z > 0 {
      CeilMod(base, n);
      forall y: nat | y < z
        ensures |message + [0x80] + Zeros(y) + field| % n != 0
      {
        DivUnique(base + y, n, base / n, base % n + y);
      }
    }
  }

  lemma {:induction false} ZeroCountOf(n: nat, k: nat, len: nat)
    requires n > 0
    ensures var r := (len + 1 + k) % n;
            ZeroCount(n, k, len) == if r == 0 then 0 else n - r
  {
    var r := (len + 1 + k) % n;
    if r == 0 {
      DivUnique(n, n, 1, 0);
    } else {
      DivUnique(n - r, n, 0, n - r);
    }
  }

  lemma {:induction false} CeilMod(base: nat, n: nat)
    requires n > 0
    ensures (base + (n - base % n)) % n == 0
  {
    var q := base / n;
    assert base == q * n + base % n;
    assert (q + 1) * n == q * n + n;
    DivUnique(base + (n - base % n), n, q + 1, 0);
  }

  lemma {:induction false} AbsorbConcat<H>(f: (H, bytes) -> H, n: nat, h: H, a: bytes, b: bytes)
    requires n > 0 && |a| % n == 0
    ensures Absorb(f, n, h, a + b) == Absorb(f, n, Absorb(f, n, h, a), b)
    decreases |a|
  {
    if a == [] {
      assert a + b == b;
    } else {
      assert |a| >= n by {
        if |a| < n {
          DivUnique(|a|, n, 0, |a|);
        }
      }
      ModStep(|a| - n, n);
      assert (a + b)[..n] == a[..n] && (a + b)[n..] == a[n..] + b;
      AbsorbConcat(f, n, f(h, a[..n]), a[n..], b);
    }
  }

  /** Absorbing in two parts: the incomplete block left by the first part goes in front of the second. */
  lemma {:induction false} AbsorbSplit<H>(f: (H, bytes) -> H, n: nat, h: H, a: bytes, b: bytes)
    requires n > 0
    ensures Absorb(f, n, h, a + b) == Absorb(f, n, Absorb(f, n, h, a), Rest(n, a) + b)
    ensures Rest(n, a + b) == Rest(n, Rest(n, a) + b)
  {
    var whole := a[..|a| - |a| % n];
    var rest := Rest(n, a);
    assert a == whole + rest;
    WholeMod(|a|, n);
    AbsorbConcat(f, n, h, whole, rest);
    AbsorbShort(f, n, Absorb(f, n, h, whole), rest);
    AbsorbConcat(f, n, h, whole, rest + b);
    assert a + b == whole + (rest + b);
    RestConcat(n, whole, rest + b);
  }

  lemma {:induction false} RestConcat(n: nat, whole: bytes, b: bytes)
    requires n > 0 && |whole| % n == 0
    ensures Rest(n, whole + b) == Rest(n, b)
  {
    ModShift(|whole|, |b|, n);
    var k := |b| % n;
    TailOfConcat(whole, b, k);
  }

  lemma {:induction false} TailOfConcat(a: bytes, b: bytes, k: nat)
    requires k <= |b|
    ensures (a + b)[|a + b| - k..] == b[|b| - k..]
  {
  }

  lemma {:induction false} WholeMod(a: nat, n: nat)
    requires n > 0
    ensures (a - a % n) % n == 0
  {
    DivUnique(a - a % n, n, a / n, 0);
  }

  lemma {:induction false} AbsorbShort<H>(f: (H, bytes) -> H, n: nat, h: H, data: bytes)
    requires n > 0 && |data| < n
    ensures Absorb(f, n, h, data) == h
  {
  }

  /** One block off the front of what is pending. */
  lemma {:induction false} DropBlock<H>(f: (H, bytes) -> H, n: nat, h: H, pending: bytes)
    requires 0 < n <= |pending|
    ensures Rest(n, pending) == Rest(n, pending[n..])
    ensures Absorb(f, n, h, pending) == Absorb(f, n, f(h, pending[..n]), pending[n..])
  {
    assert pending == pending[..n] + pending[n..];
    DivUnique(n, n, 1, 0);
    RestConcat(n, pending[..n], pending[n..]);
  }

  lemma {:induction false} NoBlock<H>(f: (H, bytes) -> H, n: nat, h: H, pending: bytes)
    requires |pending| < n
    ensures Rest(n, pending) == pending
    ensures Absorb(f, n, h, pending) == h
  {
    DivUnique(|pending|, n, 0, |pending|);
  }

  lemma {:induction false} AbsorbOne<H>(f: (H, bytes) -> H, n: nat, h: H, data: bytes)
    requires n > 0 && |data| == n
    ensures Absorb(f, n, h, data) == f(h, data)
  {
    assert data[..n] == data;
  }

  /** The padding closes the incomplete block, in one block if the length field still fits and in two if not. */
  lemma {:induction false} AbsorbPadded<H>(f: (H, bytes) -> H, n: nat, h: H, field: bytes, message: bytes)
    requires |field| < n
    ensures var rest := Rest(n, message) + [0x80];
            var h' := Absorb(f, n, h, message);
            Absorb(f, n, h, Pad(n, field, message)) ==
            if |rest| + |field| <= n then f(h', rest + Zeros(n - |rest| - |field|) + field)
            else f(f(h', rest + Zeros(n - |rest|)), Zeros(n - |field|) + field)
  {
    var rest := Rest(n, message) + [0x80];
    var h' := Absorb(f, n, h, message);
    var z := ZeroCount(n, |field|, |message|);
    var closing := [0x80] + Zeros(z) + field;
    assert Pad(n, field, message) == message + closing;
    AbsorbSplit(f, n, h, message, closing);
    assert Rest(n, message) + closing == rest + Zeros(z) + field;
    RestZeroCount(n, |field|, |message|);
    if |rest| + |field| <= n {
      AbsorbOne(f, n, h', rest + Zeros(z) + field);
    } else {
      var first, second := rest + Zeros(n - |rest|), Zeros(n - |field|) + field;
      assert rest + Zeros(z) + field == first + second;
      DivUnique(n, n, 1, 0);
      AbsorbConcat(f, n, h', first, second);
      AbsorbOne(f, n, h', first);
      AbsorbOne(f, n, f(h', first), second);
    }
  }

  lemma {:induction false} RestZeroCount(n: nat, k: nat, len: nat)
    requires k < n
    ensures var r := len % n + 1;
            ZeroCount(n, k, len) == if r + k <= n then n - r - k else 2 * n - r - k
  {
    var q, r := len / n, len % n + 1;
    assert len == q * n + len % n;
    if r + k < n {
      DivUnique(len + 1 + k, n, q, r + k);
      DivUnique(n - (r + k), n, 0, n - (r + k));
    } else if r + k == n {
      DivUnique(len + 1 + k, n, q + 1, 0);
      DivUnique(n, n, 1, 0);
    } else {
      DivUnique(len + 1 + k, n, q + 1, r + k - n);
      DivUnique(2 * n - r - k, n, 0, 2 * n - r - k);
    }
  }

  function Joined(pieces: seq<bytes>): bytes {
    if pieces == [] then [] else pieces[0] + Joined(pieces[1..])
  }

  lemma {:induction false} JoinedPush(pieces: seq<bytes>, last: bytes)
    ensures Joined(pieces + [last]) == Joined(pieces) + last
  {
    if pieces == [] {
      assert pieces + [last] == [last];
      assert Joined([last]) == last + Joined([]);
    } else {
      assert (pieces + [last])[1..] == pieces[1..] + [last];
      JoinedPush(pieces[1..], last);
      assert pieces[0] + (Joined(pieces[1..]) + last) == (pieces[0] + Joined(pieces[1..])) + last;
    }
  }
}
