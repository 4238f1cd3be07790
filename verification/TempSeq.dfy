/**
 Sequence numbers that wrap around (cyfs-bdt/src/types.rs): zero is reserved, and two numbers more
 than half the range apart compare the other way round.
 */
module TempSeq {

  const RANGE := 0x1_0000_0000
  const HALF := 0x8000_0000

  type u32 = x: int | 0 <= x < 0x1_0000_0000

  datatype Ordering = Less | Equal | Greater

  function Plain(a: int, b: int): Ordering {
    if a < b then Less else if a == b then Equal else Greater
  }

  /** partial_cmp */
  function Compare(a: u32, b: u32): Ordering {
    if a == 0 || b == 0 then Plain(a, b)
    else if (if a > b then a - b else b - a) > (RANGE - 1) / 2 then (if a > b then Less else Greater)
    else Plain(a, b)
  }

  /** The value of a counter that has been counted up to `ticket` without wrapping. */
  function Value(ticket: nat): u32 {
    ticket % RANGE
  }

  // ----- the order -----

  /**
   Among nonzero numbers less than half the range above some base, the comparison is that of their
   distances from the base: a total order, whether or not the range wraps between them.
   */
  lemma {:induction false} WindowOrder(base: nat, i: nat, j: nat)
    requires i < HALF && j < HALF
    requires Value(base + i) != 0 && Value(base + j) != 0
    ensures Compare(Value(base + i), Value(base + j)) == Plain(i, j)
  {
    Split(base, i);
    Split(base, j);
  }

  lemma {:induction false} Split(base: nat, i: nat)
    requires i < RANGE
    ensures Value(base + i) == if base % RANGE + i < RANGE then base % RANGE + i else base % RANGE + i - RANGE
  {
    assert base == base / RANGE * RANGE + base % RANGE;
    if base % RANGE + i < RANGE {
      Remainder(base / RANGE, base % RANGE + i);
    } else {
      Remainder(base / RANGE + 1, base % RANGE + i - RANGE);
    }
  }

  lemma {:induction false} Remainder(q: nat, r: nat)
    requires r < RANGE
    ensures (q * RANGE + r) % RANGE == r
  {
  }

  /** Generation order is seen exactly up to half the range, and at half the range only across the wrap. */
  lemma {:induction false} LaterIsGreaterExactly(ticket: nat, d: nat)
    requires 0 < d < RANGE && Value(ticket) != 0 && Value(ticket + d) != 0
    ensures Compare(Value(ticket), Value(ticket + d)) == Less <==>
            d < HALF || (d == HALF && Value(ticket) >= HALF)
  {
    Split(ticket, 0);
    Split(ticket, d);
  }

  /**
   For all pairs: zero is below every other number and compares as usual; of two others the one that is
   reached from the other in less than half the range is greater, and at exactly half the smaller one is.
   */
  lemma {:induction false} CompareExactly(a: u32, b: u32)
    ensures Compare(a, b) == Equal <==> a == b
    ensures Compare(a, b) == Less <==> Compare(b, a) == Greater
    ensures a == 0 && b != 0 ==> Compare(a, b) == Less
    ensures a != 0 && b != 0 ==>
              (Compare(a, b) == Less <==> 0 < (b - a) % RANGE < HALF || ((b - a) % RANGE == HALF && b < a))
  {
    assert (b - a) % RANGE == if b >= a then b - a else b - a + RANGE by {
      Remainder(0, if b >= a then b - a else b - a + RANGE);
    }
  }

  lemma {:induction false} WindowTransitive(base: nat, i: nat, j: nat, k: nat)
    requires i < HALF && j < HALF && k < HALF
    requires Value(base + i) != 0 && Value(base + j) != 0 && Value(base + k) != 0
    requires Compare(Value(base + i), Value(base + j)) == Less && Compare(Value(base + j), Value(base + k)) == Less
    ensures Compare(Value(base + i), Value(base + k)) == Less
  {
    WindowOrder(base, i, j);
    WindowOrder(base, j, k);
    WindowOrder(base, i, k);
  }

  /**
   Of three numbers that compare as rising, one after the other, the first compares as less than the
   third exactly when the two steps together stay within half the range, or make half of it across the
   wrap. Otherwise the comparison goes round in a circle.
   */
  lemma {:induction false} TransitiveExactly(ticket: nat, d: nat, e: nat)
    requires 0 < d < RANGE && 0 < e < RANGE
    requires Value(ticket) != 0 && Value(ticket + d) != 0 && Value(ticket + d + e) != 0
    requires Compare(Value(ticket), Value(ticket + d)) == Less
    requires Compare(Value(ticket + d), Value(ticket + d + e)) == Less
    ensures Compare(Value(ticket), Value(ticket + d + e)) ==
            if d + e < HALF || (d + e == HALF && Value(ticket) >= HALF) then Less else Greater
  {
    LaterIsGreaterExactly(ticket, d);
    LaterIsGreaterExactly(ticket + d, e);
    Split(ticket, d);
    Split(ticket + d, e);
    hide Value;
    LaterIsGreaterExactly(ticket, d + e);
  }

  // ----- the generator -----

  /** The ticket a call takes when the counter stands at `ticket`: the next one if that is zero. */
  function Taken(ticket: nat): nat {
    if Value(ticket) == 0 then ticket + 1 else ticket
  }

  /** The tickets of `n` calls. */
  function Tickets(ticket: nat, n: nat): seq<nat>
    decreases n
  {
    if n == 0 then [] else [Taken(ticket)] + Tickets(Taken(ticket) + 1, n - 1)
  }

  class TempSeqGenerator {
    var cur: u32
    ghost var ticket: nat

    ghost predicate Valid()
      reads this
    {
      cur == Value(ticket)
    }

    constructor From(init: u32)
      ensures Valid() && cur == init && ticket == init
    {
      cur := init;
      ticket := init;
    }

    method FetchAdd() returns (v: u32)
      requires Valid()
      modifies this
      ensures Valid() && v == old(cur) && ticket == old(ticket) + 1
    {
      v := cur;
      cur := (cur + 1) % RANGE;
      ticket := ticket + 1;
      Split(old(ticket), 1);
    }

    method Generate() returns (v: u32)
      requires Valid()
      modifies this
      ensures Valid() && v != 0
      ensures v == Value(Taken(old(ticket))) && ticket == Taken(old(ticket)) + 1
    {
      v := FetchAdd();
      if v == 0 {
        Split(old(ticket), 1);
        v := FetchAdd();
      }
    }
  }

  lemma {:induction false} TicketsRise(ticket: nat, n: nat)
    ensures |Tickets(ticket, n)| == n
    ensures forall i | 0 <= i < n :: ticket <= Tickets(ticket, n)[i] && Value(Tickets(ticket, n)[i]) != 0
    ensures forall i, j | 0 <= i < j < n :: Tickets(ticket, n)[i] < Tickets(ticket, n)[j]
    decreases n
  {
    if n == 0 {
    } else {
      TicketsRise(Taken(ticket) + 1, n - 1);
      Split(ticket, 1);
    }
  }

  /** No number but zero is left out. */
  lemma {:induction false} TicketsComplete(ticket: nat, n: nat, t: nat)
    requires n > 0 && ticket <= t && Value(t) != 0
    requires |Tickets(ticket, n)| == n && t <= Tickets(ticket, n)[n - 1]
    ensures t in Tickets(ticket, n)
    decreases n
  {
    if t == Taken(ticket) {
    } else {
      assert t > Taken(ticket);
      TicketsRise(Taken(ticket) + 1, n - 1);
      TicketsComplete(Taken(ticket) + 1, n - 1, t);
    }
  }

  /**
   The numbers of any run of calls are nonzero, and any two that are less than half the range of
   the counter apart compare in the order they were generated.
   */
  lemma {:induction false} GenerationOrder(ticket: nat, n: nat, i: nat, j: nat)
    requires i < j < n && |Tickets(ticket, n)| == n
    requires Tickets(ticket, n)[j] - Tickets(ticket, n)[i] < HALF
    ensures Value(Tickets(ticket, n)[i]) != 0 && Value(Tickets(ticket, n)[j]) != 0
    ensures Compare(Value(Tickets(ticket, n)[i]), Value(Tickets(ticket, n)[j])) == Less
    ensures Compare(Value(Tickets(ticket, n)[j]), Value(Tickets(ticket, n)[i])) == Greater
  {
    TicketsRise(ticket, n);
    var a, b := Tickets(ticket, n)[i], Tickets(ticket, n)[j];
    WindowOrder(a, 0, b - a);
    WindowOrder(a, b - a, 0);
  }

  // ----- interleaved callers -----

  /**
   The order in which calls increment the counter, `calls[i]` taking ticket `base + i`: a call increments
   once, or a second time after a first ticket of value zero, with any other calls in between.
   */
  ghost predicate Interleaved(base: nat, calls: seq<nat>) {
    && (forall i, j | 0 <= i < j < |calls| && calls[i] == calls[j] :: Value(base + i) == 0)
    && (forall i, j, k | 0 <= i < j < k < |calls| && calls[i] == calls[j] :: calls[j] != calls[k])
  }

  /** A call returns the value of its second ticket, or of a first one that is not zero. */
  ghost predicate Returns(base: nat, calls: seq<nat>, i: nat) {
    i < |calls| && (Value(base + i) != 0 || exists j | 0 <= j < i :: calls[j] == calls[i])
  }

  lemma {:induction false} DistinctBelow(s: seq<nat>, n: nat)
    requires forall i | 0 <= i < |s| :: s[i] < n
    requires forall i, j | 0 <= i < j < |s| :: s[i] != s[j]
    ensures |s| <= n
  {
    ElementsCount(s);
    var all := set i | 0 <= i < |s| :: s[i];
    assert all <= Below(n);
    assert Below(n) == all + (Below(n) - all);
  }

  function Below(n: nat): (all: set<nat>)
    ensures forall x: nat :: x in all <==> x < n
    ensures |all| == n
  {
    if n == 0 then {} else Below(n - 1) + {n - 1}
  }

  lemma {:induction false} ElementsCount(s: seq<nat>)
    requires forall i, j | 0 <= i < j < |s| :: s[i] != s[j]
    ensures |set i | 0 <= i < |s| :: s[i]| == |s|
  {
    if s == [] {
    } else {
      var n := |s| - 1;
      ElementsCount(s[..n]);
      var before := set i | 0 <= i < n :: s[..n][i];
      assert s[n] !in before;
      assert (set i | 0 <= i < |s| :: s[i]) == before + {s[n]};
    }
  }

  /** A second ticket of value zero comes a whole range after the first, past as many calls less one. */
  lemma {:induction false} ZeroTakesRange(base: nat, calls: seq<nat>, j: nat, i: nat)
    requires Interleaved(base, calls) && j < i < |calls| && calls[j] == calls[i] && Value(base + i) == 0
    ensures j + RANGE <= i
    ensures forall k, l | j <= k < l < j + RANGE :: calls[k] != calls[l]
  {
    assert Value(base + j) == 0;
    if i < j + RANGE {
      Split(base + j, i - j);
    }
    forall k, l | j <= k < l < j + RANGE
      ensures calls[k] != calls[l]
    {
      if k > j {
        Split(base + j, k - j);
      }
    }
  }

  /** With fewer than 2^32 calls no interleaving of them returns zero. */
  lemma {:induction false} InterleavedNonzero(base: nat, calls: seq<nat>, n: nat, i: nat)
    requires Interleaved(base, calls) && Returns(base, calls, i)
    requires (forall k | 0 <= k < |calls| :: calls[k] < n) && n < RANGE
    ensures Value(base + i) != 0
  {
    if Value(base + i) == 0 {
      var j :| 0 <= j < i && calls[j] == calls[i];
      ZeroTakesRange(base, calls, j, i);
      DistinctBelow(calls[j..j + RANGE], n);
    }
  }

  /** With 2^32 calls one of them does. */
  lemma {:induction false} ZeroReturned()
    ensures exists base: nat, calls: seq<nat>, i: nat ::
              && Interleaved(base, calls) && Returns(base, calls, i) && Value(base + i) == 0
              && forall k | 0 <= k < |calls| :: calls[k] < RANGE
  {
    var calls: seq<nat> := seq(RANGE + 1, i => if i == RANGE then 0 else i);
    assert calls[0] == calls[RANGE] == 0;
    assert Interleaved(0, calls) && Returns(0, calls, RANGE) && Value(0 + RANGE) == 0;
  }

  /**
   Any two values that interleaved calls return within half the range of the counter are nonzero and
   compare in the order in which the returning increments took place.
   */
  lemma {:induction false} InterleavedOrder(base: nat, calls: seq<nat>, n: nat, i: nat, j: nat)
    requires Interleaved(base, calls) && Returns(base, calls, i) && Returns(base, calls, j)
    requires (forall k | 0 <= k < |calls| :: calls[k] < n) && n < RANGE
    requires i < j < i + HALF
    ensures Value(base + i) != 0 && Value(base + j) != 0
    ensures Compare(Value(base + i), Value(base + j)) == Less
  {
    InterleavedNonzero(base, calls, n, i);
    InterleavedNonzero(base, calls, n, j);
    WindowOrder(base + i, 0, j - i);
  }
}
