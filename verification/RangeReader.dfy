/**
 Reading a list of ranges of a chunk (cyfs-chunk-lib/src/chunk.rs, ChunkReadWithRanges): every poll
 drops empty ranges, seeks to the first one left and reads at most its length.
 */
module RangeReader {
  import opened ByteCodec

  datatype Range = Range(start: nat, end: nat)

  predicate IsEmpty(r: Range) {
    r.start >= r.end
  }

  /** What the underlying reader does when asked: `SeekMissed` is a seek that reports another position. */
  datatype Seek = SeekPending | SeekFailed | SeekMissed | SeekDone

  /** `ReadUpTo(n)` gives at most `n` bytes, and no more than were asked for or are left. */
  datatype Read = ReadPending | ReadFailed | ReadUpTo(n: nat)

  datatype Poll = Pending | Failed | Ready(size: nat)

  function Min(a: nat, b: nat): nat {
    if a < b then a else b
  }

  /** The bytes of a range that the chunk has. */
  function Bytes(data: bytes, r: Range): bytes {
    if IsEmpty(r) || r.start >= |data| then [] else data[r.start..Min(r.end, |data|)]
  }

  /** `size` bytes from `start` on. */
  function Slice(data: bytes, start: nat, size: nat): (s: bytes)
    requires size == 0 || start + size <= |data|
    ensures |s| == size
  {
    if size == 0 then [] else data[start..start + size]
  }

  /** The bytes of all ranges in turn. */
  function AllBytes(data: bytes, ranges: seq<Range>): bytes {
    if ranges == [] then [] else Bytes(data, ranges[0]) + AllBytes(data, ranges[1..])
  }

  // ----- one poll -----

  function SkipEmpty(ranges: seq<Range>): (r: seq<Range>)
    ensures r != [] ==> !IsEmpty(r[0])
  {
    if ranges != [] && IsEmpty(ranges[0]) then SkipEmpty(ranges[1..]) else ranges
  }

  function SizeRead(data: bytes, r: Range, len: nat, n: nat): (size: nat)
    requires !IsEmpty(r)
    ensures size <= len && size <= r.end - r.start
    ensures size == 0 || r.start + size <= |data|
  {
    if r.start >= |data| then 0 else Min(n, Min(Min(len, r.end - r.start), |data| - r.start))
  }

  function Advance(ranges: seq<Range>, size: nat): seq<Range>
    requires ranges != []
  {
    var r := Range(ranges[0].start + size, ranges[0].end);
    if IsEmpty(r) then ranges[1..] else ranges[0 := r]
  }

  /** The answer, the ranges left and the bytes delivered. */
  function Polled(data: bytes, ranges: seq<Range>, len: nat, seek: Seek, read: Read): (Poll, seq<Range>, bytes) {
    var left := SkipEmpty(ranges);
    if left == [] then (Ready(0), [], [])
    else if seek.SeekPending? then (Pending, left, [])
    else if !seek.SeekDone? then (Failed, left, [])
    else if read.ReadPending? then (Pending, left, [])
    else if read.ReadFailed? then (Failed, left, [])
    else
      var size := SizeRead(data, left[0], len, read.n);
      (Ready(size), Advance(left, size), Slice(data, left[0].start, size))
  }

  class ChunkReadWithRanges {
    const data: bytes
    var ranges: seq<Range>

    constructor (data: bytes, ranges: seq<Range>)
      ensures this.data == data && this.ranges == ranges
    {
      this.data := data;
      this.ranges := ranges;
    }

    method PollRead(buf: array<byte>, seek: Seek, read: Read) returns (poll: Poll)
      modifies this, buf
      ensures poll.Ready? ==> poll.size <= buf.Length
      ensures var n := if poll.Ready? then poll.size else 0;
              && (poll, ranges, buf[..n]) == Polled(data, old(ranges), buf.Length, seek, read)
              && buf[n..] == old(buf[n..])
    {
      while true
        modifies `ranges, buf
        invariant SkipEmpty(ranges) == SkipEmpty(old(ranges))
        invariant buf[..] == old(buf[..])
        decreases |ranges|
      {
        if |ranges| == 0 {
          return Ready(0);
        }
        var range := ranges[0];
        if IsEmpty(range) {
          ranges := ranges[1..];
          continue;
        }
        assert SkipEmpty(old(ranges)) == ranges;
        if seek.SeekPending? {
          return Pending;
        } else if !seek.SeekDone? {
          return Failed;
        }
        match read {
          case ReadPending => return Pending;
          case ReadFailed => return Failed;
          case ReadUpTo(n) =>
            hide SkipEmpty, SizeRead, Slice;
            var size := SizeRead(data, range, buf.Length, n);
            Fill(buf, range.start, size);
            range := range.(start := range.start + size);
            if IsEmpty(range) {
              ranges := ranges[1..];
            } else {
              ranges := ranges[0 := range];
            }
            return Ready(size);
        }
      }
    }

    /** The underlying reader: the bytes from `start` on go to the front of the buffer. */
    method Fill(buf: array<byte>, start: nat, size: nat)
      requires size <= buf.Length && (size == 0 || start + size <= |data|)
      modifies buf
      ensures buf[..size] == Slice(data, start, size)
      ensures buf[size..] == old(buf[size..])
    {
      for i := 0 to size
        invariant forall k | 0 <= k < i :: buf[k] == data[start + k]
        invariant buf[size..] == old(buf[size..])
      {
        buf[i] := data[start + i];
      }
    }
  }

  // ----- over any polls -----

  lemma {:induction false} SkipEmptyBytes(data: bytes, ranges: seq<Range>)
    ensures AllBytes(data, SkipEmpty(ranges)) == AllBytes(data, ranges)
  {
    if ranges == [] {
    } else if IsEmpty(ranges[0]) {
      SkipEmptyBytes(data, ranges[1..]);
    }
  }

  /** `k` is the first range that is not empty, or behind the last. */
  predicate FirstNonempty(ranges: seq<Range>, k: nat) {
    && k <= |ranges|
    && (k < |ranges| ==> ranges[k].start < ranges[k].end)
    && forall i | 0 <= i < k :: ranges[i].start >= ranges[i].end
  }

  lemma {:induction false} SkipsToFirst(ranges: seq<Range>, k: nat)
    requires FirstNonempty(ranges, k)
    ensures SkipEmpty(ranges) == ranges[k..]
  {
    if k == 0 {
    } else {
      SkipsToFirst(ranges[1..], k - 1);
      assert ranges[1..][k - 1..] == ranges[k..];
    }
  }

  /**
   The answer of one poll, from the first nonempty range and what the reader does: Pending if it waits,
   Failed if it fails or seeks astray, else as many bytes as the reader, the buffer, the range and the chunk
   all allow, by which the range then starts later.
   */
  lemma {:induction false} PollExactly(
    data: bytes, ranges: seq<Range>, len: nat, seek: Seek, read: Read, k: nat, m: nat)
    requires FirstNonempty(ranges, k)
    ensures var (poll, left, out) := Polled(data, ranges, len, seek, read);
            && (poll == Pending <==> k < |ranges| && (seek == SeekPending || (seek == SeekDone && read == ReadPending)))
            && (poll == Failed <==>
                  k < |ranges| && (seek == SeekFailed || seek == SeekMissed || (seek == SeekDone && read == ReadFailed)))
            && (k == |ranges| ==> poll == Ready(0))
            && (!poll.Ready? || k == |ranges| ==> left == ranges[k..] && out == [])
            && (poll.Ready? && k < |ranges| ==>
                  var r := ranges[k];
                  && (m <= poll.size <==>
                        m <= read.n && m <= len && m <= r.end - r.start && (m == 0 || r.start + m <= |data|))
                  && left == (if r.start + poll.size == r.end then [] else [Range(r.start + poll.size, r.end)]) + ranges[k + 1..])
  {
    SkipsToFirst(ranges, k);
    hide SkipEmpty;
    if k < |ranges| && seek.SeekDone? && read.ReadUpTo? {
      var size := SizeRead(data, ranges[k], len, read.n);
      assert ranges[k..][1..] == ranges[k + 1..];
      if ranges[k].start + size < ranges[k].end {
        var r := Range(ranges[k].start + size, ranges[k].end);
        assert ranges[k..][0 := r] == [r] + ranges[k + 1..];
      }
    }
  }

  /** What one poll delivers is taken off the front of what was left, whatever the reader does. */
  lemma {:induction false} PolledBytes(data: bytes, ranges: seq<Range>, len: nat, seek: Seek, read: Read)
    ensures var (poll, left, out) := Polled(data, ranges, len, seek, read);
            && out + AllBytes(data, left) == AllBytes(data, ranges)
            && |out| == (if poll.Ready? then poll.size else 0) <= len
  {
    SkipEmptyBytes(data, ranges);
    assert AllBytes(data, []) == [];
    hide SkipEmpty, AllBytes, Advance, Slice;
    var left := SkipEmpty(ranges);
    if left != [] && seek.SeekDone? && read.ReadUpTo? {
      var size := SizeRead(data, left[0], len, read.n);
      AdvanceBytes(data, left, size);
    }
  }

  lemma {:induction false} RangeSplits(data: bytes, r: Range, size: nat)
    requires !IsEmpty(r) && (size == 0 || size <= Min(r.end, |data|) - r.start)
    ensures Bytes(data, r) == Slice(data, r.start, size) + Bytes(data, Range(r.start + size, r.end))
  {
  }

  lemma {:induction false} AdvanceBytes(data: bytes, ranges: seq<Range>, size: nat)
    requires ranges != [] && !IsEmpty(ranges[0])
    requires size == 0 || size <= Min(ranges[0].end, |data|) - ranges[0].start
    ensures Slice(data, ranges[0].start, size) + AllBytes(data, Advance(ranges, size)) == AllBytes(data, ranges)
  {
    var r := ranges[0];
    var r' := Range(r.start + size, r.end);
    hide Bytes, Slice, AllBytes, Advance;
    RangeSplits(data, r, size);
    Regroup(Slice(data, r.start, size), Bytes(data, r'), AllBytes(data, ranges[1..]));
    assert AllBytes(data, Advance(ranges, size)) == Bytes(data, r') + AllBytes(data, ranges[1..]) by {
      AdvanceKeepsRest(data, ranges, size);
    }
    FirstBytes(data, ranges);
  }

  lemma {:induction false} AdvanceKeepsRest(data: bytes, ranges: seq<Range>, size: nat)
    requires ranges != []
    ensures AllBytes(data, Advance(ranges, size)) ==
            Bytes(data, Range(ranges[0].start + size, ranges[0].end)) + AllBytes(data, ranges[1..])
  {
    var r' := Range(ranges[0].start + size, ranges[0].end);
    assert ranges[0 := r'][1..] == ranges[1..];
  }

  lemma {:induction false} Regroup(out: bytes, left: bytes, rest: bytes)
    ensures out + (left + rest) == (out + left) + rest
  {
  }

  lemma {:induction false} FirstBytes(data: bytes, ranges: seq<Range>)
    requires ranges != []
    ensures AllBytes(data, ranges) == Bytes(data, ranges[0]) + AllBytes(data, ranges[1..])
  {
    hide Bytes;
  }

  /** One poll as its caller and the reader decide it. */
  datatype Request = Request(len: nat, seek: Seek, read: Read)

  /** The ranges left and the bytes delivered after a sequence of polls. */
  function PolledAll(data: bytes, ranges: seq<Range>, polls: seq<Request>): (seq<Range>, bytes)
    decreases |polls|
  {
    if polls == [] then (ranges, [])
    else
      var p := polls[0];
      var (_, left, out) := Polled(data, ranges, p.len, p.seek, p.read);
      var (end, more) := PolledAll(data, left, polls[1..]);
      (end, out + more)
  }

  /**
   Over any polls, with any buffer sizes, short reads, failures and Pending answers, the bytes
   delivered followed by those of the ranges left are the bytes of the original ranges in order.
   */
  lemma {:induction false} DeliversInOrder(data: bytes, ranges: seq<Range>, polls: seq<Request>)
    ensures PolledAll(data, ranges, polls).1 + AllBytes(data, PolledAll(data, ranges, polls).0) == AllBytes(data, ranges)
    decreases |polls|
  {
    hide Polled, AllBytes;
    if polls == [] {
    } else {
      var p := polls[0];
      var polled := Polled(data, ranges, p.len, p.seek, p.read);
      PolledBytes(data, ranges, p.len, p.seek, p.read);
      DeliversInOrder(data, polled.1, polls[1..]);
      var rest := PolledAll(data, polled.1, polls[1..]);
      assert PolledAll(data, ranges, polls) == (rest.0, polled.2 + rest.1);
      Regroup(polled.2, rest.1, AllBytes(data, rest.0));
    }
  }

  /** A poll that has room and a reader that gives at least a byte when it has one. */
  predicate Progressing(p: Request) {
    p.len > 0 && p.seek.SeekDone? && p.read.ReadUpTo? && p.read.n > 0
  }

  /** A progressing poll delivers nothing exactly when it stands at a range that starts past the end, or at none. */
  lemma {:induction false} NothingExactly(data: bytes, ranges: seq<Range>, p: Request)
    requires Progressing(p)
    ensures Polled(data, ranges, p.len, p.seek, p.read).2 == [] <==>
            SkipEmpty(ranges) == [] || SkipEmpty(ranges)[0].start >= |data|
  {
  }

  // ----- how far the reader gets -----

  /** A range that ends past the chunk is never finished, and the ranges after it are never looked at. */
  predicate Overlong(data: bytes, r: Range) {
    !IsEmpty(r) && r.end > |data|
  }

  /** The bytes of the ranges up to and including the first overlong one. */
  function Reach(data: bytes, ranges: seq<Range>): bytes {
    if ranges == [] then []
    else if Overlong(data, ranges[0]) then Bytes(data, ranges[0])
    else Bytes(data, ranges[0]) + Reach(data, ranges[1..])
  }

  lemma {:induction false} SkipEmptyReach(data: bytes, ranges: seq<Range>)
    ensures Reach(data, SkipEmpty(ranges)) == Reach(data, ranges)
  {
    if ranges == [] {
    } else if IsEmpty(ranges[0]) {
      SkipEmptyReach(data, ranges[1..]);
    }
  }

  lemma {:induction false} AdvanceReach(data: bytes, ranges: seq<Range>, size: nat)
    requires ranges != [] && !IsEmpty(ranges[0])
    requires size == 0 || size <= Min(ranges[0].end, |data|) - ranges[0].start
    ensures Slice(data, ranges[0].start, size) + Reach(data, Advance(ranges, size)) == Reach(data, ranges)
  {
    var r := ranges[0];
    var r' := Range(r.start + size, r.end);
    RangeSplits(data, r, size);
    AdvanceKeepsReach(data, ranges, size);
    hide Bytes, Slice, Advance, Reach;
    FirstReach(data, ranges);
    Regroup(Slice(data, r.start, size), Bytes(data, r'), Reach(data, ranges[1..]));
  }

  lemma {:induction false} FirstReach(data: bytes, ranges: seq<Range>)
    requires ranges != []
    ensures Reach(data, ranges) ==
            if Overlong(data, ranges[0]) then Bytes(data, ranges[0])
            else Bytes(data, ranges[0]) + Reach(data, ranges[1..])
  {
    hide Bytes;
  }

  lemma {:induction false} AdvanceKeepsReach(data: bytes, ranges: seq<Range>, size: nat)
    requires ranges != [] && !IsEmpty(ranges[0])
    requires size == 0 || size <= Min(ranges[0].end, |data|) - ranges[0].start
    ensures Reach(data, Advance(ranges, size)) ==
            var r' := Range(ranges[0].start + size, ranges[0].end);
            if Overlong(data, ranges[0]) then Bytes(data, r') else Bytes(data, r') + Reach(data, ranges[1..])
  {
    var r' := Range(ranges[0].start + size, ranges[0].end);
    assert ranges[0 := r'][1..] == ranges[1..];
  }

  /** A poll takes what it delivers off the front of what is within reach, and a progressing one takes something. */
  lemma {:induction false} PolledReach(data: bytes, ranges: seq<Range>, p: Request)
    ensures var polled := Polled(data, ranges, p.len, p.seek, p.read);
            && polled.2 + Reach(data, polled.1) == Reach(data, ranges)
            && (Progressing(p) ==> polled.2 != [] || Reach(data, ranges) == [])
  {
    SkipEmptyReach(data, ranges);
    var left := SkipEmpty(ranges);
    if left == [] {
      assert Reach(data, []) == [];
    } else if p.seek.SeekDone? && p.read.ReadUpTo? {
      var size := SizeRead(data, left[0], p.len, p.read.n);
      AdvanceReach(data, left, size);
      if Progressing(p) && size == 0 {
        assert left[0].start >= |data|;
        PastEndReach(data, left);
      }
    }
  }

  lemma {:induction false} PastEndReach(data: bytes, ranges: seq<Range>)
    requires ranges != [] && !IsEmpty(ranges[0]) && ranges[0].start >= |data|
    ensures Reach(data, ranges) == []
  {
  }

  function ProgressCount(polls: seq<Request>): nat {
    if polls == [] then 0 else (if Progressing(polls[0]) then 1 else 0) + ProgressCount(polls[1..])
  }

  /**
   Whatever the ranges, and whatever polls come in between, what is delivered is a prefix of what is within
   reach, and as many progressing polls as that has bytes deliver all of it.
   */
  lemma {:induction false} DeliversReach(data: bytes, ranges: seq<Range>, polls: seq<Request>)
    ensures PolledAll(data, ranges, polls).1 <= Reach(data, ranges)
    ensures ProgressCount(polls) >= |Reach(data, ranges)| ==> PolledAll(data, ranges, polls).1 == Reach(data, ranges)
    decreases |polls|
  {
    hide Polled, Reach, Progressing;
    if polls == [] {
    } else {
      var p := polls[0];
      var polled := Polled(data, ranges, p.len, p.seek, p.read);
      PolledReach(data, ranges, p);
      DeliversReach(data, polled.1, polls[1..]);
      var rest := PolledAll(data, polled.1, polls[1..]);
      assert PolledAll(data, ranges, polls) == (rest.0, polled.2 + rest.1);
      PrefixAfter(polled.2, rest.1, Reach(data, polled.1));
    }
  }

  lemma {:induction false} PrefixAfter(out: bytes, got: bytes, all: bytes)
    requires got <= all
    ensures out + got <= out + all
  {
  }

  /** An overlong range stands before a range that has bytes. */
  ghost predicate Blocked(data: bytes, ranges: seq<Range>) {
    exists i, j | 0 <= i < j < |ranges| :: Overlong(data, ranges[i]) && Bytes(data, ranges[j]) != []
  }

  lemma {:induction false} ReachExactly(data: bytes, ranges: seq<Range>)
    ensures Reach(data, ranges) == AllBytes(data, ranges) <==> !Blocked(data, ranges)
    ensures |Reach(data, ranges)| <= |AllBytes(data, ranges)|
  {
    hide Bytes, Overlong;
    if ranges == [] {
    } else {
      var first, rest := ranges[0], ranges[1..];
      ReachExactly(data, rest);
      BlockedSplits(data, ranges);
      if Overlong(data, first) {
        NoBytesExactly(data, rest);
      } else {
        Cancel(Bytes(data, first), Reach(data, rest), AllBytes(data, rest));
      }
    }
  }

  lemma {:induction false} Cancel(a: bytes, b: bytes, c: bytes)
    ensures a + b == a + c <==> b == c
  {
    if a + b == a + c {
      assert b == (a + b)[|a|..] == (a + c)[|a|..] == c;
    }
  }

  lemma {:induction false} NoBytesExactly(data: bytes, ranges: seq<Range>)
    ensures AllBytes(data, ranges) == [] <==> forall j | 0 <= j < |ranges| :: Bytes(data, ranges[j]) == []
  {
    hide Bytes;
    if ranges == [] {
    } else {
      NoBytesExactly(data, ranges[1..]);
      assert forall j | 1 <= j < |ranges| :: ranges[j] == ranges[1..][j - 1];
    }
  }

  lemma {:induction false} BlockedSplits(data: bytes, ranges: seq<Range>)
    requires ranges != []
    ensures Blocked(data, ranges) <==>
            || Blocked(data, ranges[1..])
            || (Overlong(data, ranges[0]) && exists j | 0 <= j < |ranges[1..]| :: Bytes(data, ranges[1..][j]) != [])
  {
    hide Bytes, Overlong;
    var rest := ranges[1..];
    if i, j :| 0 <= i < j < |ranges| && Overlong(data, ranges[i]) && Bytes(data, ranges[j]) != [] {
      assert rest[j - 1] == ranges[j];
      assert i > 0 ==> rest[i - 1] == ranges[i];
    }
    if i, j :| 0 <= i < j < |rest| && Overlong(data, rest[i]) && Bytes(data, rest[j]) != [] {
      assert ranges[i + 1] == rest[i] && ranges[j + 1] == rest[j];
    }
    if j :| 0 <= j < |rest| && Bytes(data, rest[j]) != [] && Overlong(data, ranges[0]) {
      assert ranges[j + 1] == rest[j];
    }
  }

  /** Polls that progress often enough deliver all bytes exactly when no overlong range stands before one that has bytes. */
  lemma {:induction false} ExhaustsExactly(data: bytes, ranges: seq<Range>, polls: seq<Request>)
    requires ProgressCount(polls) >= |AllBytes(data, ranges)|
    ensures PolledAll(data, ranges, polls).1 == AllBytes(data, ranges) <==> !Blocked(data, ranges)
  {
    ReachExactly(data, ranges);
    DeliversReach(data, ranges, polls);
  }
}
