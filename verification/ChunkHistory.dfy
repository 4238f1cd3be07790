/**
 The recorded history of disk lists and the weight a rescan gives each disk
 (cyfs-chunk-cache/src/local_chunk_cache.rs, LocalChunkCacheMeta and refresh_cache).
 */
module ChunkHistory {
  import opened ChunkPlacement
  import opened Options

  type Hash = nat

  datatype Record = Record(prevHash: Option<Hash>, list: seq<Disk>)

  type Meta = seq<Record>

  type RecordHash = Record -> Hash

  // ----- records -----

  /** Two lists of one length where each disk of the first, with its weight, is in the second. */
  predicate IsSame(list: seq<Disk>, disks: seq<Disk>) {
    |list| == |disks| && forall i | 0 <= i < |list| :: list[i] in disks
  }

  method CheckSame(list: seq<Disk>, disks: seq<Disk>) returns (same: bool)
    ensures same == IsSame(list, disks)
  {
    if |list| != |disks| {
      return false;
    }
    for i := 0 to |list|
      invariant forall k | 0 <= k < i :: list[k] in disks
    {
      var find := false;
      for j := 0 to |disks|
        invariant find <==> list[i] in disks[..j]
      {
        if disks[j].path == list[i].path && disks[j].weight == list[i].weight {
          find := true;
          assert list[i] == disks[j];
          break;
        }
      }
      if !find {
        assert disks[..|disks|] == disks;
        return false;
      }
    }
    return true;
  }

  function WeightOf(list: seq<Disk>, path: Path): Option<nat> {
    if list == [] then None
    else if list[0].path == path then Some(list[0].weight)
    else WeightOf(list[1..], path)
  }

  method GetWeight(list: seq<Disk>, path: Path) returns (weight: Option<nat>)
    ensures weight == WeightOf(list, path)
  {
    for i := 0 to |list|
      invariant WeightOf(list, path) == WeightOf(list[i..], path)
    {
      if list[i].path == path {
        return Some(list[i].weight);
      }
      assert list[i..][1..] == list[i + 1..];
    }
    return None;
  }

  predicate IsLatest(meta: Meta, disks: seq<Disk>) {
    meta != [] && IsSame(meta[|meta| - 1].list, disks)
  }

  function AddRecord(h: RecordHash, meta: Meta, disks: seq<Disk>): Meta {
    meta + [Record(if meta == [] then None else Some(h(meta[|meta| - 1])), disks)]
  }

  predicate DistinctPaths(disks: seq<Disk>) {
    forall i, j | 0 <= i < j < |disks| :: disks[i].path != disks[j].path
  }

  predicate ListOk(disks: seq<Disk>) {
    DistinctPaths(disks) && forall i | 0 <= i < |disks| :: 2 <= disks[i].weight < U32
  }

  predicate Linked(h: RecordHash, meta: Meta, i: nat)
    requires i < |meta|
  {
    meta[i].prevHash == if i == 0 then None else Some(h(meta[i - 1]))
  }

  /** Each record names its predecessor by hash; its disks are distinct and weigh at least 2. */
  predicate MetaOk(h: RecordHash, meta: Meta) {
    && (forall i | 0 <= i < |meta| :: ListOk(meta[i].list))
    && (forall i | 0 <= i < |meta| :: Linked(h, meta, i))
  }

  lemma {:induction false} AddRecordOk(h: RecordHash, meta: Meta, disks: seq<Disk>)
    requires MetaOk(h, meta) && ListOk(disks)
    ensures MetaOk(h, AddRecord(h, meta, disks))
  {
    hide ListOk;
    var more := AddRecord(h, meta, disks);
    forall i | 0 <= i < |more|
      ensures ListOk(more[i].list)
      ensures Linked(h, more, i)
    {
      assert i < |meta| ==> Linked(h, meta, i);
      assert i < |meta| ==> more[i] == meta[i];
      assert i > 0 ==> more[i - 1] == meta[i - 1];
    }
  }

  lemma {:induction false} WeightOfAt(list: seq<Disk>, i: nat)
    requires DistinctPaths(list) && i < |list|
    ensures WeightOf(list, list[i].path) == Some(list[i].weight)
  {
    if i == 0 {
    } else {
      WeightOfAt(list[1..], i - 1);
    }
  }

  lemma {:induction false} WeightOfFound(list: seq<Disk>, path: Path)
    requires WeightOf(list, path).Some?
    ensures Disk(path, WeightOf(list, path).value) in list
  {
    if list[0].path == path {
    } else {
      WeightOfFound(list[1..], path);
      assert forall d | d in list[1..] :: d in list;
    }
  }

  /** With distinct paths the check is equality up to order. */
  lemma {:induction false} IsSameExactly(list: seq<Disk>, disks: seq<Disk>)
    requires DistinctPaths(list) && DistinctPaths(disks)
    ensures IsSame(list, disks) <==> SameDisks(list, disks)
  {
    DisksCount(list);
    DisksCount(disks);
    var a, b := set d | d in list, set d | d in disks;
    if IsSame(list, disks) {
      assert a <= b;
      SubsetOfSameSize(a, b);
      assert SameDisks(list, disks) by {
        forall d
          ensures d in list <==> d in disks
        {
          assert d in a <==> d in b;
        }
      }
    }
    if SameDisks(list, disks) {
      assert a == b;
    }
  }

  lemma {:induction false} DisksCount(list: seq<Disk>)
    requires DistinctPaths(list)
    ensures |set d | d in list| == |list|
  {
    if list == [] {
    } else {
      DisksCount(list[1..]);
      assert (set d | d in list) == {list[0]} + set d | d in list[1..];
    }
  }

  lemma {:induction false} SubsetOfSameSize(a: set<Disk>, b: set<Disk>)
    requires a <= b && |a| == |b|
    ensures a == b
  {
    assert b == a + (b - a);
  }

  // ----- a rescan -----

  const U32 := 0x1_0000_0000
  const GIB := 0x4000_0000

  /** A disk as the scanner finds it: its free space and what the cache has stored on it, in bytes. */
  datatype Mount = Mount(path: Path, space: nat, used: nat)

  /** Whole GiB, cast to 32 bits. */
  function Gib(bytes: nat): nat {
    bytes / GIB % U32
  }

  function Add32(a: nat, b: nat): nat {
    (a + b) % U32
  }

  function Sub32(a: nat, b: nat): nat {
    (a + U32 - b % U32) % U32
  }

  function Abs(x: real): real {
    if x < 0.0 then -x else x
  }

  predicate GrownLittle(grown: nat, lw: nat)
    requires lw > 0
  {
    grown as real / lw as real < 0.2 || grown < 50
  }

  predicate Roomy(w: nat, lw: nat)
    requires lw > 0
  {
    w > 10 || w as real / lw as real > 0.1
  }

  predicate AsExpected(w: nat, lw: nat, ps: nat)
    requires w > 0
  {
    Abs(1.0 - Sub32(lw, ps) as real / w as real) < 0.15 || -5 < lw - ps - w < 5
  }

  /** The hysteresis: free weight `w`, recorded weight `lw`, size `ps` of what is stored. */
  function Reweigh(w: nat, lw: nat, ps: nat): nat
    requires w > 0 && lw > 0
  {
    if w > lw then (if GrownLittle(Sub32(Add32(w, ps), lw), lw) then lw else Add32(w, ps))
    else if Roomy(w, lw) || AsExpected(w, lw, ps) then lw
    else Add32(ps, w)
  }

  /** No cast or sum of the rescan leaves 32 bits: under two EiB free and under two EiB stored. */
  predicate Fits(m: Mount) {
    m.space < 0x2000_0000_0000_0000 && m.used < 0x2000_0000_0000_0000
  }

  lemma {:induction false} ReweighKeepsOrSums(w: nat, lw: nat, ps: nat)
    requires w > 0 && lw > 0 && w + ps < U32
    ensures Reweigh(w, lw, ps) == lw || Reweigh(w, lw, ps) == w + ps
  {
    hide Sub32, GrownLittle, Roomy, AsExpected;
  }

  /**
   The recorded weight moves only to what the disk now holds in all, and only if that has grown by a
   fifth and by 50, or free space is down to a tenth and to 10 while the total is off by 5 and by three
   twentieths of the free space.
   */
  lemma {:induction false} ReweighExactly(w: nat, lw: nat, ps: nat)
    requires w > 0 && lw > 0 && w + ps < U32 && ps <= lw < U32
    ensures var total := w + ps;
            Reweigh(w, lw, ps) ==
            if w > lw && 5 * (total - lw) >= lw && total >= lw + 50 then total
            else if w <= 10 && 10 * w <= lw && !(-5 < lw - total < 5) && !(-3 * w < 20 * (lw - total) < 3 * w) then total
            else lw
  {
    hide GrownLittle, Roomy, AsExpected;
    if w > lw {
      assert Sub32(w + ps, lw) == w + ps - lw;
      GrownLittleExactly(w + ps - lw, lw);
    } else {
      RoomyExactly(w, lw);
      AsExpectedExactly(w, lw, ps);
    }
  }

  lemma {:induction false} GrownLittleExactly(grown: nat, lw: nat)
    requires lw > 0
    ensures GrownLittle(grown, lw) <==> 5 * grown < lw || grown < 50
  {
    Ratio(grown, lw, 1, 5);
  }

  lemma {:induction false} RoomyExactly(w: nat, lw: nat)
    requires lw > 0
    ensures Roomy(w, lw) <==> w > 10 || 10 * w > lw
  {
    Ratio(1, 10, w, lw);
  }

  lemma {:induction false} AsExpectedExactly(w: nat, lw: nat, ps: nat)
    requires w > 0 && ps <= lw < U32
    ensures AsExpected(w, lw, ps) <==> -5 < lw - ps - w < 5 || -3 * w < 20 * (lw - ps - w) < 3 * w
  {
    hide Sub32, Abs;
    Sub32Small(lw, ps);
    Deviation(lw - ps, w);
  }

  lemma {:induction false} Sub32Small(a: nat, b: nat)
    requires b <= a < U32
    ensures Sub32(a, b) == a - b
  {
  }

  lemma {:induction false} Ratio(a: nat, b: nat, c: nat, d: nat)
    requires b > 0 && d > 0
    ensures a as real / b as real < c as real / d as real <==> a * d < c * b
  {
    var x, y := a as real / b as real, c as real / d as real;
    var bd := b as real * d as real;
    assert x * bd == a as real * d as real == (a * d) as real;
    assert y * bd == c as real * b as real == (c * b) as real;
    if x < y {
      assert x * bd < y * bd;
    } else {
      assert x * bd >= y * bd;
    }
  }

  lemma {:induction false} Deviation(a: nat, w: nat)
    requires w > 0
    ensures Abs(1.0 - a as real / w as real) < 0.15 <==> -3 * w < 20 * (a - w) < 3 * w
  {
    Ratio(a, w, 23, 20);
    Ratio(17, 20, a, w);
  }

  lemma {:induction false} ReweighSum(w: nat, ps: nat)
    requires w > 0 && w + ps < U32
    ensures Reweigh(w, w + ps, ps) == w + ps
  {
    assert Sub32(w + ps, ps) == w;
    hide Sub32, Add32;
    assert w as real / w as real == 1.0;
  }

  /** Weighing a disk again against the weight just recorded keeps that weight. */
  lemma {:induction false} ReweighTwice(w: nat, lw: nat, ps: nat)
    requires w > 0 && lw > 0 && w + ps < U32
    ensures Reweigh(w, lw, ps) > 0
    ensures Reweigh(w, Reweigh(w, lw, ps), ps) == Reweigh(w, lw, ps)
  {
    hide Reweigh;
    ReweighKeepsOrSums(w, lw, ps);
    ReweighSum(w, ps);
  }

  /** And so does a disk recorded at its free weight. */
  lemma {:induction false} ReweighNew(w: nat, ps: nat)
    requires w > 0
    ensures Reweigh(w, w, ps) == w
  {
    assert w as real / w as real == 1.0;
  }

  function Weigh(list: seq<Disk>, m: Mount): nat
    requires Gib(m.space) > 1 && forall i | 0 <= i < |list| :: list[i].weight > 0
  {
    var lw := WeightOf(list, m.path);
    if lw.None? then Gib(m.space)
    else
      WeightOfFound(list, m.path);
      Reweigh(Gib(m.space), lw.value, Gib(m.used))
  }

  lemma {:induction false} GibSmall(m: Mount)
    requires Fits(m)
    ensures Gib(m.space) + Gib(m.used) < U32
  {
    assert m.space / GIB < 0x8000_0000 && m.used / GIB < 0x8000_0000;
  }

  lemma {:induction false} WeighBounds(list: seq<Disk>, m: Mount)
    requires ListOk(list) && Gib(m.space) > 1 && Fits(m)
    ensures 2 <= Weigh(list, m) < U32
  {
    hide Reweigh, Gib, Fits;
    GibSmall(m);
    if WeightOf(list, m.path).Some? {
      WeightOfFound(list, m.path);
      ReweighKeepsOrSums(Gib(m.space), WeightOf(list, m.path).value, Gib(m.used));
    }
  }

  /** The disks a rescan lists: those with more than one whole GiB free. */
  function Listed(scan: seq<Mount>): (r: seq<Mount>)
    ensures forall m | m in r :: Gib(m.space) > 1 && m in scan
  {
    if scan == [] then []
    else Listed(scan[..|scan| - 1]) + if Gib(scan[|scan| - 1].space) > 1 then [scan[|scan| - 1]] else []
  }

  function Weighed(list: seq<Disk>, mounts: seq<Mount>): (r: seq<Disk>)
    requires forall m | m in mounts :: Gib(m.space) > 1
    requires forall i | 0 <= i < |list| :: list[i].weight > 0
    ensures |r| == |mounts|
    ensures forall i | 0 <= i < |mounts| :: r[i] == Disk(mounts[i].path, Weigh(list, mounts[i]))
  {
    seq(|mounts|, i requires 0 <= i < |mounts| => Disk(mounts[i].path, Weigh(list, mounts[i])))
  }

  /** The metadata of the first scanned disk with the most records; a disk without any has an empty history. */
  function Newest(metas: map<Path, Meta>, scan: seq<Mount>): Option<Meta> {
    if scan == [] then None
    else
      var rest := Newest(metas, scan[..|scan| - 1]);
      var meta := MetaAt(metas, scan[|scan| - 1].path);
      if rest.None? || |meta| > |rest.value| then Some(meta) else rest
  }

  function MetaAt(metas: map<Path, Meta>, path: Path): Meta {
    if path in metas then metas[path] else []
  }

  function LastList(meta: Meta): seq<Disk> {
    if meta == [] then [] else meta[|meta| - 1].list
  }

  predicate DistinctMounts(scan: seq<Mount>) {
    forall i, j | 0 <= i < j < |scan| :: scan[i].path != scan[j].path
  }

  lemma {:induction false} ListedDistinct(scan: seq<Mount>)
    requires DistinctMounts(scan)
    ensures DistinctMounts(Listed(scan))
  {
    if scan == [] {
    } else {
      var n := |scan| - 1;
      ListedDistinct(scan[..n]);
      forall m | m in Listed(scan[..n])
        ensures m.path != scan[n].path
      {
        assert m in scan[..n];
      }
    }
  }

  lemma {:induction false} WeighedOk(list: seq<Disk>, scan: seq<Mount>)
    requires ListOk(list) && DistinctMounts(scan) && forall m | m in scan :: Fits(m)
    ensures ListOk(Weighed(list, Listed(scan)))
  {
    hide Gib, Fits, Weigh;
    ListedDistinct(scan);
    var mounts := Listed(scan);
    forall i | 0 <= i < |mounts|
      ensures 2 <= Weigh(list, mounts[i]) < U32
    {
      assert mounts[i] in mounts;
      WeighBounds(list, mounts[i]);
    }
  }

  /** Weighing against the weights just given changes none. */
  lemma {:induction false} WeighedTwice(list: seq<Disk>, scan: seq<Mount>)
    requires ListOk(list) && DistinctMounts(scan) && forall m | m in scan :: Fits(m)
    ensures ListOk(Weighed(list, Listed(scan)))
    ensures Weighed(Weighed(list, Listed(scan)), Listed(scan)) == Weighed(list, Listed(scan))
  {
    WeighedOk(list, scan);
    hide Gib, Fits, Reweigh;
    var mounts := Listed(scan);
    var disks := Weighed(list, mounts);
    forall i | 0 <= i < |mounts|
      ensures Weigh(disks, mounts[i]) == disks[i].weight
    {
      assert mounts[i] in mounts;
      WeightOfAt(disks, i);
      GibSmall(mounts[i]);
      if WeightOf(list, mounts[i].path).Some? {
        WeightOfFound(list, mounts[i].path);
        ReweighTwice(Gib(mounts[i].space), WeightOf(list, mounts[i].path).value, Gib(mounts[i].used));
      } else {
        ReweighNew(Gib(mounts[i].space), Gib(mounts[i].used));
      }
    }
  }

  /** The pass of refresh_cache that settles the weight of every listed disk. */
  method WeighDisks(list: seq<Disk>, mounts: seq<Mount>) returns (disks: seq<Disk>)
    requires forall m | m in mounts :: Gib(m.space) > 1
    requires forall i | 0 <= i < |list| :: list[i].weight > 0
    ensures disks == Weighed(list, mounts)
  {
    disks := [];
    for i := 0 to |mounts|
      invariant |disks| == i
      invariant forall k | 0 <= k < i :: disks[k] == Weighed(list, mounts)[k]
    {
      assert mounts[i] in mounts;
      var weight := Gib(mounts[i].space);
      var latest := GetWeight(list, mounts[i].path);
      if latest.Some? {
        WeightOfFound(list, mounts[i].path);
        weight := WeighRecorded(weight, latest.value, Gib(mounts[i].used));
      }
      disks := disks + [Disk(mounts[i].path, weight)];
    }
  }

  method WeighRecorded(free: nat, latest: nat, used: nat) returns (weight: nat)
    requires free > 0 && latest > 0
    ensures weight == Reweigh(free, latest, used)
  {
    weight := free;
    if weight > latest {
      var grown := Sub32(Add32(weight, used), latest);
      if grown as real / latest as real < 0.2 || grown < 50 {
        weight := latest;
      } else {
        weight := Add32(weight, used);
      }
    } else if weight > 10 || weight as real / latest as real > 0.1 {
      weight := latest;
    } else {
      if Abs(1.0 - Sub32(latest, used) as real / weight as real) < 0.15 || -5 < latest - used - weight < 5 {
        weight := latest;
      } else {
        weight := Add32(used, weight);
      }
    }
  }
}
