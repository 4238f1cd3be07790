/**
 What a rescan of the disks comes to (cyfs-chunk-cache/src/local_chunk_cache.rs, refresh_cache), said of
 the disks it found: which are listed and in what order, what they weigh, what is recorded and where.
 */
module ChunkRescan {
  import opened ByteCodec
  import opened ChunkPlacement
  import opened ChunkHistory
  import opened ChunkCache
  import opened Options

  /** More than one whole GiB free, after the cast to 32 bits. */
  predicate HasRoom(m: Mount) {
    m.space / 0x4000_0000 % 0x1_0000_0000 >= 2
  }

  lemma {:induction false} HasRoomExactly(m: Mount)
    requires Fits(m)
    ensures HasRoom(m) <==> m.space >= 0x8000_0000
  {
    assert m.space / 0x4000_0000 < 0x8000_0000;
  }

  /** `at` are the positions, in order, of the scanned disks with room. */
  predicate RoomAt(scan: seq<Mount>, at: seq<nat>) {
    && (forall i | 0 <= i < |at| :: at[i] < |scan|)
    && (forall i, j | 0 <= i < j < |at| :: at[i] < at[j])
    && (forall k | 0 <= k < |scan| :: HasRoom(scan[k]) <==> k in at)
  }

  lemma {:induction false} ListedRoomy(scan: seq<Mount>) returns (at: seq<nat>)
    ensures RoomAt(scan, at) && |at| == |Listed(scan)|
    ensures forall i | 0 <= i < |at| :: Listed(scan)[i] == scan[at[i]]
  {
    hide HasRoom, Gib, RoomAt;
    if scan == [] {
      at := [];
      assert RoomAt(scan, at) by {
        NoRoom();
      }
    } else {
      var n := |scan| - 1;
      var less := ListedRoomy(scan[..n]);
      at := if HasRoom(scan[n]) then less + [n] else less;
      RoomIsGib(scan[n]);
      RoomAtMore(scan, less);
    }
  }

  lemma {:induction false} NoRoom()
    ensures RoomAt([], [])
  {
  }

  lemma {:induction false} RoomAtMore(scan: seq<Mount>, less: seq<nat>)
    requires scan != [] && RoomAt(scan[..|scan| - 1], less)
    ensures var n := |scan| - 1; RoomAt(scan, if HasRoom(scan[n]) then less + [n] else less)
    ensures forall i | 0 <= i < |less| :: less[i] < |scan| - 1
  {
    hide HasRoom;
    var n := |scan| - 1;
    var at := if HasRoom(scan[n]) then less + [n] else less;
    forall k | 0 <= k < |scan|
      ensures HasRoom(scan[k]) <==> k in at
    {
      if k < n {
        assert scan[k] == scan[..n][k];
        assert k in at <==> k in less;
      } else {
        assert n !in less;
        assert HasRoom(scan[n]) ==> at[|less|] == n;
      }
    }
  }

  lemma {:induction false} RoomIsGib(m: Mount)
    ensures HasRoom(m) <==> Gib(m.space) > 1
  {
  }

  /** The first scanned disk with the most records. */
  predicate FirstLongest(metas: map<Path, Meta>, scan: seq<Mount>, k: nat) {
    && k < |scan|
    && (forall i | 0 <= i < |scan| :: |MetaAt(metas, scan[i].path)| <= |MetaAt(metas, scan[k].path)|)
    && (forall i | 0 <= i < k :: |MetaAt(metas, scan[i].path)| < |MetaAt(metas, scan[k].path)|)
  }

  lemma {:induction false} NewestIsFirstLongest(metas: map<Path, Meta>, scan: seq<Mount>, k: nat)
    requires FirstLongest(metas, scan, k)
    ensures Newest(metas, scan) == Some(MetaAt(metas, scan[k].path))
  {
    hide MetaAt;
    var n := |scan| - 1;
    forall i | 0 <= i < n
      ensures scan[..n][i] == scan[i]
    {
    }
    if k == n {
      if n > 0 {
        var j := NewestIsLongest(metas, scan[..n]);
      }
    } else {
      NewestIsFirstLongest(metas, scan[..n], k);
    }
  }

  /** What a disk weighs after the rescan, where `last` is the last recorded list. */
  predicate WeighsAs(last: seq<Disk>, m: Mount, weight: nat)
    requires ListOk(last) && m.space >= 0x8000_0000
  {
    && ((forall d | d in last :: d.path != m.path) ==> weight == m.space / 0x4000_0000)
    && (forall d | d in last && d.path == m.path ::
          weight == Reweigh(m.space / 0x4000_0000, d.weight, m.used / 0x4000_0000))
  }

  lemma {:induction false} WeighExactly(last: seq<Disk>, m: Mount)
    requires ListOk(last) && HasRoom(m) && Fits(m)
    ensures m.space >= 0x8000_0000 && Gib(m.space) > 1 && WeighsAs(last, m, Weigh(last, m))
  {
    hide Reweigh;
    assert Gib(m.space) == m.space / 0x4000_0000 && Gib(m.used) == m.used / 0x4000_0000;
    if d :| d in last && d.path == m.path {
      var i :| 0 <= i < |last| && last[i] == d;
      WeightOfAt(last, i);
      forall e | e in last && e.path == m.path
        ensures e == d
      {
        var j :| 0 <= j < |last| && last[j] == e;
      }
    } else if WeightOf(last, m.path).Some? {
      WeightOfFound(last, m.path);
    }
  }

  /**
   For every scan of disks under two EiB: the disks listed afterwards are, in scan order, those with two
   GiB or more free, each weighing what its record and its space say.
   */
  lemma {:induction false} RefreshedList(w: Hashes, s: State, scan: seq<Mount>, k: nat) returns (at: seq<nat>)
    requires Shaped(w, s) && ScanOk(scan) && FirstLongest(s.metas, scan, k)
    ensures RoomAt(scan, at) && |at| == |Refreshed(w, s, scan).list|
    ensures ListOk(LastList(MetaAt(s.metas, scan[k].path)))
    ensures forall i | 0 <= i < |at| ::
              var m, d := scan[at[i]], Refreshed(w, s, scan).list[i];
              && d.path == m.path
              && m.space >= 0x8000_0000
              && WeighsAs(LastList(MetaAt(s.metas, scan[k].path)), m, d.weight)
  {
    hide Newest, Listed, MetaAt, WeighsAs, HasRoom, Gib, MetaOk, Fits, DistinctPaths, LastList, Recorded, Weigh;
    at := ListedRoomy(scan);
    var g := MetaAt(s.metas, scan[k].path);
    NewestIsFirstLongest(s.metas, scan, k);
    RefreshedBy(w, s, scan, g);
    RecordedList(w, s.(mounted := Paths(scan)), g, scan);
    var disks := Refreshed(w, s, scan).list;
    assert disks == Weighed(LastList(g), Listed(scan));
    forall i | 0 <= i < |at|
      ensures scan[at[i]].space >= 0x8000_0000
      ensures disks[i].path == scan[at[i]].path && WeighsAs(LastList(g), scan[at[i]], disks[i].weight)
    {
      assert scan[at[i]] in scan && at[i] in at;
      WeighExactly(LastList(g), scan[at[i]]);
    }
  }

  /** What is recorded, and on which disks; no chunk file is touched. */
  lemma {:induction false} RefreshedRecord(w: Hashes, s: State, scan: seq<Mount>, k: nat, path: Path)
    requires Shaped(w, s) && ScanOk(scan) && FirstLongest(s.metas, scan, k)
    ensures var out := Refreshed(w, s, scan);
            var g := MetaAt(s.metas, scan[k].path);
            && out.files == s.files
            && out.mounted == Paths(scan)
            && (if g != [] && SameDisks(LastList(g), out.list) then out.meta == g && out.metas == s.metas
                else
                  && |out.meta| == |g| + 1
                  && out.meta[..|g|] == g
                  && LastList(out.meta) == out.list
                  && MetaAt(out.metas, path) == if Lists(out.list, path) then out.meta else MetaAt(s.metas, path))
  {
    hide Newest, Listed, MetaAt, Weighed, Published, IsSame, MetaOk, ListOk, Fits, Lists;
    var g := MetaAt(s.metas, scan[k].path);
    NewestIsFirstLongest(s.metas, scan, k);
    RefreshedBy(w, s, scan, g);
    RefreshedInv(w, s, scan);
    var out := Refreshed(w, s, scan);
    BothDistinct(LastList(g), out.list);
    IsSameExactly(LastList(g), out.list);
    PublishedAt(s.metas, out.list, out.meta, path);
  }

  lemma {:induction false} BothDistinct(a: seq<Disk>, b: seq<Disk>)
    requires ListOk(a) && ListOk(b)
    ensures DistinctPaths(a) && DistinctPaths(b)
  {
  }

  /** Without a disk there is no list; the history and the metadata stay. */
  lemma {:induction false} RefreshedNothing(w: Hashes, s: State)
    requires Shaped(w, s)
    ensures Refreshed(w, s, []) == s.(mounted := {}, list := [])
  {
    assert Paths([]) == {};
  }

  lemma {:induction false} SomeLongest(metas: map<Path, Meta>, scan: seq<Mount>) returns (k: nat)
    requires scan != []
    ensures FirstLongest(metas, scan, k)
  {
    hide MetaAt;
    var n := |scan| - 1;
    if n == 0 {
      return 0;
    }
    k := SomeLongest(metas, scan[..n]);
    assert forall i | 0 <= i < n :: scan[..n][i] == scan[i];
    if |MetaAt(metas, scan[n].path)| > |MetaAt(metas, scan[k].path)| {
      k := n;
    }
  }

  /** After a rescan, bytes that match the chunk can be put exactly if a disk with two GiB free was found. */
  lemma {:induction false} PutAfterRescan(w: Hashes, s: State, scan: seq<Mount>, id: ChunkId, data: bytes)
    requires Shaped(w, s) && ScanOk(scan) && Matches(w, id, data)
    ensures Shaped(w, Refreshed(w, s, scan))
    ensures var (r, _) := Put(w, Refreshed(w, s, scan), id, data);
            && (r.Ok? <==> exists m :: m in scan && m.space >= 0x8000_0000)
            && (r.Err? ==> r.error == NotFound)
  {
    RefreshedInv(w, s, scan);
    hide Refreshed, ListOk, MetaOk, HasRoom, FirstLongest, WeighsAs, Fits;
    var out := Refreshed(w, s, scan);
    if scan == [] {
      RefreshedNothing(w, s);
    } else {
      var k := SomeLongest(s.metas, scan);
      var at := RefreshedList(w, s, scan, k);
      if out.list != [] {
        assert scan[at[0]] in scan;
        PutExactly(w, out, id, data);
      } else {
        forall m | m in scan
          ensures m.space < 0x8000_0000
        {
          var i :| 0 <= i < |scan| && scan[i] == m;
          HasRoomExactly(m);
          assert i !in at;
        }
      }
    }
  }
}
