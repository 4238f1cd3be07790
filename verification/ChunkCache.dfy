/**
 The chunk cache over several disks (cyfs-chunk-cache/src/local_chunk_cache.rs): chunk files per disk,
 a metadata file per disk, the current list of disks and the history of earlier lists, from which
 chunks migrate when they are next asked for.
 */
module ChunkCache {
  import opened ByteCodec
  import opened ChunkPlacement
  import opened ChunkHistory
  import opened Options

  datatype Error = NotFound | InvalidData

  datatype Result<+T> = Ok(value: T) | Err(error: Error)

  /** The file of a chunk on a disk. */
  datatype File = File(disk: Path, chunk: ChunkId)

  type Files = map<File, bytes>

  /** The hashes the cache relies on. */
  datatype Hashes = Hashes(
    ln: LogHash,
    record: RecordHash,
    idOf: bytes -> ChunkId,
    lenOf: ChunkId -> nat)

  /** `mounted` are the disks of the last scan: the files of any other disk are not there to be read. */
  datatype State = State(files: Files, mounted: set<Path>, metas: map<Path, Meta>, list: seq<Disk>, meta: Meta)

  /** What a chunk file must hold: bytes of the length and the digest its id names. */
  predicate Matches(w: Hashes, id: ChunkId, data: bytes) {
    |data| == w.lenOf(id) && w.idOf(data) == id
  }

  // ----- one disk -----

  predicate Readable(files: Files, mounted: set<Path>, path: Path, id: ChunkId) {
    path in mounted && File(path, id) in files
  }

  function DiskGet(files: Files, mounted: set<Path>, path: Path, id: ChunkId): Result<bytes> {
    if Readable(files, mounted, path, id) then Ok(files[File(path, id)]) else Err(NotFound)
  }

  predicate DiskExists(w: Hashes, files: Files, mounted: set<Path>, path: Path, id: ChunkId) {
    Readable(files, mounted, path, id) && |files[File(path, id)]| == w.lenOf(id)
  }

  /** Chunks are put on listed disks only, and those are mounted. */
  function DiskPut(w: Hashes, files: Files, path: Path, id: ChunkId, data: bytes): (Result<()>, Files) {
    if |data| != w.lenOf(id) then (Err(InvalidData), files)
    else if File(path, id) in files then (Ok(()), files)
    else if w.idOf(data) != id then (Err(InvalidData), files)
    else (Ok(()), files[File(path, id) := data])
  }

  // ----- the operations -----

  predicate Weightful(meta: Meta) {
    forall i | 0 <= i < |meta| :: Weighted(meta[i].list)
  }

  function Earlier(meta: Meta): Meta {
    if meta == [] then [] else meta[..|meta| - 1]
  }

  /** The chunk's file is on the disk this list places it on, and that disk is one of `disks`. */
  predicate Placed(w: Hashes, files: Files, disks: set<Path>, list: seq<Disk>, id: ChunkId)
    requires Weighted(list)
  {
    var best := Place(w.ln, id, list);
    best.Some? && Readable(files, disks, best.value.path, id)
  }

  /** The disk of the newest record that places a file of the chunk on a mounted disk. */
  function Found(w: Hashes, files: Files, mounted: set<Path>, records: Meta, id: ChunkId): (p: Option<Path>)
    requires Weightful(records)
    ensures p.Some? ==> Readable(files, mounted, p.value, id)
  {
    if records == [] then None
    else if Placed(w, files, mounted, records[|records| - 1].list, id) then
      Some(Place(w.ln, id, records[|records| - 1].list).value.path)
    else Found(w, files, mounted, records[..|records| - 1], id)
  }

  /** Looks through the records, newest first, and moves what it finds to `target`. */
  function Migrated(w: Hashes, files: Files, mounted: set<Path>, records: Meta, id: ChunkId, target: Path)
    : (Result<()>, Files)
    requires Weightful(records)
  {
    var found := Found(w, files, mounted, records, id);
    if found.None? then (Err(NotFound), files)
    else
      var (put, copied) := DiskPut(w, files, target, id, files[File(found.value, id)]);
      if put.Err? then (put, copied) else (put, copied - {File(found.value, id)})
  }

  predicate Shaped(w: Hashes, s: State) {
    && ListOk(s.list)
    && (forall d | d in s.list :: d.path in s.mounted)
    && MetaOk(w.record, s.meta)
    && forall p | p in s.metas :: MetaOk(w.record, s.metas[p])
  }

  function Get(w: Hashes, s: State, id: ChunkId): (Result<bytes>, State)
    requires Shaped(w, s)
  {
    var place := Place(w.ln, id, s.list);
    if place.None? then (Err(NotFound), s)
    else
      var found := DiskGet(s.files, s.mounted, place.value.path, id);
      if found.Ok? then (found, s)
      else
        var (moved, files) := Migrated(w, s.files, s.mounted, Earlier(s.meta), id, place.value.path);
        if moved.Err? then (Err(moved.error), s.(files := files))
        else (DiskGet(files, s.mounted, place.value.path, id), s.(files := files))
  }

  function Exists(w: Hashes, s: State, id: ChunkId): (bool, State)
    requires Shaped(w, s)
  {
    var place := Place(w.ln, id, s.list);
    if place.None? then (false, s)
    else if DiskExists(w, s.files, s.mounted, place.value.path, id) then (true, s)
    else
      var (moved, files) := Migrated(w, s.files, s.mounted, Earlier(s.meta), id, place.value.path);
      (moved.Ok?, s.(files := files))
  }

  function Put(w: Hashes, s: State, id: ChunkId, data: bytes): (Result<()>, State)
    requires Shaped(w, s)
  {
    var place := Place(w.ln, id, s.list);
    if place.None? then (Err(NotFound), s)
    else
      var (put, files) := DiskPut(w, s.files, place.value.path, id, data);
      (put, s.(files := files))
  }

  /** The metadata written to every listed disk. */
  function Published(metas: map<Path, Meta>, disks: seq<Disk>, meta: Meta): (r: map<Path, Meta>)
    ensures forall d | d in disks :: d.path in r && r[d.path] == meta
    ensures forall p | forall d | d in disks :: d.path != p :: MetaAt(r, p) == MetaAt(metas, p)
    ensures forall p | p in r :: r[p] == meta || (p in metas && r[p] == metas[p])
  {
    if disks == [] then metas
    else Published(metas, disks[..|disks| - 1], meta)[disks[|disks| - 1].path := meta]
  }

  function Refreshed(w: Hashes, s: State, scan: seq<Mount>): State
    requires Shaped(w, s)
  {
    var newest := Newest(s.metas, scan);
    var found := s.(mounted := Paths(scan));
    if newest.None? then found.(list := [])
    else
      NewestOk(w, s.metas, scan);
      Recorded(w, found, newest.value, Weighed(LastList(newest.value), Listed(scan)))
  }

  function Paths(scan: seq<Mount>): set<Path> {
    set m | m in scan :: m.path
  }

  /** The list takes effect, with a new record on every listed disk unless the last record has these disks. */
  function Recorded(w: Hashes, s: State, newest: Meta, disks: seq<Disk>): State {
    if IsLatest(newest, disks) then s.(meta := newest, list := disks)
    else
      var meta := AddRecord(w.record, newest, disks);
      s.(meta := meta, metas := Published(s.metas, disks, meta), list := disks)
  }

  lemma {:induction false} NewestOk(w: Hashes, metas: map<Path, Meta>, scan: seq<Mount>)
    requires forall p | p in metas :: MetaOk(w.record, metas[p])
    ensures Newest(metas, scan).Some? ==>
              MetaOk(w.record, Newest(metas, scan).value) && ListOk(LastList(Newest(metas, scan).value))
  {
    assert ListOk([]);
    hide ListOk;
    if scan == [] {
    } else {
      NewestOk(w, metas, scan[..|scan| - 1]);
    }
  }

  // ----- what every operation keeps -----

  /** The current list is the last recorded one up to order, unless the last scan found no disk. */
  ghost predicate Current(s: State) {
    s.list == [] || (s.meta != [] && SameDisks(s.list, LastList(s.meta)))
  }

  ghost predicate Inv(w: Hashes, s: State) {
    Shaped(w, s) && Current(s)
  }

  /** A mounted disk has its own path, and the sizes are ones 32 bits of GiB can add. */
  predicate ScanOk(scan: seq<Mount>) {
    DistinctMounts(scan) && forall m | m in scan :: Fits(m)
  }

  lemma {:induction false} RefreshedInv(w: Hashes, s: State, scan: seq<Mount>)
    requires Shaped(w, s) && ScanOk(scan)
    ensures Inv(w, Refreshed(w, s, scan))
  {
    hide MetaOk, Weighed, Listed, Newest, Recorded;
    if Newest(s.metas, scan).Some? {
      NewestOk(w, s.metas, scan);
      var g := Newest(s.metas, scan).value;
      WeighedOk(LastList(g), scan);
      WeighedMounted(LastList(g), scan);
      RecordedInv(w, s.(mounted := Paths(scan)), g, Weighed(LastList(g), Listed(scan)));
    } else {
      EmptyListOk();
    }
  }

  lemma {:induction false} EmptyListOk()
    ensures ListOk([])
  {
  }

  lemma {:induction false} WeighedMounted(list: seq<Disk>, scan: seq<Mount>)
    requires ListOk(list)
    ensures forall d | d in Weighed(list, Listed(scan)) :: d.path in Paths(scan)
  {
    hide Weigh, Listed;
    var mounts := Listed(scan);
    forall d | d in Weighed(list, mounts)
      ensures d.path in Paths(scan)
    {
      var i :| 0 <= i < |mounts| && Weighed(list, mounts)[i] == d;
      assert mounts[i] in mounts;
    }
  }

  lemma {:induction false} RecordedInv(w: Hashes, s: State, newest: Meta, disks: seq<Disk>)
    requires MetaOk(w.record, newest) && ListOk(LastList(newest)) && ListOk(disks)
    requires forall d | d in disks :: d.path in s.mounted
    requires forall p | p in s.metas :: MetaOk(w.record, s.metas[p])
    ensures Inv(w, Recorded(w, s, newest, disks))
  {
    IsSameExactly(LastList(newest), disks);
    AddRecordOk(w.record, newest, disks);
    hide MetaOk, ListOk, IsSame;
  }

  // ----- files found and moved -----

  ghost predicate PlacedByAny(w: Hashes, files: Files, disks: set<Path>, records: Meta, id: ChunkId)
    requires Weightful(records)
  {
    exists k | 0 <= k < |records| :: Placed(w, files, disks, records[k].list, id)
  }

  lemma {:induction false} PlacedEarlier(w: Hashes, files: Files, disks: set<Path>, records: Meta, id: ChunkId)
    requires Weightful(records) && records != []
    ensures PlacedByAny(w, files, disks, records, id) <==>
            Placed(w, files, disks, records[|records| - 1].list, id) ||
            PlacedByAny(w, files, disks, records[..|records| - 1], id)
  {
    hide Placed;
    var less := records[..|records| - 1];
    assert forall k | 0 <= k < |less| :: less[k] == records[k];
    if PlacedByAny(w, files, disks, less, id) {
      var k :| 0 <= k < |less| && Placed(w, files, disks, less[k].list, id);
      assert Placed(w, files, disks, records[k].list, id);
    }
    if k :| 0 <= k < |records| && Placed(w, files, disks, records[k].list, id) && k < |records| - 1 {
      assert Placed(w, files, disks, less[k].list, id);
    }
  }

  lemma {:induction false} FoundExactly(w: Hashes, files: Files, mounted: set<Path>, records: Meta, id: ChunkId)
    requires Weightful(records)
    ensures Found(w, files, mounted, records, id).Some? <==> PlacedByAny(w, files, mounted, records, id)
  {
    hide Placed, Place;
    if records == [] {
    } else {
      FoundExactly(w, files, mounted, records[..|records| - 1], id);
      PlacedEarlier(w, files, mounted, records, id);
    }
  }

  /** It is the newest of the records that do. */
  lemma {:induction false} FoundNewest(w: Hashes, files: Files, mounted: set<Path>, records: Meta, id: ChunkId, k: nat)
    requires Weightful(records) && k < |records| && Placed(w, files, mounted, records[k].list, id)
    requires forall i | k < i < |records| :: !Placed(w, files, mounted, records[i].list, id)
    ensures Found(w, files, mounted, records, id) == Some(Place(w.ln, id, records[k].list).value.path)
  {
    hide Placed, Place;
    if k == |records| - 1 {
    } else {
      var less := records[..|records| - 1];
      assert forall i | 0 <= i < |less| :: less[i] == records[i];
      FoundNewest(w, files, mounted, less, id, k);
    }
  }

  /** The files of the chunk hold what its id names; nothing is said of other chunks. */
  ghost predicate Sound(w: Hashes, files: Files, id: ChunkId) {
    forall f: File | f in files && f.chunk == id :: Matches(w, id, files[f])
  }

  /** Other chunks' files are as they were. */
  ghost predicate OthersKept(files: Files, out: Files, id: ChunkId) {
    forall f: File | f.chunk != id ::
      (f in out <==> f in files) && (f in files ==> out[f] == files[f])
  }

  /** A migration finds the chunk exactly when some record places it on a mounted disk, and then the target has it. */
  lemma {:induction false} MigratedExactly(
    w: Hashes, files: Files, mounted: set<Path>, records: Meta, id: ChunkId, target: Path)
    requires Weightful(records) && Sound(w, files, id) && File(target, id) !in files
    ensures var (r, out) := Migrated(w, files, mounted, records, id, target);
            && (r.Ok? <==> PlacedByAny(w, files, mounted, records, id))
            && (r.Ok? ==> File(target, id) in out)
            && (r.Err? ==> r.error == NotFound && out == files)
            && Sound(w, out, id)
  {
    hide Found;
    FoundExactly(w, files, mounted, records, id);
  }

  /**
   Whatever the files hold: a migration that succeeds removes the file it found and no other, and adds at
   most the target, with the bytes found; one that does not changes nothing.
   */
  lemma {:induction false} MigratedMoves(
    w: Hashes, files: Files, mounted: set<Path>, records: Meta, id: ChunkId, target: Path, f: File)
    requires Weightful(records)
    ensures var found := Found(w, files, mounted, records, id);
            var (r, out) := Migrated(w, files, mounted, records, id, target);
            && (r.Err? ==> out == files)
            && (r.Ok? ==> found.Some?)
            && (r.Ok? ==> (f in out <==> (f in files || f == File(target, id)) && f != File(found.value, id)))
            && (r.Ok? && f in out ==> out[f] == if f in files then files[f] else files[File(found.value, id)])
  {
    hide Found;
  }

  lemma {:induction false} MigratedOthers(
    w: Hashes, files: Files, mounted: set<Path>, records: Meta, id: ChunkId, target: Path)
    requires Weightful(records)
    ensures OthersKept(files, Migrated(w, files, mounted, records, id, target).1, id)
  {
    hide Found;
  }

  // ----- chunks held and chunks within reach -----

  /** Some list of the history places the chunk on one of the disks, and its file is there. */
  ghost predicate HeldOn(w: Hashes, s: State, disks: set<Path>, id: ChunkId)
    requires Shaped(w, s)
  {
    PlacedByAny(w, s.files, disks, s.meta, id)
  }

  /** The same for a disk that is mounted. */
  ghost predicate Reachable(w: Hashes, s: State, id: ChunkId)
    requires Shaped(w, s)
  {
    HeldOn(w, s, s.mounted, id)
  }

  predicate ListWithin(list: seq<Disk>, disks: set<Path>) {
    forall d | d in list :: d.path in disks
  }

  /** The current list and the last record place the chunk alike. */
  lemma {:induction false} PlacedNow(w: Hashes, s: State, id: ChunkId, disks: set<Path>)
    requires Inv(w, s) && s.list != [] && NoTies(w.ln, id, s.list)
    ensures s.meta != [] && Place(w.ln, id, s.list) == Place(w.ln, id, LastList(s.meta))
    ensures Placed(w, s.files, disks, s.list, id) == Placed(w, s.files, disks, LastList(s.meta), id)
  {
    hide Place;
    PlaceAnyOrder(w.ln, id, s.list, LastList(s.meta));
  }

  /** A chunk whose file is where it is placed now is held by the disks of the list. */
  lemma {:induction false} StoredIsHeld(w: Hashes, s: State, id: ChunkId, disks: set<Path>)
    requires Inv(w, s) && s.list != [] && NoTies(w.ln, id, s.list) && ListWithin(s.list, disks)
    requires File(Place(w.ln, id, s.list).value.path, id) in s.files
    ensures HeldOn(w, s, disks, id)
  {
    hide Place;
    PlacedNow(w, s, id, disks);
    assert Placed(w, s.files, disks, s.meta[|s.meta| - 1].list, id);
  }

  /** A chunk is within reach exactly if it is where it is placed now or an earlier record finds it. */
  lemma {:induction false} ReachSplits(w: Hashes, s: State, id: ChunkId)
    requires Inv(w, s) && s.list != [] && NoTies(w.ln, id, s.list)
    ensures Weightful(Earlier(s.meta))
    ensures Reachable(w, s, id) <==>
            || File(Place(w.ln, id, s.list).value.path, id) in s.files
            || PlacedByAny(w, s.files, s.mounted, Earlier(s.meta), id)
  {
    hide Place;
    PlacedNow(w, s, id, s.mounted);
    PlacedEarlier(w, s.files, s.mounted, s.meta, id);
  }

  /** A get succeeds exactly for the chunks within reach, with bytes matching the id; then the chunk is where it is placed now. */
  lemma {:induction false} GetExactly(w: Hashes, s: State, id: ChunkId)
    requires Inv(w, s) && Sound(w, s.files, id) && s.list != [] && NoTies(w.ln, id, s.list)
    ensures var (r, s') := Get(w, s, id);
            && (r.Ok? <==> Reachable(w, s, id))
            && (r.Ok? ==> Matches(w, id, r.value))
            && (r.Ok? ==> File(Place(w.ln, id, s.list).value.path, id) in s'.files)
            && (r.Err? ==> r.error == NotFound && s' == s)
            && Sound(w, s'.files, id)
  {
    hide Place, Matches, Migrated;
    var place := Place(w.ln, id, s.list).value.path;
    ReachSplits(w, s, id);
    if File(place, id) !in s.files {
      MigratedExactly(w, s.files, s.mounted, Earlier(s.meta), id, place);
      var (moved, files) := Migrated(w, s.files, s.mounted, Earlier(s.meta), id, place);
      assert Get(w, s, id) == (if moved.Ok? then Ok(files[File(place, id)]) else Err(NotFound), s.(files := files));
    }
  }

  /** An existence check answers exactly whether the chunk is within reach, and leaves it where it is placed now. */
  lemma {:induction false} ExistsExactly(w: Hashes, s: State, id: ChunkId)
    requires Inv(w, s) && Sound(w, s.files, id) && s.list != [] && NoTies(w.ln, id, s.list)
    ensures var (r, s') := Exists(w, s, id);
            && (r <==> Reachable(w, s, id))
            && (r ==> File(Place(w.ln, id, s.list).value.path, id) in s'.files)
            && (!r ==> s' == s)
            && Sound(w, s'.files, id)
  {
    hide Place, Migrated;
    var place := Place(w.ln, id, s.list).value.path;
    ReachSplits(w, s, id);
    if File(place, id) !in s.files {
      MigratedExactly(w, s.files, s.mounted, Earlier(s.meta), id, place);
      var (moved, files) := Migrated(w, s.files, s.mounted, Earlier(s.meta), id, place);
      assert Exists(w, s, id) == (moved.Ok?, s.(files := files));
    } else {
      assert Matches(w, id, s.files[File(place, id)]);
    }
  }

  /** A put succeeds exactly when the length is right and the bytes match or a file is there; no file changes, and one at most is new. */
  lemma {:induction false} PutExactly(w: Hashes, s: State, id: ChunkId, data: bytes)
    requires Shaped(w, s) && s.list != []
    ensures var (r, s') := Put(w, s, id, data);
            var file := File(Place(w.ln, id, s.list).value.path, id);
            && (r.Ok? <==> |data| == w.lenOf(id) && (w.idOf(data) == id || file in s.files))
            && (r.Ok? ==> file in s'.files && s' == s.(files := s.files[file := s'.files[file]]))
            && (r.Ok? && file !in s.files ==> s'.files[file] == data && Matches(w, id, data))
            && (r.Err? ==> r.error == InvalidData && s' == s)
            && (forall f | f in s.files :: f in s'.files && s'.files[f] == s.files[f])
            && (Sound(w, s.files, id) ==> Sound(w, s'.files, id))
  {
    hide Place;
    var (r, s') := Put(w, s, id, data);
    var file := File(Place(w.ln, id, s.list).value.path, id);
    assert file in s.files ==> s.files[file := s.files[file]] == s.files;
  }

  // ----- what an operation on files of any content can lose -----

  /** Removes a file of the chunk and leaves none with the right bytes where the chunk is placed. */
  ghost predicate Loses(w: Hashes, s: State, s': State, id: ChunkId, target: File) {
    && (exists f: File :: f in s.files && f !in s'.files)
    && !(target in s'.files && Matches(w, id, s'.files[target]))
  }

  /**
   Whatever the files hold, an existence check loses a copy exactly when the placement holds a file of the
   wrong length and the file that the history finds is on another disk and has the right length.
   */
  lemma {:induction false} ExistsLosesExactly(w: Hashes, s: State, id: ChunkId)
    requires Shaped(w, s) && s.list != []
    ensures Weightful(Earlier(s.meta))
    ensures var target := File(Place(w.ln, id, s.list).value.path, id);
            var found := Found(w, s.files, s.mounted, Earlier(s.meta), id);
            Loses(w, s, Exists(w, s, id).1, id, target) <==>
            && target in s.files && |s.files[target]| != w.lenOf(id)
            && found.Some? && found.value != target.disk
            && |s.files[File(found.value, id)]| == w.lenOf(id)
  {
    hide Place, Found;
    var target := File(Place(w.ln, id, s.list).value.path, id);
    var found := Found(w, s.files, s.mounted, Earlier(s.meta), id);
    if found.Some? {
      assert File(found.value, id) in s.files;
    }
  }

  /** Whatever the files hold, a get loses nothing. */
  lemma {:induction false} GetLosesNothing(w: Hashes, s: State, id: ChunkId)
    requires Shaped(w, s) && s.list != []
    ensures !Loses(w, s, Get(w, s, id).1, id, File(Place(w.ln, id, s.list).value.path, id))
  {
    hide Place, Found;
  }

  // ----- runs -----

  datatype Op =
    | DoRefresh(scan: seq<Mount>)
    | DoGet(id: ChunkId)
    | DoExists(id: ChunkId)
    | DoPut(id: ChunkId, data: bytes)

  function Apply(w: Hashes, s: State, op: Op): State
    requires Shaped(w, s)
  {
    match op
    case DoRefresh(scan) => Refreshed(w, s, scan)
    case DoGet(id) => Get(w, s, id).1
    case DoExists(id) => Exists(w, s, id).1
    case DoPut(id, data) => Put(w, s, id, data).1
  }

  /** Every record that lists a disk stands in the newer history where it stood. */
  predicate Remembers(newer: Meta, meta: Meta) {
    forall k | 0 <= k < |meta| && meta[k].list != [] :: k < |newer| && newer[k].list == meta[k].list
  }

  /** A rescan that does not forget: the newest metadata it reads remembers the history in use. */
  ghost predicate Extends(s: State, scan: seq<Mount>) {
    Newest(s.metas, scan).Some? ==> Remembers(Newest(s.metas, scan).value, s.meta)
  }

  /** What an operation may assume, when it is the chunk `id` that matters: nothing about the others. */
  ghost predicate Allowed(w: Hashes, s: State, op: Op, id: ChunkId)
    requires Shaped(w, s)
  {
    if op.DoRefresh? then ScanOk(op.scan) && Extends(s, op.scan)
    else op.id == id ==> NoTies(w.ln, id, s.list)
  }

  /** An operation on files leaves everything else, and the files of the other chunks. */
  lemma {:induction false} FilesOnly(w: Hashes, s: State, op: Op)
    requires Shaped(w, s) && !op.DoRefresh?
    ensures Apply(w, s, op) == s.(files := Apply(w, s, op).files)
    ensures OthersKept(s.files, Apply(w, s, op).files, op.id)
  {
    hide Place, Migrated;
    if s.list != [] {
      MigratedOthers(w, s.files, s.mounted, Earlier(s.meta), op.id, Place(w.ln, op.id, s.list).value.path);
    }
  }

  lemma {:induction false} RefreshedExtends(w: Hashes, s: State, scan: seq<Mount>)
    requires Shaped(w, s) && Extends(s, scan)
    ensures Remembers(Refreshed(w, s, scan).meta, s.meta) && Refreshed(w, s, scan).files == s.files
  {
    hide Newest, Weighed, IsLatest, Published, MetaOk, ListOk;
  }

  lemma {:induction false} ApplyInv(w: Hashes, s: State, op: Op)
    requires Inv(w, s) && (op.DoRefresh? ==> ScanOk(op.scan))
    ensures Inv(w, Apply(w, s, op))
  {
    hide MetaOk, ListOk, ScanOk;
    if op.DoRefresh? {
      RefreshedInv(w, s, op.scan);
    } else {
      FilesOnly(w, s, op);
    }
  }

  lemma {:induction false} HeldStays(w: Hashes, s: State, s': State, disks: set<Path>, id: ChunkId)
    requires Shaped(w, s) && Shaped(w, s') && HeldOn(w, s, disks, id)
    requires Remembers(s'.meta, s.meta)
    requires forall f: File | f.chunk == id && f in s.files :: f in s'.files
    ensures HeldOn(w, s', disks, id)
  {
    hide Place;
    var k :| 0 <= k < |s.meta| && Placed(w, s.files, disks, s.meta[k].list, id);
    assert s.meta[k].list != [] && s'.meta[k].list == s.meta[k].list;
    assert Placed(w, s'.files, disks, s'.meta[k].list, id);
  }

  /** An operation on the chunk itself moves it, at most, to a disk of the current list. */
  lemma {:induction false} OwnKept(w: Hashes, s: State, op: Op, id: ChunkId, disks: set<Path>)
    requires Inv(w, s) && Sound(w, s.files, id) && !op.DoRefresh? && op.id == id
    requires NoTies(w.ln, id, s.list) && ListWithin(s.list, disks) && HeldOn(w, s, disks, id)
    ensures Inv(w, Apply(w, s, op)) && Sound(w, Apply(w, s, op).files, id)
    ensures HeldOn(w, Apply(w, s, op), disks, id)
  {
    ApplyInv(w, s, op);
    FilesOnly(w, s, op);
    hide HeldOn, Get, Exists, Put, NoTies, Place, Sound, MetaOk, ListOk;
    var s' := Apply(w, s, op);
    if s.list == [] {
      NoDisk(w, s, op);
    } else {
      OwnSound(w, s, op, id);
      if File(Place(w.ln, id, s.list).value.path, id) in s'.files {
        StoredIsHeld(w, s', id, disks);
      }
    }
  }

  /** Without a disk nothing is found, nothing can be put and nothing changes. */
  lemma {:induction false} NoDisk(w: Hashes, s: State, op: Op)
    requires Shaped(w, s) && s.list == [] && !op.DoRefresh?
    ensures Apply(w, s, op) == s
    ensures op.DoGet? ==> Get(w, s, op.id).0 == Err(NotFound)
    ensures op.DoExists? ==> !Exists(w, s, op.id).0
    ensures op.DoPut? ==> Put(w, s, op.id, op.data).0 == Err(NotFound)
  {
    hide Migrated, MetaOk;
  }

  /** The chunk is where it is placed, or the operation has done nothing. */
  lemma {:induction false} OwnSound(w: Hashes, s: State, op: Op, id: ChunkId)
    requires Inv(w, s) && Sound(w, s.files, id) && !op.DoRefresh? && op.id == id
    requires s.list != [] && NoTies(w.ln, id, s.list)
    ensures var s' := Apply(w, s, op);
            && Sound(w, s'.files, id)
            && (File(Place(w.ln, id, s.list).value.path, id) in s'.files || s' == s)
  {
    hide Get, Exists, Put, NoTies, Place, Sound;
    match op
    case DoGet(_) => GetExactly(w, s, id);
    case DoExists(_) => ExistsExactly(w, s, id);
    case DoPut(_, data) => PutExactly(w, s, id, data);
  }

  /** No operation, on this chunk or another, loses the chunk. */
  lemma {:induction false} ApplyKeeps(w: Hashes, s: State, op: Op, id: ChunkId, disks: set<Path>)
    requires Inv(w, s) && Sound(w, s.files, id) && Allowed(w, s, op, id)
    requires ListWithin(s.list, disks) && HeldOn(w, s, disks, id)
    ensures Inv(w, Apply(w, s, op)) && Sound(w, Apply(w, s, op).files, id)
    ensures HeldOn(w, Apply(w, s, op), disks, id)
  {
    hide HeldOn, Get, Exists, Put, NoTies, MetaOk, ListOk;
    var s' := Apply(w, s, op);
    if op.DoRefresh? {
      RefreshedInv(w, s, op.scan);
      RefreshedExtends(w, s, op.scan);
      HeldStays(w, s, s', disks, id);
    } else if op.id == id {
      OwnKept(w, s, op, id, disks);
    } else {
      ApplyInv(w, s, op);
      FilesOnly(w, s, op);
      HeldStays(w, s, s', disks, id);
    }
  }

  /** A run in which each operation may assume what it needs where it happens. */
  ghost predicate AllowedRun(w: Hashes, s: State, ops: seq<Op>, id: ChunkId)
    requires Inv(w, s)
    decreases |ops|
  {
    ops == [] ||
    (Allowed(w, s, ops[0], id) && (ApplyInv(w, s, ops[0]); AllowedRun(w, Apply(w, s, ops[0]), ops[1..], id)))
  }

  ghost function After(w: Hashes, s: State, ops: seq<Op>, id: ChunkId): (end: State)
    requires Inv(w, s) && AllowedRun(w, s, ops, id)
    ensures Inv(w, end)
    decreases |ops|
  {
    if ops == [] then s
    else
      ApplyInv(w, s, ops[0]);
      After(w, Apply(w, s, ops[0]), ops[1..], id)
  }

  /** Every list the run uses before its end is of these disks. */
  ghost predicate RunWithin(w: Hashes, s: State, ops: seq<Op>, id: ChunkId, disks: set<Path>)
    requires Inv(w, s) && AllowedRun(w, s, ops, id)
    decreases |ops|
  {
    ops == [] ||
    (ListWithin(s.list, disks) &&
     (ApplyInv(w, s, ops[0]); RunWithin(w, Apply(w, s, ops[0]), ops[1..], id, disks)))
  }

  /** Over any run the history stays linked and weighted, and the chunk stays on the disks the run uses. */
  lemma {:induction false} RunKeeps(w: Hashes, s: State, ops: seq<Op>, id: ChunkId, disks: set<Path>)
    requires Inv(w, s) && AllowedRun(w, s, ops, id) && RunWithin(w, s, ops, id, disks)
    requires Sound(w, s.files, id) && HeldOn(w, s, disks, id)
    ensures MetaOk(w.record, After(w, s, ops, id).meta) && ListOk(After(w, s, ops, id).list)
    ensures Sound(w, After(w, s, ops, id).files, id) && HeldOn(w, After(w, s, ops, id), disks, id)
    decreases |ops|
  {
    hide HeldOn, Apply, Allowed, MetaOk, ListOk, Sound, Current, ListWithin;
    if ops == [] {
    } else {
      ApplyKeeps(w, s, ops[0], id, disks);
      RunKeeps(w, Apply(w, s, ops[0]), ops[1..], id, disks);
    }
  }

  /**
   No chunk is lost: after a successful put, through any run of rescans that extend the history, gets,
   existence checks and puts of any chunks, a disk that was listed since then holds bytes that match the
   id. While that disk is away the chunk may be out of reach; once it is mounted, however often it left
   and came back, a get returns such bytes.
   */
  lemma {:induction false} NoChunkLost(
    w: Hashes, s: State, id: ChunkId, data: bytes, ops: seq<Op>, disks: set<Path>) returns (holder: Path)
    requires Inv(w, s) && Sound(w, s.files, id) && s.list != [] && Put(w, s, id, data).0.Ok?
    requires AllowedRun(w, s, [DoPut(id, data)] + ops, id) && RunWithin(w, s, [DoPut(id, data)] + ops, id, disks)
    ensures var end := After(w, s, [DoPut(id, data)] + ops, id);
            && holder in disks
            && File(holder, id) in end.files && Matches(w, id, end.files[File(holder, id)])
            && (holder in end.mounted && end.list != [] && NoTies(w.ln, id, end.list) ==>
                  && Get(w, end, id).0.Ok? && Matches(w, id, Get(w, end, id).0.value)
                  && Exists(w, end, id).0)
  {
    assert ([DoPut(id, data)] + ops)[1..] == ops;
    PutExactly(w, s, id, data);
    var stored := Put(w, s, id, data).1;
    ApplyInv(w, s, DoPut(id, data));
    assert Allowed(w, s, DoPut(id, data), id);
    StoredIsHeld(w, stored, id, disks);
    assert AllowedRun(w, stored, ops, id) && RunWithin(w, stored, ops, id, disks);
    assert After(w, stored, ops, id) == After(w, s, [DoPut(id, data)] + ops, id);
    hide Put, Get, Exists, NoTies, AllowedRun, RunWithin, After, Place;
    RunKeeps(w, stored, ops, id, disks);
    var end := After(w, stored, ops, id);
    var k :| 0 <= k < |end.meta| && Placed(w, end.files, disks, end.meta[k].list, id);
    holder := Place(w.ln, id, end.meta[k].list).value.path;
    if holder in end.mounted && end.list != [] && NoTies(w.ln, id, end.list) {
      assert Placed(w, end.files, end.mounted, end.meta[k].list, id);
      GetExactly(w, end, id);
      ExistsExactly(w, end, id);
    }
  }

  /** A rescan extends the history when no scanned disk knows more and one that holds all of it is mounted. */
  lemma {:induction false} MountedHistoryExtends(s: State, scan: seq<Mount>, m: Mount)
    requires forall n | n in scan :: MetaAt(s.metas, n.path) <= s.meta
    requires m in scan && MetaAt(s.metas, m.path) == s.meta
    ensures Newest(s.metas, scan) == Some(s.meta) && Extends(s, scan)
  {
    var k := NewestIsLongest(s.metas, scan);
    var g := MetaAt(s.metas, scan[k].path);
    assert scan[k] in scan;
    assert g <= s.meta && |g| == |s.meta|;
    assert g == s.meta[..|g|] == s.meta;
  }

  /**
   A rescan in which no disk has room records an empty list that is written nowhere; a later rescan that
   reads the same history again does not forget.
   */
  lemma {:induction false} FullDisksRemembered(w: Hashes, s: State, scan: seq<Mount>, later: seq<Mount>)
    requires Shaped(w, s) && scan != [] && Listed(scan) == []
    requires Newest(s.metas, later) == Newest(s.metas, scan)
    ensures Extends(Refreshed(w, s, scan), later)
  {
    hide Listed;
    NewestOk(w, s.metas, scan);
  }

  lemma {:induction false} NewestIsLongest(metas: map<Path, Meta>, scan: seq<Mount>) returns (k: nat)
    requires scan != []
    ensures k < |scan| && Newest(metas, scan) == Some(MetaAt(metas, scan[k].path))
    ensures forall n | n in scan :: |MetaAt(metas, n.path)| <= |MetaAt(metas, scan[k].path)|
  {
    hide MetaAt;
    var last := |scan| - 1;
    if last == 0 {
      return 0;
    }
    k := NewestIsLongest(metas, scan[..last]);
    if |MetaAt(metas, scan[last].path)| > |MetaAt(metas, scan[k].path)| {
      k := last;
    }
    forall n | n in scan
      ensures |MetaAt(metas, n.path)| <= |MetaAt(metas, scan[k].path)|
    {
      if n != scan[last] {
        assert n in scan[..last];
      }
    }
  }

  // ----- rescanning twice -----

  ghost predicate Lists(disks: seq<Disk>, path: Path) {
    exists d | d in disks :: d.path == path
  }

  lemma {:induction false} PublishedAt(metas: map<Path, Meta>, disks: seq<Disk>, meta: Meta, path: Path)
    ensures MetaAt(Published(metas, disks, meta), path) == if Lists(disks, path) then meta else MetaAt(metas, path)
  {
  }

  lemma {:induction false} NewestPublished(
    metas: map<Path, Meta>, disks: seq<Disk>, meta: Meta, scan: seq<Mount>, m: Mount)
    requires m in scan && Lists(disks, m.path)
    requires forall n | n in scan :: |MetaAt(metas, n.path)| < |meta|
    ensures Newest(Published(metas, disks, meta), scan) == Some(meta)
  {
    hide Published, MetaAt, Lists, Newest;
    var k := NewestIsLongest(Published(metas, disks, meta), scan);
    PublishedAt(metas, disks, meta, m.path);
    PublishedAt(metas, disks, meta, scan[k].path);
    assert scan[k] in scan;
  }

  lemma {:induction false} RecordedTwice(w: Hashes, s: State, newest: Meta, disks: seq<Disk>)
    ensures Recorded(w, Recorded(w, s, newest, disks), Recorded(w, s, newest, disks).meta, disks)
         == Recorded(w, s, newest, disks)
  {
    hide Published;
    assert IsSame(disks, disks);
  }

  lemma {:induction false} RecordedAgain(w: Hashes, s: State, newest: Meta, disks: seq<Disk>)
    requires IsLatest(newest, disks) || disks == []
    ensures Recorded(w, s, newest, disks).metas == s.metas
    ensures Recorded(w, Recorded(w, s, newest, disks), newest, disks) == Recorded(w, s, newest, disks)
  {
  }

  lemma {:induction false} RefreshedBy(w: Hashes, s: State, scan: seq<Mount>, g: Meta)
    requires Shaped(w, s) && Newest(s.metas, scan) == Some(g)
    ensures ListOk(LastList(g))
    ensures Refreshed(w, s, scan) == Recorded(w, s.(mounted := Paths(scan)), g, Weighed(LastList(g), Listed(scan)))
  {
    hide Newest, Listed, Weighed, Recorded;
    NewestOk(w, s.metas, scan);
  }

  /** The metadata a second rescan reads, and the list it comes to. */
  lemma {:induction false} NewestAgain(w: Hashes, s: State, scan: seq<Mount>, g: Meta)
    requires Newest(s.metas, scan) == Some(g) && ListOk(LastList(g))
    ensures var disks := Weighed(LastList(g), Listed(scan));
            var s' := Recorded(w, s, g, disks);
            && (IsLatest(g, disks) || disks == [] ==> Newest(s'.metas, scan) == Some(g))
            && (!IsLatest(g, disks) && disks != [] ==> Newest(s'.metas, scan) == Some(s'.meta) && LastList(s'.meta) == disks)
  {
    hide Newest, Listed, Weighed, Published, MetaOk;
    var disks := Weighed(LastList(g), Listed(scan));
    if IsLatest(g, disks) || disks == [] {
      RecordedAgain(w, s, g, disks);
    } else {
      NoScanNoMeta(s.metas, scan);
      var k := NewestIsLongest(s.metas, scan);
      ListedFirst(LastList(g), scan);
      NewestPublished(s.metas, disks, AddRecord(w.record, g, disks), scan, Listed(scan)[0]);
    }
  }

  lemma {:induction false} NoScanNoMeta(metas: map<Path, Meta>, scan: seq<Mount>)
    ensures Newest(metas, scan).None? <==> scan == []
  {
  }

  /**
   A second rescan that finds the disks unchanged changes nothing at all:
   no record, no weight, no metadata file.
   */
  lemma {:induction false} RefreshTwice(w: Hashes, s: State, scan: seq<Mount>)
    requires Shaped(w, s) && ScanOk(scan)
    ensures Inv(w, Refreshed(w, s, scan))
    ensures Refreshed(w, Refreshed(w, s, scan), scan) == Refreshed(w, s, scan)
  {
    RefreshedInv(w, s, scan);
    NoScanNoMeta(s.metas, scan);
    if scan != [] {
      hide Newest, Listed, Weighed, Published, Recorded, MetaOk, IsLatest, LastList, Refreshed, Current, ListOk, Paths;
      var g := Newest(s.metas, scan).value;
      var found := s.(mounted := Paths(scan));
      var s' := Refreshed(w, s, scan);
      RefreshedBy(w, s, scan, g);
      RecordedList(w, found, g, scan);
      NewestAgain(w, found, scan, g);
      WeighedTwice(LastList(g), scan);
      var disks := s'.list;
      assert s'.(mounted := Paths(scan)) == s';
      if IsLatest(g, disks) || disks == [] {
        RefreshedBy(w, s', scan, g);
        RecordedAgain(w, found, g, disks);
      } else {
        RefreshedBy(w, s', scan, s'.meta);
        RecordedTwice(w, found, g, disks);
      }
    }
  }

  lemma {:induction false} RecordedList(w: Hashes, s: State, g: Meta, scan: seq<Mount>)
    requires ListOk(LastList(g))
    ensures var disks := Weighed(LastList(g), Listed(scan));
            Recorded(w, s, g, disks).list == disks && Recorded(w, s, g, disks).mounted == s.mounted
  {
    hide Listed, Weighed;
  }

  lemma {:induction false} ListedFirst(list: seq<Disk>, scan: seq<Mount>)
    requires ListOk(list) && Weighed(list, Listed(scan)) != []
    ensures Listed(scan) != [] && Listed(scan)[0] in scan && Lists(Weighed(list, Listed(scan)), Listed(scan)[0].path)
  {
    hide Weigh;
    var m := Listed(scan)[0];
    assert m in Listed(scan);
    assert Weighed(list, Listed(scan))[0].path == m.path;
  }

  // ----- the cache -----

  const BUFFER_SIZE := 256 * 1024

  /** The pass of refresh_cache over the scanned disks: the newest metadata, and the disks with room. */
  method ScanDisks(metas: map<Path, Meta>, scan: seq<Mount>) returns (newest: Option<Meta>, mounts: seq<Mount>)
    ensures newest == Newest(metas, scan) && mounts == Listed(scan)
  {
    mounts := [];
    newest := None;
    var maxRecordCount := -1;
    for i := 0 to |scan|
      invariant mounts == Listed(scan[..i])
      invariant newest == Newest(metas, scan[..i])
      invariant maxRecordCount == if newest.None? then -1 else |newest.value|
    {
      assert scan[..i + 1][..i] == scan[..i];
      var cacheMeta := MetaAt(metas, scan[i].path);
      if |cacheMeta| > maxRecordCount {
        maxRecordCount := |cacheMeta|;
        newest := Some(cacheMeta);
      }
      if Gib(scan[i].space) > 1 {
        mounts := mounts + [scan[i]];
      }
    }
    assert scan[..|scan|] == scan;
  }

  class LocalChunkCache {
    const hashes: Hashes
    var files: Files
    var mounted: set<Path>
    var metas: map<Path, Meta>
    var list: seq<Disk>
    var meta: Meta

    ghost function View(): State
      reads this
    {
      State(files, mounted, metas, list, meta)
    }

    /** Opens the cache on disks that may hold files and metadata already, and scans them. */
    constructor (hashes: Hashes, files: Files, metas: map<Path, Meta>, scan: seq<Mount>)
      requires Shaped(hashes, State(files, {}, metas, [], []))
      ensures this.hashes == hashes
      ensures View() == Refreshed(hashes, State(files, {}, metas, [], []), scan)
    {
      this.hashes := hashes;
      this.files := files;
      this.metas := metas;
      mounted := {};
      list := [];
      meta := [];
      new;
      RefreshCache(scan);
    }

    method RefreshCache(scan: seq<Mount>)
      requires Shaped(hashes, View())
      modifies this
      ensures View() == Refreshed(hashes, old(View()), scan)
    {
      mounted := Paths(scan);
      var newest, mounts := ScanDisks(metas, scan);
      if newest.None? {
        list := [];
      } else {
        NewestOk(hashes, metas, scan);
        var disks := WeighDisks(LastList(newest.value), mounts);
        hide *;
        UseDisks(newest.value, disks);
      }
    }

    /** Makes the disks the current list, and records it on all of them if it is not the last one recorded. */
    method UseDisks(newest: Meta, disks: seq<Disk>)
      modifies this
      ensures View() == Recorded(hashes, old(View()), newest, disks)
    {
      hide Published, IsSame;
      var same := false;
      if newest != [] {
        same := CheckSame(newest[|newest| - 1].list, disks);
      }
      meta := newest;
      if !same {
        meta := AddRecord(hashes.record, newest, disks);
        PublishMeta(disks);
      }
      list := disks;
    }

    method PublishMeta(disks: seq<Disk>)
      modifies `metas
      ensures metas == Published(old(metas), disks, meta)
    {
      for i := 0 to |disks|
        modifies `metas
        invariant metas == Published(old(metas), disks[..i], meta)
      {
        assert disks[..i + 1][..i] == disks[..i];
        metas := metas[disks[i].path := meta];
      }
      assert disks[..|disks|] == disks;
    }

    /**
     Writes the chunk to its file piece by piece, as the buffer fills, and keeps the file only if
     its length and digest are those of the id.
     */
    method PutFile(path: Path, id: ChunkId, data: bytes) returns (r: Result<()>)
      modifies `files
      ensures (r, files) == DiskPut(hashes, old(files), path, id, data)
    {
      if hashes.lenOf(id) != |data| {
        return Err(InvalidData);
      }
      var file := File(path, id);
      if file in files {
        return Ok(());
      }
      files := files[file := []];
      var pos := 0;
      while pos < |data|
        modifies `files
        invariant 0 <= pos <= |data|
        invariant files == old(files)[file := data[..pos]]
      {
        var n := if |data| - pos < BUFFER_SIZE then |data| - pos else BUFFER_SIZE;
        assert data[..pos] + data[pos..pos + n] == data[..pos + n];
        files := files[file := files[file] + data[pos..pos + n]];
        pos := pos + n;
      }
      assert data[..|data|] == data;
      if |files[file]| != hashes.lenOf(id) || hashes.idOf(files[file]) != id {
        files := files - {file};
        assert files == old(files);
        return Err(InvalidData);
      }
      return Ok(());
    }

    /** Goes back through the history and moves the chunk to where it is placed now. */
    method FindFromPrev(id: ChunkId, target: Path) returns (r: Result<()>)
      requires Shaped(hashes, View())
      modifies `files
      ensures (r, files) == Migrated(hashes, old(files), mounted, Earlier(meta), id, target)
    {
      hide Place, Readable;
      var index := |meta| - 2;
      assert index >= 0 ==> meta[..index + 1] == Earlier(meta);
      while index >= 0
        modifies `files
        invariant -1 <= index < |meta| - 1 || index == |meta| - 2
        invariant files == old(files)
        invariant Found(hashes, files, mounted, Earlier(meta), id) ==
                  Found(hashes, files, mounted, if index < 0 then [] else meta[..index + 1], id)
      {
        assert meta[..index + 1][..index] == meta[..index];
        var best := SelectRecorded(hashes.ln, id, meta[index].list);
        if best.Some? {
          var chunk := DiskGet(files, mounted, best.value.path, id);
          if chunk.Ok? {
            assert Found(hashes, files, mounted, Earlier(meta), id) == Some(best.value.path);
            r := PutFile(target, id, chunk.value);
            if r.Ok? {
              files := files - {File(best.value.path, id)};
            }
            return;
          }
        }
        index := index - 1;
      }
      return Err(NotFound);
    }

    method GetChunk(id: ChunkId) returns (r: Result<bytes>)
      requires Shaped(hashes, View())
      modifies `files
      ensures (r, View()) == Get(hashes, old(View()), id)
    {
      hide Place, MetaOk, Migrated;
      var place := SelectDisk(hashes.ln, id, list);
      if place.None? {
        return Err(NotFound);
      }
      r := DiskGet(files, mounted, place.value.path, id);
      if r.Err? {
        var moved := FindFromPrev(id, place.value.path);
        if moved.Err? {
          return Err(moved.error);
        }
        r := DiskGet(files, mounted, place.value.path, id);
      }
    }

    method IsExist(id: ChunkId) returns (exist: bool)
      requires Shaped(hashes, View())
      modifies `files
      ensures (exist, View()) == Exists(hashes, old(View()), id)
    {
      hide Place, MetaOk, Migrated;
      var place := SelectDisk(hashes.ln, id, list);
      if place.None? {
        return false;
      }
      exist := DiskExists(hashes, files, mounted, place.value.path, id);
      if !exist {
        var moved := FindFromPrev(id, place.value.path);
        exist := moved.Ok?;
      }
    }

    method PutChunk(id: ChunkId, data: bytes) returns (r: Result<()>)
      requires Shaped(hashes, View())
      modifies `files
      ensures (r, View()) == Put(hashes, old(View()), id, data)
    {
      hide Place, MetaOk;
      var place := SelectDisk(hashes.ln, id, list);
      if place.None? {
        return Err(NotFound);
      }
      r := PutFile(place.value.path, id, data);
    }
  }
}
