/**
 A file as a list of chunks: the map of where each chunk goes and the writing of chunks into the
 mapped file (cyfs-chunk-cache/src/local_file.rs), and reading the file back through its chunks
 (cyfs-chunk-cache/src/cached_file.rs).
 */
module FileAssembly {
  import opened ByteCodec

  /** A chunk id carries the length of its chunk. */
  datatype ChunkId = ChunkId(hash: bytes, len: nat)

  datatype Extent = Extent(pos: nat, len: nat)

  type ChunkMap = map<ChunkId, seq<Extent>>

  /** What the chunks hold. */
  type Content = ChunkId -> bytes

  ghost predicate Lawful(content: Content) {
    forall id :: |content(id)| == id.len
  }

  /** Where chunk `i` of the list starts; `Start(list, |list|)` is the length of the file. */
  function Start(list: seq<ChunkId>, i: nat): nat
    requires i <= |list|
  {
    if i == 0 then 0 else Start(list, i - 1) + list[i - 1].len
  }

  function Length(list: seq<ChunkId>): nat {
    Start(list, |list|)
  }

  /** The file: its chunks in order. */
  function Flat(list: seq<ChunkId>, content: Content): bytes {
    if list == [] then [] else Flat(list[..|list| - 1], content) + content(list[|list| - 1])
  }

  lemma {:induction false} StartPrefix(list: seq<ChunkId>, n: nat, i: nat)
    requires i <= n <= |list|
    ensures Start(list[..n], i) == Start(list, i)
  {
    if i == 0 {
    } else {
      StartPrefix(list, n, i - 1);
    }
  }

  lemma {:induction false} StartRises(list: seq<ChunkId>, i: nat, j: nat)
    requires i < j <= |list|
    ensures Start(list, i) + list[i].len <= Start(list, j)
    decreases j
  {
    if i + 1 == j {
    } else {
      StartRises(list, i, j - 1);
    }
  }

  /** The chunks of the list share no byte. */
  lemma {:induction false} OneChunkAt(list: seq<ChunkId>, i: nat, j: nat, p: nat)
    requires i < |list| && j < |list|
    requires Start(list, i) <= p < Start(list, i) + list[i].len && Start(list, j) <= p < Start(list, j) + list[j].len
    ensures i == j
  {
    if i < j {
      StartRises(list, i, j);
    } else if j < i {
      StartRises(list, j, i);
    }
  }

  lemma {:induction false} FlatAt(list: seq<ChunkId>, content: Content, i: nat)
    requires Lawful(content) && i < |list|
    ensures |Flat(list, content)| == Length(list)
    ensures Start(list, i) + list[i].len <= Length(list)
    ensures Flat(list, content)[Start(list, i)..Start(list, i) + list[i].len] == content(list[i])
  {
    var n := |list| - 1;
    StartPrefix(list, n, n);
    FlatLength(list[..n], content);
    var before := Flat(list[..n], content);
    assert Flat(list, content) == before + content(list[n]);
    if i == n {
      assert (before + content(list[n]))[|before|..] == content(list[n]);
    } else {
      FlatAt(list[..n], content, i);
      StartPrefix(list, n, i);
      assert list[..n][i] == list[i];
      var from, to := Start(list, i), Start(list, i) + list[i].len;
      assert (before + content(list[n]))[from..to] == before[from..to];
    }
  }

  lemma {:induction false} FlatLength(list: seq<ChunkId>, content: Content)
    requires Lawful(content)
    ensures |Flat(list, content)| == Length(list)
  {
    if list == [] {
    } else {
      var n := |list| - 1;
      FlatLength(list[..n], content);
      StartPrefix(list, n, n);
    }
  }

  // ----- the chunk map -----

  /** The places of a chunk, first to last. */
  function Extents(list: seq<ChunkId>, id: ChunkId): seq<Extent> {
    if list == [] then []
    else
      var n := |list| - 1;
      Extents(list[..n], id) + if list[n] == id then [Extent(Start(list, n), id.len)] else []
  }

  ghost predicate MapsList(m: ChunkMap, list: seq<ChunkId>) {
    forall id :: (id in m <==> id in list) && (id in m ==> m[id] == Extents(list, id))
  }

  method BuildChunkMap(list: seq<ChunkId>) returns (m: ChunkMap)
    ensures MapsList(m, list)
  {
    m := map[];
    assert MapsList(m, list[..0]);
    hide MapsList, Extents;
    var pos := 0;
    for i := 0 to |list|
      invariant pos == Start(list, i)
      invariant MapsList(m, list[..i])
    {
      var id := list[i];
      ghost var before := m;
      if id !in m {
        assert [] + [Extent(pos, id.len)] == [Extent(pos, id.len)];
        m := m[id := [Extent(pos, id.len)]];
      } else {
        m := m[id := m[id] + [Extent(pos, id.len)]];
      }
      pos := pos + id.len;
      MapsMore(before, m, list, i);
    }
    assert list[..|list|] == list;
  }

  lemma {:induction false} MapsMore(before: ChunkMap, m: ChunkMap, list: seq<ChunkId>, i: nat)
    requires i < |list| && MapsList(before, list[..i])
    requires m == before[list[i] := (if list[i] in before then before[list[i]] else []) + [Extent(Start(list, i), list[i].len)]]
    ensures MapsList(m, list[..i + 1])
  {
    var more := list[..i + 1];
    assert more == list[..i] + [list[i]];
    if list[i] !in before {
      NoExtents(list[..i], list[i]);
    }
    forall id
      ensures (id in m <==> id in more) && (id in m ==> m[id] == Extents(more, id))
    {
      ExtentsMore(list, i, id);
      hide Extents;
    }
  }

  lemma {:induction false} ExtentsMore(list: seq<ChunkId>, i: nat, id: ChunkId)
    requires i < |list|
    ensures Extents(list[..i + 1], id) ==
            Extents(list[..i], id) + if list[i] == id then [Extent(Start(list, i), id.len)] else []
  {
    assert list[..i + 1][..i] == list[..i];
    StartPrefix(list, i + 1, i);
  }

  lemma {:induction false} NoExtents(list: seq<ChunkId>, id: ChunkId)
    requires id !in list
    ensures Extents(list, id) == []
  {
    if list == [] {
    } else {
      NoExtents(list[..|list| - 1], id);
    }
  }

  lemma {:induction false} ExtentOccurs(list: seq<ChunkId>, id: ChunkId, e: Extent) returns (i: nat)
    requires e in Extents(list, id)
    ensures i < |list| && list[i] == id && e == Extent(Start(list, i), id.len)
  {
    var n := |list| - 1;
    if e in Extents(list[..n], id) {
      i := ExtentOccurs(list[..n], id, e);
      StartPrefix(list, n, i);
    } else {
      i := n;
    }
  }

  lemma {:induction false} OccurrenceExtends(list: seq<ChunkId>, i: nat)
    requires i < |list|
    ensures Extent(Start(list, i), list[i].len) in Extents(list, list[i])
  {
    var n := |list| - 1;
    if i == n {
    } else {
      OccurrenceExtends(list[..n], i);
      StartPrefix(list, n, i);
    }
  }

  /** Byte `p` of the file lies in chunk `i` of the list. */
  predicate In(list: seq<ChunkId>, i: nat, p: nat) {
    i < |list| && Start(list, i) <= p < Start(list, i) + list[i].len
  }

  lemma {:induction false} SomeChunkAt(list: seq<ChunkId>, p: nat) returns (i: nat)
    requires p < Length(list)
    ensures In(list, i, p)
  {
    var n := |list| - 1;
    StartPrefix(list, n, n);
    if p < Start(list, n) {
      i := SomeChunkAt(list[..n], p);
      StartPrefix(list, n, i);
    } else {
      i := n;
    }
  }

  /** The ranges of the map partition the file: every byte is in one extent of one chunk, repeated chunks included. */
  lemma {:induction false} ExtentsPartition(m: ChunkMap, list: seq<ChunkId>, p: nat)
    requires MapsList(m, list)
    ensures p < Length(list) <==> exists id, e :: Covers(m, id, e, p)
    ensures forall id, e, id', e' | Covers(m, id, e, p) && Covers(m, id', e', p) :: id == id' && e == e'
  {
    if p < Length(list) {
      var i := SomeChunkAt(list, p);
      OccurrenceExtends(list, i);
      assert list[i] in m;
      assert Covers(m, list[i], Extent(Start(list, i), list[i].len), p);
    }
    forall id, e | Covers(m, id, e, p)
      ensures p < Length(list)
    {
      var i := ExtentOccurs(list, id, e);
      StartRises(list, i, |list|);
    }
    forall id, e, id', e' | Covers(m, id, e, p) && Covers(m, id', e', p)
      ensures id == id' && e == e'
    {
      var i := ExtentOccurs(list, id, e);
      var j := ExtentOccurs(list, id', e');
      OneChunkAt(list, i, j, p);
    }
  }

  predicate Covers(m: ChunkMap, id: ChunkId, e: Extent, p: nat) {
    id in m && e in m[id] && e.pos <= p < e.pos + e.len
  }

  // ----- writing chunks into the file -----

  /** `piece` written over the file at `pos`. */
  function Overlay(file: bytes, pos: nat, piece: bytes): (r: bytes)
    requires pos + |piece| <= |file|
    ensures |r| == |file|
  {
    file[..pos] + piece + file[pos + |piece|..]
  }

  method Copy(file: array<byte>, pos: nat, piece: bytes)
    requires pos + |piece| <= file.Length
    modifies file
    ensures file[..] == Overlay(old(file[..]), pos, piece)
  {
    for i := 0 to |piece|
      invariant forall k | 0 <= k < file.Length ::
                  file[k] == if pos <= k < pos + i then piece[k - pos] else old(file[k])
    {
      file[pos + i] := piece[i];
    }
  }

  /** `data` written over every extent. */
  function Written(file: bytes, extents: seq<Extent>, data: bytes): (r: bytes)
    requires forall e | e in extents :: e.pos + e.len <= |file| && e.len <= |data|
    ensures |r| == |file|
  {
    if extents == [] then file
    else
      var e := extents[|extents| - 1];
      var before := Written(file, extents[..|extents| - 1], data);
      Overlay(before, e.pos, data[..e.len])
  }

  class LocalFile {
    const chunkMap: ChunkMap
    const mmap: array<byte>
    ghost const list: seq<ChunkId>

    ghost predicate Valid() {
      MapsList(chunkMap, list) && mmap.Length == Length(list)
    }

    constructor Open(list: seq<ChunkId>, mmap: array<byte>)
      requires mmap.Length == Length(list)
      ensures Valid() && this.list == list && this.mmap == mmap
    {
      var m := BuildChunkMap(list);
      this.chunkMap := m;
      this.mmap := mmap;
      this.list := list;
    }

    /** Copies the chunk to each of its places; false is NotFound. */
    method PutChunk(id: ChunkId, data: bytes) returns (found: bool)
      requires Valid() && id.len <= |data|
      modifies mmap
      ensures found <==> id in list
      ensures !found ==> mmap[..] == old(mmap[..])
      ensures found ==> Fitting(Extents(list, id), mmap.Length, data) && mmap[..] == Written(old(mmap[..]), Extents(list, id), data)
    {
      if id !in chunkMap {
        return false;
      }
      var extents := chunkMap[id];
      ExtentsFit(list, id, data);
      hide Extents, Overlay, MapsList;
      for k := 0 to |extents|
        invariant Fitting(extents[..k], mmap.Length, data)
        invariant mmap[..] == Written(old(mmap[..]), extents[..k], data)
      {
        assert extents[..k + 1][..k] == extents[..k] && extents[k] in extents;
        Copy(mmap, extents[k].pos, data[..extents[k].len]);
      }
      assert extents[..|extents|] == extents;
      return true;
    }
  }

  predicate Fitting(extents: seq<Extent>, length: nat, data: bytes) {
    forall e | e in extents :: e.pos + e.len <= length && e.len <= |data|
  }

  lemma {:induction false} ExtentsFit(list: seq<ChunkId>, id: ChunkId, data: bytes)
    requires id.len <= |data|
    ensures Fitting(Extents(list, id), Length(list), data)
  {
    forall e | e in Extents(list, id)
      ensures e.pos + e.len <= Length(list) && e.len <= |data|
    {
      var i := ExtentOccurs(list, id, e);
      StartRises(list, i, |list|);
    }
  }

  lemma {:induction false} OverlayAt(file: bytes, pos: nat, piece: bytes, p: nat)
    requires pos + |piece| <= |file| && p < |file|
    ensures Overlay(file, pos, piece)[p] == if pos <= p < pos + |piece| then piece[p - pos] else file[p]
  {
  }

  lemma {:induction false} WrittenMore(file: bytes, extents: seq<Extent>, e: Extent, data: bytes)
    requires Fitting(extents, |file|, data) && e.pos + e.len <= |file| && e.len <= |data|
    ensures Fitting(extents + [e], |file|, data)
    ensures Written(file, extents + [e], data) == Overlay(Written(file, extents, data), e.pos, data[..e.len])
  {
    hide Overlay;
    assert (extents + [e])[..|extents|] == extents;
  }

  /** Putting a chunk sets the bytes of its occurrences among the first `n` and no others. */
  lemma {:induction false} WrittenAt(list: seq<ChunkId>, n: nat, id: ChunkId, file: bytes, data: bytes, i: nat, p: nat)
    requires n <= |list| && |file| == Length(list) && id.len <= |data| && In(list, i, p)
    ensures p < |file| && Fitting(Extents(list[..n], id), |file|, data)
    ensures Written(file, Extents(list[..n], id), data)[p] ==
            if i < n && list[i] == id then data[p - Start(list, i)] else file[p]
  {
    StartRises(list, i, |list|);
    if n == 0 {
      assert Extents(list[..0], id) == [];
    } else {
      var k := n - 1;
      WrittenAt(list, k, id, file, data, i, p);
      ExtentsMore(list, k, id);
      hide Extents, Written, Overlay, Fitting;
      var earlier := Extents(list[..k], id);
      if list[k] == id {
        StartRises(list, k, |list|);
        var e := Extent(Start(list, k), id.len);
        WrittenMore(file, earlier, e, data);
        OverlayAt(Written(file, earlier, data), e.pos, data[..e.len], p);
        if In(list, k, p) {
          OneChunkAt(list, i, k, p);
        }
      } else {
        assert earlier + [] == earlier;
      }
    }
  }

  /** The file after the chunks of `order` have been put in that order. */
  function AfterPuts(list: seq<ChunkId>, file: bytes, order: seq<ChunkId>, content: Content): (r: bytes)
    requires |file| == Length(list)
    requires forall k | 0 <= k < |order| :: |content(order[k])| == order[k].len
    ensures |r| == |file|
  {
    if order == [] then file
    else
      var n := |order| - 1;
      var before := AfterPuts(list, file, order[..n], content);
      ExtentsFit(list, order[n], content(order[n]));
      Written(before, Extents(list, order[n]), content(order[n]))
  }

  lemma {:induction false} AfterPutsAt(list: seq<ChunkId>, file: bytes, order: seq<ChunkId>, content: Content, i: nat, p: nat)
    requires |file| == Length(list) && Lawful(content) && In(list, i, p)
    ensures p < |file|
    ensures AfterPuts(list, file, order, content)[p] ==
            if list[i] in order then content(list[i])[p - Start(list, i)] else file[p]
  {
    StartRises(list, i, |list|);
    if order == [] {
    } else {
      var n := |order| - 1;
      AfterPutsAt(list, file, order[..n], content, i, p);
      var before := AfterPuts(list, file, order[..n], content);
      assert list[..|list|] == list;
      WrittenAt(list, |list|, order[n], before, content(order[n]), i, p);
      assert order == order[..n] + [order[n]];
    }
  }

  /** Putting each chunk of the file at least once, in any order, leaves exactly the file. */
  lemma {:induction false} AnyOrderAssembles(list: seq<ChunkId>, file: bytes, order: seq<ChunkId>, content: Content)
    requires |file| == Length(list) && Lawful(content)
    requires forall i | 0 <= i < |list| :: list[i] in order
    ensures AfterPuts(list, file, order, content) == Flat(list, content)
  {
    FlatLength(list, content);
    hide Flat, AfterPuts, Start, Length;
    var end := AfterPuts(list, file, order, content);
    forall p | 0 <= p < |file|
      ensures end[p] == Flat(list, content)[p]
    {
      var i := SomeChunkAt(list, p);
      AfterPutsAt(list, file, order, content, i, p);
      FlatByte(list, content, i, p);
    }
  }

  lemma {:induction false} FlatByte(list: seq<ChunkId>, content: Content, i: nat, p: nat)
    requires Lawful(content) && In(list, i, p)
    ensures p < |Flat(list, content)| == Length(list)
    ensures Flat(list, content)[p] == content(list[i])[p - Start(list, i)]
  {
    FlatAt(list, content, i);
    hide Flat, Start;
    assert Flat(list, content)[p] == Flat(list, content)[Start(list, i)..Start(list, i) + list[i].len][p - Start(list, i)];
  }

  // ----- reading the file -----

  datatype Result<+T> = Ok(value: T) | Err

  /** The chunk at a position, with its start. */
  method ChunkByPos(list: seq<ChunkId>, pos: nat) returns (r: Result<(nat, ChunkId)>)
    ensures r.Err? <==> pos >= Length(list)
    ensures r.Ok? ==> exists i: nat :: In(list, i, pos) && r.value == (Start(list, i), list[i])
  {
    var cur := 0;
    for i := 0 to |list|
      invariant cur == Start(list, i) <= pos
    {
      if cur <= pos && cur + list[i].len > pos {
        StartRises(list, i, |list|);
        assert In(list, i, pos);
        return Ok((cur, list[i]));
      } else {
        cur := cur + list[i].len;
      }
    }
    return Err;
  }

  /** `n` bytes of the file from `pos` on. */
  function Piece(list: seq<ChunkId>, content: Content, pos: nat, n: nat): (s: bytes)
    requires n == 0 || pos + n <= |Flat(list, content)|
    ensures |s| == n
  {
    if n == 0 then [] else Flat(list, content)[pos..pos + n]
  }

  /** How many bytes a read of `len` from `pos` gives. */
  function ReadSize(list: seq<ChunkId>, pos: nat, len: nat): nat {
    if pos >= Length(list) then 0 else if len < Length(list) - pos then len else Length(list) - pos
  }

  /** As many as fit the buffer and are in the file. */
  lemma {:induction false} ReadSizeExactly(list: seq<ChunkId>, pos: nat, len: nat, m: nat)
    ensures m <= ReadSize(list, pos, len) <==> m == 0 || (m <= len && pos + m <= Length(list))
  {
  }

  lemma {:induction false} PieceFromChunk(list: seq<ChunkId>, content: Content, i: nat, pos: nat, n: nat)
    requires Lawful(content) && In(list, i, pos) && pos + n <= Start(list, i) + list[i].len
    ensures |Flat(list, content)| == Length(list) >= pos + n
    ensures Piece(list, content, pos, n) == content(list[i])[pos - Start(list, i)..pos - Start(list, i) + n]
  {
    FlatAt(list, content, i);
    hide Flat, Start;
    var whole := Flat(list, content)[Start(list, i)..Start(list, i) + list[i].len];
    var offset := pos - Start(list, i);
    SliceOfSlice(Flat(list, content), Start(list, i), Start(list, i) + list[i].len, offset, n);
  }

  lemma {:induction false} SliceOfSlice(s: bytes, a: nat, b: nat, x: nat, n: nat)
    requires a <= b <= |s| && x + n <= b - a
    ensures s[a..b][x..x + n] == s[a + x..a + x + n]
  {
    var left, right := s[a..b][x..x + n], s[a + x..a + x + n];
    forall k | 0 <= k < n
      ensures left[k] == right[k]
    {
      assert left[k] == s[a..b][x + k];
    }
  }

  lemma {:induction false} OverlayJoins(file: bytes, first: bytes, second: bytes)
    requires |first| + |second| <= |file|
    ensures Overlay(Overlay(file, 0, first), |first|, second) == Overlay(file, 0, first + second)
  {
  }

  lemma {:induction false} PieceJoins(list: seq<ChunkId>, content: Content, pos: nat, n: nat, m: nat)
    requires pos + n + m <= |Flat(list, content)|
    ensures Piece(list, content, pos, n) + Piece(list, content, pos + n, m) == Piece(list, content, pos, n + m)
  {
    hide Flat;
  }

  class CachedFile {
    const list: seq<ChunkId>
    const content: Content
    var pos: nat
    var chunkMap: map<ChunkId, bytes>

    ghost predicate Valid()
      reads this
    {
      && Lawful(content)
      && forall id | id in chunkMap :: chunkMap[id] == content(id)
    }

    constructor Open(list: seq<ChunkId>, content: Content)
      requires Lawful(content)
      ensures Valid() && this.list == list && this.content == content && pos == 0 && chunkMap == map[]
    {
      this.list := list;
      this.content := content;
      pos := 0;
      chunkMap := map[];
    }

    /** Takes the chunk at a position out of the map, fetching it from the manager if it is not there. */
    method GetChunkByPos(at: nat, available: set<ChunkId>) returns (r: Result<(nat, ChunkId, bytes)>)
      requires Valid()
      modifies `chunkMap
      ensures Valid()
      ensures r.Ok? ==> exists i: nat :: In(list, i, at) && r.value == (Start(list, i), list[i], content(list[i]))
      ensures r.Ok? ==> chunkMap == old(chunkMap) - {r.value.1}
      ensures r.Err? ==> chunkMap == old(chunkMap)
      ensures r.Err? ==> at >= Length(list) || Missing(available)
    {
      var found := ChunkByPos(list, at);
      if found.Err? {
        return Err;
      }
      ghost var i: nat :| In(list, i, at) && found.value == (Start(list, i), list[i]);
      var id := found.value.1;
      if id !in chunkMap {
        if id !in available {
          return Err;
        }
        chunkMap := chunkMap[id := content(id)];
      }
      var chunk := chunkMap[id];
      chunkMap := chunkMap - {id};
      return Ok((found.value.0, id, chunk));
    }

    /** One round of a read: what the chunk at the position still has, as far as there is room. */
    method ReadFromChunk(buf: array<byte>, done: nat, available: set<ChunkId>) returns (r: Result<nat>)
      requires Valid() && done < buf.Length && pos < Length(list)
      modifies this, buf
      ensures Valid() && old(chunkMap).Keys <= chunkMap.Keys
      ensures r.Ok? ==> 0 < r.value <= buf.Length - done && pos == old(pos) + r.value <= Length(list) == |Flat(list, content)|
      ensures r.Ok? ==> buf[..] == Overlay(old(buf[..]), done, Piece(list, content, old(pos), r.value))
      ensures r.Err? ==> pos == old(pos) && buf[..] == old(buf[..]) && Missing(available)
    {
      hide Flat, Start;
      var got := GetChunkByPos(pos, available);
      if got.Err? {
        return Err;
      }
      var (start, id, chunk) := got.value;
      ghost var i: nat :| In(list, i, pos) && got.value == (Start(list, i), list[i], content(list[i]));
      var offset := pos - start;
      var size := if buf.Length - done < |chunk| - offset then buf.Length - done else |chunk| - offset;
      PieceFromChunk(list, content, i, pos, size);
      Copy(buf, done, chunk[offset..offset + size]);
      pos := pos + size;
      chunkMap := chunkMap[id := chunk];
      return Ok(size);
    }

    /** Some chunk of the file is neither here nor to be had. */
    ghost predicate Missing(available: set<ChunkId>)
      reads this
    {
      exists id :: id in list && id !in available && id !in chunkMap
    }

    /**
     Reads on from the position until the buffer is full or the file ends. The chunks that fail to
     come are the only reason for an error, and the bytes read up to then are the file's.
     */
    method Read(buf: array<byte>, available: set<ChunkId>) returns (r: Result<nat>)
      requires Valid()
      modifies this, buf
      ensures Valid() && old(pos) <= pos
      ensures var n := pos - old(pos);
              && n <= ReadSize(list, old(pos), buf.Length) <= buf.Length
              && (n == 0 || old(pos) + n <= |Flat(list, content)|)
              && buf[..] == Overlay(old(buf[..]), 0, Piece(list, content, old(pos), n))
              && (r.Ok? ==> r.value == n == ReadSize(list, old(pos), buf.Length))
      ensures r.Err? ==> Missing(available)
    {
      hide Flat, Start, Length, Overlay, Piece, Lawful, Missing;
      ghost var from, was := pos, buf[..];
      NothingRead(was, list, content, from);
      if buf.Length == 0 || pos >= Length(list) {
        return Ok(0);
      }
      FlatLength(list, content);
      var readLen := 0;
      while true
        invariant Valid() && pos == from + readLen
        invariant readLen < buf.Length && pos < Length(list)
        invariant buf[..] == Overlay(was, 0, Piece(list, content, from, readLen))
        decreases buf.Length - readLen
      {
        var size := ReadFromChunk(buf, readLen, available);
        if size.Err? {
          return Err;
        }
        ReadOn(was, list, content, from, readLen, size.value);
        readLen := readLen + size.value;
        if readLen == buf.Length || pos >= Length(list) {
          return Ok(readLen);
        }
      }
    }
  }

  lemma {:induction false} ReadOn(was: bytes, list: seq<ChunkId>, content: Content, from: nat, n: nat, m: nat)
    requires n + m <= |was| && from + n + m <= |Flat(list, content)|
    ensures Overlay(Overlay(was, 0, Piece(list, content, from, n)), n, Piece(list, content, from + n, m))
         == Overlay(was, 0, Piece(list, content, from, n + m))
  {
    hide Flat, Overlay, Piece;
    PieceJoins(list, content, from, n, m);
    OverlayJoins(was, Piece(list, content, from, n), Piece(list, content, from + n, m));
  }

  lemma {:induction false} NothingRead(buf: bytes, list: seq<ChunkId>, content: Content, pos: nat)
    ensures Overlay(buf, 0, Piece(list, content, pos, 0)) == buf
  {
  }
}
