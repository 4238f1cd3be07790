/**
 Weighted rendezvous placement of a chunk on one of several disks
 (cyfs-chunk-cache/src/local_chunk_cache.rs, alloc_disk_cache and get_disk_cache).
 A disk scores ln(hash / MAX) / weight for a chunk, with the hash of the chunk id and the disk's path;
 the logarithm of a fraction is a nonpositive real.
 */
module ChunkPlacement {

  import opened Options

  type Path = string

  type ChunkId = seq<nat>

  datatype Disk = Disk(path: Path, weight: nat)

  /** ln(hash(chunk, path) / MAX) for a nonzero hash */
  type LogHash = (ChunkId, Path) -> real

  predicate Weighted(disks: seq<Disk>) {
    forall i | 0 <= i < |disks| :: disks[i].weight > 0
  }

  function Score(ln: LogHash, c: ChunkId, d: Disk): real
    requires d.weight > 0
  {
    ln(c, d.path) / d.weight as real
  }

  /** Scores compare as the logarithms do, each times the other disk's weight. */
  lemma {:induction false} ScoreExactly(ln: LogHash, c: ChunkId, d: Disk, e: Disk)
    requires d.weight > 0 && e.weight > 0
    ensures Score(ln, c, d) < Score(ln, c, e) <==> ln(c, d.path) * e.weight as real < ln(c, e.path) * d.weight as real
  {
  }

  ghost predicate NoTies(ln: LogHash, c: ChunkId, disks: seq<Disk>)
    requires Weighted(disks)
  {
    forall i, j | 0 <= i < |disks| && 0 <= j < |disks| && disks[i] != disks[j] ::
      Score(ln, c, disks[i]) != Score(ln, c, disks[j])
  }

  /** The first disk of the highest score. */
  function Place(ln: LogHash, c: ChunkId, disks: seq<Disk>): (r: Option<Disk>)
    requires Weighted(disks)
    ensures r.None? <==> disks == []
    ensures r.Some? ==> r.value in disks
  {
    if disks == [] then None
    else
      var rest := Place(ln, c, disks[..|disks| - 1]);
      var last := disks[|disks| - 1];
      if rest.None? || Score(ln, c, last) > Score(ln, c, rest.value) then Some(last) else rest
  }

  /** The search of alloc_disk_cache and get_disk_cache: one disk is taken without scoring it. */
  method SelectDisk(ln: LogHash, c: ChunkId, disks: seq<Disk>) returns (r: Option<Disk>)
    requires Weighted(disks)
    ensures r == Place(ln, c, disks)
  {
    if |disks| == 1 {
      assert disks[..0] == [];
      return Some(disks[0]);
    }
    r := SelectRecorded(ln, c, disks);
  }

  /** The search of find_chunk_from_prev_async over one recorded list. */
  method SelectRecorded(ln: LogHash, c: ChunkId, disks: seq<Disk>) returns (r: Option<Disk>)
    requires Weighted(disks)
    ensures r == Place(ln, c, disks)
  {
    var max := None;
    r := None;
    for i := 0 to |disks|
      invariant r == Place(ln, c, disks[..i])
      invariant max == if r.None? then None else Some(Score(ln, c, r.value))
    {
      assert disks[..i + 1][..i] == disks[..i];
      var v := Score(ln, c, disks[i]);
      if max.None? || v > max.value {
        max := Some(v);
        r := Some(disks[i]);
      }
    }
    assert disks[..|disks|] == disks;
  }

  /** The placement is a maximum, and no disk before it scores as much. */
  lemma {:induction false} PlaceIsFirstMaximum(ln: LogHash, c: ChunkId, disks: seq<Disk>) returns (k: nat)
    requires Weighted(disks) && disks != []
    ensures k < |disks| && Place(ln, c, disks) == Some(disks[k])
    ensures forall i | 0 <= i < |disks| :: Score(ln, c, disks[i]) <= Score(ln, c, disks[k])
    ensures forall i | 0 <= i < k :: Score(ln, c, disks[i]) < Score(ln, c, disks[k])
  {
    hide Score;
    var n := |disks| - 1;
    if n == 0 {
      return 0;
    }
    k := PlaceIsFirstMaximum(ln, c, disks[..n]);
    assert forall i | 0 <= i < n :: disks[i] == disks[..n][i];
    if Score(ln, c, disks[n]) > Score(ln, c, disks[k]) {
      k := n;
    }
  }

  /** Without ties the placement is the one disk that beats every other. */
  lemma {:induction false} PlaceExactly(ln: LogHash, c: ChunkId, disks: seq<Disk>, d: Disk)
    requires Weighted(disks) && NoTies(ln, c, disks)
    ensures Place(ln, c, disks) == Some(d) <==>
            d in disks && forall e | e in disks && e != d :: Score(ln, c, e) < Score(ln, c, d)
  {
    hide Place, Score;
    if disks != [] {
      var k := PlaceIsFirstMaximum(ln, c, disks);
      forall e | e in disks && e != disks[k]
        ensures Score(ln, c, e) < Score(ln, c, disks[k])
      {
        var i :| 0 <= i < |disks| && disks[i] == e;
      }
      if d in disks && d != disks[k] {
        assert Score(ln, c, d) < Score(ln, c, disks[k]);
      }
    }
  }

  ghost predicate SameDisks(disks: seq<Disk>, others: seq<Disk>) {
    forall d :: d in disks <==> d in others
  }

  lemma {:induction false} SameDisksNoTies(ln: LogHash, c: ChunkId, disks: seq<Disk>, others: seq<Disk>)
    requires Weighted(disks) && NoTies(ln, c, disks) && SameDisks(disks, others)
    ensures Weighted(others) && NoTies(ln, c, others)
  {
    hide Score;
    forall i | 0 <= i < |others|
      ensures others[i] in disks
    {
      assert others[i] in others;
    }
  }

  /** The order of the list does not matter, nor do repetitions. */
  lemma {:induction false} PlaceAnyOrder(ln: LogHash, c: ChunkId, disks: seq<Disk>, others: seq<Disk>)
    requires Weighted(disks) && NoTies(ln, c, disks) && SameDisks(disks, others)
    ensures Weighted(others) && Place(ln, c, others) == Place(ln, c, disks)
  {
    hide Place, Score;
    SameDisksNoTies(ln, c, disks, others);
    if disks != [] {
      var d := Place(ln, c, disks).value;
      PlaceExactly(ln, c, disks, d);
      PlaceExactly(ln, c, others, d);
    } else {
      assert forall i | 0 <= i < |others| :: others[i] in disks;
    }
  }

  // ----- minimal disruption -----

  /** After adding a disk, anywhere in the list, a chunk is on that disk or where it was. */
  lemma {:induction false} AddingMovesOnlyOntoIt(ln: LogHash, c: ChunkId, disks: seq<Disk>, d: Disk, grown: seq<Disk>)
    requires Weighted(disks) && Weighted(grown) && NoTies(ln, c, grown)
    requires SameDisks(grown, disks + [d])
    ensures Place(ln, c, grown) == Some(d) || Place(ln, c, grown) == Place(ln, c, disks)
  {
    hide Place, Score;
    assert d in disks + [d];
    var p := Place(ln, c, grown).value;
    if p != d {
      assert p in disks + [d];
      PlaceExactly(ln, c, grown, p);
      forall i | 0 <= i < |disks|
        ensures disks[i] in grown
      {
        assert disks[i] in disks + [d];
      }
      PlaceExactly(ln, c, disks, p);
    }
  }

  /** After removing a disk, only the chunks that were on it move. */
  lemma {:induction false} RemovingMovesOnlyItsChunks(ln: LogHash, c: ChunkId, disks: seq<Disk>, d: Disk, shrunk: seq<Disk>)
    requires Weighted(disks) && Weighted(shrunk) && NoTies(ln, c, disks)
    requires SameDisks(disks, shrunk + [d])
    ensures Place(ln, c, disks) != Some(d) ==> Place(ln, c, shrunk) == Place(ln, c, disks)
  {
    AddingMovesOnlyOntoIt(ln, c, shrunk, d, disks);
  }

  lemma {:induction false} HeavierScoresHigher(ln: LogHash, c: ChunkId, p: Path, weight: nat, heavier: nat)
    requires 0 < weight <= heavier && ln(c, p) <= 0.0
    ensures Score(ln, c, Disk(p, weight)) <= Score(ln, c, Disk(p, heavier))
  {
    Dividing(ln(c, p), weight as real, heavier as real);
  }

  lemma {:induction false} Dividing(x: real, a: real, b: real)
    requires x <= 0.0 && 0.0 < a <= b
    ensures x / a <= x / b
  {
    var v := x / b;
    assert v * b == x;
    assert v * b <= v * a;
  }

  /**
   After raising the weight of one disk, a chunk is on that disk or where it was,
   and the chunks of that disk stay.
   */
  lemma {:induction false} RaisingMovesOnlyOntoIt(ln: LogHash, c: ChunkId, disks: seq<Disk>, i: nat, heavier: nat)
    requires Weighted(disks) && NoTies(ln, c, disks)
    requires i < |disks| && disks[i].weight <= heavier && ln(c, disks[i].path) <= 0.0
    requires disks[i] !in disks[..i] && disks[i] !in disks[i + 1..]
    requires NoTies(ln, c, disks[i := Disk(disks[i].path, heavier)])
    ensures var d := Disk(disks[i].path, heavier);
            var raised := disks[i := d];
            && (Place(ln, c, raised) == Some(d) || Place(ln, c, raised) == Place(ln, c, disks))
            && (Place(ln, c, disks) == Some(disks[i]) ==> Place(ln, c, raised) == Some(d))
  {
    hide Place, Score;
    var d := Disk(disks[i].path, heavier);
    var raised := disks[i := d];
    HeavierScoresHigher(ln, c, disks[i].path, disks[i].weight, heavier);
    assert raised[i] == d;
    var was, now := Place(ln, c, disks).value, Place(ln, c, raised).value;
    PlaceExactly(ln, c, disks, was);
    PlaceExactly(ln, c, raised, now);
    var m :| 0 <= m < |disks| && disks[m] == was;
    assert m != i ==> raised[m] == was;
    var k :| 0 <= k < |raised| && raised[k] == now;
    assert k != i ==> disks[k] == now;
  }
}
