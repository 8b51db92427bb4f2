/** The server's batching of a restore: which chunk IDs are sent in which response. */
module RestoreLoop {
  import opened CircularIndex
  import opened Sequences
  import opened Tiling

  const ID_RANGE: nat := 0x1_0000_0000

  /** An empty batch, full ones, and a last one that is not empty. */
  ghost predicate Regular(batches: seq<Claim>, limit: nat) {
    && batches != [] && batches[0].count == 0
    && (forall i :: 0 < i < |batches| - 1 ==> batches[i].count == limit)
    && (|batches| > 1 ==> batches[|batches| - 1].count > 0)
  }

  lemma RegularFirst(limit: nat)
    ensures Regular([Claim(0, 0)], limit)
  {
  }

  lemma RegularNext(batches: seq<Claim>, limit: nat, c: Claim)
    requires Regular(batches, limit) && c.count > 0 && (|batches| > 1 ==> batches[|batches| - 1].count == limit)
    ensures Regular(batches + [c], limit)
  {
  }

  /**
   The batches of a restore of `total` chunks, at most `limit` at a time. The first one stops one short of a small file,
   and is empty for a large one; IDs are 32-bit, so the bound of an empty small file wraps, unused.
   */
  method Batches(total: nat, limit: nat) returns (batches: seq<Claim>)
    requires 0 < limit && total + limit < ID_RANGE
    ensures Tiles(batches, total)
    ensures forall i :: 0 <= i < |batches| ==> batches[i].count <= limit
    ensures |batches| <= total + 1
    ensures total == 0 ==> batches == []
    ensures 0 < total < limit ==> batches == [Claim(0, total - 1), Claim(total - 1, 1)]
    ensures total >= limit ==> Regular(batches, limit) && |batches| > 1
  {
    hide Tiles, Regular;
    NothingTiled();
    RegularFirst(limit);
    var startID, endID, totalRestored := 0, 0, 0;
    batches := [];
    if total < limit {
      endID := (total - 1) % ID_RANGE;
    }
    while totalRestored != total
      invariant startID == totalRestored <= total && Tiles(batches, totalRestored)
      invariant totalRestored != total ==> startID <= endID <= total && endID - startID <= limit
      invariant totalRestored != total ==> startID < endID || (startID == 0 && batches == [])
      invariant forall i :: 0 <= i < |batches| ==> batches[i].count <= limit
      invariant |batches| <= totalRestored + (if batches == [] then 0 else 1)
      invariant total == 0 ==> batches == []
      invariant batches == [] ==> startID == 0 && (total > 0 ==> endID == if total < limit then total - 1 else 0)
      invariant 0 < total < limit && batches != [] ==>
        if totalRestored != total then batches == [Claim(0, total - 1)] && startID == total - 1 && endID == total
        else batches == [Claim(0, total - 1), Claim(total - 1, 1)]
      invariant total >= limit && batches != [] ==>
        && Regular(batches, limit) && (|batches| == 1 <==> totalRestored == 0)
        && (totalRestored != total ==> endID - startID == Min(limit, total - totalRestored))
        && (totalRestored != total && |batches| > 1 ==> batches[|batches| - 1].count == limit)
      decreases total - totalRestored, if startID < endID then 0 else 1
    {
      var restored := endID - startID;
      TilesNext(batches, startID, restored);
      if total >= limit && batches != [] {
        RegularNext(batches, limit, Claim(startID, restored));
      }
      batches := batches + [Claim(startID, restored)];
      totalRestored := totalRestored + restored;
      startID := endID;
      var remain := total - totalRestored;
      endID := endID + if remain < limit then total - totalRestored else limit;
    }
  }

  /** What the batches cut out of a list. */
  function Slices<T>(batches: seq<Claim>, all: seq<T>, n: nat): seq<seq<T>>
    requires n <= |all| && Tiles(batches, n)
    decreases |batches|
  {
    if batches == [] then []
    else
      var last := batches[|batches| - 1];
      Slices(batches[..|batches| - 1], all, last.first) + [all[last.first..n]]
  }

  /** Put together, the batches are the whole list, in order and each element once. */
  lemma {:induction false} SlicesAreTheList<T>(batches: seq<Claim>, all: seq<T>, n: nat)
    requires n <= |all| && Tiles(batches, n)
    ensures Concat(Slices(batches, all, n)) == all[..n] && |Slices(batches, all, n)| == |batches|
    decreases |batches|
  {
    if batches != [] {
      var last := batches[|batches| - 1];
      SlicesAreTheList(batches[..|batches| - 1], all, last.first);
      ConcatLast(Slices(batches[..|batches| - 1], all, last.first), all[last.first..n]);
      assert all[..last.first] + all[last.first..n] == all[..n];
    }
  }
}
