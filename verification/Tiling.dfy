/** Consecutive index ranges that cover an initial segment of the natural numbers. */
module Tiling {
  datatype Claim = Claim(first: nat, count: nat)

  /** The claims tile [0, head): each starts where the previous one ended. */
  predicate Tiles(claims: seq<Claim>, head: nat) {
    if claims == [] then head == 0
    else var last := claims[|claims| - 1];
      last.first + last.count == head && Tiles(claims[..|claims| - 1], last.first)
  }

  lemma NothingTiled()
    ensures Tiles([], 0)
  {
  }

  lemma TilesNext(claims: seq<Claim>, head: nat, count: nat)
    requires Tiles(claims, head)
    ensures Tiles(claims + [Claim(head, count)], head + count)
  {
    assert (claims + [Claim(head, count)])[..|claims|] == claims;
  }

  /** Each claim begins where the one before it ended. */
  lemma {:induction false} TilesInOrder(claims: seq<Claim>, head: nat, i: nat)
    requires Tiles(claims, head) && i < |claims|
    ensures claims[i].first + claims[i].count == if i + 1 < |claims| then claims[i + 1].first else head
    ensures claims[i].first + claims[i].count <= head
    ensures i == 0 ==> claims[i].first == 0
    decreases |claims|
  {
    var last := |claims| - 1;
    if i < last {
      TilesInOrder(claims[..last], claims[last].first, i);
    } else if i == 0 {
      assert claims[..0] == [];
    }
  }

  /** Distinct claims never share a slot, and every slot a claim covers is below the head. */
  lemma {:induction false} TilesDisjoint(claims: seq<Claim>, head: nat, i: nat, j: nat)
    requires Tiles(claims, head) && i < j < |claims|
    ensures claims[i].first + claims[i].count <= claims[j].first
    ensures claims[j].first + claims[j].count <= head
  {
    var last := |claims| - 1;
    if j < last {
      TilesDisjoint(claims[..last], claims[last].first, i, j);
    } else if i < last - 1 {
      TilesDisjoint(claims[..last], claims[last].first, i, last - 1);
    } else {
      assert claims[..last][last - 1] == claims[i];
    }
  }

  predicate Claimed(claims: seq<Claim>, slot: nat) {
    exists i :: 0 <= i < |claims| && claims[i].first <= slot < claims[i].first + claims[i].count
  }

  /** Every slot below the head was handed out by some claim. */
  lemma {:induction false} TilesCover(claims: seq<Claim>, head: nat, slot: nat)
    requires Tiles(claims, head) && slot < head
    ensures Claimed(claims, slot)
  {
    var last := |claims| - 1;
    if slot < claims[last].first {
      TilesCover(claims[..last], claims[last].first, slot);
      var i :| 0 <= i < last && claims[..last][i].first <= slot < claims[..last][i].first + claims[..last][i].count;
      assert claims[i] == claims[..last][i];
    }
  }
}
