/**
 The least-recently-used cache: a list of keys, most recently used first, and a map from keys to the values of their
 list nodes.
 */
module LruCache {
  import opened Options

  /** The position of the last use of k, or -1. */
  ghost function LastUse<K>(uses: seq<K>, k: K): (r: int)
    ensures -1 <= r < |uses|
    ensures r >= 0 ==> uses[r] == k
    ensures forall i :: r < i < |uses| ==> uses[i] != k
  {
    if uses == [] then -1
    else if uses[|uses| - 1] == k then |uses| - 1
    else LastUse(uses[..|uses| - 1], k)
  }

  lemma UseOf<K(!new)>(uses: seq<K>, x: K, k: K)
    ensures LastUse(uses + [x], k) == if k == x then |uses| else LastUse(uses, k)
  {
    assert (uses + [x])[..|uses|] == uses;
  }

  ghost predicate Distinct<K>(s: seq<K>) {
    forall i, j :: 0 <= i < j < |s| ==> s[i] != s[j]
  }

  ghost function Keys<K>(s: seq<K>): set<K> {
    set k | k in s
  }

  lemma {:induction false} DistinctCount<K>(s: seq<K>)
    requires Distinct(s)
    ensures |Keys(s)| == |s|
  {
    if s != [] {
      var init, last := s[..|s| - 1], s[|s| - 1];
      DistinctCount(init);
      assert Keys(s) == Keys(init) + {last};
    }
  }

  /** Splicing k to the front. */
  function Without<K(==,!new)>(s: seq<K>, k: K): (r: seq<K>)
    ensures forall x :: x in r <==> x in s && x != k
    ensures k !in s ==> r == s
  {
    if s == [] then []
    else if s[0] == k then Without(s[1..], k)
    else [s[0]] + Without(s[1..], k)
  }

  /** Keys in decreasing order of their last use. */
  ghost predicate Recency<K>(keys: seq<K>, uses: seq<K>) {
    forall i, j :: 0 <= i < j < |keys| ==> LastUse(uses, keys[i]) > LastUse(uses, keys[j])
  }

  lemma {:induction false} RecencyWithout<K(!new)>(keys: seq<K>, uses: seq<K>, k: K)
    requires Recency(keys, uses)
    ensures Recency(Without(keys, k), uses)
  {
    if keys != [] {
      var rest := keys[1..];
      RecencyWithout(rest, uses, k);
      var r := Without(rest, k);
      forall j | 0 <= j < |r| ensures LastUse(uses, keys[0]) > LastUse(uses, r[j]) {
        assert r[j] in r;
        var i :| 0 <= i < |rest| && rest[i] == r[j];
        assert keys[i + 1] == r[j];
      }
    }
  }

  /** Using k and moving it to the front keeps the list in order of recency. */
  lemma UseMovesToFront<K(!new)>(keys: seq<K>, uses: seq<K>, k: K)
    requires Recency(keys, uses)
    ensures Recency([k] + Without(keys, k), uses + [k])
  {
    RecencyWithout(keys, uses, k);
    var r := [k] + Without(keys, k);
    forall i, j | 0 <= i < j < |r| ensures LastUse(uses + [k], r[i]) > LastUse(uses + [k], r[j]) {
      assert r[j] in Without(keys, k);
      assert i > 0 ==> r[i] in Without(keys, k);
      UseOf(uses, k, r[i]);
      UseOf(uses, k, r[j]);
    }
  }

  lemma RecencyIsDistinct<K>(keys: seq<K>, uses: seq<K>)
    requires Recency(keys, uses)
    ensures Distinct(keys)
  {
  }

  lemma AddKeepsOrder<K(!new)>(keys: seq<K>, uses: seq<K>, k: K)
    requires Recency(keys, uses) && k !in Keys(keys)
    ensures Recency([k] + keys, uses + [k])
    ensures Keys([k] + keys) == Keys(keys) + {k}
  {
    assert k !in keys;
    UseMovesToFront(keys, uses, k);
  }

  lemma PopKeepsOrder<K>(keys: seq<K>, uses: seq<K>)
    requires Recency(keys, uses) && keys != []
    ensures Recency(keys[..|keys| - 1], uses)
    ensures Keys(keys[..|keys| - 1]) == Keys(keys) - {keys[|keys| - 1]}
  {
    assert keys == keys[..|keys| - 1] + [keys[|keys| - 1]];
  }

  class Cache<K(==,!new), V> {
    const maxSize: nat
    const elasticity: nat
    var keys: seq<K>
    var cache: map<K, V>
    /** Every key inserted or looked up so far, oldest use first. */
    ghost var uses: seq<K>

    ghost predicate Valid()
      reads this
    {
      && Recency(keys, uses)
      && Keys(keys) == cache.Keys
      && (maxSize > 0 ==> |keys| <= maxSize + elasticity)
    }

    constructor (maxSize: nat, elasticity: nat)
      ensures Valid() && cache == map[] && this.maxSize == maxSize && this.elasticity == elasticity
    {
      this.maxSize, this.elasticity := maxSize, elasticity;
      keys, cache, uses := [], map[], [];
    }

    /** No live key was used earlier than k. */
    ghost predicate LeastRecent(k: K)
      reads this
    {
      k in cache && forall x :: x in cache && x != k ==> LastUse(uses, k) < LastUse(uses, x)
    }

    lemma BackIsLeastRecent()
      requires Valid() && keys != []
      ensures LeastRecent(keys[|keys| - 1])
      ensures |keys| == |cache|
    {
      RecencyIsDistinct(keys, uses);
      DistinctCount(keys);
      var back := keys[|keys| - 1];
      assert back in Keys(keys);
      forall x | x in cache && x != back ensures LastUse(uses, back) < LastUse(uses, x) {
        assert x in Keys(keys);
        var i :| 0 <= i < |keys| && keys[i] == x;
      }
    }

    predicate Contains(k: K)
      reads this
    {
      k in cache
    }

    /** The value that the next eviction removes; an empty cache has none. */
    method PruneValue() returns (v: Option<V>)
      requires Valid()
      ensures v.None? <==> cache == map[]
      ensures v.Some? ==>
        && keys != [] && LeastRecent(keys[|keys| - 1]) && keys[|keys| - 1] in cache
        && v.value == cache[keys[|keys| - 1]]
    {
      if keys == [] {
        assert Keys(keys) == {};
        return None;
      }
      BackIsLeastRecent();
      v := Some(cache[keys[|keys| - 1]]);
    }

    method Get(k: K) returns (v: Option<V>)
      requires Valid()
      modifies this`keys, this`uses
      ensures Valid()
      ensures v == if k in cache then Some(cache[k]) else None
      ensures uses == if k in cache then old(uses) + [k] else old(uses)
    {
      if k !in cache {
        return None;
      }
      Touch(k);
      v := Some(cache[k]);
    }

    method Touch(k: K)
      requires Valid() && k in cache
      modifies this`keys, this`uses
      ensures Valid() && uses == old(uses) + [k] && |keys| == |old(keys)|
    {
      UseMovesToFront(keys, uses, k);
      RecencyIsDistinct(keys, uses);
      DistinctCount(keys);
      keys, uses := [k] + Without(keys, k), uses + [k];
      RecencyIsDistinct(keys, uses);
      DistinctCount(keys);
      assert k in Keys(old(keys));
      assert Keys(keys) == Keys(old(keys));
    }

    ghost predicate Consistent()
      reads this
    {
      Recency(keys, uses) && Keys(keys) == cache.Keys
    }

    lemma SizesAgree()
      requires Consistent()
      ensures |keys| == |cache|
    {
      RecencyIsDistinct(keys, uses);
      DistinctCount(keys);
    }

    method PopBack()
      requires Consistent() && keys != []
      modifies this`keys, this`cache
      ensures Consistent() && |keys| == |cache| && |cache| == |old(cache)| - 1
      ensures keys == old(keys)[..|old(keys)| - 1] && cache == old(cache) - {old(keys)[|old(keys)| - 1]}
    {
      SizesAgree();
      PopKeepsOrder(keys, uses);
      cache := cache - {keys[|keys| - 1]};
      keys := keys[..|keys| - 1];
      SizesAgree();
    }

    /** How many of `size` entries the limits leave: at the hard limit, all above the soft limit go. */
    function Kept(size: nat): nat {
      if maxSize == 0 || size < maxSize + elasticity || size <= maxSize then size else maxSize
    }

    /** Drops the least recently used entries once the hard limit is reached; the others keep their values and order. */
    method Prune() returns (count: nat)
      requires Consistent()
      modifies this`keys, this`cache
      ensures Valid()
      ensures |keys| == |cache| == |old(cache)| - count == Kept(|old(cache)|) <= |old(keys)|
      ensures keys == old(keys)[..|keys|]
      ensures forall k :: k in cache ==> k in old(cache) && cache[k] == old(cache)[k]
      ensures count == 0 ==> cache == old(cache)
      ensures count == 1 ==> old(keys) != [] && cache == old(cache) - {old(keys)[|old(keys)| - 1]}
    {
      hide Recency, Keys;
      var maxAllowed := maxSize + elasticity;
      SizesAgree();
      count := 0;
      if maxSize == 0 || |cache| < maxAllowed {
        return;
      }
      while |cache| > maxSize
        invariant Consistent() && |keys| == |cache| == |old(cache)| - count
        invariant |old(cache)| == |old(keys)| && keys == old(keys)[..|keys|]
        invariant forall k :: k in cache ==> k in old(cache) && cache[k] == old(cache)[k]
        invariant count > 0 ==> |cache| >= maxSize
        invariant count == 0 ==> cache == old(cache) && keys == old(keys)
        invariant count == 1 ==> old(keys) != [] && cache == old(cache) - {old(keys)[|old(keys)| - 1]}
        decreases |cache|
      {
        PopBack();
        count := count + 1;
      }
    }

    /** Adds a new key at the front and prunes. */
    method InsertNew(k: K, v: V)
      requires Valid() && k !in cache
      modifies this`keys, this`cache, this`uses
      ensures Valid() && uses == old(uses) + [k]
      ensures Kept(|old(keys)| + 1) <= |old(keys)| + 1 && keys == ([k] + old(keys))[..Kept(|old(keys)| + 1)]
      ensures forall x :: x in cache ==> x in old(cache)[k := v] && cache[x] == old(cache)[k := v][x]
      ensures maxSize == 0 || |old(cache)| + 1 < maxSize + elasticity || |old(cache)| + 1 <= maxSize
        ==> cache == old(cache)[k := v]
      ensures elasticity == 0 && |old(cache)| == maxSize > 0
        ==> old(keys) != [] && cache == old(cache)[k := v] - {old(keys)[|old(keys)| - 1]}
    {
      hide Recency, LastUse, Keys;
      SizesAgree();
      AddKeepsOrder(keys, uses, k);
      keys, cache, uses := [k] + keys, cache[k := v], uses + [k];
      var count := Prune();
      assert maxSize > 0 && |old(cache)| + 1 == maxSize + 1 ==> count <= 1;
    }

    /** A known key gets its new value, an unknown one is added; a full cache loses its least recently used entry. */
    method Insert(k: K, v: V)
      requires Valid()
      modifies this`keys, this`cache, this`uses
      ensures Valid() && uses == old(uses) + [k]
      ensures k in old(cache) ==> cache == old(cache)[k := v]
      ensures k !in old(cache) ==>
        && Kept(|old(keys)| + 1) <= |old(keys)| + 1 && keys == ([k] + old(keys))[..Kept(|old(keys)| + 1)]
        && forall x :: x in cache ==> x in old(cache)[k := v] && cache[x] == old(cache)[k := v][x]
      ensures k !in old(cache) && (maxSize == 0 || |old(cache)| + 1 < maxSize + elasticity
        || |old(cache)| + 1 <= maxSize)
        ==> cache == old(cache)[k := v]
      ensures k !in old(cache) && elasticity == 0 && |old(cache)| == maxSize > 0 ==>
        && old(keys) != [] && old(LeastRecent(keys[|keys| - 1]))
        && cache == old(cache)[k := v] - {old(keys)[|old(keys)| - 1]}
    {
      hide Recency, LastUse, LeastRecent;
      SizesAgree();
      if k in cache {
        cache := cache[k := v];
        Touch(k);
      } else {
        if keys != [] {
          BackIsLeastRecent();
        }
        InsertNew(k, v);
      }
    }
  }
}
