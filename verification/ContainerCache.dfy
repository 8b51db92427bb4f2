/** The read cache of containers: a fixed pool of slots, and an LRU cache from container names to slot numbers. */
module ContainerCache {
  import opened Bytes
  import opened Options
  import LruCache

  const CACHE_SIZE: nat := 128

  /** What a slot holds once it was cleared and `data` copied to its start. */
  function Slot(data: seq<Byte>, size: nat): (r: seq<Byte>)
    requires |data| <= size
    ensures |r| == size && r[..|data|] == data
  {
    data + Zeros(size - |data|)
  }

  /** Live names have distinct slots below `used`, and each slot holds its container. */
  ghost predicate Holds(slots: map<string, nat>, contents: map<string, seq<Byte>>, pool: seq<seq<Byte>>, used: nat,
                        size: nat) {
    && slots.Keys == contents.Keys
    && used <= |pool|
    && (forall n :: n in slots ==> slots[n] < used)
    && (forall n, m :: n in slots && m in slots && n != m ==> slots[n] != slots[m])
    && (forall n :: n in slots ==> |contents[n]| <= size && pool[slots[n]] == Slot(contents[n], size))
  }

  lemma AddHolds(slots: map<string, nat>, contents: map<string, seq<Byte>>, pool: seq<seq<Byte>>, used: nat, size: nat,
                 name: string, data: seq<Byte>)
    requires Holds(slots, contents, pool, used, size) && name !in contents && |data| <= size && used < |pool|
    ensures Holds(slots[name := used], contents[name := data], pool[used := Slot(data, size)], used + 1, size)
    ensures |slots[name := used]| == |slots| + 1
  {
    hide Slot;
    assert slots[name := used].Keys == slots.Keys + {name};
  }

  /** The new container takes over the slot of the evicted one. */
  lemma ReplaceHolds(slots: map<string, nat>, contents: map<string, seq<Byte>>, pool: seq<seq<Byte>>, used: nat,
                     size: nat, evicted: string, name: string, data: seq<Byte>)
    requires Holds(slots, contents, pool, used, size) && name !in contents && |data| <= size && evicted in slots
    ensures slots[evicted] < |pool| && evicted != name
    ensures Holds(slots[name := slots[evicted]] - {evicted}, contents[name := data] - {evicted},
                  pool[slots[evicted] := Slot(data, size)], used, size)
    ensures |slots[name := slots[evicted]] - {evicted}| == |slots|
  {
    hide Slot;
    var slot := slots[evicted];
    var slots', contents' := slots[name := slot] - {evicted}, contents[name := data] - {evicted};
    assert slots'.Keys == slots.Keys + {name} - {evicted};
    forall n | n in slots' ensures |contents'[n]| <= size
        && pool[slot := Slot(data, size)][slots'[n]] == Slot(contents'[n], size) {
      assert n != name ==> slots'[n] == slots[n] != slot && contents'[n] == contents[n];
    }
  }

  class Cache {
    const lru: LruCache.Cache<string, nat>
    const pool: array<seq<Byte>>
    const slotSize: nat
    var currentIndex: nat
    /** The containers held, by name. */
    ghost var contents: map<string, seq<Byte>>

    ghost predicate Valid()
      reads this, lru, pool
    {
      && lru.Valid() && lru.maxSize == CACHE_SIZE && lru.elasticity == 0 && pool.Length == CACHE_SIZE
      && Holds(lru.cache, contents, pool[..], currentIndex, slotSize)
      && |lru.cache| == currentIndex <= CACHE_SIZE
    }

    constructor (maxContainerSize: nat)
      ensures Valid() && contents == map[] && slotSize == maxContainerSize
      ensures fresh(lru) && fresh(pool)
    {
      lru := new LruCache.Cache(CACHE_SIZE, 0);
      pool := new seq<Byte>[CACHE_SIZE](_ => Zeros(maxContainerSize));
      slotSize, currentIndex, contents := maxContainerSize, 0, map[];
    }

    /** Caches a container under a name that is not cached yet. A full cache gives up its least recently used one. */
    method InsertToCache(name: string, data: seq<Byte>)
      requires Valid() && name !in contents && |data| <= slotSize
      modifies this, lru, pool
      ensures Valid() && name in contents
      ensures forall n :: n in contents ==> n == name || n in old(contents)
      ensures forall n :: n in contents ==> contents[n] == old(contents)[name := data][n]
      ensures old(|lru.cache|) < CACHE_SIZE ==> contents == old(contents)[name := data]
      ensures old(|lru.cache|) == CACHE_SIZE ==>
        && old(lru.keys) != [] && old(lru.LeastRecent(lru.keys[|lru.keys| - 1]))
        && contents == old(contents)[name := data] - {old(lru.keys)[|old(lru.keys)| - 1]}
    {
      hide Holds, Slot, LruCache.Recency, LruCache.Cache.LeastRecent, LruCache.Cache.Valid;
      if |lru.cache| + 1 > CACHE_SIZE {
        var replaceIndex := lru.PruneValue();
        ghost var evicted := lru.keys[|lru.keys| - 1];
        ReplaceHolds(lru.cache, contents, pool[..], currentIndex, slotSize, evicted, name, data);
        pool[replaceIndex.value] := Slot(data, slotSize);
        lru.Insert(name, replaceIndex.value);
        contents := contents[name := data] - {evicted};
      } else {
        AddHolds(lru.cache, contents, pool[..], currentIndex, slotSize, name, data);
        pool[currentIndex] := Slot(data, slotSize);
        lru.Insert(name, currentIndex);
        currentIndex := currentIndex + 1;
        contents := contents[name := data];
      }
    }

    predicate ExistsInCache(name: string)
      requires Valid()
      reads this, lru, pool
      ensures ExistsInCache(name) <==> name in contents
    {
      lru.Contains(name)
    }

    /** The buffer of a cached container. */
    method GetFromCache(name: string) returns (data: Option<seq<Byte>>)
      requires Valid()
      modifies lru
      ensures Valid() && lru.cache == old(lru.cache)
      ensures data.Some? <==> name in contents
      ensures data.Some? ==> data.value == Slot(contents[name], slotSize) && lru.uses == old(lru.uses) + [name]
    {
      var index := lru.Get(name);
      data := if index.Some? then Some(pool[index.value]) else None;
    }
  }
}
