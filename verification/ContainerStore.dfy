/**
 The storage core: chunks are appended to the current container, full containers become files under fresh names, an
 index maps chunk hashes to locations, and containers that are read back go through the cache.
 */
module ContainerStore {
  import opened Bytes
  import opened Options
  import opened ContainerNames
  import ContainerCache

  datatype Location = Location(containerName: string, offset: nat, length: nat)

  // ---------------------------------------------------------------- locations

  /** The bytes of a container: those in memory for the current one, those of its file otherwise. */
  function Container(name: string, last: string, current: seq<Byte>, files: map<string, seq<Byte>>): Option<seq<Byte>> {
    if name == last then Some(current)
    else if name in files then Some(files[name])
    else None
  }

  ghost predicate At(loc: Location, data: seq<Byte>, last: string, current: seq<Byte>, files: map<string, seq<Byte>>) {
    var c := Container(loc.containerName, last, current, files);
    && c.Some?
    && loc.length == |data| && loc.offset + loc.length <= |c.value|
    && c.value[loc.offset..loc.offset + loc.length] == data
  }

  /** The index leads from every stored hash to the bytes last stored under it. */
  ghost predicate Indexed<H(!new)>(index: map<H, Location>, stored: map<H, seq<Byte>>, last: string, current: seq<Byte>,
                                   files: map<string, seq<Byte>>) {
    && index.Keys == stored.Keys
    && forall h :: h in stored ==> At(index[h], stored[h], last, current, files)
  }

  /** File names do not exceed the current container's, and files fit a container. */
  ghost predicate FilesOk(last: string, files: map<string, seq<Byte>>, maxSize: nat) {
    forall n :: n in files ==> (n == last || LexLess(n, last)) && |files[n]| <= maxSize
  }

  /** Only finished containers are cached, with the contents of their files. */
  ghost predicate CacheOk(contents: map<string, seq<Byte>>, last: string, files: map<string, seq<Byte>>) {
    forall n :: n in contents ==> n != last && n in files && contents[n] == files[n]
  }

  lemma AppendKeepsIndex<H(!new)>(index: map<H, Location>, stored: map<H, seq<Byte>>, last: string, current: seq<Byte>,
                                  files: map<string, seq<Byte>>, h: H, data: seq<Byte>)
    requires Indexed(index, stored, last, current, files)
    ensures Indexed(index[h := Location(last, |current|, |data|)], stored[h := data], last, current + data, files)
  {
    var index', stored' := index[h := Location(last, |current|, |data|)], stored[h := data];
    forall k | k in stored' ensures At(index'[k], stored'[k], last, current + data, files) {
      if k != h {
        var loc := index[k];
        assert At(loc, stored[k], last, current, files);
        assert loc.containerName == last ==>
          (current + data)[loc.offset..loc.offset + loc.length] == current[loc.offset..loc.offset + loc.length];
      }
    }
  }

  /** Writing the current container to its file and starting the next one leaves every chunk where it can be found. */
  lemma RotateKeepsIndex<H(!new)>(index: map<H, Location>, stored: map<H, seq<Byte>>, last: string, current: seq<Byte>,
                                  files: map<string, seq<Byte>>, next: string, maxSize: nat)
    requires Indexed(index, stored, last, current, files) && FilesOk(last, files, maxSize) && |current| <= maxSize
    requires LexLess(last, next)
    ensures Indexed(index, stored, next, [], files[last := current])
    ensures FilesOk(next, files[last := current], maxSize)
    ensures next !in files && next != last
  {
    var files' := files[last := current];
    forall n | n in files' ensures LexLess(n, next) && n != next {
      LexLessIsOrder(n, last, next);
      LexLessIsOrder(next, n, n);
    }
    forall h | h in stored ensures At(index[h], stored[h], next, [], files') {
      assert At(index[h], stored[h], last, current, files);
    }
  }

  /** Whatever the next name: rotating loses no chunk exactly if no chunk is in a container of that name. */
  lemma RotationIsSafeExactly<H(!new)>(index: map<H, Location>, stored: map<H, seq<Byte>>, last: string,
                                current: seq<Byte>, files: map<string, seq<Byte>>, next: string)
    requires Indexed(index, stored, last, current, files) && next != last
    ensures Indexed(index, stored, next, [], files[last := current])
      <==> forall h :: h in stored && index[h].containerName == next ==> index[h].offset == 0 && index[h].length == 0
  {
    var files' := files[last := current];
    forall h | h in stored
      ensures At(index[h], stored[h], next, [], files')
        <==> (index[h].containerName == next ==> index[h].offset == 0 && index[h].length == 0)
    {
      assert At(index[h], stored[h], last, current, files);
    }
  }

  /**
   So the rotation after the last name loses the chunks of the first container: its name is now that of the empty
   current one, and when that is saved, their file is written over.
   */
  lemma LastRotationLosesFirstChunk<H(!new)>(index: map<H, Location>, stored: map<H, seq<Byte>>, current: seq<Byte>,
                                             files: map<string, seq<Byte>>, h: H)
    requires Indexed(index, stored, LAST_NAME, current, files)
    requires h in stored && index[h].containerName == FIRST_NAME && index[h].length > 0
    ensures FIRST_NAME in files && Next(LAST_NAME) == FIRST_NAME
    ensures !Indexed(index, stored, Next(LAST_NAME), [], files[LAST_NAME := current])
    ensures !At(index[h], stored[h], Next(LAST_NAME), [], files[LAST_NAME := current])
  {
    NamesStartOver();
    assert FIRST_NAME[0] != LAST_NAME[0];
    assert At(index[h], stored[h], LAST_NAME, current, files);
    RotationIsSafeExactly(index, stored, LAST_NAME, current, files, FIRST_NAME);
  }

  /** Saving the current container under its own name changes no container. */
  lemma SaveKeepsIndex<H(!new)>(index: map<H, Location>, stored: map<H, seq<Byte>>, last: string, current: seq<Byte>,
                                files: map<string, seq<Byte>>, maxSize: nat)
    requires Indexed(index, stored, last, current, files) && FilesOk(last, files, maxSize) && |current| <= maxSize
    ensures Indexed(index, stored, last, current, files[last := current])
    ensures FilesOk(last, files[last := current], maxSize)
  {
    forall h | h in stored ensures At(index[h], stored[h], last, current, files[last := current]) {
      assert At(index[h], stored[h], last, current, files);
    }
  }

  datatype Op<H> = StoreOp(h: H, data: seq<Byte>, dbAccepts: bool) | RestoreOp(h: H) | RestartOp

  /** What a log of operations last stored under h. */
  function LastStored<H(==)>(ops: seq<Op<H>>, h: H): Option<seq<Byte>> {
    if ops == [] then None
    else
      var op := ops[|ops| - 1];
      if op.StoreOp? && op.h == h && op.dbAccepts then Some(op.data) else LastStored(ops[..|ops| - 1], h)
  }

  /** `stored` is the outcome of the log. */
  ghost predicate Reflects<H(!new)>(stored: map<H, seq<Byte>>, ops: seq<Op<H>>) {
    forall h :: LastStored(ops, h) == if h in stored then Some(stored[h]) else None
  }

  lemma ReflectsNext<H(!new)>(stored: map<H, seq<Byte>>, ops: seq<Op<H>>, op: Op<H>)
    requires Reflects(stored, ops)
    ensures Reflects(if op.StoreOp? && op.dbAccepts then stored[op.h := op.data] else stored, ops + [op])
  {
    assert (ops + [op])[..|ops|] == ops;
  }

  lemma NothingStored<H>()
    ensures forall h: H :: LastStored<H>([], h) == None
  {
  }

  lemma SliceOfPrefix(body: seq<Byte>, used: nat, key: Location)
    requires key.offset + key.length <= used <= |body|
    ensures body[key.offset..key.offset + key.length] == body[..used][key.offset..key.offset + key.length]
  {
  }

  lemma SliceOfSlot(slot: seq<Byte>, container: seq<Byte>, key: Location)
    requires |container| <= |slot| && slot == ContainerCache.Slot(container, |slot|)
      && key.offset + key.length <= |container|
    ensures slot[key.offset..key.offset + key.length] == container[key.offset..key.offset + key.length]
  {
  }

  class Store<H(==,!new)> {
    const maxContainerSize: nat
    const body: array<Byte>
    var used: nat
    var lastContainerFileName: string
    var files: map<string, seq<Byte>>
    var index: map<H, Location>
    var cache: ContainerCache.Cache
    /** The bytes last stored under each hash. */
    ghost var stored: map<H, seq<Byte>>

    ghost predicate Valid()
      reads this, body, cache, cache.lru, cache.pool
    {
      && used <= body.Length == maxContainerSize
      && Indexed(index, stored, lastContainerFileName, body[..used], files)
      && FilesOk(lastContainerFileName, files, maxContainerSize)
      && CacheOk(cache.contents, lastContainerFileName, files)
      && cache.Valid() && cache.slotSize == maxContainerSize
    }

    /** A server that has never run before. */
    constructor (maxContainerSize: nat)
      ensures Valid() && stored == map[] && this.maxContainerSize == maxContainerSize
      ensures fresh(body) && fresh(cache) && fresh(cache.lru) && fresh(cache.pool)
    {
      hide ContainerCache.Cache.Valid, LexLess;
      this.maxContainerSize := maxContainerSize;
      body := new Byte[maxContainerSize](_ => 0);
      used, lastContainerFileName := 0, FIRST_NAME;
      files, index, stored := map[], map[], map[];
      cache := new ContainerCache.Cache(maxContainerSize);
    }

    /**
     The chunk goes behind the used part of the current container if it fits below the limit, and else to the start of
     a new one. The used part grows only once the chunk is in the index.
     */
    method WriteContainer(data: seq<Byte>) returns (key: Location)
      requires Valid() && |data| < maxContainerSize
      requires used + |data| >= maxContainerSize ==> LastAscent(lastContainerFileName) >= 0
      modifies this`used, this`lastContainerFileName, this`files, body
      ensures Valid() && used + |data| <= body.Length && body[used..used + |data|] == data
      ensures key == Location(lastContainerFileName, used, |data|)
      ensures old(used) + |data| < maxContainerSize ==>
        used == old(used) && lastContainerFileName == old(lastContainerFileName) && files == old(files)
      ensures old(used) + |data| >= maxContainerSize ==>
        && used == 0 && lastContainerFileName == Next(old(lastContainerFileName))
        && files == old(files)[old(lastContainerFileName) := old(body[..used])]
    {
      hide LastAscent, LexLess, FilesOk, CacheOk, Indexed, ContainerCache.Cache.Valid;
      if |data| + used < maxContainerSize {
        CopyInto(body, used, data);
      } else {
        StartContainer();
        CopyInto(body, used, data);
      }
      assert body[..used] == old(body[..used]) || used == 0;
      key := Location(lastContainerFileName, used, |data|);
    }

    /** Saves the current container and starts an empty one under the next name. */
    method StartContainer()
      requires Valid() && LastAscent(lastContainerFileName) >= 0
      modifies this`used, this`lastContainerFileName, this`files
      ensures Valid() && used == 0 && lastContainerFileName == Next(old(lastContainerFileName))
      ensures files == old(files)[old(lastContainerFileName) := old(body[..used])]
    {
      hide LastAscent, LexLess, FilesOk, Indexed, ContainerCache.Cache.Valid;
      var last := lastContainerFileName;
      NextIsFresh(last);
      RotateKeepsIndex(index, stored, last, body[..used], files, Next(last), maxContainerSize);
      files := files[last := body[..used]];
      lastContainerFileName := Next(last);
      used := 0;
    }

    method StoreChunk(chunkHash: H, data: seq<Byte>, dbAccepts: bool) returns (ok: bool)
      requires Valid() && |data| < maxContainerSize
      requires used + |data| >= maxContainerSize ==> LastAscent(lastContainerFileName) >= 0
      modifies this, body
      ensures Valid() && cache == old(cache)
      ensures ok == dbAccepts
      ensures stored == if ok then old(stored)[chunkHash := data] else old(stored)
      ensures index.Keys == if ok then old(index).Keys + {chunkHash} else old(index).Keys
      ensures used == (if old(used) + |data| < maxContainerSize then old(used) else 0) + if ok then |data| else 0
      ensures lastContainerFileName
        == if old(used) + |data| < maxContainerSize then old(lastContainerFileName)
          else Next(old(lastContainerFileName))
      ensures files == if old(used) + |data| < maxContainerSize then old(files)
                       else old(files)[old(lastContainerFileName) := old(body[..used])]
    {
      hide LastAscent, LexLess, FilesOk, CacheOk, Indexed, ContainerCache.Cache.Valid;
      var key := WriteContainer(data);
      if !dbAccepts {
        return false;
      }
      AppendKeepsIndex(index, stored, lastContainerFileName, body[..used], files, chunkHash, data);
      assert body[..used + |data|] == body[..used] + data;
      index := index[chunkHash := key];
      used := used + key.length;
      stored := stored[chunkHash := data];
      ok := true;
    }

    /** Reads the bytes at a location from the current container, the cache, or the container's file. */
    method ReadContainer(key: Location, ghost data: seq<Byte>) returns (r: Option<seq<Byte>>)
      requires Valid() && At(key, data, lastContainerFileName, body[..used], files)
      modifies cache, cache.lru, cache.pool
      ensures Valid() && r == Some(data)
      ensures key.containerName == lastContainerFileName ==> cache.contents == old(cache.contents)
      ensures key.containerName != lastContainerFileName ==> key.containerName in cache.contents
    {
      hide LastAscent, LexLess, Indexed, ContainerCache.Cache.Valid;
      var name := key.containerName;
      if name == lastContainerFileName {
        SliceOfPrefix(body[..], used, key);
        return Some(body[..][key.offset..key.offset + key.length]);
      }
      if cache.ExistsInCache(name) {
        var container := cache.GetFromCache(name);
        SliceOfSlot(container.value, files[name], key);
        return Some(container.value[key.offset..key.offset + key.length]);
      }
      if name !in files {
        return None;
      }
      var currentReadContainer := files[name];
      cache.InsertToCache(name, currentReadContainer);
      r := Some(currentReadContainer[key.offset..key.offset + key.length]);
    }

    /** Returns exactly what was last stored under the hash, if anything was. */
    method RestoreChunk(chunkHash: H) returns (r: Option<seq<Byte>>)
      requires Valid()
      modifies cache, cache.lru, cache.pool
      ensures Valid()
      ensures r == if chunkHash in stored then Some(stored[chunkHash]) else None
    {
      hide CacheOk, LexLess, ContainerCache.Cache.Valid;
      if chunkHash !in index {
        return None;
      }
      r := ReadContainer(index[chunkHash], stored[chunkHash]);
    }

    /** Shutdown saves the name, the used size and the current container; the next start reads them back. */
    method Restart()
      requires Valid()
      modifies this, body
      ensures Valid() && stored == old(stored) && index == old(index)
      ensures lastContainerFileName == old(lastContainerFileName) && body[..used] == old(body[..used])
      ensures fresh(cache) && fresh(cache.lru) && fresh(cache.pool) && cache.contents == map[]
    {
      hide LastAscent, LexLess, FilesOk, Indexed, ContainerCache.Cache.Valid;
      var configuredName, configuredSize := lastContainerFileName, used;
      SaveKeepsIndex(index, stored, lastContainerFileName, body[..used], files, maxContainerSize);
      files := files[configuredName := body[..used]];
      lastContainerFileName, used := configuredName, configuredSize;
      ghost var current := body[..used];
      CopyInto(body, 0, files[configuredName][..used]);
      assert body[..used] == current;
      cache := new ContainerCache.Cache(maxContainerSize);
    }

    /** The operation can be done without a name past the last one. */
    predicate HasRoomFor(op: Op<H>)
      reads this
    {
      op.StoreOp? && used + |op.data| >= maxContainerSize ==> LastAscent(lastContainerFileName) >= 0
    }

    /** One operation of a run that has done `log`. */
    method Perform(op: Op<H>, ghost log: seq<Op<H>>) returns (answer: Option<seq<Byte>>)
      requires Valid() && Reflects(stored, log) && HasRoomFor(op)
      requires op.StoreOp? ==> |op.data| < maxContainerSize
      modifies this, body, cache, cache.lru, cache.pool
      ensures Valid() && Reflects(stored, log + [op])
      ensures op.RestoreOp? ==> answer == LastStored(log, op.h)
      ensures
        || (cache == old(cache) && cache.lru == old(cache.lru) && cache.pool == old(cache.pool))
        || (fresh(cache) && fresh(cache.lru) && fresh(cache.pool))
    {
      hide LastStored, LastAscent, LexLess, FilesOk, CacheOk, Indexed, ContainerCache.Cache.Valid;
      ReflectsNext(stored, log, op);
      answer := None;
      match op {
        case StoreOp(h, data, dbAccepts) => var _ := StoreChunk(h, data, dbAccepts);
        case RestoreOp(h) => answer := RestoreChunk(h);
        case RestartOp => Restart();
      }
    }

    /**
     Any run of operations, with rotations and restarts in between: every restore returns what was last stored. The run
     stops early only at a chunk that needs a name past the last one.
     */
    method Run(ops: seq<Op<H>>) returns (answers: seq<Option<seq<Byte>>>)
      requires Valid() && stored == map[]
      requires forall i :: 0 <= i < |ops| && ops[i].StoreOp? ==> |ops[i].data| < maxContainerSize
      modifies this, body, cache, cache.lru, cache.pool
      ensures Valid() && |answers| <= |ops|
      ensures forall i :: 0 <= i < |answers| && ops[i].RestoreOp? ==> answers[i] == LastStored(ops[..i], ops[i].h)
      ensures |answers| < |ops| ==>
        && ops[|answers|].StoreOp? && used + |ops[|answers|].data| >= maxContainerSize
        && LastAscent(lastContainerFileName) < 0
    {
      hide LastStored, LastAscent, LexLess, Valid;
      answers := [];
      assert Reflects(stored, []) by { NothingStored<H>(); }
      hide Reflects;
      while |answers| < |ops|
        invariant Valid() && |answers| <= |ops|
        invariant Reflects(stored, ops[..|answers|])
        invariant cache == old(cache) || fresh(cache)
        invariant cache.lru == old(cache.lru) || fresh(cache.lru)
        invariant cache.pool == old(cache.pool) || fresh(cache.pool)
        invariant forall i :: 0 <= i < |answers| && ops[i].RestoreOp? ==> answers[i] == LastStored(ops[..i], ops[i].h)
      {
        var n := |answers|;
        var op := ops[n];
        if !HasRoomFor(op) {
          return;
        }
        assert ops[..n] + [op] == ops[..n + 1];
        var answer := Perform(op, ops[..n]);
        answers := answers + [answer];
      }
    }
  }
}
