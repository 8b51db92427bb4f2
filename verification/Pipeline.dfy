/**
 Upload and restore end to end: chunks arrive in any order from the workers, get their two keys in batches, are
 encrypted, stored in containers and listed in the recipe; a restore reads the chunks batch by batch and puts the file
 together again. Cipher, hash, feature and key derivation are functions; a chunk's two keys come from its feature and
 from its hash.
 */
module Pipeline {
  import opened Bytes
  import opened Options
  import opened Sequences
  import opened Tiling
  import ContainerNames
  import ContainerStore
  import RestoreLoop

  const INDICATOR_LENGTH: nat := 32
  const ID_RANGE: nat := 0x1_0000_0000
  const SIZE_RANGE: nat := 0x8000_0000

  type Data = seq<Byte>
  type Store = ContainerStore.Store<Data>

  datatype Crypto = Crypto(feature: Data -> Data, hash: Data -> Data, keyOf: Data -> Data,
    encrypt: (Data, Data) -> Data,
                           decrypt: (Data, Data) -> Data)

  /** Encryption under a key keeps the length and is undone by decryption. */
  ghost predicate Sound(k: Crypto) {
    forall key, x :: |k.encrypt(key, x)| == |x| && k.decrypt(key, k.encrypt(key, x)) == x
  }

  datatype Item<T> = Item(id: nat, value: T)

  datatype Keyed = Keyed(data: Data, keyFeature: Data, keyMLE: Data)

  datatype Entry = Entry(size: nat, hash: Data, keyFeature: Data, keyMLE: Data)

  // ---------------------------------------------------------------- sorting by ID

  ghost predicate DistinctIds<T>(s: seq<Item<T>>) {
    forall i, j :: 0 <= i < j < |s| ==> s[i].id != s[j].id
  }

  predicate Sorted<T>(s: seq<Item<T>>) {
    forall i, j :: 0 <= i < j < |s| ==> s[i].id < s[j].id
  }

  ghost predicate SameItems<T(!new)>(r: seq<Item<T>>, s: seq<Item<T>>) {
    |r| == |s| && forall x :: x in r <==> x in s
  }

  function Insert<T>(x: Item<T>, s: seq<Item<T>>): (r: seq<Item<T>>)
    ensures |r| == |s| + 1
  {
    if s == [] || x.id < s[0].id then [x] + s else [s[0]] + Insert(x, s[1..])
  }

  function SortById<T>(s: seq<Item<T>>): (r: seq<Item<T>>)
    ensures |r| == |s|
  {
    if s == [] then [] else Insert(s[0], SortById(s[1..]))
  }

  lemma {:induction false} InsertKeeps<T(!new)>(x: Item<T>, s: seq<Item<T>>)
    requires Sorted(s) && forall y :: y in s ==> y.id != x.id
    ensures Sorted(Insert(x, s)) && forall y :: y in Insert(x, s) <==> y == x || y in s
  {
    if s != [] && s[0].id < x.id {
      InsertKeeps(x, s[1..]);
      var r := Insert(x, s[1..]);
      forall j | 0 <= j < |r| ensures s[0].id < r[j].id {
        assert r[j] in r;
        assert r[j] in s[1..] ==> exists i :: 1 <= i < |s| && s[i] == r[j];
      }
      assert s == [s[0]] + s[1..];
    } else if s != [] {
      assert s[0] in s;
    }
  }

  lemma {:induction false} SortKeeps<T(!new)>(s: seq<Item<T>>)
    requires DistinctIds(s)
    ensures Sorted(SortById(s)) && SameItems(SortById(s), s)
  {
    if s != [] {
      SortKeeps(s[1..]);
      forall y | y in s[1..] ensures y.id != s[0].id {
        var i :| 0 <= i < |s[1..]| && s[1..][i] == y;
        assert s[i + 1] == y;
      }
      InsertKeeps(s[0], SortById(s[1..]));
      assert s == [s[0]] + s[1..];
    }
  }

  /** IDs 0 .. n - 1, each once. */
  ghost predicate Numbered<T>(s: seq<Item<T>>, n: nat) {
    |s| == n && DistinctIds(s) && forall i :: 0 <= i < |s| ==> s[i].id < n
  }

  /** Strictly increasing IDs that start no lower than `from` run ahead of their positions. */
  lemma {:induction false} SortedIdAtLeast<T>(s: seq<Item<T>>, i: nat)
    requires Sorted(s) && i < |s|
    ensures s[i].id >= i
  {
    if i > 0 {
      SortedIdAtLeast(s, i - 1);
    }
  }

  lemma {:induction false} SortedIdAtMost<T>(s: seq<Item<T>>, i: nat, n: nat)
    requires Sorted(s) && i < |s| <= n && forall j :: 0 <= j < |s| ==> s[j].id < n
    ensures s[i].id <= n - |s| + i
    decreases |s| - i
  {
    if i + 1 < |s| {
      SortedIdAtMost(s, i + 1, n);
    }
  }

  /** Sorted, the item at position i is the one with ID i. */
  lemma SortedByPosition<T(!new)>(s: seq<Item<T>>, n: nat)
    requires Numbered(s, n)
    ensures |SortById(s)| == n && forall i :: 0 <= i < n ==> SortById(s)[i].id == i && SortById(s)[i] in s
  {
    SortKeeps(s);
    var r := SortById(s);
    forall j | 0 <= j < |r| ensures r[j] in s {
      assert r[j] in r;
    }
    forall j | 0 <= j < |r| ensures r[j].id < n {
      var i :| 0 <= i < |s| && s[i] == r[j];
    }
    forall i | 0 <= i < n ensures r[i].id == i {
      SortedIdAtLeast(r, i);
      SortedIdAtMost(r, i, n);
    }
  }

  // ---------------------------------------------------------------- keys

  /** The keys a chunk must get, from its own data. */
  function KeysOf(k: Crypto, data: Data): Keyed {
    Keyed(data, k.keyOf(k.feature(data)), k.keyOf(k.hash(data)))
  }

  /** The key server answers a list of seeds with their keys, in order. */
  function KeyExchange(k: Crypto, seeds: seq<Data>): (keys: seq<Data>)
    ensures |keys| == |seeds| && forall i :: 0 <= i < |seeds| ==> keys[i] == k.keyOf(seeds[i])
  {
    seq(|seeds|, i requires 0 <= i < |seeds| => k.keyOf(seeds[i]))
  }

  /** The positions of the seeds of each chunk in the batch. */
  ghost predicate MapOk(idMap: map<nat, nat>, batch: seq<Item<Data>>) {
    forall i :: 0 <= i < |batch| ==> batch[i].id in idMap && idMap[batch[i].id] == i
  }

  ghost predicate SeedsOk(k: Crypto, seeds: seq<Data>, batch: seq<Item<Data>>) {
    |seeds| == 2 * |batch|
    && forall i :: 0 <= i < |batch| ==>
         seeds[2 * i] == k.feature(batch[i].value) && seeds[2 * i + 1] == k.hash(batch[i].value)
  }

  /**
   One batch: seeds in the order of arrival, the batch sorted by ID, and each chunk's keys looked up through the map
   from IDs to arrival positions.
   */
  method AssignKeys(k: Crypto, batch: seq<Item<Data>>) returns (out: seq<Item<Keyed>>)
    requires DistinctIds(batch)
    ensures |out| == |batch|
    ensures forall i :: 0 <= i < |out| ==> out[i] == Item(SortById(batch)[i].id, KeysOf(k, SortById(batch)[i].value))
  {
    var seeds: seq<Data>, idMap: map<nat, nat> := [], map[];
    for i := 0 to |batch|
      invariant SeedsOk(k, seeds, batch[..i]) && MapOk(idMap, batch[..i])
    {
      seeds := seeds + [k.feature(batch[i].value)] + [k.hash(batch[i].value)];
      idMap := idMap[batch[i].id := i];
      assert batch[..i + 1] == batch[..i] + [batch[i]];
    }
    assert batch[..|batch|] == batch;
    var keys := KeyExchange(k, seeds);
    var sorted := SortById(batch);
    SortKeeps(batch);
    out := [];
    for i := 0 to |sorted|
      invariant |out| == i
      invariant forall j :: 0 <= j < i ==> out[j] == Item(sorted[j].id, KeysOf(k, sorted[j].value))
    {
      assert sorted[i] in sorted;
      ghost var p :| 0 <= p < |batch| && batch[p] == sorted[i];
      var offset := idMap[sorted[i].id] * 2;
      out := out + [Item(sorted[i].id, Keyed(sorted[i].value, keys[offset], keys[offset + 1]))];
    }
  }

  /** The items carry the IDs of the file's chunks, each once, and the value that belongs to each chunk. */
  ghost predicate OfFile(s: seq<Item<Data>>, chunks: seq<Data>) {
    Numbered(s, |chunks|) && forall i :: 0 <= i < |s| ==> s[i].value == chunks[s[i].id]
  }

  ghost predicate KeyedOfFile(k: Crypto, s: seq<Item<Keyed>>, chunks: seq<Data>) {
    Numbered(s, |chunks|) && forall i :: 0 <= i < |s| ==> s[i].value == KeysOf(k, chunks[s[i].id])
  }

  /** The output so far: the first `done` arrivals, keyed. */
  ghost predicate KeyedUpTo(k: Crypto, out: seq<Item<Keyed>>, arrivals: seq<Item<Data>>, chunks: seq<Data>, done: nat) {
    && done <= |arrivals| && |out| == done && DistinctIds(out)
    && forall j :: 0 <= j < |out| ==>
         out[j].id < |chunks| && out[j].value == KeysOf(k, chunks[out[j].id])
         && exists i :: 0 <= i < done && arrivals[i].id == out[j].id
  }

  lemma BatchAdds(k: Crypto, out: seq<Item<Keyed>>, arrivals: seq<Item<Data>>, chunks: seq<Data>, done: nat, next: nat,
                  more: seq<Item<Keyed>>)
    requires OfFile(arrivals, chunks) && KeyedUpTo(k, out, arrivals, chunks, done) && done <= next <= |arrivals|
    requires |more| == |SortById(arrivals[done..next])|
    requires forall i :: 0 <= i < |more| ==>
      more[i] == Item(SortById(arrivals[done..next])[i].id, KeysOf(k, SortById(arrivals[done..next])[i].value))
    ensures KeyedUpTo(k, out + more, arrivals, chunks, next)
  {
    var batch := arrivals[done..next];
    SortKeeps(batch);
    var sorted := SortById(batch);
    forall j | 0 <= j < |more|
      ensures more[j].id < |chunks| && more[j].value == KeysOf(k, chunks[more[j].id])
      ensures exists i :: done <= i < next && arrivals[i].id == more[j].id
    {
      assert sorted[j] in sorted;
      var p :| 0 <= p < |batch| && batch[p] == sorted[j];
      assert arrivals[done + p] == sorted[j];
    }
    var all := out + more;
    forall i, j | 0 <= i < j < |all| ensures all[i].id != all[j].id {
      if i < |out| <= j {
        var p :| 0 <= p < done && arrivals[p].id == out[i].id;
        var q :| done <= q < next && arrivals[q].id == more[j - |out|].id;
      }
    }
  }

  lemma NothingKeyed(k: Crypto, arrivals: seq<Item<Data>>, chunks: seq<Data>)
    ensures KeyedUpTo(k, [], arrivals, chunks, 0)
  {
  }

  lemma KeyedIsAll(k: Crypto, out: seq<Item<Keyed>>, arrivals: seq<Item<Data>>, chunks: seq<Data>)
    requires OfFile(arrivals, chunks) && KeyedUpTo(k, out, arrivals, chunks, |arrivals|)
    ensures KeyedOfFile(k, out, chunks)
  {
  }

  /** The key client: batches of a fixed number of chunks, the last one with what is left. */
  method RunKeyClient(k: Crypto, arrivals: seq<Item<Data>>, chunksPerBatch: nat, ghost chunks: seq<Data>)
    returns (out: seq<Item<Keyed>>)
    requires OfFile(arrivals, chunks) && chunksPerBatch > 0
    ensures KeyedOfFile(k, out, chunks)
  {
    hide KeyedUpTo, SortById;
    out := [];
    var done: nat := 0;
    assert KeyedUpTo(k, out, arrivals, chunks, 0) by { NothingKeyed(k, arrivals, chunks); }
    while done < |arrivals|
      invariant done <= |arrivals| && KeyedUpTo(k, out, arrivals, chunks, done)
    {
      var next := if done + chunksPerBatch < |arrivals| then done + chunksPerBatch else |arrivals|;
      var more := AssignKeys(k, arrivals[done..next]);
      BatchAdds(k, out, arrivals, chunks, done, next, more);
      out, done := out + more, next;
    }
    KeyedIsAll(k, out, arrivals, chunks);
  }

  // ---------------------------------------------------------------- encryption and recipe

  /** The first bytes are encrypted under the feature key, the rest under the chunk's own key. */
  function EncryptChunk(k: Crypto, data: Data, keyFeature: Data, keyMLE: Data): Data {
    if |data| <= INDICATOR_LENGTH then k.encrypt(keyFeature, data)
    else k.encrypt(keyFeature, data[..INDICATOR_LENGTH]) + k.encrypt(keyMLE, data[INDICATOR_LENGTH..])
  }

  function DecryptChunk(k: Crypto, cipher: Data, keyFeature: Data, keyMLE: Data): Data {
    if |cipher| <= INDICATOR_LENGTH then k.decrypt(keyFeature, cipher)
    else k.decrypt(keyFeature, cipher[..INDICATOR_LENGTH]) + k.decrypt(keyMLE, cipher[INDICATOR_LENGTH..])
  }

  lemma SplitCipherRoundTrip(k: Crypto, data: Data, keyFeature: Data, keyMLE: Data)
    requires Sound(k)
    ensures |EncryptChunk(k, data, keyFeature, keyMLE)| == |data|
    ensures DecryptChunk(k, EncryptChunk(k, data, keyFeature, keyMLE), keyFeature, keyMLE) == data
  {
    var cipher := EncryptChunk(k, data, keyFeature, keyMLE);
    if |data| > INDICATOR_LENGTH {
      var first, rest := k.encrypt(keyFeature, data[..INDICATOR_LENGTH]), k.encrypt(keyMLE, data[INDICATOR_LENGTH..]);
      assert |first| == INDICATOR_LENGTH && |rest| == |data| - INDICATOR_LENGTH;
      assert cipher[..INDICATOR_LENGTH] == first && cipher[INDICATOR_LENGTH..] == rest;
      assert data[..INDICATOR_LENGTH] + data[INDICATOR_LENGTH..] == data;
    }
  }

  function CipherOf(k: Crypto, data: Data): Data {
    var keyed := KeysOf(k, data);
    EncryptChunk(k, data, keyed.keyFeature, keyed.keyMLE)
  }

  /**
   c is the chunk under its two keys: the first 32 bytes under the key of its feature, the rest under the key of its
   hash.
   */
  ghost predicate Encrypted(k: Crypto, data: Data, c: Data) {
    && |c| == |data|
    && if |data| <= 32 then
         c == k.encrypt(k.keyOf(k.feature(data)), data) && k.decrypt(k.keyOf(k.feature(data)), c) == data
       else
         && c[..32] == k.encrypt(k.keyOf(k.feature(data)), data[..32])
         && c[32..] == k.encrypt(k.keyOf(k.hash(data)), data[32..])
         && k.decrypt(k.keyOf(k.feature(data)), c[..32]) == data[..32]
         && k.decrypt(k.keyOf(k.hash(data)), c[32..]) == data[32..]
  }

  lemma CipherIsEncrypted(k: Crypto, data: Data)
    requires Sound(k)
    ensures Encrypted(k, data, CipherOf(k, data))
  {
    if |data| > 32 {
      var first, rest := k.encrypt(k.keyOf(k.feature(data)), data[..32]), k.encrypt(k.keyOf(k.hash(data)), data[32..]);
      assert |first| == 32 && |rest| == |data| - 32;
      assert (first + rest)[..32] == first && (first + rest)[32..] == rest;
    }
  }

  /** The entry gives the chunk's size, its two keys, and the hash of the chunk under them. */
  ghost predicate Describes(k: Crypto, e: Entry, data: Data) {
    && e.size == |data| && e.keyFeature == k.keyOf(k.feature(data)) && e.keyMLE == k.keyOf(k.hash(data))
    && exists c :: Encrypted(k, data, c) && k.hash(c) == e.hash
  }

  /** Under some hash the store has its own preimage, and that is the chunk under its keys. */
  ghost predicate KeptEncrypted(k: Crypto, data: Data, store: map<Data, Data>) {
    exists c :: Encrypted(k, data, c) && k.hash(c) in store && store[k.hash(c)] == c
  }

  /** What the recipe must say about a chunk. */
  function EntryOf(k: Crypto, data: Data): Entry {
    var keyed := KeysOf(k, data);
    Entry(|CipherOf(k, data)|, k.hash(CipherOf(k, data)), keyed.keyFeature, keyed.keyMLE)
  }

  lemma EntryDescribes(k: Crypto, data: Data)
    requires Sound(k)
    ensures Describes(k, EntryOf(k, data), data)
  {
    CipherIsEncrypted(k, data);
    hide EncryptChunk;
    assert Encrypted(k, data, CipherOf(k, data));
  }

  /** The sender lists the chunks as they come and sorts the list by chunk ID before sending it. */
  method BuildRecipe(k: Crypto, keyed: seq<Item<Keyed>>, ghost chunks: seq<Data>) returns (recipe: seq<Entry>)
    requires KeyedOfFile(k, keyed, chunks)
    ensures |recipe| == |chunks| && forall i :: 0 <= i < |chunks| ==> recipe[i] == EntryOf(k, chunks[i])
    ensures Sound(k) ==> forall i :: 0 <= i < |chunks| ==> Describes(k, recipe[i], chunks[i])
  {
    var list: seq<Item<Entry>> := [];
    for i := 0 to |keyed|
      invariant |list| == i
      invariant forall j :: 0 <= j < i ==> list[j] == Item(keyed[j].id, EntryOf(k, keyed[j].value.data))
    {
      var v := keyed[i].value;
      var cipher := EncryptChunk(k, v.data, v.keyFeature, v.keyMLE);
      list := list + [Item(keyed[i].id, Entry(|cipher|, k.hash(cipher), v.keyFeature, v.keyMLE))];
    }
    var sorted := SortById(list);
    SortedByPosition(list, |chunks|);
    recipe := [];
    for i := 0 to |sorted|
      invariant |recipe| == i && forall j :: 0 <= j < i ==> recipe[j] == EntryOf(k, chunks[j])
    {
      ghost var p :| 0 <= p < |list| && list[p] == sorted[i];
      recipe := recipe + [sorted[i].value];
    }
    if Sound(k) {
      forall i | 0 <= i < |chunks| ensures Describes(k, recipe[i], chunks[i]) {
        EntryDescribes(k, chunks[i]);
      }
    }
  }

  // ---------------------------------------------------------------- restore

  function Frame(item: Item<Data>): Data
    requires item.id < ID_RANGE && |item.value| < SIZE_RANGE
  {
    Bytes32(item.id) + Bytes32(|item.value|) + item.value
  }

  ghost predicate Framable(items: seq<Item<Data>>) {
    forall i :: 0 <= i < |items| ==> items[i].id < ID_RANGE && |items[i].value| < SIZE_RANGE
  }

  function Frames(items: seq<Item<Data>>): Data
    requires Framable(items)
  {
    if items == [] then [] else Frame(items[0]) + Frames(items[1..])
  }

  lemma {:induction false} FramesLast(items: seq<Item<Data>>, last: Item<Data>)
    requires Framable(items) && last.id < ID_RANGE && |last.value| < SIZE_RANGE
    ensures Framable(items + [last]) && Frames(items + [last]) == Frames(items) + Frame(last)
  {
    if items == [] {
      assert Frames([last]) == Frame(last) + Frames([]);
      assert [] + [last] == [last];
    } else {
      assert (items + [last])[1..] == items[1..] + [last];
      FramesLast(items[1..], last);
    }
  }

  /** Whether the store has the bytes of entry number id, and of the size that the recipe says. */
  predicate Available(recipe: seq<Entry>, store: map<Data, Data>, id: nat)
    requires id < |recipe|
  {
    recipe[id].hash in store && |store[recipe[id].hash]| == recipe[id].size
  }

  ghost predicate AllAvailable(recipe: seq<Entry>, store: map<Data, Data>, first: nat, count: nat)
    requires first + count <= |recipe|
  {
    forall i :: first <= i < first + count ==> Available(recipe, store, i)
  }

  /** What a response carries: the stored bytes of entries first .. first + count, numbered. */
  ghost function Fetched(recipe: seq<Entry>, store: map<Data, Data>, first: nat, count: nat): (r: seq<Item<Data>>)
    requires first + count <= |recipe| && AllAvailable(recipe, store, first, count)
    ensures |r| == count
    ensures forall i :: 0 <= i < count ==>
      Available(recipe, store, first + i) && r[i] == Item(first + i, store[recipe[first + i].hash])
  {
    seq(count, i requires 0 <= i < count =>
      assert Available(recipe, store, first + i); Item(first + i, store[recipe[first + i].hash]))
  }

  ghost predicate Holds(k: Crypto, chunks: seq<Data>, store: map<Data, Data>, i: nat)
    requires i < |chunks|
  {
    var cipher := CipherOf(k, chunks[i]);
    k.hash(cipher) in store && store[k.hash(cipher)] == cipher
  }

  /** The store returns each chunk's ciphertext under its hash. */
  ghost predicate Stored(k: Crypto, chunks: seq<Data>, store: map<Data, Data>) {
    forall i :: 0 <= i < |chunks| ==> Holds(k, chunks, store, i)
  }

  /** A stored value and the ciphertext of chunk i do not share a hash, unless they are the same. */
  ghost predicate NoCollisionWith(k: Crypto, chunks: seq<Data>, store: map<Data, Data>, i: nat)
    requires i < |chunks|
  {
    var cipher := CipherOf(k, chunks[i]);
    forall h :: h in store && k.hash(store[h]) == k.hash(cipher) ==> store[h] == cipher
  }

  /**
   A store that keeps values under their hashes has the file exactly if it knows the hashes of the file's ciphertexts
   and none of them collides with a stored value.
   */
  lemma NoCollisionMeansStored(k: Crypto, chunks: seq<Data>, store: map<Data, Data>)
    requires forall h :: h in store ==> k.hash(store[h]) == h
    ensures Stored(k, chunks, store) <==> forall i :: 0 <= i < |chunks| ==>
      k.hash(CipherOf(k, chunks[i])) in store && NoCollisionWith(k, chunks, store, i)
  {
    hide CipherOf;
    if Stored(k, chunks, store) {
      forall i | 0 <= i < |chunks|
        ensures k.hash(CipherOf(k, chunks[i])) in store && NoCollisionWith(k, chunks, store, i)
      {
        assert Holds(k, chunks, store, i);
      }
    } else {
      var i :| 0 <= i < |chunks| && !Holds(k, chunks, store, i);
      assert k.hash(CipherOf(k, chunks[i])) !in store || !NoCollisionWith(k, chunks, store, i);
    }
  }

  function FrameBytes(id: nat, data: Data): (r: Data)
    requires id < ID_RANGE && |data| < SIZE_RANGE
    ensures r == Frame(Item(id, data))
  {
    Bytes32(id) + Bytes32(|data|) + data
  }

  lemma NoFrames()
    ensures Frames([]) == []
  {
  }

  /** One response of the server; none if a chunk is missing or has another size than the recipe says. */
  method RestoreBatch(recipe: seq<Entry>, batch: Claim, st: Store) returns (response: Option<Data>)
    requires |recipe| < ID_RANGE && batch.first + batch.count <= |recipe| && st.Valid()
    requires forall i :: 0 <= i < |recipe| ==> recipe[i].size < SIZE_RANGE
    modifies st.cache, st.cache.lru, st.cache.pool
    ensures st.Valid()
    ensures response.Some? <==> AllAvailable(recipe, st.stored, batch.first, batch.count)
    ensures response.Some? ==>
      var items := Fetched(recipe, st.stored, batch.first, batch.count);
      Framable(items) && response.value == Bytes32(batch.count) + Frames(items)
  {
    hide Bytes32, Frame, Frames, ContainerStore.Store.Valid;
    ghost var store := st.stored;
    var body: Data := [];
    assert Fetched(recipe, store, batch.first, 0) == [];
    assert Frames([]) == [] by { NoFrames(); }
    for i := 0 to batch.count
      invariant st.Valid()
      invariant AllAvailable(recipe, store, batch.first, i)
      invariant Framable(Fetched(recipe, store, batch.first, i))
        && body == Frames(Fetched(recipe, store, batch.first, i))
    {
      var id := batch.first + i;
      var found := st.RestoreChunk(recipe[id].hash);
      if found.None? {
        assert !Available(recipe, store, id);
        return None;
      }
      var data := found.value;
      if |data| != recipe[id].size {
        assert !Available(recipe, store, id);
        return None;
      }
      FramesLast(Fetched(recipe, store, batch.first, i), Item(id, data));
      assert Fetched(recipe, store, batch.first, i) + [Item(id, data)] == Fetched(recipe, store, batch.first, i + 1);
      body := body + FrameBytes(id, data);
    }
    response := Some(Bytes32(batch.count) + body);
  }

  lemma FirstFrame(items: seq<Item<Data>>)
    requires Framable(items) && items != []
    ensures var f := Frames(items);
      var x := items[0];
      && |f| >= 8 + |x.value|
      && Size32(f[..4]) == x.id && Size32(f[4..8]) == |x.value| && f[8..8 + |x.value|] == x.value
      && Framable(items[1..]) && f[8 + |x.value|..] == Frames(items[1..])
  {
    var x, f := items[0], Frames(items);
    var (a, b) := (Bytes32(x.id), Bytes32(|x.value|));
    hide Bytes32, Size32;
    assert f == a + b + x.value + Frames(items[1..]);
    assert f[..4] == a && f[4..8] == b;
  }

  /** The client reads the frames of a response one after the other and decrypts with the keys of the recipe. */
  method DecodeResponse(k: Crypto, recipe: seq<Entry>, response: Data, ghost items: seq<Item<Data>>)
    returns (out: seq<Data>)
    requires Framable(items) && |items| < ID_RANGE && response == Bytes32(|items|) + Frames(items)
    requires forall i :: 0 <= i < |items| ==> items[i].id < |recipe|
    ensures |out| == |items|
    ensures forall i :: 0 <= i < |items| ==>
      out[i] == DecryptChunk(k, items[i].value, recipe[items[i].id].keyFeature, recipe[items[i].id].keyMLE)
  {
    hide Bytes32, Frames, DecryptChunk, Size32;
    assert response[..4] == Bytes32(|items|);
    var chunkNumber := Size32(response[..4]);
    var offset := 4;
    out := [];
    assert items[0..] == items && response[4..] == Frames(items);
    for i := 0 to chunkNumber
      invariant 4 <= offset <= |response| && response[offset..] == Frames(items[i..])
      invariant |out| == i
      invariant forall j :: 0 <= j < i ==>
        out[j] == DecryptChunk(k, items[j].value, recipe[items[j].id].keyFeature, recipe[items[j].id].keyMLE)
    {
      ghost var rest := response[offset..];
      FirstFrame(items[i..]);
      assert items[i..][0] == items[i] && items[i..][1..] == items[i + 1..];
      assert response[offset..offset + 4] == rest[..4] && response[offset + 4..offset + 8] == rest[4..8];
      var chunkID := Size32(response[offset..offset + 4]);
      var chunkSize := Size32(response[offset + 4..offset + 8]);
      assert response[offset + 8..offset + 8 + chunkSize] == rest[8..8 + chunkSize];
      var cipher := response[offset + 8..offset + 8 + chunkSize];
      out := out + [DecryptChunk(k, cipher, recipe[chunkID].keyFeature, recipe[chunkID].keyMLE)];
      offset := offset + 8 + chunkSize;
      assert response[offset..] == rest[8 + chunkSize..];
    }
  }

  lemma StoredEntry(k: Crypto, chunks: seq<Data>, store: map<Data, Data>, id: nat)
    requires Stored(k, chunks, store) && id < |chunks|
    ensures var e := EntryOf(k, chunks[id]);
      e.hash in store && store[e.hash] == CipherOf(k, chunks[id])
        && |store[e.hash]| == e.size == |CipherOf(k, chunks[id])|
  {
    hide CipherOf;
    assert Holds(k, chunks, store, id);
  }

  lemma StoredBatch(k: Crypto, recipe: seq<Entry>, batch: Claim, store: map<Data, Data>, chunks: seq<Data>)
    requires |recipe| == |chunks| && batch.first + batch.count <= |chunks| && Stored(k, chunks, store)
    requires forall i :: 0 <= i < |chunks| ==>
      recipe[i] == EntryOf(k, chunks[i]) && |CipherOf(k, chunks[i])| < SIZE_RANGE
    ensures AllAvailable(recipe, store, batch.first, batch.count)
    ensures forall i :: 0 <= i < |recipe| ==> recipe[i].size < SIZE_RANGE
  {
    hide CipherOf, EntryOf, Stored;
    forall id | 0 <= id < |recipe| ensures Available(recipe, store, id) && recipe[id].size < SIZE_RANGE {
      StoredEntry(k, chunks, store, id);
    }
  }

  lemma DecodesBack(k: Crypto, data: Data)
    requires Sound(k)
    ensures DecryptChunk(k, CipherOf(k, data), EntryOf(k, data).keyFeature, EntryOf(k, data).keyMLE) == data
  {
    hide Sound, EncryptChunk, DecryptChunk;
    var keyed := KeysOf(k, data);
    SplitCipherRoundTrip(k, data, keyed.keyFeature, keyed.keyMLE);
  }

  /** One batch: what the server sends and the client decodes are the chunks themselves. */
  method RestoreStep(k: Crypto, recipe: seq<Entry>, batch: Claim, st: Store, ghost chunks: seq<Data>)
    returns (parts: seq<Data>)
    requires st.Valid() && Stored(k, chunks, st.stored) && Sound(k) && |recipe| == |chunks| < ID_RANGE
      && batch.first + batch.count <= |chunks|
    requires forall i :: 0 <= i < |chunks| ==>
      recipe[i] == EntryOf(k, chunks[i]) && |CipherOf(k, chunks[i])| < SIZE_RANGE
    modifies st.cache, st.cache.lru, st.cache.pool
    ensures st.Valid() && parts == chunks[batch.first..batch.first + batch.count]
  {
    hide ContainerStore.Store.Valid, CipherOf, EntryOf, Stored, Bytes32, Frames, DecryptChunk, Sound, AllAvailable;
    ghost var store := st.stored;
    StoredBatch(k, recipe, batch, store, chunks);
    var response := RestoreBatch(recipe, batch, st);
    ghost var items := Fetched(recipe, store, batch.first, batch.count);
    parts := DecodeResponse(k, recipe, response.value, items);
    forall j | 0 <= j < |parts| ensures parts[j] == chunks[batch.first + j] {
      StoredEntry(k, chunks, store, batch.first + j);
      DecodesBack(k, chunks[batch.first + j]);
    }
  }

  lemma NothingRestored()
    ensures Concat<Byte>([]) == []
  {
  }

  /** The retriever appends the chunks to the file in the order they come. */
  method WriteAll(file: Data, parts: seq<Data>, ghost before: seq<Data>) returns (r: Data)
    requires file == Concat(before)
    ensures r == Concat(before + parts)
  {
    r := file;
    assert before + parts[..0] == before;
    for i := 0 to |parts|
      invariant r == Concat(before + parts[..i])
    {
      ConcatLast(before + parts[..i], parts[i]);
      assert before + parts[..i] + [parts[i]] == before + parts[..i + 1];
      r := r + parts[i];
    }
    assert parts[..|parts|] == parts;
  }

  /** The whole restore: the file comes back, whatever the batch limit. */
  method Restore(k: Crypto, recipe: seq<Entry>, limit: nat, st: Store, ghost chunks: seq<Data>) returns (file: Data)
    requires st.Valid() && Stored(k, chunks, st.stored) && Sound(k) && |recipe| == |chunks| && limit > 0
      && |chunks| + limit < ID_RANGE
    requires forall i :: 0 <= i < |chunks| ==>
      recipe[i] == EntryOf(k, chunks[i]) && |CipherOf(k, chunks[i])| < SIZE_RANGE
    modifies st.cache, st.cache.lru, st.cache.pool
    ensures st.Valid() && file == Concat(chunks)
  {
    hide CipherOf, EntryOf, Stored, Concat, Sound, ContainerStore.Store.Valid;
    var batches := RestoreLoop.Batches(|recipe|, limit);
    file := [];
    assert Concat<Byte>([]) == [] by { NothingRestored(); }
    ghost var restored: nat := 0;
    assert chunks[..0] == [];
    if batches != [] {
      TilesInOrder(batches, |chunks|, 0);
    }
    for i := 0 to |batches|
      invariant st.Valid() && restored <= |chunks| && file == Concat(chunks[..restored])
      invariant restored == if i < |batches| then batches[i].first else |chunks|
    {
      TilesInOrder(batches, |chunks|, i);
      var parts := RestoreStep(k, recipe, batches[i], st, chunks);
      assert chunks[..restored] + parts == chunks[..restored + |parts|];
      file := WriteAll(file, parts, chunks[..restored]);
      restored := restored + |parts|;
    }
    assert chunks[..|chunks|] == chunks;
  }

  // ---------------------------------------------------------------- upload

  /** No two chunks of the file have different ciphertexts with one hash. */
  ghost predicate NoCollision(k: Crypto, chunks: seq<Data>) {
    forall i, j :: 0 <= i < |chunks| && 0 <= j < |chunks|
        && k.hash(CipherOf(k, chunks[i])) == k.hash(CipherOf(k, chunks[j]))
      ==> CipherOf(k, chunks[i]) == CipherOf(k, chunks[j])
  }

  lemma HeldIsEncrypted(k: Crypto, chunks: seq<Data>, store: map<Data, Data>, i: nat)
    requires Sound(k) && i < |chunks| && Holds(k, chunks, store, i)
    ensures KeptEncrypted(k, chunks[i], store)
  {
    CipherIsEncrypted(k, chunks[i]);
    hide CipherOf, Encrypted;
    assert Encrypted(k, chunks[i], CipherOf(k, chunks[i]));
  }

  /** The keyed chunks are stored under the hashes of their ciphertexts, until container names are used up. */
  method Upload(k: Crypto, keyed: seq<Item<Keyed>>, st: Store, ghost chunks: seq<Data>) returns (ok: bool)
    requires st.Valid() && KeyedOfFile(k, keyed, chunks) && NoCollision(k, chunks)
    requires forall i :: 0 <= i < |chunks| ==> |CipherOf(k, chunks[i])| < st.maxContainerSize
    modifies st, st.body
    ensures st.Valid() && st.cache == old(st.cache)
    ensures ok ==> Stored(k, chunks, st.stored)
    ensures ok && Sound(k) ==> forall i :: 0 <= i < |chunks| ==> KeptEncrypted(k, chunks[i], st.stored)
    ensures !ok ==>
      && ContainerNames.LastAscent(st.lastContainerFileName) < 0
      && exists i :: 0 <= i < |chunks| && st.used + |CipherOf(k, chunks[i])| >= st.maxContainerSize
  {
    hide ContainerStore.Store.Valid, EncryptChunk, ContainerNames.LastAscent, ContainerNames.Next;
    for i := 0 to |keyed|
      invariant st.Valid() && st.cache == old(st.cache)
      invariant forall j :: 0 <= j < i ==> Holds(k, chunks, st.stored, keyed[j].id)
    {
      var v := keyed[i].value;
      var cipher := EncryptChunk(k, v.data, v.keyFeature, v.keyMLE);
      assert cipher == CipherOf(k, chunks[keyed[i].id]);
      if st.used + |cipher| >= st.maxContainerSize && ContainerNames.LastAscent(st.lastContainerFileName) < 0 {
        return false;
      }
      var _ := st.StoreChunk(k.hash(cipher), cipher, true);
    }
    ok := true;
    forall id | 0 <= id < |chunks| ensures Holds(k, chunks, st.stored, id) {
      SortedByPosition(keyed, |chunks|);
      assert SortById(keyed)[id] in keyed;
    }
    if Sound(k) {
      forall i | 0 <= i < |chunks| ensures KeptEncrypted(k, chunks[i], st.stored) {
        HeldIsEncrypted(k, chunks, st.stored, i);
      }
    }
  }

  /**
   Upload in any order of arrival, then restore: the client gets its file back, unless a chunk does not fit into the
   container of the last name.
   */
  method UploadAndRestore(k: Crypto, arrivals: seq<Item<Data>>, chunksPerBatch: nat, limit: nat, st: Store,
                          ghost chunks: seq<Data>) returns (file: Option<Data>)
    requires st.Valid() && Sound(k) && OfFile(arrivals, chunks) && NoCollision(k, chunks)
    requires chunksPerBatch > 0 && limit > 0 && |chunks| + limit < ID_RANGE
    requires forall i :: 0 <= i < |chunks| ==> |chunks[i]| < SIZE_RANGE && |chunks[i]| < st.maxContainerSize
    modifies st, st.body, st.cache, st.cache.lru, st.cache.pool
    ensures st.Valid()
    ensures file.Some? ==> forall i :: 0 <= i < |chunks| ==> KeptEncrypted(k, chunks[i], st.stored)
    ensures file.Some? ==> file.value == Concat(chunks)
    ensures file.None? ==>
      && ContainerNames.LastAscent(st.lastContainerFileName) < 0
      && exists i :: 0 <= i < |chunks| && st.used + |chunks[i]| >= st.maxContainerSize
  {
    hide ContainerStore.Store.Valid, Concat, Stored, NoCollision, ContainerNames.LastAscent, KeptEncrypted, Describes;
    var keyed := RunKeyClient(k, arrivals, chunksPerBatch, chunks);
    var recipe := BuildRecipe(k, keyed, chunks);
    forall i | 0 <= i < |chunks| ensures |CipherOf(k, chunks[i])| == |chunks[i]| {
      var v := KeysOf(k, chunks[i]);
      SplitCipherRoundTrip(k, chunks[i], v.keyFeature, v.keyMLE);
    }
    var ok := Upload(k, keyed, st, chunks);
    if !ok {
      return None;
    }
    var data := Restore(k, recipe, limit, st, chunks);
    file := Some(data);
  }
}
