/**
 The explicit producer run by one thread: blocks in a circular list that the producer reuses once they are empty, a
 circular block index that doubles when it is full, and the four counters. Its contents behave as a FIFO sequence.

 Blocks are numbered instead of addressed. `x & (size - 1)` on a power-of-two size is written `x % size`. An
 allocation that may fail is a boolean parameter.
 */
module ExplicitProducer {
  import opened CircularIndex
  import opened Options

  const BLOCK_SIZE: nat := 32
  const INITIAL_INDEX_EXPONENT: nat := 5
  /** The number of blocks in the whole index range: every index size divides it. */
  const RANGE_EXPONENT: nat := 59

  function Pow2(k: nat): (r: nat)
    ensures r > 0
  {
    if k == 0 then 1 else 2 * Pow2(k - 1)
  }

  lemma {:induction false} Pow2Divides(j: nat, k: nat) returns (q: nat)
    requires j <= k
    ensures Pow2(k) == q * Pow2(j)
  {
    if j == k {
      q := 1;
    } else {
      var h := Pow2Divides(j, k - 1);
      q := 2 * h;
    }
  }

  lemma RangeInBlocks()
    ensures Pow2(RANGE_EXPONENT) * BLOCK_SIZE == WORD
  {
    assert Pow2(10) == 1024;
    assert Pow2(20) == 0x10_0000;
    assert Pow2(30) == 0x4000_0000;
    assert Pow2(40) == 0x100_0000_0000;
    assert Pow2(50) == 0x4_0000_0000_0000;
    assert Pow2(59) == 0x800_0000_0000_0000;
  }

  lemma SizeInRange(exponent: nat)
    requires exponent <= RANGE_EXPONENT
    ensures Pow2(exponent) * BLOCK_SIZE <= WORD
  {
    RangeInBlocks();
    var q := Pow2Divides(exponent, RANGE_EXPONENT);
    if q > 1 {
      AtLeastOnce(q, Pow2(exponent));
    }
  }

  /** The slot that lies `back` places before `front` in a ring of `size` slots. */
  function Slot(front: nat, size: nat, back: nat): nat
    requires front < size && back <= size
  {
    if back <= front then front - back else front + size - back
  }

  lemma SlotIsModular(front: nat, size: nat, back: nat)
    requires front < size && back <= size
    ensures Slot(front, size, back) < size
    ensures Slot(front, size, back) == (front + size - back) % size
    ensures (front + 1) % size == if front + 1 == size then 0 else front + 1
  {
    if back <= front {
      ModuloUnique(front + size - back, size, 1, front - back);
    } else {
      ModuloUnique(front + size - back, size, 0, front + size - back);
    }
    if front + 1 == size {
      ModuloUnique(front + 1, size, 1, 0);
    } else {
      ModuloUnique(front + 1, size, 0, front + 1);
    }
  }

  lemma SlotAdvances(front: nat, size: nat, back: nat)
    requires front < size && 0 < back <= size
    ensures Slot(front, size, back) < size
    ensures (Slot(front, size, back) + 1) % size == Slot(front, size, back - 1)
  {
    SlotIsModular(Slot(front, size, back), size, 0);
  }

  lemma OffsetBack(range: nat, back: nat)
    requires range * BLOCK_SIZE == WORD && back < range
    ensures Wrap(-(back * BLOCK_SIZE)) / BLOCK_SIZE == if back == 0 then 0 else range - back
  {
  }

  /**
   The block offset is computed by an unsigned division of a difference that may have wrapped; it still lands on the
   slot `back` places before `front`, because the ring size divides the number of blocks in the index range.
   */
  lemma OffsetLands(front: nat, exponent: nat, back: nat)
    requires exponent <= RANGE_EXPONENT && front < Pow2(exponent) && back <= Pow2(exponent)
    requires back * BLOCK_SIZE < WORD
    ensures (front + Wrap(-(back * BLOCK_SIZE)) / BLOCK_SIZE) % Pow2(exponent) == Slot(front, Pow2(exponent), back)
  {
    var size := Pow2(exponent);
    RangeInBlocks();
    var offset := Wrap(-(back * BLOCK_SIZE)) / BLOCK_SIZE;
    var q := Pow2Divides(exponent, RANGE_EXPONENT);
    var range := Pow2(RANGE_EXPONENT);
    assert range == q * size;
    OffsetBack(range, back);
    if back == 0 {
      assert offset == 0;
      ModuloUnique(front, size, 0, front);
    } else {
      assert offset == range - back;
      if back <= front {
        ModuloUnique(front + offset, size, q, front - back);
      } else {
        assert (q - 1) * size == q * size - size;
        ModuloUnique(front + offset, size, q - 1, front + size - back);
      }
    }
  }

  // ---------------------------------------------------------------- the queue as a window on block memory

  /** Blocks number first, first + 1, .. hold the elements with indices head .. tail. */
  ghost predicate Covers<T>(memory: seq<seq<T>>, first: int, head: nat, tail: nat) {
    && (forall j :: 0 <= j < |memory| ==> |memory[j]| == BLOCK_SIZE)
    && first * BLOCK_SIZE <= head <= tail <= (first + |memory|) * BLOCK_SIZE
  }

  ghost function ElementAt<T>(memory: seq<seq<T>>, first: int, i: nat): T
    requires Covers(memory, first, i, i + 1)
  {
    memory[i / BLOCK_SIZE - first][i % BLOCK_SIZE]
  }

  ghost function Window<T>(memory: seq<seq<T>>, first: int, head: nat, tail: nat): (w: seq<T>)
    requires Covers(memory, first, head, tail)
    ensures |w| == tail - head
  {
    seq(tail - head, k requires 0 <= k < tail - head => ElementAt(memory, first, head + k))
  }

  lemma SameWindow<T>(memory: seq<seq<T>>, first: int, memory': seq<seq<T>>, first': int, head: nat, tail: nat)
    requires Covers(memory, first, head, tail) && Covers(memory', first', head, tail)
    requires forall i :: head <= i < tail ==> ElementAt(memory, first, i) == ElementAt(memory', first', i)
    ensures Window(memory, first, head, tail) == Window(memory', first', head, tail)
  {
    var w, w' := Window(memory, first, head, tail), Window(memory', first', head, tail);
    forall k | 0 <= k < |w| ensures w[k] == w'[k] {
      assert w[k] == ElementAt(memory, first, head + k);
    }
  }

  /** Moving an exhausted first block to the end, with whatever memory, leaves the window as it was. */
  lemma WindowRotates<T>(memory: seq<seq<T>>, memory': seq<seq<T>>, first: int, head: nat, tail: nat)
    requires Covers(memory, first, head, tail) && memory != [] && (first + 1) * BLOCK_SIZE <= head
    requires |memory'| == |memory| && |memory'[|memory| - 1]| == BLOCK_SIZE
    requires forall j :: 0 <= j < |memory| - 1 ==> memory'[j] == memory[j + 1]
    ensures Covers(memory', first + 1, head, tail)
    ensures Window(memory', first + 1, head, tail) == Window(memory, first, head, tail)
  {
    forall j | 0 <= j < |memory'| ensures |memory'[j]| == BLOCK_SIZE {
      assert j < |memory| - 1 ==> memory'[j] == memory[j + 1];
    }
    forall i | head <= i < tail ensures ElementAt(memory', first + 1, i) == ElementAt(memory, first, i) {
      var p := i / BLOCK_SIZE - first;
      assert memory'[p - 1] == memory[p];
    }
    SameWindow(memory', first + 1, memory, first, head, tail);
  }

  lemma WindowExtends<T>(memory: seq<seq<T>>, block: seq<T>, first: int, head: nat, tail: nat)
    requires Covers(memory, first, head, tail) && |block| == BLOCK_SIZE
    ensures Covers(memory + [block], first, head, tail)
    ensures Window(memory + [block], first, head, tail) == Window(memory, first, head, tail)
  {
    SameWindow(memory + [block], first, memory, first, head, tail);
  }

  /** Writing at the tail appends to the window. */
  lemma WindowAppends<T>(memory: seq<seq<T>>, memory': seq<seq<T>>, first: int, head: nat, tail: nat, x: T)
    requires Covers(memory, first, head, tail) && tail < (first + |memory|) * BLOCK_SIZE
    requires memory' == memory[tail / BLOCK_SIZE - first :=
      memory[tail / BLOCK_SIZE - first][tail % BLOCK_SIZE := x]]
    ensures Covers(memory', first, head, tail + 1)
    ensures Window(memory', first, head, tail + 1) == Window(memory, first, head, tail) + [x]
  {
    forall i | head <= i < tail ensures ElementAt(memory', first, i) == ElementAt(memory, first, i) {
      assert i / BLOCK_SIZE != tail / BLOCK_SIZE || i % BLOCK_SIZE != tail % BLOCK_SIZE;
    }
    SameWindow(memory', first, memory, first, head, tail);
    assert ElementAt(memory', first, tail) == x;
    assert Window(memory', first, head, tail + 1)[..tail - head] == Window(memory', first, head, tail);
  }

  lemma WindowDrops<T>(memory: seq<seq<T>>, first: int, head: nat, tail: nat, n: nat)
    requires Covers(memory, first, head, tail) && head + n <= tail
    ensures Covers(memory, first, head + n, tail)
    ensures Window(memory, first, head + n, tail) == Window(memory, first, head, tail)[n..]
  {
  }

  lemma EmptyPrefix<T>(s: seq<T>)
    ensures [] + s == s
  {
  }

  lemma EmptySuffix<T>(s: seq<T>)
    ensures s + [] == s
  {
  }

  lemma PrefixGrows<T>(before: seq<T>, s: seq<T>, i: nat, j: nat)
    requires i <= j <= |s|
    ensures before + s[..i] + s[i..j] == before + s[..j]
  {
    assert s[..j] == s[..i] + s[i..j];
  }

  lemma WindowPops<T>(memory: seq<seq<T>>, first: int, head: nat, tail: nat, j: nat)
    requires Covers(memory, first, head, tail) && head < tail && first + j == head / BLOCK_SIZE && j < |memory|
    ensures Covers(memory, first, head + 1, tail)
    ensures Window(memory, first, head, tail) == [memory[j][head % BLOCK_SIZE]] + Window(memory, first, head + 1, tail)
  {
    WindowDrops(memory, first, head, tail, 1);
    assert Window(memory, first, head, tail)[0] == ElementAt(memory, first, head);
  }

  /** The position that follows i in a circular list of n. */
  function After(i: nat, n: nat): (r: nat)
    requires i < n
    ensures r < n
  {
    if i + 1 < n then i + 1 else 0
  }

  /** `emptyFlags` is stored in reverse: flag BLOCK_SIZE - 1 - o is that of element o. `next` is a block number. */
  datatype Block<T> = Block(elements: seq<T>, emptyFlags: seq<bool>, next: nat)

  datatype Entry = Unused | Entry(base: nat, block: nat)

  predicate IsEmpty<T>(b: Block<T>) {
    forall i :: 0 <= i < |b.emptyFlags| ==> b.emptyFlags[i]
  }

  function Flags(value: bool): (r: seq<bool>)
    ensures |r| == BLOCK_SIZE && forall i :: 0 <= i < BLOCK_SIZE ==> r[i] == value
  {
    seq(BLOCK_SIZE, _ => value)
  }

  function Rotated<X>(s: seq<X>): (r: seq<X>)
    requires s != []
    ensures |r| == |s|
    ensures forall j :: 0 <= j < |s| - 1 ==> r[j] == s[j + 1]
    ensures r[|s| - 1] == s[0]
  {
    s[1..] + [s[0]]
  }

  // ---------------------------------------------------------------- the circular block list

  ghost predicate Link<T>(blocks: seq<Block<T>>, ring: seq<nat>, i: nat)
    requires i < |ring|
  {
    && ring[i] < |blocks|
    && |blocks[ring[i]].elements| == |blocks[ring[i]].emptyFlags| == BLOCK_SIZE
    && blocks[ring[i]].next == ring[After(i, |ring|)]
  }

  /** `ring` lists the blocks in link order, and they are linked in a circle. */
  ghost predicate Linked<T>(blocks: seq<Block<T>>, ring: seq<nat>) {
    && (forall i, j :: 0 <= i < j < |ring| ==> ring[i] != ring[j])
    && (forall i :: 0 <= i < |ring| ==> Link(blocks, ring, i))
  }

  lemma LinkedRotates<T>(blocks: seq<Block<T>>, ring: seq<nat>)
    requires Linked(blocks, ring) && ring != []
    ensures Linked(blocks, Rotated(ring))
  {
    var ring' := Rotated(ring);
    forall i | 0 <= i < |ring| ensures Link(blocks, ring', i) {
      assert Link(blocks, ring, After(i, |ring|));
    }
  }

  /** The blocks once a new one is linked in behind the tail block. */
  function Insert<T>(blocks: seq<Block<T>>, tailBlock: Option<nat>, elements: seq<T>,
                     emptyFlags: seq<bool>): seq<Block<T>>
    requires tailBlock.Some? ==> tailBlock.value < |blocks|
  {
    match tailBlock
    case None => blocks + [Block(elements, emptyFlags, |blocks|)]
    case Some(b) => blocks[b := blocks[b].(next := |blocks|)] + [Block(elements, emptyFlags, blocks[b].next)]
  }

  /** The tail block is the last one of the list. */
  ghost predicate IsTail(tailBlock: Option<nat>, ring: seq<nat>) {
    tailBlock == if ring == [] then None else Some(ring[|ring| - 1])
  }

  lemma InsertLinks<T>(blocks: seq<Block<T>>, ring: seq<nat>, tailBlock: Option<nat>, elements: seq<T>,
                       emptyFlags: seq<bool>)
    requires Linked(blocks, ring) && |elements| == |emptyFlags| == BLOCK_SIZE && IsTail(tailBlock, ring)
    ensures tailBlock.Some? ==> tailBlock.value < |blocks|
    ensures Linked(Insert(blocks, tailBlock, elements, emptyFlags), ring + [|blocks|])
  {
    assert ring != [] ==> Link(blocks, ring, |ring| - 1);
    var blocks' := Insert(blocks, tailBlock, elements, emptyFlags);
    var ring' := ring + [|blocks|];
    forall i | 0 <= i < |ring'| ensures Link(blocks', ring', i) {
      if i < |ring| {
        assert Link(blocks, ring, i);
      }
    }
    forall i, j | 0 <= i < j < |ring'| ensures ring'[i] != ring'[j] {
      assert Link(blocks, ring, i);
    }
  }

  ghost function ElementsOf<T>(blocks: seq<Block<T>>, ring: seq<nat>, j: nat): (e: seq<T>)
    requires Linked(blocks, ring) && j < |ring|
    ensures |e| == BLOCK_SIZE
  {
    assert Link(blocks, ring, j);
    blocks[ring[j]].elements
  }

  ghost function Memory<T>(blocks: seq<Block<T>>, ring: seq<nat>): (m: seq<seq<T>>)
    requires Linked(blocks, ring)
    ensures |m| == |ring|
    ensures forall j :: 0 <= j < |ring| ==> m[j] == ElementsOf(blocks, ring, j)
  {
    seq(|ring|, j requires 0 <= j < |ring| => ElementsOf(blocks, ring, j))
  }

  lemma RotationKeepsWindow<T>(blocks: seq<Block<T>>, ring: seq<nat>, first: int, head: nat, tail: nat)
    requires Linked(blocks, ring) && Covers(Memory(blocks, ring), first, head, tail)
    requires ring != [] && (first + 1) * BLOCK_SIZE <= head
    ensures Linked(blocks, Rotated(ring)) && Covers(Memory(blocks, Rotated(ring)), first + 1, head, tail)
    ensures Window(Memory(blocks, Rotated(ring)), first + 1, head, tail)
      == Window(Memory(blocks, ring), first, head, tail)
  {
    LinkedRotates(blocks, ring);
    WindowRotates(Memory(blocks, ring), Memory(blocks, Rotated(ring)), first, head, tail);
  }

  /** The empty flags of the block at position j say which of its elements are below `head`. */
  ghost predicate Flagged<T>(blocks: seq<Block<T>>, ring: seq<nat>, first: int, head: nat, j: nat)
    requires j < |ring| && Link(blocks, ring, j)
  {
    forall f :: 0 <= f < BLOCK_SIZE ==>
      (blocks[ring[j]].emptyFlags[f] <==> (first + j) * BLOCK_SIZE + BLOCK_SIZE - 1 - f < head)
  }

  /** Flags are right for the blocks numbered below `limit`; later ones, not yet in use, are marked empty. */
  ghost predicate AllFlagged<T>(blocks: seq<Block<T>>, ring: seq<nat>, first: int, head: nat, limit: int) {
    && Linked(blocks, ring)
    && forall j :: 0 <= j < |ring| ==>
         if first + j < limit then Flagged(blocks, ring, first, head, j)
         else Link(blocks, ring, j) && IsEmpty(blocks[ring[j]])
  }

  lemma RotateKeepsFlags<T>(blocks: seq<Block<T>>, ring: seq<nat>, first: int, head: nat, limit: int)
    requires AllFlagged(blocks, ring, first, head, limit) && ring != [] && Link(blocks, ring, 0)
      && IsEmpty(blocks[ring[0]])
    requires limit <= first + |ring|
    ensures AllFlagged(blocks, Rotated(ring), first + 1, head, limit)
  {
    LinkedRotates(blocks, ring);
    var ring', first' := Rotated(ring), first + 1;
    forall j | 0 <= j < |ring|
      ensures Link(blocks, ring', j)
      ensures if first' + j < limit then Flagged(blocks, ring', first', head, j) else IsEmpty(blocks[ring'[j]])
    {
      assert Link(blocks, ring', j);
      if j < |ring| - 1 {
        assert Link(blocks, ring, j + 1);
        assert if first + (j + 1) < limit then Flagged(blocks, ring, first, head, j + 1)
            else IsEmpty(blocks[ring[j + 1]]);
      }
    }
  }

  /** Clearing the flags of an unused block that starts at or above the head. */
  lemma ResetKeepsFlags<T>(blocks: seq<Block<T>>, ring: seq<nat>, first: int, head: nat, j: nat)
    requires AllFlagged(blocks, ring, first, head, first + j) && j < |ring| && head <= (first + j) * BLOCK_SIZE
    requires Link(blocks, ring, j)
    ensures var blocks' := blocks[ring[j] := blocks[ring[j]].(emptyFlags := Flags(false))];
      && AllFlagged(blocks', ring, first, head, first + j + 1)
      && Memory(blocks', ring) == Memory(blocks, ring)
  {
    var blocks' := blocks[ring[j] := blocks[ring[j]].(emptyFlags := Flags(false))];
    forall k | 0 <= k < |ring| ensures Link(blocks', ring, k) {
      assert Link(blocks, ring, k);
    }
    forall k | 0 <= k < |ring|
      ensures if k < j + 1 then Flagged(blocks', ring, first, head, k) else IsEmpty(blocks'[ring[k]])
    {
      assert Link(blocks, ring, k) && Link(blocks', ring, k);
      assert if k < j then Flagged(blocks, ring, first, head, k) else IsEmpty(blocks[ring[k]]);
    }
    forall k | 0 <= k < |ring| ensures ElementsOf(blocks', ring, k) == ElementsOf(blocks, ring, k) {
      assert Link(blocks, ring, k);
    }
  }

  /** The limit up to which flags count moves past a new block only if that block is marked as in use. */
  lemma InsertKeepsFlags<T>(blocks: seq<Block<T>>, ring: seq<nat>, tailBlock: Option<nat>, elements: seq<T>, flag: bool,
                            first: int, head: nat, limit: int)
    requires AllFlagged(blocks, ring, first, head, limit) && |elements| == BLOCK_SIZE && IsTail(tailBlock, ring)
    requires head <= (first + |ring|) * BLOCK_SIZE && limit <= first + |ring| && (!flag ==> limit == first + |ring|)
    ensures tailBlock.Some? ==> tailBlock.value < |blocks|
    ensures AllFlagged(Insert(blocks, tailBlock, elements, Flags(flag)), ring + [|blocks|], first, head,
                       if flag then limit else limit + 1)
  {
    InsertLinks(blocks, ring, tailBlock, elements, Flags(flag));
    var blocks', ring' := Insert(blocks, tailBlock, elements, Flags(flag)), ring + [|blocks|];
    var limit' := if flag then limit else limit + 1;
    forall j | 0 <= j < |ring'|
      ensures Link(blocks', ring', j)
      ensures if first + j < limit' then Flagged(blocks', ring', first, head, j) else IsEmpty(blocks'[ring'[j]])
    {
      assert Link(blocks', ring', j);
      if j < |ring| {
        assert Link(blocks, ring, j);
        assert if first + j < limit then Flagged(blocks, ring, first, head, j) else IsEmpty(blocks[ring[j]]);
      }
    }
  }

  lemma InsertKeepsMemory<T>(blocks: seq<Block<T>>, ring: seq<nat>, tailBlock: Option<nat>, elements: seq<T>,
                             emptyFlags: seq<bool>)
    requires Linked(blocks, ring) && |elements| == |emptyFlags| == BLOCK_SIZE && IsTail(tailBlock, ring)
    ensures tailBlock.Some? ==> tailBlock.value < |blocks|
    ensures Linked(Insert(blocks, tailBlock, elements, emptyFlags), ring + [|blocks|])
    ensures Memory(Insert(blocks, tailBlock, elements, emptyFlags), ring + [|blocks|])
      == Memory(blocks, ring) + [elements]
  {
    InsertLinks(blocks, ring, tailBlock, elements, emptyFlags);
    var blocks', ring' := Insert(blocks, tailBlock, elements, emptyFlags), ring + [|blocks|];
    forall j | 0 <= j < |ring| ensures ElementsOf(blocks', ring', j) == ElementsOf(blocks, ring, j) {
      assert Link(blocks, ring, j);
    }
    assert ElementsOf(blocks', ring', |ring|) == elements;
  }

  // ---------------------------------------------------------------- the circular block index

  /** The entry of ring position j, counted back from the front. */
  ghost predicate HasEntry(entries: seq<Entry>, front: nat, ring: seq<nat>, first: int, j: nat)
    requires j < |ring| <= |entries| && front < |entries|
  {
    0 <= first + j && entries[Slot(front, |entries|, |ring| - j)] == Entry((first + j) * BLOCK_SIZE, ring[j])
  }

  /** The index has the entries of the blocks numbered `live` and above; those before are used up. */
  ghost predicate IndexHas(entries: seq<Entry>, front: nat, ring: seq<nat>, first: int, live: nat) {
    && front < |entries| && |ring| <= |entries|
    && forall j :: 0 <= j < |ring| && live <= first + j ==> HasEntry(entries, front, ring, first, j)
  }

  lemma IndexStays(entries: seq<Entry>, front: nat, ring: seq<nat>, first: int, live: nat, live': nat)
    requires IndexHas(entries, front, ring, first, live) && live <= live'
    ensures IndexHas(entries, front, ring, first, live')
  {
  }

  function NextSlot(front: nat, size: nat): nat {
    if front + 1 == size then 0 else front + 1
  }

  lemma NextSlotBack(front: nat, size: nat, back: nat)
    requires front < size && back < size
    ensures NextSlot(front, size) < size && Slot(NextSlot(front, size), size, back + 1) == Slot(front, size, back)
  {
  }

  /** Writing the entry of a reused block displaces the block's old entry and no other. */
  lemma IndexRotates(entries: seq<Entry>, front: nat, ring: seq<nat>, first: int, live: nat)
    requires IndexHas(entries, front, ring, first, live) && ring != [] && 0 <= first + |ring|
    ensures IndexHas(entries[front := Entry((first + |ring|) * BLOCK_SIZE, ring[0])], NextSlot(front, |entries|),
                     Rotated(ring), first + 1, live)
  {
    var entries', ring' := entries[front := Entry((first + |ring|) * BLOCK_SIZE, ring[0])], Rotated(ring);
    var first', front' := first + 1, NextSlot(front, |entries|);
    forall j | 0 <= j < |ring'| && live <= first' + j ensures HasEntry(entries', front', ring', first', j) {
      if j < |ring| - 1 {
        assert HasEntry(entries, front, ring, first, j + 1);
      }
    }
  }

  /** With a slot to spare, the entry of a new block joins the others. */
  lemma IndexExtends(entries: seq<Entry>, front: nat, ring: seq<nat>, first: int, live: nat, block: nat)
    requires IndexHas(entries, front, ring, first, live) && |ring| < |entries| && 0 <= first + |ring|
    ensures IndexHas(entries[front := Entry((first + |ring|) * BLOCK_SIZE, block)], NextSlot(front, |entries|),
                     ring + [block], first, live)
  {
    var entries', ring' := entries[front := Entry((first + |ring|) * BLOCK_SIZE, block)], ring + [block];
    var front' := NextSlot(front, |entries|);
    forall j | 0 <= j < |ring'| && live <= first + j ensures HasEntry(entries', front', ring', first, j) {
      if j < |ring| {
        assert HasEntry(entries, front, ring, first, j);
      }
    }
  }

  /** The index looked up from the newest entry finds the block of any element in the list. */
  lemma IndexFinds(entries: seq<Entry>, exponent: nat, front: nat, published: nat, ring: seq<nat>, first: int,
                   live: nat, i: nat)
    requires exponent <= RANGE_EXPONENT && |entries| == Pow2(exponent) && IndexHas(entries, front, ring, first, live)
    requires live <= i / BLOCK_SIZE && ring != [] && published == Slot(front, |entries|, 1)
      && |ring| * BLOCK_SIZE <= HALF
    requires first * BLOCK_SIZE <= i < (first + |ring|) * BLOCK_SIZE
    ensures entries[published].Entry?
    ensures var offset := Wrap(i / BLOCK_SIZE * BLOCK_SIZE - entries[published].base) / BLOCK_SIZE;
      && (published + offset) % |entries| == Slot(front, |entries|, |ring| - (i / BLOCK_SIZE - first))
      && HasEntry(entries, front, ring, first, i / BLOCK_SIZE - first)
  {
    assert HasEntry(entries, front, ring, first, |ring| - 1);
    var j := i / BLOCK_SIZE - first;
    assert HasEntry(entries, front, ring, first, j);
    var back := |ring| - 1 - j;
    OffsetLands(published, exponent, back);
    assert i / BLOCK_SIZE * BLOCK_SIZE - entries[published].base == -(back * BLOCK_SIZE);
    assert Slot(published, |entries|, back) == Slot(front, |entries|, |ring| - j);
  }

  /** Copies the used entries, oldest first, into a fresh array of twice the size. */
  method CopyUsed(entries: seq<Entry>, front: nat, used: nat) returns (newEntries: seq<Entry>, j: nat)
    requires front < |entries| && used <= |entries|
    ensures |newEntries| == |entries| * 2 && j == used
    ensures forall k :: 0 <= k < used ==> newEntries[k] == entries[Slot(front, |entries|, used - k)]
  {
    var size := |entries|;
    newEntries := seq(size * 2, _ => Unused);
    j := 0;
    if used != 0 {
      var i := (front + size - used) % size;
      SlotIsModular(front, size, used);
      while true
        invariant 0 <= j < used && |newEntries| == size * 2
        invariant i == Slot(front, size, used - j)
        invariant forall k :: 0 <= k < j ==> newEntries[k] == entries[Slot(front, size, used - k)]
        decreases used - j
      {
        newEntries := newEntries[j := entries[i]];
        SlotIsModular(i, size, 0);
        i := (i + 1) % size;
        j := j + 1;
        if i == front {
          break;
        }
      }
    }
  }

  // ---------------------------------------------------------------- the producer

  /** The block list and the block index agree. */
  ghost predicate ListOk<T>(blocks: seq<Block<T>>, ring: seq<nat>, tailBlock: Option<nat>, entries: seq<Entry>,
                            exponent: nat, front: nat, slotsUsed: nat, started: nat, head: nat) {
    && Linked(blocks, ring)
    && IsTail(tailBlock, ring)
    && exponent <= RANGE_EXPONENT && |entries| == Pow2(exponent)
    && slotsUsed <= |ring| <= |entries|
    && front < |entries|
    && IndexHas(entries, front, ring, started - |ring|, head / BLOCK_SIZE)
  }

  ghost predicate CountsOk(n: nat, started: nat, head: nat, tail: nat, optimistic: nat, overcommit: nat) {
    && (n == 0 ==> started == 0)
    && n * BLOCK_SIZE <= HALF
    && (started - n) * BLOCK_SIZE <= head <= tail <= started * BLOCK_SIZE
    && optimistic - overcommit == head
  }

  lemma InsertKeepsList<T>(blocks: seq<Block<T>>, ring: seq<nat>, tailBlock: Option<nat>, entries: seq<Entry>,
                           exponent: nat, front: nat, slotsUsed: nat, started: nat, head: nat, elements: seq<T>,
                           flags: seq<bool>)
    requires ListOk(blocks, ring, tailBlock, entries, exponent, front, slotsUsed, started, head)
    requires |ring| < |entries|
    requires |elements| == |flags| == BLOCK_SIZE
    ensures tailBlock.Some? ==> tailBlock.value < |blocks|
    ensures ListOk(Insert(blocks, tailBlock, elements, flags), ring + [|blocks|], Some(|blocks|),
                   entries[front := Entry(started * BLOCK_SIZE, |blocks|)], exponent, NextSlot(front, |entries|),
                   slotsUsed + 1, started + 1, head)
  {
    InsertLinks(blocks, ring, tailBlock, elements, flags);
    IndexExtends(entries, front, ring, started - |ring|, head / BLOCK_SIZE, |blocks|);
  }

  lemma TakeKeepsList<T>(blocks: seq<Block<T>>, ring: seq<nat>, tailBlock: Option<nat>, entries: seq<Entry>,
                         exponent: nat, front: nat, slotsUsed: nat, started: nat, head: nat)
    requires ListOk(blocks, ring, tailBlock, entries, exponent, front, slotsUsed, started, head) && ring != []
    ensures tailBlock.Some? && tailBlock.value < |blocks| && blocks[tailBlock.value].next == ring[0] < |blocks|
    ensures ListOk(blocks, Rotated(ring), Some(ring[0]), entries[front := Entry(started * BLOCK_SIZE, ring[0])],
                   exponent, NextSlot(front, |entries|), slotsUsed, started + 1, head)
  {
    assert Link(blocks, ring, |ring| - 1);
    assert Link(blocks, ring, 0);
    LinkedRotates(blocks, ring);
    IndexRotates(entries, front, ring, started - |ring|, head / BLOCK_SIZE);
  }

  lemma RoomToGrow(exponent: nat, used: nat)
    requires exponent <= RANGE_EXPONENT && used == Pow2(exponent) && used * BLOCK_SIZE <= HALF
    ensures exponent < RANGE_EXPONENT
  {
    RangeInBlocks();
  }

  /** A first block that is not marked empty holds the head or starts above it. */
  lemma FrontBlockInUse<T>(blocks: seq<Block<T>>, ring: seq<nat>, first: int, head: nat, limit: int)
    requires AllFlagged(blocks, ring, first, head, limit)
    requires ring != [] ==> ring[0] < |blocks| && !IsEmpty(blocks[ring[0]])
    ensures ring != [] ==> head < (first + 1) * BLOCK_SIZE
  {
    if ring != [] {
      assert Link(blocks, ring, 0);
      assert first < limit ==> Flagged(blocks, ring, first, head, 0);
    }
  }

  /** A first block in use that is marked empty ends at or below the head. */
  lemma EmptyIsUsedUp<T>(blocks: seq<Block<T>>, ring: seq<nat>, first: int, head: nat, limit: int)
    requires AllFlagged(blocks, ring, first, head, limit) && ring != [] && first < limit
    requires ring[0] < |blocks| && IsEmpty(blocks[ring[0]])
    ensures (first + 1) * BLOCK_SIZE <= head && Link(blocks, ring, 0)
  {
    assert Link(blocks, ring, 0) && Flagged(blocks, ring, first, head, 0);
    assert blocks[ring[0]].emptyFlags[0];
  }

  lemma TailLinksToFront<T>(blocks: seq<Block<T>>, ring: seq<nat>, tailBlock: Option<nat>)
    requires Linked(blocks, ring) && IsTail(tailBlock, ring)
    ensures tailBlock.Some? ==> tailBlock.value < |blocks| && blocks[tailBlock.value].next == ring[0] < |blocks|
  {
    assert ring != [] ==> Link(blocks, ring, |ring| - 1) && Link(blocks, ring, 0);
  }

  /** Writing one element of the block at position j. */
  lemma WriteKeepsBlocks<T>(blocks: seq<Block<T>>, ring: seq<nat>, first: int, head: nat, limit: int, j: nat, o: nat,
                            x: T)
    requires AllFlagged(blocks, ring, first, head, limit) && j < |ring| && o < BLOCK_SIZE
    ensures ring[j] < |blocks| && |blocks[ring[j]].elements| == BLOCK_SIZE
    ensures var blocks' := blocks[ring[j] := blocks[ring[j]].(elements := blocks[ring[j]].elements[o := x])];
      && AllFlagged(blocks', ring, first, head, limit)
      && Memory(blocks', ring) == Memory(blocks, ring)[j := Memory(blocks, ring)[j][o := x]]
  {
    assert Link(blocks, ring, j);
    var blocks' := blocks[ring[j] := blocks[ring[j]].(elements := blocks[ring[j]].elements[o := x])];
    forall k | 0 <= k < |ring| ensures Link(blocks', ring, k) {
      assert Link(blocks, ring, k);
    }
    forall k | 0 <= k < |ring|
      ensures if first + k < limit then Flagged(blocks', ring, first, head, k) else IsEmpty(blocks'[ring[k]])
    {
      assert Link(blocks, ring, k) && Link(blocks', ring, k);
      assert if first + k < limit then Flagged(blocks, ring, first, head, k) else IsEmpty(blocks[ring[k]]);
    }
    forall k | 0 <= k < |ring|
      ensures ElementsOf(blocks', ring, k) == if k == j then ElementsOf(blocks, ring, j)[o := x]
        else ElementsOf(blocks, ring, k)
    {
      assert Link(blocks, ring, k);
    }
  }

  /** Marking the elements from .. to of the block at position j as empty moves the head that the flags reflect. */
  lemma FlagsAdvance<T>(blocks: seq<Block<T>>, ring: seq<nat>, first: int, limit: int, j: nat, from: nat, to: nat,
                        flags: seq<bool>)
    requires AllFlagged(blocks, ring, first, from, limit) && j < |ring| && first + j < limit
    requires (first + j) * BLOCK_SIZE <= from <= to <= (first + j + 1) * BLOCK_SIZE
    requires Link(blocks, ring, j) && |flags| == BLOCK_SIZE
    requires forall f :: 0 <= f < BLOCK_SIZE ==>
      (flags[f] <==> blocks[ring[j]].emptyFlags[f] || from <= (first + j) * BLOCK_SIZE + BLOCK_SIZE - 1 - f < to)
    ensures var blocks' := blocks[ring[j] := blocks[ring[j]].(emptyFlags := flags)];
      AllFlagged(blocks', ring, first, to, limit) && Memory(blocks', ring) == Memory(blocks, ring)
  {
    var blocks' := blocks[ring[j] := blocks[ring[j]].(emptyFlags := flags)];
    forall k | 0 <= k < |ring| ensures Link(blocks', ring, k) {
      assert Link(blocks, ring, k);
    }
    forall k | 0 <= k < |ring|
      ensures if first + k < limit then Flagged(blocks', ring, first, to, k) else IsEmpty(blocks'[ring[k]])
    {
      assert Link(blocks, ring, k) && Link(blocks', ring, k);
      assert if first + k < limit then Flagged(blocks, ring, first, from, k) else IsEmpty(blocks[ring[k]]);
      if k == j {
        assert Flagged(blocks, ring, first, from, j);
      }
    }
    forall k | 0 <= k < |ring| ensures ElementsOf(blocks', ring, k) == ElementsOf(blocks, ring, k) {
      assert Link(blocks, ring, k);
    }
  }

  /** Sets the empty flags of `count` elements of one block from index i on; none of them may be set already. */
  method SetManyEmpty(flags: seq<bool>, i: nat, count: nat) returns (r: seq<bool>)
    requires |flags| == BLOCK_SIZE && i % BLOCK_SIZE + count <= BLOCK_SIZE
    requires forall f :: 0 <= f < BLOCK_SIZE && i % BLOCK_SIZE <= BLOCK_SIZE - 1 - f < i % BLOCK_SIZE + count ==>
      !flags[f]
    ensures |r| == BLOCK_SIZE
    ensures forall f :: 0 <= f < BLOCK_SIZE ==>
      (r[f] <==> flags[f] || i % BLOCK_SIZE <= BLOCK_SIZE - 1 - f < i % BLOCK_SIZE + count)
  {
    var start := BLOCK_SIZE - 1 - i % BLOCK_SIZE - count + 1;
    r := flags;
    var j := 0;
    while j != count
      invariant j <= count && |r| == BLOCK_SIZE
      invariant forall f :: 0 <= f < BLOCK_SIZE ==> r[f] == (flags[f] || start <= f < start + j)
      decreases count - j
    {
      assert !r[start + j];
      r := r[start + j := true];
      j := j + 1;
    }
  }

  lemma MemoryAt<T>(blocks: seq<Block<T>>, ring: seq<nat>, j: nat)
    requires Linked(blocks, ring) && j < |ring|
    ensures Link(blocks, ring, j) && Memory(blocks, ring)[j] == blocks[ring[j]].elements
  {
    assert Link(blocks, ring, j) && Memory(blocks, ring)[j] == ElementsOf(blocks, ring, j);
  }

  lemma FlaggedIsLinked<T>(blocks: seq<Block<T>>, ring: seq<nat>, first: int, head: nat, limit: int)
    requires AllFlagged(blocks, ring, first, head, limit)
    ensures Linked(blocks, ring)
  {
  }

  /** Where the block after that of index i begins. */
  function BlockEnd(i: nat): (e: nat)
    ensures i < e
  {
    i / BLOCK_SIZE * BLOCK_SIZE + BLOCK_SIZE
  }

  /** `slot` is the index slot of the block that holds element i. */
  ghost predicate SlotOf(front: nat, size: nat, used: nat, started: nat, i: nat, slot: nat) {
    && front < size && used <= size && slot < size
    && 0 <= started - i / BLOCK_SIZE <= used
    && slot == Slot(front, size, started - i / BLOCK_SIZE)
  }

  /** Reads the elements lo .. hi of the block at position j. */
  method ReadBlock<T>(elements: seq<T>, lo: nat, hi: nat, ghost memory: seq<seq<T>>, ghost first: int, ghost j: nat,
                      ghost tail: nat)
    returns (items: seq<T>)
    requires Covers(memory, first, lo, tail) && j < |memory| && memory[j] == elements
    requires (first + j) * BLOCK_SIZE <= lo <= hi <= (first + j + 1) * BLOCK_SIZE && hi <= tail
    ensures Covers(memory, first, hi, tail)
    ensures |items| == hi - lo && items + Window(memory, first, hi, tail) == Window(memory, first, lo, tail)
  {
    items := [];
    var index := lo;
    while index != hi
      invariant lo <= index <= hi
      invariant items == Window(memory, first, lo, tail)[..index - lo]
      decreases hi - index
    {
      assert Window(memory, first, lo, tail)[index - lo] == ElementAt(memory, first, index);
      items := items + [elements[index % BLOCK_SIZE]];
      index := index + 1;
    }
    WindowDrops(memory, first, lo, tail, hi - lo);
  }

  /**
   Of the blocks started after the first `limit` ones, `block` is the first; `last` is the one started just before, as
   long as it has not been taken again.
   */
  ghost predicate FirstSince(ring: seq<nat>, started: nat, limit: nat, last: Option<nat>, block: Option<nat>) {
    && started - |ring| <= limit <= started
    && (started - |ring| < limit ==> last == Some(ring[|ring| - (started - limit) - 1]))
    && block == if started == limit then None else Some(ring[|ring| - (started - limit)])
  }

  lemma FirstSinceExtends(ring: seq<nat>, started: nat, limit: nat, last: Option<nat>, first: Option<nat>, block: nat)
    requires FirstSince(ring, started, limit, last, first)
    ensures FirstSince(ring + [block], started + 1, limit, last, if first == None then Some(block) else first)
    ensures started - |ring| <= limit <= started
  {
  }

  lemma FirstSinceBounds(ring: seq<nat>, started: nat, limit: nat, last: Option<nat>, first: Option<nat>)
    requires FirstSince(ring, started, limit, last, first)
    ensures started - |ring| <= limit <= started && (first.Some? <==> limit < started)
  {
  }

  lemma RingDistinct<T>(blocks: seq<Block<T>>, ring: seq<nat>, i: nat, j: nat)
    requires Linked(blocks, ring) && i < |ring| && j < |ring|
    ensures ring[i] == ring[j] <==> i == j
    ensures Link(blocks, ring, i)
  {
  }

  /** Reuse ahead stops at a block in use or at the first block it has taken. */
  lemma FrontInUseOrFirst<T>(blocks: seq<Block<T>>, ring: seq<nat>, started: nat, limit: nat, head: nat,
                             last: Option<nat>, firstSince: Option<nat>)
    requires AllFlagged(blocks, ring, started - |ring|, head, limit) && ring != [] && head <= limit * BLOCK_SIZE
    requires FirstSince(ring, started, limit, last, firstSince)
    requires ring[0] < |blocks| && (Some(ring[0]) == firstSince || !IsEmpty(blocks[ring[0]]))
    ensures head < (started - |ring| + 1) * BLOCK_SIZE
  {
    if Some(ring[0]) == firstSince {
      RingDistinct(blocks, ring, 0, |ring| - (started - limit));
    } else {
      FrontBlockInUse(blocks, ring, started - |ring|, head, limit);
    }
  }

  // ---------------------------------------------------------------- when blocks can be had

  /** An index that has `size` slots at first and doubles whenever all are used: it is full with `used` of them. */
  ghost predicate Doubles(used: nat, size: nat) {
    used >= size && exists e: nat :: used == Pow2(e)
  }

  /**
   Of n new blocks, those before the last `rest` can be had, the first one with `used` slots of the index in use. The
   answers of the allocator depend on how much is still wanted.
   */
  ghost predicate CanInsert(n: nat, rest: nat, used: nat, size: nat, canGrow: nat -> bool, canAlloc: nat -> bool) {
    forall k: nat :: rest < k <= n ==>
      canAlloc(k * BLOCK_SIZE) && (Doubles(used + (n - k), size) ==> canGrow(k * BLOCK_SIZE))
  }

  lemma NothingToInsert(n: nat, used: nat, size: nat, canGrow: nat -> bool, canAlloc: nat -> bool)
    ensures CanInsert(n, n, used, size, canGrow, canAlloc)
  {
  }

  lemma CanInsertNext(n: nat, rest: nat, used: nat, size: nat, canGrow: nat -> bool, canAlloc: nat -> bool)
    requires 0 < rest <= n
    ensures CanInsert(n, rest - 1, used, size, canGrow, canAlloc) <==>
      && CanInsert(n, rest, used, size, canGrow, canAlloc)
      && canAlloc(rest * BLOCK_SIZE) && (Doubles(used + (n - rest), size) ==> canGrow(rest * BLOCK_SIZE))
    ensures CanInsert(n, 0, used, size, canGrow, canAlloc) ==> CanInsert(n, rest - 1, used, size, canGrow, canAlloc)
  {
    hide Doubles;
  }

  lemma {:induction false} Pow2Grows(a: nat, b: nat)
    requires a <= b
    ensures Pow2(a) <= Pow2(b)
  {
    if a < b {
      Pow2Grows(a, b - 1);
    }
  }

  lemma FullIsDoubling(used: nat, size: nat, grown: nat, exponent: nat)
    requires grown == Pow2(exponent) && used <= grown && (grown == size || size <= grown < 2 * used)
    ensures used == grown <==> Doubles(used, size)
  {
    if Doubles(used, size) && grown != size {
      var e: nat :| used == Pow2(e);
      if e < exponent {
        Pow2Grows(e + 1, exponent);
      } else {
        Pow2Grows(exponent, e);
      }
    }
  }

  // ---------------------------------------------------------------- undoing a bulk enqueue

  /** The same circle, listed from position r on. */
  function Turned<X>(s: seq<X>, r: nat): (t: seq<X>)
    requires r <= |s|
    ensures |t| == |s|
    ensures forall j :: 0 <= j < |s| ==> t[j] == s[if j < |s| - r then j + r else j - (|s| - r)]
  {
    s[r..] + s[..r]
  }

  lemma LinkedTurned<T>(blocks: seq<Block<T>>, ring: seq<nat>, r: nat)
    requires Linked(blocks, ring) && r <= |ring|
    ensures Linked(blocks, Turned(ring, r))
  {
    var turned := Turned(ring, r);
    forall j | 0 <= j < |ring| ensures Link(blocks, turned, j) {
      var k := if j < |ring| - r then j + r else j - (|ring| - r);
      assert Link(blocks, ring, k);
      assert turned[After(j, |ring|)] == ring[After(k, |ring|)];
    }
  }

  /** The blocks started since `limit` come to stand ahead of the others again, or no block is in use at all. */
  ghost predicate TurnsBack(ring: seq<nat>, started: nat, limit: nat, head: nat, r: nat) {
    && started - |ring| <= limit <= started && (started - |ring|) * BLOCK_SIZE <= head <= limit * BLOCK_SIZE
    && r <= |ring|
    && (r == |ring| - (started - limit) || head == limit * BLOCK_SIZE)
  }

  lemma EmptyIsFlagged<T>(blocks: seq<Block<T>>, ring: seq<nat>, first: int, head: nat, j: nat)
    requires j < |ring| && Link(blocks, ring, j) && IsEmpty(blocks[ring[j]]) && (first + j + 1) * BLOCK_SIZE <= head
    ensures Flagged(blocks, ring, first, head, j)
  {
  }

  lemma UsedUpIsEmpty<T>(blocks: seq<Block<T>>, ring: seq<nat>, first: int, head: nat, limit: int, j: nat)
    requires AllFlagged(blocks, ring, first, head, limit) && j < |ring|
    requires first + j < limit ==> (first + j + 1) * BLOCK_SIZE <= head
    ensures Link(blocks, ring, j) && IsEmpty(blocks[ring[j]])
  {
    assert Link(blocks, ring, j);
    if first + j < limit {
      assert Flagged(blocks, ring, first, head, j);
    }
  }

  lemma TurnKeepsFlags<T>(blocks: seq<Block<T>>, ring: seq<nat>, started: nat, limit: nat, head: nat, r: nat)
    requires AllFlagged(blocks, ring, started - |ring|, head, limit) && TurnsBack(ring, started, limit, head, r)
    ensures AllFlagged(blocks, Turned(ring, r), limit - |ring|, head, limit)
  {
    var turned, first := Turned(ring, r), limit - |ring|;
    LinkedTurned(blocks, ring, r);
    forall j | 0 <= j < |ring| ensures Link(blocks, turned, j) && Flagged(blocks, turned, first, head, j) {
      assert Link(blocks, turned, j);
      var k := if j < |ring| - r then j + r else j - (|ring| - r);
      var now := started - |ring| + k;
      if r == |ring| - (started - limit) && j >= |ring| - r {
        assert now == first + j;
        assert Link(blocks, ring, k) && Flagged(blocks, ring, started - |ring|, head, k);
      } else {
        UsedUpIsEmpty(blocks, ring, started - |ring|, head, limit, k);
        EmptyIsFlagged(blocks, turned, first, head, j);
      }
    }
  }

  lemma TurnKeepsWindow<T>(blocks: seq<Block<T>>, ring: seq<nat>, started: nat, limit: nat, head: nat, tail: nat,
                           r: nat)
    requires Linked(blocks, ring) && TurnsBack(ring, started, limit, head, r) && head <= tail <= limit * BLOCK_SIZE
    ensures Linked(blocks, Turned(ring, r))
    ensures Covers(Memory(blocks, ring), started - |ring|, head, tail)
    ensures Covers(Memory(blocks, Turned(ring, r)), limit - |ring|, head, tail)
    ensures Window(Memory(blocks, Turned(ring, r)), limit - |ring|, head, tail)
      == Window(Memory(blocks, ring), started - |ring|, head, tail)
  {
    LinkedTurned(blocks, ring, r);
    var turned := Turned(ring, r);
    var m, first, m', first' := Memory(blocks, ring), started - |ring|, Memory(blocks, turned), limit - |ring|;
    forall i | head <= i < tail ensures ElementAt(m', first', i) == ElementAt(m, first, i) {
      var k := i / BLOCK_SIZE - first;
      assert turned[k + (started - limit)] == ring[k];
      assert ElementsOf(blocks, turned, k + (started - limit)) == ElementsOf(blocks, ring, k);
    }
    SameWindow(m', first', m, first, head, tail);
  }

  /** If the front goes back by as many slots as blocks were started, the entries of the blocks in use are in place. */
  lemma TurnKeepsIndex(entries: seq<Entry>, front: nat, ring: seq<nat>, started: nat, limit: nat, head: nat, r: nat)
    requires IndexHas(entries, front, ring, started - |ring|, head / BLOCK_SIZE)
    requires TurnsBack(ring, started, limit, head, r)
    ensures Slot(front, |entries|, started - limit) < |entries|
    ensures IndexHas(entries, Slot(front, |entries|, started - limit), Turned(ring, r), limit - |ring|,
      head / BLOCK_SIZE)
  {
    var turned, first, front' := Turned(ring, r), limit - |ring|, Slot(front, |entries|, started - limit);
    forall j | 0 <= j < |ring| && head / BLOCK_SIZE <= first + j ensures HasEntry(entries, front', turned, first, j) {
      var k := j - (started - limit);
      assert HasEntry(entries, front, ring, started - |ring|, k);
      assert turned[j] == ring[k];
    }
  }

  /**
   After the index has grown, the first block of the list has slot 0. A front that was set for more blocks than there
   are before `limit` is behind the entry of a later block.
   */
  lemma FrontTooFar(entries: seq<Entry>, front: nat, ring: seq<nat>, started: nat, limit: nat, live: nat, fallback: nat)
    requires IndexHas(entries, front, ring, started - |ring|, live) && live < limit <= started
    requires started - |ring| <= limit && Slot(front, |entries|, |ring|) == 0
    requires 0 < fallback <= |ring| && fallback < |entries| && started - |ring| + fallback > limit
    ensures !IndexHas(entries, fallback, Turned(ring, |ring| - (started - limit)), limit - |ring|, live)
  {
    var turned := Turned(ring, |ring| - (started - limit));
    assert HasEntry(entries, front, ring, started - |ring|, fallback - 1);
    assert !HasEntry(entries, fallback, turned, limit - |ring|, |ring| - 1);
  }

  /** Where the front expects the entry of block number n, there is that of number n + m. */
  ghost predicate OffBy(entries: seq<Entry>, front: nat, started: nat, m: nat, n: nat) {
    && 0 <= front - (started - n) < |entries| && entries[front - (started - n)].Entry?
    && entries[front - (started - n)].base == (n + m) * BLOCK_SIZE
  }

  ghost predicate Displaced(entries: seq<Entry>, front: nat, live: nat, started: nat, m: nat) {
    m > 0 && front < |entries| && forall n: nat :: live <= n < started ==> OffBy(entries, front, started, m, n)
  }

  lemma FrontTooFarDisplaces(entries: seq<Entry>, front: nat, ring: seq<nat>, started: nat, limit: nat, live: nat,
                             fallback: nat)
    requires IndexHas(entries, front, ring, started - |ring|, live) && started - |ring| <= live < limit <= started
    requires Slot(front, |entries|, |ring|) == 0
    requires 0 < fallback <= |ring| && fallback < |entries| && started - |ring| + fallback > limit
    ensures Displaced(entries, fallback, live, limit, started - |ring| + fallback - limit)
  {
    var m := started - |ring| + fallback - limit;
    forall n: nat | live <= n < limit ensures OffBy(entries, fallback, limit, m, n) {
      assert HasEntry(entries, front, ring, started - |ring|, fallback - (limit - n));
    }
  }

  /**
   An index of 32 entries whose first block is used up: a bulk enqueue takes that block over, doubles the index, gets no
   block, and puts the front to slot 32, while the entry of the last block in use is in slot 30.
   */
  lemma OneBlockAheadDisplaces(entries: seq<Entry>, ring: seq<nat>)
    requires |ring| == 32 && forall j :: 0 <= j < 32 ==> ring[j] == if j == 31 then 0 else j + 1
    requires |entries| == 64 && forall j :: 0 <= j < 32 ==> entries[j] == Entry((j + 1) * BLOCK_SIZE, ring[j])
    ensures IndexHas(entries, 32, ring, 1, 1) && Displaced(entries, 32, 1, 32, 1)
  {
    forall j | 0 <= j < 32 ensures HasEntry(entries, 32, ring, 1, j) {
    }
    FrontTooFarDisplaces(entries, 32, ring, 33, 32, 1, 32);
  }

  /** Once the next block has its entry, a lookup from it finds every block in use m places too far. */
  lemma DisplacedMisleads(entries: seq<Entry>, exponent: nat, front: nat, live: nat, started: nat, m: nat, block: nat,
                          i: nat)
    requires exponent <= RANGE_EXPONENT && |entries| == Pow2(exponent)
    requires Displaced(entries, front, live, started, m) && live <= i / BLOCK_SIZE < started
    ensures var entries' := entries[front := Entry(started * BLOCK_SIZE, block)];
      var slot := (front + Wrap(i / BLOCK_SIZE * BLOCK_SIZE - entries'[front].base) / BLOCK_SIZE) % |entries|;
      entries'[slot].Entry? && entries'[slot].base == (i / BLOCK_SIZE + m) * BLOCK_SIZE
  {
    hide Wrap, Pow2;
    SizeInRange(exponent);
    var n := i / BLOCK_SIZE;
    var back := started - n;
    assert OffBy(entries, front, started, m, n);
    assert n * BLOCK_SIZE - started * BLOCK_SIZE == -(back * BLOCK_SIZE);
    OffsetLands(front, exponent, back);
  }

  /** The block list and the index after a bulk enqueue was undone. */
  lemma TurnedListOk<T>(blocks: seq<Block<T>>, ring: seq<nat>, tailBlock: Option<nat>, entries: seq<Entry>,
                        exponent: nat, front: nat, used: nat, started: nat, limit: nat, head: nat, r: nat,
                          newTail: Option<nat>, fallback: nat, slotsUsed: nat, grown: bool)
    requires ListOk(blocks, ring, tailBlock, entries, exponent, front, used, started, head)
    requires TurnsBack(ring, started, limit, head, r) && IsTail(newTail, Turned(ring, r))
    requires slotsUsed <= |ring| && fallback < |entries|
    requires !grown ==> fallback == Slot(front, |entries|, started - limit)
    requires grown ==> fallback == slotsUsed && limit <= started - |ring| + slotsUsed
    requires grown ==> Slot(front, |entries|, |ring|) == 0
    ensures ListOk(blocks, Turned(ring, r), newTail, entries, exponent, fallback, slotsUsed, limit, head)
      <==> !grown || started - |ring| + slotsUsed == limit || head == limit * BLOCK_SIZE
    ensures grown && started - |ring| + slotsUsed != limit && head != limit * BLOCK_SIZE ==>
      Displaced(entries, fallback, head / BLOCK_SIZE, limit, started - |ring| + slotsUsed - limit)
  {
    LinkedTurned(blocks, ring, r);
    TurnKeepsIndex(entries, front, ring, started, limit, head, r);
    hide Linked, Turned;
    if head == limit * BLOCK_SIZE {
      assert IndexHas(entries, fallback, Turned(ring, r), limit - |ring|, head / BLOCK_SIZE);
    } else if grown && started - |ring| + slotsUsed != limit {
      FrontTooFar(entries, front, ring, started, limit, head / BLOCK_SIZE, fallback);
      FrontTooFarDisplaces(entries, front, ring, started, limit, head / BLOCK_SIZE, fallback);
    }
  }

  lemma SlotBeforeFront(used: nat, size: nat)
    requires used < size
    ensures 0 < used && used * BLOCK_SIZE <= HALF ==> Wrap(used - 1) == Slot(used, size, 1)
  {
  }

  /** A block that is in the list, if there is one. */
  ghost predicate Listed(ring: seq<nat>, b: Option<nat>) {
    b.Some? ==> exists j :: 0 <= j < |ring| && ring[j] == b.value
  }

  lemma RotatedLists(ring: seq<nat>, b: Option<nat>)
    requires ring != [] && Listed(ring, b)
    ensures Listed(Rotated(ring), b)
  {
    if b.Some? {
      var j :| 0 <= j < |ring| && ring[j] == b.value;
      assert Rotated(ring)[if j == 0 then |ring| - 1 else j - 1] == b.value;
    }
  }

  lemma ExtendedLists(ring: seq<nat>, b: Option<nat>, block: nat)
    requires Listed(ring, b)
    ensures Listed(ring + [block], b)
  {
    if b.Some? {
      var j :| 0 <= j < |ring| && ring[j] == b.value;
      assert (ring + [block])[j] == b.value;
    }
  }

  lemma TailIsListed(ring: seq<nat>, tailBlock: Option<nat>)
    requires IsTail(tailBlock, ring)
    ensures Listed(ring, tailBlock)
  {
  }

  /** Where the list begins once `last` is the tail block again, or the first new block if there was none before. */
  lemma TurnToTail(ring: seq<nat>, started: nat, limit: nat, head: nat, last: Option<nat>, firstAllocated: Option<nat>)
    returns (r: nat)
    requires FirstSince(ring, started, limit, last, firstAllocated) && Listed(ring, last)
    requires (started - |ring|) * BLOCK_SIZE <= head <= limit * BLOCK_SIZE
    ensures TurnsBack(ring, started, limit, head, r)
    ensures IsTail(if last == None then firstAllocated else last, Turned(ring, r))
  {
    var d := started - limit;
    if ring == [] {
      r := 0;
    } else if d < |ring| {
      r := |ring| - d;
    } else if last == None {
      r := 1;
    } else {
      var j :| 0 <= j < |ring| && ring[j] == last.value;
      r := j + 1;
    }
  }

  class Producer<T(0)> {
    var tailIndex: nat
    var headIndex: nat
    var dequeueOptimisticCount: nat
    var dequeueOvercommit: nat
    var blocks: seq<Block<T>>
    var tailBlock: Option<nat>
    var indexEntries: seq<Entry>
    var indexFront: nat
    var indexSlotsUsed: nat
    /** The slot consumers start from: that of the newest block. */
    var publishedFront: nat

    /** The blocks in list order, the tail block last; how many times a block was started; the size of the index. */
    ghost var ring: seq<nat>
    ghost var started: nat
    ghost var exponent: nat

    /** Everything that holds between starting a block and filling it. */
    ghost predicate Core()
      reads this
    {
      && ListOk(blocks, ring, tailBlock, indexEntries, exponent, indexFront, indexSlotsUsed, started, headIndex)
      && CountsOk(|ring|, started, headIndex, tailIndex, dequeueOptimisticCount, dequeueOvercommit)
    }

    ghost predicate Valid()
      reads this
    {
      && Core()
      && AllFlagged(blocks, ring, started - |ring|, headIndex, started)
      && started * BLOCK_SIZE < tailIndex + BLOCK_SIZE
      && Published()
    }

    /** Consumers look elements up from the newest entry of the index. */
    ghost predicate Published()
      reads this
    {
      started > 0 ==> indexFront < |indexEntries| && publishedFront == Slot(indexFront, |indexEntries|, 1)
    }

    /** The blocks and counters, without the index. */
    ghost predicate Stored()
      reads this
    {
      Linked(blocks, ring) && CountsOk(|ring|, started, headIndex, tailIndex, dequeueOptimisticCount, dequeueOvercommit)
    }

    /** The block after the tail block is ready for reuse. */
    predicate NextIsEmpty()
      reads this
    {
      && tailBlock.Some? && tailBlock.value < |blocks| && blocks[tailBlock.value].next < |blocks|
      && IsEmpty(blocks[blocks[tailBlock.value].next])
    }

    /** Valid, but for the index. */
    ghost predicate Intact()
      reads this
    {
      && Stored() && IsTail(tailBlock, ring)
      && AllFlagged(blocks, ring, started - |ring|, headIndex, started)
      && started * BLOCK_SIZE < tailIndex + BLOCK_SIZE
      && Published()
    }

    lemma IntactIsValid()
      requires Intact()
      ensures Valid() <==>
        ListOk(blocks, ring, tailBlock, indexEntries, exponent, indexFront, indexSlotsUsed, started, headIndex)
    {
    }

    ghost predicate IsDisplaced()
      reads this
    {
      && exponent <= RANGE_EXPONENT && |indexEntries| == Pow2(exponent)
      && exists m: nat :: Displaced(indexEntries, indexFront, headIndex / BLOCK_SIZE, started, m)
    }

    lemma DisplacedBy(m: nat)
      requires exponent <= RANGE_EXPONENT && |indexEntries| == Pow2(exponent)
      requires Displaced(indexEntries, indexFront, headIndex / BLOCK_SIZE, started, m)
      ensures IsDisplaced()
    {
    }

    /** How far the count of used index slots is behind the list of blocks; nonzero only after a failed bulk enqueue. */
    ghost function Lag(): int
      reads this
    {
      |ring| - indexSlotsUsed
    }

    /** With n more elements, the blocks from the head's on have room in the index, or the index will grow. */
    ghost predicate Fits(n: nat)
      reads this
    {
      Lag() == 0 || (tailIndex + n + BLOCK_SIZE - 1) / BLOCK_SIZE - headIndex / BLOCK_SIZE <= |indexEntries|
    }

    /** How many blocks, from the oldest on, hold only elements that have been taken. */
    ghost function UsedUp(): int
      reads this
    {
      headIndex / BLOCK_SIZE - (started - |ring|)
    }

    /** A block can be started for the next element: an old one, or a new one that cannot let the tail lap the head. */
    ghost predicate CanStart(canGrow: bool, canAlloc: bool)
      reads this
    {
      || UsedUp() > 0
      || (tailIndex + BLOCK_SIZE - headIndex < HALF && (indexSlotsUsed < |indexEntries| || canGrow) && canAlloc)
    }

    /** n new blocks can be inserted behind `blocks` started ones, when the index has `used` of `size` slots in use. */
    ghost predicate CanGet(n: nat, blocks: nat, used: nat, size: nat, canGrow: nat -> bool, canAlloc: nat -> bool)
      reads this`headIndex
    {
      || n == 0
      || ((blocks + n) * BLOCK_SIZE - headIndex < HALF && CanInsert(n, 0, used, size, canGrow, canAlloc))
    }

    /** How many of n more blocks have to be new because too few old ones are used up. */
    ghost function Missing(n: int): nat
      reads this
    {
      if n > UsedUp() then n - UsedUp() else 0
    }

    /** n more blocks can be had: used up ones first, then new ones. */
    ghost predicate CanObtain(n: nat, canGrow: nat -> bool, canAlloc: nat -> bool)
      requires started + n >= Missing(n)
      reads this
    {
      CanGet(Missing(n), started + n - Missing(n), indexSlotsUsed, |indexEntries|, canGrow, canAlloc)
    }

    /** How many blocks must be started for n more elements. */
    ghost function BlocksFor(n: nat): int
      reads this
    {
      (tailIndex + n + BLOCK_SIZE - 1) / BLOCK_SIZE - started
    }

    /** The queue as a sequence. */
    ghost function Contents(): (c: seq<T>)
      requires Stored()
      reads this
      ensures |c| == tailIndex - headIndex
    {
      Window(Memory(blocks, ring), started - |ring|, headIndex, tailIndex)
    }

    constructor ()
      ensures Valid() && Contents() == [] && Lag() == 0
    {
      tailIndex, headIndex, dequeueOptimisticCount, dequeueOvercommit := 0, 0, 0, 0;
      blocks, tailBlock, ring, started := [], None, [], 0;
      indexEntries := seq(32, _ => Unused);
      exponent := INITIAL_INDEX_EXPONENT;
      indexFront, indexSlotsUsed, publishedFront := 0, 0, WORD - 1;
    }

    /** Doubles the block index, keeping the used slots. */
    method GrowIndex(filledSlotsToExpose: nat)
      requires Core() && exponent < RANGE_EXPONENT && indexSlotsUsed == |ring|
      modifies this`indexEntries, this`indexFront, this`publishedFront, this`exponent
      ensures Core() && Contents() == old(Contents())
      ensures exponent == old(exponent) + 1 && indexFront == |ring| && publishedFront == Wrap(filledSlotsToExpose - 1)
    {
      var newEntries, j := CopyUsed(indexEntries, indexFront, indexSlotsUsed);
      ghost var first := started - |ring|;
      forall k | 0 <= k < |ring| && headIndex / BLOCK_SIZE <= first + k
          ensures HasEntry(newEntries, j, ring, first, k) {
        assert HasEntry(indexEntries, indexFront, ring, first, k);
      }
      exponent := exponent + 1;
      indexEntries := newEntries;
      indexFront := j;
      publishedFront := Wrap(filledSlotsToExpose - 1);
    }

    /** The next slot of the index gets the block that starts at base. */
    method PushEntry(base: nat, block: nat)
      requires indexFront < |indexEntries|
      modifies this`indexEntries, this`indexFront
      ensures indexEntries == old(indexEntries)[old(indexFront) := Entry(base, block)]
      ensures indexFront == NextSlot(old(indexFront), |indexEntries|)
    {
      SlotIsModular(indexFront, |indexEntries|, 0);
      indexEntries := indexEntries[indexFront := Entry(base, block)];
      indexFront := (indexFront + 1) % |indexEntries|;
    }

    /** The empty block after the tail block becomes the tail block and serves the indices from `base` on. */
    method TakeNextBlock(base: nat, ghost limit: int)
      requires Core() && AllFlagged(blocks, ring, started - |ring|, headIndex, limit)
      requires base == started * BLOCK_SIZE && ring != [] && started - |ring| < limit <= started
      requires ring[0] < |blocks| && IsEmpty(blocks[ring[0]])
      modifies this`tailBlock, this`indexEntries, this`indexFront, this`ring, this`started
      ensures Core() && AllFlagged(blocks, ring, started - |ring|, headIndex, limit)
      ensures ring == Rotated(old(ring)) && started == old(started) + 1
      ensures Contents() == old(Contents())
      ensures indexFront == NextSlot(old(indexFront), |indexEntries|) && |indexEntries| == |old(indexEntries)|
    {
      hide AllFlagged, IndexHas, Linked, Memory, Window, IsEmpty, IsTail;
      ghost var first, memory := started - |ring|, Memory(blocks, ring);
      TakeKeepsList(blocks, ring, tailBlock, indexEntries, exponent, indexFront, indexSlotsUsed, started, headIndex);
      EmptyIsUsedUp(blocks, ring, first, headIndex, limit);
      RotateKeepsFlags(blocks, ring, first, headIndex, limit);
      RotationKeepsWindow(blocks, ring, first, headIndex, tailIndex);
      tailBlock := Some(blocks[tailBlock.value].next);
      PushEntry(base, tailBlock.value);
      ring, started := Rotated(ring), started + 1;
    }

    /** A block from the allocator is inserted behind the tail block and becomes the tail block. */
    method InsertBlock(base: nat, memory: seq<T>, flag: bool)
      requires Core() && base == started * BLOCK_SIZE
      requires |memory| == BLOCK_SIZE && |ring| < |indexEntries| && (|ring| + 1) * BLOCK_SIZE <= HALF
      modifies this`blocks, this`tailBlock, this`indexEntries, this`indexFront, this`indexSlotsUsed, this`ring,
        this`started
      ensures Core() && Contents() == old(Contents())
      ensures old(tailBlock.Some? ==> tailBlock.value < |blocks|)
      ensures blocks == Insert(old(blocks), old(tailBlock), memory, Flags(flag))
      ensures ring == old(ring) + [|old(blocks)|] && started == old(started) + 1 && Lag() == old(Lag())
      ensures indexFront == NextSlot(old(indexFront), |indexEntries|) && |indexEntries| == |old(indexEntries)|
    {
      hide IndexHas, Linked, IsTail, Insert, Memory, Window, Flags;
      ghost var first, elements := started - |ring|, Memory(blocks, ring);
      InsertKeepsList(blocks, ring, tailBlock, indexEntries, exponent, indexFront, indexSlotsUsed, started, headIndex,
                      memory, Flags(flag));
      InsertKeepsMemory(blocks, ring, tailBlock, memory, Flags(flag));
      WindowExtends(elements, memory, first, headIndex, tailIndex);
      var number := |blocks|;
      blocks, tailBlock := Insert(blocks, tailBlock, memory, Flags(flag)), Some(number);
      indexSlotsUsed := indexSlotsUsed + 1;
      PushEntry(base, number);
      ring, started := ring + [number], started + 1;
    }

    /** The comparison that keeps the tail from lapping the head. */
    predicate WouldLap(base: nat)
      reads this
    {
      !CircularLess(Wrap(headIndex), Wrap(base + BLOCK_SIZE))
    }

    lemma LapTest(base: nat)
      requires headIndex < base + BLOCK_SIZE && base + BLOCK_SIZE - headIndex < WORD
      ensures WouldLap(base) <==> base + BLOCK_SIZE - headIndex >= HALF
    {
      CircularLessIsLess(headIndex, base + BLOCK_SIZE);
    }

    /** The tail block is about to be filled: none of its elements is empty any more. */
    method ResetTailBlock()
      requires Core() && ring != []
      requires AllFlagged(blocks, ring, started - |ring|, headIndex, started - 1)
      requires headIndex <= (started - 1) * BLOCK_SIZE
      modifies this`blocks
      ensures Core() && AllFlagged(blocks, ring, started - |ring|, headIndex, started)
      ensures Contents() == old(Contents())
    {
      assert Link(blocks, ring, |ring| - 1);
      ghost var first := started - |ring|;
      ResetKeepsFlags(blocks, ring, first, headIndex, |ring| - 1);
      blocks := blocks[tailBlock.value := blocks[tailBlock.value].(emptyFlags := Flags(false))];
    }

    /** Makes sure the index has a slot for one more block. */
    method MakeSlot(canGrow: bool) returns (ok: bool)
      requires Core() && Published() && (Lag() == 0 || |ring| < |indexEntries|)
      modifies this`indexEntries, this`indexFront, this`publishedFront, this`exponent
      ensures Core() && Published() && Contents() == old(Contents())
      ensures ok ==> |ring| < |indexEntries|
      ensures ok <==> indexSlotsUsed < |old(indexEntries)| || canGrow
    {
      if indexSlotsUsed == |indexEntries| {
        if !canGrow {
          return false;
        }
        RoomToGrow(exponent, indexSlotsUsed);
        GrowIndex(indexSlotsUsed);
        assert Slot(indexFront, |indexEntries|, 1) == indexFront - 1;
      }
      return true;
    }

    /** Inserts a block that is about to be filled. */
    method InsertInUse(memory: seq<T>)
      requires Core() && AllFlagged(blocks, ring, started - |ring|, headIndex, started)
      requires tailIndex == started * BLOCK_SIZE
      requires |memory| == BLOCK_SIZE && |ring| < |indexEntries| && (|ring| + 1) * BLOCK_SIZE <= HALF
      modifies this`blocks, this`tailBlock, this`indexEntries, this`indexFront, this`indexSlotsUsed, this`ring,
        this`started
      ensures Core() && Contents() == old(Contents()) && Lag() == old(Lag())
      ensures started == old(started) + 1 && |ring| == old(|ring|) + 1
      ensures AllFlagged(blocks, ring, started - |ring|, headIndex, started)
    {
      hide IndexHas, Linked, AllFlagged, Window, Memory;
      InsertKeepsFlags(blocks, ring, tailBlock, memory, false, started - |ring|, headIndex, started);
      InsertBlock(tailIndex, memory, false);
    }

    /** Inserts a block that is marked empty for now. */
    method InsertUnused(base: nat, memory: seq<T>, ghost limit: nat)
      requires Core() && AllFlagged(blocks, ring, started - |ring|, headIndex, limit)
      requires base == started * BLOCK_SIZE && limit <= started
      requires |memory| == BLOCK_SIZE && |ring| < |indexEntries| && (|ring| + 1) * BLOCK_SIZE <= HALF
      modifies this`blocks, this`tailBlock, this`indexEntries, this`indexFront, this`indexSlotsUsed, this`ring,
        this`started
      ensures Core() && Contents() == old(Contents()) && started == old(started) + 1
      ensures AllFlagged(blocks, ring, started - |ring|, headIndex, limit)
      ensures ring == old(ring) + [|old(blocks)|] && tailBlock == Some(|old(blocks)|) && Lag() == old(Lag())
      ensures indexFront == NextSlot(old(indexFront), |indexEntries|) && |indexEntries| == |old(indexEntries)|
    {
      hide IndexHas, Linked, AllFlagged, Window, Memory;
      InsertKeepsFlags(blocks, ring, tailBlock, memory, true, started - |ring|, headIndex, limit);
      InsertBlock(base, memory, true);
    }

    /** A new block at a block boundary, unless it could let the tail lap the head or something cannot be allocated. */
    method StartNewBlock(memory: seq<T>, canGrow: bool, canAlloc: bool) returns (ok: bool)
      requires Core() && Published() && AllFlagged(blocks, ring, started - |ring|, headIndex, started)
      requires tailIndex == started * BLOCK_SIZE && |memory| == BLOCK_SIZE
      requires ring != [] ==> headIndex < (started - |ring| + 1) * BLOCK_SIZE
      requires Lag() == 0 || |ring| < |indexEntries|
      modifies this`blocks, this`tailBlock, this`indexEntries, this`indexFront, this`indexSlotsUsed,
        this`publishedFront, this`ring, this`started, this`exponent
      ensures Core() && AllFlagged(blocks, ring, started - |ring|, headIndex, started)
      ensures !ok ==> Published()
      ensures Contents() == old(Contents()) && Lag() == old(Lag())
      ensures started - |ring| == old(started - |ring|) && started == if ok then old(started) + 1 else old(started)
      ensures ok <==>
        && tailIndex + BLOCK_SIZE - headIndex < HALF
        && old(indexSlotsUsed < |indexEntries| || canGrow) && canAlloc
    {
      hide IndexHas, Linked, AllFlagged, Window, Memory, IsTail, Pow2, WouldLap, Slot;
      LapTest(tailIndex);
      if WouldLap(tailIndex) {
        return false;
      }
      ok := MakeSlot(canGrow);
      if !ok || !canAlloc {
        return false;
      }
      InsertInUse(memory);
    }

    /** Consumers get to see the newest entry of the index. */
    method Publish()
      requires indexFront < |indexEntries|
      modifies this`publishedFront
      ensures Published()
    {
      SlotIsModular(indexFront, |indexEntries|, 1);
      publishedFront := (indexFront + |indexEntries| - 1) % |indexEntries|;
    }

    /** Makes room at a block boundary: the next block if it is empty, a new one otherwise. */
    method StartBlock(memory: seq<T>, canGrow: bool, canAlloc: bool) returns (ok: bool)
      requires Valid() && tailIndex == started * BLOCK_SIZE && |memory| == BLOCK_SIZE && Fits(1)
      modifies this`blocks, this`tailBlock, this`indexEntries, this`indexFront, this`indexSlotsUsed,
        this`publishedFront, this`ring, this`started, this`exponent
      ensures Core() && Published() && AllFlagged(blocks, ring, started - |ring|, headIndex, started)
      ensures Contents() == old(Contents()) && Lag() == old(Lag())
      ensures started == if ok then old(started) + 1 else old(started)
      ensures ok <==> old(CanStart(canGrow, canAlloc))
      ensures |ring| == if ok && old(UsedUp()) <= 0 then old(|ring|) + 1 else old(|ring|)
    {
      hide AllFlagged, Window, Memory, IndexHas, Linked, Pow2;
      TailLinksToFront(blocks, ring, tailBlock);
      if tailBlock.Some? && IsEmpty(blocks[blocks[tailBlock.value].next]) {
        TakeNextBlock(tailIndex, started);
        ResetTailBlock();
        Publish();
        ok := true;
      } else {
        FrontBlockInUse(blocks, ring, started - |ring|, headIndex, started);
        ok := StartNewBlock(memory, canGrow, canAlloc);
        if ok {
          Publish();
        }
      }
    }

    /**
     A new block that does not fit overwrites the entry of the head's block, as the index does not grow for it: a lookup
     of the oldest element then finds the new block.
     */
    lemma UnfitLosesHead(block: nat)
      requires Valid() && tailIndex == started * BLOCK_SIZE && !Fits(1)
      ensures !NextIsEmpty() && indexSlotsUsed < |indexEntries| && headIndex < tailIndex && indexFront < |indexEntries|
      ensures var entry := Entry(started * BLOCK_SIZE, block);
        var slot := (indexFront + Wrap(headIndex / BLOCK_SIZE * BLOCK_SIZE - entry.base) / BLOCK_SIZE) % |indexEntries|;
        indexEntries[indexFront := entry][slot] == entry
    {
      hide AllFlagged, IndexHas, Linked, Wrap, Pow2, IsTail;
      TailLinksToFront(blocks, ring, tailBlock);
      if NextIsEmpty() {
        EmptyIsUsedUp(blocks, ring, started - |ring|, headIndex, started);
        assert false;
      }
      var n := headIndex / BLOCK_SIZE;
      assert started - n == |ring| == |indexEntries|;
      assert n * BLOCK_SIZE - started * BLOCK_SIZE == -(|ring| * BLOCK_SIZE);
      OffsetLands(indexFront, exponent, |ring|);
    }

    /** Stores an element in the tail block, which has room for it. */
    method Append(x: T)
      requires Core() && Published() && AllFlagged(blocks, ring, started - |ring|, headIndex, started)
      requires (started - 1) * BLOCK_SIZE <= tailIndex < started * BLOCK_SIZE
      modifies this`blocks, this`tailIndex
      ensures Valid() && Contents() == old(Contents()) + [x]
    {
      hide AllFlagged, Window, Memory, IndexHas, Linked;
      var b, o := tailBlock.value, tailIndex % BLOCK_SIZE;
      ghost var first, before := started - |ring|, Memory(blocks, ring);
      assert tailIndex / BLOCK_SIZE - first == |ring| - 1;
      WriteKeepsBlocks(blocks, ring, first, headIndex, started, |ring| - 1, o, x);
      blocks := blocks[b := blocks[b].(elements := blocks[b].elements[o := x])];
      WindowAppends(before, Memory(blocks, ring), first, headIndex, tailIndex, x);
      tailIndex := tailIndex + 1;
    }

    /**
     Puts an element at the end of the queue. It fails only at a block boundary where no block can be started, and takes
     a new block only where no old one is used up.
     */
    method Enqueue(x: T, memory: seq<T>, canGrow: bool, canAlloc: bool) returns (ok: bool)
      requires Valid() && |memory| == BLOCK_SIZE && Fits(1)
      modifies this
      ensures Valid() && Lag() == old(Lag())
      ensures Contents() == if ok then old(Contents()) + [x] else old(Contents())
      ensures ok <==> old(tailIndex % BLOCK_SIZE != 0 || CanStart(canGrow, canAlloc))
      ensures |ring| == old(|ring|) + if ok && old(tailIndex % BLOCK_SIZE == 0 && UsedUp() <= 0) then 1 else 0
      ensures canGrow && canAlloc && old(|Contents()|) + BLOCK_SIZE < HALF ==> ok
    {
      hide AllFlagged, Window, Memory, IndexHas, Linked;
      ok := true;
      if tailIndex % BLOCK_SIZE == 0 {
        ok := StartBlock(memory, canGrow, canAlloc);
      }
      if ok {
        Append(x);
      }
    }

    /** The slot of the block index that holds the block of element i. */
    method FindSlot(i: nat, ghost from: nat) returns (slot: nat)
      requires ListOk(blocks, ring, tailBlock, indexEntries, exponent, indexFront, indexSlotsUsed, started, from)
      requires Published() && |ring| * BLOCK_SIZE <= HALF && from <= i
        && (started - |ring|) * BLOCK_SIZE <= i < started * BLOCK_SIZE
      ensures SlotOf(indexFront, |indexEntries|, |ring|, started, i, slot)
      ensures indexEntries[slot] == Entry(i / BLOCK_SIZE * BLOCK_SIZE, ring[i / BLOCK_SIZE - (started - |ring|)])
    {
      hide Linked;
      IndexFinds(indexEntries, exponent, indexFront, publishedFront, ring, started - |ring|, from / BLOCK_SIZE, i);
      var headBase := indexEntries[publishedFront].base;
      var blockBaseIndex := i / BLOCK_SIZE * BLOCK_SIZE;
      var offset := Wrap(blockBaseIndex - headBase) / BLOCK_SIZE;
      slot := (publishedFront + offset) % |indexEntries|;
    }

    /** Marks elements i .. i + count of block b, the one at ring position j, as empty. */
    method MarkEmpty(b: nat, i: nat, count: nat, ghost j: nat)
      requires AllFlagged(blocks, ring, started - |ring|, i, started)
      requires j < |ring| && ring[j] == b
      requires (started - |ring| + j) * BLOCK_SIZE <= i && i + count <= (started - |ring| + j + 1) * BLOCK_SIZE
      requires i % BLOCK_SIZE + count <= BLOCK_SIZE
      modifies this`blocks
      ensures AllFlagged(blocks, ring, started - |ring|, i + count, started)
      ensures Memory(blocks, ring) == old(Memory(blocks, ring))
    {
      ghost var first := started - |ring|;
      assert Link(blocks, ring, j) && Flagged(blocks, ring, first, i, j);
      var flags := SetManyEmpty(blocks[b].emptyFlags, i, count);
      FlagsAdvance(blocks, ring, first, started, j, i, i + count, flags);
      blocks := blocks[b := blocks[b].(emptyFlags := flags)];
    }

    /** Claims the oldest element, reads it and marks it empty. */
    method Pop() returns (x: T)
      requires ListOk(blocks, ring, tailBlock, indexEntries, exponent, indexFront, indexSlotsUsed, started, headIndex)
      requires dequeueOptimisticCount > 0
      requires CountsOk(|ring|, started, headIndex, tailIndex, dequeueOptimisticCount - 1, dequeueOvercommit)
      requires Published() && AllFlagged(blocks, ring, started - |ring|, headIndex, started)
      requires started * BLOCK_SIZE < tailIndex + BLOCK_SIZE && headIndex < tailIndex
      modifies this`headIndex, this`blocks
      ensures Valid()
      ensures [x] + Contents() == old(Window(Memory(blocks, ring), started - |ring|, headIndex, tailIndex))
    {
      hide AllFlagged, Window, Memory, IndexHas, Linked;
      ghost var first, before := started - |ring|, Memory(blocks, ring);
      var index := headIndex;
      headIndex := headIndex + 1;
      var slot := FindSlot(index, index);
      IndexStays(indexEntries, indexFront, ring, first, index / BLOCK_SIZE, headIndex / BLOCK_SIZE);
      var b := indexEntries[slot].block;
      ghost var j := index / BLOCK_SIZE - first;
      MemoryAt(blocks, ring, j);
      x := blocks[b].elements[index % BLOCK_SIZE];
      WindowPops(before, first, index, tailIndex, j);
      MarkEmpty(b, index, 1, j);
      FlaggedIsLinked(blocks, ring, first, headIndex, started);
    }

    /** Takes the oldest element. The test on wrapped counters misses a queue of exactly half the index range. */
    method Dequeue() returns (r: Option<T>)
      requires Valid()
      modifies this`dequeueOptimisticCount, this`headIndex, this`blocks
      ensures Valid()
      ensures r.Some? <==> 0 < old(|Contents()|) < HALF
      ensures r.Some? ==> r.value == old(Contents())[0] && Contents() == old(Contents())[1..]
      ensures r.None? ==> Contents() == old(Contents())
    {
      hide AllFlagged, Window, Memory, IndexHas, Linked;
      var tail, overcommit := tailIndex, dequeueOvercommit;
      CircularLessIsLess(headIndex, tail);
      if !CircularLess(Wrap(dequeueOptimisticCount - overcommit), Wrap(tail)) {
        return None;
      }
      var myDequeueCount := dequeueOptimisticCount;
      dequeueOptimisticCount := dequeueOptimisticCount + 1;
      tail := tailIndex;
      if CircularLess(Wrap(myDequeueCount - overcommit), Wrap(tail)) {
        var x := Pop();
        r := Some(x);
      } else {
        // Only another thread could have taken the last element meanwhile.
        assert false;
      }
    }

    /** Takes the claimed elements index .. endIndex, which lie in the block that the index has at `slot`. */
    method PopBlock(slot: nat, index: nat, endIndex: nat, ghost from: nat) returns (items: seq<T>, nextSlot: nat)
      requires ListOk(blocks, ring, tailBlock, indexEntries, exponent, indexFront, indexSlotsUsed, started, from)
      requires from <= index && AllFlagged(blocks, ring, started - |ring|, index, started)
      requires (started - |ring|) * BLOCK_SIZE <= index <= endIndex <= tailIndex <= started * BLOCK_SIZE
      requires index < tailIndex && endIndex <= BlockEnd(index)
      requires SlotOf(indexFront, |indexEntries|, |ring|, started, index, slot)
      modifies this`blocks
      ensures AllFlagged(blocks, ring, started - |ring|, endIndex, started) && Linked(blocks, ring)
      ensures Memory(blocks, ring) == old(Memory(blocks, ring)) && |items| == endIndex - index
      ensures items + Window(Memory(blocks, ring), started - |ring|, endIndex, tailIndex)
        == old(Window(Memory(blocks, ring), started - |ring|, index, tailIndex))
      ensures endIndex == BlockEnd(index) ==> SlotOf(indexFront, |indexEntries|, |ring|, started, endIndex, nextSlot)
    {
      hide Linked, AllFlagged, Window, Memory;
      ghost var first, memory := started - |ring|, Memory(blocks, ring);
      ghost var j := index / BLOCK_SIZE - first;
      assert HasEntry(indexEntries, indexFront, ring, first, j);
      var b := indexEntries[slot].block;
      MemoryAt(blocks, ring, j);
      items := ReadBlock(blocks[b].elements, index, endIndex, memory, first, j, tailIndex);
      MarkEmpty(b, index, endIndex - index, j);
      FlaggedIsLinked(blocks, ring, first, endIndex, started);
      SlotAdvances(indexFront, |indexEntries|, |ring| - j);
      nextSlot := (slot + 1) % |indexEntries|;
    }

    /** Takes `count` claimed elements from firstIndex on, one block at a time along the block index. */
    method PopMany(firstIndex: nat, count: nat) returns (items: seq<T>)
      requires ListOk(blocks, ring, tailBlock, indexEntries, exponent, indexFront, indexSlotsUsed, started, firstIndex)
      requires Published() && AllFlagged(blocks, ring, started - |ring|, firstIndex, started)
      requires (started - |ring|) * BLOCK_SIZE <= firstIndex < tailIndex <= started * BLOCK_SIZE
      requires |ring| * BLOCK_SIZE <= HALF && firstIndex + count <= tailIndex
      modifies this`blocks
      ensures AllFlagged(blocks, ring, started - |ring|, firstIndex + count, started)
      ensures Memory(blocks, ring) == old(Memory(blocks, ring)) && |items| == count
      ensures items + Window(Memory(blocks, ring), started - |ring|, firstIndex + count, tailIndex)
        == old(Window(Memory(blocks, ring), started - |ring|, firstIndex, tailIndex))
    {
      hide Linked, AllFlagged, Window, Memory, IndexHas;
      ghost var first, memory := started - |ring|, Memory(blocks, ring);
      ghost var window := Window(memory, first, firstIndex, tailIndex);
      var slot := FindSlot(firstIndex, firstIndex);
      var index := firstIndex;
      items := [];
      EmptyPrefix(window);
      while true
        invariant firstIndex <= index <= firstIndex + count && index < tailIndex
        invariant SlotOf(indexFront, |indexEntries|, |ring|, started, index, slot)
        invariant AllFlagged(blocks, ring, first, index, started) && Linked(blocks, ring)
          && Memory(blocks, ring) == memory
        invariant items + Window(memory, first, index, tailIndex) == window
        decreases firstIndex + count - index
      {
        var endIndex := BlockEnd(index);
        CircularLessIsLess(firstIndex + count, endIndex);
        if CircularLess(Wrap(firstIndex + count), Wrap(endIndex)) {
          endIndex := firstIndex + count;
        }
        var part, nextSlot := PopBlock(slot, index, endIndex, firstIndex);
        items := items + part;
        slot, index := nextSlot, endIndex;
        if index == firstIndex + count {
          break;
        }
      }
    }

    /** Claims up to `max` elements: the counters move, and the head with them. */
    method Claim(max: nat) returns (claimed: bool, firstIndex: nat, count: nat)
      requires CountsOk(|ring|, started, headIndex, tailIndex, dequeueOptimisticCount, dequeueOvercommit)
      modifies this`dequeueOptimisticCount, this`headIndex
      ensures CountsOk(|ring|, started, headIndex, tailIndex, dequeueOptimisticCount, dequeueOvercommit)
      ensures claimed <==> 0 < tailIndex - old(headIndex) < HALF
      ensures firstIndex == old(headIndex) && headIndex == firstIndex + count
      ensures count == if claimed then Min(max, tailIndex - firstIndex) else 0
    {
      var tail, overcommit := tailIndex, dequeueOvercommit;
      var desiredCount := Wrap(tail - (dequeueOptimisticCount - overcommit));
      if !CircularLess(0, desiredCount) {
        return false, headIndex, 0;
      }
      desiredCount := if desiredCount < max then desiredCount else max;
      var myDequeueCount := dequeueOptimisticCount;
      dequeueOptimisticCount := dequeueOptimisticCount + desiredCount;
      tail := tailIndex;
      var actualCount := Wrap(tail - (myDequeueCount - overcommit));
      // Only another thread could leave fewer elements than the first look promised.
      assert CircularLess(0, actualCount) && desiredCount <= actualCount;
      actualCount := if desiredCount < actualCount then desiredCount else actualCount;
      claimed, firstIndex, count := true, headIndex, actualCount;
      headIndex := headIndex + actualCount;
    }

    /** Takes up to `max` of the oldest elements. */
    method DequeueBulk(max: nat) returns (items: seq<T>)
      requires Valid()
      modifies this`dequeueOptimisticCount, this`headIndex, this`blocks
      ensures Valid()
      ensures |items| == if old(|Contents()|) < HALF then Min(max, old(|Contents()|)) else 0
      ensures items + Contents() == old(Contents())
    {
      hide AllFlagged, Window, Memory, IndexHas, Linked;
      items := [];
      EmptyPrefix(Contents());
      var claimed, firstIndex, count := Claim(max);
      if claimed {
        items := PopMany(firstIndex, count);
        IndexStays(indexEntries, indexFront, ring, started - |ring|, firstIndex / BLOCK_SIZE, headIndex / BLOCK_SIZE);
        FlaggedIsLinked(blocks, ring, started - |ring|, headIndex, started);
      }
    }

    /** First part of a bulk enqueue: takes over the empty blocks ahead, as many as needed. */
    method ReuseAhead(diff: int, currentTail: int)
      returns (blockBaseDiff: int, currentTailIndex: int, firstAllocated: Option<nat>)
      requires Valid() && diff >= 0 && diff % BLOCK_SIZE == 0 && currentTail == (started - 1) * BLOCK_SIZE
      modifies this`tailBlock, this`indexEntries, this`indexFront, this`ring, this`started
      ensures Core() && AllFlagged(blocks, ring, started - |ring|, headIndex, old(started))
        && Contents() == old(Contents())
      ensures blockBaseDiff >= 0 && blockBaseDiff % BLOCK_SIZE == 0
      ensures blockBaseDiff + started * BLOCK_SIZE == diff + old(started) * BLOCK_SIZE
      ensures currentTailIndex == (started - 1) * BLOCK_SIZE
      ensures FirstSince(ring, started, old(started), old(tailBlock), firstAllocated) && Listed(ring, old(tailBlock))
      ensures blockBaseDiff > 0 && ring != [] ==> headIndex < (started - |ring| + 1) * BLOCK_SIZE
      ensures |ring| == |old(ring)| && |indexEntries| == |old(indexEntries)|
      ensures indexFront < |indexEntries| && Slot(indexFront, |indexEntries|, started - old(started)) == old(indexFront)
      ensures blockBaseDiff / BLOCK_SIZE == old(Missing(diff / BLOCK_SIZE)) && old(UsedUp()) >= 0
      ensures started == old(started + diff / BLOCK_SIZE - Missing(diff / BLOCK_SIZE))
      ensures diff > 0 ==> (started > old(started) <==> old(NextIsEmpty()))
    {
      hide AllFlagged, Window, Memory, IndexHas, Linked, Listed, Pow2;
      ghost var limit, last := started, tailBlock;
      blockBaseDiff, currentTailIndex, firstAllocated := diff, currentTail, None;
      TailLinksToFront(blocks, ring, tailBlock);
      TailIsListed(ring, tailBlock);
      while blockBaseDiff > 0 && tailBlock.Some? && Some(blocks[tailBlock.value].next) != firstAllocated
            && IsEmpty(blocks[blocks[tailBlock.value].next])
        invariant Core() && AllFlagged(blocks, ring, started - |ring|, headIndex, limit)
          && Contents() == old(Contents())
        invariant tailBlock.Some? ==> tailBlock.value < |blocks| && blocks[tailBlock.value].next == ring[0] < |blocks|
        invariant blockBaseDiff >= 0 && blockBaseDiff % BLOCK_SIZE == 0
        invariant blockBaseDiff + started * BLOCK_SIZE == diff + limit * BLOCK_SIZE
        invariant currentTailIndex == (started - 1) * BLOCK_SIZE
        invariant FirstSince(ring, started, limit, last, firstAllocated) && Listed(ring, last)
        invariant |ring| == |old(ring)| && |indexEntries| == |old(indexEntries)|
        invariant Slot(indexFront, |indexEntries|, started - limit) == old(indexFront)
        invariant started - limit <= old(UsedUp())
        invariant started > limit ==> old(NextIsEmpty())
        invariant started == limit ==> blockBaseDiff == diff && tailBlock == old(tailBlock)
        decreases blockBaseDiff
      {
        blockBaseDiff, currentTailIndex := blockBaseDiff - BLOCK_SIZE, currentTailIndex + BLOCK_SIZE;
        RotatedLists(ring, last);
        TakeNextBlock(currentTailIndex, limit);
        firstAllocated := if firstAllocated == None then tailBlock else firstAllocated;
        TailLinksToFront(blocks, ring, tailBlock);
      }
      if blockBaseDiff > 0 && ring != [] {
        FrontInUseOrFirst(blocks, ring, started, limit, headIndex, last, firstAllocated);
      }
    }

    /**
     What a bulk enqueue falls back to if it cannot get its blocks: with the index it began with, the front it began
     with; with a larger one, the slot after as many entries as were in use when it began.
     */
    ghost predicate CanRollBack(fallback: nat, size: nat, slotsUsed: nat, limit: nat)
      reads this
    {
      && fallback < |indexEntries| && indexFront < |indexEntries| && size <= |indexEntries| && slotsUsed <= |ring|
      && 0 <= started - limit <= |ring| <= |indexEntries|
      && (Lag() == 0 ==> limit <= started - |ring| + slotsUsed)
      && if size == |indexEntries| then
           && fallback == Slot(indexFront, size, started - limit)
           && (limit > 0 ==> publishedFront == Slot(fallback, size, 1))
         else
           && fallback == slotsUsed && publishedFront == Wrap(slotsUsed - 1) && Lag() == 0
           && Slot(indexFront, |indexEntries|, |ring|) == 0
    }

    /**
     A bulk enqueue that has started blocks since `limit`, when `last` was the tail block; `first` is the first of them.
     They are marked empty so far.
     */
    ghost predicate Underway(fallback: nat, size: nat, slotsUsed: nat, limit: nat, last: Option<nat>,
                             first: Option<nat>)
      reads this
    {
      && Core() && AllFlagged(blocks, ring, started - |ring|, headIndex, limit)
      && FirstSince(ring, started, limit, last, first) && Listed(ring, last)
      && CanRollBack(fallback, size, slotsUsed, limit)
    }

    /** Makes sure the index has a slot for one more block, unless the tail could lap the head. */
    method MakeSlotAhead(full: bool, originalSlotsUsed: nat, fallback: nat, canGrow: bool, ghost size: nat,
                         ghost limit: nat) returns (ok: bool, newFallback: nat)
      requires Core() && (Lag() == 0 || |ring| < |indexEntries|)
      requires CanRollBack(fallback, size, originalSlotsUsed, limit)
      modifies this`indexEntries, this`indexFront, this`publishedFront, this`exponent
      ensures Core() && Contents() == old(Contents()) && |indexEntries| >= |old(indexEntries)|
      ensures CanRollBack(newFallback, size, originalSlotsUsed, limit)
      ensures ok <==> !full && (indexSlotsUsed < |old(indexEntries)| || canGrow)
      ensures ok ==> |ring| < |indexEntries|
      ensures |indexEntries| == |old(indexEntries)| * if ok && indexSlotsUsed == |old(indexEntries)| then 2 else 1
    {
      hide Window, Memory, IndexHas, Linked;
      newFallback := fallback;
      if indexSlotsUsed == |indexEntries| || full {
        if full || !canGrow {
          return false, newFallback;
        }
        RoomToGrow(exponent, indexSlotsUsed);
        GrowIndex(originalSlotsUsed);
        newFallback := originalSlotsUsed;
      }
      ok := true;
    }

    /** Inserts one new block for the indices from `base` on. */
    method InsertOne(base: nat, memory: seq<T>, first: Option<nat>, ghost fallback: nat, ghost size: nat,
                     ghost slotsUsed: nat, ghost limit: nat, ghost last: Option<nat>)
                         returns (firstAllocated: Option<nat>)
      requires Underway(fallback, size, slotsUsed, limit, last, first)
      requires base == started * BLOCK_SIZE && |memory| == BLOCK_SIZE
      requires |ring| < |indexEntries| && (|ring| + 1) * BLOCK_SIZE <= HALF
      modifies this`blocks, this`tailBlock, this`indexEntries, this`indexFront, this`indexSlotsUsed, this`ring,
        this`started
      ensures Underway(fallback, size, slotsUsed, limit, last, firstAllocated) && Contents() == old(Contents())
      ensures started == old(started) + 1 && |ring| == |old(ring)| + 1 && Lag() == old(Lag())
      ensures |indexEntries| == |old(indexEntries)|
    {
      hide AllFlagged, Window, Memory, IndexHas, Linked, IsTail, FirstSince, Listed, Pow2, Wrap;
      FirstSinceExtends(ring, started, limit, last, first, |blocks|);
      ExtendedLists(ring, last, |blocks|);
      NextSlotBack(indexFront, |indexEntries|, started - limit);
      NextSlotBack(indexFront, |indexEntries|, |ring|);
      hide Slot, NextSlot;
      InsertUnused(base, memory, limit);
      firstAllocated := if first == None then tailBlock else first;
    }

    /** Inserts a block, unless there is no room or something cannot be allocated. */
    method InsertNext(base: nat, originalSlotsUsed: nat, fallback: nat, first: Option<nat>, memory: seq<T>,
                      canGrow: bool, canAlloc: bool, ghost size: nat, ghost limit: nat, ghost last: Option<nat>)
      returns (ok: bool, newFallback: nat, firstAllocated: Option<nat>)
      requires Underway(fallback, size, originalSlotsUsed, limit, last, first)
      requires base == started * BLOCK_SIZE && |memory| == BLOCK_SIZE
      requires ring != [] ==> headIndex < (started - |ring| + 1) * BLOCK_SIZE
      requires Lag() == 0 || |ring| < |indexEntries|
      modifies this`blocks, this`tailBlock, this`indexEntries, this`indexFront, this`indexSlotsUsed,
        this`publishedFront, this`ring, this`started, this`exponent
      ensures Underway(newFallback, size, originalSlotsUsed, limit, last, firstAllocated)
      ensures Contents() == old(Contents()) && Lag() == old(Lag()) && |indexEntries| >= |old(indexEntries)|
      ensures started - |ring| == old(started - |ring|) && started == if ok then old(started) + 1 else old(started)
      ensures ok <==>
        && base + BLOCK_SIZE - headIndex < HALF
        && old(indexSlotsUsed < |indexEntries| || canGrow) && canAlloc
      ensures ok ==> |indexEntries| == |old(indexEntries)| * if old(indexSlotsUsed == |indexEntries|) then 2 else 1
    {
      hide AllFlagged, Window, Memory, IndexHas, Linked, IsTail, FirstSince, Listed, WouldLap, Pow2, Wrap, Slot;
      LapTest(base);
      firstAllocated := first;
      ok, newFallback := MakeSlotAhead(WouldLap(base), originalSlotsUsed, fallback, canGrow, size, limit);
      ok := ok && canAlloc;
      if ok {
        firstAllocated := InsertOne(base, memory, first, newFallback, size, originalSlotsUsed, limit, last);
      }
    }

    /** Second part: inserts new blocks, marked empty until all of them are there, as long as it can. */
    method InsertAhead(diff: int, currentTail: int, first: Option<nat>, memory: seq<T>, originalFront: nat,
                       canGrow: nat -> bool, canAlloc: nat -> bool, ghost limit: nat, ghost last: Option<nat>)
      returns (ok: bool, fallback: nat, firstAllocated: Option<nat>)
      requires Underway(originalFront, |indexEntries|, indexSlotsUsed, limit, last, first)
      requires diff >= 0 && diff % BLOCK_SIZE == 0 && currentTail == (started - 1) * BLOCK_SIZE
        && |memory| == BLOCK_SIZE
      requires diff > 0 && ring != [] ==> headIndex < (started - |ring| + 1) * BLOCK_SIZE
      requires Lag() == 0 || |ring| + diff / BLOCK_SIZE <= |indexEntries|
      modifies this`blocks, this`tailBlock, this`indexEntries, this`indexFront, this`indexSlotsUsed,
        this`publishedFront, this`ring, this`started, this`exponent
      ensures Underway(fallback, |old(indexEntries)|, old(indexSlotsUsed), limit, last, firstAllocated)
      ensures Contents() == old(Contents())
      ensures started - |ring| == old(started - |ring|) && started >= old(started) && Lag() == old(Lag())
      ensures ok ==> started * BLOCK_SIZE == old(started) * BLOCK_SIZE + diff
      ensures ok <==>
        CanGet(diff / BLOCK_SIZE, old(started), old(indexSlotsUsed), old(|indexEntries|), canGrow, canAlloc)
      ensures started * BLOCK_SIZE <= old(started) * BLOCK_SIZE + diff
    {
      hide AllFlagged, Window, Memory, IndexHas, Linked, IsTail, FirstSince, Listed, CanRollBack, Pow2, Doubles,
        CanInsert;
      var blockBaseDiff, currentTailIndex, originalSlotsUsed := diff, currentTail, indexSlotsUsed;
      ghost var size, n := |indexEntries|, diff / BLOCK_SIZE;
      assert diff == n * BLOCK_SIZE;
      assert CanInsert(n, n, originalSlotsUsed, size, canGrow, canAlloc) by {
        NothingToInsert(n, originalSlotsUsed, size, canGrow, canAlloc);
      }
      fallback, firstAllocated, ok := originalFront, first, true;
      ghost var rest := n;
      while blockBaseDiff > 0
        invariant Underway(fallback, size, originalSlotsUsed, limit, last, firstAllocated)
        invariant Contents() == old(Contents()) && ok
        invariant started - |ring| == old(started - |ring|) && Lag() == old(Lag())
        invariant 0 <= rest <= n && started == old(started) + (n - rest) && blockBaseDiff == rest * BLOCK_SIZE
        invariant currentTailIndex == (started - 1) * BLOCK_SIZE
        invariant diff > 0 && ring != [] ==> headIndex < (started - |ring| + 1) * BLOCK_SIZE
        invariant Lag() == 0 || |ring| + rest <= |indexEntries|
        invariant indexSlotsUsed == originalSlotsUsed + (n - rest)
        invariant |indexEntries| == size || size <= |indexEntries| < 2 * indexSlotsUsed
        invariant rest < n ==> started * BLOCK_SIZE - headIndex < HALF
        invariant CanInsert(n, rest, originalSlotsUsed, size, canGrow, canAlloc)
        decreases rest
      {
        var i := blockBaseDiff;
        FullIsDoubling(indexSlotsUsed, size, |indexEntries|, exponent);
        CanInsertNext(n, rest, originalSlotsUsed, size, canGrow, canAlloc);
        blockBaseDiff, currentTailIndex, rest := blockBaseDiff - BLOCK_SIZE, currentTailIndex + BLOCK_SIZE, rest - 1;
        ok, fallback, firstAllocated := InsertNext(currentTailIndex, originalSlotsUsed, fallback, firstAllocated,
                                                   memory, canGrow(i), canAlloc(i), size, limit, last);
        if !ok {
          return;
        }
      }
    }

    lemma UndoneFront(fallback: nat, slotsUsed: nat, size: nat, limit: nat)
      requires CanRollBack(fallback, size, slotsUsed, limit) && |ring| * BLOCK_SIZE <= HALF
      requires limit > 0 && |indexEntries| != size ==> slotsUsed > 0
      ensures fallback < |indexEntries| && indexFront < |indexEntries| && slotsUsed <= |ring| <= |indexEntries|
      ensures limit > 0 ==> publishedFront == Slot(fallback, |indexEntries|, 1)
      ensures |indexEntries| == size ==> 0 <= started - limit
      ensures |indexEntries| == size ==> fallback == Slot(indexFront, |indexEntries|, started - limit)
      ensures |indexEntries| != size ==>
        && fallback == slotsUsed && limit <= started - |ring| + slotsUsed
        && Slot(indexFront, |indexEntries|, |ring|) == 0
    {
      if |indexEntries| != size {
        SlotBeforeFront(slotsUsed, |indexEntries|);
      }
    }

    /** The order that undoing a bulk enqueue leaves the index in. */
    predicate InOrderAgain(slotsUsed: nat, size: nat, limit: nat, first: int)
      reads this`indexEntries, this`headIndex
    {
      |indexEntries| == size || first + slotsUsed == limit || headIndex == limit * BLOCK_SIZE
    }

    /** With the front at `fallback`, the index has the blocks in use again, or else all their entries are displaced. */
    ghost predicate IndexUndone(newTail: Option<nat>, fallback: nat, slotsUsed: nat, size: nat, limit: nat, r: nat)
      requires r <= |ring|
      reads this
    {
      var first := started - |ring|;
      && (InOrderAgain(slotsUsed, size, limit, first) <==>
            ListOk(blocks, Turned(ring, r), newTail, indexEntries, exponent, fallback, slotsUsed, limit, headIndex))
      && (!InOrderAgain(slotsUsed, size, limit, first) ==>
            limit <= first + slotsUsed
            && Displaced(indexEntries, fallback, headIndex / BLOCK_SIZE, limit, first + slotsUsed - limit))
    }

    /** The block list from position r on is that of the queue as it was before. */
    ghost predicate BlocksUndone(limit: nat, r: nat)
      requires Stored() && r <= |ring|
      reads this
    {
      && Linked(blocks, Turned(ring, r))
      && AllFlagged(blocks, Turned(ring, r), limit - |ring|, headIndex, limit)
      && CountsOk(|ring|, limit, headIndex, tailIndex, dequeueOptimisticCount, dequeueOvercommit)
      && Covers(Memory(blocks, Turned(ring, r)), limit - |ring|, headIndex, tailIndex)
      && Window(Memory(blocks, Turned(ring, r)), limit - |ring|, headIndex, tailIndex) == Contents()
    }

    lemma UndoneIndex(newTail: Option<nat>, fallback: nat, slotsUsed: nat, size: nat, limit: nat, r: nat)
      requires ListOk(blocks, ring, tailBlock, indexEntries, exponent, indexFront, indexSlotsUsed, started, headIndex)
      requires TurnsBack(ring, started, limit, headIndex, r) && IsTail(newTail, Turned(ring, r))
      requires CanRollBack(fallback, size, slotsUsed, limit) && |ring| * BLOCK_SIZE <= HALF
      requires limit > 0 && |indexEntries| != size ==> slotsUsed > 0
      ensures IndexUndone(newTail, fallback, slotsUsed, size, limit, r)
    {
      UndoneFront(fallback, slotsUsed, size, limit);
      hide ListOk, CanRollBack, TurnsBack, IsTail, Turned, Slot, Displaced;
      TurnedListOk(blocks, ring, tailBlock, indexEntries, exponent, indexFront, indexSlotsUsed, started, limit,
        headIndex,
                   r, newTail, fallback, slotsUsed, |indexEntries| != size);
    }

    lemma UndoneBlocks(limit: nat, r: nat)
      requires Stored() && AllFlagged(blocks, ring, started - |ring|, headIndex, limit)
      requires TurnsBack(ring, started, limit, headIndex, r) && tailIndex <= limit * BLOCK_SIZE
      ensures r <= |ring| && BlocksUndone(limit, r)
    {
      hide AllFlagged, Window, Memory, Linked, Turned;
      TurnKeepsFlags(blocks, ring, started, limit, headIndex, r);
      TurnKeepsWindow(blocks, ring, started, limit, headIndex, tailIndex, r);
    }

    /** What undoing a bulk enqueue makes of the block list and the index. */
    lemma Undone(startBlock: Option<nat>, firstAllocated: Option<nat>, fallback: nat, slotsUsed: nat, size: nat,
                 limit: nat)
      returns (r: nat, newTail: Option<nat>)
      requires Underway(fallback, size, slotsUsed, limit, startBlock, firstAllocated)
      requires tailIndex <= limit * BLOCK_SIZE < tailIndex + BLOCK_SIZE
      requires limit > 0 && |indexEntries| != size ==> slotsUsed > 0
      ensures r <= |ring| && newTail == (if startBlock == None then firstAllocated else startBlock)
      ensures Stored() && IsTail(newTail, Turned(ring, r)) && BlocksUndone(limit, r)
      ensures IndexUndone(newTail, fallback, slotsUsed, size, limit, r)
      ensures fallback < |indexEntries| && (limit > 0 ==> publishedFront == Slot(fallback, |indexEntries|, 1))
      ensures exponent <= RANGE_EXPONENT && |indexEntries| == Pow2(exponent)
    {
      hide AllFlagged, Window, Memory, Linked, IndexHas, FirstSince, Listed, Turned, IsTail, Displaced, Slot,
        CanRollBack,
        TurnsBack, InOrderAgain, Pow2, Covers, BlocksUndone, IndexUndone;
      newTail := if startBlock == None then firstAllocated else startBlock;
      r := TurnToTail(ring, started, limit, headIndex, startBlock, firstAllocated);
      UndoneFront(fallback, slotsUsed, size, limit);
      UndoneIndex(newTail, fallback, slotsUsed, size, limit, r);
      UndoneBlocks(limit, r);
    }

    /**
     Puts the tail block back where it was; the blocks taken and inserted meanwhile stand ahead of it, marked empty. The
     index is in order again exactly if it did not grow, or no block ahead had been taken before, or no block is in use.
     */
    method RollBack(startBlock: Option<nat>, firstAllocated: Option<nat>, fallback: nat, originalSlotsUsed: nat,
                    ghost size: nat, ghost limit: nat)
      requires Underway(fallback, size, originalSlotsUsed, limit, startBlock, firstAllocated)
      requires tailIndex <= limit * BLOCK_SIZE < tailIndex + BLOCK_SIZE
      requires limit > 0 && |indexEntries| != size ==> originalSlotsUsed > 0
      modifies this`tailBlock, this`indexFront, this`indexSlotsUsed, this`ring, this`started
      ensures Intact() && Contents() == old(Contents())
      ensures |ring| == |old(ring)| && indexSlotsUsed == originalSlotsUsed && started == limit
      ensures Valid() <==> InOrderAgain(originalSlotsUsed, size, limit, old(started - |ring|))
      ensures !Valid() ==> IsDisplaced()
    {
      hide AllFlagged, Window, Memory, Linked, FirstSince, Turned, IsTail, Displaced, Slot, ListOk, CountsOk, Underway,
        Pow2,
        IsDisplaced, Valid, Covers, InOrderAgain;
      ghost var first := started - |ring|;
      ghost var r, newTail := Undone(startBlock, firstAllocated, fallback, originalSlotsUsed, size, limit);
      indexFront := fallback;
      indexSlotsUsed := originalSlotsUsed;
      tailBlock := if startBlock == None then firstAllocated else startBlock;
      ring, started := Turned(ring, r), limit;
      IntactIsValid();
      if !InOrderAgain(originalSlotsUsed, size, limit, first) {
        DisplacedBy(first + originalSlotsUsed - limit);
      }
    }

    /** Inserts new blocks, or undoes the bulk enqueue so far. */
    method InsertOrRollBack(diff: int, currentTail: int, first: Option<nat>, memory: seq<T>, startBlock: Option<nat>,
                            originalFront: nat, canGrow: nat -> bool, canAlloc: nat -> bool, ghost limit: nat)
      returns (ok: bool, firstAllocated: Option<nat>)
      requires Underway(originalFront, |indexEntries|, indexSlotsUsed, limit, startBlock, first)
      requires tailIndex <= limit * BLOCK_SIZE < tailIndex + BLOCK_SIZE && (limit > 0 ==> ring != [])
      requires diff >= 0 && diff % BLOCK_SIZE == 0 && currentTail == (started - 1) * BLOCK_SIZE
        && |memory| == BLOCK_SIZE
      requires diff > 0 && ring != [] ==> headIndex < (started - |ring| + 1) * BLOCK_SIZE
      requires Lag() == 0 || |ring| + diff / BLOCK_SIZE <= |indexEntries|
      modifies this`blocks, this`tailBlock, this`indexEntries, this`indexFront, this`indexSlotsUsed,
        this`publishedFront, this`ring, this`started, this`exponent
      ensures Stored() && Contents() == old(Contents())
      ensures ok ==> Core() && AllFlagged(blocks, ring, started - |ring|, headIndex, limit)
      ensures ok ==> started * BLOCK_SIZE == old(started) * BLOCK_SIZE + diff && Lag() == old(Lag())
      ensures ok ==> FirstSince(ring, started, limit, startBlock, firstAllocated)
      ensures !ok ==> Intact() && started == limit
      ensures !ok ==> indexSlotsUsed == old(indexSlotsUsed) && |ring| >= |old(ring)|
      ensures !ok ==> (Valid() <==>
        |indexEntries| == |old(indexEntries)| || old(started) == limit || headIndex == limit * BLOCK_SIZE)
      ensures !ok && !Valid() ==> IsDisplaced()
      ensures ok <==>
        CanGet(diff / BLOCK_SIZE, old(started), old(indexSlotsUsed), old(|indexEntries|), canGrow, canAlloc)
      ensures |ring| <= old(|ring|) + diff / BLOCK_SIZE
      ensures ok ==> |ring| == old(|ring|) + diff / BLOCK_SIZE
    {
      hide AllFlagged, Window, Memory, IndexHas, Linked, FirstSince, Listed, IsTail, Pow2, Wrap;
      ghost var size := |indexEntries|;
      var originalSlotsUsed, fallback := indexSlotsUsed, 0;
      ok, fallback, firstAllocated := InsertAhead(diff, currentTail, first, memory, originalFront, canGrow, canAlloc,
                                                  limit, startBlock);
      if !ok {
        RollBack(startBlock, firstAllocated, fallback, originalSlotsUsed, size, limit);
      }
    }

    /** Third part: clears the flags of all blocks that are about to be filled. */
    method ResetBlocks(firstAllocated: nat, ghost limit: nat, ghost last: Option<nat>)
      requires Core() && AllFlagged(blocks, ring, started - |ring|, headIndex, limit)
      requires FirstSince(ring, started, limit, last, Some(firstAllocated)) && headIndex <= limit * BLOCK_SIZE
      modifies this`blocks
      ensures Core() && AllFlagged(blocks, ring, started - |ring|, headIndex, started) && Contents() == old(Contents())
    {
      hide AllFlagged, Window, IndexHas, Linked, Memory;
      ghost var first, memory := started - |ring|, Memory(blocks, ring);
      ghost var j := limit - first;
      var block := firstAllocated;
      while true
        invariant first <= first + j < started && block == ring[j] && limit <= first + j
        invariant AllFlagged(blocks, ring, first, headIndex, first + j)
        invariant Linked(blocks, ring) && Memory(blocks, ring) == memory
        decreases |ring| - j
      {
        MemoryAt(blocks, ring, j);
        ResetKeepsFlags(blocks, ring, first, headIndex, j);
        blocks := blocks[block := blocks[block].(emptyFlags := Flags(false))];
        FlaggedIsLinked(blocks, ring, first, headIndex, first + j + 1);
        RingDistinct(blocks, ring, j, |ring| - 1);
        if Some(block) == tailBlock {
          break;
        }
        block := blocks[block].next;
        j := j + 1;
      }
    }

    /** The blocks are in use, and consumers may look up the newest one. */
    method UseBlocks(firstAllocated: nat, ghost limit: nat, ghost last: Option<nat>)
      requires Core() && AllFlagged(blocks, ring, started - |ring|, headIndex, limit)
      requires FirstSince(ring, started, limit, last, Some(firstAllocated)) && headIndex <= limit * BLOCK_SIZE
      modifies this`blocks, this`publishedFront
      ensures Core() && Published() && AllFlagged(blocks, ring, started - |ring|, headIndex, started)
      ensures Contents() == old(Contents())
    {
      hide AllFlagged, Window, Memory, IndexHas, Linked, FirstSince;
      ResetBlocks(firstAllocated, limit, last);
      Publish();
    }

    /** Reuses and inserts blocks, at least one, or undoes it all. */
    method ObtainBlocks(diff: nat, currentTail: int, memory: seq<T>, canGrow: nat -> bool, canAlloc: nat -> bool)
      returns (ok: bool, firstAllocated: Option<nat>)
      requires Valid() && |memory| == BLOCK_SIZE && diff > 0 && diff % BLOCK_SIZE == 0
      requires currentTail == (started - 1) * BLOCK_SIZE
      requires Lag() == 0 || started + diff / BLOCK_SIZE - headIndex / BLOCK_SIZE <= |indexEntries|
      modifies this`blocks, this`tailBlock, this`indexEntries, this`indexFront, this`indexSlotsUsed,
        this`publishedFront, this`ring, this`started, this`exponent
      ensures Stored() && Contents() == old(Contents())
      ensures ok ==> Core() && Published() && AllFlagged(blocks, ring, started - |ring|, headIndex, started)
      ensures ok ==> started * BLOCK_SIZE == old(started) * BLOCK_SIZE + diff && Lag() == old(Lag())
      ensures ok ==> FirstSince(ring, started, old(started), old(tailBlock), firstAllocated)
      ensures !ok ==> Intact() && started == old(started)
      ensures !ok ==> indexSlotsUsed == old(indexSlotsUsed) && |ring| >= |old(ring)|
      ensures !ok ==> (Valid() <==>
        |indexEntries| == |old(indexEntries)| || !old(NextIsEmpty()) || headIndex == started * BLOCK_SIZE)
      ensures !ok && !Valid() ==> IsDisplaced()
      ensures old(UsedUp() >= 0) && (ok <==> old(CanObtain(diff / BLOCK_SIZE, canGrow, canAlloc)))
      ensures ok ==> |ring| == old(|ring| + Missing(diff / BLOCK_SIZE))
    {
      hide CanGet, Missing, UsedUp, IsDisplaced, AllFlagged, Window, Memory, IndexHas, Linked, NextIsEmpty, Wrap, Pow2,
        IsTail, FirstSince, Listed;
      ghost var limit := started;
      var startBlock, originalFront := tailBlock, indexFront;
      var blockBaseDiff, currentTailIndex;
      blockBaseDiff, currentTailIndex, firstAllocated := ReuseAhead(diff, currentTail);
      FirstSinceBounds(ring, started, limit, startBlock, firstAllocated);
      ok, firstAllocated := InsertOrRollBack(blockBaseDiff, currentTailIndex, firstAllocated, memory, startBlock,
                                             originalFront, canGrow, canAlloc, limit);
      if ok {
        FirstSinceBounds(ring, started, limit, startBlock, firstAllocated);
        UseBlocks(firstAllocated.value, limit, startBlock);
      }
    }

    /** Makes sure there are started blocks for `count` more elements, and for no more than that. */
    method AllocateBlocks(count: nat, memory: seq<T>, canGrow: nat -> bool, canAlloc: nat -> bool)
      returns (ok: bool, firstAllocated: Option<nat>)
      requires Valid() && |memory| == BLOCK_SIZE && Fits(count)
      modifies this`blocks, this`tailBlock, this`indexEntries, this`indexFront, this`indexSlotsUsed,
        this`publishedFront, this`ring, this`started, this`exponent
      ensures Stored() && Contents() == old(Contents())
      ensures ok ==> Core() && Published() && AllFlagged(blocks, ring, started - |ring|, headIndex, started)
      ensures ok ==> tailIndex + count <= started * BLOCK_SIZE < tailIndex + count + BLOCK_SIZE && Lag() == old(Lag())
      ensures ok ==> FirstSince(ring, started, old(started), old(tailBlock), firstAllocated)
      ensures ok && started == old(started) ==> ring == old(ring) && tailBlock == old(tailBlock)
      ensures !ok ==> Intact() && started == old(started)
      ensures !ok ==> indexSlotsUsed == old(indexSlotsUsed) && |ring| >= |old(ring)|
      ensures !ok ==> (Valid() <==>
        |indexEntries| == |old(indexEntries)| || !old(NextIsEmpty()) || headIndex == started * BLOCK_SIZE)
      ensures !ok && !Valid() ==> IsDisplaced()
      ensures old(UsedUp() >= 0 && BlocksFor(count) >= 0)
      ensures ok <==> old(CanObtain(BlocksFor(count), canGrow, canAlloc))
      ensures ok ==> |ring| == old(|ring| + Missing(BlocksFor(count)))
    {
      hide CanInsert, AllFlagged, Window, Memory, IndexHas, Linked, NextIsEmpty;
      var blockBaseDiff :=
        (tailIndex + count - 1) / BLOCK_SIZE * BLOCK_SIZE - (tailIndex - 1) / BLOCK_SIZE * BLOCK_SIZE;
      var currentTailIndex := (tailIndex - 1) / BLOCK_SIZE * BLOCK_SIZE;
      ok, firstAllocated := true, None;
      if blockBaseDiff > 0 {
        ok, firstAllocated := ObtainBlocks(blockBaseDiff, currentTailIndex, memory, canGrow, canAlloc);
      }
    }

    /** Writes a run of elements into block b, the one at ring position j, from index `lo` on. */
    method WriteRun(b: nat, lo: nat, run: seq<T>, ghost j: nat)
      requires AllFlagged(blocks, ring, started - |ring|, headIndex, started)
      requires j < |ring| && ring[j] == b && (started - |ring|) * BLOCK_SIZE <= headIndex <= lo
      requires (started - |ring| + j) * BLOCK_SIZE <= lo && lo + |run| <= (started - |ring| + j + 1) * BLOCK_SIZE
      requires Covers(Memory(blocks, ring), started - |ring|, headIndex, lo)
      modifies this`blocks
      ensures AllFlagged(blocks, ring, started - |ring|, headIndex, started)
      ensures Covers(Memory(blocks, ring), started - |ring|, headIndex, lo + |run|)
      ensures Window(Memory(blocks, ring), started - |ring|, headIndex, lo + |run|)
        == old(Window(Memory(blocks, ring), started - |ring|, headIndex, lo)) + run
      ensures Linked(blocks, ring) && b < |blocks|
      ensures b == ring[|ring| - 1] <==> j == |ring| - 1
      ensures j < |ring| - 1 ==> blocks[b].next == ring[j + 1]
    {
      hide AllFlagged, Window, Memory, Linked;
      ghost var first, head := started - |ring|, headIndex;
      FlaggedIsLinked(blocks, ring, first, head, started);
      var index := lo;
      while index != lo + |run|
        invariant lo <= index <= lo + |run|
        invariant AllFlagged(blocks, ring, first, head, started) && Linked(blocks, ring)
        invariant Covers(Memory(blocks, ring), first, head, index)
        invariant Window(Memory(blocks, ring), first, head, index)
          == old(Window(Memory(blocks, ring), first, head, lo)) + run[..index - lo]
        decreases lo + |run| - index
      {
        ghost var before := Memory(blocks, ring);
        WriteKeepsBlocks(blocks, ring, first, head, started, j, index % BLOCK_SIZE, run[index - lo]);
        blocks := blocks[b := blocks[b].(elements := blocks[b].elements[index % BLOCK_SIZE := run[index - lo]])];
        WindowAppends(before, Memory(blocks, ring), first, head, index, run[index - lo]);
        FlaggedIsLinked(blocks, ring, first, head, started);
        index := index + 1;
      }
      RingDistinct(blocks, ring, j, |ring| - 1);
    }

    /**
     `block` is where the bulk enqueue writes next: the block of index `current`, or the tail block when all is done.
     */
    ghost predicate Cursor(current: nat, newTail: nat, block: Option<nat>)
      reads this
    {
      && IsTail(tailBlock, ring)
      && (started - |ring|) * BLOCK_SIZE <= headIndex <= tailIndex <= current <= newTail
      && newTail <= started * BLOCK_SIZE < newTail + BLOCK_SIZE
      && if current == newTail then block == tailBlock
         else block == Some(ring[current / BLOCK_SIZE - (started - |ring|)])
    }

    /** Writing starts in the first new block at a block boundary, and in the tail block of before otherwise. */
    lemma CursorStarts(startBlock: Option<nat>, firstAllocated: Option<nat>, limit: nat, n: nat)
      requires IsTail(tailBlock, ring) && FirstSince(ring, started, limit, startBlock, firstAllocated)
      requires (started - |ring|) * BLOCK_SIZE <= headIndex <= tailIndex <= limit * BLOCK_SIZE < tailIndex + BLOCK_SIZE
      requires tailIndex + n <= started * BLOCK_SIZE < tailIndex + n + BLOCK_SIZE
      requires started == limit ==> tailBlock == startBlock
      ensures Cursor(tailIndex, tailIndex + n,
                     if tailIndex % BLOCK_SIZE == 0 && firstAllocated.Some? then firstAllocated else startBlock)
    {
    }

    /** Writes what belongs into one block. */
    method WriteNext(items: seq<T>, current: nat, block: Option<nat>)
      returns (stopIndex: nat, next: Option<nat>, done: bool)
      requires AllFlagged(blocks, ring, started - |ring|, headIndex, started)
        && Cursor(current, tailIndex + |items|, block)
      requires Linked(blocks, ring) && Covers(Memory(blocks, ring), started - |ring|, headIndex, current)
      requires tailIndex + |items| - headIndex <= HALF
      modifies this`blocks
      ensures AllFlagged(blocks, ring, started - |ring|, headIndex, started)
        && Cursor(stopIndex, tailIndex + |items|, next)
      ensures Linked(blocks, ring) && Covers(Memory(blocks, ring), started - |ring|, headIndex, stopIndex)
      ensures current <= stopIndex && Window(Memory(blocks, ring), started - |ring|, headIndex, stopIndex)
        == old(Window(Memory(blocks, ring), started - |ring|, headIndex, current))
          + items[current - tailIndex..stopIndex - tailIndex]
      ensures if done then stopIndex == tailIndex + |items| else current < stopIndex
    {
      hide AllFlagged, Window, Memory, Linked;
      var newTailIndex := tailIndex + |items|;
      stopIndex, next := BlockEnd(current), block;
      CircularLessIsLess(newTailIndex, stopIndex);
      if CircularLess(Wrap(newTailIndex), Wrap(stopIndex)) {
        stopIndex := newTailIndex;
      }
      if current != stopIndex {
        ghost var j := current / BLOCK_SIZE - (started - |ring|);
        WriteRun(block.value, current, items[current - tailIndex..stopIndex - tailIndex], j);
      } else {
        EmptySuffix(Window(Memory(blocks, ring), started - |ring|, headIndex, current));
      }
      done := block == tailBlock;
      if !done {
        next := Some(blocks[block.value].next);
      }
    }

    /** Last part: writes the items from the tail on, one block at a time along the list, ending at the tail block. */
    method WriteItems(items: seq<T>, firstBlock: Option<nat>)
      requires Core() && AllFlagged(blocks, ring, started - |ring|, headIndex, started)
      requires tailIndex + |items| - headIndex <= HALF && Cursor(tailIndex, tailIndex + |items|, firstBlock)
      modifies this`blocks
      ensures AllFlagged(blocks, ring, started - |ring|, headIndex, started) && Linked(blocks, ring)
      ensures Covers(Memory(blocks, ring), started - |ring|, headIndex, tailIndex + |items|)
      ensures Window(Memory(blocks, ring), started - |ring|, headIndex, tailIndex + |items|) == old(Contents()) + items
    {
      hide AllFlagged, Window, Memory, Linked, ListOk;
      FlaggedIsLinked(blocks, ring, started - |ring|, headIndex, started);
      ghost var window := Contents();
      var currentTailIndex, block := tailIndex, firstBlock;
      EmptySuffix(window);
      while true
        invariant Cursor(currentTailIndex, tailIndex + |items|, block)
        invariant AllFlagged(blocks, ring, started - |ring|, headIndex, started) && Linked(blocks, ring)
        invariant Covers(Memory(blocks, ring), started - |ring|, headIndex, currentTailIndex)
        invariant Window(Memory(blocks, ring), started - |ring|, headIndex, currentTailIndex)
          == window + items[..currentTailIndex - tailIndex]
        decreases tailIndex + |items| - currentTailIndex
      {
        var stopIndex, next, done := WriteNext(items, currentTailIndex, block);
        PrefixGrows(window, items, currentTailIndex - tailIndex, stopIndex - tailIndex);
        currentTailIndex := stopIndex;
        if done {
          break;
        }
        block := next;
      }
    }

    /** Fills the started blocks and moves the tail. */
    method AppendItems(items: seq<T>, firstBlock: Option<nat>)
      requires Core() && Published() && AllFlagged(blocks, ring, started - |ring|, headIndex, started)
      requires tailIndex + |items| - headIndex <= HALF && Cursor(tailIndex, tailIndex + |items|, firstBlock)
      modifies this`blocks, this`tailIndex
      ensures Valid() && Contents() == old(Contents()) + items
    {
      hide AllFlagged, Window, Memory, Linked, IndexHas, Pow2, Slot;
      WriteItems(items, firstBlock);
      tailIndex := tailIndex + |items|;
    }

    /**
     Puts all items at the end of the queue, as if one after the other, or none of them if the blocks for them cannot be
     had. After such a failure the queue is fit for use exactly if the index did not grow, or the block ahead was not
     ready for reuse when it grew, or no block is in use.
     */
    method EnqueueBulk(items: seq<T>, memory: seq<T>, canGrow: nat -> bool, canAlloc: nat -> bool) returns (ok: bool)
      requires Valid() && |memory| == BLOCK_SIZE && Fits(|items|) && |items| + BLOCK_SIZE <= WORD
      modifies this
      ensures Intact() && Contents() == if ok then old(Contents()) + items else old(Contents())
      ensures ok ==> Valid() && Lag() == old(Lag())
      ensures !ok ==> indexSlotsUsed == old(indexSlotsUsed) && |ring| >= |old(ring)|
      ensures !ok ==> (Valid() <==>
        |indexEntries| == |old(indexEntries)| || !old(NextIsEmpty()) || headIndex == started * BLOCK_SIZE)
      ensures !ok && !Valid() ==> IsDisplaced()
      ensures old(UsedUp() >= 0 && BlocksFor(|items|) >= 0)
      ensures ok <==> old(CanObtain(BlocksFor(|items|), canGrow, canAlloc))
      ensures ok ==> |ring| == old(|ring| + Missing(BlocksFor(|items|)))
      ensures old(|Contents()|) + |items| + BLOCK_SIZE <= HALF && (forall i :: canGrow(i) && canAlloc(i)) ==> ok
    {
      hide Doubles, AllFlagged, Window, Memory, Linked, IndexHas, Pow2, NextIsEmpty;
      var startBlock, firstAllocated := tailBlock, None;
      ghost var limit := started;
      ok, firstAllocated := AllocateBlocks(|items|, memory, canGrow, canAlloc);
      if !ok {
        return;
      }
      hide Slot, FirstSince;
      CursorStarts(startBlock, firstAllocated, limit, |items|);
      var firstBlock := if tailIndex % BLOCK_SIZE == 0 && firstAllocated.Some? then firstAllocated else startBlock;
      AppendItems(items, firstBlock);
    }
  }
}
