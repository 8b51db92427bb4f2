/**
 The circular block index as consumers read it while the producer overwrites its slots and replaces it by a larger one.
 A consumer that has claimed elements loads the index, then its front, then the entry at the front, computes the slot of
 its first block, and reads that slot: one access after the other, with any steps of other threads in between. The
 machine on top of which this runs is SharedQueue, whose map `owner` says which block an element is really in; here no
 consumer looks at it.
 */
module SharedIndex {
  import opened CircularIndex
  import Producer = ExplicitProducer
  import Queue = SharedQueue
  import Tickets = DequeueTickets

  const BLOCK_SIZE: nat := Queue.BLOCK_SIZE

  datatype Entry = Unused | Entry(base: nat, block: nat)

  /**
   `front` is the slot shown to consumers, `free` the one the producer fills next. History: the index was allocated when
   block number `first` was the oldest, entries for the numbers below `next` have been written, and `front` was stored
   for the number before `shown`.
   */
  datatype Header = Header(exponent: nat, entries: seq<Entry>, front: nat, free: nat, first: nat, next: nat, shown: nat)

  /** How far a consumer's lookup has come; `number` is history, the block number of the entry at `slot`. */
  datatype Reader =
    | Start
    | SawHeader(h: nat)
    | SawFront(h: nat, slot: nat, number: nat)
    | AtSlot(h: nat, slot: nat)
    | AtBlock(h: nat, slot: nat, block: nat)

  /** The last header is the current one; those before it stay allocated. */
  datatype State<T> = State(queue: Queue.State<T>, headers: seq<Header>, readers: seq<Reader>)

  datatype Event<T> =
    | OpenBlock(b: nat, cells: seq<T>)
    | WriteEntry
    | ShowFront
    | Grow(filled: nat)
    | Write(value: T)
    | Publish(n: nat)
    | Consume(e: Tickets.Event)
    | LoadHeader(t: nat)
    | LoadFront(t: nat)
    | LoadBase(t: nat)
    | LoadBlock(t: nat)
    | Release(t: nat)

  function Fresh(exponent: nat): Header {
    Header(exponent, seq(Producer.Pow2(exponent), _ => Unused), Wrap(-1), 0, 0, 0, 0)
  }

  function Init<T>(consumers: nat): State<T> {
    State(Queue.Init(consumers), [Fresh(Producer.INITIAL_INDEX_EXPONENT)], seq(consumers, _ => Start))
  }

  function NextSlot(slot: nat, size: nat): nat
    requires size > 0
  {
    (slot + 1) % size
  }

  /** The number of the block opened longest ago: the one ahead of the tail block. */
  function Oldest<T>(q: Queue.State<T>): int {
    |q.owner| - |q.blocks|
  }

  function Current<T>(s: State<T>): Header
    requires s.headers != []
  {
    s.headers[|s.headers| - 1]
  }

  ghost predicate Looking<T>(s: State<T>, t: nat) {
    && t < |s.queue.tickets.consumers| && t < |s.readers|
    && s.queue.tickets.consumers[t].Holding?
    && s.queue.tickets.consumers[t].released < s.queue.tickets.consumers[t].count
  }

  ghost predicate Enabled<T>(s: State<T>, ev: Event<T>) {
    s.headers != [] &&
    match ev
    // The entry of one block is written before the next block is taken. A new block needs a slot of its own.
    case OpenBlock(b, cells) =>
      && Queue.Enabled(s.queue, Queue.OpenBlock(b, cells)) && Current(s).next == |s.queue.owner|
      && (if b < |s.queue.blocks| then 0 <= Oldest(s.queue) < |s.queue.owner| && b == s.queue.owner[Oldest(s.queue)]
          else |s.queue.blocks| < |Current(s).entries|)
    case WriteEntry => Current(s).next < |s.queue.owner|
    case ShowFront => Current(s).next > 0
    // A single enqueue exposes all filled slots, a bulk enqueue those that were filled when it began.
    case Grow(filled) =>
      && Current(s).next == |s.queue.owner| && Current(s).exponent < Producer.RANGE_EXPONENT
      && Current(s).shown <= Oldest(s.queue) + filled <= |s.queue.owner|
    case Write(v) => Queue.Enabled(s.queue, Queue.Write(v))
    // The front is stored before the tail.
    case Publish(n) =>
      Queue.Enabled(s.queue, Queue.Publish(n)) && s.queue.tickets.tail + n <= Current(s).shown * BLOCK_SIZE
    case Consume(e) =>
      !e.Release? && Queue.Enabled(s.queue, Queue.Consume(e)) && e.t < |s.readers|
    case LoadHeader(t) => Looking(s, t) && s.readers[t].Start?
    case LoadFront(t) => Looking(s, t) && s.readers[t].SawHeader?
    case LoadBase(t) => Looking(s, t) && s.readers[t].SawFront?
    case LoadBlock(t) => Looking(s, t) && s.readers[t].AtSlot?
    case Release(t) => Looking(s, t) && s.readers[t].AtBlock?
  }

  function Index<T>(s: State<T>, t: nat): nat
    requires t < |s.queue.tickets.consumers| && s.queue.tickets.consumers[t].Holding?
  {
    Queue.CurrentIndex(s.queue.tickets.consumers[t])
  }

  /** No access goes astray: every slot is in bounds and filled, every block exists. */
  ghost predicate Defined<T>(s: State<T>, ev: Event<T>) {
    Enabled(s, ev) &&
    match ev
    case WriteEntry => Current(s).free < |Current(s).entries|
    case ShowFront => |Current(s).entries| > 0
    case Grow(_) =>
      0 <= Oldest(s.queue) && |s.queue.blocks| <= |Current(s).entries| && Current(s).free < |Current(s).entries|
    case Write(v) => Queue.Defined(s.queue, Queue.Write(v))
    case Consume(e) => Queue.Defined(s.queue, Queue.Consume(e))
    case LoadFront(t) => s.readers[t].h < |s.headers|
    case LoadBase(t) =>
      && s.readers[t].h < |s.headers| && s.readers[t].slot < |s.headers[s.readers[t].h].entries|
      && s.headers[s.readers[t].h].entries[s.readers[t].slot].Entry?
    case LoadBlock(t) =>
      && s.readers[t].h < |s.headers| && s.readers[t].slot < |s.headers[s.readers[t].h].entries|
      && s.headers[s.readers[t].h].entries[s.readers[t].slot].Entry?
    case Release(t) =>
      && s.readers[t].h < |s.headers| && |s.headers[s.readers[t].h].entries| > 0
         && s.readers[t].block < |s.queue.blocks|
      && |s.queue.blocks[s.readers[t].block].cells| == |s.queue.blocks[s.readers[t].block].emptyFlags| == BLOCK_SIZE
    case _ => true
  }

  /** The slot of the block of index i, from the entry at the front: wrapped indices and an unsigned division. */
  function SlotFrom(front: nat, base: nat, i: nat, size: nat): nat
    requires size > 0
  {
    var blockBase := Wrap(i) - Wrap(i) % BLOCK_SIZE;
    (front + Wrap(blockBase - base) / BLOCK_SIZE) % size
  }

  /** The copy loop of a growing index: the used slots, oldest first. */
  function Copied(h: Header, used: nat): seq<Entry>
    requires used <= |h.entries| && h.free < |h.entries|
  {
    seq(2 * |h.entries|, j requires 0 <= j =>
      if j < used then h.entries[Producer.Slot(h.free, |h.entries|, used - j)] else Unused)
  }

  /** The next entry, over whatever the slot held. */
  function Written(h: Header, block: nat): Header
    requires h.free < |h.entries|
  {
    h.(entries := h.entries[h.free := Entry(Wrap(h.next * BLOCK_SIZE), block)],
       free := NextSlot(h.free, |h.entries|), next := h.next + 1)
  }

  /** The last entry written becomes the one that lookups start from. */
  function Shown(h: Header): Header
    requires h.entries != []
  {
    h.(front := (h.free + |h.entries| - 1) % |h.entries|, shown := h.next)
  }

  /** The index that replaces h: twice the size, with the `used` last entries in its first slots. */
  function Grown(h: Header, used: nat, filled: nat): Header
    requires used <= |h.entries| && h.free < |h.entries| && used <= h.next
  {
    Header(h.exponent + 1, Copied(h, used), Wrap(filled - 1), used, h.next - used, h.next, h.next - used + filled)
  }

  ghost function Released<T>(s: State<T>, t: nat): State<T>
    requires Defined(s, Release(t))
  {
    var q, i, r := s.queue, Index(s, t), s.readers[t];
    var block := q.blocks[r.block];
    var q' := q.(tickets := Tickets.Apply(q.tickets, Tickets.Release(t)),
                 delivered := q.delivered[i := block.cells[i % BLOCK_SIZE]],
                 blocks := q.blocks[r.block := block.(emptyFlags := block.emptyFlags[i % BLOCK_SIZE := true])]);
    var r' := if (i + 1) % BLOCK_SIZE == 0 then AtSlot(r.h, NextSlot(r.slot, |s.headers[r.h].entries|)) else r;
    s.(queue := q', readers := s.readers[t := r'])
  }

  ghost function Apply<T>(s: State<T>, ev: Event<T>): State<T>
    requires Defined(s, ev)
  {
    var last, cur := |s.headers| - 1, Current(s);
    match ev
    case OpenBlock(b, cells) => s.(queue := Queue.Apply(s.queue, Queue.OpenBlock(b, cells)))
    case WriteEntry => s.(headers := s.headers[last := Written(cur, s.queue.owner[cur.next])])
    case ShowFront => s.(headers := s.headers[last := Shown(cur)])
    case Grow(filled) => s.(headers := s.headers + [Grown(cur, |s.queue.blocks|, filled)])
    case Write(v) => s.(queue := Queue.Apply(s.queue, Queue.Write(v)))
    case Publish(n) => s.(queue := Queue.Apply(s.queue, Queue.Publish(n)))
    case Consume(e) =>
      s.(queue := Queue.Apply(s.queue, Queue.Consume(e)),
         readers := if e.TakeHead? then s.readers[e.t := Start] else s.readers)
    case LoadHeader(t) => s.(readers := s.readers[t := SawHeader(last)])
    case LoadFront(t) =>
      var h := s.headers[s.readers[t].h];
      s.(readers := s.readers[t := SawFront(s.readers[t].h, h.front, if h.shown > 0 then h.shown - 1 else 0)])
    case LoadBase(t) =>
      var r, h := s.readers[t], s.headers[s.readers[t].h];
      s.(readers := s.readers[t :=
        AtSlot(r.h, SlotFrom(r.slot, h.entries[r.slot].base, Index(s, t), |h.entries|))])
    case LoadBlock(t) =>
      var r, h := s.readers[t], s.headers[s.readers[t].h];
      s.(readers := s.readers[t := AtBlock(r.h, r.slot, h.entries[r.slot].block)])
    case Release(t) => Released(s, t)
  }

  // ---------------------------------------------------------------- the invariant

  /** The entry of block number n is still in this index. */
  predicate Lives(h: Header, n: int) {
    h.first <= n < h.next <= n + |h.entries|
  }

  function Position(h: Header, n: int): (r: nat)
    requires Lives(h, n) && h.free < |h.entries|
    ensures r < |h.entries|
  {
    Producer.Slot(h.free, |h.entries|, h.next - n)
  }

  ghost predicate Filed(h: Header, owner: seq<nat>, n: int)
    requires Lives(h, n) && h.free < |h.entries| && h.next <= |owner|
  {
    h.entries[Position(h, n)] == Entry(Wrap(n * BLOCK_SIZE), owner[n])
  }

  ghost predicate HeaderOk(h: Header, owner: seq<nat>) {
    && h.exponent <= Producer.RANGE_EXPONENT && |h.entries| == Producer.Pow2(h.exponent) && h.free < |h.entries|
    && h.first <= h.shown <= h.next <= |owner|
    && (forall n: int :: Lives(h, n) ==> Filed(h, owner, n))
    && (Lives(h, h.shown - 1) ==> h.front == Position(h, h.shown - 1))
  }

  /** The blocks stand in a ring in the order in which they were opened. */
  ghost predicate RingInOrder<T>(q: Queue.State<T>) {
    && |q.blocks| <= |q.owner|
    && forall b :: 0 <= b < |q.blocks| ==> Oldest(q) <= q.blocks[b].base
  }

  ghost predicate CurrentOk<T>(q: Queue.State<T>, h: Header) {
    && h.next <= |q.owner| <= h.next + 1
    && |q.blocks| <= |h.entries|
    && h.first <= Oldest(q)
    && q.tickets.tail <= h.shown * BLOCK_SIZE
  }

  function FirstBlock(c: Tickets.Consumer): nat
    requires c.Holding?
  {
    Queue.CurrentIndex(c) / BLOCK_SIZE
  }

  function LastBlock(c: Tickets.Consumer): nat
    requires c.Holding? && c.released < c.count
  {
    (c.first + c.count - 1) / BLOCK_SIZE
  }

  /** The entries of all blocks the consumer still has to visit are in this index. */
  ghost predicate Reach(h: Header, c: Tickets.Consumer)
    requires c.Holding? && c.released < c.count
  {
    Lives(h, FirstBlock(c)) && LastBlock(c) < h.next
  }

  /** A lookup under way in this index will find the blocks of the consumer. */
  ghost predicate Finds(h: Header, owner: seq<nat>, c: Tickets.Consumer, r: Reader)
    requires c.Holding? && c.released < c.count && !r.Start?
  {
    && h.free < |h.entries| && Reach(h, c) && LastBlock(c) < |owner|
    && (r.SawHeader? ==> LastBlock(c) < h.shown)
    && (r.SawFront? ==> FirstBlock(c) <= r.number && Lives(h, r.number) && r.slot == Position(h, r.number))
    && (r.AtSlot? || r.AtBlock? ==> r.slot == Position(h, FirstBlock(c)))
    && (r.AtBlock? ==> r.block == owner[FirstBlock(c)])
  }

  ghost predicate ReaderOk(headers: seq<Header>, owner: seq<nat>, c: Tickets.Consumer, r: Reader)
    requires c.Holding? && c.released < c.count
  {
    r.Start? || (r.h < |headers| && Finds(headers[r.h], owner, c, r))
  }

  ghost predicate HeadersOk<T>(s: State<T>) {
    && s.headers != []
    && (forall h :: 0 <= h < |s.headers| ==> HeaderOk(s.headers[h], s.queue.owner))
    && CurrentOk(s.queue, Current(s))
  }

  ghost predicate ReadersOk<T>(s: State<T>) {
    && |s.readers| == |s.queue.tickets.consumers|
    && forall t :: 0 <= t < |s.readers| && Looking(s, t) ==>
         ReaderOk(s.headers, s.queue.owner, s.queue.tickets.consumers[t], s.readers[t])
  }

  ghost predicate Inv<T>(s: State<T>) {
    Queue.Inv(s.queue) && RingInOrder(s.queue) && HeadersOk(s) && ReadersOk(s)
  }

  lemma InitInv<T>(consumers: nat)
    ensures Inv(Init<T>(consumers))
  {
    Tickets.InitInv(consumers);
  }

  /** More blocks in the queue leave the entries and lookups as they were. */
  lemma HeaderStays(h: Header, owner: seq<nat>, owner': seq<nat>)
    requires HeaderOk(h, owner) && owner <= owner'
    ensures HeaderOk(h, owner')
  {
    hide Position;
    forall n: int | Lives(h, n) ensures Filed(h, owner', n) {
      assert Filed(h, owner, n);
    }
  }

  lemma ReadersStay<T>(s: State<T>, s': State<T>)
    requires HeadersOk(s) && ReadersOk(s) && s'.headers == s.headers && s'.readers == s.readers
    requires s'.queue.tickets.consumers == s.queue.tickets.consumers && s.queue.owner <= s'.queue.owner
    requires CurrentOk(s'.queue, Current(s'))
    ensures HeadersOk(s') && ReadersOk(s')
  {
    forall h | 0 <= h < |s'.headers| ensures HeaderOk(s'.headers[h], s'.queue.owner) {
      HeaderStays(s.headers[h], s.queue.owner, s'.queue.owner);
    }
    hide HeaderOk, Position;
    forall t | 0 <= t < |s'.readers| && Looking(s', t)
      ensures ReaderOk(s'.headers, s'.queue.owner, s'.queue.tickets.consumers[t], s'.readers[t])
    {
      assert Looking(s, t);
    }
  }

  /** What a consumer still has to visit is in blocks of the ring, below the tail. */
  lemma HeldInRing<T>(s: State<T>, t: nat)
    requires Queue.Inv(s.queue) && RingInOrder(s.queue) && Looking(s, t)
    ensures var c := s.queue.tickets.consumers[t];
      && Oldest(s.queue) <= FirstBlock(c) <= LastBlock(c) < |s.queue.owner|
      && LastBlock(c) * BLOCK_SIZE < s.queue.tickets.tail
      && s.queue.owner[FirstBlock(c)] < |s.queue.blocks|
  {
    var q, c := s.queue, s.queue.tickets.consumers[t];
    Queue.HeadBelowTail(q.tickets);
    assert Tickets.ConsumerOk(q.tickets, c);
    var i := Queue.CurrentIndex(c);
    assert Queue.HeldBy(c, i);
    assert Queue.Kept(q, i);
    assert Oldest(q) <= q.blocks[q.owner[i / BLOCK_SIZE]].base;
  }

  // ---------------------------------------------------------------- the producer's steps

  lemma OpenKeepsRing<T>(q: Queue.State<T>, b: nat, cells: seq<T>)
    requires Queue.BlocksOk(q) && RingInOrder(q) && Queue.Enabled(q, Queue.OpenBlock(b, cells))
    requires b < |q.blocks| ==> 0 <= Oldest(q) < |q.owner| && b == q.owner[Oldest(q)]
    ensures RingInOrder(Queue.Apply(q, Queue.OpenBlock(b, cells)))
  {
    var q' := Queue.Apply(q, Queue.OpenBlock(b, cells));
    forall c | 0 <= c < |q'.blocks| ensures Oldest(q') <= q'.blocks[c].base {
      if c != b {
        assert q'.blocks[c] == q.blocks[c] && q.owner[q.blocks[c].base] == c;
      }
    }
  }

  lemma OpenKeepsInv<T>(s: State<T>, b: nat, cells: seq<T>)
    requires Inv(s) && Enabled(s, OpenBlock(b, cells))
    ensures Defined(s, OpenBlock(b, cells)) && Inv(Apply(s, OpenBlock(b, cells)))
  {
    hide HeaderOk, ReadersOk;
    Queue.OpenKeepsInv(s.queue, b, cells);
    OpenKeepsRing(s.queue, b, cells);
    hide Queue.Inv, RingInOrder;
    ReadersStay(s, Apply(s, OpenBlock(b, cells)));
  }

  lemma WriteKeepsInv<T>(s: State<T>, v: T)
    requires Inv(s) && Enabled(s, Write(v))
    ensures Defined(s, Write(v)) && Inv(Apply(s, Write(v)))
  {
    hide HeaderOk, ReadersOk;
    Queue.WriteKeepsInv(s.queue, v);
    var s' := Apply(s, Write(v));
    assert RingInOrder(s'.queue);
    hide Queue.Inv, RingInOrder;
    ReadersStay(s, s');
  }

  lemma PublishKeepsInv<T>(s: State<T>, n: nat)
    requires Inv(s) && Enabled(s, Publish(n))
    ensures Defined(s, Publish(n)) && Inv(Apply(s, Publish(n)))
  {
    hide HeaderOk, ReadersOk;
    Queue.PublishKeepsInv(s.queue, n);
    var s' := Apply(s, Publish(n));
    assert RingInOrder(s'.queue);
    hide Queue.Inv, RingInOrder;
    ReadersStay(s, s');
  }

  /** Every entry that the slot's reuse does not push out stays in its place. */
  lemma WrittenStays(h: Header, block: nat, n: int)
    requires h.free < |h.entries| && Lives(Written(h, block), n)
    ensures Written(h, block).free < |h.entries|
    ensures n < h.next ==> Lives(h, n) && Position(Written(h, block), n) == Position(h, n) != h.free
    ensures n == h.next ==> Position(Written(h, block), n) == h.free
  {
    Producer.SlotIsModular(h.free, |h.entries|, 0);
  }

  lemma WrittenOk(h: Header, owner: seq<nat>)
    requires HeaderOk(h, owner) && h.next < |owner|
    ensures HeaderOk(Written(h, owner[h.next]), owner)
  {
    hide Position;
    var h' := Written(h, owner[h.next]);
    Producer.SlotIsModular(h.free, |h.entries|, 0);
    forall n: int | Lives(h', n) ensures Filed(h', owner, n) {
      WrittenStays(h, owner[h.next], n);
      if n < h.next {
        assert Filed(h, owner, n);
      }
    }
    if Lives(h', h'.shown - 1) {
      WrittenStays(h, owner[h.next], h'.shown - 1);
    }
  }

  /** A lookup under way is not disturbed: what the consumer still has to visit has not been pushed out. */
  lemma WrittenKeepsReader(h: Header, owner: seq<nat>, oldest: int, c: Tickets.Consumer, r: Reader)
    requires HeaderOk(h, owner) && h.next < |owner| <= oldest + |h.entries|
    requires c.Holding? && c.released < c.count && oldest <= FirstBlock(c) <= LastBlock(c)
    requires !r.Start? && Finds(h, owner, c, r)
    ensures Finds(Written(h, owner[h.next]), owner, c, r)
  {
    hide Position;
    WrittenStays(h, owner[h.next], FirstBlock(c));
    if r.SawFront? {
      WrittenStays(h, owner[h.next], r.number);
    }
  }

  ghost predicate ReadsCurrent<T>(s: State<T>, t: nat) {
    Looking(s, t) && !s.readers[t].Start? && s.readers[t].h == |s.headers| - 1
  }

  /** A change to the current header alone. */
  lemma HeaderStepKeepsInv<T>(s: State<T>, h: Header)
    requires Inv(s) && HeaderOk(h, s.queue.owner) && CurrentOk(s.queue, h)
    requires forall t :: 0 <= t < |s.readers| && ReadsCurrent(s, t) ==>
      Finds(h, s.queue.owner, s.queue.tickets.consumers[t], s.readers[t])
    ensures Inv(s.(headers := s.headers[|s.headers| - 1 := h]))
  {
    hide Queue.Inv, RingInOrder, HeaderOk, CurrentOk, Finds;
    var s' := s.(headers := s.headers[|s.headers| - 1 := h]);
    forall t | 0 <= t < |s'.readers| && Looking(s', t)
      ensures ReaderOk(s'.headers, s'.queue.owner, s'.queue.tickets.consumers[t], s'.readers[t])
    {
      assert Looking(s, t);
    }
  }

  lemma WriteEntryKeepsInv<T>(s: State<T>)
    requires Inv(s) && Enabled(s, WriteEntry)
    ensures Defined(s, WriteEntry) && Inv(Apply(s, WriteEntry))
  {
    var cur, owner := Current(s), s.queue.owner;
    WrittenOk(cur, owner);
    hide Queue.Inv, HeaderOk, Finds;
    forall t | 0 <= t < |s.readers| && ReadsCurrent(s, t)
      ensures Finds(Written(cur, owner[cur.next]), owner, s.queue.tickets.consumers[t], s.readers[t])
    {
      HeldInRing(s, t);
      WrittenKeepsReader(cur, owner, Oldest(s.queue), s.queue.tickets.consumers[t], s.readers[t]);
    }
    HeaderStepKeepsInv(s, Written(cur, owner[cur.next]));
  }

  lemma ShownOk(h: Header, owner: seq<nat>)
    requires HeaderOk(h, owner)
    ensures HeaderOk(Shown(h), owner)
  {
    var h' := Shown(h);
    Producer.SlotIsModular(h.free, |h.entries|, 1);
    assert h'.front == Producer.Slot(h.free, |h.entries|, 1);
    forall n: int | Lives(h', n) ensures Filed(h', owner, n) {
      assert Filed(h, owner, n);
    }
  }

  lemma ShownKeepsReader(h: Header, owner: seq<nat>, c: Tickets.Consumer, r: Reader)
    requires HeaderOk(h, owner) && c.Holding? && c.released < c.count && !r.Start? && Finds(h, owner, c, r)
    ensures Finds(Shown(h), owner, c, r)
  {
  }

  lemma ShowFrontKeepsInv<T>(s: State<T>)
    requires Inv(s) && Enabled(s, ShowFront)
    ensures Defined(s, ShowFront) && Inv(Apply(s, ShowFront))
  {
    var cur, owner := Current(s), s.queue.owner;
    ShownOk(cur, owner);
    hide Queue.Inv, HeaderOk, Finds;
    forall t | 0 <= t < |s.readers| && ReadsCurrent(s, t)
      ensures Finds(Shown(cur), owner, s.queue.tickets.consumers[t], s.readers[t])
    {
      ShownKeepsReader(cur, owner, s.queue.tickets.consumers[t], s.readers[t]);
    }
    HeaderStepKeepsInv(s, Shown(cur));
  }

  lemma GrownOk(h: Header, owner: seq<nat>, used: nat, filled: nat)
    requires HeaderOk(h, owner) && h.exponent < Producer.RANGE_EXPONENT
    requires used <= |h.entries| && h.first <= h.next - used && filled <= used < WORD
    ensures HeaderOk(Grown(h, used, filled), owner)
  {
    var h' := Grown(h, used, filled);
    forall n: int | Lives(h', n) ensures Filed(h', owner, n) {
      assert Lives(h, n) && Filed(h, owner, n);
      assert Position(h', n) == n - h'.first;
    }
  }

  /** A new header leaves the older ones, and the lookups in them, alone. */
  lemma NewHeaderKeepsInv<T>(s: State<T>, h: Header)
    requires Inv(s) && HeaderOk(h, s.queue.owner) && CurrentOk(s.queue, h)
    ensures Inv(s.(headers := s.headers + [h]))
  {
    hide Queue.Inv, RingInOrder, HeaderOk, CurrentOk, Finds;
    var s' := s.(headers := s.headers + [h]);
    forall t | 0 <= t < |s'.readers| && Looking(s', t)
      ensures ReaderOk(s'.headers, s'.queue.owner, s'.queue.tickets.consumers[t], s'.readers[t])
    {
      assert Looking(s, t);
    }
  }

  lemma GrowKeepsInv<T>(s: State<T>, filled: nat)
    requires Inv(s) && Enabled(s, Grow(filled))
    ensures Defined(s, Grow(filled)) && Inv(Apply(s, Grow(filled)))
  {
    hide Queue.Inv, Producer.Pow2;
    var cur, used := Current(s), |s.queue.blocks|;
    Producer.SizeInRange(cur.exponent);
    GrownOk(cur, s.queue.owner, used, filled);
    hide HeaderOk;
    NewHeaderKeepsInv(s, Grown(cur, used, filled));
  }

  // ---------------------------------------------------------------- the consumers' steps

  /** Only a claim gives a consumer something to look up. */
  lemma OthersStay(q: Tickets.State, e: Tickets.Event)
    requires Tickets.Enabled(q, e) && Tickets.HasVerdicts(q, e) && !e.Publish? && !e.Release?
    ensures var q' := Tickets.Apply(q, e);
      && |q'.consumers| == |q.consumers| && q'.tail == q.tail
      && (q'.consumers[e.t].Holding? ==> e.TakeHead?)
      && forall t :: 0 <= t < |q.consumers| && t != e.t ==> q'.consumers[t] == q.consumers[t]
  {
  }

  lemma ConsumeKeepsInv<T>(s: State<T>, e: Tickets.Event)
    requires Inv(s) && Tickets.InWindow(s.queue.tickets) && Enabled(s, Consume(e))
    ensures Defined(s, Consume(e)) && Inv(Apply(s, Consume(e)))
  {
    hide HeaderOk, Finds, Queue.Inv, Tickets.InWindow;
    Queue.ConsumeKeepsInv(s.queue, e);
    OthersStay(s.queue.tickets, e);
    var s' := Apply(s, Consume(e));
    hide Tickets.Apply, Tickets.Enabled;
    forall t | 0 <= t < |s'.readers| && Looking(s', t)
      ensures ReaderOk(s'.headers, s'.queue.owner, s'.queue.tickets.consumers[t], s'.readers[t])
    {
      if t != e.t {
        assert Looking(s, t);
      }
    }
  }

  /** A consumer's own step in its lookup changes nothing but its reader. */
  lemma ReaderStepKeepsInv<T>(s: State<T>, t: nat, r: Reader)
    requires Inv(s) && t < |s.readers|
    requires Looking(s, t) ==> ReaderOk(s.headers, s.queue.owner, s.queue.tickets.consumers[t], r)
    ensures Inv(s.(readers := s.readers[t := r]))
  {
    hide HeaderOk, Finds, Queue.Inv;
    var s' := s.(readers := s.readers[t := r]);
    forall u | 0 <= u < |s'.readers| && Looking(s', u)
      ensures ReaderOk(s'.headers, s'.queue.owner, s'.queue.tickets.consumers[u], s'.readers[u])
    {
      assert Looking(s, u);
    }
  }

  /** The current index has the entries of all blocks in the ring, and shows those below the tail. */
  lemma CurrentReaches(h: Header, owner: seq<nat>, oldest: int, tail: nat, c: Tickets.Consumer, last: nat)
    requires HeaderOk(h, owner) && h.first <= oldest && |owner| <= oldest + |h.entries| && tail <= h.shown * BLOCK_SIZE
    requires c.Holding? && c.released < c.count && oldest <= FirstBlock(c) <= LastBlock(c) < |owner|
    requires LastBlock(c) * BLOCK_SIZE < tail
    ensures Finds(h, owner, c, SawHeader(last))
  {
  }

  lemma LoadHeaderKeepsInv<T>(s: State<T>, t: nat)
    requires Inv(s) && Enabled(s, LoadHeader(t))
    ensures Defined(s, LoadHeader(t)) && Inv(Apply(s, LoadHeader(t)))
  {
    hide Queue.Inv, HeaderOk, Finds;
    HeldInRing(s, t);
    var last, q := |s.headers| - 1, s.queue;
    CurrentReaches(Current(s), q.owner, Oldest(q), q.tickets.tail, q.tickets.consumers[t], last);
    ReaderStepKeepsInv(s, t, SawHeader(last));
  }

  lemma LoadFrontKeepsInv<T>(s: State<T>, t: nat)
    requires Inv(s) && Enabled(s, LoadFront(t))
    ensures Defined(s, LoadFront(t)) && Inv(Apply(s, LoadFront(t)))
  {
    HeldInRing(s, t);
    var h := s.headers[s.readers[t].h];
    assert HeaderOk(h, s.queue.owner);
    hide Queue.Inv;
    ReaderStepKeepsInv(s, t, Apply(s, LoadFront(t)).readers[t]);
  }

  lemma BaseOfWrapped(i: nat)
    ensures Wrap(i) - Wrap(i) % BLOCK_SIZE == Wrap(i / BLOCK_SIZE * BLOCK_SIZE)
  {
  }

  lemma {:induction false} BlocksBack(n: int, back: nat)
    ensures n * BLOCK_SIZE - (n + back) * BLOCK_SIZE == -(back * BLOCK_SIZE)
  {
  }

  lemma SlotBack(free: nat, size: nat, more: nat, back: nat)
    requires free < size && more + back <= size && back > 0
    ensures Producer.Slot(free, size, back) < size
    ensures Producer.Slot(Producer.Slot(free, size, back), size, more) == Producer.Slot(free, size, back + more)
  {
  }

  lemma WrappedDistance(i: nat, number: nat)
    requires i / BLOCK_SIZE <= number
    ensures var blockBase := Wrap(i) - Wrap(i) % BLOCK_SIZE;
      Wrap(blockBase - Wrap(number * BLOCK_SIZE)) == Wrap(-((number - i / BLOCK_SIZE) * BLOCK_SIZE))
  {
    hide Wrap;
    var n := i / BLOCK_SIZE;
    BaseOfWrapped(i);
    WrapDifference(n * BLOCK_SIZE, number * BLOCK_SIZE);
    BlocksBack(n, number - n);
  }

  /** From any entry at or behind it, the arithmetic on wrapped indices finds the slot of the block of i. */
  lemma SlotFromIsPosition(h: Header, owner: seq<nat>, number: nat, i: nat)
    requires HeaderOk(h, owner) && Lives(h, i / BLOCK_SIZE) && Lives(h, number) && i / BLOCK_SIZE <= number
    ensures SlotFrom(Position(h, number), Wrap(number * BLOCK_SIZE), i, |h.entries|) == Position(h, i / BLOCK_SIZE)
  {
    hide Wrap, Producer.Pow2;
    var back := number - i / BLOCK_SIZE;
    Producer.SizeInRange(h.exponent);
    assert back * BLOCK_SIZE < WORD;
    WrappedDistance(i, number);
    Producer.OffsetLands(Position(h, number), h.exponent, back);
    SlotBack(h.free, |h.entries|, back, h.next - number);
  }

  lemma LoadBaseKeepsInv<T>(s: State<T>, t: nat)
    requires Inv(s) && Enabled(s, LoadBase(t))
    ensures Defined(s, LoadBase(t)) && Inv(Apply(s, LoadBase(t)))
  {
    var r, c := s.readers[t], s.queue.tickets.consumers[t];
    var h := s.headers[r.h];
    assert HeaderOk(h, s.queue.owner) && Filed(h, s.queue.owner, r.number);
    SlotFromIsPosition(h, s.queue.owner, r.number, Queue.CurrentIndex(c));
    hide Queue.Inv, SlotFrom, Position;
    ReaderStepKeepsInv(s, t, Apply(s, LoadBase(t)).readers[t]);
  }

  lemma LoadBlockKeepsInv<T>(s: State<T>, t: nat)
    requires Inv(s) && Enabled(s, LoadBlock(t))
    ensures Defined(s, LoadBlock(t)) && Inv(Apply(s, LoadBlock(t)))
  {
    var r, c := s.readers[t], s.queue.tickets.consumers[t];
    var h := s.headers[r.h];
    assert HeaderOk(h, s.queue.owner) && Filed(h, s.queue.owner, FirstBlock(c));
    hide Queue.Inv, Position;
    ReaderStepKeepsInv(s, t, Apply(s, LoadBlock(t)).readers[t]);
  }

  /** The element read and released through the index is the one the queue means. */
  lemma ReleaseIsExact<T>(s: State<T>, t: nat)
    requires Inv(s) && Enabled(s, Release(t))
    ensures Defined(s, Release(t)) && Queue.Defined(s.queue, Queue.Consume(Tickets.Release(t)))
    ensures Apply(s, Release(t)).queue == Queue.Apply(s.queue, Queue.Consume(Tickets.Release(t)))
    ensures Queue.Inv(Apply(s, Release(t)).queue)
  {
    HeldInRing(s, t);
    Queue.ReleaseKeepsInv(s.queue, t);
    assert Queue.BlocksOk(s.queue);
    hide Queue.Inv, Queue.BlocksOk;
    assert HeaderOk(s.headers[s.readers[t].h], s.queue.owner);
  }

  lemma FindsNext(h: Header, owner: seq<nat>, c: Tickets.Consumer, r: Reader)
    requires c.Holding? && c.released + 1 < c.count && r.AtBlock? && Finds(h, owner, c, r)
    ensures var i := Queue.CurrentIndex(c);
      Finds(h, owner, c.(released := c.released + 1),
            if (i + 1) % BLOCK_SIZE == 0 then AtSlot(r.h, NextSlot(r.slot, |h.entries|)) else r)
  {
    var i := Queue.CurrentIndex(c);
    if (i + 1) % BLOCK_SIZE == 0 {
      assert (i + 1) / BLOCK_SIZE == i / BLOCK_SIZE + 1;
      Producer.SlotAdvances(h.free, |h.entries|, h.next - i / BLOCK_SIZE);
    } else {
      assert (i + 1) / BLOCK_SIZE == i / BLOCK_SIZE;
    }
  }

  lemma ReleaseChangesLittle<T>(s: State<T>, t: nat)
    requires Defined(s, Release(t)) && RingInOrder(s.queue)
    ensures var s', c, r := Apply(s, Release(t)), s.queue.tickets.consumers[t], s.readers[t];
      && s'.queue.owner == s.queue.owner && s'.queue.tickets.tail == s.queue.tickets.tail
      && |s'.queue.blocks| == |s.queue.blocks| && RingInOrder(s'.queue)
      && s'.queue.tickets.consumers == s.queue.tickets.consumers[t := c.(released := c.released + 1)]
      && s'.headers == s.headers
      && s'.readers == s.readers[t := if (Queue.CurrentIndex(c) + 1) % BLOCK_SIZE == 0
                                      then AtSlot(r.h, NextSlot(r.slot, |s.headers[r.h].entries|)) else r]
  {
  }

  lemma ReleaseKeepsInv<T>(s: State<T>, t: nat)
    requires Inv(s) && Enabled(s, Release(t))
    ensures Defined(s, Release(t)) && Inv(Apply(s, Release(t)))
  {
    hide HeaderOk, Finds, Queue.Inv, RingInOrder, Apply, Defined;
    ReleaseIsExact(s, t);
    ReleaseChangesLittle(s, t);
    var s' := Apply(s, Release(t));
    var cs, cs' := s.queue.tickets.consumers, s'.queue.tickets.consumers;
    forall u | 0 <= u < |s'.readers| && Looking(s', u)
      ensures ReaderOk(s'.headers, s'.queue.owner, cs'[u], s'.readers[u])
    {
      assert Looking(s, u);
      if u == t {
        FindsNext(s.headers[s.readers[t].h], s.queue.owner, cs[t], s.readers[t]);
      }
    }
  }

  lemma StepKeepsInv<T>(s: State<T>, ev: Event<T>)
    requires Inv(s) && Tickets.InWindow(s.queue.tickets) && Enabled(s, ev)
    ensures Defined(s, ev) && Inv(Apply(s, ev))
  {
    hide Inv, Enabled, Tickets.InWindow;
    match ev
    case OpenBlock(b, cells) => OpenKeepsInv(s, b, cells);
    case WriteEntry => WriteEntryKeepsInv(s);
    case ShowFront => ShowFrontKeepsInv(s);
    case Grow(filled) => GrowKeepsInv(s, filled);
    case Write(v) => WriteKeepsInv(s, v);
    case Publish(n) => PublishKeepsInv(s, n);
    case Consume(e) => ConsumeKeepsInv(s, e);
    case LoadHeader(t) => LoadHeaderKeepsInv(s, t);
    case LoadFront(t) => LoadFrontKeepsInv(s, t);
    case LoadBase(t) => LoadBaseKeepsInv(s, t);
    case LoadBlock(t) => LoadBlockKeepsInv(s, t);
    case Release(t) => ReleaseKeepsInv(s, t);
  }

  // ---------------------------------------------------------------- runs

  /**
   The queue below: what a step does to it is a step of SharedQueue, or nothing. So whatever a run with the circular
   index does, the queue with the map of owners does too.
   */
  lemma StepRefines<T(!new)>(s: State<T>, ev: Event<T>)
    requires Inv(s) && Tickets.InWindow(s.queue.tickets) && Enabled(s, ev)
    ensures Defined(s, ev)
    ensures Apply(s, ev).queue == s.queue || Queue.Next(s.queue, Apply(s, ev).queue)
  {
    StepKeepsInv(s, ev);
    hide Inv, Queue.Apply, Tickets.InWindow;
    match ev
    case OpenBlock(b, cells) => assert Queue.Defined(s.queue, Queue.OpenBlock(b, cells));
    case Write(v) => assert Queue.Defined(s.queue, Queue.Write(v));
    case Publish(n) => assert Queue.Defined(s.queue, Queue.Publish(n));
    case Consume(e) => assert Queue.Defined(s.queue, Queue.Consume(e));
    case Release(t) => ReleaseIsExact(s, t);
    case _ =>
  }

  ghost predicate Next<T(!new)>(s: State<T>, s': State<T>) {
    exists ev :: Defined(s, ev) && s' == Apply(s, ev)
  }

  ghost predicate Run<T(!new)>(ss: seq<State<T>>) {
    && ss != []
    && (exists n: nat :: ss[0] == Init(n))
    && (forall i :: 0 <= i < |ss| ==> Tickets.InWindow(ss[i].queue.tickets))
    && (forall i :: 0 < i < |ss| ==> Next(ss[i - 1], ss[i]))
  }

  lemma {:induction false} RunKeepsInv<T(!new)>(ss: seq<State<T>>)
    requires Run(ss)
    ensures Inv(ss[|ss| - 1])
  {
    hide Inv, Apply, Tickets.InWindow;
    if |ss| == 1 {
      var n: nat :| ss[0] == Init(n);
      InitInv<T>(n);
    } else {
      var prefix := ss[..|ss| - 1];
      assert prefix[0] == ss[0];
      RunKeepsInv(prefix);
      var s := ss[|ss| - 2];
      assert Next(s, ss[|ss| - 1]);
      var ev :| Defined(s, ev) && ss[|ss| - 1] == Apply(s, ev);
      StepKeepsInv(s, ev);
    }
  }

  /**
   In every interleaving: a consumer that has looked up its block, through an index that the producer may since have
   overwritten in part, or replaced any number of times, has the block its next element is in; it reads the value
   enqueued at that position, from a cell not yet released, and the block cannot be taken over.
   */
  lemma LookupsAreRight<T(!new)>(ss: seq<State<T>>, t: nat)
    requires Run(ss) && Looking(ss[|ss| - 1], t) && ss[|ss| - 1].readers[t].AtBlock?
    ensures var s := ss[|ss| - 1];
      var i, b := Index(s, t), s.readers[t].block;
      && i < |s.queue.written| && b < |s.queue.blocks|
      && |s.queue.blocks[b].cells| == |s.queue.blocks[b].emptyFlags| == BLOCK_SIZE
      && s.queue.blocks[b].cells[i % BLOCK_SIZE] == s.queue.written[i]
      && !s.queue.blocks[b].emptyFlags[i % BLOCK_SIZE] && !Queue.IsEmpty(s.queue.blocks[b])
  {
    RunKeepsInv(ss);
    var s := ss[|ss| - 1];
    var c := s.queue.tickets.consumers[t];
    HeldInRing(s, t);
    Queue.HeadBelowTail(s.queue.tickets);
    assert Tickets.ConsumerOk(s.queue.tickets, c);
    assert Queue.HeldBy(c, Index(s, t));
    assert Queue.Kept(s.queue, Index(s, t));
  }

  /** Once the consumers are idle, what was delivered through the index are the elements below the head. */
  lemma QuietRunDeliversPrefix<T(!new)>(ss: seq<State<T>>)
    requires Run(ss) && Tickets.Quiet(ss[|ss| - 1].queue.tickets)
    ensures var q := ss[|ss| - 1].queue;
      && q.tickets.head <= |q.written|
      && (forall i :: 0 <= i < q.tickets.head ==> i in q.delivered && q.delivered[i] == q.written[i])
      && (forall i :: i in q.delivered ==> i < q.tickets.head)
  {
    RunKeepsInv(ss);
    Queue.HeadBelowTail(ss[|ss| - 1].queue.tickets);
  }
}
