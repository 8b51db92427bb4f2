/**
 One explicit sub-queue shared by its producer and any number of consumers: the ticket protocol of DequeueTickets on
 top of blocks that the producer recycles once every element of them has been released. The index that maps an
 element to its block is the map `owner` here; SharedIndex puts the code's circular index in its place.
 */
module SharedQueue {
  import opened Sequences
  import Tickets = DequeueTickets

  const BLOCK_SIZE: nat := 32

  /** A block serving elements base * BLOCK_SIZE ..; `emptyFlags[o]` is set when element o of it has been released. */
  datatype Block<T> = Block(base: nat, cells: seq<T>, emptyFlags: seq<bool>)

  /** `written` and `delivered` are history: the values enqueued, and what each released index handed out. */
  datatype State<T> = State(
    tickets: Tickets.State,
    blocks: seq<Block<T>>,
    owner: seq<nat>,
    written: seq<T>,
    delivered: map<nat, T>)

  datatype Event<T> =
    | OpenBlock(b: nat, cells: seq<T>)
    | Write(value: T)
    | Publish(n: nat)
    | Consume(e: Tickets.Event)

  function Init<T>(consumers: nat): State<T> {
    State(Tickets.Init(consumers), [], [], [], map[])
  }

  predicate IsEmpty<T>(b: Block<T>) {
    forall o :: 0 <= o < |b.emptyFlags| ==> b.emptyFlags[o]
  }

  ghost predicate Enabled<T>(s: State<T>, ev: Event<T>) {
    match ev
    // A block is taken over only when all its flags are set; otherwise a new block joins, whatever its memory holds.
    // The producer scans the flags one by one; until it takes the block over they are only ever set, so that a scan
    // that finds all of them set is one look at the block at the end of the scan.
    case OpenBlock(b, cells) =>
      if b < |s.blocks| then IsEmpty(s.blocks[b]) && cells == s.blocks[b].cells
      else b == |s.blocks| && |cells| == BLOCK_SIZE
    case Write(_) => |s.written| < |s.owner| * BLOCK_SIZE
    case Publish(n) => s.tickets.tail + n <= |s.written|
    case Consume(e) => !e.Publish? && Tickets.Enabled(s.tickets, e)
  }

  /** The index the consumer works on next. */
  function CurrentIndex(c: Tickets.Consumer): nat
    requires c.Holding?
  {
    c.first + c.released
  }

  ghost predicate Located<T>(s: State<T>, i: nat) {
    i / BLOCK_SIZE < |s.owner| && s.owner[i / BLOCK_SIZE] < |s.blocks|
    && |s.blocks[s.owner[i / BLOCK_SIZE]].cells| == |s.blocks[s.owner[i / BLOCK_SIZE]].emptyFlags| == BLOCK_SIZE
  }

  ghost function Cell<T>(s: State<T>, i: nat): T
    requires Located(s, i)
  {
    s.blocks[s.owner[i / BLOCK_SIZE]].cells[i % BLOCK_SIZE]
  }

  ghost predicate Defined<T>(s: State<T>, ev: Event<T>) {
    Enabled(s, ev) &&
    match ev
    case OpenBlock(_, _) => true
    case Write(_) => Located(s, |s.written|)
    case Publish(_) => true
    case Consume(e) =>
      && Tickets.HasVerdicts(s.tickets, e)
      && (e.Release? ==> Located(s, CurrentIndex(s.tickets.consumers[e.t])))
  }

  ghost function Apply<T>(s: State<T>, ev: Event<T>): State<T>
    requires Defined(s, ev)
  {
    match ev
    case OpenBlock(b, cells) =>
      var young := Block(|s.owner|, cells, seq(BLOCK_SIZE, _ => false));
      s.(blocks := if b < |s.blocks| then s.blocks[b := young] else s.blocks + [young], owner := s.owner + [b])
    case Write(v) =>
      var b := s.owner[|s.written| / BLOCK_SIZE];
      var block := s.blocks[b];
      s.(written := s.written + [v],
         blocks := s.blocks[b := block.(cells := block.cells[|s.written| % BLOCK_SIZE := v])])
    case Publish(n) => s.(tickets := Tickets.Apply(s.tickets, Tickets.Publish(n)))
    case Consume(e) =>
      var s' := s.(tickets := Tickets.Apply(s.tickets, e));
      if !e.Release? then s' else
        var i := CurrentIndex(s.tickets.consumers[e.t]);
        var b := s.owner[i / BLOCK_SIZE];
        var block := s.blocks[b];
        s'.(delivered := s.delivered[i := Cell(s, i)],
            blocks := s.blocks[b := block.(emptyFlags := block.emptyFlags[i % BLOCK_SIZE := true])])
  }

  // ---------------------------------------------------------------- the invariant

  ghost predicate BlocksOk<T>(s: State<T>) {
    && (forall k :: 0 <= k < |s.owner| ==> s.owner[k] < |s.blocks|)
    && (forall b :: 0 <= b < |s.blocks| ==>
          && |s.blocks[b].cells| == |s.blocks[b].emptyFlags| == BLOCK_SIZE
          && s.blocks[b].base < |s.owner| && s.owner[s.blocks[b].base] == b
          && forall o :: 0 <= o < BLOCK_SIZE ==>
               (s.blocks[b].emptyFlags[o] <==> s.blocks[b].base * BLOCK_SIZE + o in s.delivered))
  }

  /** An index that has not been released still has its block to itself, and its value once written. */
  ghost predicate Kept<T>(s: State<T>, i: nat)
    requires BlocksOk(s) && i < |s.owner| * BLOCK_SIZE
  {
    && s.blocks[s.owner[i / BLOCK_SIZE]].base == i / BLOCK_SIZE
    && (i < |s.written| ==> Cell(s, i) == s.written[i])
  }

  ghost predicate HeldBy(c: Tickets.Consumer, i: nat) {
    c.Holding? && CurrentIndex(c) <= i < c.first + c.count
  }

  /** Released indices, held indices and indices above the head are three disjoint classes that cover everything. */
  ghost predicate Classified<T>(s: State<T>) {
    && (forall i :: i in s.delivered ==> i < s.tickets.head && i < |s.written| && s.delivered[i] == s.written[i])
    && (forall t, i: nat :: 0 <= t < |s.tickets.consumers| && HeldBy(s.tickets.consumers[t], i) ==> i !in s.delivered)
    && (forall i :: 0 <= i < s.tickets.head && i !in s.delivered ==>
          exists t :: 0 <= t < |s.tickets.consumers| && HeldBy(s.tickets.consumers[t], i))
  }

  ghost predicate Inv<T>(s: State<T>) {
    && Tickets.Inv(s.tickets)
    && s.tickets.tail <= |s.written| <= |s.owner| * BLOCK_SIZE
    && BlocksOk(s)
    && (forall i :: 0 <= i < |s.owner| * BLOCK_SIZE && i !in s.delivered ==> Kept(s, i))
    && Classified(s)
  }

  lemma HeadBelowTail(s: Tickets.State)
    requires Tickets.Inv(s)
    ensures s.head <= s.tail
  {
    Tickets.WinsBelowTail(s.verdicts, s.tail);
    assert Occurrences(s.verdicts, Tickets.Won)
        == Tickets.Settled(s, Tickets.Won) + Tickets.Debts(s.consumers, Tickets.Won);
  }

  /** Classes do not depend on the blocks. */
  lemma SameClasses<T>(s: State<T>, s': State<T>)
    requires Classified(s) && s'.tickets == s.tickets && s'.delivered == s.delivered && s'.written == s.written
    ensures Classified(s')
  {
  }

  /** Blocks are untouched by steps that change only the tickets. */
  lemma SameBlocks<T>(s: State<T>, s': State<T>)
    requires s'.blocks == s.blocks && s'.owner == s.owner && s'.written == s.written && s'.delivered == s.delivered
    requires BlocksOk(s) && forall i :: 0 <= i < |s.owner| * BLOCK_SIZE && i !in s.delivered ==> Kept(s, i)
    ensures BlocksOk(s') && forall i :: 0 <= i < |s'.owner| * BLOCK_SIZE && i !in s'.delivered ==> Kept(s', i)
  {
    forall i | 0 <= i < |s'.owner| * BLOCK_SIZE && i !in s'.delivered ensures Kept(s', i) {
      assert Kept(s, i);
    }
  }

  /** Block b is taken over, with all flags clear, for the next base. */
  ghost predicate Opened<T>(s: State<T>, s': State<T>, b: nat, cells: seq<T>) {
    && |cells| == BLOCK_SIZE
    && b <= |s.blocks| && (b < |s.blocks| ==> IsEmpty(s.blocks[b]))
    && s'.owner == s.owner + [b] && s'.delivered == s.delivered && s'.written == s.written
    && var young := Block(|s.owner|, cells, seq(BLOCK_SIZE, _ => false));
    s'.blocks == if b < |s.blocks| then s.blocks[b := young] else s.blocks + [young]
  }

  lemma OpenKeepsBlocks<T>(s: State<T>, s': State<T>, b: nat, cells: seq<T>)
    requires BlocksOk(s) && Opened(s, s', b, cells) && forall i :: i in s.delivered ==> i < |s.owner| * BLOCK_SIZE
    ensures BlocksOk(s')
  {
    forall c | 0 <= c < |s'.blocks|
      ensures s'.blocks[c].base < |s'.owner| && s'.owner[s'.blocks[c].base] == c
    {
      assert c != b ==> s'.blocks[c] == s.blocks[c];
    }
  }

  lemma OpenKeepsKept<T>(s: State<T>, s': State<T>, b: nat, cells: seq<T>, i: nat)
    requires BlocksOk(s) && Opened(s, s', b, cells) && BlocksOk(s')
    requires i < |s.owner| * BLOCK_SIZE && i !in s.delivered && Kept(s, i)
    ensures Kept(s', i)
  {
    var c := s.owner[i / BLOCK_SIZE];
    // A block still keeping i is not empty, so it was not the one taken over.
    assert !s.blocks[c].emptyFlags[i % BLOCK_SIZE];
    assert !IsEmpty(s.blocks[c]);
  }

  lemma YoungIsKept<T>(s: State<T>, s': State<T>, b: nat, cells: seq<T>, i: nat)
    requires Opened(s, s', b, cells) && BlocksOk(s')
      && |s.written| <= |s.owner| * BLOCK_SIZE <= i < |s'.owner| * BLOCK_SIZE
    ensures Kept(s', i)
  {
    assert i / BLOCK_SIZE == |s.owner|;
  }

  lemma OpenKeepsInv<T>(s: State<T>, b: nat, cells: seq<T>)
    requires Inv(s) && Defined(s, OpenBlock(b, cells))
    ensures Inv(Apply(s, OpenBlock(b, cells)))
  {
    var s' := Apply(s, OpenBlock(b, cells));
    HeadBelowTail(s.tickets);
    SameClasses(s, s');
    assert forall i :: i in s.delivered ==> i < |s.owner| * BLOCK_SIZE;
    hide Tickets.Inv, Classified, BlocksOk;
    OpenKeepsBlocks(s, s', b, cells);
    forall i | 0 <= i < |s'.owner| * BLOCK_SIZE && i !in s'.delivered ensures Kept(s', i) {
      if i < |s.owner| * BLOCK_SIZE {
        OpenKeepsKept(s, s', b, cells, i);
      } else {
        YoungIsKept(s, s', b, cells, i);
      }
    }
  }

  lemma WriteKeepsInv<T>(s: State<T>, v: T)
    requires Inv(s) && Enabled(s, Write(v))
    ensures Defined(s, Write(v)) && Inv(Apply(s, Write(v)))
  {
    hide Tickets.Inv;
    var n := |s.written|;
    HeadBelowTail(s.tickets);
    assert Located(s, n);
    var s' := Apply(s, Write(v));
    assert Kept(s, n);
    forall i | 0 <= i < |s'.owner| * BLOCK_SIZE && i !in s'.delivered ensures Kept(s', i) {
      assert Kept(s, i);
      if i != n && s.owner[i / BLOCK_SIZE] == s.owner[n / BLOCK_SIZE] {
        assert i / BLOCK_SIZE == n / BLOCK_SIZE;
        assert i % BLOCK_SIZE != n % BLOCK_SIZE;
      }
    }
  }

  /** Releasing index i sets exactly the flag of i. */
  lemma ReleaseSetsOneFlag<T>(s: State<T>, s': State<T>, i: nat, b: nat, d: nat, o: nat)
    requires BlocksOk(s) && b < |s.blocks| && d < |s.blocks| && o < BLOCK_SIZE
    requires s.blocks[b].base == i / BLOCK_SIZE
    requires s'.blocks == s.blocks[b := s.blocks[b].(emptyFlags := s.blocks[b].emptyFlags[i % BLOCK_SIZE := true])]
    requires s'.delivered.Keys == s.delivered.Keys + {i}
    ensures s'.blocks[d].emptyFlags[o] <==> s'.blocks[d].base * BLOCK_SIZE + o in s'.delivered.Keys
  {
    var k := s.blocks[d].base * BLOCK_SIZE + o;
    assert s.blocks[d].emptyFlags[o] <==> k in s.delivered;
    assert s.owner[s.blocks[d].base] == d && s.owner[s.blocks[b].base] == b;
    assert k == i <==> s.blocks[d].base == i / BLOCK_SIZE && o == i % BLOCK_SIZE;
  }

  lemma ReleaseKeepsBlocks<T>(s: State<T>, t: nat)
    requires Inv(s) && Defined(s, Consume(Tickets.Release(t)))
    requires Kept(s, CurrentIndex(s.tickets.consumers[t]))
      && CurrentIndex(s.tickets.consumers[t]) < |s.owner| * BLOCK_SIZE
    ensures BlocksOk(Apply(s, Consume(Tickets.Release(t))))
  {
    hide Tickets.Inv, Tickets.Apply, Classified;
    var s' := Apply(s, Consume(Tickets.Release(t)));
    var i := CurrentIndex(s.tickets.consumers[t]);
    forall d, o: nat | 0 <= d < |s'.blocks| && o < BLOCK_SIZE
      ensures s'.blocks[d].emptyFlags[o] <==> s'.blocks[d].base * BLOCK_SIZE + o in s'.delivered
    {
      ReleaseSetsOneFlag(s, s', i, s.owner[i / BLOCK_SIZE], d, o);
    }
  }

  lemma ReleaseKeepsClasses<T>(s: State<T>, t: nat)
    requires Inv(s) && Defined(s, Consume(Tickets.Release(t)))
    requires CurrentIndex(s.tickets.consumers[t]) < s.tickets.head <= |s.written|
    requires Cell(s, CurrentIndex(s.tickets.consumers[t])) == s.written[CurrentIndex(s.tickets.consumers[t])]
    ensures Classified(Apply(s, Consume(Tickets.Release(t))))
  {
    hide BlocksOk;
    var s' := Apply(s, Consume(Tickets.Release(t)));
    var cs, cs' := s.tickets.consumers, s'.tickets.consumers;
    var i := CurrentIndex(cs[t]);
    forall u, j: nat | 0 <= u < |cs'| && HeldBy(cs'[u], j) ensures j !in s'.delivered {
      assert HeldBy(cs[u], j);
      assert u < t ==> Tickets.Apart(cs[u], cs[t]);
      assert t < u ==> Tickets.Apart(cs[t], cs[u]);
    }
    forall j | 0 <= j < s'.tickets.head && j !in s'.delivered
      ensures exists u :: 0 <= u < |cs'| && HeldBy(cs'[u], j)
    {
      var u :| 0 <= u < |cs| && HeldBy(cs[u], j);
      assert HeldBy(cs'[u], j);
    }
  }

  lemma ReleaseKeepsInv<T>(s: State<T>, t: nat)
    requires Inv(s) && Enabled(s, Consume(Tickets.Release(t)))
    ensures Defined(s, Consume(Tickets.Release(t))) && Inv(Apply(s, Consume(Tickets.Release(t))))
  {
    var c := s.tickets.consumers[t];
    var i := CurrentIndex(c);
    assert Tickets.ConsumerOk(s.tickets, c);
    HeadBelowTail(s.tickets);
    assert HeldBy(c, i);
    assert Located(s, i) && Kept(s, i);
    var s' := Apply(s, Consume(Tickets.Release(t)));
    Tickets.LocalStepKeepsInv(s.tickets, Tickets.Release(t));
    ReleaseKeepsBlocks(s, t);
    ReleaseKeepsClasses(s, t);
    forall j | 0 <= j < |s'.owner| * BLOCK_SIZE && j !in s'.delivered ensures Kept(s', j) {
      assert Kept(s, j);
    }
  }

  lemma TakeHeadKeepsClasses<T>(s: State<T>, t: nat)
    requires Inv(s) && Enabled(s, Consume(Tickets.TakeHead(t)))
    ensures Classified(Apply(s, Consume(Tickets.TakeHead(t))))
  {
    var s' := Apply(s, Consume(Tickets.TakeHead(t)));
    var cs, cs' := s.tickets.consumers, s'.tickets.consumers;
    forall j | 0 <= j < s'.tickets.head && j !in s'.delivered
      ensures exists u :: 0 <= u < |cs'| && HeldBy(cs'[u], j)
    {
      if j < s.tickets.head {
        var u :| 0 <= u < |cs| && HeldBy(cs[u], j);
        assert HeldBy(cs'[u], j);
      } else {
        assert HeldBy(cs'[t], j);
      }
    }
    forall u, j: nat | 0 <= u < |cs'| && HeldBy(cs'[u], j) ensures j !in s'.delivered {
      if u != t {
        assert HeldBy(cs[u], j);
      }
    }
  }

  /** The other consumer steps hold, release and claim nothing. */
  lemma OtherStepKeepsClasses<T>(s: State<T>, e: Tickets.Event)
    requires Inv(s) && Defined(s, Consume(e)) && !e.TakeHead? && !e.Release?
    ensures Classified(Apply(s, Consume(e)))
  {
    var s' := Apply(s, Consume(e));
    var cs, cs' := s.tickets.consumers, s'.tickets.consumers;
    assert s'.tickets.head == s.tickets.head;
    assert forall i: nat :: !HeldBy(cs[e.t], i) && !HeldBy(cs'[e.t], i);
    forall j | 0 <= j < s'.tickets.head && j !in s'.delivered
      ensures exists u :: 0 <= u < |cs'| && HeldBy(cs'[u], j)
    {
      var u :| 0 <= u < |cs| && HeldBy(cs[u], j);
      assert HeldBy(cs'[u], j);
    }
  }

  lemma PublishKeepsInv<T>(s: State<T>, n: nat)
    requires Inv(s) && Enabled(s, Publish(n))
    ensures Inv(Apply(s, Publish(n)))
  {
    var s' := Apply(s, Publish(n));
    Tickets.PublishKeepsInv(s.tickets, n);
    assert s'.tickets.consumers == s.tickets.consumers;
    forall i | 0 <= i < |s'.owner| * BLOCK_SIZE && i !in s'.delivered ensures Kept(s', i) {
      assert Kept(s, i);
    }
  }

  lemma TicketsInvOf(s: Tickets.State, e: Tickets.Event)
    requires Tickets.Inv(s) && Tickets.Enabled(s, e)
    ensures e.Decide? ==> Tickets.ConsumerOk(s, s.consumers[e.t])
  {
  }

  lemma ConsumeKeepsInv<T>(s: State<T>, e: Tickets.Event)
    requires Inv(s) && Tickets.InWindow(s.tickets) && Enabled(s, Consume(e)) && !e.Release?
    ensures Defined(s, Consume(e)) && Inv(Apply(s, Consume(e)))
  {
    hide Classified;
    hide BlocksOk, Classified, Tickets.Inv;
    assert e.Decide? ==> Tickets.ConsumerOk(s.tickets, s.tickets.consumers[e.t]) by { TicketsInvOf(s.tickets, e); }
    var s' := Apply(s, Consume(e));
    Tickets.StepKeepsInv(s.tickets, e);
    if e.TakeHead? {
      TakeHeadKeepsClasses(s, e.t);
    } else {
      OtherStepKeepsClasses(s, e);
    }
    SameBlocks(s, s');
    assert s'.tickets.tail == s.tickets.tail;
  }

  lemma StepKeepsInv<T>(s: State<T>, ev: Event<T>)
    requires Inv(s) && Tickets.InWindow(s.tickets) && Enabled(s, ev)
    ensures Defined(s, ev) && Inv(Apply(s, ev))
  {
    match ev
    case OpenBlock(b, cells) => OpenKeepsInv(s, b, cells);
    case Write(v) => WriteKeepsInv(s, v);
    case Publish(n) => PublishKeepsInv(s, n);
    case Consume(e) =>
      if e.Release? {
        ReleaseKeepsInv(s, e.t);
      } else {
        ConsumeKeepsInv(s, e);
      }
  }

  // ---------------------------------------------------------------- runs

  ghost predicate Next<T(!new)>(s: State<T>, s': State<T>) {
    exists ev :: Defined(s, ev) && s' == Apply(s, ev)
  }

  lemma NextKeepsInv<T(!new)>(s: State<T>, s': State<T>)
    requires Inv(s) && Tickets.InWindow(s.tickets) && Next(s, s')
    ensures Inv(s')
  {
    var ev :| Defined(s, ev) && s' == Apply(s, ev);
    StepKeepsInv(s, ev);
  }

  ghost predicate Run<T(!new)>(ss: seq<State<T>>) {
    && ss != []
    && (exists n: nat :: ss[0] == Init(n))
    && (forall i :: 0 <= i < |ss| ==> Tickets.InWindow(ss[i].tickets))
    && (forall i :: 0 < i < |ss| ==> Next(ss[i - 1], ss[i]))
  }

  lemma {:induction false} RunKeepsInv<T(!new)>(ss: seq<State<T>>)
    requires Run(ss)
    ensures Inv(ss[|ss| - 1])
  {
    if |ss| == 1 {
      var n: nat :| ss[0] == Init(n);
      Tickets.InitInv(n);
    } else {
      var prefix := ss[..|ss| - 1];
      assert prefix[0] == ss[0];
      RunKeepsInv(prefix);
      NextKeepsInv(ss[|ss| - 2], ss[|ss| - 1]);
    }
  }

  /**
   In every interleaving, an index a consumer holds still reads as the value enqueued at that position, its empty
   flag is clear (what `set_empty` asserts), and no block holding it can be taken over by the producer.
   */
  lemma HeldElementsAreSafe<T(!new)>(ss: seq<State<T>>, t: nat, i: nat)
    requires Run(ss)
    requires t < |ss[|ss| - 1].tickets.consumers| && HeldBy(ss[|ss| - 1].tickets.consumers[t], i)
    ensures var s := ss[|ss| - 1];
      && i < |s.written| && Located(s, i)
      && Cell(s, i) == s.written[i]
      && !s.blocks[s.owner[i / BLOCK_SIZE]].emptyFlags[i % BLOCK_SIZE]
      && !IsEmpty(s.blocks[s.owner[i / BLOCK_SIZE]])
  {
    RunKeepsInv(ss);
    var s := ss[|ss| - 1];
    HeadBelowTail(s.tickets);
    assert Tickets.ConsumerOk(s.tickets, s.tickets.consumers[t]);
    assert Kept(s, i);
  }

  /** Once the consumers are idle, exactly the elements below the head were delivered, each with its own value. */
  lemma QuietRunDeliversPrefix<T(!new)>(ss: seq<State<T>>)
    requires Run(ss) && Tickets.Quiet(ss[|ss| - 1].tickets)
    ensures var s := ss[|ss| - 1];
      && s.tickets.head <= |s.written|
      && (forall i :: 0 <= i < s.tickets.head ==> i in s.delivered && s.delivered[i] == s.written[i])
      && (forall i :: i in s.delivered ==> i < s.tickets.head)
  {
    RunKeepsInv(ss);
    HeadBelowTail(ss[|ss| - 1].tickets);
  }
}
