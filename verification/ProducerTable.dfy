/**
 The chain of hash tables that maps each thread to its implicit producer, used by any number of threads at once. Tables
 are numbered from the oldest; the chain is followed from the newest table to table 0. Every shared access is a step of
 its own; the compare-and-swap on a key and the store of its value, which only the same thread reads, are one step.
 Thread exit, and with it the recycling of producers and keys, is not modelled, and allocations succeed.
 */
module ProducerTable {
  import opened Options
  import opened CircularIndex
  import opened Sequences

  const INITIAL_CAPACITY: nat := 32

  datatype Entry = Free | Taken(id: nat, value: nat)

  datatype Thread =
    | Idle
    | Searching(main: nat, table: nat, probes: nat)
    | Migrating(main: nat, value: nat, probes: nat)
    | Counting(main: nat)
    | Deciding(main: nat, newCount: nat)
    | Locked(newCount: nat)
    | Growing(main: nat, newCount: nat)
    | Unlocking(main: nat, newCount: nat)
    | Checking(main: nat, newCount: nat)
    | Inserting(main: nat, newCount: nat, value: nat, probes: nat)

  /** `bound` remembers the first producer of each thread, `tickets` the count it drew (0 for none). */
  datatype State = State(tables: seq<seq<Entry>>, count: nat, resizing: bool, hash: seq<nat>, threads: seq<Thread>,
                         bound: seq<Option<nat>>, tickets: seq<nat>)

  datatype Event = Call(t: nat) | Step(t: nat, made: nat)

  function Empty(capacity: nat): (r: seq<Entry>)
    ensures |r| == capacity && forall i :: 0 <= i < capacity ==> r[i] == Free
  {
    seq(capacity, _ => Free)
  }

  function Init(hash: seq<nat>): State {
    State([Empty(INITIAL_CAPACITY)], 0, false, hash, seq(|hash|, _ => Idle), seq(|hash|, _ => None),
      seq(|hash|, _ => 0))
  }

  function Slot(h: nat, d: nat, capacity: nat): (i: nat)
    requires capacity > 0
    ensures i < capacity
  {
    (h + d) % capacity
  }

  /** The capacity is doubled until the count is below half of it. */
  function Grown(newCount: nat, capacity: nat): (r: nat)
    requires capacity > 0
    ensures r >= capacity && newCount < r / 2
    decreases 2 * newCount + 2 - capacity
  {
    if newCount >= capacity / 2 then Grown(newCount, capacity * 2) else capacity
  }

  /** Without a need to double, the capacity stays; else half of the result would not be enough. */
  lemma GrownIsLeast(newCount: nat, capacity: nat)
    requires capacity > 0
    ensures Grown(newCount, capacity) == capacity || Grown(newCount, capacity) / 4 <= newCount
    decreases 2 * newCount + 2 - capacity
  {
    if newCount >= capacity / 2 {
      GrownIsLeast(newCount, capacity * 2);
    }
  }

  lemma GrownDivides(newCount: nat, capacity: nat)
    requires capacity > 0 && capacity % 4 == 0
    ensures Grown(newCount, capacity) % 4 == 0
    decreases 2 * newCount + 2 - capacity
  {
    if newCount >= capacity / 2 {
      GrownDivides(newCount, capacity * 2);
    }
  }

  predicate ThreadFits(c: Thread, tables: nat) {
    match c
    case Searching(m, j, _) => j <= m < tables
    case Migrating(m, _, _) => m < tables
    case Counting(m) => m < tables
    case Deciding(m, _) => m < tables
    case Growing(m, _) => m < tables
    case Unlocking(m, _) => m < tables
    case Checking(m, _) => m < tables
    case Inserting(m, _, _, _) => m < tables
    case _ => true
  }

  predicate Shaped(s: State) {
    && |s.threads| == |s.hash| == |s.bound| == |s.tickets|
    && s.tables != []
    && (forall j :: 0 <= j < |s.tables| ==> |s.tables[j]| > 0 && |s.tables[j]| % 4 == 0)
    && (forall t :: 0 <= t < |s.threads| ==> ThreadFits(s.threads[t], |s.tables|))
  }

  function Newest(s: State): nat
    requires s.tables != []
  {
    |s.tables[|s.tables| - 1]|
  }

  predicate Enabled(s: State, e: Event) {
    Shaped(s) && e.t < |s.threads| && (e.Call? <==> s.threads[e.t].Idle?)
  }

  function Limit(capacity: nat): nat {
    capacity / 2 + capacity / 4
  }

  function Move(s: State, t: nat, c: Thread): State
    requires t < |s.threads|
  {
    s.(threads := s.threads[t := c])
  }

  function Put(tables: seq<seq<Entry>>, j: nat, i: nat, entry: Entry): seq<seq<Entry>>
    requires j < |tables| && i < |tables[j]|
  {
    tables[j := tables[j][i := entry]]
  }

  function Apply(s: State, e: Event): State
    requires Enabled(s, e)
  {
    var t := e.t;
    if e.Call? then Move(s, t, Searching(|s.tables| - 1, |s.tables| - 1, 0)) else
    match s.threads[t]
    case Idle => s
    case Searching(m, j, n) =>
      (match s.tables[j][Slot(s.hash[t], n, |s.tables[j]|)]
       case Taken(id, value) =>
         if id != t then Move(s, t, Searching(m, j, n + 1))
         else if j != m then Move(s, t, Migrating(m, value, 0)) else Move(s, t, Idle)
       case Free => Move(s, t, if j > 0 then Searching(m, j - 1, 0) else Counting(m)))
    case Migrating(m, value, n) =>
      var i := Slot(s.hash[t], n, |s.tables[m]|);
      if s.tables[m][i].Free? then Move(s, t, Idle).(tables := Put(s.tables, m, i, Taken(t, value)))
      else Move(s, t, Migrating(m, value, n + 1))
    case Counting(m) =>
      Move(s, t, Deciding(m, s.count + 1)).(count := s.count + 1, tickets := s.tickets[t := s.count + 1])
    case Deciding(m, c) =>
      if c >= |s.tables[m]| / 2 && !s.resizing then Move(s, t, Locked(c)).(resizing := true)
      else Move(s, t, Checking(m, c))
    case Locked(c) =>
      var m := |s.tables| - 1;
      Move(s, t, if c >= |s.tables[m]| / 2 then Growing(m, c) else Unlocking(m, c))
    case Growing(m, c) =>
      Move(s, t, Unlocking(m + 1, c)).(tables := s.tables[..m + 1] + [Empty(Grown(c, |s.tables[m]| * 2))])
    case Unlocking(m, c) => Move(s, t, Checking(m, c)).(resizing := false)
    case Checking(m, c) =>
      if c < Limit(|s.tables[m]|) then Move(s, t, Inserting(m, c, e.made, 0))
      else Move(s, t, Deciding(|s.tables| - 1, c))
    case Inserting(m, c, value, n) =>
      var i := Slot(s.hash[t], n, |s.tables[m]|);
      if s.tables[m][i].Free?
      then Move(s, t, Idle).(tables := Put(s.tables, m, i, Taken(t, value)), bound := s.bound[t := Some(value)])
      else Move(s, t, Inserting(m, c, value, n + 1))
  }

  /** What the call returns if the step ends it. */
  function Answer(s: State, e: Event): Option<nat>
    requires Enabled(s, e)
  {
    match s.threads[e.t]
    case Searching(m, j, n) =>
      var entry := s.tables[j][Slot(s.hash[e.t], n, |s.tables[j]|)];
      if entry.Taken? && entry.id == e.t && j == m then Some(entry.value) else None
    case Migrating(m, value, n) =>
      if s.tables[m][Slot(s.hash[e.t], n, |s.tables[m]|)].Free? then Some(value) else None
    case Inserting(m, c, value, n) =>
      if s.tables[m][Slot(s.hash[e.t], n, |s.tables[m]|)].Free? then Some(value) else None
    case _ => None
  }

  // ---------------------------------------------------------------- the invariant

  ghost predicate Contains(table: seq<Entry>, id: nat) {
    exists i :: 0 <= i < |table| && table[i].Taken? && table[i].id == id
  }

  /** The first n slots of the probe sequence are taken. */
  ghost predicate Occupied(table: seq<Entry>, h: nat, n: nat)
    requires |table| > 0
  {
    forall d :: 0 <= d < n ==> table[Slot(h, d, |table|)].Taken?
  }

  /** Every entry can be reached from its hash without passing a free slot; no key occurs twice. */
  ghost predicate TableOk(table: seq<Entry>, hash: seq<nat>)
    requires |table| > 0
  {
    && (forall i :: 0 <= i < |table| && table[i].Taken? ==>
          table[i].id < |hash| && exists d ::
              d >= 0 && i == Slot(hash[table[i].id], d, |table|) && Occupied(table, hash[table[i].id], d))
    && (forall i, j :: 0 <= i < j < |table| && table[i].Taken? && table[j].Taken? ==> table[i].id != table[j].id)
  }

  /**
   Keys belong to threads that drew a ticket below three quarters of the capacity; values are their first producers.
   */
  ghost predicate EntriesOk(table: seq<Entry>, bound: seq<Option<nat>>, tickets: seq<nat>)
    requires |bound| == |tickets|
  {
    forall i :: 0 <= i < |table| && table[i].Taken? ==>
      var id := table[i].id;
      id < |bound| && bound[id] == Some(table[i].value) && 0 < tickets[id] < Limit(|table|)
  }

  ghost predicate TicketsOk(s: State)
    requires Shaped(s)
  {
    && (forall t :: 0 <= t < |s.tickets| ==> s.tickets[t] <= s.count)
    && (forall t, u :: 0 <= t < u < |s.tickets| && s.tickets[t] > 0 ==> s.tickets[t] != s.tickets[u])
  }

  ghost predicate ThreadOk(s: State, t: nat)
    requires Shaped(s) && t < |s.threads|
  {
    match s.threads[t]
    case Idle => s.bound[t].None? ==> s.tickets[t] == 0
    case Searching(m, j, n) =>
      && (s.bound[t].None? ==> s.tickets[t] == 0)
      && Occupied(s.tables[j], s.hash[t], n)
      && (forall d :: 0 <= d < n ==> s.tables[j][Slot(s.hash[t], d, |s.tables[j]|)].id != t)
      && (forall k :: j < k < |s.tables| ==> !Contains(s.tables[k], t))
    case Migrating(m, value, n) =>
      && s.bound[t] == Some(value) && 0 < s.tickets[t] < Limit(|s.tables[m]|)
      && Occupied(s.tables[m], s.hash[t], n) && !Contains(s.tables[m], t)
    case Counting(m) => s.bound[t].None? && s.tickets[t] == 0
    case Deciding(m, c) => s.bound[t].None? && s.tickets[t] == c > 0
    case Locked(c) => s.bound[t].None? && s.tickets[t] == c > 0
    case Growing(m, c) =>
      && s.bound[t].None? && s.tickets[t] == c > 0
      && m == |s.tables| - 1 && c >= |s.tables[m]| / 2
    case Unlocking(m, c) => s.bound[t].None? && s.tickets[t] == c > 0
    case Checking(m, c) => s.bound[t].None? && s.tickets[t] == c > 0
    case Inserting(m, c, value, n) =>
      && s.bound[t].None? && 0 < s.tickets[t] == c < Limit(|s.tables[m]|)
      && Occupied(s.tables[m], s.hash[t], n)
  }

  predicate HoldsLock(c: Thread) {
    c.Locked? || c.Growing? || c.Unlocking?
  }

  /** One thread at a time resizes. */
  ghost predicate LockOk(s: State) {
    && (forall t :: 0 <= t < |s.threads| && HoldsLock(s.threads[t]) ==> s.resizing)
    && (forall t, u :: 0 <= t < u < |s.threads| ==> !(HoldsLock(s.threads[t]) && HoldsLock(s.threads[u])))
  }

  ghost predicate Bindings(s: State) {
    forall t :: 0 <= t < |s.bound| && s.bound[t].Some? ==> exists j :: 0 <= j < |s.tables| && Contains(s.tables[j], t)
  }

  ghost predicate Inv(s: State) {
    && Shaped(s)
    && (forall j, k :: 0 <= j < k < |s.tables| ==> |s.tables[j]| < |s.tables[k]|)
    && (forall j :: 0 <= j < |s.tables| ==> TableOk(s.tables[j], s.hash))
    && (forall j :: 0 <= j < |s.tables| ==> EntriesOk(s.tables[j], s.bound, s.tickets))
    && Bindings(s)
    && TicketsOk(s)
    && LockOk(s)
    && (forall t :: 0 <= t < |s.threads| ==> ThreadOk(s, t))
  }

  // ---------------------------------------------------------------- free slots

  ghost predicate HasFreeSlot(table: seq<Entry>) {
    exists i :: 0 <= i < |table| && table[i].Free?
  }

  /** Distinct tickets below three quarters of the capacity leave a slot free in every table. */
  lemma TableHasFreeSlot(s: State, j: nat) returns (i: nat)
    requires Inv(s) && j < |s.tables|
    ensures i < |s.tables[j]| && s.tables[j][i].Free?
  {
    var table := s.tables[j];
    assert EntriesOk(table, s.bound, s.tickets) && TableOk(table, s.hash);
    if forall k :: 0 <= k < |table| ==> table[k].Taken? {
      var drawn := seq(|table|, k requires 0 <= k < |table| => s.tickets[table[k].id]);
      forall k, l | 0 <= k < l < |drawn| ensures drawn[k] != drawn[l] {
        assert table[k].id != table[l].id;
      }
      DistinctBelow(drawn, Limit(|table|));
      assert false;
    }
    i :| 0 <= i < |table| && table[i].Free?;
  }

  lemma SlotReached(h: nat, i: nat, capacity: nat) returns (d: nat)
    requires i < capacity
    ensures d < capacity && Slot(h, d, capacity) == i
  {
    var q, r := h / capacity, h % capacity;
    d := if r <= i then i - r else i + capacity - r;
    if r <= i {
      ModuloUnique(h + d, capacity, q, i);
    } else {
      assert (q + 1) * capacity == q * capacity + capacity;
      ModuloUnique(h + d, capacity, q + 1, i);
    }
  }

  /** No probe loop passes more slots than the table has: a free slot is met first. */
  lemma ProbesAreBounded(s: State, j: nat, h: nat, n: nat)
    requires Inv(s) && j < |s.tables| && Occupied(s.tables[j], h, n)
    ensures n < |s.tables[j]|
  {
    var i := TableHasFreeSlot(s, j);
    var d := SlotReached(h, i, |s.tables[j]|);
  }

  // ---------------------------------------------------------------- steps

  /** Steps that touch no table: only the lock and the thread's own place change. */
  lemma MoveKeepsInv(s: State, s': State, t: nat)
    requires Inv(s) && t < |s.threads| == |s'.threads|
    requires s' == Move(s, t, s'.threads[t]).(resizing := s'.resizing)
    requires Shaped(s') && ThreadOk(s', t) && LockOk(s')
    ensures Inv(s')
  {
    hide Occupied, TableOk, EntriesOk, LockOk;
    forall u | 0 <= u < |s'.threads| ensures ThreadOk(s', u) {
      assert ThreadOk(s, u);
    }
  }

  /** A free slot on a key's probe path means that the table lacks the key. */
  lemma FreeMeansAbsent(table: seq<Entry>, hash: seq<nat>, id: nat, n: nat)
    requires |table| > 0 && TableOk(table, hash) && id < |hash|
    requires Occupied(table, hash[id], n) && table[Slot(hash[id], n, |table|)].Free?
    requires forall d :: 0 <= d < n ==> table[Slot(hash[id], d, |table|)].id != id
    ensures !Contains(table, id)
  {
    hide Slot;
    forall i | 0 <= i < |table| && table[i].Taken? ensures table[i].id != id {
      var d :| d >= 0 && i == Slot(hash[table[i].id], d, |table|) && Occupied(table, hash[table[i].id], d);
    }
  }

  /** A thread that is in no table has no producer yet. */
  lemma AbsentMeansUnbound(s: State, t: nat)
    requires Inv(s) && t < |s.bound|
    ensures s.bound[t].None? <==> forall k :: 0 <= k < |s.tables| ==> !Contains(s.tables[k], t)
  {
    forall k | 0 <= k < |s.tables| && Contains(s.tables[k], t) ensures s.bound[t].Some? {
      assert EntriesOk(s.tables[k], s.bound, s.tickets);
    }
  }

  /** The probed slot holds the thread's own entry: its first producer. */
  lemma SearchFinds(s: State, t: nat, i: nat)
    requires Inv(s) && t < |s.threads| && s.threads[t].Searching?
    requires i < |s.tables[s.threads[t].table]| && s.tables[s.threads[t].table][i].Taken?
    requires s.tables[s.threads[t].table][i].id == t
    ensures var Searching(m, j, n) := s.threads[t];
      s.bound[t] == Some(s.tables[j][i].value) && 0 < s.tickets[t] < Limit(|s.tables[m]|)
        && (j != m ==> !Contains(s.tables[m], t))
  {
    hide TableOk;
    assert ThreadOk(s, t) && EntriesOk(s.tables[s.threads[t].table], s.bound, s.tickets);
  }

  /** The probe path ends at a free slot: the thread is in none of the tables searched so far. */
  lemma SearchMisses(s: State, t: nat)
    requires Inv(s) && t < |s.threads| && s.threads[t].Searching?
    requires s.tables[s.threads[t].table][
      Slot(s.hash[t], s.threads[t].probes, |s.tables[s.threads[t].table]|)].Free?
    ensures !Contains(s.tables[s.threads[t].table], t)
    ensures s.threads[t].table == 0 ==> s.bound[t].None?
  {
    hide Slot, EntriesOk;
    var Searching(m, j, n) := s.threads[t];
    assert ThreadOk(s, t) && TableOk(s.tables[j], s.hash);
    FreeMeansAbsent(s.tables[j], s.hash, t, n);
    if j == 0 {
      AbsentMeansUnbound(s, t);
    }
  }

  lemma SearchKeepsInv(s: State, e: Event)
    requires Inv(s) && Enabled(s, e) && s.threads[e.t].Searching?
    ensures Inv(Apply(s, e))
    ensures Answer(s, e).Some? ==> Answer(s, e) == Apply(s, e).bound[e.t]
  {
    hide Slot, TableOk, EntriesOk, Bindings, TicketsOk;
    var t, s' := e.t, Apply(s, e);
    assert ThreadOk(s, t);
    var Searching(m, j, n) := s.threads[t];
    var i := Slot(s.hash[t], n, |s.tables[j]|);
    if s.tables[j][i].Free? {
      SearchMisses(s, t);
    } else if s.tables[j][i].id == t {
      SearchFinds(s, t, i);
    }
    MoveKeepsInv(s, s', t);
  }

  /** Filling a free slot at the end of the key's probe path. */
  lemma PutKeepsTable(table: seq<Entry>, hash: seq<nat>, id: nat, n: nat, value: nat)
    requires |table| > 0 && TableOk(table, hash) && id < |hash| && !Contains(table, id)
    requires Occupied(table, hash[id], n) && table[Slot(hash[id], n, |table|)].Free?
    ensures var table' := table[Slot(hash[id], n, |table|) := Taken(id, value)];
      TableOk(table', hash) && Contains(table', id)
  {
    hide Slot;
    var slot := Slot(hash[id], n, |table|);
    var table' := table[slot := Taken(id, value)];
    assert table'[slot].id == id && Contains(table', id);
    forall i | 0 <= i < |table'| && table'[i].Taken?
      ensures table'[i].id < |hash|
      ensures exists d ::
        d >= 0 && i == Slot(hash[table'[i].id], d, |table'|) && Occupied(table', hash[table'[i].id], d)
    {
      if i == slot {
        assert Occupied(table', hash[id], n) && table'[slot].id == id;
      } else {
        var d :| d >= 0 && i == Slot(hash[table[i].id], d, |table|) && Occupied(table, hash[table[i].id], d);
        assert Occupied(table', hash[table'[i].id], d);
      }
    }
  }

  /** Other threads keep what they know when thread t adds its entry to table m. */
  lemma PutKeepsThread(s: State, s': State, t: nat, m: nat, i: nat, value: nat, u: nat)
    requires Shaped(s) && Shaped(s') && |s'.threads| == |s.threads| && t < |s.threads| && u < |s.threads| && u != t
    requires m < |s.tables| && i < |s.tables[m]| && s.tables[m][i].Free?
    requires s'.tables == Put(s.tables, m, i, Taken(t, value)) && s'.threads[u] == s.threads[u]
    requires s'.hash == s.hash && s'.tickets == s.tickets && s'.bound[u] == s.bound[u]
    requires ThreadOk(s, u)
    ensures ThreadOk(s', u)
  {
    hide Slot;
    forall k | 0 <= k < |s.tables| ensures Contains(s'.tables[k], u) <==> Contains(s.tables[k], u) {
      if Contains(s.tables[k], u) {
        var x :| 0 <= x < |s.tables[k]| && s.tables[k][x].Taken? && s.tables[k][x].id == u;
        assert s'.tables[k][x] == s.tables[k][x];
      }
    }
  }

  lemma PutKeepsBindings(s: State, s': State, t: nat, m: nat, i: nat, value: nat)
    requires Bindings(s) && |s.bound| == |s'.bound| && t < |s.bound| && m < |s.tables| && i < |s.tables[m]|
      && s.tables[m][i].Free?
    requires s'.tables == Put(s.tables, m, i, Taken(t, value)) && s'.bound == s.bound[t := Some(value)]
    ensures Bindings(s')
  {
    forall u | 0 <= u < |s'.bound| && s'.bound[u].Some?
      ensures exists j :: 0 <= j < |s'.tables| && Contains(s'.tables[j], u)
    {
      if u == t {
        assert s'.tables[m][i].id == t;
        assert Contains(s'.tables[m], t);
      } else {
        var j :| 0 <= j < |s.tables| && Contains(s.tables[j], u);
        var x :| 0 <= x < |s.tables[j]| && s.tables[j][x].Taken? && s.tables[j][x].id == u;
        assert s'.tables[j][x] == s.tables[j][x];
        assert Contains(s'.tables[j], u);
      }
    }
  }

  /** Thread t has put its entry into table m, at the end of its probe path, and is idle again. */
  ghost predicate Puts(s: State, s': State, t: nat, m: nat, n: nat, value: nat)
    requires Shaped(s)
  {
    && t < |s.threads| && m < |s.tables| && Occupied(s.tables[m], s.hash[t], n)
    && var i := Slot(s.hash[t], n, |s.tables[m]|);
    && s.tables[m][i].Free?
    && s' == Move(s, t, Idle).(tables := Put(s.tables, m, i, Taken(t, value)), bound := s.bound[t := Some(value)])
  }

  lemma PutKeepsTables(s: State, s': State, t: nat, m: nat, n: nat, value: nat)
    requires Inv(s) && Puts(s, s', t, m, n, value)
    requires !Contains(s.tables[m], t) && (s.bound[t].None? || s.bound[t] == Some(value))
    requires 0 < s.tickets[t] < Limit(|s.tables[m]|)
    ensures |s'.tables| == |s.tables| && forall j :: 0 <= j < |s'.tables| ==> |s'.tables[j]| == |s.tables[j]| > 0
    ensures forall j :: 0 <= j < |s'.tables| ==>
      TableOk(s'.tables[j], s'.hash) && EntriesOk(s'.tables[j], s'.bound, s'.tickets)
  {
    hide Slot, Occupied;
    PutKeepsTable(s.tables[m], s.hash, t, n, value);
    forall j | 0 <= j < |s'.tables|
      ensures TableOk(s'.tables[j], s'.hash) && EntriesOk(s'.tables[j], s'.bound, s'.tickets)
    {
      assert TableOk(s.tables[j], s.hash) && EntriesOk(s.tables[j], s.bound, s.tickets);
    }
  }

  lemma PutKeepsInv(s: State, s': State, t: nat, m: nat, n: nat, value: nat)
    requires Inv(s) && Puts(s, s', t, m, n, value)
    requires !Contains(s.tables[m], t) && (s.bound[t].None? || s.bound[t] == Some(value))
    requires 0 < s.tickets[t] < Limit(|s.tables[m]|)
    ensures Inv(s')
  {
    PutKeepsTables(s, s', t, m, n, value);
    hide Slot, Occupied, TableOk, EntriesOk, Contains, Bindings;
    var i := Slot(s.hash[t], n, |s.tables[m]|);
    forall u | 0 <= u < |s.threads| ensures ThreadOk(s', u) {
      if u != t {
        assert ThreadOk(s, u);
        PutKeepsThread(s, s', t, m, i, value, u);
      }
    }
    PutKeepsBindings(s, s', t, m, i, value);
  }

  lemma InsertKeepsInv(s: State, e: Event)
    requires Inv(s) && Enabled(s, e) && (s.threads[e.t].Migrating? || s.threads[e.t].Inserting?)
    ensures Inv(Apply(s, e))
    ensures Answer(s, e).Some? ==> Answer(s, e) == Apply(s, e).bound[e.t]
  {
    hide Slot, TableOk, EntriesOk;
    var t, s' := e.t, Apply(s, e);
    assert ThreadOk(s, t);
    var c := s.threads[t];
    var i := Slot(s.hash[t], c.probes, |s.tables[c.main]|);
    AbsentMeansUnbound(s, t);
    if s.tables[c.main][i].Free? {
      assert s'.bound == s.bound[t := Some(c.value)];
      PutKeepsInv(s, s', t, c.main, c.probes, c.value);
    } else {
      MoveKeepsInv(s, s', t);
    }
  }

  lemma CountKeepsInv(s: State, e: Event)
    requires Inv(s) && Enabled(s, e) && s.threads[e.t].Counting?
    ensures Inv(Apply(s, e))
  {
    hide Slot, TableOk, Occupied;
    var t, s' := e.t, Apply(s, e);
    assert ThreadOk(s, t);
    forall j | 0 <= j < |s'.tables| ensures EntriesOk(s'.tables[j], s'.bound, s'.tickets) {
      assert EntriesOk(s.tables[j], s.bound, s.tickets);
    }
    forall u | 0 <= u < |s.threads| ensures ThreadOk(s', u) {
      assert ThreadOk(s, u);
    }
  }

  /** Thread t has appended an empty table, larger than the others, and still holds the lock. */
  ghost predicate Grew(s: State, s': State, t: nat) {
    && t < |s.threads| == |s'.threads| && s.tables != []
    && |s'.tables| == |s.tables| + 1 && s'.tables[..|s.tables|] == s.tables
    && |s'.tables[|s.tables|]| > |s.tables[|s.tables| - 1]| && |s'.tables[|s.tables|]| % 4 == 0
    && (forall i :: 0 <= i < |s'.tables[|s.tables|]| ==> s'.tables[|s.tables|][i].Free?)
    && s.threads[t].Growing? && s'.threads[t] == Unlocking(|s.tables|, s.threads[t].newCount)
    && s' == Move(s, t, s'.threads[t]).(tables := s'.tables)
  }

  lemma GrowKeepsThread(s: State, s': State, t: nat, u: nat)
    requires Shaped(s) && Grew(s, s', t) && Shaped(s') && LockOk(s) && u < |s.threads| && u != t && ThreadOk(s, u)
    ensures ThreadOk(s', u)
  {
    hide Slot;
    assert !HoldsLock(s.threads[u]);
    assert forall j :: 0 <= j < |s.tables| ==> s'.tables[j] == s.tables[j];
  }

  lemma GrowKeepsBindings(s: State, s': State)
    requires Bindings(s) && s'.bound == s.bound
    requires |s'.tables| == |s.tables| + 1 && s'.tables[..|s.tables|] == s.tables
    ensures Bindings(s')
  {
    forall u | 0 <= u < |s.bound| && s.bound[u].Some?
      ensures exists j :: 0 <= j < |s'.tables| && Contains(s'.tables[j], u)
    {
      var j :| 0 <= j < |s.tables| && Contains(s.tables[j], u);
      assert s'.tables[j] == s.tables[j];
    }
  }

  lemma GrowKeepsTables(s: State, s': State, t: nat)
    requires Inv(s) && Grew(s, s', t)
    ensures Shaped(s') && Bindings(s')
    ensures forall j :: 0 <= j < |s'.tables| ==>
      TableOk(s'.tables[j], s'.hash) && EntriesOk(s'.tables[j], s'.bound, s'.tickets)
    ensures forall j, k :: 0 <= j < k < |s'.tables| ==> |s'.tables[j]| < |s'.tables[k]|
  {
    hide Slot, TicketsOk, Occupied, LockOk, ThreadOk;
    var n := |s.tables|;
    forall j | 0 <= j < |s'.tables|
      ensures |s'.tables[j]| > 0 && |s'.tables[j]| % 4 == 0
      ensures TableOk(s'.tables[j], s'.hash) && EntriesOk(s'.tables[j], s'.bound, s'.tickets)
    {
      assert j < n ==>
          s'.tables[j] == s.tables[j] && TableOk(s.tables[j], s.hash) && EntriesOk(s.tables[j], s.bound, s.tickets);
    }
    forall j, k | 0 <= j < k < |s'.tables| ensures |s'.tables[j]| < |s'.tables[k]| {
      assert s'.tables[j] == s.tables[j];
      assert k < n ==> s'.tables[k] == s.tables[k];
    }
    GrowKeepsBindings(s, s');
  }

  lemma GrewKeepsInv(s: State, s': State, t: nat)
    requires Inv(s) && Grew(s, s', t)
    ensures Inv(s')
  {
    hide Slot, Occupied, TableOk, EntriesOk, Bindings;
    assert ThreadOk(s, t);
    GrowKeepsTables(s, s', t);
    forall u | 0 <= u < |s.threads| ensures ThreadOk(s', u) {
      if u != t {
        GrowKeepsThread(s, s', t, u);
      }
    }
  }

  lemma GrowingGrows(s: State, e: Event)
    requires Shaped(s) && Enabled(s, e) && s.threads[e.t].Growing? && s.threads[e.t].main == |s.tables| - 1
    ensures Grew(s, Apply(s, e), e.t)
  {
    GrownDivides(s.threads[e.t].newCount, |s.tables[|s.tables| - 1]| * 2);
  }

  lemma GrowKeepsInv(s: State, e: Event)
    requires Inv(s) && Enabled(s, e) && s.threads[e.t].Growing?
    ensures Inv(Apply(s, e))
  {
    assert ThreadOk(s, e.t);
    hide Inv, Slot, TableOk, EntriesOk, Bindings, TicketsOk, LockOk, ThreadOk, Grew, Apply;
    GrowingGrows(s, e);
    GrewKeepsInv(s, Apply(s, e), e.t);
  }

  /** Starting a call, the decision whether to resize, and taking and giving back the lock. */
  lemma LocalStepKeepsInv(s: State, e: Event)
    requires Inv(s) && Enabled(s, e)
    requires s.threads[e.t].Idle? || s.threads[e.t].Deciding? || s.threads[e.t].Locked? || s.threads[e.t].Unlocking?
      || s.threads[e.t].Checking?
    ensures Inv(Apply(s, e))
  {
    hide Slot, TableOk, EntriesOk, Bindings, TicketsOk;
    assert ThreadOk(s, e.t);
    MoveKeepsInv(s, Apply(s, e), e.t);
  }

  lemma ApplyKeepsThreads(s: State, e: Event)
    requires Enabled(s, e)
    ensures |Apply(s, e).bound| == |s.bound| == |s.threads|
  {
  }

  lemma StepKeepsInv(s: State, e: Event)
    requires Inv(s) && Enabled(s, e)
    ensures Inv(Apply(s, e)) && e.t < |Apply(s, e).bound|
    ensures Answer(s, e).Some? ==> Answer(s, e) == Apply(s, e).bound[e.t]
  {
    hide Inv, Apply;
    ApplyKeepsThreads(s, e);
    var c := s.threads[e.t];
    if c.Searching? {
      SearchKeepsInv(s, e);
    } else if c.Migrating? || c.Inserting? {
      InsertKeepsInv(s, e);
    } else if c.Counting? {
      CountKeepsInv(s, e);
    } else if c.Growing? {
      GrowKeepsInv(s, e);
    } else {
      LocalStepKeepsInv(s, e);
    }
  }

  // ---------------------------------------------------------------- runs

  lemma InitInv(hash: seq<nat>)
    ensures Inv(Init(hash))
  {
  }

  /** A run of es by any number of threads, in any interleaving. */
  ghost predicate Run(ss: seq<State>, es: seq<Event>) {
    && |ss| == |es| + 1
    && (exists hash :: ss[0] == Init(hash))
    && (forall i :: 0 <= i < |es| ==> Enabled(ss[i], es[i]) && ss[i + 1] == Apply(ss[i], es[i]))
  }

  lemma {:induction false} RunKeepsInv(ss: seq<State>, es: seq<Event>, i: nat)
    requires Run(ss, es) && i < |ss|
    ensures Inv(ss[i])
  {
    hide Inv;
    if i == 0 {
      var hash :| ss[0] == Init(hash);
      InitInv(hash);
    } else {
      RunKeepsInv(ss, es, i - 1);
      StepKeepsInv(ss[i - 1], es[i - 1]);
    }
  }

  /** In every reachable state, the tables together are the map from threads to their first producers. */
  lemma TablesAreTheMap(ss: seq<State>, es: seq<Event>, i: nat, t: nat, value: nat)
    requires Run(ss, es) && i < |ss| && t < |ss[i].bound|
    ensures ss[i].bound[t] == Some(value)
      <==> exists j, k :: 0 <= j < |ss[i].tables| && 0 <= k < |ss[i].tables[j]| && ss[i].tables[j][k] == Taken(t, value)
  {
    RunKeepsInv(ss, es, i);
    var s := ss[i];
    if s.bound[t] == Some(value) {
      var j :| 0 <= j < |s.tables| && Contains(s.tables[j], t);
      var k :| 0 <= k < |s.tables[j]| && s.tables[j][k].Taken? && s.tables[j][k].id == t;
      assert EntriesOk(s.tables[j], s.bound, s.tickets);
      assert s.tables[j][k] == Taken(t, value);
    }
    forall j, k | 0 <= j < |s.tables| && 0 <= k < |s.tables[j]| && s.tables[j][k] == Taken(t, value)
      ensures s.bound[t] == Some(value)
    {
      assert EntriesOk(s.tables[j], s.bound, s.tickets);
    }
  }

  /** In every reachable state, every table has a free slot and no probe loop has passed as many slots as there are. */
  lemma ProbeLoopsEnd(ss: seq<State>, es: seq<Event>, i: nat, t: nat)
    requires Run(ss, es) && i < |ss| && t < |ss[i].threads|
    ensures forall j :: 0 <= j < |ss[i].tables| ==> HasFreeSlot(ss[i].tables[j])
    ensures Shaped(ss[i])
    ensures match ss[i].threads[t]
      case Searching(_, j, n) => n < |ss[i].tables[j]|
      case Migrating(m, _, n) => n < |ss[i].tables[m]|
      case Inserting(m, _, _, n) => n < |ss[i].tables[m]|
      case _ => true
  {
    RunKeepsInv(ss, es, i);
    var s := ss[i];
    forall j | 0 <= j < |s.tables| ensures HasFreeSlot(s.tables[j]) {
      var k := TableHasFreeSlot(s, j);
    }
    assert ThreadOk(s, t);
    match s.threads[t]
    case Searching(_, j, n) => ProbesAreBounded(s, j, s.hash[t], n);
    case Migrating(m, _, n) => ProbesAreBounded(s, m, s.hash[t], n);
    case Inserting(m, _, _, n) => ProbesAreBounded(s, m, s.hash[t], n);
    case _ =>
  }

  /** A table is added only when the count has reached half of the newest; the new one is more than twice the count. */
  lemma TablesGrowAsNeeded(ss: seq<State>, es: seq<Event>, i: nat)
    requires Run(ss, es) && i < |es| && |ss[i + 1].tables| != |ss[i].tables|
    ensures var s, s', t := ss[i], ss[i + 1], es[i].t;
      && s.tables != [] && s'.tables != [] && t < |s.tickets|
      && |s'.tables| == |s.tables| + 1 && s'.tables[..|s.tables|] == s.tables
      && Newest(s) <= 2 * s.tickets[t] + 1
      && 2 * s.tickets[t] < Newest(s') && (Newest(s') == 2 * Newest(s) || Newest(s') <= 4 * s.tickets[t] + 3)
  {
    RunKeepsInv(ss, es, i);
    var s, t := ss[i], es[i].t;
    assert ThreadOk(s, t) && Newest(s) % 4 == 0;
    hide Inv, Run, Slot, TableOk, EntriesOk, Bindings, TicketsOk, LockOk, Occupied;
    assert s.threads[t].Growing?;
    GrownIsLeast(s.threads[t].newCount, 2 * Newest(s));
  }

  lemma StepKeepsBound(s: State, e: Event, t: nat)
    requires Inv(s) && Enabled(s, e) && t < |s.bound| && s.bound[t].Some?
    ensures |Apply(s, e).bound| == |s.bound| && Apply(s, e).bound[t] == s.bound[t]
  {
    hide Slot, TableOk, EntriesOk, Bindings, TicketsOk, LockOk;
    assert ThreadOk(s, e.t);
  }

  lemma {:induction false} RunKeepsBound(ss: seq<State>, es: seq<Event>, i: nat, k: nat, t: nat)
    requires Run(ss, es) && i <= k < |ss| && t < |ss[i].bound| && ss[i].bound[t].Some?
    ensures t < |ss[k].bound| && ss[k].bound[t] == ss[i].bound[t]
  {
    hide Inv, Apply;
    if i < k {
      RunKeepsBound(ss, es, i, k - 1, t);
      RunKeepsInv(ss, es, k - 1);
      StepKeepsBound(ss[k - 1], es[k - 1], t);
    }
  }

  /** All calls of one thread return the same producer, through migrations and resizes by any thread. */
  lemma CallsAgree(ss: seq<State>, es: seq<Event>, i: nat, k: nat)
    requires Run(ss, es) && i < k < |es| && es[i].t == es[k].t
    requires Answer(ss[i], es[i]).Some? && Answer(ss[k], es[k]).Some?
    ensures Answer(ss[i], es[i]) == Answer(ss[k], es[k])
  {
    hide Inv, Apply, Answer;
    RunKeepsInv(ss, es, i);
    StepKeepsInv(ss[i], es[i]);
    RunKeepsInv(ss, es, k);
    StepKeepsInv(ss[k], es[k]);
    RunKeepsBound(ss, es, i + 1, k + 1, es[i].t);
  }

  /** The flag changes with the thread that takes or gives back the lock. */
  lemma StepMovesLock(s: State, e: Event)
    requires Shaped(s) && Enabled(s, e)
    ensures var s', t := Apply(s, e), e.t;
      && s'.threads == s.threads[t := s'.threads[t]]
      && (s'.resizing ==> s.resizing || HoldsLock(s'.threads[t]))
      && (HoldsLock(s.threads[t]) && s'.resizing ==> HoldsLock(s'.threads[t]) || !s.threads[t].Unlocking?)
      && (s.threads[t].Unlocking? ==> !s'.resizing)
      && (s.threads[t].Locked? || s.threads[t].Growing? ==> HoldsLock(s'.threads[t]))
  {
    hide Slot;
  }

  /** In every reachable state the flag is set exactly while some thread resizes. */
  lemma {:induction false} FlagIsHeld(ss: seq<State>, es: seq<Event>, i: nat)
    requires Run(ss, es) && i < |ss|
    ensures ss[i].resizing <==> exists t :: 0 <= t < |ss[i].threads| && HoldsLock(ss[i].threads[t])
  {
    hide Slot, TableOk, EntriesOk, Bindings, TicketsOk, ThreadOk, Apply;
    RunKeepsInv(ss, es, i);
    if i > 0 {
      FlagIsHeld(ss, es, i - 1);
      var s, s', t := ss[i - 1], ss[i], es[i - 1].t;
      StepMovesLock(s, es[i - 1]);
      if s'.resizing && !HoldsLock(s'.threads[t]) {
        var u :| 0 <= u < |s.threads| && HoldsLock(s.threads[u]);
        assert s'.threads[u] == s.threads[u];
      }
    }
  }

  // ---------------------------------------------------------------- a call that runs alone

  /** k steps of thread t, or as many as its call takes, while the others stand still. */
  function Alone(s: State, t: nat, made: nat, k: nat): State
    decreases k
  {
    if k == 0 || !Enabled(s, Step(t, made)) then s else Alone(Apply(s, Step(t, made)), t, made, k - 1)
  }

  /** The count that thread t has drawn or, if it has drawn none in this call, would draw next. */
  function Ticket(s: State, t: nat): nat
    requires t < |s.threads|
  {
    match s.threads[t]
    case Idle => s.count + 1
    case Searching(_, _, _) => s.count + 1
    case Migrating(_, _, _) => s.count + 1
    case Counting(_) => s.count + 1
    case Deciding(_, c) => c
    case Locked(c) => c
    case Growing(_, c) => c
    case Unlocking(_, c) => c
    case Checking(_, c) => c
    case Inserting(_, c, _, _) => c
  }

  /** Another thread than t holds the lock. */
  predicate LockedOut(s: State, t: nat)
    requires t < |s.threads|
  {
    s.resizing && !HoldsLock(s.threads[t])
  }

  /** Thread t needs a larger table than there is while another thread resizes. */
  predicate Waits(s: State, t: nat)
    requires Shaped(s) && t < |s.threads|
  {
    && LockedOut(s, t)
    && s.bound[t].None? && !s.threads[t].Inserting? && Ticket(s, t) >= Limit(Newest(s))
  }

  /** The stages of a call, counted from its end. */
  function Stage(s: State, c: Thread): nat
    requires Shaped(s) && ThreadFits(c, |s.tables|)
  {
    match c
    case Idle => 0
    case Migrating(_, _, _) => 1
    case Inserting(_, _, _, _) => 1
    case Checking(m, n) => if n < Limit(|s.tables[m]|) then 2 else 7
    case Unlocking(m, n) => if n < Limit(|s.tables[m]|) then 3 else 8
    case Growing(_, _) => 4
    case Locked(_) => 5
    case Deciding(m, n) => if n < Limit(|s.tables[m]|) || m == |s.tables| - 1 then 6 else 8
    case Counting(_) => 9
    case Searching(_, _, _) => 10
  }

  function TablesLeft(c: Thread): nat {
    if c.Searching? then c.table else 0
  }

  function SlotsLeft(s: State, c: Thread): int
    requires Shaped(s) && ThreadFits(c, |s.tables|)
  {
    match c
    case Searching(_, j, n) => |s.tables[j]| - n
    case Migrating(m, _, n) => |s.tables[m]| - n
    case Inserting(m, _, _, n) => |s.tables[m]| - n
    case _ => 0
  }

  ghost predicate Closer(s: State, s': State, t: nat)
    requires Shaped(s) && Shaped(s') && t < |s.threads| == |s'.threads|
  {
    var c, c' := s.threads[t], s'.threads[t];
    || Stage(s', c') < Stage(s, c)
    || (Stage(s', c') == Stage(s, c) && TablesLeft(c') < TablesLeft(c))
    || (Stage(s', c') == Stage(s, c) && TablesLeft(c') == TablesLeft(c) && SlotsLeft(s', c') < SlotsLeft(s, c))
  }

  lemma LookupComesCloser(s: State, t: nat, made: nat)
    requires Inv(s) && Enabled(s, Step(t, made)) && !Waits(s, t)
    requires var c := s.threads[t]; c.Searching? || c.Migrating? || c.Inserting? || c.Counting?
    requires Shaped(Apply(s, Step(t, made))) && |Apply(s, Step(t, made)).threads| == |s.threads|
    ensures Closer(s, Apply(s, Step(t, made)), t) && !Waits(Apply(s, Step(t, made)), t)
  {
    hide Slot, Inv, TableOk, EntriesOk, Bindings, TicketsOk, Occupied;
  }

  lemma ResizeComesCloser(s: State, t: nat, made: nat)
    requires Inv(s) && Enabled(s, Step(t, made)) && HoldsLock(s.threads[t])
    requires Shaped(Apply(s, Step(t, made))) && |Apply(s, Step(t, made)).threads| == |s.threads|
    ensures Closer(s, Apply(s, Step(t, made)), t) && !Waits(Apply(s, Step(t, made)), t)
  {
    hide Slot, TableOk, EntriesOk, Bindings, TicketsOk, Occupied;
    assert ThreadOk(s, t);
  }

  lemma DecisionComesCloser(s: State, t: nat, made: nat)
    requires Inv(s) && Enabled(s, Step(t, made)) && !Waits(s, t)
    requires s.threads[t].Deciding? || s.threads[t].Checking?
    requires Shaped(Apply(s, Step(t, made))) && |Apply(s, Step(t, made)).threads| == |s.threads|
    ensures Closer(s, Apply(s, Step(t, made)), t) && !Waits(Apply(s, Step(t, made)), t)
  {
    hide Slot, TableOk, EntriesOk, Bindings, TicketsOk, LockOk, Occupied, Contains, Grown;
    assert ThreadOk(s, t);
  }

  lemma StepComesCloser(s: State, t: nat, made: nat)
    requires Inv(s) && Enabled(s, Step(t, made)) && !Waits(s, t)
    ensures Shaped(Apply(s, Step(t, made))) && |Apply(s, Step(t, made)).threads| == |s.threads|
    ensures Closer(s, Apply(s, Step(t, made)), t) && !Waits(Apply(s, Step(t, made)), t)
  {
    StepKeepsInv(s, Step(t, made));
    ApplyKeepsThreads(s, Step(t, made));
    hide Apply, Waits, Closer;
    var c := s.threads[t];
    if c.Searching? || c.Migrating? || c.Inserting? || c.Counting? {
      LookupComesCloser(s, t, made);
    } else if HoldsLock(c) {
      ResizeComesCloser(s, t, made);
    } else {
      DecisionComesCloser(s, t, made);
    }
  }

  lemma SlotsAreLeft(s: State, t: nat)
    requires Inv(s) && t < |s.threads|
    ensures SlotsLeft(s, s.threads[t]) >= 0
  {
    hide TableOk, EntriesOk, Bindings, TicketsOk, LockOk;
    assert ThreadOk(s, t);
    match s.threads[t]
    case Searching(_, j, n) => ProbesAreBounded(s, j, s.hash[t], n);
    case Migrating(m, _, n) => ProbesAreBounded(s, m, s.hash[t], n);
    case Inserting(m, _, _, n) => ProbesAreBounded(s, m, s.hash[t], n);
    case _ =>
  }

  /** The producer that thread t is to get: its first one or, if it has none, the one that is made for it. */
  function Producer(s: State, t: nat, made: nat): nat
    requires t < |s.threads| == |s.bound|
  {
    if s.bound[t].Some? then s.bound[t].value else
    if s.threads[t].Inserting? then s.threads[t].value else made
  }

  /** Thread t has returned with a producer; nothing else has happened to any thread or to their locks. */
  ghost predicate Returned(s: State, s': State, t: nat, producer: nat) {
    && t < |s.threads| == |s.bound|
    && s'.threads == s.threads[t := Idle] && s'.bound == s.bound[t := Some(producer)]
    && s'.hash == s.hash && s'.resizing == LockedOut(s, t)
  }

  /** A step leads on towards the same producer, or returns it. */
  ghost predicate LeadsOn(s: State, s': State, t: nat, made: nat, answer: Option<nat>) {
    && t < |s.threads| == |s'.threads| == |s.bound| == |s'.bound|
    && if s'.threads[t].Idle? then
         Returned(s, s', t, Producer(s, t, made)) && answer == Some(Producer(s, t, made))
       else
         && s'.threads == s.threads[t := s'.threads[t]] && s'.bound == s.bound && s'.hash == s.hash
         && LockedOut(s', t) == LockedOut(s, t)
         && Producer(s', t, made) == Producer(s, t, made)
  }

  lemma SearchLeadsOn(s: State, t: nat, made: nat)
    requires Inv(s) && Enabled(s, Step(t, made)) && s.threads[t].Searching?
    ensures LeadsOn(s, Apply(s, Step(t, made)), t, made, Answer(s, Step(t, made)))
  {
    hide Inv, TableOk, EntriesOk, ThreadOk, Bindings, TicketsOk;
    var c := s.threads[t];
    var i := Slot(s.hash[t], c.probes, |s.tables[c.table]|);
    if s.tables[c.table][i].Taken? && s.tables[c.table][i].id == t {
      SearchFinds(s, t, i);
    }
    hide Slot;
    assert s.threads[t := Idle][t].Idle?;
  }

  lemma InsertLeadsOn(s: State, t: nat, made: nat)
    requires Inv(s) && Enabled(s, Step(t, made)) && (s.threads[t].Migrating? || s.threads[t].Inserting?)
    ensures LeadsOn(s, Apply(s, Step(t, made)), t, made, Answer(s, Step(t, made)))
  {
    assert ThreadOk(s, t);
    hide Slot, Inv, Occupied, Contains;
    assert s.threads[t := Idle][t].Idle?;
  }

  lemma StepLeadsOn(s: State, t: nat, made: nat)
    requires Inv(s) && Enabled(s, Step(t, made))
    ensures LeadsOn(s, Apply(s, Step(t, made)), t, made, Answer(s, Step(t, made)))
  {
    if s.threads[t].Searching? {
      SearchLeadsOn(s, t, made);
    } else if s.threads[t].Migrating? || s.threads[t].Inserting? {
      InsertLeadsOn(s, t, made);
    } else {
      hide Slot, TableOk, EntriesOk, Bindings, TicketsOk, Occupied, Contains, Grown;
      assert ThreadOk(s, t);
    }
  }

  /** Thread t alone returns the producer with its step number k, counted from zero. */
  ghost predicate EndsWith(s: State, t: nat, made: nat, k: nat, producer: nat) {
    && Enabled(Alone(s, t, made, k), Step(t, made))
    && Answer(Alone(s, t, made, k), Step(t, made)) == Some(producer)
    && Returned(s, Alone(s, t, made, k + 1), t, producer)
  }

  lemma EndsLater(s: State, t: nat, made: nat, k: nat, producer: nat)
    requires Enabled(s, Step(t, made)) && t < |s.threads| == |s.bound|
    requires var s' := Apply(s, Step(t, made));
      && EndsWith(s', t, made, k, producer)
      && s'.threads == s.threads[t := s'.threads[t]] && s'.bound == s.bound && s'.hash == s.hash
      && LockedOut(s', t) == LockedOut(s, t)
    ensures EndsWith(s, t, made, k + 1, producer)
  {
    hide Apply, Answer, Enabled;
    var s' := Apply(s, Step(t, made));
    assert Alone(s, t, made, k + 1) == Alone(s', t, made, k);
    assert Alone(s, t, made, k + 2) == Alone(s', t, made, k + 1);
  }

  lemma EndsNow(s: State, t: nat, made: nat, producer: nat)
    requires Enabled(s, Step(t, made)) && Answer(s, Step(t, made)) == Some(producer)
    requires Returned(s, Apply(s, Step(t, made)), t, producer)
    ensures EndsWith(s, t, made, 0, producer)
  {
    hide Apply, Answer, Enabled, Returned;
    assert Alone(s, t, made, 1) == Alone(Apply(s, Step(t, made)), t, made, 0);
  }

  /** A call that does not wait, left alone anywhere, returns the producer. */
  lemma {:induction false} SoloCallEnds(s: State, t: nat, made: nat) returns (k: nat)
    requires Inv(s) && t < |s.threads| && !s.threads[t].Idle? && !Waits(s, t)
    ensures EndsWith(s, t, made, k, Producer(s, t, made))
    decreases Stage(s, s.threads[t]), TablesLeft(s.threads[t]), SlotsLeft(s, s.threads[t])
  {
    var e := Step(t, made);
    var s' := Apply(s, e);
    StepComesCloser(s, t, made);
    StepLeadsOn(s, t, made);
    StepKeepsInv(s, e);
    SlotsAreLeft(s, t);
    SlotsAreLeft(s', t);
    hide Inv, Apply, Answer, Waits, Shaped, EndsWith, Alone, Producer, Stage, SlotsLeft, TablesLeft, LockedOut;
    if s'.threads[t].Idle? {
      k := 0;
      EndsNow(s, t, made, Producer(s, t, made));
    } else {
      k := SoloCallEnds(s', t, made);
      EndsLater(s, t, made, k, Producer(s, t, made));
      k := k + 1;
    }
  }

  /**
   Thread t has, or is about to draw, ticket c, and whatever it has done about the size of the newest table is done.
   */
  ghost predicate MakesRoom(s: State, t: nat, c: nat)
    requires Shaped(s) && t < |s.threads|
  {
    match s.threads[t]
    case Idle => 2 * c < Newest(s)
    case Migrating(_, _, _) => false
    case Unlocking(_, _) => !LockedOut(s, t) && Ticket(s, t) == c && 2 * c < Newest(s)
    case Checking(_, _) => !LockedOut(s, t) && Ticket(s, t) == c && 2 * c < Newest(s)
    case Inserting(_, _, _, _) => !LockedOut(s, t) && Ticket(s, t) == c && 2 * c < Newest(s)
    case _ => !LockedOut(s, t) && Ticket(s, t) == c
  }

  lemma SearchMakesRoom(s: State, t: nat, made: nat, c: nat)
    requires Inv(s) && Enabled(s, Step(t, made)) && MakesRoom(s, t, c) && s.bound[t].None?
    requires s.threads[t].Searching? && Shaped(Apply(s, Step(t, made))) && t < |Apply(s, Step(t, made)).threads|
    ensures MakesRoom(Apply(s, Step(t, made)), t, c)
  {
    hide Inv, TableOk, EntriesOk, ThreadOk, Bindings, TicketsOk;
    var x := s.threads[t];
    var i := Slot(s.hash[t], x.probes, |s.tables[x.table]|);
    if s.tables[x.table][i].Taken? && s.tables[x.table][i].id == t {
      SearchFinds(s, t, i);
      assert false;
    }
  }

  /** What the invariant says about the table that a thread decides on, and about the lock. */
  ghost predicate Decides(s: State, t: nat)
    requires Shaped(s) && t < |s.threads|
  {
    && (s.threads[t].Deciding? ==> |s.tables[s.threads[t].main]| <= Newest(s))
    && (s.threads[t].Growing? ==> s.threads[t].main == |s.tables| - 1)
    && (HoldsLock(s.threads[t]) ==> s.resizing)
  }

  lemma ThreadDecides(s: State, t: nat)
    requires Inv(s) && t < |s.threads|
    ensures Decides(s, t)
  {
    hide Occupied, Contains, TableOk, EntriesOk, Bindings, TicketsOk;
    assert ThreadOk(s, t);
  }

  lemma ResizeMakesRoom(s: State, t: nat, made: nat, c: nat)
    requires Enabled(s, Step(t, made)) && MakesRoom(s, t, c) && Decides(s, t)
    requires var x := s.threads[t]; x.Deciding? || x.Checking? || x.Inserting? || x.Counting? || HoldsLock(x)
    requires Shaped(Apply(s, Step(t, made))) && t < |Apply(s, Step(t, made)).threads|
    ensures MakesRoom(Apply(s, Step(t, made)), t, c)
  {
    hide Slot;
  }

  lemma StepMakesRoom(s: State, t: nat, made: nat, c: nat)
    requires Inv(s) && Enabled(s, Step(t, made)) && MakesRoom(s, t, c) && s.bound[t].None?
    ensures Shaped(Apply(s, Step(t, made))) && t < |Apply(s, Step(t, made)).threads|
    ensures MakesRoom(Apply(s, Step(t, made)), t, c)
  {
    StepKeepsInv(s, Step(t, made));
    ThreadDecides(s, t);
    assert !s.threads[t].Migrating? && !s.threads[t].Idle?;
    hide Apply, MakesRoom, Decides;
    if s.threads[t].Searching? {
      SearchMakesRoom(s, t, made, c);
    } else {
      ResizeMakesRoom(s, t, made, c);
    }
  }

  /** A call that draws its ticket alone leaves a newest table of more than twice the ticket. */
  lemma {:induction false} AloneMakesRoom(s: State, t: nat, made: nat, k: nat, c: nat)
    requires Inv(s) && t < |s.threads| && MakesRoom(s, t, c) && (s.threads[t].Idle? || s.bound[t].None?)
    ensures var r := Alone(s, t, made, k);
      Shaped(r) && t < |r.threads| && (r.threads[t].Idle? ==> 2 * c < Newest(r))
    decreases k
  {
    assert Shaped(s);
    if k > 0 && Enabled(s, Step(t, made)) {
      StepMakesRoom(s, t, made, c);
      StepKeepsInv(s, Step(t, made));
      StepLeadsOn(s, t, made);
      hide Inv, Apply, MakesRoom, Answer;
      AloneMakesRoom(Apply(s, Step(t, made)), t, made, k - 1, c);
    }
  }

  lemma {:induction false} AloneKeepsTables(s: State, t: nat, made: nat, k: nat)
    requires Inv(s)
    ensures Alone(s, t, made, k).tables != []
    decreases k
  {
    assert Shaped(s);
    if k > 0 && Enabled(s, Step(t, made)) {
      StepKeepsInv(s, Step(t, made));
      hide Inv, Apply;
      AloneKeepsTables(Apply(s, Step(t, made)), t, made, k - 1);
    }
  }

  lemma WaitingStays(s: State, t: nat, made: nat)
    requires Inv(s) && Enabled(s, Step(t, made)) && Waits(s, t)
    ensures Shaped(Apply(s, Step(t, made))) && t < |Apply(s, Step(t, made)).threads|
    ensures Waits(Apply(s, Step(t, made)), t) && !Apply(s, Step(t, made)).threads[t].Idle?
  {
    hide Slot, TableOk, EntriesOk, Bindings, TicketsOk, LockOk, Occupied, Contains;
    assert ThreadOk(s, t);
    StepLeadsOn(s, t, made);
    StepKeepsInv(s, Step(t, made));
    var c := s.threads[t];
    if c.Searching? {
      var i := Slot(s.hash[t], c.probes, |s.tables[c.table]|);
      if s.tables[c.table][i].Taken? && s.tables[c.table][i].id == t {
        SearchFinds(s, t, i);
      }
    }
  }

  lemma {:induction false} WaitsForever(s: State, t: nat, made: nat, k: nat)
    requires Inv(s) && t < |s.threads| && Waits(s, t) && !s.threads[t].Idle?
    ensures t < |Alone(s, t, made, k).threads| && !Alone(s, t, made, k).threads[t].Idle?
    decreases k
  {
    hide Inv, Apply, Waits;
    if k > 0 && Enabled(s, Step(t, made)) {
      WaitingStays(s, t, made);
      StepKeepsInv(s, Step(t, made));
      WaitsForever(Apply(s, Step(t, made)), t, made, k - 1);
    }
  }

  /** How a call of thread t that runs alone from s on ends, if it ends. */
  ghost predicate CallEnds(s: State, t: nat, made: nat, k: nat)
    requires Enabled(s, Call(t)) && t < |s.bound|
  {
    var s1 := Apply(s, Call(t));
    var s' := Alone(s1, t, made, k + 1);
    && EndsWith(s1, t, made, k, if s.bound[t].Some? then s.bound[t].value else made)
    && s'.tables != [] && (s.bound[t].None? && !s.resizing ==> 2 * (s.count + 1) < Newest(s'))
  }

  lemma EndsIdle(s: State, t: nat, made: nat, k: nat, producer: nat)
    requires EndsWith(s, t, made, k, producer)
    ensures var r := Alone(s, t, made, k + 1); t < |r.threads| && r.threads[t].Idle?
  {
    hide Alone, Apply, Answer;
  }

  lemma CallStarts(s: State, t: nat, made: nat)
    requires Shaped(s) && Inv(s) && Enabled(s, Call(t)) && t < |s.bound| == |s.threads|
    ensures var s1 := Apply(s, Call(t));
      && Inv(s1) && Shaped(s1) && t < |s1.threads| && |s1.threads| == |s1.bound| && !s1.threads[t].Idle?
      && (Waits(s1, t) <==> Waits(s, t))
      && s1.bound == s.bound && Producer(s1, t, made) == (if s.bound[t].Some? then s.bound[t].value else made)
      && (s.bound[t].None? && !s.resizing ==> MakesRoom(s1, t, s.count + 1))
  {
    StepKeepsInv(s, Call(t));
    hide Inv;
  }

  lemma SoloCall(s: State, t: nat, made: nat) returns (k: nat)
    requires Shaped(s) && Inv(s) && Enabled(s, Call(t)) && t < |s.bound| == |s.threads| && !Waits(s, t)
    ensures CallEnds(s, t, made, k)
  {
    hide Inv, Apply, Waits, MakesRoom, Alone, EndsWith, Shaped, Producer, Enabled;
    CallStarts(s, t, made);
    var s1 := Apply(s, Call(t));
    k := SoloCallEnds(s1, t, made);
    AloneKeepsTables(s1, t, made, k + 1);
    if s.bound[t].None? && !s.resizing {
      AloneMakesRoom(s1, t, made, k + 1, s.count + 1);
      EndsIdle(s1, t, made, k, Producer(s1, t, made));
    }
  }

  /** A thread that is idle may call, and its call will wait if three quarters of the newest table are given away. */
  lemma MayCall(s: State, t: nat)
    requires Inv(s) && t < |s.threads| && s.threads[t].Idle?
    ensures Shaped(s) && s.tables != [] && Enabled(s, Call(t)) && t < |s.bound| == |s.threads|
    ensures Waits(s, t) <==> s.resizing && s.bound[t].None? && 4 * (s.count + 1) >= 3 * Newest(s)
  {
    assert Newest(s) % 4 == 0;
  }

  /**
   Wherever the other threads have stopped, a call that runs alone returns the thread's first producer, or the one made
   for it if it has none yet, unless it waits: it never returns exactly if the thread has no producer, three quarters of
   the newest table are given away, and another thread stands still while it resizes. If none does, the newest table is
   in the end more than twice as large as the count of producers.
   */
  lemma SoloCallIsExact(ss: seq<State>, es: seq<Event>, i: nat, t: nat, made: nat)
    requires Run(ss, es) && i < |ss| && t < |ss[i].threads| && ss[i].threads[t].Idle?
    ensures Enabled(ss[i], Call(t)) && t < |ss[i].bound|
    ensures
      var s := ss[i];
      var s1 := Apply(s, Call(t));
      if s.resizing && s.bound[t].None? && 4 * (s.count + 1) >= 3 * Newest(s) then
        forall k: nat :: t < |Alone(s1, t, made, k).threads| && !Alone(s1, t, made, k).threads[t].Idle?
      else
        exists k: nat :: CallEnds(s, t, made, k)
  {
    RunKeepsInv(ss, es, i);
    var s := ss[i];
    MayCall(s, t);
    hide *;
    CallStarts(s, t, made);
    var s1 := Apply(s, Call(t));
    if Waits(s, t) {
      forall k: nat ensures t < |Alone(s1, t, made, k).threads| && !Alone(s1, t, made, k).threads[t].Idle? {
        WaitsForever(s1, t, made, k);
      }
    } else {
      var k := SoloCall(s, t, made);
    }
  }
}
