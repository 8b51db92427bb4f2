/**
 The ticket protocol of one sub-queue: a single producer and any number of consumers, each consumer running
 `dequeue` or `dequeue_bulk` one atomic step at a time. A single dequeue is a bulk dequeue of at most one element
 (CircularIndex.SingleTestIsBulkTest), so one machine covers both.

 The counters are unbounded here; the threads only ever compare their 64-bit images.
 */
module DequeueTickets {
  import opened CircularIndex
  import opened Sequences
  import opened Tiling

  /** What became of one unit of `dequeueOptimisticCount`. */
  datatype Verdict = Open | Won | Lost

  datatype Consumer =
    | Idle
    | SawTail(max: nat, tail: nat)
    | SawOvercommit(max: nat, tail: nat, overcommit: nat)
    | Reserving(desired: nat, overcommit: nat)
    | Ticketed(desired: nat, overcommit: nat, ticket: nat)
    | Returning(owed: nat, granted: nat)
    | Claiming(granted: nat)
    | Holding(first: nat, count: nat, released: nat)

  /** `verdicts` and `claims` are history: one verdict per ticket unit, one claim per increment of `headIndex`. */
  datatype State = State(
    tail: nat,
    head: nat,
    optimistic: nat,
    overcommit: nat,
    consumers: seq<Consumer>,
    verdicts: seq<Verdict>,
    claims: seq<Claim>)

  datatype Event =
    | Publish(n: nat)
    | LoadTail(t: nat, max: nat)
    | LoadOvercommit(t: nat)
    | LoadOptimistic(t: nat)
    | Reserve(t: nat)
    | Decide(t: nat)
    | ReturnOvercommit(t: nat)
    | TakeHead(t: nat)
    | Release(t: nat)
    | Finish(t: nat)

  function Init(consumers: nat): State {
    State(0, 0, 0, 0, seq(consumers, _ => Idle), [], [])
  }

  predicate Enabled(s: State, e: Event) {
    if e.Publish? then true else
    e.t < |s.consumers| &&
    var c := s.consumers[e.t];
    match e
    case Publish(_) => true
    case LoadTail(_, _) => c.Idle?
    case LoadOvercommit(_) => c.SawTail?
    case LoadOptimistic(_) => c.SawOvercommit?
    case Reserve(_) => c.Reserving?
    case Decide(_) => c.Ticketed?
    case ReturnOvercommit(_) => c.Returning?
    case TakeHead(_) => c.Claiming?
    case Release(_) => c.Holding? && c.released < c.count
    case Finish(_) => c.Holding? && c.released == c.count
  }

  /** How many units of a ticket the consumer may keep, judged from the wrapped counters it has in hand. */
  function Grant(tail: nat, count: nat, overcommit: nat, limit: nat): nat {
    var span := Wrap(tail - (count - overcommit));
    if CircularLess(0, span) then Min(limit, span) else 0
  }

  predicate MayTry(tail: nat, count: nat, overcommit: nat) {
    CircularLess(0, Wrap(tail - (count - overcommit)))
  }

  function Repeat(v: Verdict, n: nat): (r: seq<Verdict>)
    ensures |r| == n && forall i :: 0 <= i < n ==> r[i] == v
  {
    seq(n, _ => v)
  }

  function Settle(verdicts: seq<Verdict>, ticket: nat, granted: nat, desired: nat): (r: seq<Verdict>)
    requires granted <= desired && ticket + desired <= |verdicts|
  {
    verdicts[..ticket] + Repeat(Won, granted) + Repeat(Lost, desired - granted) + verdicts[ticket + desired..]
  }

  /** The units of a ticket have verdicts to be filled in. */
  predicate HasVerdicts(s: State, e: Event)
    requires Enabled(s, e)
  {
    e.Decide? ==> s.consumers[e.t].ticket + s.consumers[e.t].desired <= |s.verdicts|
  }

  function Apply(s: State, e: Event): State
    requires Enabled(s, e) && HasVerdicts(s, e)
  {
    if e.Publish? then s.(tail := s.tail + e.n) else
    var c := s.consumers[e.t];
    match e
    case Publish(_) => s
    case LoadTail(t, max) =>
      s.(consumers := s.consumers[t := SawTail(max, s.tail)])
    case LoadOvercommit(t) =>
      s.(consumers := s.consumers[t := SawOvercommit(c.max, c.tail, s.overcommit)])
    case LoadOptimistic(t) =>
      var next := if MayTry(c.tail, s.optimistic, c.overcommit)
                  then Reserving(Grant(c.tail, s.optimistic, c.overcommit, c.max), c.overcommit) else Idle;
      s.(consumers := s.consumers[t := next])
    case Reserve(t) =>
      s.(optimistic := s.optimistic + c.desired,
         verdicts := s.verdicts + Repeat(Open, c.desired),
         consumers := s.consumers[t := Ticketed(c.desired, c.overcommit, s.optimistic)])
    case Decide(t) =>
      var granted := Grant(s.tail, c.ticket, c.overcommit, c.desired);
      var next := if granted < c.desired || !MayTry(s.tail, c.ticket, c.overcommit)
                  then Returning(c.desired - granted, granted) else Claiming(granted);
      s.(verdicts := Settle(s.verdicts, c.ticket, granted, c.desired), consumers := s.consumers[t := next])
    case ReturnOvercommit(t) =>
      s.(overcommit := s.overcommit + c.owed,
         consumers := s.consumers[t := if c.granted == 0 then Idle else Claiming(c.granted)])
    case TakeHead(t) =>
      s.(head := s.head + c.granted,
         claims := s.claims + [Claim(s.head, c.granted)],
         consumers := s.consumers[t := Holding(s.head, c.granted, 0)])
    case Release(t) =>
      s.(consumers := s.consumers[t := c.(released := c.released + 1)])
    case Finish(t) =>
      s.(consumers := s.consumers[t := Idle])
  }

  /** The differences the threads compare fit half the index range. `index_t` is chosen wide enough for this. */
  ghost predicate InWindow(s: State) {
    forall t :: 0 <= t < |s.consumers| ==>
      var c := s.consumers[t];
      && (c.SawOvercommit? ==> -HALF < c.tail - (s.optimistic - c.overcommit) < HALF)
      && (c.Ticketed? ==> -HALF < s.tail - (c.ticket - c.overcommit) < HALF)
  }

  // ---------------------------------------------------------------- counting

  lemma {:induction false} CountRepeat(w: Verdict, n: nat, v: Verdict)
    ensures Occurrences(Repeat(w, n), v) == if v == w then n else 0
  {
    if n > 0 {
      assert Repeat(w, n)[..n - 1] == Repeat(w, n - 1);
      CountRepeat(w, n - 1, v);
    }
  }

  lemma {:induction false} CountMonotone(a: seq<Verdict>, b: seq<Verdict>, v: Verdict)
    requires |a| == |b|
    requires forall i :: 0 <= i < |a| && a[i] == v ==> b[i] == v
    ensures Occurrences(a, v) <= Occurrences(b, v)
  {
    if a != [] {
      CountMonotone(a[..|a| - 1], b[..|b| - 1], v);
    }
  }

  lemma {:induction false} CountsAddUp(s: seq<Verdict>)
    ensures Occurrences(s, Open) + Occurrences(s, Won) + Occurrences(s, Lost) == |s|
  {
    if s != [] {
      var init, last := s[..|s| - 1], s[|s| - 1];
      CountsAddUp(init);
      assert forall v :: Occurrences(s, v) == Occurrences(init, v) + if last == v then 1 else 0;
    }
  }

  /** What settling a ticket adds to the three tallies. */
  lemma CountSettle(vs: seq<Verdict>, ticket: nat, granted: nat, desired: nat, v: Verdict)
    requires granted <= desired && ticket + desired <= |vs|
    requires forall i :: ticket <= i < ticket + desired ==> vs[i] == Open
    ensures Occurrences(Settle(vs, ticket, granted, desired), v)
         == Occurrences(vs, v)
           + match v { case Open => -(desired as int) case Won => granted case Lost => desired - granted }
  {
    hide Occurrences, Repeat;
    var rest := vs[ticket + desired..];
    assert vs == vs[..ticket] + Repeat(Open, desired) + rest;
    OccurrencesConcat(vs[..ticket] + Repeat(Open, desired), rest, v);
    OccurrencesConcat(vs[..ticket], Repeat(Open, desired), v);
    CountRepeat(Open, desired, v);
    var won, lost := Repeat(Won, granted), Repeat(Lost, desired - granted);
    OccurrencesConcat(vs[..ticket] + won + lost, rest, v);
    OccurrencesConcat(vs[..ticket] + won, lost, v);
    OccurrencesConcat(vs[..ticket], won, v);
    CountRepeat(Won, granted, v);
    CountRepeat(Lost, desired - granted, v);
  }

  /** What a consumer still has to account for under a verdict it has already received. */
  function Debt(c: Consumer, v: Verdict): nat {
    match v
    case Open => if c.Ticketed? then c.desired else 0
    case Won => if c.Claiming? || c.Returning? then c.granted else 0
    case Lost => if c.Returning? then c.owed else 0
  }

  function Debts(cs: seq<Consumer>, v: Verdict): nat {
    if cs == [] then 0 else Debts(cs[..|cs| - 1], v) + Debt(cs[|cs| - 1], v)
  }

  lemma {:induction false} DebtsUpdate(cs: seq<Consumer>, t: nat, c: Consumer, v: Verdict)
    requires t < |cs|
    ensures Debts(cs[t := c], v) + Debt(cs[t], v) == Debts(cs, v) + Debt(c, v)
  {
    var n := |cs| - 1;
    if t == n {
      assert cs[t := c][..n] == cs[..n];
    } else {
      assert cs[t := c][..n] == cs[..n][t := c];
      DebtsUpdate(cs[..n], t, c, v);
    }
  }

  lemma {:induction false} DebtsAllIdle(cs: seq<Consumer>, v: Verdict)
    requires forall t :: 0 <= t < |cs| ==> Debt(cs[t], v) == 0
    ensures Debts(cs, v) == 0
  {
    if cs != [] {
      DebtsAllIdle(cs[..|cs| - 1], v);
    }
  }

  // ---------------------------------------------------------------- the invariant

  function Settled(s: State, v: Verdict): nat {
    match v case Open => 0 case Won => s.head case Lost => s.overcommit
  }

  ghost predicate Balanced(s: State) {
    forall v :: Occurrences(s.verdicts, v) == Settled(s, v) + Debts(s.consumers, v)
  }

  /** A winning unit sits below the tail once the losing units before it are discounted. */
  ghost predicate WinsFit(s: State) {
    forall k :: 0 <= k < |s.verdicts| && s.verdicts[k] == Won ==> k - Occurrences(s.verdicts[..k], Lost) < s.tail
  }

  ghost predicate ConsumerOk(s: State, c: Consumer) {
    match c
    case SawOvercommit(_, _, o) => o <= Occurrences(s.verdicts, Lost)
    case Reserving(_, o) => o <= Occurrences(s.verdicts, Lost)
    case Ticketed(d, o, m) =>
      && m + d <= |s.verdicts|
      && o <= Occurrences(s.verdicts[..m], Lost)
      && forall i :: m <= i < m + d ==> s.verdicts[i] == Open
    case Holding(f, n, r) => r <= n && f + n <= s.head
    case _ => true
  }

  ghost predicate Apart(a: Consumer, b: Consumer) {
    && (a.Ticketed? && b.Ticketed? ==> a.ticket + a.desired <= b.ticket || b.ticket + b.desired <= a.ticket)
    && (a.Holding? && b.Holding? ==> a.first + a.count <= b.first || b.first + b.count <= a.first)
  }

  ghost predicate AllApart(cs: seq<Consumer>) {
    forall t, u :: 0 <= t < u < |cs| ==> Apart(cs[t], cs[u])
  }

  ghost predicate Inv(s: State) {
    && |s.verdicts| == s.optimistic
    && Balanced(s)
    && WinsFit(s)
    && (forall t :: 0 <= t < |s.consumers| ==> ConsumerOk(s, s.consumers[t]))
    && AllApart(s.consumers)
    && Tiles(s.claims, s.head)
  }

  lemma {:induction false} WinsBelowTail(vs: seq<Verdict>, tail: nat)
    requires forall k :: 0 <= k < |vs| && vs[k] == Won ==> k - Occurrences(vs[..k], Lost) < tail
    ensures Occurrences(vs, Won) <= tail
  {
    if vs != [] {
      var last := |vs| - 1;
      if vs[last] == Won {
        CountsAddUp(vs[..last]);
      } else {
        forall k | 0 <= k < last && vs[..last][k] == Won
          ensures k - Occurrences(vs[..last][..k], Lost) < tail
        {
          assert vs[..last][..k] == vs[..k];
        }
        WinsBelowTail(vs[..last], tail);
      }
    }
  }

  lemma InitInv(n: nat)
    ensures Inv(Init(n))
  {
    var s := Init(n);
    forall v ensures Occurrences(s.verdicts, v) == Settled(s, v) + Debts(s.consumers, v) {
      DebtsAllIdle(s.consumers, v);
    }
  }

  /** Replacing one consumer keeps the consumers apart if the new one is apart from the others. */
  lemma ApartUpdate(cs: seq<Consumer>, t: nat, c: Consumer)
    requires t < |cs| && AllApart(cs)
    requires forall u :: 0 <= u < |cs| && u != t ==> Apart(c, cs[u]) && Apart(cs[u], c)
    ensures AllApart(cs[t := c])
  {
  }

  lemma ReserveKeepsInv(s: State, t: nat)
    requires Inv(s) && Enabled(s, Reserve(t))
    ensures Inv(Apply(s, Reserve(t)))
  {
    hide Occurrences, Debts, Tiles;
    var c := s.consumers[t];
    var s' := Apply(s, Reserve(t));
    forall v ensures Occurrences(s'.verdicts, v) == Settled(s', v) + Debts(s'.consumers, v) {
      OccurrencesConcat(s.verdicts, Repeat(Open, c.desired), v);
      CountRepeat(Open, c.desired, v);
      DebtsUpdate(s.consumers, t, s'.consumers[t], v);
    }
    forall k | 0 <= k <= |s.verdicts| ensures s'.verdicts[..k] == s.verdicts[..k] {
    }
    OccurrencesConcat(s.verdicts, Repeat(Open, c.desired), Lost);
    assert s'.verdicts[..s.optimistic] == s.verdicts;
    ApartUpdate(s.consumers, t, s'.consumers[t]);
  }

  lemma SettledVerdicts(vs: seq<Verdict>, ticket: nat, granted: nat, desired: nat)
    requires granted <= desired && ticket + desired <= |vs|
    requires forall i :: ticket <= i < ticket + desired ==> vs[i] == Open
    ensures var vs' := Settle(vs, ticket, granted, desired);
      && |vs'| == |vs|
      && (forall i :: 0 <= i < ticket || ticket + desired <= i < |vs| ==> vs'[i] == vs[i])
      && (forall i :: ticket <= i < ticket + granted ==> vs'[i] == Won)
      && (forall i :: ticket + granted <= i < ticket + desired ==> vs'[i] == Lost)
      && forall k :: 0 <= k <= |vs| ==> Occurrences(vs[..k], Lost) <= Occurrences(vs'[..k], Lost)
  {
    var vs' := Settle(vs, ticket, granted, desired);
    forall k | 0 <= k <= |vs| ensures Occurrences(vs[..k], Lost) <= Occurrences(vs'[..k], Lost) {
      CountMonotone(vs[..k], vs'[..k], Lost);
    }
  }

  lemma GrantIsExact(tail: nat, count: nat, overcommit: nat, limit: nat)
    requires -HALF < tail - (count - overcommit) < HALF
    ensures MayTry(tail, count, overcommit) <==> count - overcommit < tail
    ensures Grant(tail, count, overcommit, limit)
         == if count - overcommit < tail then Min(limit, tail - (count - overcommit)) else 0
  {
    SpanIsDifference(tail - (count - overcommit));
  }

  lemma DecideKeepsBalance(s: State, t: nat)
    requires Inv(s) && InWindow(s) && Enabled(s, Decide(t))
    ensures Balanced(Apply(s, Decide(t)))
  {
    hide Tiles, Occurrences, Debts, Settle;
    var c := s.consumers[t];
    assert ConsumerOk(s, c);
    var s' := Apply(s, Decide(t));
    GrantIsExact(s.tail, c.ticket, c.overcommit, c.desired);
    var granted := Grant(s.tail, c.ticket, c.overcommit, c.desired);
    forall v ensures Occurrences(s'.verdicts, v) == Settled(s', v) + Debts(s'.consumers, v) {
      CountSettle(s.verdicts, c.ticket, granted, c.desired, v);
      DebtsUpdate(s.consumers, t, s'.consumers[t], v);
    }
  }

  lemma DecideKeepsWinsFit(s: State, t: nat)
    requires Inv(s) && InWindow(s) && Enabled(s, Decide(t))
    ensures WinsFit(Apply(s, Decide(t)))
  {
    var c := s.consumers[t];
    assert ConsumerOk(s, c);
    GrantIsExact(s.tail, c.ticket, c.overcommit, c.desired);
    var granted := Grant(s.tail, c.ticket, c.overcommit, c.desired);
    SettledVerdicts(s.verdicts, c.ticket, granted, c.desired);
    var vs' := Settle(s.verdicts, c.ticket, granted, c.desired);
    forall k | 0 <= k < |vs'| && vs'[k] == Won ensures k - Occurrences(vs'[..k], Lost) < s.tail {
      if c.ticket <= k < c.ticket + c.desired {
        OccurrencesPrefix(vs', c.ticket, k, Lost);
      }
    }
  }

  lemma DecideKeepsConsumers(s: State, t: nat, u: nat)
    requires Inv(s) && InWindow(s) && Enabled(s, Decide(t)) && u < |s.consumers| && u != t
    ensures ConsumerOk(Apply(s, Decide(t)), s.consumers[u])
  {
    hide Occurrences, Tiles, Debts, Settle;
    var c, d := s.consumers[t], s.consumers[u];
    assert ConsumerOk(s, c) && ConsumerOk(s, d);
    GrantIsExact(s.tail, c.ticket, c.overcommit, c.desired);
    var granted := Grant(s.tail, c.ticket, c.overcommit, c.desired);
    SettledVerdicts(s.verdicts, c.ticket, granted, c.desired);
    var vs' := Settle(s.verdicts, c.ticket, granted, c.desired);
    assert s.verdicts[..|s.verdicts|] == s.verdicts && vs'[..|s.verdicts|] == vs';
    assert if t < u then Apart(c, d) else Apart(d, c);
  }

  lemma DecideKeepsInv(s: State, t: nat)
    requires Inv(s) && InWindow(s) && Enabled(s, Decide(t))
    ensures Inv(Apply(s, Decide(t)))
  {
    hide Debts, Tiles;
    assert ConsumerOk(s, s.consumers[t]);
    var s' := Apply(s, Decide(t));
    DecideKeepsBalance(s, t);
    DecideKeepsWinsFit(s, t);
    forall u | 0 <= u < |s'.consumers| ensures ConsumerOk(s', s'.consumers[u]) {
      if u != t {
        DecideKeepsConsumers(s, t, u);
      }
    }
    ApartUpdate(s.consumers, t, s'.consumers[t]);
  }

  lemma TakeHeadKeepsInv(s: State, t: nat)
    requires Inv(s) && Enabled(s, TakeHead(t))
    ensures Inv(Apply(s, TakeHead(t)))
    ensures s.head + s.consumers[t].granted <= s.tail
  {
    hide Occurrences, Debts;
    var s' := Apply(s, TakeHead(t));
    forall v ensures Occurrences(s'.verdicts, v) == Settled(s', v) + Debts(s'.consumers, v) {
      DebtsUpdate(s.consumers, t, s'.consumers[t], v);
    }
    DebtsUpdate(s.consumers, t, Idle, Won);
    WinsBelowTail(s.verdicts, s.tail);
    assert Occurrences(s.verdicts, Won) == Settled(s, Won) + Debts(s.consumers, Won);
    forall u | 0 <= u < |s.consumers| && u != t
      ensures Apart(s'.consumers[t], s.consumers[u]) && Apart(s.consumers[u], s'.consumers[t])
    {
      assert ConsumerOk(s, s.consumers[u]);
    }
    ApartUpdate(s.consumers, t, s'.consumers[t]);
    assert s'.claims[..|s'.claims| - 1] == s.claims;
  }

  /** Steps that move neither a verdict nor the head. */
  lemma LocalStepKeepsInv(s: State, e: Event)
    requires Inv(s) && Enabled(s, e)
    requires e.LoadTail? || e.LoadOvercommit? || e.LoadOptimistic? || e.ReturnOvercommit? || e.Release? || e.Finish?
    ensures Inv(Apply(s, e))
  {
    hide Occurrences, Debts, Tiles;
    var s' := Apply(s, e);
    forall v ensures Occurrences(s'.verdicts, v) == Settled(s', v) + Debts(s'.consumers, v) {
      DebtsUpdate(s.consumers, e.t, s'.consumers[e.t], v);
    }
    if e.LoadOvercommit? {
      assert Occurrences(s.verdicts, Lost) == Settled(s, Lost) + Debts(s.consumers, Lost);
    }
    assert ConsumerOk(s, s.consumers[e.t]);
    ApartUpdate(s.consumers, e.t, s'.consumers[e.t]);
  }

  lemma PublishKeepsInv(s: State, n: nat)
    requires Inv(s)
    ensures Inv(Apply(s, Publish(n)))
  {
    var s' := Apply(s, Publish(n));
    forall v ensures Occurrences(s'.verdicts, v) == Settled(s', v) + Debts(s'.consumers, v) {
      assert Settled(s', v) == Settled(s, v);
    }
    forall t | 0 <= t < |s.consumers| ensures ConsumerOk(s', s'.consumers[t]) {
      assert ConsumerOk(s, s.consumers[t]);
    }
  }

  lemma StepKeepsInv(s: State, e: Event)
    requires Inv(s) && InWindow(s) && Enabled(s, e)
    ensures Inv(Apply(s, e))
  {
    match e
    case Publish(n) => PublishKeepsInv(s, n);
    case Reserve(t) => ReserveKeepsInv(s, t);
    case Decide(t) => DecideKeepsInv(s, t);
    case TakeHead(t) => TakeHeadKeepsInv(s, t);
    case _ => LocalStepKeepsInv(s, e);
  }

  // ---------------------------------------------------------------- runs

  ghost predicate Next(s: State, s': State) {
    exists e :: Enabled(s, e)
      && HasVerdicts(s, e)
      && s' == Apply(s, e)
  }

  /** A run of any number of consumers from the empty queue, every state inside the comparison window. */
  ghost predicate Run(ss: seq<State>) {
    && ss != []
    && (exists n: nat :: ss[0] == Init(n))
    && (forall i :: 0 <= i < |ss| ==> InWindow(ss[i]))
    && (forall i :: 0 < i < |ss| ==> Next(ss[i - 1], ss[i]))
  }

  lemma {:induction false} RunKeepsInv(ss: seq<State>)
    requires Run(ss)
    ensures Inv(ss[|ss| - 1])
  {
    if |ss| == 1 {
      var n: nat :| ss[0] == Init(n);
      InitInv(n);
    } else {
      var prefix := ss[..|ss| - 1];
      assert prefix[0] == ss[0];
      RunKeepsInv(prefix);
      var s := prefix[|prefix| - 1];
      assert s == ss[|ss| - 2] && Next(s, ss[|ss| - 1]);
      var e :| Enabled(s, e) && HasVerdicts(s, e)
        && ss[|ss| - 1] == Apply(s, e);
      StepKeepsInv(s, e);
    }
  }

  predicate Quiet(s: State) {
    forall t :: 0 <= t < |s.consumers| ==> s.consumers[t].Idle?
  }

  /**
   In every interleaving: the head never passes the tail, claims still to be made included; two consumers never hold
   a common slot; no slot is ever claimed twice, and every slot below the head is claimed.
   */
  lemma RunIsSafe(ss: seq<State>)
    requires Run(ss)
    ensures var s := ss[|ss| - 1];
      && s.head + Debts(s.consumers, Won) <= s.tail
      && (forall t, u :: 0 <= t < u < |s.consumers| && s.consumers[t].Holding? && s.consumers[u].Holding? ==>
            var a, b := s.consumers[t], s.consumers[u];
            a.first + a.count <= b.first || b.first + b.count <= a.first)
      && (forall i, j :: 0 <= i < j < |s.claims| ==> s.claims[i].first + s.claims[i].count <= s.claims[j].first)
      && (forall slot :: 0 <= slot < s.head ==> Claimed(s.claims, slot))
  {
    RunKeepsInv(ss);
    var s := ss[|ss| - 1];
    WinsBelowTail(s.verdicts, s.tail);
    assert Occurrences(s.verdicts, Won) == Settled(s, Won) + Debts(s.consumers, Won);
    assert AllApart(s.consumers);
    forall i, j | 0 <= i < j < |s.claims| ensures s.claims[i].first + s.claims[i].count <= s.claims[j].first {
      TilesDisjoint(s.claims, s.head, i, j);
    }
    forall slot | 0 <= slot < s.head ensures Claimed(s.claims, slot) {
      TilesCover(s.claims, s.head, slot);
    }
  }

  /** Units of tickets that dequeues in flight still have to account for. */
  function InFlight(s: State): nat {
    Debts(s.consumers, Open) + Debts(s.consumers, Won) + Debts(s.consumers, Lost)
  }

  /** The two counters account for the elements taken and for everything in flight. */
  lemma CountersAccount(s: State)
    requires Inv(s)
    ensures s.optimistic - s.overcommit == s.head + InFlight(s)
  {
    hide Occurrences, Debts;
    assert Occurrences(s.verdicts, Open) == Settled(s, Open) + Debts(s.consumers, Open);
    assert Occurrences(s.verdicts, Won) == Settled(s, Won) + Debts(s.consumers, Won);
    assert Occurrences(s.verdicts, Lost) == Settled(s, Lost) + Debts(s.consumers, Lost);
    CountsAddUp(s.verdicts);
  }

  /** With no dequeue in flight the two counters account for exactly the elements taken. */
  lemma QuietCountersAgree(s: State)
    requires Inv(s) && Quiet(s)
    ensures InFlight(s) == 0 && s.optimistic - s.overcommit == s.head <= s.tail
  {
    forall v ensures Debts(s.consumers, v) == 0 {
      DebtsAllIdle(s.consumers, v);
    }
    CountersAccount(s);
    assert Occurrences(s.verdicts, Won) == s.head;
    WinsBelowTail(s.verdicts, s.tail);
  }

  function SoloRest(s: State, t: nat): State
    requires t < |s.consumers| && s.consumers[t].Reserving? && |s.verdicts| == s.optimistic
  {
    var s2 := Apply(Apply(s, Reserve(t)), Decide(t));
    var s3 := if s2.consumers[t].Returning? then Apply(s2, ReturnOvercommit(t)) else s2;
    if s3.consumers[t].Idle? then s3 else Apply(s3, TakeHead(t))
  }

  /** One consumer runs a whole dequeue, undisturbed, up to the point where it holds its elements or gave up. */
  function Solo(s: State, t: nat, max: nat): State
    requires t < |s.consumers| && s.consumers[t].Idle? && |s.verdicts| == s.optimistic
  {
    var s1 := Apply(Apply(Apply(s, LoadTail(t, max)), LoadOvercommit(t)), LoadOptimistic(t));
    if s1.consumers[t].Idle? then s1 else SoloRest(s1, t)
  }

  lemma SoloRestTakes(s: State, t: nat)
    requires t < |s.consumers| && s.consumers[t].Reserving? && |s.verdicts| == s.optimistic
    requires 0 < s.tail - (s.optimistic - s.consumers[t].overcommit) < HALF
    requires s.consumers[t].desired <= s.tail - (s.optimistic - s.consumers[t].overcommit)
    ensures var c, s' := s.consumers[t], SoloRest(s, t);
      && s'.consumers[t] == Holding(s.head, c.desired, 0)
      && s'.head == s.head + c.desired
      && s'.optimistic == s.optimistic + c.desired && s'.overcommit == s.overcommit
  {
    GrantIsExact(s.tail, s.optimistic, s.consumers[t].overcommit, s.consumers[t].desired);
  }

  /**
   A dequeue that nobody disturbs while it runs, started in any state: it reports an empty queue exactly if everything
   published is taken or covered by tickets of dequeues in flight, and otherwise takes from the head what is left.
   */
  lemma SoloDequeueIsExact(s: State, t: nat, max: nat)
    requires Inv(s) && t < |s.consumers| && s.consumers[t].Idle?
    requires -HALF < s.tail - (s.optimistic - s.overcommit) < HALF
    ensures var s' := Solo(s, t, max);
      && (s'.consumers[t].Idle? <==> s.tail <= s.head + InFlight(s))
      && (s'.consumers[t].Idle? ==> s' == s)
      && (s.head + InFlight(s) < s.tail ==>
            && s'.consumers[t] == Holding(s.head, Min(max, s.tail - s.head - InFlight(s)), 0)
            && s'.head == s.head + Min(max, s.tail - s.head - InFlight(s))
            && s'.optimistic - s'.overcommit == s'.head + InFlight(s))
  {
    CountersAccount(s);
    GrantIsExact(s.tail, s.optimistic, s.overcommit, max);
    var s1 := Apply(Apply(Apply(s, LoadTail(t, max)), LoadOvercommit(t)), LoadOptimistic(t));
    if s.tail <= s.head + InFlight(s) {
      assert s1.consumers == s.consumers;
    } else {
      assert s1.consumers[t] == Reserving(Min(max, s.tail - s.head - InFlight(s)), s.overcommit);
      SoloRestTakes(s1, t);
    }
  }

  /**
   Started with nothing in flight, a dequeue takes exactly min(max, available) elements from the head, and reports
   an empty queue exactly when the queue is empty, then leaving every counter as it was.
   */
  lemma QuietDequeueIsExact(s: State, t: nat, max: nat)
    requires Inv(s) && Quiet(s) && t < |s.consumers| && s.tail - s.head < HALF
    ensures var s' := Solo(s, t, max);
      && (s.head == s.tail <==> s'.consumers[t].Idle?)
      && (s.head == s.tail ==> s' == s)
      && (s.head < s.tail ==>
            && s'.consumers[t] == Holding(s.head, Min(max, s.tail - s.head), 0)
            && s'.head == s.head + Min(max, s.tail - s.head)
            && s'.optimistic - s'.overcommit == s'.head)
  {
    hide Solo;
    QuietCountersAgree(s);
    SoloDequeueIsExact(s, t, max);
  }

  /** The difference cut off at zero and at a limit. */
  function Between(difference: int, limit: nat): nat {
    if difference < 0 then 0 else if difference < limit then difference else limit
  }

  /**
   A consumer that has stopped with a tail and an overcommit count in hand, however old: it gives up exactly if the
   tickets drawn since reach that tail, and otherwise goes for what is left below it.
   */
  lemma StaleTryIsExact(s: State, t: nat)
    requires InWindow(s) && t < |s.consumers| && s.consumers[t].SawOvercommit?
    ensures var c := s.consumers[t];
      var left := c.tail - (s.optimistic - c.overcommit);
      Apply(s, LoadOptimistic(t))
      == s.(consumers := s.consumers[t := if left <= 0 then Idle else Reserving(Between(left, c.max), c.overcommit)])
  {
    var c := s.consumers[t];
    GrantIsExact(c.tail, s.optimistic, c.overcommit, c.max);
  }

  /**
   A consumer that has stopped with a ticket in hand gets, when it goes on alone, exactly the units of the ticket that
   are below the tail by then, and gives back the others.
   */
  lemma TicketIsServed(s: State, t: nat)
    requires Inv(s) && InWindow(s) && t < |s.consumers| && s.consumers[t].Ticketed?
    ensures HasVerdicts(s, Decide(t))
    ensures var c := s.consumers[t];
      var left := s.tail - (c.ticket - c.overcommit);
      var granted := Between(left, c.desired);
      var s2 := Apply(s, Decide(t));
      var s3 := if s2.consumers[t].Returning? then Apply(s2, ReturnOvercommit(t)) else s2;
      && s3.consumers == s.consumers[t := if left <= 0 then Idle else Claiming(granted)]
      && s3.overcommit == s.overcommit + (c.desired - granted)
      && s3.optimistic == s.optimistic && s3.head == s.head && s3.tail == s.tail
      && (left > 0 ==> Apply(s3, TakeHead(t)).consumers[t] == Holding(s.head, granted, 0))
      && (left > 0 ==> Apply(s3, TakeHead(t)).head == s.head + granted)
  {
    var c := s.consumers[t];
    assert ConsumerOk(s, c);
    hide Inv;
    GrantIsExact(s.tail, c.ticket, c.overcommit, c.desired);
  }

  /**
   A run in which both consumers go for the only element. Consumer 1 gets it and is done; consumer 0 has lost its ticket
   but has not yet returned it when the producer publishes another element.
   */
  function MissedRun(): seq<State> {
    var done := [Claim(0, 1)];
    [ Init(2),
      State(1, 0, 0, 0, [Idle, Idle], [], []),
      State(1, 0, 0, 0, [SawTail(1, 1), Idle], [], []),
      State(1, 0, 0, 0, [SawOvercommit(1, 1, 0), Idle], [], []),
      State(1, 0, 0, 0, [Reserving(1, 0), Idle], [], []),
      State(1, 0, 0, 0, [Reserving(1, 0), SawTail(1, 1)], [], []),
      State(1, 0, 0, 0, [Reserving(1, 0), SawOvercommit(1, 1, 0)], [], []),
      State(1, 0, 0, 0, [Reserving(1, 0), Reserving(1, 0)], [], []),
      State(1, 0, 1, 0, [Reserving(1, 0), Ticketed(1, 0, 0)], [Open], []),
      State(1, 0, 2, 0, [Ticketed(1, 0, 1), Ticketed(1, 0, 0)], [Open, Open], []),
      State(1, 0, 2, 0, [Ticketed(1, 0, 1), Claiming(1)], [Won, Open], []),
      State(1, 1, 2, 0, [Ticketed(1, 0, 1), Holding(0, 1, 0)], [Won, Open], done),
      State(1, 1, 2, 0, [Ticketed(1, 0, 1), Holding(0, 1, 1)], [Won, Open], done),
      State(1, 1, 2, 0, [Ticketed(1, 0, 1), Idle], [Won, Open], done),
      State(1, 1, 2, 0, [Returning(1, 0), Idle], [Won, Lost], done),
      State(2, 1, 2, 0, [Returning(1, 0), Idle], [Won, Lost], done) ]
  }

  /** One step of the run, apart from the others. */
  lemma StepIsNext(s: State, e: Event, s': State)
    requires Enabled(s, e) && HasVerdicts(s, e)
    requires Apply(s, e) == s'
    ensures Next(s, s')
  {
  }

  lemma MissedRunFirstPart()
    ensures forall i :: 1 <= i < 4 ==> Next(MissedRun()[i - 1], MissedRun()[i])
  {
    hide Next;
    var ss := MissedRun();
    StepIsNext(ss[0], Publish(1), ss[1]);
    StepIsNext(ss[1], LoadTail(0, 1), ss[2]);
    StepIsNext(ss[2], LoadOvercommit(0), ss[3]);
  }

  lemma MissedRunSecondPart()
    ensures forall i :: 4 <= i < 7 ==> Next(MissedRun()[i - 1], MissedRun()[i])
  {
    hide Next;
    var ss := MissedRun();
    StepIsNext(ss[3], LoadOptimistic(0), ss[4]);
    StepIsNext(ss[4], LoadTail(1, 1), ss[5]);
    StepIsNext(ss[5], LoadOvercommit(1), ss[6]);
  }

  lemma MissedRunThirdPart()
    ensures forall i :: 7 <= i < 10 ==> Next(MissedRun()[i - 1], MissedRun()[i])
  {
    hide Next;
    var ss := MissedRun();
    StepIsNext(ss[6], LoadOptimistic(1), ss[7]);
    StepIsNext(ss[7], Reserve(1), ss[8]);
    StepIsNext(ss[8], Reserve(0), ss[9]);
  }

  lemma MissedRunFourthPart()
    ensures forall i :: 10 <= i < 13 ==> Next(MissedRun()[i - 1], MissedRun()[i])
  {
    hide Next;
    var ss := MissedRun();
    StepIsNext(ss[9], Decide(1), ss[10]);
    StepIsNext(ss[10], TakeHead(1), ss[11]);
    StepIsNext(ss[11], Release(1), ss[12]);
  }

  lemma MissedRunFifthPart()
    ensures forall i :: 13 <= i < 16 ==> Next(MissedRun()[i - 1], MissedRun()[i])
  {
    hide Next;
    var ss := MissedRun();
    StepIsNext(ss[12], Finish(1), ss[13]);
    StepIsNext(ss[13], Decide(0), ss[14]);
    StepIsNext(ss[14], Publish(1), ss[15]);
  }

  lemma MissedRunInWindow()
    ensures forall i :: 0 <= i < 16 ==> InWindow(MissedRun()[i])
  {
  }

  lemma MissedRunIsRun()
    ensures Run(MissedRun())
  {
    hide Next, Apply, InWindow;
    MissedRunInWindow();
    MissedRunFirstPart();
    MissedRunSecondPart();
    MissedRunThirdPart();
    MissedRunFourthPart();
    MissedRunFifthPart();
  }

  lemma PairDebts(cs: seq<Consumer>, v: Verdict)
    requires |cs| == 2
    ensures Debts(cs, v) == Debt(cs[0], v) + Debt(cs[1], v)
  {
    assert Debts([cs[0]], v) == Debt(cs[0], v);
    assert cs[..1] == [cs[0]];
  }

  /**
   So a ticket that is lost but not yet returned is enough to hide an element: here one is published, nobody has taken
   it or can take it on a ticket, and a whole dequeue that nobody disturbs reports an empty queue.
   */
  lemma BusyDequeueMayMissElements()
    ensures var ss := MissedRun(); var s := ss[15];
      && Run(ss) && |ss| == 16 && s.consumers[1].Idle? && |s.verdicts| == s.optimistic
      && s.head < s.tail && Debts(s.consumers, Open) == Debts(s.consumers, Won) == 0
      && Solo(s, 1, 1) == s
  {
    hide Run, Solo;
    MissedRunIsRun();
    RunKeepsInv(MissedRun());
    var s := MissedRun()[15];
    forall v ensures Debts(s.consumers, v) == Debt(s.consumers[0], v) {
      PairDebts(s.consumers, v);
    }
    SoloDequeueIsExact(s, 1, 1);
  }
}
