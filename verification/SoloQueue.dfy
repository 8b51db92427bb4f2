/**
 Progress in the shared queue: what one thread does when it goes on alone, from any reachable state, while the others
 have stopped wherever they are.
 */
module SoloQueue {
  import opened CircularIndex
  import opened Sequences
  import opened SharedIndex
  import Queue = SharedQueue
  import Tickets = DequeueTickets
  import Producer = ExplicitProducer

  // ---------------------------------------------------------------- a consumer

  /** The next access of a consumer's lookup. */
  function LookStep<T>(r: Reader, t: nat): Event<T> {
    match r
    case Start => LoadHeader(t)
    case SawHeader(_) => LoadFront(t)
    case SawFront(_, _, _) => LoadBase(t)
    case AtSlot(_, _) => LoadBlock(t)
    case AtBlock(_, _, _) => Release(t)
  }

  /** The next step of a consumer that is in a dequeue. */
  function OwnStep<T>(s: State<T>, t: nat): Event<T>
    requires t < |s.queue.tickets.consumers| && t < |s.readers|
  {
    match s.queue.tickets.consumers[t]
    case Idle => Consume(Tickets.LoadTail(t, 0))
    case SawTail(_, _) => Consume(Tickets.LoadOvercommit(t))
    case SawOvercommit(_, _, _) => Consume(Tickets.LoadOptimistic(t))
    case Reserving(_, _) => Consume(Tickets.Reserve(t))
    case Ticketed(_, _, _) => Consume(Tickets.Decide(t))
    case Returning(_, _) => Consume(Tickets.ReturnOvercommit(t))
    case Claiming(_) => Consume(Tickets.TakeHead(t))
    case Holding(_, count, released) =>
      if released < count then LookStep(s.readers[t], t) else Consume(Tickets.Finish(t))
  }

  ghost predicate Busy<T>(s: State<T>, t: nat) {
    t < |s.queue.tickets.consumers| && t < |s.readers| && !s.queue.tickets.consumers[t].Idle?
  }

  /** k steps of consumer t, or as many as its dequeue takes. */
  ghost function Alone<T>(s: State<T>, t: nat, k: nat): State<T>
    decreases k
  {
    if k == 0 || !Busy(s, t) || !Defined(s, OwnStep(s, t)) then s else Alone(Apply(s, OwnStep(s, t)), t, k - 1)
  }

  /** The counters stay in the window in which their wrapped images are compared, however far consumer t goes on. */
  ghost predicate StaysInWindow<T>(s: State<T>, t: nat) {
    forall k: nat :: Tickets.InWindow(Alone(s, t, k).queue.tickets)
  }

  lemma HasHeader<T>(s: State<T>)
    requires Inv(s)
    ensures s.headers != []
  {
  }

  lemma OwnStepKeepsInv<T>(s: State<T>, t: nat)
    requires Inv(s) && Tickets.InWindow(s.queue.tickets) && Busy(s, t)
    ensures Defined(s, OwnStep(s, t)) && Inv(Apply(s, OwnStep(s, t)))
  {
    assert Tickets.ConsumerOk(s.queue.tickets, s.queue.tickets.consumers[t]);
    hide Inv, Queue.Inv, Tickets.Inv, Tickets.InWindow, Tickets.ConsumerOk;
    assert Enabled(s, OwnStep(s, t)) by {
      assert s.headers != [] by { HasHeader(s); }
    }
    StepKeepsInv(s, OwnStep(s, t));
  }

  lemma AloneStep<T>(s: State<T>, t: nat, k: nat)
    requires Inv(s) && StaysInWindow(s, t) && Busy(s, t)
    ensures Defined(s, OwnStep(s, t)) && Alone(s, t, k + 1) == Alone(Apply(s, OwnStep(s, t)), t, k)
    ensures Inv(Apply(s, OwnStep(s, t))) && StaysInWindow(Apply(s, OwnStep(s, t)), t)
  {
    assert Alone(s, t, 0) == s;
    OwnStepKeepsInv(s, t);
    hide Inv, Apply, Defined, Busy, Tickets.InWindow;
    forall j: nat ensures Tickets.InWindow(Alone(Apply(s, OwnStep(s, t)), t, j).queue.tickets) {
      assert Alone(s, t, j + 1) == Alone(Apply(s, OwnStep(s, t)), t, j);
    }
  }

  function AccessesLeft(c: Tickets.Consumer, r: Reader): int
    requires c.Holding?
  {
    var elements := c.count - c.released;
    match r
    case Start => 2 * elements + 4
    case SawHeader(_) => 2 * elements + 3
    case SawFront(_, _, _) => 2 * elements + 2
    case AtSlot(_, _) => 2 * elements + 1
    case AtBlock(_, _, _) => 2 * elements
  }

  /** The values of the indices from lo on, below hi. */
  ghost function Values<T>(written: seq<T>, lo: nat, hi: nat): map<nat, T>
    requires hi <= |written|
  {
    map i: nat | lo <= i < hi :: written[i]
  }

  /** The elements lo .. hi have been handed out, each with its own value, and the consumer is done. */
  ghost predicate Served<T>(s: State<T>, s': State<T>, t: nat, lo: nat, hi: nat) {
    && t < |s.queue.tickets.consumers| && hi <= |s.queue.written|
    && s'.queue.tickets == s.queue.tickets.(consumers := s.queue.tickets.consumers[t := Tickets.Idle])
    && s'.queue.delivered == s.queue.delivered + Values(s.queue.written, lo, hi)
    && s'.queue.written == s.queue.written && s'.queue.owner == s.queue.owner && s'.headers == s.headers
  }

  /** One access of a lookup: it gets closer to a release, or it is the release of the next element. */
  ghost predicate Looks<T>(s: State<T>, s': State<T>, t: nat) {
    && Looking(s, t) && s'.headers == s.headers && |s'.readers| == |s.readers|
    && s'.queue.written == s.queue.written && s'.queue.owner == s.queue.owner
    && var c := s.queue.tickets.consumers[t];
    && Queue.CurrentIndex(c) < c.first + c.count <= |s.queue.written|
    && var c' := if s.readers[t].AtBlock? then c.(released := c.released + 1) else c;
    && AccessesLeft(c', s'.readers[t]) < AccessesLeft(c, s.readers[t])
    && s'.queue.tickets == s.queue.tickets.(consumers := s.queue.tickets.consumers[t := c'])
    && s'.queue.delivered == if s.readers[t].AtBlock?
                             then s.queue.delivered[Queue.CurrentIndex(c) := s.queue.written[Queue.CurrentIndex(c)]]
                             else s.queue.delivered
  }

  lemma HeldIsWritten<T>(s: State<T>, t: nat)
    requires Inv(s) && Looking(s, t)
    ensures var c := s.queue.tickets.consumers[t]; Queue.CurrentIndex(c) < c.first + c.count <= |s.queue.written|
  {
    Queue.HeadBelowTail(s.queue.tickets);
    assert Tickets.ConsumerOk(s.queue.tickets, s.queue.tickets.consumers[t]);
  }

  lemma ReleaseHandsOut<T>(s: State<T>, t: nat)
    requires Inv(s) && Enabled(s, Release(t)) && Index(s, t) < |s.queue.written|
    ensures Queue.Located(s.queue, Index(s, t)) && Queue.Cell(s.queue, Index(s, t)) == s.queue.written[Index(s, t)]
  {
    HeldInRing(s, t);
    assert Queue.HeldBy(s.queue.tickets.consumers[t], Index(s, t));
    assert Queue.Kept(s.queue, Index(s, t));
  }

  /** A release in the queue below. */
  lemma QueueReleases<T>(q: Queue.State<T>, t: nat)
    requires Queue.Defined(q, Queue.Consume(Tickets.Release(t)))
    ensures var c, q' := q.tickets.consumers[t], Queue.Apply(q, Queue.Consume(Tickets.Release(t)));
      && q'.tickets == q.tickets.(consumers := q.tickets.consumers[t := c.(released := c.released + 1)])
      && q'.delivered == q.delivered[Queue.CurrentIndex(c) := Queue.Cell(q, Queue.CurrentIndex(c))]
      && q'.written == q.written && q'.owner == q.owner
  {
  }

  /** A release, by what it changes. */
  lemma LooksByRelease<T>(s: State<T>, s': State<T>, t: nat)
    requires Looking(s, t) && s.readers[t].AtBlock?
    requires s'.headers == s.headers && s'.queue.written == s.queue.written && s'.queue.owner == s.queue.owner
    requires |s'.readers| == |s.readers| && (s'.readers[t].AtSlot? || s'.readers[t].AtBlock?)
    requires
      var c := s.queue.tickets.consumers[t];
      && Queue.CurrentIndex(c) < c.first + c.count <= |s.queue.written|
      && s'.queue.tickets
        == s.queue.tickets.(consumers := s.queue.tickets.consumers[t := c.(released := c.released + 1)])
      && s'.queue.delivered == s.queue.delivered[Queue.CurrentIndex(c) := s.queue.written[Queue.CurrentIndex(c)]]
    ensures Looks(s, s', t)
  {
  }

  lemma ReleaseLooks<T>(s: State<T>, t: nat)
    requires Inv(s) && Looking(s, t) && s.readers[t].AtBlock? && Enabled(s, Release(t))
    ensures Defined(s, Release(t)) && Looks(s, Apply(s, Release(t)), t)
  {
    assert RingInOrder(s.queue);
    hide Inv, Queue.Located, Queue.Cell, Queue.Apply, Queue.Defined, Apply, Defined, Enabled, RingInOrder, Looks;
    HeldIsWritten(s, t);
    ReleaseHandsOut(s, t);
    ReleaseIsExact(s, t);
    ReleaseChangesLittle(s, t);
    QueueReleases(s.queue, t);
    LooksByRelease(s, Apply(s, Release(t)), t);
  }

  lemma LoadLooks<T>(s: State<T>, t: nat)
    requires Looking(s, t) && !s.readers[t].AtBlock? && Defined(s, LookStep(s.readers[t], t))
    requires var c := s.queue.tickets.consumers[t]; Queue.CurrentIndex(c) < c.first + c.count <= |s.queue.written|
    ensures Looks(s, Apply(s, LookStep(s.readers[t], t)), t)
  {
    hide SlotFrom;
  }

  lemma NothingToServe<T>(s: State<T>, t: nat)
    requires Inv(s) && Defined(s, Consume(Tickets.Finish(t))) && t < |s.readers|
    ensures var c := s.queue.tickets.consumers[t];
      Served(s, Apply(s, Consume(Tickets.Finish(t))), t, Queue.CurrentIndex(c), c.first + c.count)
  {
    Queue.HeadBelowTail(s.queue.tickets);
    assert Tickets.ConsumerOk(s.queue.tickets, s.queue.tickets.consumers[t]);
  }

  lemma ValuesSplit<T>(written: seq<T>, delivered: map<nat, T>, lo: nat, hi: nat)
    requires lo < hi <= |written|
    ensures delivered[lo := written[lo]] + Values(written, lo + 1, hi) == delivered + Values(written, lo, hi)
  {
  }

  lemma ServedNext<T>(s: State<T>, s1: State<T>, s': State<T>, t: nat)
    requires Looks(s, s1, t)
    requires var c1 := s1.queue.tickets.consumers[t]; Served(s1, s', t, Queue.CurrentIndex(c1), c1.first + c1.count)
    ensures var c := s.queue.tickets.consumers[t]; Served(s, s', t, Queue.CurrentIndex(c), c.first + c.count)
  {
    var c := s.queue.tickets.consumers[t];
    ValuesSplit(s.queue.written, s.queue.delivered, Queue.CurrentIndex(c), c.first + c.count);
    hide Values;
  }

  lemma LookStepLooks<T>(s: State<T>, t: nat)
    requires Inv(s) && Looking(s, t) && Defined(s, OwnStep(s, t))
    ensures Looks(s, Apply(s, OwnStep(s, t)), t)
  {
    assert s.readers[t].AtBlock? ==> Enabled(s, Release(t));
    hide Inv, Apply, Defined, Looks, Enabled;
    if s.readers[t].AtBlock? {
      ReleaseLooks(s, t);
    } else {
      HeldIsWritten(s, t);
      LoadLooks(s, t);
    }
  }

  lemma LooksOn<T>(s: State<T>, s': State<T>, t: nat)
    requires Looks(s, s', t) && Inv(s')
    ensures Busy(s', t) && s'.queue.tickets.consumers[t].Holding?
    ensures 0 <= AccessesLeft(s'.queue.tickets.consumers[t], s'.readers[t])
      < AccessesLeft(s.queue.tickets.consumers[t], s.readers[t])
  {
    assert Tickets.ConsumerOk(s'.queue.tickets, s'.queue.tickets.consumers[t]);
  }

  lemma DoneIsServed<T>(s: State<T>, t: nat)
    requires Inv(s) && StaysInWindow(s, t) && Busy(s, t) && s.queue.tickets.consumers[t].Holding? && !Looking(s, t)
    ensures var c := s.queue.tickets.consumers[t];
      Served(s, Alone(s, t, 1), t, Queue.CurrentIndex(c), c.first + c.count)
  {
    AloneStep(s, t, 0);
    assert Tickets.ConsumerOk(s.queue.tickets, s.queue.tickets.consumers[t]);
    NothingToServe(s, t);
    hide Inv, Apply, Defined, Served;
    assert Alone(Apply(s, OwnStep(s, t)), t, 0) == Apply(s, OwnStep(s, t));
  }

  /** A consumer that holds elements, left alone anywhere in its lookups, hands them all out and is done. */
  lemma {:induction false} HoldingIsServed<T>(s: State<T>, t: nat) returns (k: nat)
    requires Inv(s) && StaysInWindow(s, t) && Busy(s, t) && s.queue.tickets.consumers[t].Holding?
    ensures var c := s.queue.tickets.consumers[t];
      Served(s, Alone(s, t, k), t, Queue.CurrentIndex(c), c.first + c.count)
    decreases AccessesLeft(s.queue.tickets.consumers[t], s.readers[t])
  {
    hide Inv, Served, Apply, Looks, StaysInWindow, Alone, Defined, AccessesLeft, OwnStep;
    if !Looking(s, t) {
      k := 1;
      DoneIsServed(s, t);
    } else {
      AloneStep(s, t, 0);
      var s1 := Apply(s, OwnStep(s, t));
      LookStepLooks(s, t);
      LooksOn(s, s1, t);
      var l := HoldingIsServed(s1, t);
      ServedNext(s, s1, Alone(s1, t, l), t);
      AloneStep(s, t, l);
      k := l + 1;
    }
  }

  // ---------------------------------------------------------------- a whole dequeue

  /** The next step of the ticket protocol. */
  function TicketStep(c: Tickets.Consumer, t: nat): Tickets.Event {
    match c
    case SawTail(_, _) => Tickets.LoadOvercommit(t)
    case SawOvercommit(_, _, _) => Tickets.LoadOptimistic(t)
    case Reserving(_, _) => Tickets.Reserve(t)
    case Ticketed(_, _, _) => Tickets.Decide(t)
    case Returning(_, _) => Tickets.ReturnOvercommit(t)
    case Claiming(_) => Tickets.TakeHead(t)
    case _ => Tickets.Finish(t)
  }

  function StepsToClaim(c: Tickets.Consumer): nat {
    match c
    case SawTail(_, _) => 6
    case SawOvercommit(_, _, _) => 5
    case Reserving(_, _) => 4
    case Ticketed(_, _, _) => 3
    case Returning(_, _) => 2
    case Claiming(_) => 1
    case _ => 0
  }

  /** The ticket protocol from where consumer t is, until it has claimed its elements or given up. */
  function Claimed(s: Tickets.State, t: nat): Tickets.State
    requires t < |s.consumers|
    decreases StepsToClaim(s.consumers[t])
  {
    var e := TicketStep(s.consumers[t], t);
    if StepsToClaim(s.consumers[t]) > 0 && Tickets.HasVerdicts(s, e) then Claimed(Tickets.Apply(s, e), t) else s
  }

  lemma TicketStepIsOwn<T>(s: State<T>, t: nat)
    requires Busy(s, t) && !s.queue.tickets.consumers[t].Holding? && Defined(s, OwnStep(s, t))
    ensures var q, e := s.queue.tickets, TicketStep(s.queue.tickets.consumers[t], t);
      && OwnStep(s, t) == Consume(e) && Tickets.Enabled(q, e) && Tickets.HasVerdicts(q, e)
      && Apply(s, OwnStep(s, t)).queue == s.queue.(tickets := Tickets.Apply(q, e))
      && Apply(s, OwnStep(s, t)).headers == s.headers
      && |Apply(s, OwnStep(s, t)).readers| == |s.readers|
  {
    hide Tickets.Apply;
  }

  lemma ClaimedNext(s: Tickets.State, t: nat)
    requires t < |s.consumers| && Tickets.Enabled(s, TicketStep(s.consumers[t], t))
    requires Tickets.HasVerdicts(s, TicketStep(s.consumers[t], t)) && StepsToClaim(s.consumers[t]) > 0
    ensures var s' := Tickets.Apply(s, TicketStep(s.consumers[t], t));
      && |s'.consumers| == |s.consumers| && StepsToClaim(s'.consumers[t]) < StepsToClaim(s.consumers[t])
      && Claimed(s, t) == Claimed(s', t)
  {
  }

  lemma {:induction false} AloneClaims<T>(s: State<T>, t: nat) returns (k: nat)
    requires Inv(s) && StaysInWindow(s, t) && t < |s.queue.tickets.consumers| && t < |s.readers|
    ensures Alone(s, t, k).queue == s.queue.(tickets := Claimed(s.queue.tickets, t))
    ensures Alone(s, t, k).headers == s.headers && |Alone(s, t, k).readers| == |s.readers|
    ensures Inv(Alone(s, t, k)) && StaysInWindow(Alone(s, t, k), t)
    decreases StepsToClaim(s.queue.tickets.consumers[t])
  {
    hide Inv, StaysInWindow, Apply, Defined, OwnStep, TicketStep, Tickets.Apply, Tickets.Enabled, Tickets.HasVerdicts;
    var c := s.queue.tickets.consumers[t];
    if StepsToClaim(c) == 0 {
      k := 0;
    } else {
      hide Alone;
      AloneStep(s, t, 0);
      TicketStepIsOwn(s, t);
      ClaimedNext(s.queue.tickets, t);
      hide Claimed;
      var l := AloneClaims(Apply(s, OwnStep(s, t)), t);
      AloneStep(s, t, l);
      k := l + 1;
    }
  }

  lemma ClaimedIsSoloRest(s: Tickets.State, t: nat)
    requires t < |s.consumers| && s.consumers[t].Reserving? && |s.verdicts| == s.optimistic
    ensures Claimed(s, t) == Tickets.SoloRest(s, t)
  {
    var s1 := Tickets.Apply(s, Tickets.Reserve(t));
    var s2 := Tickets.Apply(s1, Tickets.Decide(t));
    ClaimedNext(s, t);
    ClaimedNext(s1, t);
    var s3 := if s2.consumers[t].Returning? then Tickets.Apply(s2, Tickets.ReturnOvercommit(t)) else s2;
    if s2.consumers[t].Returning? {
      ClaimedNext(s2, t);
    }
    if s3.consumers[t].Claiming? {
      ClaimedNext(s3, t);
    }
  }

  lemma ClaimedIsSolo(s: Tickets.State, t: nat, max: nat)
    requires t < |s.consumers| && s.consumers[t].Idle? && |s.verdicts| == s.optimistic
    ensures Claimed(Tickets.Apply(s, Tickets.LoadTail(t, max)), t) == Tickets.Solo(s, t, max)
  {
    var s1 := Tickets.Apply(s, Tickets.LoadTail(t, max));
    var s2 := Tickets.Apply(s1, Tickets.LoadOvercommit(t));
    var s3 := Tickets.Apply(s2, Tickets.LoadOptimistic(t));
    assert Claimed(s1, t) == Claimed(s2, t) == Claimed(s3, t);
    if s3.consumers[t].Reserving? {
      ClaimedIsSoloRest(s3, t);
    }
  }

  lemma {:induction false} ClaimedKeepsOthers(s: Tickets.State, t: nat)
    requires t < |s.consumers|
    ensures Claimed(s, t).tail == s.tail && |Claimed(s, t).consumers| == |s.consumers|
    ensures Claimed(s, t).consumers == s.consumers[t := Claimed(s, t).consumers[t]]
    decreases StepsToClaim(s.consumers[t])
  {
    var e := TicketStep(s.consumers[t], t);
    if StepsToClaim(s.consumers[t]) > 0 && Tickets.HasVerdicts(s, e) {
      ClaimedKeepsOthers(Tickets.Apply(s, e), t);
    }
  }

  lemma {:induction false} AlonePlus<T>(s: State<T>, t: nat, j: nat, k: nat)
    ensures Alone(s, t, j + k) == Alone(Alone(s, t, j), t, k)
    decreases j
  {
    hide Apply, Defined, OwnStep;
    if j > 0 {
      if Busy(s, t) && Defined(s, OwnStep(s, t)) {
        AlonePlus(Apply(s, OwnStep(s, t)), t, j - 1, k);
      }
    }
  }

  /** How many elements a dequeue of up to max finds: those that no dequeue in flight is going for. */
  ghost function Available(s: Tickets.State, max: nat): nat {
    var left := s.tail - s.head - Tickets.InFlight(s);
    if left <= 0 then 0 else Min(max, left)
  }

  /** The next n elements from the head on have been handed out; the consumers are as they were. */
  ghost predicate HandedOut<T>(s: State<T>, s': State<T>, n: nat) {
    var head := s.queue.tickets.head;
    && head + n <= |s.queue.written|
    && s'.queue.delivered == s.queue.delivered + Values(s.queue.written, head, head + n)
    && s'.queue.tickets.head == head + n && s'.queue.tickets.tail == s.queue.tickets.tail
    && s'.queue.tickets.consumers == s.queue.tickets.consumers
    && s'.queue.written == s.queue.written && s'.queue.owner == s.queue.owner && s'.headers == s.headers
  }

  /** The first access of a dequeue. */
  lemma DequeueStarts<T>(s: State<T>, t: nat, max: nat)
    requires Inv(s) && Tickets.InWindow(s.queue.tickets) && t < |s.queue.tickets.consumers|
    requires s.queue.tickets.consumers[t].Idle?
    ensures t < |s.readers| && Defined(s, Consume(Tickets.LoadTail(t, max)))
    ensures var s1 := Apply(s, Consume(Tickets.LoadTail(t, max)));
      && Inv(s1) && |s1.readers| == |s.readers| && s1.headers == s.headers
      && |s1.queue.tickets.consumers| == |s.queue.tickets.consumers|
      && s1.queue == s.queue.(tickets := Tickets.Apply(s.queue.tickets, Tickets.LoadTail(t, max)))
  {
    HasHeader(s);
    assert |s.readers| == |s.queue.tickets.consumers|;
    hide Inv, Tickets.InWindow;
    StepKeepsInv(s, Consume(Tickets.LoadTail(t, max)));
  }

  lemma ServedIsHandedOut<T>(s: State<T>, s2: State<T>, s': State<T>, t: nat, n: nat)
    requires t < |s.queue.tickets.consumers| && s.queue.tickets.consumers[t].Idle?
    requires s2.queue == s.queue.(tickets := s2.queue.tickets) && s2.headers == s.headers
    requires s2.queue.tickets.tail == s.queue.tickets.tail && s2.queue.tickets.head == s.queue.tickets.head + n
    requires |s2.queue.tickets.consumers| == |s.queue.tickets.consumers|
    requires s2.queue.tickets.consumers == s.queue.tickets.consumers[t := s2.queue.tickets.consumers[t]]
    requires Served(s2, s', t, s.queue.tickets.head, s.queue.tickets.head + n)
    ensures HandedOut(s, s', n)
  {
    hide Values;
  }

  lemma NothingHandedOut<T>(s: State<T>, s': State<T>)
    requires s'.queue == s.queue && s'.headers == s.headers && s.queue.tickets.head <= |s.queue.written|
    ensures HandedOut(s, s', 0)
  {
    var head := s.queue.tickets.head;
    assert s.queue.delivered + Values(s.queue.written, head, head + 0) == s.queue.delivered;
  }

  lemma HeadIsWritten<T>(s: State<T>)
    requires Inv(s)
    ensures s.queue.tickets.head <= |s.queue.written|
  {
    Queue.HeadBelowTail(s.queue.tickets);
  }

  /** Consumer t has claimed the next n elements, or found none; nothing else has changed. */
  ghost predicate HasClaimed(q: Tickets.State, q': Tickets.State, t: nat, n: nat) {
    && t < |q.consumers| == |q'.consumers| && q.consumers[t].Idle?
    && q'.tail == q.tail && q'.head == q.head + n && q'.consumers == q.consumers[t := q'.consumers[t]]
    && (q'.consumers[t] == Tickets.Holding(q.head, n, 0) || (q' == q && n == 0))
  }

  /** What the claim of an undisturbed dequeue comes to. */
  lemma SoloClaims(s: Tickets.State, t: nat, max: nat)
    requires Tickets.Inv(s) && t < |s.consumers| && s.consumers[t].Idle?
    requires -HALF < s.tail - (s.optimistic - s.overcommit) < HALF
    ensures HasClaimed(s, Claimed(Tickets.Apply(s, Tickets.LoadTail(t, max)), t), t, Available(s, max))
  {
    ClaimedIsSolo(s, t, max);
    Tickets.SoloDequeueIsExact(s, t, max);
    ClaimedKeepsOthers(Tickets.Apply(s, Tickets.LoadTail(t, max)), t);
    hide Tickets.Solo, Tickets.Inv, Tickets.InFlight;
  }

  lemma ClaimOfSome<T>(s: State<T>, s': State<T>, t: nat, n: nat) returns (k: nat)
    requires Inv(s') && StaysInWindow(s', t) && t < |s'.readers|
    requires s'.headers == s.headers && s'.queue == s.queue.(tickets := s'.queue.tickets)
    requires HasClaimed(s.queue.tickets, s'.queue.tickets, t, n) && s'.queue.tickets.consumers[t].Holding?
    ensures HandedOut(s, Alone(s', t, k), n)
  {
    hide Inv, StaysInWindow, HandedOut, Served, Alone, Values, Looking;
    k := HoldingIsServed(s', t);
    ServedIsHandedOut(s, s', Alone(s', t, k), t, n);
  }

  lemma ClaimOfNone<T>(s: State<T>, s': State<T>, t: nat, n: nat)
    requires Inv(s) && s'.headers == s.headers && s'.queue == s.queue.(tickets := s'.queue.tickets)
    requires HasClaimed(s.queue.tickets, s'.queue.tickets, t, n) && !s'.queue.tickets.consumers[t].Holding?
    ensures HandedOut(s, Alone(s', t, 0), n)
  {
    HeadIsWritten(s);
    NothingHandedOut(s, s');
  }

  /** A claimed dequeue hands out what it has claimed. */
  lemma ClaimIsHandedOut<T>(s: State<T>, s': State<T>, t: nat, n: nat) returns (k: nat)
    requires Inv(s) && Inv(s') && StaysInWindow(s', t) && t < |s'.readers|
    requires s'.headers == s.headers && s'.queue == s.queue.(tickets := s'.queue.tickets)
    requires HasClaimed(s.queue.tickets, s'.queue.tickets, t, n)
    ensures HandedOut(s, Alone(s', t, k), n)
  {
    assert t < |s'.queue.tickets.consumers|;
    hide *;
    if s'.queue.tickets.consumers[t].Holding? {
      k := ClaimOfSome(s, s', t, n);
    } else {
      k := 0;
      ClaimOfNone(s, s', t, n);
    }
  }

  lemma Reachable<T(!new)>(ss: seq<State<T>>)
    requires Run(ss)
    ensures ss != []
    ensures var s := ss[|ss| - 1]; Inv(s) && Tickets.InWindow(s.queue.tickets) && Tickets.Inv(s.queue.tickets)
  {
    RunKeepsInv(ss);
    hide Tickets.Inv, Tickets.InWindow;
  }

  /**
   A dequeue that goes on alone, started in any reachable state: it hands out, in order and each with the value enqueued
   there, exactly the elements from the head on that no dequeue in flight is going for, up to max of them.
   */
  lemma SoloDequeueDelivers<T(!new)>(ss: seq<State<T>>, t: nat, max: nat) returns (k: nat)
    requires Run(ss) && t < |ss[|ss| - 1].queue.tickets.consumers|
    requires ss[|ss| - 1].queue.tickets.consumers[t].Idle?
    requires var q := ss[|ss| - 1].queue.tickets; -HALF < q.tail - (q.optimistic - q.overcommit) < HALF
    requires Defined(ss[|ss| - 1], Consume(Tickets.LoadTail(t, max))) ==>
      StaysInWindow(Apply(ss[|ss| - 1], Consume(Tickets.LoadTail(t, max))), t)
    ensures var s := ss[|ss| - 1];
      && Defined(s, Consume(Tickets.LoadTail(t, max)))
      && HandedOut(s, Alone(Apply(s, Consume(Tickets.LoadTail(t, max))), t, k), Available(s.queue.tickets, max))
  {
    hide *;
    Reachable(ss);
    var s := ss[|ss| - 1];
    DequeueStarts(s, t, max);
    SoloClaims(s.queue.tickets, t, max);
    var s1 := Apply(s, Consume(Tickets.LoadTail(t, max)));
    var j := AloneClaims(s1, t);
    var l := ClaimIsHandedOut(s, Alone(s1, t, j), t, Available(s.queue.tickets, max));
    AlonePlus(s1, t, j, l);
    k := j + l;
  }

  // ---------------------------------------------------------------- the producer

  /** The steps of a list, one after the other, lead from s to s'. */
  ghost predicate Leads<T>(s: State<T>, es: seq<Event<T>>, s': State<T>)
    decreases |es|
  {
    if es == [] then s' == s else Defined(s, es[0]) && Leads(Apply(s, es[0]), es[1..], s')
  }

  lemma {:induction false} LeadsOn<T>(s: State<T>, es: seq<Event<T>>, s': State<T>, es': seq<Event<T>>, s'': State<T>)
    requires Leads(s, es, s') && Leads(s', es', s'')
    ensures Leads(s, es + es', s'')
    decreases |es|
  {
    hide Apply, Defined;
    if es == [] {
      assert es + es' == es';
    } else {
      LeadsOn(Apply(s, es[0]), es[1..], s', es', s'');
      assert (es + es')[1..] == es[1..] + es';
    }
  }

  lemma LeadsByOne<T>(s: State<T>, e: Event<T>)
    requires Defined(s, e)
    ensures Leads(s, [e], Apply(s, e))
  {
    assert Leads(Apply(s, e), [e][1..], Apply(s, e));
  }

  /** The producer is between two calls: what is written is published, and the index shows every block. */
  ghost predicate Ready<T>(s: State<T>) {
    && s.headers != [] && Current(s).next == Current(s).shown == |s.queue.owner|
    && s.queue.tickets.tail == |s.queue.written| <= |s.queue.owner| * BLOCK_SIZE
  }

  predicate AtBoundary<T>(s: State<T>) {
    |s.queue.written| == |s.queue.owner| * BLOCK_SIZE
  }

  /** All elements of the block opened longest ago have been handed out. */
  ghost predicate OldestDone<T>(q: Queue.State<T>) {
    && 0 <= Oldest(q) < |q.owner|
    && forall i: nat :: Oldest(q) * BLOCK_SIZE <= i < (Oldest(q) + 1) * BLOCK_SIZE ==> i in q.delivered
  }

  /** The queue has one more element; consumers, index lookups and what was handed out are as before. */
  ghost predicate Appended<T>(s: State<T>, s': State<T>, v: T) {
    && s'.queue.written == s.queue.written + [v]
    && s'.queue.tickets == s.queue.tickets.(tail := s.queue.tickets.tail + 1)
    && s'.queue.delivered == s.queue.delivered && s'.readers == s.readers
  }

  /** Room for more elements has been made in block b; nothing that consumers see has changed. */
  ghost predicate MadeRoom<T>(s: State<T>, s': State<T>, b: nat) {
    && s'.queue.owner == s.queue.owner + [b] && s'.queue.written == s.queue.written
    && s'.queue.tickets == s.queue.tickets && s'.queue.delivered == s.queue.delivered && s'.readers == s.readers
  }

  lemma WriteAppends<T>(s: State<T>, v: T)
    requires Inv(s) && Ready(s) && !AtBoundary(s)
    ensures Defined(s, Write(v)) && Defined(Apply(s, Write(v)), Publish(1))
    ensures var s' := Apply(Apply(s, Write(v)), Publish(1));
      Inv(s') && Ready(s') && Appended(s, s', v) && s'.queue.owner == s.queue.owner
  {
    WriteKeepsInv(s, v);
    var s1 := Apply(s, Write(v));
    hide Inv;
    PublishKeepsInv(s1, 1);
  }

  lemma SoloAppend<T>(s: State<T>, v: T) returns (s': State<T>)
    requires Inv(s) && Ready(s) && !AtBoundary(s)
    ensures Leads(s, [Write(v), Publish(1)], s')
    ensures Inv(s') && Ready(s') && Appended(s, s', v) && s'.queue.owner == s.queue.owner
  {
    hide Inv, Ready, AtBoundary, Apply, Defined, Appended;
    WriteAppends(s, v);
    s' := Apply(Apply(s, Write(v)), Publish(1));
    LeadsByOne(s, Write(v));
    LeadsByOne(Apply(s, Write(v)), Publish(1));
    LeadsOn(s, [Write(v)], Apply(s, Write(v)), [Publish(1)], s');
    assert [Write(v)] + [Publish(1)] == [Write(v), Publish(1)];
  }

  /** Block b can be opened: the oldest one if it is done, or a new one that has a slot in the index. */
  ghost predicate CanOpen<T>(s: State<T>, b: nat, cells: seq<T>) {
    && s.headers != []
    && if b < |s.queue.blocks| then
         OldestDone(s.queue) && b == s.queue.owner[Oldest(s.queue)] && cells == s.queue.blocks[b].cells
       else b == |s.queue.blocks| && |cells| == BLOCK_SIZE && |s.queue.blocks| < |Current(s).entries|
  }

  /** The block opened longest ago still serves the elements it was opened for. */
  lemma OldestServes<T>(q: Queue.State<T>)
    requires Queue.BlocksOk(q) && RingInOrder(q) && 0 <= Oldest(q) < |q.owner|
    ensures q.owner[Oldest(q)] < |q.blocks| && q.blocks[q.owner[Oldest(q)]].base == Oldest(q)
  {
    if b :| 0 <= b < |q.blocks| && q.blocks[b].base == Oldest(q) {
    } else {
      var after := seq(|q.blocks|, b requires 0 <= b < |q.blocks| => q.blocks[b].base - Oldest(q) - 1);
      forall b, c | 0 <= b < c < |after| ensures after[b] != after[c] {
        assert q.owner[q.blocks[b].base] == b && q.owner[q.blocks[c].base] == c;
      }
      DistinctBelow(after, |q.owner| - Oldest(q) - 1);
      assert false;
    }
  }

  lemma OldestIsEmpty<T>(q: Queue.State<T>)
    requires Queue.BlocksOk(q) && RingInOrder(q) && OldestDone(q)
    ensures q.owner[Oldest(q)] < |q.blocks| && Queue.IsEmpty(q.blocks[q.owner[Oldest(q)]])
  {
    OldestServes(q);
    hide RingInOrder;
    var block := q.blocks[q.owner[Oldest(q)]];
    forall o | 0 <= o < |block.emptyFlags| ensures block.emptyFlags[o] {
      assert block.base * BLOCK_SIZE + o in q.delivered;
    }
  }

  lemma OpenMakesRoom<T>(s: State<T>, b: nat, cells: seq<T>)
    requires Inv(s) && Ready(s) && AtBoundary(s) && CanOpen(s, b, cells)
    ensures Defined(s, OpenBlock(b, cells))
    ensures var s' := Apply(s, OpenBlock(b, cells));
      && Inv(s') && MadeRoom(s, s', b) && s'.headers == s.headers && s.headers != []
  {
    assert Queue.BlocksOk(s.queue) && RingInOrder(s.queue);
    hide Inv;
    if b < |s.queue.blocks| {
      OldestIsEmpty(s.queue);
    }
    hide Queue.BlocksOk, RingInOrder, Queue.IsEmpty, OldestDone;
    OpenKeepsInv(s, b, cells);
  }

  lemma EntryIsShown<T>(s: State<T>)
    requires Inv(s) && Enabled(s, WriteEntry) && Current(s).next + 1 == |s.queue.owner|
    requires s.queue.tickets.tail == |s.queue.written| == (|s.queue.owner| - 1) * BLOCK_SIZE
    ensures Defined(s, WriteEntry) && Defined(Apply(s, WriteEntry), ShowFront)
    ensures var s' := Apply(Apply(s, WriteEntry), ShowFront);
      Inv(s') && Ready(s') && !AtBoundary(s') && s'.queue == s.queue && s'.readers == s.readers
  {
    WriteEntryKeepsInv(s);
    hide Inv;
    ShowFrontKeepsInv(Apply(s, WriteEntry));
  }

  /** At a block boundary: a block is opened, entered in the index, and shown. */
  lemma SoloStart<T>(s: State<T>, b: nat, cells: seq<T>) returns (s': State<T>)
    requires Inv(s) && Ready(s) && AtBoundary(s) && CanOpen(s, b, cells)
    ensures Leads(s, [OpenBlock(b, cells), WriteEntry, ShowFront], s')
    ensures Inv(s') && Ready(s') && !AtBoundary(s') && MadeRoom(s, s', b)
  {
    OpenMakesRoom(s, b, cells);
    var open: Event<T>, entry: Event<T>, show: Event<T> := OpenBlock(b, cells), WriteEntry, ShowFront;
    var s1 := Apply(s, open);
    assert Enabled(s1, WriteEntry);
    hide Inv, Apply, Defined, Leads, CanOpen, Enabled;
    EntryIsShown(s1);
    var s2 := Apply(s1, entry);
    s' := Apply(s2, show);
    LeadsByOne(s, open);
    LeadsByOne(s1, entry);
    LeadsByOne(s2, show);
    LeadsOn(s, [open], s1, [entry], s2);
    LeadsOn(s, [open] + [entry], s2, [show], s');
    assert [open] + [entry] + [show] == [open, entry, show];
  }

  /** A full index is replaced by one twice the size; the queue and the lookups under way do not notice. */
  lemma SoloGrow<T>(s: State<T>)
    requires Inv(s) && Ready(s) && Current(s).exponent < Producer.RANGE_EXPONENT
    ensures Defined(s, Grow(|s.queue.blocks|))
    ensures var s' := Apply(s, Grow(|s.queue.blocks|));
      && Inv(s') && Ready(s') && s'.queue == s.queue && s'.readers == s.readers
      && |Current(s').entries| == 2 * |Current(s).entries| && |s'.headers| == |s.headers| + 1
      && s'.headers[..|s.headers|] == s.headers
  {
    assert RingInOrder(s.queue);
    hide Inv;
    GrowKeepsInv(s, |s.queue.blocks|);
  }

  /** All the steps of an enqueue, with those for a new block and a larger index where they are needed. */
  function EnqueueSteps<T>(s: State<T>, v: T, b: nat, cells: seq<T>): seq<Event<T>>
    requires s.headers != []
  {
    (if AtBoundary(s) && b >= |s.queue.blocks| == |Current(s).entries| then [Grow(|s.queue.blocks|)] else [])
    + (if AtBoundary(s) then [OpenBlock(b, cells), WriteEntry, ShowFront] else [])
    + [Write(v), Publish(1)]
  }

  /** A block for the next element: the oldest one if it is done, or a new one unless the index cannot grow for it. */
  ghost predicate CanStart<T>(s: State<T>, b: nat, cells: seq<T>) {
    && s.headers != []
    && if b < |s.queue.blocks| then
         OldestDone(s.queue) && b == s.queue.owner[Oldest(s.queue)] && cells == s.queue.blocks[b].cells
       else
         && b == |s.queue.blocks| && |cells| == BLOCK_SIZE
         && (|s.queue.blocks| < |Current(s).entries| || Current(s).exponent < Producer.RANGE_EXPONENT)
  }

  lemma EntriesEnough<T>(s: State<T>)
    requires Inv(s)
    ensures s.headers != [] && |s.queue.blocks| <= |Current(s).entries| && |Current(s).entries| > 0
  {
  }

  /** An enqueue between block boundaries or at one, when the index has room. */
  lemma EnqueueInRoom<T>(s: State<T>, v: T, b: nat, cells: seq<T>) returns (s': State<T>)
    requires Inv(s) && Ready(s) && (AtBoundary(s) ==> CanOpen(s, b, cells))
    ensures Inv(s') && Ready(s') && Appended(s, s', v)
    ensures s'.queue.owner == if AtBoundary(s) then s.queue.owner + [b] else s.queue.owner
    ensures Leads(s, (if AtBoundary(s) then [OpenBlock(b, cells), WriteEntry, ShowFront] else [])
                     + [Write(v), Publish(1)], s')
  {
    hide Inv, Ready, Leads, CanOpen, Apply, Defined;
    if AtBoundary(s) {
      var s1 := SoloStart(s, b, cells);
      s' := SoloAppend(s1, v);
      LeadsOn(s, [OpenBlock(b, cells), WriteEntry, ShowFront], s1, [Write(v), Publish(1)], s');
    } else {
      s' := SoloAppend(s, v);
      assert [] + [Write(v), Publish(1)] == [Write(v), Publish(1)];
    }
  }

  lemma EnqueueAfterGrowth<T>(s: State<T>, v: T, b: nat, cells: seq<T>) returns (s': State<T>)
    requires Inv(s) && Ready(s) && AtBoundary(s) && CanStart(s, b, cells)
    requires b >= |s.queue.blocks| == |Current(s).entries| > 0
    ensures Leads(s, EnqueueSteps(s, v, b, cells), s')
    ensures Inv(s') && Ready(s') && Appended(s, s', v) && s'.queue.owner == s.queue.owner + [b]
  {
    hide Inv, Ready, Leads, OldestDone, Apply, Defined;
    SoloGrow(s);
    var grow: Event<T> := Grow(|s.queue.blocks|);
    var s1 := Apply(s, grow);
    LeadsByOne(s, grow);
    assert CanOpen(s1, b, cells) && AtBoundary(s1);
    s' := EnqueueInRoom(s1, v, b, cells);
    hide CanStart, CanOpen;
    var rest := [OpenBlock(b, cells), WriteEntry, ShowFront] + [Write(v), Publish(1)];
    LeadsOn(s, [grow], s1, rest, s');
    assert [grow] + rest == EnqueueSteps(s, v, b, cells);
  }

  lemma EnqueueDoes<T>(s: State<T>, v: T, b: nat, cells: seq<T>) returns (s': State<T>)
    requires Inv(s) && Ready(s) && (AtBoundary(s) ==> CanStart(s, b, cells))
    ensures s.headers != [] && Leads(s, EnqueueSteps(s, v, b, cells), s')
    ensures Inv(s') && Ready(s') && Appended(s, s', v)
    ensures s'.queue.owner == if AtBoundary(s) then s.queue.owner + [b] else s.queue.owner
  {
    hide Inv, Ready, Leads, Appended, OldestDone, AtBoundary;
    EntriesEnough(s);
    if AtBoundary(s) && b >= |s.queue.blocks| == |Current(s).entries| {
      s' := EnqueueAfterGrowth(s, v, b, cells);
    } else {
      s' := EnqueueInRoom(s, v, b, cells);
      assert EnqueueSteps(s, v, b, cells)
          == (if AtBoundary(s) then [OpenBlock(b, cells), WriteEntry, ShowFront] else []) + [Write(v), Publish(1)];
    }
  }

  /**
   An enqueue that goes on alone, started between two calls of the producer in any reachable state, wherever the
   consumers have stopped: it appends the element, and nothing else about the queue or a lookup under way changes.
   */
  lemma SoloEnqueueAppends<T(!new)>(ss: seq<State<T>>, v: T, b: nat, cells: seq<T>) returns (s': State<T>)
    requires Run(ss) && Ready(ss[|ss| - 1]) && (AtBoundary(ss[|ss| - 1]) ==> CanStart(ss[|ss| - 1], b, cells))
    ensures var s := ss[|ss| - 1];
      && s.headers != [] && Leads(s, EnqueueSteps(s, v, b, cells), s')
      && Appended(s, s', v) && Ready(s')
      && s'.queue.owner == if AtBoundary(s) then s.queue.owner + [b] else s.queue.owner
  {
    hide *;
    Reachable(ss);
    s' := EnqueueDoes(ss[|ss| - 1], v, b, cells);
  }
}
