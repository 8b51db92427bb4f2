/**
 The reference-counted lock-free free list, for any number of threads and nodes. Each event is one atomic step of
 `add`, `add_knowing_refcount_is_zero` or `try_get`. A node's 32-bit reference word holds a count in its low 31 bits
 and the should-be-on-free-list flag in its top bit.
 */
module FreeList {
  import opened Options

  const SHOULD_BE_ON_FREELIST: nat := 0x8000_0000
  const REFS_RANGE: nat := 0x1_0000_0000

  /** What a thread does once `add_knowing_refcount_is_zero` returns: leave `add`, or go on in the loop of `try_get`. */
  datatype After = Done | Resume(head: Option<nat>)

  datatype Thread =
    | Idle
    | PushLoad(n: nat, after: After)
    | PushLink(n: nat, seen: Option<nat>, after: After)
    | PushRef(n: nat, seen: Option<nat>, after: After)
    | PushCas(n: nat, seen: Option<nat>, after: After)
    | PushBack(n: nat, seen: Option<nat>, after: After)
    | GetLoop(head: Option<nat>)
    | GetRefs(n: nat, refs: nat)
    | GetReload
    | GetNext(n: nat)
    | GetCas(n: nat, next: Option<nat>)
    | GetTake(n: nat)
    | GetDrop(n: nat, seen: Option<nat>)

  /** History: where a node is in its life. `Owned` nodes are in the hands of the list's users. */
  datatype Phase = Owned | Deferred | Pushing(t: nat) | Listed | Taken(t: nat)

  datatype State = State(
    head: Option<nat>,
    refs: seq<nat>,
    next: seq<Option<nat>>,
    threads: seq<Thread>,
    phase: seq<Phase>,
    list: seq<nat>)

  /** A step of thread t; `Add` and `TryGet` start an operation on an idle thread. */
  datatype Event = Add(t: nat, n: nat) | TryGet(t: nat) | Step(t: nat)

  function Init(threads: nat, nodes: nat): State {
    State(None, seq(nodes, _ => 0), seq(nodes, _ => None), seq(threads, _ => Idle), seq(nodes, _ => Owned), [])
  }

  predicate Fits(h: Option<nat>, nodes: nat) {
    h.Some? ==> h.value < nodes
  }

  predicate AfterFits(a: After, nodes: nat) {
    a.Resume? ==> Fits(a.head, nodes)
  }

  predicate ThreadFits(c: Thread, nodes: nat) {
    match c
    case Idle => true
    case PushLoad(n, a) => n < nodes && AfterFits(a, nodes)
    case PushLink(n, h, a) => n < nodes && Fits(h, nodes) && AfterFits(a, nodes)
    case PushRef(n, h, a) => n < nodes && Fits(h, nodes) && AfterFits(a, nodes)
    case PushCas(n, h, a) => n < nodes && Fits(h, nodes) && AfterFits(a, nodes)
    case PushBack(n, h, a) => n < nodes && Fits(h, nodes) && AfterFits(a, nodes)
    case GetLoop(h) => Fits(h, nodes)
    case GetRefs(n, _) => n < nodes
    case GetReload => true
    case GetNext(n) => n < nodes
    case GetCas(n, x) => n < nodes && Fits(x, nodes)
    case GetTake(n) => n < nodes
    case GetDrop(n, h) => n < nodes && Fits(h, nodes)
  }

  /** Every node mentioned exists. */
  predicate Shaped(s: State) {
    && |s.next| == |s.phase| == |s.refs|
    && Fits(s.head, |s.refs|)
    && (forall n :: 0 <= n < |s.next| ==> Fits(s.next[n], |s.refs|))
    && (forall t :: 0 <= t < |s.threads| ==> ThreadFits(s.threads[t], |s.refs|))
  }

  /** The users add only nodes they own. */
  predicate Enabled(s: State, e: Event) {
    && Shaped(s)
    && e.t < |s.threads|
    && match e
       case Add(t, n) => s.threads[t].Idle? && n < |s.refs| && s.phase[n].Owned?
       case TryGet(t) => s.threads[t].Idle?
       case Step(t) => !s.threads[t].Idle?
  }

  function Continue(a: After): Thread {
    match a case Done => Idle case Resume(h) => GetLoop(h)
  }

  function Sub(x: nat, y: nat): nat
    requires y <= REFS_RANGE
  {
    (x + REFS_RANGE - y) % REFS_RANGE
  }

  function Apply(s: State, e: Event): State
    requires Enabled(s, e)
  {
    match e
    case Add(t, n) =>
      var s1 := s.(refs := s.refs[n := (s.refs[n] + SHOULD_BE_ON_FREELIST) % REFS_RANGE]);
      if s.refs[n] == 0
      then s1.(phase := s.phase[n := Pushing(t)], threads := s.threads[t := PushLoad(n, Done)])
      else s1.(phase := s.phase[n := Deferred])
    case TryGet(t) => s.(threads := s.threads[t := GetLoop(s.head)])
    case Step(t) =>
      match s.threads[t]
      case Idle => s
      case PushLoad(n, a) => s.(threads := s.threads[t := PushLink(n, s.head, a)])
      case PushLink(n, h, a) => s.(next := s.next[n := h], threads := s.threads[t := PushRef(n, h, a)])
      case PushRef(n, h, a) => s.(refs := s.refs[n := 1], threads := s.threads[t := PushCas(n, h, a)])
      case PushCas(n, h, a) =>
        if s.head == h
        then s.(head := Some(n), list := [n] + s.list, phase := s.phase[n := Listed],
                threads := s.threads[t := Continue(a)])
        else s.(threads := s.threads[t := PushBack(n, s.head, a)])
      case PushBack(n, h, a) =>
        var s1 := s.(refs := s.refs[n := (s.refs[n] + SHOULD_BE_ON_FREELIST - 1) % REFS_RANGE]);
        if s.refs[n] == 1
        then s1.(threads := s.threads[t := PushLink(n, h, a)])
        else s1.(phase := s.phase[n := Deferred], threads := s.threads[t := Continue(a)])
      case GetLoop(h) =>
        s.(threads := s.threads[t := match h case None => Idle case Some(n) => GetRefs(n, s.refs[n])])
      case GetRefs(n, r) =>
        if r % SHOULD_BE_ON_FREELIST == 0 || s.refs[n] != r
        then s.(threads := s.threads[t := GetReload])
        else s.(refs := s.refs[n := (r + 1) % REFS_RANGE], threads := s.threads[t := GetNext(n)])
      case GetReload => s.(threads := s.threads[t := GetLoop(s.head)])
      case GetNext(n) => s.(threads := s.threads[t := GetCas(n, s.next[n])])
      case GetCas(n, x) =>
        if s.head == Some(n)
        then s.(head := x, list := if s.list == [] then [] else s.list[1..], phase := s.phase[n := Taken(t)],
                threads := s.threads[t := GetTake(n)])
        else s.(threads := s.threads[t := GetDrop(n, s.head)])
      case GetTake(n) =>
        s.(refs := s.refs[n := Sub(s.refs[n], 2)], phase := s.phase[n := Owned], threads := s.threads[t := Idle])
      case GetDrop(n, h) =>
        var s1 := s.(refs := s.refs[n := Sub(s.refs[n], 1)]);
        if s.refs[n] == SHOULD_BE_ON_FREELIST + 1
        then s1.(phase := s.phase[n := Pushing(t)], threads := s.threads[t := PushLoad(n, Resume(h))])
        else s1.(threads := s.threads[t := GetLoop(h)])
  }

  // ---------------------------------------------------------------- the invariant

  predicate Holds(c: Thread, n: nat) {
    (c.GetNext? || c.GetCas? || c.GetDrop?) && c.n == n
  }

  /** How many threads hold a reference to n on their own account. */
  function Holders(cs: seq<Thread>, n: nat): (k: nat)
    ensures k <= |cs|
  {
    if cs == [] then 0 else Holders(cs[..|cs| - 1], n) + (if Holds(cs[|cs| - 1], n) then 1 else 0)
  }

  predicate IsPush(c: Thread) {
    c.PushLoad? || c.PushLink? || c.PushRef? || c.PushCas? || c.PushBack?
  }

  predicate Pushes(c: Thread, n: nat) {
    IsPush(c) && c.n == n
  }

  predicate Chain(head: Option<nat>, next: seq<Option<nat>>, list: seq<nat>)
    decreases |list|
  {
    if list == [] then head == None
    else head == Some(list[0]) && list[0] < |next| && Chain(next[list[0]], next, list[1..])
  }

  /** The reference word of n, read off its phase and the references held. */
  ghost predicate RefsOk(s: State, n: nat)
    requires Shaped(s) && n < |s.refs|
  {
    var h := Holders(s.threads, n);
    match s.phase[n]
    case Owned => s.refs[n] == h
    case Deferred => h > 0 && s.refs[n] == SHOULD_BE_ON_FREELIST + h
    case Listed => s.refs[n] == 1 + h
    case Taken(t) => s.refs[n] == 2 + h && t < |s.threads| && s.threads[t] == GetTake(n)
    case Pushing(t) =>
      && t < |s.threads| && Pushes(s.threads[t], n)
      && if s.threads[t].PushCas? || s.threads[t].PushBack? then s.refs[n] == 1 + h
         else h == 0 && s.refs[n] == SHOULD_BE_ON_FREELIST
  }

  /** A thread at work on a node owns its phase, and what it remembers of the node's link is still true. */
  ghost predicate ThreadOk(s: State, t: nat)
    requires Shaped(s) && t < |s.threads|
  {
    var c := s.threads[t];
    && (IsPush(c) ==> s.phase[c.n] == Pushing(t))
    && (c.GetTake? ==> s.phase[c.n] == Taken(t))
    && (c.PushRef? || c.PushCas? ==> s.next[c.n] == c.seen)
    && (c.GetCas? ==> s.next[c.n] == c.next)
  }

  /** The list is a finite chain without repetition, of exactly the listed nodes. */
  ghost predicate ListOk(s: State)
    requires Shaped(s)
  {
    && Chain(s.head, s.next, s.list)
    && (forall i, j :: 0 <= i < j < |s.list| ==> s.list[i] != s.list[j])
    && (forall n :: n in s.list ==> n < |s.refs|)
    && (forall n :: 0 <= n < |s.refs| ==> (n in s.list <==> s.phase[n].Listed?))
  }

  ghost predicate Inv(s: State) {
    && Shaped(s)
    && |s.threads| < SHOULD_BE_ON_FREELIST - 2
    && (forall n :: 0 <= n < |s.refs| ==> RefsOk(s, n))
    && (forall t :: 0 <= t < |s.threads| ==> ThreadOk(s, t))
    && ListOk(s)
  }

  // ---------------------------------------------------------------- framing

  lemma {:induction false} HoldersUpdate(cs: seq<Thread>, t: nat, c: Thread, n: nat)
    requires t < |cs|
    ensures Holders(cs[t := c], n) + (if Holds(cs[t], n) then 1 else 0)
      == Holders(cs, n) + (if Holds(c, n) then 1 else 0)
  {
    var last := |cs| - 1;
    if t == last {
      assert cs[t := c][..last] == cs[..last];
    } else {
      assert cs[t := c][..last] == cs[..last][t := c];
      HoldersUpdate(cs[..last], t, c, n);
    }
  }

  lemma {:induction false} HoldersOfNone(cs: seq<Thread>, n: nat)
    requires forall t :: 0 <= t < |cs| ==> !Holds(cs[t], n)
    ensures Holders(cs, n) == 0
  {
    if cs != [] {
      HoldersOfNone(cs[..|cs| - 1], n);
    }
  }

  lemma {:induction false} ChainIgnores(head: Option<nat>, next: seq<Option<nat>>, list: seq<nat>, n: nat,
                                        h: Option<nat>)
    requires Chain(head, next, list) && n < |next| && n !in list
    ensures Chain(head, next[n := h], list)
    decreases |list|
  {
    if list != [] {
      ChainIgnores(next[list[0]], next, list[1..], n, h);
    }
  }

  /** The thread's step can concern node m only. */
  ghost predicate Concerns(c: Thread, m: nat) {
    forall n :: Pushes(c, n) || Holds(c, n) || c == GetTake(n) ==> n == m
  }

  /** Thread t moved, and of the nodes only m changed. */
  ghost predicate Local(s: State, s': State, t: nat, m: nat) {
    && Shaped(s) && Shaped(s') && t < |s.threads| && m < |s.refs|
    && |s'.refs| == |s.refs| && |s'.threads| == |s.threads|
    && s'.threads == s.threads[t := s'.threads[t]]
    && Concerns(s.threads[t], m) && Concerns(s'.threads[t], m)
    && (forall n :: 0 <= n < |s.refs| && n != m ==>
          s'.refs[n] == s.refs[n] && s'.phase[n] == s.phase[n] && s'.next[n] == s.next[n])
  }

  lemma OtherNodesKeep(s: State, s': State, t: nat, m: nat, n: nat)
    requires Inv(s) && Local(s, s', t, m) && n < |s.refs| && n != m
    ensures RefsOk(s', n)
  {
    assert RefsOk(s, n);
    HoldersUpdate(s.threads, t, s'.threads[t], n);
  }

  lemma OtherThreadsKeep(s: State, s': State, t: nat, m: nat, u: nat)
    requires Inv(s) && Local(s, s', t, m) && u < |s.threads| && u != t
    requires s'.phase[m] != s.phase[m] ==> s.phase[m] != Pushing(u) && s.phase[m] != Taken(u)
    requires s'.next[m] != s.next[m] ==> s.phase[m] == Pushing(t) && Holders(s.threads, m) == 0
    ensures ThreadOk(s', u)
  {
    assert ThreadOk(s, u);
    HoldersUpdate(s.threads, u, Idle, m);
  }

  /** What remains to be shown for a local step: node m, thread t and the list. */
  lemma LocalStep(s: State, s': State, t: nat, m: nat)
    requires Inv(s) && Local(s, s', t, m)
    requires s'.phase[m] != s.phase[m] ==> (s.phase[m].Pushing? || s.phase[m].Taken? ==> s.phase[m].t == t)
    requires s'.next[m] != s.next[m] ==> s.phase[m] == Pushing(t) && Holders(s.threads, m) == 0
    requires RefsOk(s', m) && ThreadOk(s', t) && ListOk(s')
    ensures Inv(s')
  {
    forall n | 0 <= n < |s'.refs| ensures RefsOk(s', n) {
      if n != m {
        OtherNodesKeep(s, s', t, m, n);
      }
    }
    forall u | 0 <= u < |s'.threads| ensures ThreadOk(s', u) {
      if u != t {
        OtherThreadsKeep(s, s', t, m, u);
      }
    }
  }

  // ---------------------------------------------------------------- steps

  lemma ListUnchanged(s: State, s': State)
    requires Inv(s) && Shaped(s') && |s'.refs| == |s.refs|
    requires s'.head == s.head && s'.next == s.next && s'.list == s.list
    requires forall n :: 0 <= n < |s.refs| ==> (s'.phase[n].Listed? <==> s.phase[n].Listed?)
    ensures ListOk(s')
  {
  }

  lemma AddKeepsInv(s: State, t: nat, n: nat)
    requires Inv(s) && Enabled(s, Add(t, n))
    ensures Inv(Apply(s, Add(t, n)))
  {
    hide Holders, Chain, ListOk;
    var s' := Apply(s, Add(t, n));
    assert RefsOk(s, n);
    HoldersUpdate(s.threads, t, s'.threads[t], n);
    ListUnchanged(s, s');
    assert s'.threads == s.threads[t := s'.threads[t]];
    LocalStep(s, s', t, n);
  }

  /** Pushing steps short of the compare-and-swap. */
  lemma PushPrepareKeepsInv(s: State, t: nat)
    requires Inv(s) && Enabled(s, Step(t))
    requires s.threads[t].PushLoad? || s.threads[t].PushLink? || s.threads[t].PushRef?
    ensures Inv(Apply(s, Step(t)))
  {
    hide Holders;
    var s' := Apply(s, Step(t));
    var n := s.threads[t].n;
    assert ThreadOk(s, t) && RefsOk(s, n);
    HoldersUpdate(s.threads, t, s'.threads[t], n);
    if s.threads[t].PushLink? {
      ChainIgnores(s.head, s.next, s.list, n, s.threads[t].seen);
    }
    LocalStep(s, s', t, n);
  }

  lemma PushCasKeepsInv(s: State, t: nat)
    requires Inv(s) && Enabled(s, Step(t)) && s.threads[t].PushCas?
    ensures Inv(Apply(s, Step(t)))
  {
    hide Holders;
    var s' := Apply(s, Step(t));
    var n := s.threads[t].n;
    assert ThreadOk(s, t) && RefsOk(s, n);
    HoldersUpdate(s.threads, t, s'.threads[t], n);
    if s.head == s.threads[t].seen {
      assert s'.list[1..] == s.list;
    }
    LocalStep(s, s', t, n);
  }

  lemma PushBackKeepsInv(s: State, t: nat)
    requires Inv(s) && Enabled(s, Step(t)) && s.threads[t].PushBack?
    ensures Inv(Apply(s, Step(t)))
  {
    hide Holders, Chain, ListOk;
    var s' := Apply(s, Step(t));
    var n := s.threads[t].n;
    assert ThreadOk(s, t) && RefsOk(s, n);
    HoldersUpdate(s.threads, t, s'.threads[t], n);
    ListUnchanged(s, s');
    LocalStep(s, s', t, n);
  }

  /** A thread that is at no node moves to a place at no node. */
  lemma IdleMoveKeepsInv(s: State, t: nat, c: Thread)
    requires Inv(s) && t < |s.threads| && ThreadFits(c, |s.refs|)
    requires forall n :: 0 <= n < |s.refs| ==> !Holds(s.threads[t], n) && !Holds(c, n)
    requires !IsPush(s.threads[t]) && !s.threads[t].GetTake? && !IsPush(c) && !c.GetTake? && !c.GetCas?
    ensures Inv(s.(threads := s.threads[t := c]))
  {
    var s' := s.(threads := s.threads[t := c]);
    forall n | 0 <= n < |s'.refs| ensures RefsOk(s', n) {
      assert RefsOk(s, n);
      HoldersUpdate(s.threads, t, c, n);
    }
    forall u | 0 <= u < |s'.threads| ensures ThreadOk(s', u) {
      assert ThreadOk(s, u);
    }
    ListUnchanged(s, s');
  }

  /** The test and the compare-and-swap by which `try_get` takes a reference both succeed. */
  predicate Acquires(s: State, t: nat)
    requires Shaped(s) && t < |s.threads| && s.threads[t].GetRefs?
  {
    s.threads[t].refs % SHOULD_BE_ON_FREELIST != 0 && s.refs[s.threads[t].n] == s.threads[t].refs
  }

  lemma GetLookKeepsInv(s: State, t: nat)
    requires Inv(s) && Enabled(s, Step(t))
    requires s.threads[t].GetLoop? || s.threads[t].GetReload? || (s.threads[t].GetRefs? && !Acquires(s, t))
    ensures Inv(Apply(s, Step(t)))
  {
    IdleMoveKeepsInv(s, t, Apply(s, Step(t)).threads[t]);
  }

  /** A node whose count is not zero is not being linked by anyone, so it may be held. */
  lemma AcquireKeepsInv(s: State, t: nat)
    requires Inv(s) && Enabled(s, Step(t)) && s.threads[t].GetRefs? && Acquires(s, t)
    ensures Inv(Apply(s, Step(t)))
  {
    hide Holders, Chain, ListOk;
    var s' := Apply(s, Step(t));
    var n := s.threads[t].n;
    assert RefsOk(s, n);
    HoldersUpdate(s.threads, t, s'.threads[t], n);
    assert RefsOk(s', n) by {
      assert s'.phase[n] == s.phase[n];
      assert s'.refs[n] == s.refs[n] + 1;
      if s.phase[n].Pushing? {
        assert ThreadOk(s, s.phase[n].t);
      }
    }
    ListUnchanged(s, s');
    LocalStep(s, s', t, n);
  }

  lemma GetNextKeepsInv(s: State, t: nat)
    requires Inv(s) && Enabled(s, Step(t)) && s.threads[t].GetNext?
    ensures Inv(Apply(s, Step(t)))
  {
    hide Holders, Chain, ListOk;
    var s' := Apply(s, Step(t));
    var n := s.threads[t].n;
    assert RefsOk(s, n);
    HoldersUpdate(s.threads, t, s'.threads[t], n);
    assert RefsOk(s', n) by {
      assert s'.phase[n] == s.phase[n] && s'.refs[n] == s.refs[n];
    }
    ListUnchanged(s, s');
    LocalStep(s, s', t, n);
  }

  lemma PopKeepsList(s: State, s': State, n: nat)
    requires Inv(s) && Shaped(s') && |s'.refs| == |s.refs| && s.head == Some(n) && n < |s.refs|
    requires s'.head == s.next[n] && s'.next == s.next && s.list != [] && s'.list == s.list[1..]
    requires forall k :: 0 <= k < |s.refs| && k != n ==> s'.phase[k] == s.phase[k]
    requires !s'.phase[n].Listed?
    ensures ListOk(s')
  {
    assert s.list[0] == n;
    forall k | 0 <= k < |s.refs| ensures k in s'.list <==> s'.phase[k].Listed? {
      assert s.list == [n] + s'.list;
      assert k in s.list <==> k == n || k in s'.list;
    }
    assert forall k :: k in s'.list ==> k in s.list;
  }

  lemma GetCasKeepsInv(s: State, t: nat)
    requires Inv(s) && Enabled(s, Step(t)) && s.threads[t].GetCas?
    ensures Inv(Apply(s, Step(t)))
  {
    hide Holders;
    var s' := Apply(s, Step(t));
    var n := s.threads[t].n;
    assert ThreadOk(s, t) && RefsOk(s, n);
    HoldersUpdate(s.threads, t, s'.threads[t], n);
    if s.head == Some(n) {
      assert s.list[0] == n;
      PopKeepsList(s, s', n);
    } else {
      assert RefsOk(s', n) by {
        assert s'.phase[n] == s.phase[n] && s'.refs[n] == s.refs[n];
      }
      ListUnchanged(s, s');
    }
    LocalStep(s, s', t, n);
  }

  lemma GetTakeKeepsInv(s: State, t: nat)
    requires Inv(s) && Enabled(s, Step(t)) && s.threads[t].GetTake?
    ensures Inv(Apply(s, Step(t)))
    ensures s.refs[s.threads[t].n] < SHOULD_BE_ON_FREELIST
  {
    hide Holders, Chain, ListOk;
    var s' := Apply(s, Step(t));
    var n := s.threads[t].n;
    assert ThreadOk(s, t) && RefsOk(s, n);
    HoldersUpdate(s.threads, t, s'.threads[t], n);
    ListUnchanged(s, s');
    LocalStep(s, s', t, n);
  }

  lemma GetDropKeepsInv(s: State, t: nat)
    requires Inv(s) && Enabled(s, Step(t)) && s.threads[t].GetDrop?
    ensures Inv(Apply(s, Step(t)))
  {
    hide Holders, Chain, ListOk;
    var s' := Apply(s, Step(t));
    var n := s.threads[t].n;
    assert RefsOk(s, n);
    HoldersUpdate(s.threads, t, Idle, n);
    HoldersUpdate(s.threads, t, s'.threads[t], n);
    assert s'.refs[n] == s.refs[n] - 1;
    assert RefsOk(s', n) by {
      assert s.refs[n] != SHOULD_BE_ON_FREELIST + 1 ==> s'.phase[n] == s.phase[n];
    }
    ListUnchanged(s, s');
    LocalStep(s, s', t, n);
  }

  lemma StepKeepsInv(s: State, e: Event)
    requires Inv(s) && Enabled(s, e)
    ensures Inv(Apply(s, e))
  {
    match e
    case Add(t, n) => AddKeepsInv(s, t, n);
    case TryGet(t) => IdleMoveKeepsInv(s, t, GetLoop(s.head));
    case Step(t) =>
      match s.threads[t]
      case Idle =>
      case PushLoad(_, _) => PushPrepareKeepsInv(s, t);
      case PushLink(_, _, _) => PushPrepareKeepsInv(s, t);
      case PushRef(_, _, _) => PushPrepareKeepsInv(s, t);
      case PushCas(_, _, _) => PushCasKeepsInv(s, t);
      case PushBack(_, _, _) => PushBackKeepsInv(s, t);
      case GetLoop(_) => GetLookKeepsInv(s, t);
      case GetReload => GetLookKeepsInv(s, t);
      case GetRefs(_, _) => if Acquires(s, t) { AcquireKeepsInv(s, t); } else { GetLookKeepsInv(s, t); }
      case GetNext(_) => GetNextKeepsInv(s, t);
      case GetCas(_, _) => GetCasKeepsInv(s, t);
      case GetTake(_) => GetTakeKeepsInv(s, t);
      case GetDrop(_, _) => GetDropKeepsInv(s, t);
  }

  // ---------------------------------------------------------------- runs

  lemma InitInv(threads: nat, nodes: nat)
    requires threads < SHOULD_BE_ON_FREELIST - 2
    ensures Inv(Init(threads, nodes))
  {
    var s := Init(threads, nodes);
    forall n | 0 <= n < nodes ensures RefsOk(s, n) {
      HoldersOfNone(s.threads, n);
    }
  }

  /** A run of es from a fresh list: any number of threads below the width of the count, in any interleaving. */
  ghost predicate Run(ss: seq<State>, es: seq<Event>) {
    && |ss| == |es| + 1
    && (exists threads: nat, nodes: nat :: threads < SHOULD_BE_ON_FREELIST - 2 && ss[0] == Init(threads, nodes))
    && (forall i :: 0 <= i < |es| ==> Enabled(ss[i], es[i]) && ss[i + 1] == Apply(ss[i], es[i]))
  }

  lemma {:induction false} RunKeepsInv(ss: seq<State>, es: seq<Event>, i: nat)
    requires Run(ss, es) && i < |ss|
    ensures Inv(ss[i])
  {
    if i == 0 {
      var threads: nat, nodes: nat :| threads < SHOULD_BE_ON_FREELIST - 2 && ss[0] == Init(threads, nodes);
      InitInv(threads, nodes);
    } else {
      RunKeepsInv(ss, es, i - 1);
      StepKeepsInv(ss[i - 1], es[i - 1]);
    }
  }

  /** Event e, taken in s, is the one by which `try_get` hands out n. */
  predicate HandsOut(s: State, e: Event, n: nat)
    requires Enabled(s, e)
  {
    e.Step? && s.threads[e.t] == GetTake(n)
  }

  /** A node leaves the hands of the users only by being added. */
  lemma OwnedUntilAdded(s: State, e: Event, n: nat)
    requires Inv(s) && Enabled(s, e) && n < |s.refs| && s.phase[n].Owned?
    requires !(e.Add? && e.n == n)
    ensures !HandsOut(s, e, n) && n < |Apply(s, e).refs| && Apply(s, e).phase[n].Owned?
  {
    assert ThreadOk(s, e.t) && RefsOk(s, n);
  }

  lemma {:induction false} OwnedThrough(ss: seq<State>, es: seq<Event>, n: nat, i: nat, j: nat)
    requires Run(ss, es) && i <= j < |ss|
    requires n < |ss[i].phase| == |ss[i].refs| && ss[i].phase[n].Owned?
    requires forall k :: i <= k < j ==> !(es[k].Add? && es[k].n == n)
    ensures Inv(ss[j]) && n < |ss[j].phase| && ss[j].phase[n].Owned?
    decreases j
  {
    RunKeepsInv(ss, es, j);
    if i < j {
      OwnedThrough(ss, es, n, i, j - 1);
      OwnedUntilAdded(ss[j - 1], es[j - 1], n);
    }
  }

  /** In no interleaving is a node handed out twice without having been added in between. */
  lemma NeverHandedOutTwice(ss: seq<State>, es: seq<Event>, n: nat, i: nat, j: nat)
    requires Run(ss, es) && i < j < |es|
    requires HandsOut(ss[i], es[i], n) && HandsOut(ss[j], es[j], n)
    ensures exists k :: i < k < j && es[k].Add? && es[k].n == n
  {
    if forall k :: i < k < j ==> !(es[k].Add? && es[k].n == n) {
      RunKeepsInv(ss, es, i);
      OwnedThrough(ss, es, n, i + 1, j);
      OwnedUntilAdded(ss[j], es[j], n);
    }
  }

  /**
   The list is a finite chain from the head, without repetition; whoever has just popped a node finds its flag clear.
   */
  lemma ListIsAcyclic(ss: seq<State>, es: seq<Event>, i: nat)
    requires Run(ss, es) && i < |ss|
    ensures Chain(ss[i].head, ss[i].next, ss[i].list)
    ensures forall a, b :: 0 <= a < b < |ss[i].list| ==> ss[i].list[a] != ss[i].list[b]
    ensures forall t :: 0 <= t < |ss[i].threads| && ss[i].threads[t].GetTake? ==>
              ss[i].threads[t].n < |ss[i].refs| && ss[i].refs[ss[i].threads[t].n] < SHOULD_BE_ON_FREELIST
  {
    RunKeepsInv(ss, es, i);
    forall t | 0 <= t < |ss[i].threads| && ss[i].threads[t].GetTake?
      ensures ss[i].threads[t].n < |ss[i].refs| && ss[i].refs[ss[i].threads[t].n] < SHOULD_BE_ON_FREELIST
    {
      assert ThreadOk(ss[i], t);
      GetTakeKeepsInv(ss[i], t);
    }
  }

  /** Once every thread is idle, each node the users gave up is on the list, once, with reference word 1. */
  lemma NoNodeIsLost(ss: seq<State>, es: seq<Event>, n: nat)
    requires Run(ss, es) && n < |ss[|es|].refs| == |ss[|es|].phase|
    requires forall t :: 0 <= t < |ss[|es|].threads| ==> ss[|es|].threads[t].Idle?
    ensures var s := ss[|es|];
      if s.phase[n].Owned? then n !in s.list && s.refs[n] == 0 else n in s.list && s.refs[n] == 1
  {
    RunKeepsInv(ss, es, |es|);
    HoldersOfNone(ss[|es|].threads, n);
    assert RefsOk(ss[|es|], n);
  }

  // ---------------------------------------------------------------- a thread that runs alone

  /** k steps of thread t, or as many as its operation takes, while the others stand still. */
  function Alone(s: State, t: nat, k: nat): State {
    if k == 0 then s
    else var s' := Alone(s, t, k - 1); if Enabled(s', Step(t)) then Apply(s', Step(t)) else s'
  }

  lemma {:induction false} AloneKeepsInv(s: State, t: nat, k: nat)
    requires Inv(s) && t < |s.threads|
    ensures Inv(Alone(s, t, k)) && |Alone(s, t, k).threads| == |s.threads|
  {
    if k > 0 {
      AloneKeepsInv(s, t, k - 1);
      var s' := Alone(s, t, k - 1);
      if Enabled(s', Step(t)) {
        StepKeepsInv(s', Step(t));
      }
    }
  }

  lemma {:induction false} IdleStays(s: State, t: nat, k: nat)
    requires t < |s.threads| && s.threads[t].Idle?
    ensures Alone(s, t, k) == s
  {
    if k > 0 {
      IdleStays(s, t, k - 1);
    }
  }

  /** How many of its own steps a thread is away from the end of its operation, at most. */
  function Distance(s: State, c: Thread): nat {
    match c
    case Idle => 0
    case GetTake(_) => 1
    case GetCas(n, _) => if s.head == Some(n) then 2 else if LastOne(s, n) then 42 else 10
    case GetNext(n) => if s.head == Some(n) then 3 else if LastOne(s, n) then 43 else 11
    case GetRefs(n, r) => if s.head == Some(n) && n < |s.refs| && s.refs[n] == r then 4 else 12
    case GetLoop(h) => if s.head == h then 5 else 13
    case GetReload => 6
    case GetDrop(n, h) => if LastOne(s, n) then 41 else if s.head == h then 7 else 14
    case PushLoad(_, _) => 34
    case PushLink(_, h, _) => if s.head == h then 33 else 39
    case PushRef(_, h, _) => if s.head == h then 32 else 38
    case PushCas(_, h, _) => if s.head == h then 31 else 37
    case PushBack(_, h, _) => if s.head == h then 36 else 40
  }

  /** Whoever drops its reference to n now has to link it. */
  predicate LastOne(s: State, n: nat) {
    n < |s.refs| && s.refs[n] == SHOULD_BE_ON_FREELIST + 1
  }

  /** The head of the list has a reference to spare for whoever wants to take it. */
  lemma HeadIsListed(s: State, n: nat)
    requires Inv(s) && s.head == Some(n)
    ensures n < |s.refs| && s.phase[n].Listed? && s.list != [] && s.list[0] == n
      && 0 < s.refs[n] < SHOULD_BE_ON_FREELIST
  {
    assert s.list[0] in s.list;
    assert RefsOk(s, n);
  }

  lemma StepComesCloser(s: State, t: nat)
    requires Inv(s) && Enabled(s, Step(t))
    ensures Distance(Apply(s, Step(t)), Apply(s, Step(t)).threads[t]) < Distance(s, s.threads[t])
  {
    hide Holders, Chain, ListOk;
    var c := s.threads[t];
    assert ThreadOk(s, t);
    if s.head.Some? {
      HeadIsListed(s, s.head.value);
    }
    if c.GetRefs? || c.GetDrop? || c.PushBack? {
      assert RefsOk(s, c.n);
    }
  }

  lemma CanStep(s: State, t: nat)
    requires Inv(s) && t < |s.threads|
    ensures Enabled(s, Step(t)) <==> !s.threads[t].Idle?
    ensures s.threads[t].Idle? ==> Distance(s, s.threads[t]) == 0
  {
  }

  lemma {:induction false} AloneComesCloser(s: State, t: nat, k: nat)
    requires Inv(s) && t < |s.threads|
    ensures |Alone(s, t, k).threads| == |s.threads|
    ensures Distance(Alone(s, t, k), Alone(s, t, k).threads[t]) + k <= Distance(s, s.threads[t])
      || Alone(s, t, k).threads[t].Idle?
  {
    hide Inv, Distance, Apply, Enabled;
    AloneKeepsInv(s, t, k);
    if k > 0 {
      AloneComesCloser(s, t, k - 1);
      AloneKeepsInv(s, t, k - 1);
      var s' := Alone(s, t, k - 1);
      CanStep(s', t);
      if !s'.threads[t].Idle? {
        StepComesCloser(s', t);
      }
    }
  }

  /** In any reachable state, wherever the other threads have stopped, a thread that runs alone ends its operation. */
  lemma AloneEnds(ss: seq<State>, es: seq<Event>, i: nat, t: nat)
    requires Run(ss, es) && i < |ss| && t < |ss[i].threads|
    ensures t < |Alone(ss[i], t, 43).threads| && Alone(ss[i], t, 43).threads[t].Idle?
  {
    RunKeepsInv(ss, es, i);
    AloneComesCloser(ss[i], t, 43);
  }

  lemma AloneNone(s: State, t: nat)
    ensures Alone(s, t, 0) == s
  {
  }

  /** One more step of a thread that is not done. */
  lemma AloneOnce(s: State, t: nat, k: nat)
    requires Inv(s) && t < |s.threads| && |Alone(s, t, k).threads| == |s.threads| && !Alone(s, t, k).threads[t].Idle?
    ensures Inv(Alone(s, t, k)) && Enabled(Alone(s, t, k), Step(t))
    ensures Alone(s, t, k + 1) == Apply(Alone(s, t, k), Step(t))
  {
    hide Inv, Enabled, Apply;
    AloneKeepsInv(s, t, k);
    CanStep(Alone(s, t, k), t);
  }

  /** The first node of the list, if there is one, and the list without it. */
  ghost predicate TakesHead(s: State, s': State) {
    if s.head == None then s' == s
    else
      var n := s.head.value;
      && n < |s.refs| == |s.next| == |s.phase| && s.refs[n] > 0 && s.list != [] && s.list[0] == n
      && s' == s.(head := s.next[n], list := s.list[1..], refs := s.refs[n := s.refs[n] - 1],
                  phase := s.phase[n := Owned])
  }

  /** The first three steps: a reference to the head is taken and its link read. */
  lemma SoloLook(s: State, t: nat, n: nat)
    requires Inv(s) && t < |s.threads| && s.threads[t].Idle? && s.head == Some(n)
    ensures Enabled(s, TryGet(t)) && Inv(Apply(s, TryGet(t))) && n < |s.refs| == |s.next| && s.refs[n] > 0
    ensures Alone(Apply(s, TryGet(t)), t, 3)
      == s.(refs := s.refs[n := s.refs[n] + 1], threads := s.threads[t := GetCas(n, s.next[n])])
  {
    var cs := s.threads;
    HeadIsListed(s, n);
    StepKeepsInv(s, TryGet(t));
    var s1 := Apply(s, TryGet(t));
    assert Shaped(s);
    hide Inv, Alone, Enabled;
    assert Alone(s1, t, 0) == s.(threads := cs[t := GetLoop(Some(n))]) by { AloneNone(s1, t); }
    AloneOnce(s1, t, 0);
    assert Alone(s1, t, 1) == s.(threads := cs[t := GetRefs(n, s.refs[n])]);
    AloneOnce(s1, t, 1);
    assert Alone(s1, t, 2) == s.(refs := s.refs[n := s.refs[n] + 1], threads := cs[t := GetNext(n)]);
    AloneOnce(s1, t, 2);
  }

  /** The fourth: the head moves on to the next node. */
  lemma SoloPop(s: State, t: nat, n: nat)
    requires Inv(s) && t < |s.threads| && s.threads[t].Idle? && s.head == Some(n)
    ensures n < |s.refs| == |s.next| == |s.phase| && s.list != [] && s.list[0] == n
    ensures 0 < s.refs[n] < SHOULD_BE_ON_FREELIST
    ensures Enabled(s, TryGet(t)) && Inv(Apply(s, TryGet(t)))
    ensures Alone(Apply(s, TryGet(t)), t, 4)
      == s.(head := s.next[n], list := s.list[1..], refs := s.refs[n := s.refs[n] + 1],
            phase := s.phase[n := Taken(t)], threads := s.threads[t := GetTake(n)])
  {
    HeadIsListed(s, n);
    assert Shaped(s);
    SoloLook(s, t, n);
    hide Inv, Alone, Enabled;
    AloneOnce(Apply(s, TryGet(t)), t, 3);
  }

  lemma SoloTake(s: State, t: nat)
    requires Inv(s) && t < |s.threads| && s.threads[t].Idle? && s.head.Some?
    ensures Enabled(s, TryGet(t))
    ensures var s1 := Apply(s, TryGet(t));
      && Enabled(Alone(s1, t, 4), Step(t)) && HandsOut(Alone(s1, t, 4), Step(t), s.head.value)
      && TakesHead(s, Alone(s1, t, 5))
  {
    var n, cs := s.head.value, s.threads;
    SoloPop(s, t, n);
    hide Inv, Alone, Enabled;
    AloneOnce(Apply(s, TryGet(t)), t, 4);
    assert s.refs[n := s.refs[n] + 1][n := s.refs[n] - 1] == s.refs[n := s.refs[n] - 1];
    assert s.phase[n := Taken(t)][n := Owned] == s.phase[n := Owned];
    assert cs[t := Idle] == cs;
  }

  lemma {:induction false} SoloMiss(s: State, t: nat, k: nat)
    requires Inv(s) && t < |s.threads| && s.threads[t].Idle? && s.head == None
    ensures Enabled(s, TryGet(t))
    ensures Alone(Apply(s, TryGet(t)), t, k) == if k == 0 then Apply(s, TryGet(t)) else s
  {
    var s1 := Apply(s, TryGet(t));
    if k == 1 {
      assert Enabled(s1, Step(t)) && s.threads[t := Idle] == s.threads;
    } else if k > 1 {
      SoloMiss(s, t, k - 1);
    }
  }

  /**
   Wherever the other threads have stopped, a `try_get` that is not disturbed hands out the head of the list and leaves
   the rest; it comes back with nothing if and only if there is no head.
   */
  lemma SoloTryGetIsExact(ss: seq<State>, es: seq<Event>, i: nat, t: nat)
    requires Run(ss, es) && i < |ss| && t < |ss[i].threads| && ss[i].threads[t].Idle?
    ensures Enabled(ss[i], TryGet(t)) && TakesHead(ss[i], Alone(Apply(ss[i], TryGet(t)), t, 5))
    ensures ss[i].head.Some? <==>
      exists k, n :: Enabled(Alone(Apply(ss[i], TryGet(t)), t, k), Step(t))
        && HandsOut(Alone(Apply(ss[i], TryGet(t)), t, k), Step(t), n)
  {
    RunKeepsInv(ss, es, i);
    var s := ss[i];
    hide Inv, Alone, Apply, TakesHead;
    if s.head.Some? {
      SoloTake(s, t);
    } else {
      forall k ensures Alone(Apply(s, TryGet(t)), t, k) == if k == 0 then Apply(s, TryGet(t)) else s {
        SoloMiss(s, t, k);
      }
    }
  }

  /** What adding a node that nobody holds makes of the list. */
  ghost predicate LinksFirst(s: State, s': State, n: nat) {
    && n < |s.refs| == |s.next| == |s.phase|
    && s' == s.(head := Some(n), list := [n] + s.list, next := s.next[n := s.head], refs := s.refs[n := 1],
                phase := s.phase[n := Listed])
  }

  /** The flag is set, and the list stays. */
  ghost predicate Defers(s: State, s': State, n: nat) {
    && n < |s.refs| == |s.phase| && s.refs[n] + SHOULD_BE_ON_FREELIST < REFS_RANGE
    && s' == s.(refs := s.refs[n := s.refs[n] + SHOULD_BE_ON_FREELIST], phase := s.phase[n := Deferred])
  }

  lemma SoloLink(s: State, t: nat, n: nat)
    requires Inv(s) && Enabled(s, Add(t, n)) && s.refs[n] == 0
    ensures LinksFirst(s, Alone(Apply(s, Add(t, n)), t, 4), n)
  {
    var cs := s.threads;
    StepKeepsInv(s, Add(t, n));
    assert Shaped(s);
    var s1 := Apply(s, Add(t, n));
    var refs, phase, next := s.refs[n := SHOULD_BE_ON_FREELIST], s.phase[n := Pushing(t)], s.next[n := s.head];
    hide Inv, Alone, Enabled;
    assert Alone(s1, t, 0) == s.(refs := refs, phase := phase, threads := cs[t := PushLoad(n, Done)]) by {
      AloneNone(s1, t);
    }
    AloneOnce(s1, t, 0);
    assert Alone(s1, t, 1) == s.(refs := refs, phase := phase, threads := cs[t := PushLink(n, s.head, Done)]);
    AloneOnce(s1, t, 1);
    assert Alone(s1, t, 2)
      == s.(refs := refs, phase := phase, next := next, threads := cs[t := PushRef(n, s.head, Done)]);
    AloneOnce(s1, t, 2);
    assert refs[n := 1] == s.refs[n := 1];
    assert Alone(s1, t, 3)
      == s.(refs := s.refs[n := 1], phase := phase, next := next, threads := cs[t := PushCas(n, s.head, Done)]);
    AloneOnce(s1, t, 3);
    assert phase[n := Listed] == s.phase[n := Listed] && cs[t := Idle] == cs;
  }

  /**
   Wherever the other threads have stopped, an `add` that is not disturbed puts the node in front of the list, if nobody
   holds it; otherwise it leaves that to whoever drops the last reference.
   */
  lemma SoloAddIsExact(ss: seq<State>, es: seq<Event>, i: nat, t: nat, n: nat)
    requires Run(ss, es) && i < |ss| && Enabled(ss[i], Add(t, n))
    ensures var s := ss[i];
      var r := Alone(Apply(s, Add(t, n)), t, 4);
      && (Holders(s.threads, n) == 0 ==> LinksFirst(s, r, n))
      && (Holders(s.threads, n) > 0 ==> Defers(s, r, n))
  {
    RunKeepsInv(ss, es, i);
    var s := ss[i];
    assert RefsOk(s, n);
    hide Holders;
    if s.refs[n] == 0 {
      hide Inv, Apply;
      SoloLink(s, t, n);
    } else {
      IdleStays(Apply(s, Add(t, n)), t, 4);
    }
  }
}
