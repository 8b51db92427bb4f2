/**
 Termination of the fingerprint workers: any number of them take chunks from one queue and forward them to another, and
 a shared counter decides who tells the next stage that no more chunks will come. Every access to shared state is a
 step.
 */
module FingerprintWorkers {
  import opened Sequences

  /** `last` marks a worker that has found its input finished and empty, and has counted itself. */
  datatype Worker<T> =
    | Top
    | SawDone
    | Counting
    | Extracting(last: bool)
    | Holding(item: T, last: bool)
    | Deciding(last: bool)
    | Announcing
    | Exited

  /** `isRecipe` tells the file recipe from chunks; `pushed` is all input so far. */
  datatype State<T> = State(pushed: seq<T>, queue: seq<T>, inputDone: bool, workers: seq<Worker<T>>, counter: nat,
                            forwarded: seq<T>, outputDone: bool)

  datatype Event<T> = Push(item: T) | Close | Step(t: nat)

  function Init<T>(n: nat): State<T> {
    State([], [], false, seq(n, _ => Top), 0, [], false)
  }

  predicate Enabled<T>(s: State<T>, e: Event<T>) {
    match e
    case Push(_) => !s.inputDone
    case Close => !s.inputDone
    case Step(t) => t < |s.workers| && !s.workers[t].Exited?
  }

  function Apply<T>(s: State<T>, e: Event<T>, isRecipe: T -> bool): State<T>
    requires Enabled(s, e)
  {
    match e
    case Push(item) => s.(pushed := s.pushed + [item], queue := s.queue + [item])
    case Close => s.(inputDone := true)
    case Step(t) =>
      match s.workers[t]
      case Top => s.(workers := s.workers[t := if s.inputDone then SawDone else Extracting(false)])
      case SawDone => s.(workers := s.workers[t := if s.queue == [] then Counting else Extracting(false)])
      case Counting => s.(counter := s.counter + 1, workers := s.workers[t := Extracting(true)])
      case Extracting(last) =>
        if s.queue == [] then s.(workers := s.workers[t := Deciding(last)])
        else s.(queue := s.queue[1..], workers := s.workers[t := Holding(s.queue[0], last)])
      case Holding(item, last) =>
        s.(forwarded := s.forwarded + [item], workers := s.workers[t := if isRecipe(item) then Top else Deciding(last)])
      case Deciding(last) =>
        s.(workers := s.workers[t := if !last then Top else if s.counter == |s.workers| then Announcing else Exited])
      case Announcing => s.(outputDone := true, workers := s.workers[t := Exited])
      case Exited => s
  }

  // ---------------------------------------------------------------- the invariant

  predicate HasCounted<T>(w: Worker<T>) {
    (w.Extracting? && w.last) || (w.Holding? && w.last) || (w.Deciding? && w.last) || w.Announcing? || w.Exited?
  }

  function Counted<T>(ws: seq<Worker<T>>): (n: nat)
    ensures n <= |ws|
  {
    if ws == [] then 0 else Counted(ws[..|ws| - 1]) + (if HasCounted(ws[|ws| - 1]) then 1 else 0)
  }

  predicate Holds<T(==)>(w: Worker<T>, x: T) {
    w.Holding? && w.item == x
  }

  /** How many workers hold x. */
  function Held<T(==)>(ws: seq<Worker<T>>, x: T): nat {
    if ws == [] then 0 else Held(ws[..|ws| - 1], x) + (if Holds(ws[|ws| - 1], x) then 1 else 0)
  }

  predicate InOnePlace<T(==)>(s: State<T>, x: T) {
    Occurrences(s.pushed, x) == Occurrences(s.queue, x) + Held(s.workers, x) + Occurrences(s.forwarded, x)
  }

  /** Every input item is in exactly one place. */
  ghost predicate ItemsOk<T(!new)>(s: State<T>) {
    forall x :: InOnePlace(s, x)
  }

  /** Workers that have counted themselves found the input finished for good. */
  ghost predicate WorkerOk<T>(s: State<T>, w: Worker<T>) {
    && (HasCounted(w) || w.Counting? ==> s.inputDone && s.queue == [])
    && (w.SawDone? ==> s.inputDone)
    && (w.Holding? ==> !w.last)
    && (w.Announcing? ==> s.counter == |s.workers|)
  }

  predicate WillAnnounce<T>(w: Worker<T>) {
    (w.Extracting? && w.last) || (w.Deciding? && w.last) || w.Announcing?
  }

  /** Once all have counted, the announcement is made or somebody is going to make it. */
  ghost predicate AnnounceOk<T>(s: State<T>) {
    && (s.outputDone ==> s.counter == |s.workers|)
    && (s.counter == |s.workers| > 0 ==> s.outputDone || exists t :: 0 <= t < |s.workers| && WillAnnounce(s.workers[t]))
  }

  ghost predicate Inv<T(!new)>(s: State<T>) {
    && ItemsOk(s)
    && s.counter == Counted(s.workers)
    && (forall t :: 0 <= t < |s.workers| ==> WorkerOk(s, s.workers[t]))
    && AnnounceOk(s)
  }

  lemma {:induction false} CountedUpdate<T>(ws: seq<Worker<T>>, t: nat, w: Worker<T>)
    requires t < |ws|
    ensures Counted(ws[t := w]) + (if HasCounted(ws[t]) then 1 else 0) == Counted(ws) + (if HasCounted(w) then 1 else 0)
  {
    var n := |ws| - 1;
    if t == n {
      assert ws[t := w][..n] == ws[..n];
    } else {
      assert ws[t := w][..n] == ws[..n][t := w];
      CountedUpdate(ws[..n], t, w);
    }
  }

  lemma {:induction false} HeldUpdate<T>(ws: seq<Worker<T>>, t: nat, w: Worker<T>, x: T)
    requires t < |ws|
    ensures Held(ws[t := w], x) + (if Holds(ws[t], x) then 1 else 0) == Held(ws, x) + (if Holds(w, x) then 1 else 0)
  {
    var n := |ws| - 1;
    if t == n {
      assert ws[t := w][..n] == ws[..n];
    } else {
      assert ws[t := w][..n] == ws[..n][t := w];
      HeldUpdate(ws[..n], t, w, x);
    }
  }

  lemma {:induction false} AllCounted<T>(ws: seq<Worker<T>>, t: nat)
    requires Counted(ws) == |ws| && t < |ws|
    ensures HasCounted(ws[t])
  {
    if t < |ws| - 1 {
      AllCounted(ws[..|ws| - 1], t);
    }
  }

  lemma {:induction false} NoneHeld<T>(ws: seq<Worker<T>>, x: T)
    requires forall t :: 0 <= t < |ws| ==> !ws[t].Holding?
    ensures Held(ws, x) == 0
  {
    if ws != [] {
      NoneHeld(ws[..|ws| - 1], x);
    }
  }

  lemma {:induction false} AllExitedCounted<T>(ws: seq<Worker<T>>)
    requires forall t :: 0 <= t < |ws| ==> ws[t].Exited?
    ensures Counted(ws) == |ws|
  {
    if ws != [] {
      AllExitedCounted(ws[..|ws| - 1]);
    }
  }

  lemma PushAddsOne<T>(q: seq<T>, y: T, x: T)
    ensures Occurrences(q + [y], x) == Occurrences(q, x) + (if y == x then 1 else 0)
  {
    assert (q + [y])[..|q|] == q;
  }

  lemma InputKeepsInv<T(!new)>(s: State<T>, e: Event<T>, isRecipe: T -> bool)
    requires Inv(s) && Enabled(s, e) && !e.Step?
    ensures Inv(Apply(s, e, isRecipe))
  {
    hide Counted, Held, Occurrences;
    forall x ensures InOnePlace(Apply(s, e, isRecipe), x) {
      assert InOnePlace(s, x);
      if e.Push? {
        PushAddsOne(s.pushed, e.item, x);
        PushAddsOne(s.queue, e.item, x);
      }
    }
    forall t | 0 <= t < |s.workers| ensures WorkerOk(Apply(s, e, isRecipe), s.workers[t]) {
      assert WorkerOk(s, s.workers[t]);
    }
  }

  lemma {:induction false} PopTakesOne<T>(q: seq<T>, x: T)
    requires q != []
    ensures Occurrences(q, x) == Occurrences(q[1..], x) + (if q[0] == x then 1 else 0)
  {
    if |q| > 1 {
      PopTakesOne(q[..|q| - 1], x);
      assert q[1..][..|q| - 2] == q[..|q| - 1][1..];
    } else {
      assert q[..0] == [] == q[1..];
    }
  }

  lemma ItemStays<T>(s: State<T>, t: nat, isRecipe: T -> bool, x: T)
    requires InOnePlace(s, x) && Enabled(s, Step(t))
    ensures InOnePlace(Apply(s, Step(t), isRecipe), x)
  {
    hide Held, Occurrences;
    var s' := Apply(s, Step(t), isRecipe);
    HeldUpdate(s.workers, t, s'.workers[t], x);
    match s.workers[t]
    case Extracting(_) =>
      if s.queue != [] {
        PopTakesOne(s.queue, x);
      }
    case Holding(item, _) => PushAddsOne(s.forwarded, item, x);
    case _ =>
  }

  lemma ItemsStay<T(!new)>(s: State<T>, t: nat, isRecipe: T -> bool)
    requires ItemsOk(s) && Enabled(s, Step(t))
    ensures ItemsOk(Apply(s, Step(t), isRecipe))
  {
    hide InOnePlace, Apply;
    var s' := Apply(s, Step(t), isRecipe);
    forall x ensures InOnePlace(s', x) {
      ItemStays(s, t, isRecipe, x);
    }
  }

  lemma WorkerStays<T(!new)>(s: State<T>, t: nat, isRecipe: T -> bool, u: nat)
    requires Inv(s) && Enabled(s, Step(t)) && u < |s.workers|
    ensures var s' := Apply(s, Step(t), isRecipe); |s'.workers| == |s.workers| && WorkerOk(s', s'.workers[u])
  {
    hide Counted, ItemsOk, AnnounceOk;
    assert WorkerOk(s, s.workers[u]) && WorkerOk(s, s.workers[t]);
    if s.counter == |s.workers| {
      AllCounted(s.workers, t);
    }
  }

  lemma AnnounceStays<T>(s: State<T>, t: nat, isRecipe: T -> bool)
    requires Enabled(s, Step(t)) && AnnounceOk(s) && WorkerOk(s, s.workers[t])
    requires Apply(s, Step(t), isRecipe).counter <= |s.workers|
    ensures AnnounceOk(Apply(s, Step(t), isRecipe))
  {
    var s' := Apply(s, Step(t), isRecipe);
    if s'.counter == |s'.workers| > 0 && !s'.outputDone {
      if s.counter == s'.counter {
        var u :| 0 <= u < |s.workers| && WillAnnounce(s.workers[u]);
        assert WillAnnounce(s'.workers[u]);
      } else {
        assert WillAnnounce(s'.workers[t]);
      }
    }
  }

  lemma CounterStays<T(!new)>(s: State<T>, t: nat, isRecipe: T -> bool)
    requires Inv(s) && Enabled(s, Step(t))
    ensures var s' := Apply(s, Step(t), isRecipe); s'.counter == Counted(s'.workers) && |s'.workers| == |s.workers|
  {
    hide Counted, ItemsOk, AnnounceOk;
    assert WorkerOk(s, s.workers[t]);
    CountedUpdate(s.workers, t, Apply(s, Step(t), isRecipe).workers[t]);
  }

  lemma StepKeepsInv<T(!new)>(s: State<T>, e: Event<T>, isRecipe: T -> bool)
    requires Inv(s) && Enabled(s, e)
    ensures Inv(Apply(s, e, isRecipe))
  {
    if !e.Step? {
      InputKeepsInv(s, e, isRecipe);
    } else {
      var t := e.t;
      ItemsStay(s, t, isRecipe);
      CounterStays(s, t, isRecipe);
      AnnounceStays(s, t, isRecipe);
      hide Counted, ItemsOk, AnnounceOk, Apply, WorkerOk;
      var s' := Apply(s, e, isRecipe);
      forall u | 0 <= u < |s'.workers| ensures WorkerOk(s', s'.workers[u]) {
        WorkerStays(s, t, isRecipe, u);
      }
    }
  }

  ghost predicate Run<T(!new)>(ss: seq<State<T>>, es: seq<Event<T>>, isRecipe: T -> bool) {
    && |ss| == |es| + 1
    && (exists n: nat :: ss[0] == Init(n))
    && (forall i :: 0 <= i < |es| ==> Enabled(ss[i], es[i]) && ss[i + 1] == Apply(ss[i], es[i], isRecipe))
  }

  lemma {:induction false} NoneCounted<T>(ws: seq<Worker<T>>)
    requires forall t :: 0 <= t < |ws| ==> !HasCounted(ws[t])
    ensures Counted(ws) == 0
  {
    if ws != [] {
      NoneCounted(ws[..|ws| - 1]);
    }
  }

  lemma InitInv<T(!new)>(n: nat)
    ensures Inv(Init<T>(n))
  {
    var s := Init<T>(n);
    forall x ensures Held(s.workers, x) == 0 {
      NoneHeld(s.workers, x);
    }
    NoneCounted(s.workers);
  }

  lemma {:induction false} RunKeepsInv<T(!new)>(ss: seq<State<T>>, es: seq<Event<T>>, isRecipe: T -> bool, i: nat)
    requires Run(ss, es, isRecipe) && i < |ss|
    ensures Inv(ss[i])
  {
    hide Inv;
    if i == 0 {
      var n: nat :| ss[0] == Init(n);
      InitInv<T>(n);
    } else {
      RunKeepsInv(ss, es, isRecipe, i - 1);
      StepKeepsInv(ss[i - 1], es[i - 1], isRecipe);
    }
  }

  lemma AllExitedIsTold<T(!new)>(s: State<T>)
    requires Inv(s) && s.workers != [] && forall t :: 0 <= t < |s.workers| ==> s.workers[t].Exited?
    ensures s.outputDone
  {
    AllExitedCounted(s.workers);
  }

  /**
   In every interleaving of at least one worker: the next stage is told that no more comes only when every input item
   has been forwarded exactly once and no worker will forward anything more; and by the time all workers have exited it
   has been told.
   */
  lemma DoneMeansAllForwarded<T(!new)>(ss: seq<State<T>>, es: seq<Event<T>>, isRecipe: T -> bool, i: nat)
    requires Run(ss, es, isRecipe) && i < |ss| && |ss[i].workers| > 0
    ensures var s := ss[i];
      && (s.outputDone ==>
            && s.inputDone && (forall x :: Occurrences(s.forwarded, x) == Occurrences(s.pushed, x))
            && forall t :: 0 <= t < |s.workers| ==> HasCounted(s.workers[t]) && !s.workers[t].Holding?)
      && ((forall t :: 0 <= t < |s.workers| ==> s.workers[t].Exited?) ==> s.outputDone)
  {
    RunKeepsInv(ss, es, isRecipe, i);
    var s := ss[i];
    if s.outputDone {
      forall t | 0 <= t < |s.workers| ensures HasCounted(s.workers[t]) && !s.workers[t].Holding? {
        AllCounted(s.workers, t);
      }
      assert HasCounted(s.workers[0]) && WorkerOk(s, s.workers[0]);
      forall x ensures Occurrences(s.forwarded, x) == Occurrences(s.pushed, x) {
        assert InOnePlace(s, x);
        NoneHeld(s.workers, x);
      }
    }
    if forall t :: 0 <= t < |s.workers| ==> s.workers[t].Exited? {
      AllExitedIsTold(s);
    }
  }

  // ---------------------------------------------------------------- a worker that runs alone

  /** k steps of worker t, or as many as it takes to exit, while the others stand still. */
  function Alone<T>(s: State<T>, isRecipe: T -> bool, t: nat, k: nat): State<T> {
    if k == 0 then s
    else
      var s' := Alone(s, isRecipe, t, k - 1);
      if Enabled(s', Step(t)) then Apply(s', Step(t), isRecipe) else s'
  }

  /** How many of its own steps a worker is from its exit, at most, once the input is closed. */
  function Distance<T>(queued: nat, w: Worker<T>): nat {
    match w
    case Exited => 0
    case Announcing => 1
    case Counting => 4
    case SawDone => if queued == 0 then 5 else 10 * queued + 1
    case Top => if queued == 0 then 6 else 10 * queued + 2
    case Deciding(last) => if last then 2 else if queued == 0 then 7 else 10 * queued + 3
    case Holding(_, _) => if queued == 0 then 8 else 10 * queued + 4
    case Extracting(last) => if last then 3 else if queued == 0 then 8 else 10 * queued
  }

  lemma StepComesCloser<T(!new)>(s: State<T>, isRecipe: T -> bool, t: nat)
    requires Inv(s) && Enabled(s, Step(t)) && s.inputDone
    ensures var s' := Apply(s, Step(t), isRecipe);
      && |s'.workers| == |s.workers| && s'.inputDone
      && (forall u :: 0 <= u < |s.workers| && u != t ==> s'.workers[u] == s.workers[u])
      && Distance(|s'.queue|, s'.workers[t]) < Distance(|s.queue|, s.workers[t])
  {
    assert WorkerOk(s, s.workers[t]);
  }

  lemma {:induction false} AloneComesCloser<T(!new)>(s: State<T>, isRecipe: T -> bool, t: nat, k: nat)
    requires Inv(s) && t < |s.workers| && s.inputDone
    ensures var s' := Alone(s, isRecipe, t, k);
      && Inv(s') && |s'.workers| == |s.workers| && s'.inputDone
      && (forall u :: 0 <= u < |s.workers| && u != t ==> s'.workers[u] == s.workers[u])
      && (s'.workers[t].Exited? || Distance(|s'.queue|, s'.workers[t]) + k <= Distance(|s.queue|, s.workers[t]))
  {
    hide Inv, Apply, Distance;
    if k > 0 {
      AloneComesCloser(s, isRecipe, t, k - 1);
      var s' := Alone(s, isRecipe, t, k - 1);
      if Enabled(s', Step(t)) {
        StepKeepsInv(s', Step(t), isRecipe);
        StepComesCloser(s', isRecipe, t);
      }
    }
  }

  /** The workers see the end of the input exactly if it has been closed. */
  lemma {:induction false} DoneMeansClosed<T(!new)>(ss: seq<State<T>>, es: seq<Event<T>>, isRecipe: T -> bool, i: nat)
    requires Run(ss, es, isRecipe) && i < |ss|
    ensures ss[i].inputDone <==> Close in es[..i]
  {
    if i > 0 {
      DoneMeansClosed(ss, es, isRecipe, i - 1);
      assert es[..i] == es[..i - 1] + [es[i - 1]];
    }
  }

  /**
   Once the input is closed, a worker that runs alone exits, wherever it and the others have been stopped; and if all
   others have exited before, the next stage has then been told.
   */
  lemma AloneExits<T(!new)>(ss: seq<State<T>>, es: seq<Event<T>>, isRecipe: T -> bool, i: nat, t: nat)
    requires Run(ss, es, isRecipe) && i < |ss| && t < |ss[i].workers| && Close in es[..i]
    ensures var s' := Alone(ss[i], isRecipe, t, 10 * |ss[i].queue| + 9);
      && |s'.workers| == |ss[i].workers| && s'.workers[t].Exited?
      && ((forall u :: 0 <= u < |ss[i].workers| && u != t ==> ss[i].workers[u].Exited?) ==> s'.outputDone)
  {
    RunKeepsInv(ss, es, isRecipe, i);
    DoneMeansClosed(ss, es, isRecipe, i);
    var k := 10 * |ss[i].queue| + 9;
    AloneComesCloser(ss[i], isRecipe, t, k);
    var s' := Alone(ss[i], isRecipe, t, k);
    hide Inv;
    if forall u :: 0 <= u < |ss[i].workers| && u != t ==> ss[i].workers[u].Exited? {
      AllExitedIsTold(s');
    }
  }
}
