/**
 Whole runs of the key exchange: logins, resets, batches, lost messages and the preparation of masks between sessions,
 for any number of clients. A batch is answered with the right keys exactly as long as both sides use the same mask.
 */
module CtrRuns {
  import opened CtrMask
  import opened Options
  import opened Tiling
  import S = CtrSessions

  /** Clients and sessions, the buffer of prepared masks, and the nonce and counter it was last prepared from. */
  datatype State = State(world: S.World, buffer: seq<bv8>, from: Option<S.Session>)

  /**
   `order` is that of the client table. The key server looks for connected clients before it takes the lock under which
   it prepares masks, so a client may have come in session meanwhile: preparation is possible at any time.
   */
  datatype Event = Act(e: S.Event) | PrepareMasks(order: seq<int>)

  ghost predicate Enabled(s: State, e: Event) {
    match e
    case Act(e) => S.Enabled(s.world, e)
    case PrepareMasks(order) => Enumerates(order, s.world.clients.Keys)
  }

  ghost function Apply(k: Crypto, s: State, e: Event): State
    requires Enabled(s, e)
  {
    match e
    case Act(e) => s.(world := S.Apply(s.world, e))
    case PrepareMasks(order) =>
      if order == [] then s
      else
        var c := s.world.clients[order[0]];
        State(s.world.(clients := s.world.clients[order[0] := c.(offline := true, maskOffset := 0)]),
              Mask(k, c.nonce, S.Total(c), MASK_SIZE), Some(S.Session(c.nonce, S.Total(c))))
  }

  /** The client's counter does not wrap. */
  predicate NoWrap(s: State, e: Event) {
    e.Act? ==> S.NoWrap(s.world, e.e)
  }

  /** A fresh enclave, with whatever the clients have stored. */
  ghost predicate Init(s: State) {
    s.world.clients == map[] && s.world.live == map[] && |s.buffer| == MASK_SIZE && s.from == None
  }

  ghost predicate Run(k: Crypto, ss: seq<State>, es: seq<Event>) {
    && |ss| == |es| + 1 && Init(ss[0])
    && forall i :: 0 <= i < |es| ==>
         Enabled(ss[i], es[i]) && NoWrap(ss[i], es[i]) && ss[i + 1] == Apply(k, ss[i], es[i])
  }

  /** The buffer holds the masks it was prepared with, and only clients that have had masks prepared use it. */
  ghost predicate BufferOk(k: Crypto, s: State) {
    && (s.from.Some? ==>
          s.from.value.counter < S.COUNTER_RANGE && Prepared(k, s.from.value.nonce, s.from.value.counter, s.buffer))
    && forall id :: id in s.world.clients && s.world.clients[id].offline ==>
         s.from.Some? && s.world.clients[id].maskOffset == 0
  }

  ghost predicate Inv(k: Crypto, s: State) {
    S.CountersAgree(s.world) && BufferOk(k, s)
  }

  lemma PrepareKeepsInv(k: Crypto, s: State, order: seq<int>)
    requires Inv(k, s) && Enabled(s, PrepareMasks(order))
    ensures Inv(k, Apply(k, s, PrepareMasks(order)))
  {
    hide MaskByte, Tiles;
    if order != [] {
      var c := s.world.clients[order[0]];
      TotalFits(c);
      assert S.Total(c.(offline := true, maskOffset := 0)) == S.Total(c);
    }
  }

  lemma ActKeepsBuffer(k: Crypto, s: State, e: S.Event)
    requires BufferOk(k, s) && S.Enabled(s.world, e)
    ensures BufferOk(k, s.(world := S.Apply(s.world, e)))
  {
    hide Prepared;
    var w := S.Apply(s.world, e);
    forall id | id in w.clients && w.clients[id].offline ensures s.from.Some? && w.clients[id].maskOffset == 0 {
      if e.Login? {
        hide S.LoginClients;
        S.LoginFolds(s.world.clients, e.id, S.StoredCounter(s.world, e.id), e.nonce, e.macOk, id);
      }
    }
  }

  lemma StepKeepsInv(k: Crypto, s: State, e: Event)
    requires Inv(k, s) && Enabled(s, e) && NoWrap(s, e)
    ensures Inv(k, Apply(k, s, e))
  {
    match e
    case Act(e) =>
      hide S.CountersAgree, BufferOk, S.Apply;
      S.StepKeepsCounters(s.world, e);
      ActKeepsBuffer(k, s, e);
    case PrepareMasks(order) => PrepareKeepsInv(k, s, order);
  }

  lemma InitInv(k: Crypto, s: State)
    requires Init(s)
    ensures Inv(k, s)
  {
  }

  lemma {:induction false} RunKeepsInv(k: Crypto, ss: seq<State>, es: seq<Event>, i: nat)
    requires Run(k, ss, es) && i < |ss|
    ensures Inv(k, ss[i])
  {
    hide Inv, Init, Apply;
    if i == 0 {
      InitInv(k, ss[0]);
    } else {
      RunKeepsInv(k, ss, es, i - 1);
      StepKeepsInv(k, ss[i - 1], es[i - 1]);
    }
  }

  // ---------------------------------------------------------------- when a batch is answered with its keys

  predicate IsBatch(e: Event, n: nat) {
    e.Act? && e.e.Batch? && e.e.n == n
  }

  /** Whatever the hash function, and whatever memory lies behind the buffer, the client gets the keys of its seeds. */
  ghost predicate AnsweredRight(k: Crypto, s: State, id: int, seeds: seq<bv8>)
    requires id in s.world.clients && id in s.world.live && |seeds| % 32 == 0
  {
    forall beyond: nat -> bv8 ::
      AnswersKeys(k, s.world.clients[id], s.world.live[id].nonce, s.world.live[id].counter, s.buffer, beyond, seeds)
  }

  /**
   In every run, whatever nonces the clients send: a batch gets the keys of its seeds if and only if the client's nonce
   is the one the enclave masks with, and masks from the buffer, where they are used, were prepared for this nonce and
   for the counter the session started from, and reach to the end of the batch.
   */
  lemma BatchIsAnsweredExactly(k: Crypto, ss: seq<State>, es: seq<Event>, i: nat, seeds: seq<bv8>)
    requires Run(k, ss, es) && Injective(k) && i < |es| && seeds != [] && |seeds| % 32 == 0
      && IsBatch(es[i], |seeds| / 32)
    requires FitsCounters(ss[i].world.clients[es[i].e.id], |seeds|)
    ensures var id, w := es[i].e.id, ss[i].world;
      AnsweredRight(k, ss[i], id, seeds) <==> MaskIsRight(w.clients[id], w.live[id].nonce, ss[i].from, |seeds|)
  {
    hide AnswersKeys, MaskIsRight, UsedMask, Mask, Prepared, Tiles, Apply;
    RunKeepsInv(k, ss, es, i);
    var s, id := ss[i], es[i].e.id;
    var c, live := s.world.clients[id], s.world.live[id];
    MasksAgreeExactly(k, c, live.nonce, s.from, s.buffer, |seeds|);
    forall beyond: nat -> bv8
      ensures UsedMask(k, c, s.buffer, beyond, |seeds|) == Mask(k, live.nonce, live.counter, 2 * |seeds|)
        <==> AnswersKeys(k, c, live.nonce, live.counter, s.buffer, beyond, seeds)
    {
      AnswerIsRight(k, c, live.nonce, live.counter, s.buffer, beyond, seeds);
    }
  }

  // ---------------------------------------------------------------- clients that keep their nonce

  /**
   Every login sends the nonce the enclave knows the client under, whenever the enclave takes its counter for its own.
   */
  ghost predicate NoncesKept(ss: seq<State>, es: seq<Event>) {
    |ss| == |es| + 1 && forall i :: 0 <= i < |es| && es[i].Act? ==> S.KeepsNonce(ss[i].world, es[i].e)
  }

  lemma {:induction false} NoncesStay(k: Crypto, ss: seq<State>, es: seq<Event>, i: nat)
    requires Run(k, ss, es) && NoncesKept(ss, es) && i < |ss|
    ensures S.Inv(ss[i].world)
  {
    hide S.CountersAgree, S.Apply, BufferOk;
    if i == 0 {
      InitInv(k, ss[0]);
    } else {
      NoncesStay(k, ss, es, i - 1);
      RunKeepsInv(k, ss, es, i);
      if es[i - 1].Act? {
        S.StepKeepsInv(ss[i - 1].world, es[i - 1].e);
      }
    }
  }

  /**
   Then a batch gets its keys exactly if it makes no use of the buffer, or the masks are fresh and it does not overrun.
   */
  lemma BatchOfKeptNonce(k: Crypto, ss: seq<State>, es: seq<Event>, i: nat, seeds: seq<bv8>)
    requires Run(k, ss, es) && NoncesKept(ss, es) && Injective(k)
    requires i < |es| && seeds != [] && |seeds| % 32 == 0 && IsBatch(es[i], |seeds| / 32)
    requires FitsCounters(ss[i].world.clients[es[i].e.id], |seeds|)
    ensures var id, c := es[i].e.id, ss[i].world.clients[es[i].e.id];
      AnsweredRight(k, ss[i], id, seeds)
      <==> !MasksFromBuffer(c, |seeds|) || (ss[i].from == Some(S.Session(c.nonce, c.keyGen)) && !Overruns(c, |seeds|))
  {
    hide AnsweredRight, UnmasksFromBuffer, MasksFromBuffer, Apply, S.CountersAgree;
    BatchIsAnsweredExactly(k, ss, es, i, seeds);
    NoncesStay(k, ss, es, i);
    TestsAreOrdered(ss[i].world.clients[es[i].e.id], |seeds|);
  }

  // ---------------------------------------------------------------- sessions that go on

  /** A message of the client's own is lost between steps i and j. */
  predicate LosesBetween(es: seq<Event>, i: nat, j: nat, id: int) {
    exists m :: i < m < j && m < |es| && es[m].Act? && S.Loses(es[m].e, id)
  }

  lemma InvIs(k: Crypto, ss: seq<State>, es: seq<Event>, i: nat)
    requires Run(k, ss, es) && i < |ss|
    ensures S.CountersAgree(ss[i].world)
  {
    RunKeepsInv(k, ss, es, i);
  }

  lemma PrepareKeepsResumable(k: Crypto, s: State, order: seq<int>, id: int)
    requires Enabled(s, PrepareMasks(order)) && S.Resumable(s.world, id)
    ensures S.Resumable(Apply(k, s, PrepareMasks(order)).world, id)
  {
    hide Mask;
  }

  lemma {:induction false} StaysResumable(k: Crypto, ss: seq<State>, es: seq<Event>, i: nat, j: nat, id: int)
    requires Run(k, ss, es) && i < j <= |es| && es[i] == Act(S.Save(id)) && !LosesBetween(es, i, j, id)
    ensures S.CountersAgree(ss[j].world) && S.Resumable(ss[j].world, id)
  {
    hide Inv, S.Resumable, S.CountersAgree, S.Apply, S.Enabled;
    InvIs(k, ss, es, j - 1);
    InvIs(k, ss, es, j);
    if i == j - 1 {
      S.SaveMakesResumable(ss[i].world, id);
    } else {
      StaysResumable(k, ss, es, i, j - 1, id);
      if es[j - 1].Act? {
        S.StepKeepsResumable(ss[j - 1].world, es[j - 1].e, id);
      } else {
        PrepareKeepsResumable(k, ss[j - 1], es[j - 1].order, id);
      }
    }
  }

  /**
   In every run: a client that has ended a session in order and has lost no message since goes on, at its next login
   with the right MAC, from the counter it has stored, and no counter range used before is forgotten; other clients'
   sessions and mask preparations in between make no difference.
   */
  lemma SessionGoesOn(k: Crypto, ss: seq<State>, es: seq<Event>, i: nat, j: nat, id: int, nonce: S.Nonce)
    requires Run(k, ss, es) && i < j < |es| && es[i] == Act(S.Save(id)) && !LosesBetween(es, i, j, id)
    requires es[j] == Act(S.Login(id, nonce, true))
    ensures id in ss[j].world.stored && id in ss[j + 1].world.live
    ensures ss[j + 1].world.live[id] == S.Session(nonce, ss[j].world.stored[id].counter)
    ensures ss[j + 1].world.used == ss[j].world.used
  {
    StaysResumable(k, ss, es, i, j, id);
    hide S.Apply, Inv;
    S.LoginIsExact(ss[j].world, id, nonce, true);
  }

  /** So a counter goes back to 0 only after a lost message, or for a client that has never ended a session in order. */
  lemma ResetMeansLoss(k: Crypto, ss: seq<State>, es: seq<Event>, i: nat, j: nat, id: int, nonce: S.Nonce)
    requires Run(k, ss, es) && i < j < |es| && es[i] == Act(S.Save(id)) && es[j] == Act(S.Login(id, nonce, true))
    requires id in ss[j + 1].world.live && id in ss[j].world.stored
    requires ss[j + 1].world.live[id].counter != ss[j].world.stored[id].counter
    ensures LosesBetween(es, i, j, id)
  {
    if !LosesBetween(es, i, j, id) {
      SessionGoesOn(k, ss, es, i, j, id, nonce);
    }
  }

  lemma {:induction false} StoredStays(k: Crypto, ss: seq<State>, es: seq<Event>, i: nat, j: nat, id: int)
    requires Run(k, ss, es) && i < j <= |es| && es[i] == Act(S.Save(id))
    requires forall m :: i < m < j && es[m].Act? ==> es[m].e.id != id
    ensures id in ss[i].world.live && id in ss[j].world.stored && ss[j].world.stored[id] == ss[i].world.live[id]
    ensures (id in ss[j].world.used <==> id in ss[i].world.used)
      && (id in ss[i].world.used ==> ss[j].world.used[id] == ss[i].world.used[id])
    decreases j
  {
    hide S.LoginStatus, S.LoginClients, Mask;
    if i < j - 1 {
      StoredStays(k, ss, es, i, j - 1, id);
    }
  }

  /** In particular, with nothing of its own in between, from where that session ended. */
  lemma SavedSessionGoesOn(k: Crypto, ss: seq<State>, es: seq<Event>, i: nat, j: nat, id: int)
    requires Run(k, ss, es) && i < j < |es| && es[i] == Act(S.Save(id))
    requires forall m :: i < m < j && es[m].Act? ==> es[m].e.id != id
    requires id in ss[i].world.live && es[j] == Act(S.Login(id, ss[i].world.live[id].nonce, true))
    ensures id in ss[j + 1].world.live && ss[j + 1].world.live[id] == ss[i].world.live[id]
    ensures id in ss[i].world.used && id in ss[j + 1].world.used
      && ss[j + 1].world.used[id] == ss[i].world.used[id]
  {
    hide S.Apply, Inv, S.Enabled;
    StoredStays(k, ss, es, i, j, id);
    SessionGoesOn(k, ss, es, i, j, id, ss[i].world.live[id].nonce);
    InvIs(k, ss, es, i);
  }

  // ---------------------------------------------------------------- how long prepared masks stay fresh

  predicate UsesCounters(e: Event, id: int) {
    e.Act? && (e.e.Batch? || e.e.LostResponse?) && e.e.id == id && e.e.n > 0
  }

  predicate Used(es: seq<Event>, p: nat, i: nat, id: int) {
    exists j :: p < j < i && j < |es| && UsesCounters(es[j], id)
  }

  /** After step p the client used counters, and after that someone, it or another client, tried to log in. */
  predicate UsedBeforeLogin(es: seq<Event>, p: nat, i: nat, id: int) {
    exists l :: p < l < i && l < |es| && es[l].Act? && es[l].e.Login? && Used(es, p, l, id)
  }

  /** Step p prepared masks for the client, and no masks have been prepared since. */
  ghost predicate PreparedAt(es: seq<Event>, p: nat, i: nat, id: int) {
    && p < i <= |es| && es[p].PrepareMasks? && es[p].order != [] && es[p].order[0] == id
    && forall j :: p < j < i ==> es[j].Act?
  }

  lemma UsedNext(es: seq<Event>, p: nat, i: nat, id: int)
    requires p < i < |es|
    ensures Used(es, p, i + 1, id) <==> Used(es, p, i, id) || UsesCounters(es[i], id)
    ensures UsedBeforeLogin(es, p, i + 1, id)
      <==> UsedBeforeLogin(es, p, i, id) || (es[i].Act? && es[i].e.Login? && Used(es, p, i, id))
    ensures UsedBeforeLogin(es, p, i, id) ==> Used(es, p, i, id)
  {
    if UsesCounters(es[i], id) {
      assert Used(es, p, i + 1, id);
    }
    if UsedBeforeLogin(es, p, i, id) {
      var l :| p < l < i && l < |es| && es[l].Act? && es[l].e.Login? && Used(es, p, l, id);
      var j :| p < j < l && j < |es| && UsesCounters(es[j], id);
      assert p < j < i;
    }
  }

  /** Somebody has tried to log in since step p. */
  predicate LoginSince(es: seq<Event>, p: nat, i: nat) {
    exists l :: p < l < i && l < |es| && es[l].Act? && es[l].e.Login?
  }

  lemma LoginNext(es: seq<Event>, p: nat, i: nat)
    requires p < i < |es|
    ensures LoginSince(es, p, i + 1) <==> LoginSince(es, p, i) || (es[i].Act? && es[i].e.Login?)
  {
    if es[i].Act? && es[i].e.Login? {
      assert LoginSince(es, p, i + 1);
    }
  }

  lemma NothingYet(es: seq<Event>, p: nat, id: int)
    ensures !Used(es, p, p + 1, id) && !UsedBeforeLogin(es, p, p + 1, id) && !LoginSince(es, p, p + 1)
  {
  }

  /** What one step makes of a client that stays marked for prepared masks. */
  lemma ActOnMarked(w: S.World, e: S.Event, id: int)
    requires S.CountersAgree(w) && S.Enabled(w, e) && S.NoWrap(w, e)
    requires id in S.Apply(w, e).clients && S.Apply(w, e).clients[id].offline
    ensures id in w.clients && w.clients[id].offline
    ensures var c, d := w.clients[id], S.Apply(w, e).clients[id];
      && d.nonce == c.nonce
      && (if e.Login? then d.keyGen == c.keyGen + c.current && d.current == 0
          else d.keyGen == c.keyGen && d.current == c.current + if UsesCounters(Act(e), id) then 4 * e.n else 0)
  {
    hide Tiles, S.LoginClients;
    if e.Login? {
      S.LoginFolds(w.clients, e.id, S.StoredCounter(w, e.id), e.nonce, e.macOk, id);
    } else if (e.Batch? || e.LostResponse?) && e.id == id {
      S.ConsumeTiles(w, id, e.n);
    }
  }

  lemma ActUses(e: Event, id: int)
    ensures UsesCounters(e, id) ==> e.Act? && !e.e.Login? && (e.e.Batch? || e.e.LostResponse?) && e.e.n > 0
  {
  }

  lemma {:induction false} SincePrepared(k: Crypto, ss: seq<State>, es: seq<Event>, p: nat, i: nat, id: int)
    requires Run(k, ss, es) && PreparedAt(es, p, i, id)
    requires id in ss[i].world.clients && ss[i].world.clients[id].offline
    ensures id in ss[p].world.clients && ss[i].from.Some?
    ensures var b, c, from := ss[p].world.clients[id], ss[i].world.clients[id], ss[i].from.value;
      && from.nonce == c.nonce && from.counter == b.keyGen + b.current <= c.keyGen + c.current
      && (c.keyGen + c.current == from.counter <==> !Used(es, p, i, id))
      && (if LoginSince(es, p, i) then
            from.counter <= c.keyGen && (c.keyGen == from.counter <==> !UsedBeforeLogin(es, p, i, id))
          else c.keyGen == b.keyGen && !UsedBeforeLogin(es, p, i, id))
  {
    hide Used, UsedBeforeLogin, UsesCounters, LoginSince, Mask, Tiles, S.Apply, BufferOk;
    RunKeepsInv(k, ss, es, i - 1);
    if i == p + 1 {
      NothingYet(es, p, id);
      S.TotalOfUnwrapped(ss[p].world.clients[id]);
    } else {
      ActOnMarked(ss[i - 1].world, es[i - 1].e, id);
      SincePrepared(k, ss, es, p, i - 1, id);
      ActUses(es[i - 1], id);
      UsedNext(es, p, i - 1, id);
      LoginNext(es, p, i - 1);
    }
  }

  /**
   When masks are fresh. If somebody has tried to log in since they were prepared: exactly if the client had used no
   counters between the preparation and such a login. So they serve the first session after a preparation, and go stale
   when anybody logs in during it or after it. If nobody has, the client was in session already: exactly if it had used
   no counters in that session before the preparation.
   */
  lemma MasksStayFresh(k: Crypto, ss: seq<State>, es: seq<Event>, p: nat, i: nat, id: int)
    requires Run(k, ss, es) && PreparedAt(es, p, i, id)
    requires id in ss[i].world.clients && ss[i].world.clients[id].offline
    ensures id in ss[p].world.clients
    ensures var c := ss[i].world.clients[id];
      ss[i].from == Some(S.Session(c.nonce, c.keyGen))
      <==> if LoginSince(es, p, i) then !UsedBeforeLogin(es, p, i, id) else ss[p].world.clients[id].current == 0
  {
    SincePrepared(k, ss, es, p, i, id);
  }
}
