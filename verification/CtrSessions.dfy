/**
 The counters of the key exchange in counter mode. The enclave keeps, per client, the counter of finished sessions and
 that of the current one; the client keeps one counter, which it stores at the end of a session. Counters have 32 bits.
 */
module CtrSessions {
  import opened Tiling

  const COUNTER_RANGE: nat := 0x1_0000_0000

  type Nonce = n: seq<bv8> | |n| == 12 witness seq(12, _ => 0)

  /** `offline` and `maskOffset` say whether and where masks were prepared for the client. */
  datatype Client = Client(nonce: Nonce, keyGen: nat, current: nat, offline: bool, maskOffset: nat)

  datatype Status = Success | Reset | NonceUsed | BadMac

  function Wrap32(x: nat): nat {
    x % COUNTER_RANGE
  }

  function Total(c: Client): nat {
    Wrap32(c.keyGen + c.current)
  }

  lemma WrapSum(a: nat, b: nat, n: nat)
    ensures Wrap32(a + Wrap32(b + n)) == Wrap32(Wrap32(a + b) + n)
  {
  }

  /** Any login attempt closes the running session of every client. */
  function Folded(clients: map<int, Client>): (r: map<int, Client>)
    ensures r.Keys == clients.Keys
    ensures forall id :: id in r ==>
      r[id].current == 0 && Total(r[id]) == Total(clients[id]) && r[id].nonce == clients[id].nonce
  {
    map id | id in clients :: clients[id].(keyGen := Total(clients[id]), current := 0)
  }

  /** The enclave's answer to a login, and its clients afterwards. */
  function LoginStatus(clients: map<int, Client>, id: int, counter: nat, nonce: Nonce, macOk: bool): Status {
    if !macOk then BadMac
    else if id !in clients then
      if exists other :: other in clients && clients[other].nonce == nonce then NonceUsed
      else if counter == 0 then Success else Reset
    else if Total(clients[id]) == counter then Success
    else Reset
  }

  function LoginClients(clients: map<int, Client>, id: int, counter: nat, nonce: Nonce, macOk: bool): map<int, Client> {
    var folded := Folded(clients);
    var status := LoginStatus(clients, id, counter, nonce, macOk);
    if status == BadMac || status == NonceUsed then folded
    else if id !in clients then folded[id := Client(nonce, 0, 0, false, 0)]
    else if status == Success then folded
    else folded[id := Client(nonce, 0, 0, false, folded[id].maskOffset)]
  }

  /** What the client's counter becomes. */
  function CounterAfter(status: Status, counter: nat): nat {
    if status == Reset then 0 else counter
  }

  /**
   After a login that the enclave accepts or answers with a reset, the two counters agree; the nonces agree too, except
   when the enclave already knew the client under another nonce and took its counter for the current one.
   */
  lemma LoginAgrees(clients: map<int, Client>, id: int, counter: nat, nonce: Nonce, macOk: bool)
    requires counter < COUNTER_RANGE
    ensures var status := LoginStatus(clients, id, counter, nonce, macOk);
      var after := LoginClients(clients, id, counter, nonce, macOk);
      status == Success || status == Reset ==>
        && id in after && Total(after[id]) == CounterAfter(status, counter) && after[id].current == 0
        && (after[id].nonce == nonce <==>
              !(id in clients && Total(clients[id]) == counter && clients[id].nonce != nonce))
  {
    var folded := Folded(clients);
    assert id in clients ==> Total(folded[id]) == Total(clients[id]);
  }

  /**
   A client that lost its stored nonce logs in while the enclave holds no counts for it: accepted, with other nonces.
   */
  lemma LostNonceIsAccepted()
    ensures exists clients: map<int, Client>, id: int, nonce: Nonce ::
      && LoginStatus(clients, id, 0, nonce, true) == Success
      && id in clients && LoginClients(clients, id, 0, nonce, true)[id].nonce != nonce
  {
    var lost: Nonce, drawn: Nonce := seq(12, _ => 0), seq(12, _ => 1);
    assert lost[0] != drawn[0];
    var clients := map[1 := Client(lost, 0, 0, false, 0)];
    assert LoginStatus(clients, 1, 0, drawn, true) == Success
        && LoginClients(clients, 1, 0, drawn, true)[1].nonce == lost;
  }

  // ---------------------------------------------------------------- runs

  datatype Session = Session(nonce: Nonce, counter: nat)

  /**
   The enclave's clients, what each client has stored on disk, the sessions under way, and, per client, the counter
   ranges its batches used since its last reset.
   */
  datatype World = World(clients: map<int, Client>, stored: map<int, Session>, live: map<int, Session>,
                         used: map<int, seq<Claim>>)

  /**
   A login sends the given nonce. A batch of n hashes takes 4n counters. A request or a response may be lost: the client
   then ends without storing anything.
   */
  datatype Event =
    | Login(id: int, nonce: Nonce, macOk: bool)
    | Batch(id: int, n: nat)
    | LostRequest(id: int, n: nat)
    | LostResponse(id: int, n: nat)
    | Save(id: int)

  function StoredCounter(w: World, id: int): nat {
    if id in w.stored then w.stored[id].counter else 0
  }

  predicate Enabled(w: World, e: Event) {
    if e.Login? then e.id !in w.live && StoredCounter(w, e.id) < COUNTER_RANGE
    else e.id in w.live && e.id in w.clients
  }

  function Consume(w: World, id: int, n: nat): World
    requires id in w.clients && id in w.live
  {
    var c := w.clients[id];
    w.(clients := w.clients[id := c.(current := Wrap32(c.current + 4 * n))],
       used := w.used[id := (if id in w.used then w.used[id] else []) + [Claim(w.live[id].counter, 4 * n)]])
  }

  function Apply(w: World, e: Event): World
    requires Enabled(w, e)
  {
    match e
    case Login(id, nonce, macOk) =>
      var counter := StoredCounter(w, id);
      var status := LoginStatus(w.clients, id, counter, nonce, macOk);
      var w' := w.(clients := LoginClients(w.clients, id, counter, nonce, macOk));
      if status == BadMac || status == NonceUsed then w'
      else w'.(live := w.live[id := Session(nonce, CounterAfter(status, counter))],
               used := if status == Reset || id !in w.clients then w.used[id := []] else w.used)
    case Batch(id, n) =>
      Consume(w, id, n).(live := w.live[id := w.live[id].(counter := Wrap32(w.live[id].counter + 4 * n))])
    case LostRequest(id, n) => w.(live := w.live - {id})
    case LostResponse(id, n) => Consume(w, id, n).(live := w.live - {id})
    case Save(id) => w.(stored := w.stored[id := w.live[id]], live := w.live - {id})
  }

  /**
   The client is in session after a login exactly if the MAC is right and the client is known or brings a nonce of its
   own; the session goes on where the enclave has counted to, if that is what the client has stored, and otherwise
   starts at 0.
   */
  ghost predicate LoggedIn(w: World, w': World, id: int, nonce: Nonce, macOk: bool) {
    var known, counter := id in w.clients, if id in w.stored then w.stored[id].counter else 0;
    && (id in w'.live <==>
          macOk && (known || forall other :: other in w.clients ==> w.clients[other].nonce != nonce))
    && (id in w'.live ==>
          var goesOn := if known then Total(w.clients[id]) == counter else counter == 0;
          && w'.live[id] == Session(nonce, if goesOn then counter else 0)
          && w'.used == if known && goesOn then w.used else w.used[id := []])
  }

  /** What a login does to the sessions, without regard to how the enclave answers. */
  lemma LoginIsExact(w: World, id: int, nonce: Nonce, macOk: bool)
    requires Enabled(w, Login(id, nonce, macOk))
    ensures LoggedIn(w, Apply(w, Login(id, nonce, macOk)), id, nonce, macOk)
  {
  }

  /**
   The client sends the nonce the enclave knows it under, whenever the enclave takes its counter for the current one.
   */
  predicate KeepsNonce(w: World, e: Event) {
    e.Login? && e.id in w.clients && Total(w.clients[e.id]) == StoredCounter(w, e.id) ==>
      w.clients[e.id].nonce == e.nonce
  }

  /** The client's counter does not wrap. */
  predicate NoWrap(w: World, e: Event) {
    (e.Batch? || e.LostResponse?) && e.id in w.live ==> w.live[e.id].counter + 4 * e.n < COUNTER_RANGE
  }

  /**
   Both sides of every session agree on the counter, the ranges used tile what the enclave has counted, and the
   enclave's two counters do not wrap when they are added.
   */
  ghost predicate CountersAgree(w: World) {
    && (forall id :: id in w.live ==> id in w.clients && w.live[id].counter == Total(w.clients[id]))
    && (forall id :: id in w.clients ==> id in w.used && Tiles(w.used[id], Total(w.clients[id])))
    && (forall id :: id in w.clients ==> w.clients[id].keyGen + w.clients[id].current < COUNTER_RANGE)
  }

  /** They agree on the nonce as well. */
  ghost predicate Inv(w: World) {
    && CountersAgree(w)
    && forall id :: id in w.live ==> id in w.clients && w.live[id].nonce == w.clients[id].nonce
  }

  /** What a login makes of the counters of any client. */
  lemma LoginFolds(clients: map<int, Client>, id: int, counter: nat, nonce: Nonce, macOk: bool, other: int)
    requires other in LoginClients(clients, id, counter, nonce, macOk)
    ensures var c := LoginClients(clients, id, counter, nonce, macOk)[other];
      var reset := other == id && macOk
        && (id !in clients || LoginStatus(clients, id, counter, nonce, macOk) == Reset);
      && c.current == 0 && c.keyGen == Total(c) && c.keyGen < COUNTER_RANGE
      && (if reset then c.keyGen == 0 && !c.offline
          else other in clients && c == clients[other].(keyGen := Total(clients[other]), current := 0))
  {
  }

  /** Any login does, whatever nonce the client sends. */
  lemma LoginKeepsCounters(w: World, e: Event)
    requires CountersAgree(w) && Enabled(w, e) && e.Login?
    ensures CountersAgree(Apply(w, e))
  {
    hide Wrap32, Tiles;
    var w' := Apply(w, e);
    var counter := StoredCounter(w, e.id);
    LoginAgrees(w.clients, e.id, counter, e.nonce, e.macOk);
    assert Tiles([], 0) by { NothingTiled(); }
    forall id | id in w'.clients
      ensures id in w'.used && Tiles(w'.used[id], Total(w'.clients[id]))
      ensures w'.clients[id].keyGen + w'.clients[id].current < COUNTER_RANGE
    {
      LoginFolds(w.clients, e.id, counter, e.nonce, e.macOk, id);
    }
    forall id | id in w'.live ensures id in w'.clients && w'.live[id].counter == Total(w'.clients[id]) {
      if id in w.clients {
        LoginFolds(w.clients, e.id, counter, e.nonce, e.macOk, id);
      }
    }
  }

  lemma CounterMoves(c: Client, n: nat)
    requires c.keyGen + c.current < COUNTER_RANGE && Total(c) + n < COUNTER_RANGE
    ensures Wrap32(c.current + n) == c.current + n && c.keyGen + c.current + n < COUNTER_RANGE
    ensures Total(c.(current := c.current + n)) == Total(c) + n
  {
  }

  lemma ConsumeTiles(w: World, id: int, n: nat)
    requires CountersAgree(w) && id in w.live && w.live[id].counter + 4 * n < COUNTER_RANGE
    ensures id in w.clients
    ensures var c, w' := w.clients[id], Consume(w, id, n);
      && Tiles(w'.used[id], Total(w'.clients[id])) && Total(w'.clients[id]) == w.live[id].counter + 4 * n
      && w'.clients[id] == c.(current := c.current + 4 * n) && c.keyGen + c.current + 4 * n < COUNTER_RANGE
  {
    hide Tiles, Wrap32, Total;
    CounterMoves(w.clients[id], 4 * n);
    TilesNext(w.used[id], w.live[id].counter, 4 * n);
  }

  lemma TotalOfUnwrapped(c: Client)
    requires c.keyGen + c.current < COUNTER_RANGE
    ensures Total(c) == c.keyGen + c.current
  {
  }

  lemma StepKeepsCounters(w: World, e: Event)
    requires CountersAgree(w) && Enabled(w, e) && NoWrap(w, e)
    ensures CountersAgree(Apply(w, e))
  {
    hide Tiles, LoginStatus, LoginClients;
    if e.Login? {
      LoginKeepsCounters(w, e);
    } else if e.Batch? || e.LostResponse? {
      ConsumeTiles(w, e.id, e.n);
    }
  }

  lemma StepKeepsInv(w: World, e: Event)
    requires Inv(w) && Enabled(w, e) && KeepsNonce(w, e) && NoWrap(w, e)
    ensures Inv(Apply(w, e))
  {
    hide Tiles, CountersAgree;
    StepKeepsCounters(w, e);
    assert CountersAgree(w);
    if e.Login? {
      LoginAgrees(w.clients, e.id, StoredCounter(w, e.id), e.nonce, e.macOk);
    }
  }

  // ---------------------------------------------------------------- sessions that go on

  /** The enclave's count for the client is that of its session, or, out of session, the one it has stored. */
  ghost predicate Resumable(w: World, id: int) {
    id in w.clients && (id in w.live || (id in w.stored && w.stored[id].counter == Total(w.clients[id])))
  }

  predicate Loses(e: Event, id: int) {
    (e.LostRequest? || e.LostResponse?) && e.id == id
  }

  lemma SaveMakesResumable(w: World, id: int)
    requires CountersAgree(w) && Enabled(w, Save(id))
    ensures Resumable(Apply(w, Save(id)), id)
  {
  }

  /** Only a lost message of the client's own makes its stored counter differ from the enclave's. */
  lemma StepKeepsResumable(w: World, e: Event, id: int)
    requires CountersAgree(w) && Enabled(w, e) && Resumable(w, id) && !Loses(e, id)
    ensures Resumable(Apply(w, e), id)
  {
    hide Tiles;
    if e.Login? {
      LoginAgrees(w.clients, e.id, StoredCounter(w, e.id), e.nonce, e.macOk);
    }
  }

  /** A run of es from a fresh enclave, with whatever the clients have stored. */
  ghost predicate Run(ws: seq<World>, es: seq<Event>) {
    && |ws| == |es| + 1
    && ws[0].clients == map[] && ws[0].live == map[]
    && (forall i :: 0 <= i < |es| ==>
          Enabled(ws[i], es[i]) && KeepsNonce(ws[i], es[i]) && NoWrap(ws[i], es[i]) && ws[i + 1] == Apply(ws[i], es[i]))
  }

  lemma {:induction false} RunKeepsInv(ws: seq<World>, es: seq<Event>, i: nat)
    requires Run(ws, es) && i < |ws|
    ensures Inv(ws[i])
  {
    if i > 0 {
      RunKeepsInv(ws, es, i - 1);
      StepKeepsInv(ws[i - 1], es[i - 1]);
    }
  }

  /**
   In every run, through logins, resets, lost messages and other clients' sessions: a client in session and the enclave
   have the same counter and nonce; and the counter ranges the client used since its last reset follow each other
   without gap or overlap, up to the enclave's count.
   */
  lemma RunIsInLockstep(ws: seq<World>, es: seq<Event>, i: nat, id: int)
    requires Run(ws, es) && i < |ws| && id in ws[i].live
    ensures id in ws[i].clients && id in ws[i].used
    ensures ws[i].live[id] == Session(ws[i].clients[id].nonce, Total(ws[i].clients[id]))
    ensures Tiles(ws[i].used[id], ws[i].live[id].counter)
    ensures forall j, k :: 0 <= j < k < |ws[i].used[id]| ==>
      ws[i].used[id][j].first + ws[i].used[id][j].count <= ws[i].used[id][k].first
  {
    RunKeepsInv(ws, es, i);
    var claims := ws[i].used[id];
    forall j, k | 0 <= j < k < |claims| ensures claims[j].first + claims[j].count <= claims[k].first {
      TilesDisjoint(claims, ws[i].live[id].counter, j, k);
    }
  }
}
