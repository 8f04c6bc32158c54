/**
 * The life of signaling connections as a step system.  Each WebSocket handler adds its peer to the
 * registry, then installs its connection, reads until an error, and cleans up in four steps; a stale
 * sweep collects ids from the registry and deletes their connections later.  A step is what one
 * goroutine does under one lock (or one lock-free call), and steps of all goroutines interleave freely.
 */
module Lifecycle {
  import opened Wrappers

  type Id = string

  /** Handlers are numbered; a handler's number also names its peer and its connection. */
  type Handler = nat

  // ---------- the registry, as its mutex protects it ----------

  datatype PeerEntry = PeerEntry(handler: Handler, lastPing: int)

  type Peers = map<Id, PeerEntry>

  function AddPeer(peers: Peers, id: Id, h: Handler, now: int): Peers { peers[id := PeerEntry(h, now)] }

  function RemovePeer(peers: Peers, id: Id): Peers { peers - {id} }

  function Ping(peers: Peers, id: Id, now: int): Peers {
    if id in peers then peers[id := peers[id].(lastPing := now)] else peers
  }

  function Stale(peers: Peers, timeout: int, now: int): set<Id> {
    set id | id in peers && now - peers[id].lastPing > timeout
  }

  function Fresh(peers: Peers, timeout: int, now: int): Peers {
    map id | id in peers && now - peers[id].lastPing <= timeout :: peers[id]
  }

  // ---------- the connections, as s.mu protects them ----------

  datatype Table = Table(current: map<Id, Handler>, cancelled: set<Handler>, closed: set<Handler>)

  function Install(t: Table, id: Id, h: Handler): Table {
    if id in t.current
    then Table(t.current[id := h], t.cancelled + {t.current[id]}, t.closed + {t.current[id]})
    else t.(current := t.current[id := h])
  }

  function DeleteEntry(t: Table, id: Id): Table { t.(current := t.current - {id}) }

  function DeleteSwept(t: Table, ids: set<Id>): Table {
    Table(t.current - ids, t.cancelled + (set id | id in ids && id in t.current :: t.current[id]), t.closed)
  }

  function CloseAll(t: Table): Table {
    Table(t.current, t.cancelled + t.current.Values, t.closed + t.current.Values)
  }

  // ---------- the whole system ----------

  datatype Phase = Added | Reading | Cancelled | Closed | Removed | Finished

  datatype HandlerState = HandlerState(id: Id, phase: Phase, addedAt: int)

  datatype State = State(
    now: int, timeout: int, handlers: map<Handler, HandlerState>, peers: Peers, table: Table,
    pending: set<Id>, lastSweep: int, stopped: bool)

  datatype Action =
    | Tick(d: nat)
    | DoAddPeer(h: Handler, id: Id)
    | DoInstall(h: Handler)
    | Pong(h: Handler)
    | ReadFails(h: Handler)       // the loop ends and the deferred cleanup cancels the context
    | CloseConn(h: Handler)
    | DoRemovePeer(h: Handler)
    | DoDeleteEntry(h: Handler)
    | SweepCollect
    | SweepDelete
    | MonitorCancel(h: Handler)   // a failed ping
    | Stop
    | StopCloseAll

  function Init(now: int, timeout: int): State {
    State(now, timeout, map[], map[], Table(map[], {}, {}), {}, now, false)
  }

  predicate InPhase(s: State, h: Handler, phase: Phase) { h in s.handlers && s.handlers[h].phase == phase }

  predicate Enabled(s: State, act: Action) {
    match act
    case Tick(_) => true
    case DoAddPeer(h, _) => h !in s.handlers
    case DoInstall(h) => InPhase(s, h, Added)
    case Pong(h) => InPhase(s, h, Reading)
    case ReadFails(h) => InPhase(s, h, Reading)
    case CloseConn(h) => InPhase(s, h, Cancelled)
    case DoRemovePeer(h) => InPhase(s, h, Closed)
    case DoDeleteEntry(h) => InPhase(s, h, Removed)
    case SweepCollect => s.pending == {}
    case SweepDelete => s.pending != {}
    case MonitorCancel(h) => h in s.handlers && s.handlers[h].phase != Added
    case Stop => true
    case StopCloseAll => s.stopped
  }

  function Enter(s: State, h: Handler, phase: Phase): State
    requires h in s.handlers
  {
    s.(handlers := s.handlers[h := s.handlers[h].(phase := phase)])
  }

  function Apply(s: State, act: Action): State
    requires Enabled(s, act)
  {
    match act
    case Tick(d) => s.(now := s.now + d)
    case DoAddPeer(h, id) =>
      s.(handlers := s.handlers[h := HandlerState(id, Added, s.now)], peers := AddPeer(s.peers, id, h, s.now))
    case DoInstall(h) => Enter(s, h, Reading).(table := Install(s.table, s.handlers[h].id, h))
    case Pong(h) => s.(peers := Ping(s.peers, s.handlers[h].id, s.now))
    case ReadFails(h) => Enter(s, h, Cancelled).(table := s.table.(cancelled := s.table.cancelled + {h}))
    case CloseConn(h) => Enter(s, h, Closed).(table := s.table.(closed := s.table.closed + {h}))
    case DoRemovePeer(h) => Enter(s, h, Removed).(peers := RemovePeer(s.peers, s.handlers[h].id))
    case DoDeleteEntry(h) => Enter(s, h, Finished).(table := DeleteEntry(s.table, s.handlers[h].id))
    case SweepCollect =>
      s.(pending := Stale(s.peers, s.timeout, s.now), peers := Fresh(s.peers, s.timeout, s.now), lastSweep := s.now)
    case SweepDelete => s.(pending := {}, table := DeleteSwept(s.table, s.pending))
    case MonitorCancel(h) => s.(table := s.table.(cancelled := s.table.cancelled + {h}))
    case Stop => s.(stopped := true)
    case StopCloseAll => s.(table := CloseAll(s.table))
  }

  /** states[k + 1] follows states[k] by acts[k]. */
  predicate Follows(states: seq<State>, acts: seq<Action>, k: nat)
    requires k < |acts| && |states| == |acts| + 1
  {
    Enabled(states[k], acts[k]) && states[k + 1] == Apply(states[k], acts[k])
  }

  /** A run from a start; each state follows the one before. */
  predicate IsRun(states: seq<State>, acts: seq<Action>) {
    && |states| == |acts| + 1
    && states[0] == Init(states[0].now, states[0].timeout)
    && forall k | 0 <= k < |acts| :: Follows(states, acts, k)
  }

  lemma RunStep(states: seq<State>, acts: seq<Action>, k: nat)
    requires IsRun(states, acts) && k < |acts|
    ensures Enabled(states[k], acts[k]) && states[k + 1] == Apply(states[k], acts[k])
  {
    assert Follows(states, acts, k);
  }

  // ---------- what every run keeps ----------

  /** An entry names a handler of its id that installed. */
  predicate EntryOk(s: State, id: Id) {
    id in s.table.current ==>
      var h := s.table.current[id]; h in s.handlers && s.handlers[h].id == id && s.handlers[h].phase != Added
  }

  /** A handler that began its cleanup is cancelled, and closed once past the close. */
  predicate CleanupOk(s: State, h: Handler)
    requires h in s.handlers
  {
    && (s.handlers[h].phase in {Cancelled, Closed, Removed, Finished} ==> h in s.table.cancelled)
    && (s.handlers[h].phase in {Closed, Removed, Finished} ==> h in s.table.closed)
  }

  predicate Inv(s: State) {
    (forall id | id in s.table.current :: EntryOk(s, id)) && forall h | h in s.handlers :: CleanupOk(s, h)
  }

  lemma EntryStep(s: State, act: Action, id: Id)
    requires EntryOk(s, id) && Enabled(s, act)
    ensures EntryOk(Apply(s, act), id)
  {
  }

  lemma CleanupStep(s: State, act: Action, h: Handler)
    requires Enabled(s, act) && h in Apply(s, act).handlers && (h in s.handlers ==> CleanupOk(s, h))
    ensures CleanupOk(Apply(s, act), h)
  {
  }

  lemma InvStep(s: State, act: Action)
    requires Inv(s) && Enabled(s, act)
    ensures Inv(Apply(s, act))
  {
    forall id | id in Apply(s, act).table.current
      ensures EntryOk(Apply(s, act), id)
    {
      EntryStep(s, act, id);
    }
    forall h | h in Apply(s, act).handlers
      ensures CleanupOk(Apply(s, act), h)
    {
      CleanupStep(s, act, h);
    }
  }

  lemma {:induction false} InvRun(states: seq<State>, acts: seq<Action>, k: nat)
    requires IsRun(states, acts) && k < |states|
    ensures Inv(states[k])
  {
    if k > 0 {
      InvRun(states, acts, k - 1);
      RunStep(states, acts, k - 1);
      InvStep(states[k - 1], acts[k - 1]);
    }
  }

  /** A handler keeps its id; what is cancelled or closed stays so; phases only advance. */
  predicate Later(s: State, t: State) {
    && s.table.cancelled <= t.table.cancelled && s.table.closed <= t.table.closed
    && (forall h | h in s.handlers :: h in t.handlers && t.handlers[h].id == s.handlers[h].id)
    && (forall h | h in s.handlers && s.handlers[h].phase != Added :: t.handlers[h].phase != Added)
  }

  lemma LaterStep(s: State, act: Action)
    requires Enabled(s, act)
    ensures Later(s, Apply(s, act))
  {
  }

  lemma LaterTransitive(s: State, t: State, u: State)
    requires Later(s, t) && Later(t, u)
    ensures Later(s, u)
  {
  }

  lemma {:induction false} LaterRun(states: seq<State>, acts: seq<Action>, j: nat, k: nat)
    requires IsRun(states, acts) && j <= k < |states|
    ensures Later(states[j], states[k])
  {
    if j < k {
      LaterRun(states, acts, j, k - 1);
      RunStep(states, acts, k - 1);
      LaterStep(states[k - 1], acts[k - 1]);
      LaterTransitive(states[j], states[k - 1], states[k]);
    }
  }

  /** The handler that made the last install for id among the first k steps. */
  function LastInstalled(states: seq<State>, acts: seq<Action>, k: nat, id: Id): Option<Handler>
    requires k <= |acts| && k <= |states|
  {
    if k == 0 then None
    else if acts[k - 1].DoInstall? && acts[k - 1].h in states[k - 1].handlers
            && states[k - 1].handlers[acts[k - 1].h].id == id
    then Some(acts[k - 1].h)
    else LastInstalled(states, acts, k - 1, id)
  }

  /** In every run the entry of an id is absent or the most recently installed connection. */
  lemma {:induction false} EntryIsNewest(states: seq<State>, acts: seq<Action>, k: nat, id: Id)
    requires IsRun(states, acts) && k < |states|
    ensures id in states[k].table.current ==> LastInstalled(states, acts, k, id) == Some(states[k].table.current[id])
  {
    if k > 0 {
      EntryIsNewest(states, acts, k - 1, id);
      RunStep(states, acts, k - 1);
    }
  }

  /** Step j is another handler's deferred cleanup deleting the entry that was h's. */
  predicate TakenOver(states: seq<State>, acts: seq<Action>, j: nat, h: Handler)
    requires j < |acts| && j < |states|
  {
    && acts[j].DoDeleteEntry? && acts[j].h != h
    && acts[j].h in states[j].handlers
    && var id := states[j].handlers[acts[j].h].id; id in states[j].table.current && states[j].table.current[id] == h
  }

  /**
   * In every run each installed connection is the current entry of its id, or cancelled, or lost its
   * entry to the deferred cleanup of another handler of the same id.
   */
  lemma {:induction false} InstalledAccountedFor(states: seq<State>, acts: seq<Action>, k: nat, h: Handler)
    requires IsRun(states, acts) && k < |states|
    requires h in states[k].handlers && states[k].handlers[h].phase != Added
    ensures var s := states[k];
      || (s.handlers[h].id in s.table.current && s.table.current[s.handlers[h].id] == h)
      || h in s.table.cancelled
      || exists j: nat | j < k :: TakenOver(states, acts, j, h)
  {
    if k > 0 {
      RunStep(states, acts, k - 1);
      InvRun(states, acts, k - 1);
      InvRun(states, acts, k);
      var before, act := states[k - 1], acts[k - 1];
      if h in before.handlers && before.handlers[h].phase != Added {
        InstalledAccountedFor(states, acts, k - 1, h);
        if act.DoDeleteEntry? && act.h != h
           && before.handlers[h].id in before.table.current && before.table.current[before.handlers[h].id] == h
           && before.handlers[act.h].id == before.handlers[h].id {
          assert TakenOver(states, acts, k - 1, h);
        }
      }
    }
  }

  /** A connection displaced by an install is cancelled and closed from then on. */
  lemma DisplacedIsShut(states: seq<State>, acts: seq<Action>, j: nat, k: nat)
    requires IsRun(states, acts) && j < |acts| && j < k < |states| && acts[j].DoInstall?
    requires acts[j].h in states[j].handlers && states[j].handlers[acts[j].h].id in states[j].table.current
    ensures var displaced := states[j].table.current[states[j].handlers[acts[j].h].id];
      displaced in states[k].table.cancelled && displaced in states[k].table.closed
  {
    RunStep(states, acts, j);
    LaterRun(states, acts, j + 1, k);
  }

  // ---------- who is cancelled, who is closed ----------

  /** Some id has h as its current connection. */
  predicate Connected(s: State, h: Handler) { exists id | id in s.table.current :: s.table.current[id] == h }

  /** The step installs another connection over h's. */
  predicate Displaces(s: State, act: Action, h: Handler) {
    && act.DoInstall? && act.h in s.handlers
    && s.handlers[act.h].id in s.table.current && s.table.current[s.handlers[act.h].id] == h
  }

  predicate Cancels(s: State, act: Action, h: Handler) {
    || act in {ReadFails(h), MonitorCancel(h)}
    || Displaces(s, act, h)
    || (act.SweepDelete? && exists id | id in s.pending && id in s.table.current :: s.table.current[id] == h)
    || (act.StopCloseAll? && Connected(s, h))
  }

  predicate Closes(s: State, act: Action, h: Handler) {
    act == CloseConn(h) || Displaces(s, act, h) || (act.StopCloseAll? && Connected(s, h))
  }

  lemma CancelledStep(s: State, act: Action, h: Handler)
    requires Enabled(s, act)
    ensures h in Apply(s, act).table.cancelled <==> h in s.table.cancelled || Cancels(s, act, h)
  {
    if act.StopCloseAll? {
      assert h in s.table.current.Values <==> Connected(s, h);
    }
  }

  lemma ClosedStep(s: State, act: Action, h: Handler)
    requires Enabled(s, act)
    ensures h in Apply(s, act).table.closed <==> h in s.table.closed || Closes(s, act, h)
  {
    if act.StopCloseAll? {
      assert h in s.table.current.Values <==> Connected(s, h);
    }
  }

  /**
   * In every run a connection is cancelled exactly when its read loop ended, a ping failed, another was
   * installed over it, a sweep deleted its entry or the server's stop found it current; and closed
   * exactly when its own cleanup closed it, another was installed over it or the stop found it current.
   */
  lemma {:induction false} ShutExactlyWhen(states: seq<State>, acts: seq<Action>, k: nat, h: Handler)
    requires IsRun(states, acts) && k < |states|
    ensures h in states[k].table.cancelled <==> exists j: nat | j < k :: Cancels(states[j], acts[j], h)
    ensures h in states[k].table.closed <==> exists j: nat | j < k :: Closes(states[j], acts[j], h)
  {
    if k > 0 {
      ShutExactlyWhen(states, acts, k - 1, h);
      RunStep(states, acts, k - 1);
      CancelledStep(states[k - 1], acts[k - 1], h);
      ClosedStep(states[k - 1], acts[k - 1], h);
    }
  }

  /** Stopping the server leaves every current connection cancelled and closed for good, and the entries in place. */
  lemma StopShutsEverybody(states: seq<State>, acts: seq<Action>, j: nat, k: nat, id: Id)
    requires IsRun(states, acts) && j < |acts| && j < k < |states| && acts[j] == StopCloseAll
    requires id in states[j].table.current
    ensures var h := states[j].table.current[id]; h in states[k].table.cancelled && h in states[k].table.closed
    ensures states[j + 1].table.current == states[j].table.current
  {
    var h := states[j].table.current[id];
    assert Connected(states[j], h) && Cancels(states[j], acts[j], h) && Closes(states[j], acts[j], h);
    ShutExactlyWhen(states, acts, k, h);
    RunStep(states, acts, j);
  }

  /** A sweep leaves the connections of the ids it collected cancelled and without an entry, and all others alone. */
  lemma SweepDeletesCollected(states: seq<State>, acts: seq<Action>, j: nat, id: Id)
    requires IsRun(states, acts) && j < |acts| && acts[j] == SweepDelete
    ensures id in states[j + 1].table.current <==> id in states[j].table.current && id !in states[j].pending
    ensures id in states[j + 1].table.current ==> states[j + 1].table.current[id] == states[j].table.current[id]
    ensures states[j + 1].table.closed == states[j].table.closed
  {
    RunStep(states, acts, j);
  }
}
