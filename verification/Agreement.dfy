/**
 * When the registry and the connection table hold the same ids, how stale a registered peer can be,
 * and the runs in which agreement fails.
 */
module Agreement {
  import opened Lifecycle

  // ---------- handlers that do not overlap ----------

  predicate Live(s: State, h: Handler) { h in s.handlers && s.handlers[h].phase != Finished }

  /** A handler of an id starts after the earlier one has finished and no pending sweep has the id. */
  predicate NoOverlap(s: State, act: Action) {
    act.DoAddPeer? ==>
      && act.id !in s.pending
      && forall h | h in s.handlers && s.handlers[h].id == act.id :: s.handlers[h].phase == Finished
  }

  predicate Disciplined(states: seq<State>, acts: seq<Action>) {
    IsRun(states, acts) && forall k | 0 <= k < |acts| :: NoOverlap(states[k], acts[k])
  }

  /** The install comes before any sweep that collected its id is over. */
  predicate InTime(s: State, act: Action) {
    act.DoInstall? && act.h in s.handlers ==>
      s.handlers[act.h].id in s.peers || s.handlers[act.h].id in s.pending
  }

  predicate Joining(s: State, id: Id) {
    exists h | h in s.handlers :: s.handlers[h].id == id && s.handlers[h].phase == Added
  }

  predicate Leaving(s: State, id: Id) {
    exists h | h in s.handlers :: s.handlers[h].id == id && s.handlers[h].phase == Removed
  }

  /**
   * The two maps differ only where someone is between two steps: connected but not registered are
   * the ids between RemovePeer and delete or collected by a pending sweep, registered but not
   * connected those between AddPeer and install.
   */
  predicate Agree(s: State) {
    && (forall id | id in s.table.current :: id !in s.peers <==> Leaving(s, id) || id in s.pending)
    && (forall id | id in s.peers :: id !in s.table.current <==> Joining(s, id))
  }

  predicate Quiet(s: State) {
    s.pending == {} && forall h | h in s.handlers :: s.handlers[h].phase != Added && s.handlers[h].phase != Removed
  }

  lemma QuietMeansEqual(s: State)
    requires Agree(s) && Quiet(s)
    ensures s.table.current.Keys == s.peers.Keys
  {
    assert forall id :: !Joining(s, id) && !Leaving(s, id);
  }

  // ---------- the invariant of disciplined runs ----------

  predicate Alone(s: State) {
    forall g, h {:trigger s.handlers[g].id, s.handlers[h].id}
      | g in s.handlers && h in s.handlers && Live(s, g) && Live(s, h) && s.handlers[g].id == s.handlers[h].id :: g == h
  }

  /** What holds of every id in every disciplined run, late installs or not. */
  predicate BaseFor(s: State, id: Id) {
    && (id in s.table.current ==>
          var h := s.table.current[id]; Live(s, h) && s.handlers[h].id == id && s.handlers[h].phase != Added)
    && (id in s.peers ==>
          var h := s.peers[id].handler; Live(s, h) && s.handlers[h].id == id && s.handlers[h].phase != Removed)
    && (id in s.peers && id !in s.table.current ==> s.handlers[s.peers[id].handler].phase == Added)
    && (id in s.pending ==> id !in s.peers)
  }

  predicate Base(s: State) {
    && Alone(s)
    && (forall id | id in s.table.current :: BaseFor(s, id))
    && (forall id | id in s.peers :: BaseFor(s, id))
  }

  /** Every connected id is registered, or its handler is leaving, or a pending sweep has collected it. */
  predicate TightFor(s: State, id: Id) {
    id in s.table.current && id !in s.peers && id !in s.pending ==>
      s.table.current[id] in s.handlers && s.handlers[s.table.current[id]].phase == Removed
  }

  predicate Tight(s: State) { forall id | id in s.table.current :: TightFor(s, id) }

  lemma AloneStep(s: State, act: Action)
    requires Alone(s) && Enabled(s, act) && NoOverlap(s, act)
    ensures Alone(Apply(s, act))
  {
  }

  lemma BaseForCleanUp(s: State, act: Action, id: Id)
    requires Base(s) && Enabled(s, act) && (act.DoRemovePeer? || act.DoDeleteEntry?)
    ensures BaseFor(Apply(s, act), id)
  {
    var g := act.h;
    assert Live(s, g);
    if s.handlers[g].id != id {
      assert BaseFor(s, id);
    } else if id in s.peers && id in s.table.current {
      assert s.peers[id].handler == g && s.table.current[id] == g;
    }
  }

  lemma BaseForConnect(s: State, act: Action, id: Id)
    requires Base(s) && Enabled(s, act) && NoOverlap(s, act) && (act.DoAddPeer? || act.DoInstall?)
    ensures BaseFor(Apply(s, act), id)
  {
    assert id in s.table.current || id in s.peers ==> BaseFor(s, id);
  }

  lemma BaseForSweep(s: State, act: Action, id: Id)
    requires Base(s) && Enabled(s, act) && (act.SweepCollect? || act.SweepDelete?)
    ensures BaseFor(Apply(s, act), id)
  {
    assert id in s.table.current || id in s.peers ==> BaseFor(s, id);
  }

  lemma BaseForRest(s: State, act: Action, id: Id)
    requires Base(s) && Enabled(s, act)
    requires act.Pong? || act.ReadFails? || act.CloseConn? || act.Tick?
          || act.MonitorCancel? || act.Stop? || act.StopCloseAll?
    ensures BaseFor(Apply(s, act), id)
  {
    assert id in s.table.current || id in s.peers ==> BaseFor(s, id);
  }

  lemma BaseForStep(s: State, act: Action, id: Id)
    requires Base(s) && Enabled(s, act) && NoOverlap(s, act)
    ensures BaseFor(Apply(s, act), id)
  {
    match act
    case DoAddPeer(_, _) => BaseForConnect(s, act, id);
    case DoInstall(_) => BaseForConnect(s, act, id);
    case DoRemovePeer(_) => BaseForCleanUp(s, act, id);
    case DoDeleteEntry(_) => BaseForCleanUp(s, act, id);
    case SweepCollect => BaseForSweep(s, act, id);
    case SweepDelete => BaseForSweep(s, act, id);
    case _ => BaseForRest(s, act, id);
  }

  lemma BaseStep(s: State, act: Action)
    requires Base(s) && Enabled(s, act) && NoOverlap(s, act)
    ensures Base(Apply(s, act))
  {
    AloneStep(s, act);
    forall id
      ensures BaseFor(Apply(s, act), id)
    {
      BaseForStep(s, act, id);
    }
  }

  lemma TightForStep(s: State, act: Action, id: Id)
    requires Base(s) && Enabled(s, act) && InTime(s, act) && TightFor(s, id)
    ensures TightFor(Apply(s, act), id)
  {
  }

  lemma TightStep(s: State, act: Action)
    requires Base(s) && Enabled(s, act) && NoOverlap(s, act)
    requires Tight(s) && InTime(s, act)
    ensures Tight(Apply(s, act))
  {
    forall id | id in Apply(s, act).table.current
      ensures TightFor(Apply(s, act), id)
    {
      TightForStep(s, act, id);
    }
  }

  lemma {:induction false} BaseRun(states: seq<State>, acts: seq<Action>, k: nat)
    requires Disciplined(states, acts) && k < |states|
    ensures Base(states[k])
  {
    if k > 0 {
      BaseRun(states, acts, k - 1);
      RunStep(states, acts, k - 1);
      BaseStep(states[k - 1], acts[k - 1]);
    }
  }

  lemma {:induction false} TightRun(states: seq<State>, acts: seq<Action>, k: nat)
    requires Disciplined(states, acts) && k < |states|
    requires forall j | 0 <= j < k :: InTime(states[j], acts[j])
    ensures Tight(states[k])
  {
    if k > 0 {
      TightRun(states, acts, k - 1);
      BaseRun(states, acts, k - 1);
      RunStep(states, acts, k - 1);
      TightStep(states[k - 1], acts[k - 1]);
    }
  }

  /** Where a connected id is missing from the registry, who is leaving is the handler it names. */
  lemma LeavingIsCurrent(s: State, id: Id)
    requires Base(s) && id in s.table.current
    ensures Leaving(s, id) <==> s.handlers[s.table.current[id]].phase == Removed
    ensures id in s.peers ==> !Leaving(s, id) && !Joining(s, id)
  {
  }

  lemma AgreeIsTight(s: State)
    requires Base(s)
    ensures Agree(s) <==> Tight(s)
  {
    forall id | id in s.table.current
      ensures Leaving(s, id) <==> s.handlers[s.table.current[id]].phase == Removed
      ensures id in s.peers ==> !Leaving(s, id) && !Joining(s, id)
    {
      LeavingIsCurrent(s, id);
    }
    forall id | id in s.peers && id !in s.table.current
      ensures Joining(s, id)
    {
      assert s.handlers[s.peers[id].handler].phase == Added;
    }
  }

  /** A late install breaks the agreement there and then. */
  lemma LateInstallBreaks(s: State, act: Action)
    requires Base(s) && Enabled(s, act) && NoOverlap(s, act) && !InTime(s, act)
    ensures !Tight(Apply(s, act))
  {
    var t := Apply(s, act);
    var id := s.handlers[act.h].id;
    assert t.table.current[id] == act.h && t.handlers[act.h].phase == Reading;
  }

  lemma InTimeAgrees(states: seq<State>, acts: seq<Action>, k: nat)
    requires Disciplined(states, acts) && k < |states|
    requires forall j | 0 <= j < k :: InTime(states[j], acts[j])
    ensures Agree(states[k])
  {
    TightRun(states, acts, k);
    BaseRun(states, acts, k);
    AgreeIsTight(states[k]);
  }

  lemma LateDisagrees(states: seq<State>, acts: seq<Action>, k: nat)
    requires Disciplined(states, acts) && k < |acts| && !InTime(states[k], acts[k])
    ensures !Agree(states[k + 1])
  {
    BaseRun(states, acts, k);
    RunStep(states, acts, k);
    LateInstallBreaks(states[k], acts[k]);
    BaseRun(states, acts, k + 1);
    AgreeIsTight(states[k + 1]);
  }

  /**
   * In a run without overlapping lifetimes the registry and the connections agree at every state
   * exactly when no install comes after a sweep has removed its peer and moved on.
   */
  lemma AgreementExactlyWhen(states: seq<State>, acts: seq<Action>)
    requires Disciplined(states, acts)
    ensures (forall k | 0 <= k < |states| :: Agree(states[k]))
       <==> (forall k | 0 <= k < |acts| :: InTime(states[k], acts[k]))
  {
    if forall k | 0 <= k < |acts| :: InTime(states[k], acts[k]) {
      forall k | 0 <= k < |states|
        ensures Agree(states[k])
      {
        InTimeAgrees(states, acts, k);
      }
    } else {
      var k :| 0 <= k < |acts| && !InTime(states[k], acts[k]);
      LateDisagrees(states, acts, k);
    }
  }

  // ---------- installing within the session timeout ----------

  /** Until its timeout has passed a peer that waits to install is registered as it was added. */
  predicate WaiterRegistered(s: State, h: Handler)
    requires h in s.handlers
  {
    s.handlers[h].phase == Added ==>
      || s.now - s.handlers[h].addedAt > s.timeout
      || (s.handlers[h].id in s.peers && s.peers[s.handlers[h].id] == PeerEntry(h, s.handlers[h].addedAt))
  }

  predicate WaitersRegistered(s: State) { forall h | h in s.handlers :: WaiterRegistered(s, h) }

  lemma WaiterStep(s: State, act: Action, h: Handler)
    requires Base(s) && Enabled(s, act) && NoOverlap(s, act) && s.timeout >= 0
    requires h in s.handlers && WaiterRegistered(s, h)
    ensures h in Apply(s, act).handlers && WaiterRegistered(Apply(s, act), h)
  {
    if (act.DoRemovePeer? || act.Pong?) && Live(s, h) {
      assert s.handlers[act.h].id == s.handlers[h].id ==> act.h == h;
    }
  }

  lemma WaitersStep(s: State, act: Action)
    requires Base(s) && Enabled(s, act) && NoOverlap(s, act) && WaitersRegistered(s) && s.timeout >= 0
    ensures WaitersRegistered(Apply(s, act))
  {
    forall h | h in Apply(s, act).handlers
      ensures WaiterRegistered(Apply(s, act), h)
    {
      if h in s.handlers {
        WaiterStep(s, act, h);
      }
    }
  }

  lemma {:induction false} WaitersRun(states: seq<State>, acts: seq<Action>, k: nat)
    requires Disciplined(states, acts) && k < |states| && states[0].timeout >= 0
    ensures WaitersRegistered(states[k]) && states[k].timeout == states[0].timeout
  {
    if k > 0 {
      WaitersRun(states, acts, k - 1);
      BaseRun(states, acts, k - 1);
      RunStep(states, acts, k - 1);
      WaitersStep(states[k - 1], acts[k - 1]);
    }
  }

  /** If every handler installs within the session timeout of its AddPeer, the two maps always agree. */
  lemma PromptInstallsAgree(states: seq<State>, acts: seq<Action>, k: nat)
    requires Disciplined(states, acts) && k < |states| && states[0].timeout >= 0
    requires forall j | 0 <= j < |acts| && acts[j].DoInstall? && acts[j].h in states[j].handlers ::
      states[j].now - states[j].handlers[acts[j].h].addedAt <= states[j].timeout
    ensures Agree(states[k])
    ensures Quiet(states[k]) ==> states[k].table.current.Keys == states[k].peers.Keys
  {
    forall j | 0 <= j < |acts|
      ensures InTime(states[j], acts[j])
    {
      WaitersRun(states, acts, j);
      RunStep(states, acts, j);
    }
    AgreementExactlyWhen(states, acts);
    if Quiet(states[k]) {
      QuietMeansEqual(states[k]);
    }
  }

  // ---------- staleness ----------

  /** The sweep, due every half session timeout, is never overdue: at any point the last is no longer ago. */
  predicate OnSchedule(states: seq<State>, acts: seq<Action>)
    requires |states| == |acts| + 1
  {
    forall k | 0 <= k < |states| ::
      || states[k].now - states[0].now <= states[k].timeout / 2
      || exists j | 0 <= j < k :: acts[j].SweepCollect? && states[k].now - states[j].now <= states[k].timeout / 2
  }

  lemma {:induction false} LastSweepIsLast(states: seq<State>, acts: seq<Action>, j: nat, k: nat)
    requires IsRun(states, acts) && j <= k < |states|
    ensures states[j].lastSweep <= states[j].now <= states[k].now && states[j].lastSweep <= states[k].lastSweep
    ensures j < k && acts[j].SweepCollect? ==> states[j].now <= states[k].lastSweep
  {
    if k > 0 {
      RunStep(states, acts, k - 1);
      LastSweepIsLast(states, acts, if j < k then j else j - 1, k - 1);
    }
  }

  predicate SweptEnough(s: State) {
    s.lastSweep <= s.now && forall id | id in s.peers :: s.lastSweep - s.timeout <= s.peers[id].lastPing <= s.now
  }

  lemma {:induction false} SweptEnoughRun(states: seq<State>, acts: seq<Action>, k: nat)
    requires IsRun(states, acts) && k < |states| && states[0].timeout >= 0
    ensures SweptEnough(states[k]) && states[k].timeout == states[0].timeout
  {
    if k > 0 {
      SweptEnoughRun(states, acts, k - 1);
      RunStep(states, acts, k - 1);
    }
  }

  /** With sweeps on schedule no registered peer was last heard of more than 1.5 timeouts ago. */
  lemma BoundedStaleness(states: seq<State>, acts: seq<Action>, k: nat, id: Id)
    requires IsRun(states, acts) && OnSchedule(states, acts) && k < |states| && states[0].timeout >= 0
    requires id in states[k].peers
    ensures states[k].now - states[k].peers[id].lastPing <= states[k].timeout + states[k].timeout / 2
  {
    SweptEnoughRun(states, acts, k);
    LastSweepIsLast(states, acts, 0, k);
    if states[k].now - states[0].now > states[k].timeout / 2 {
      var j :| 0 <= j < k && acts[j].SweepCollect? && states[k].now - states[j].now <= states[k].timeout / 2;
      LastSweepIsLast(states, acts, j, k);
    }
  }

  /** Step m hears of the id: its peer is added, or a handler of the id gets a pong. */
  predicate HeardOf(states: seq<State>, acts: seq<Action>, m: nat, id: Id)
    requires m < |acts| && m < |states|
  {
    || (acts[m].DoAddPeer? && acts[m].id == id)
    || (acts[m].Pong? && acts[m].h in states[m].handlers && states[m].handlers[acts[m].h].id == id)
  }

  predicate PingedSince(s: State, id: Id, since: int) {
    since <= s.now && (id in s.peers ==> since <= s.peers[id].lastPing)
  }

  lemma PingStep(s: State, act: Action, id: Id, since: int)
    requires Enabled(s, act) && PingedSince(s, id, since)
    ensures PingedSince(Apply(s, act), id, since)
  {
  }

  /** A registered peer was pinged no longer ago than its id was heard of. */
  lemma {:induction false} PingIsRecent(states: seq<State>, acts: seq<Action>, m: nat, k: nat, id: Id)
    requires IsRun(states, acts) && m < k < |states| && HeardOf(states, acts, m, id)
    ensures PingedSince(states[k], id, states[m].now)
  {
    RunStep(states, acts, k - 1);
    if m < k - 1 {
      PingIsRecent(states, acts, m, k - 1, id);
      PingStep(states[k - 1], acts[k - 1], id, states[m].now);
    }
  }

  /** At step k some step that heard of the id is at most one session timeout old. */
  predicate HeardOfLately(states: seq<State>, acts: seq<Action>, k: nat, id: Id)
    requires k <= |acts| && |states| == |acts| + 1
  {
    exists m | 0 <= m < k :: HeardOf(states, acts, m, id) && states[k].now - states[m].now <= states[k].timeout
  }

  /** A peer heard of at least once per timeout stays registered until a handler of its id leaves. */
  lemma {:induction false} RefreshedNeverSwept(states: seq<State>, acts: seq<Action>, i: nat, j: nat, id: Id)
    requires IsRun(states, acts) && i <= j < |states| && id in states[i].peers
    requires forall k | i <= k < j :: HeardOfLately(states, acts, k, id)
    requires forall k | i <= k < j && acts[k].DoRemovePeer? && acts[k].h in states[k].handlers ::
      states[k].handlers[acts[k].h].id != id
    ensures id in states[j].peers
  {
    if i < j {
      RefreshedNeverSwept(states, acts, i, j - 1, id);
      RunStep(states, acts, j - 1);
      assert HeardOfLately(states, acts, j - 1, id);
      var m :| 0 <= m < j - 1
        && HeardOf(states, acts, m, id) && states[j - 1].now - states[m].now <= states[j - 1].timeout;
      PingIsRecent(states, acts, m, j - 1, id);
    }
  }

  // ---------- what agreement leaves open ----------

  /** No overlapping lifetimes and no late installs. */
  ghost predicate InOrder(states: seq<State>, acts: seq<Action>) {
    Disciplined(states, acts) && forall k | 0 <= k < |acts| :: InTime(states[k], acts[k])
  }

  lemma Extend(states: seq<State>, acts: seq<Action>, act: Action) returns (states': seq<State>, acts': seq<Action>)
    requires IsRun(states, acts) && Enabled(states[|acts|], act)
    ensures IsRun(states', acts') && states'[|acts'|] == Apply(states[|acts|], act)
    ensures Disciplined(states, acts) && NoOverlap(states[|acts|], act) ==> Disciplined(states', acts')
    ensures InOrder(states, acts) && NoOverlap(states[|acts|], act) && InTime(states[|acts|], act) ==>
      InOrder(states', acts')
  {
    states', acts' := states + [Apply(states[|acts|], act)], acts + [act];
    forall k | 0 <= k < |acts'|
      ensures Follows(states', acts', k)
    {
      if k < |acts| {
        RunStep(states, acts, k);
      }
    }
  }

  /** A new handler's first two steps in a row. */
  lemma Connect(states: seq<State>, acts: seq<Action>, h: Handler, id: Id)
    returns (states': seq<State>, acts': seq<Action>)
    requires IsRun(states, acts) && h !in states[|acts|].handlers
    ensures IsRun(states', acts')
    ensures InOrder(states, acts) && NoOverlap(states[|acts|], DoAddPeer(h, id)) ==> InOrder(states', acts')
    ensures var s, t := states[|acts|], states'[|acts'|];
      t == s.(handlers := s.handlers[h := HandlerState(id, Reading, s.now)],
              peers := AddPeer(s.peers, id, h, s.now), table := Install(s.table, id, h))
  {
    states', acts' := Extend(states, acts, DoAddPeer(h, id));
    states', acts' := Extend(states', acts', DoInstall(h));
  }

  /** A handler's first three cleanup steps in a row. */
  lemma LeaveRegistry(states: seq<State>, acts: seq<Action>, h: Handler)
    returns (states': seq<State>, acts': seq<Action>)
    requires IsRun(states, acts) && InPhase(states[|acts|], h, Reading)
    ensures IsRun(states', acts') && (InOrder(states, acts) ==> InOrder(states', acts'))
    ensures var s, t := states[|acts|], states'[|acts'|];
      && t.handlers == s.handlers[h := s.handlers[h].(phase := Removed)] && t.peers == s.peers - {s.handlers[h].id}
      && t.table == Table(s.table.current, s.table.cancelled + {h}, s.table.closed + {h}) && t.pending == s.pending
  {
    states', acts' := Extend(states, acts, ReadFails(h));
    states', acts' := Extend(states', acts', CloseConn(h));
    states', acts' := Extend(states', acts', DoRemovePeer(h));
  }

  /** No overlap, but an install that comes after the sweep: connected and quiet, yet not registered. */
  lemma LateInstallIsNeverRegistered(now: int, timeout: nat, id: Id) returns (states: seq<State>, acts: seq<Action>)
    ensures Disciplined(states, acts)
    ensures Quiet(states[|acts|]) && id in states[|acts|].table.current && id !in states[|acts|].peers
  {
    states, acts := [Init(now, timeout)], [];
    states, acts := Extend(states, acts, DoAddPeer(0, id));
    states, acts := Extend(states, acts, Tick(timeout + 1));
    states, acts := Extend(states, acts, SweepCollect);
    assert states[|acts|].pending == {id};
    states, acts := Extend(states, acts, SweepDelete);
    states, acts := Extend(states, acts, DoInstall(0));
    assert Quiet(states[|acts|]);
  }

  /**
   * The converses of the two clauses of Agree do not hold: in a run without overlap or late install a
   * sweep can collect an id whose handler has not installed yet, so that it is neither registered nor
   * connected.
   */
  lemma CollectedWhileJoining(now: int, timeout: nat, id: Id) returns (states: seq<State>, acts: seq<Action>)
    ensures InOrder(states, acts)
    ensures var s := states[|acts|];
      && Joining(s, id) && id in s.pending && id !in s.peers && id !in s.table.current
  {
    states, acts := [Init(now, timeout)], [];
    states, acts := Extend(states, acts, DoAddPeer(0, id));
    states, acts := Extend(states, acts, Tick(timeout + 1));
    states, acts := Extend(states, acts, SweepCollect);
    assert states[|acts|].handlers[0].id == id;
  }

  /** Nor does a collected id stay connected until the sweep deletes it: its own handler may be first. */
  lemma CollectedAndGone(now: int, timeout: nat, id: Id) returns (states: seq<State>, acts: seq<Action>)
    ensures InOrder(states, acts)
    ensures var s := states[|acts|];
      && !Joining(s, id) && !Leaving(s, id) && id in s.pending && id !in s.table.current
  {
    states, acts := [Init(now, timeout)], [];
    states, acts := Connect(states, acts, 0, id);
    states, acts := Extend(states, acts, Tick(timeout + 1));
    states, acts := Extend(states, acts, SweepCollect);
    states, acts := LeaveRegistry(states, acts, 0);
    states, acts := Extend(states, acts, DoDeleteEntry(0));
  }
}
