/**
 * Handlers of one id that overlap, as after a reconnect: when exactly a live connection loses its entry
 * and its registration, and runs in which it does.
 */
module Overlap {
  import opened Lifecycle
  import opened Agreement

  // ---------- the entry of a live connection ----------

  predicate IsCurrent(s: State, h: Handler) {
    h in s.handlers && s.handlers[h].id in s.table.current && s.table.current[s.handlers[h].id] == h
  }

  lemma NotCurrentStep(s: State, act: Action, h: Handler)
    requires Enabled(s, act) && h in s.handlers && s.handlers[h].phase != Added && !IsCurrent(s, h)
    ensures !IsCurrent(Apply(s, act), h)
  {
  }

  lemma NotCurrentInRun(states: seq<State>, acts: seq<Action>, k: nat, h: Handler)
    requires IsRun(states, acts) && k < |acts|
    requires h in states[k].handlers && states[k].handlers[h].phase != Added && !IsCurrent(states[k], h)
    ensures !IsCurrent(states[k + 1], h)
  {
    RunStep(states, acts, k);
    NotCurrentStep(states[k], acts[k], h);
  }

  /** A connection that has lost its entry never gets it back. */
  lemma {:induction false} NotCurrentRun(states: seq<State>, acts: seq<Action>, j: nat, k: nat, h: Handler)
    requires IsRun(states, acts) && j <= k < |states|
    requires h in states[j].handlers && states[j].handlers[h].phase != Added && !IsCurrent(states[j], h)
    ensures !IsCurrent(states[k], h)
  {
    if j < k {
      NotCurrentRun(states, acts, j, k - 1, h);
      LaterRun(states, acts, j, k - 1);
      NotCurrentInRun(states, acts, k - 1, h);
    }
  }

  /**
   * In every run an installed connection that is not cancelled is the entry of its id exactly when no
   * other handler's deferred cleanup has deleted it.
   */
  lemma CurrentExactlyWhen(states: seq<State>, acts: seq<Action>, k: nat, h: Handler)
    requires IsRun(states, acts) && k < |states|
    requires h in states[k].handlers && states[k].handlers[h].phase != Added && h !in states[k].table.cancelled
    ensures IsCurrent(states[k], h) <==> !exists j: nat | j < k :: TakenOver(states, acts, j, h)
  {
    InstalledAccountedFor(states, acts, k, h);
    if j: nat :| j < k && TakenOver(states, acts, j, h) {
      InvRun(states, acts, j);
      RunStep(states, acts, j);
      NotCurrentRun(states, acts, j + 1, k, h);
    }
  }

  // ---------- its registration ----------

  predicate IsRegistered(s: State, h: Handler) {
    h in s.handlers && s.handlers[h].id in s.peers && s.peers[s.handlers[h].id].handler == h
  }

  /** Step j takes h's registration away: a sweep, or another handler of the id that adds or removes a peer. */
  predicate Unregisters(states: seq<State>, acts: seq<Action>, j: nat, h: Handler)
    requires j < |acts| && j < |states|
  {
    var s := states[j];
    && IsRegistered(s, h)
    && match acts[j]
       case DoAddPeer(_, id) => id == s.handlers[h].id
       case DoRemovePeer(g) => g != h && g in s.handlers && s.handlers[g].id == s.handlers[h].id
       case SweepCollect => s.handlers[h].id in Stale(s.peers, s.timeout, s.now)
       case _ => false
  }

  lemma NotRegisteredStep(s: State, act: Action, h: Handler)
    requires Enabled(s, act) && h in s.handlers && !IsRegistered(s, h)
    ensures !IsRegistered(Apply(s, act), h)
  {
  }

  lemma NotRegisteredInRun(states: seq<State>, acts: seq<Action>, k: nat, h: Handler)
    requires IsRun(states, acts) && k < |acts| && h in states[k].handlers && !IsRegistered(states[k], h)
    ensures !IsRegistered(states[k + 1], h)
  {
    RunStep(states, acts, k);
    NotRegisteredStep(states[k], acts[k], h);
  }

  lemma {:induction false} NotRegisteredRun(states: seq<State>, acts: seq<Action>, j: nat, k: nat, h: Handler)
    requires IsRun(states, acts) && j <= k < |states| && h in states[j].handlers && !IsRegistered(states[j], h)
    ensures !IsRegistered(states[k], h)
  {
    if j < k {
      NotRegisteredRun(states, acts, j, k - 1, h);
      LaterRun(states, acts, j, k - 1);
      NotRegisteredInRun(states, acts, k - 1, h);
    }
  }

  lemma {:induction false} UnregisteredBySomeone(states: seq<State>, acts: seq<Action>, k: nat, h: Handler)
    requires IsRun(states, acts) && k < |states| && h in states[k].handlers
    requires states[k].handlers[h].phase !in {Removed, Finished} && !IsRegistered(states[k], h)
    ensures exists j: nat | j < k :: Unregisters(states, acts, j, h)
  {
    if k > 0 {
      RunStep(states, acts, k - 1);
      var s := states[k - 1];
      if IsRegistered(s, h) {
        assert Unregisters(states, acts, k - 1, h);
      } else {
        UnregisteredBySomeone(states, acts, k - 1, h);
      }
    }
  }

  /**
   * In every run the peer of a handler that has not removed it itself is registered exactly when no
   * sweep has collected it and no other handler of the id has replaced or removed it.
   */
  lemma RegisteredExactlyWhen(states: seq<State>, acts: seq<Action>, k: nat, h: Handler)
    requires IsRun(states, acts) && k < |states| && h in states[k].handlers
    requires states[k].handlers[h].phase !in {Removed, Finished}
    ensures IsRegistered(states[k], h) <==> !exists j: nat | j < k :: Unregisters(states, acts, j, h)
  {
    if !IsRegistered(states[k], h) {
      UnregisteredBySomeone(states, acts, k, h);
    }
    if j: nat :| j < k && Unregisters(states, acts, j, h) {
      RunStep(states, acts, j);
      NotRegisteredRun(states, acts, j + 1, k, h);
    }
  }

  /**
   * The cleanup of an older handler of the id, however its steps interleave with others': a handler that
   * was added before the older one removed the peer, and installed before it deleted the entry, is
   * neither registered nor connected ever after.
   */
  lemma OldCleanupEvicts(states: seq<State>, acts: seq<Action>, i: nat, j: nat, k: nat, g: Handler, h: Handler)
    requires IsRun(states, acts) && i < j < k < |states| && acts[i] == DoRemovePeer(g) && acts[j] == DoDeleteEntry(g)
    requires g in states[i].handlers && h in states[i].handlers && states[i].handlers[g].id == states[i].handlers[h].id
    requires h in states[j].handlers && states[j].handlers[h].phase != Added
    ensures !IsCurrent(states[k], h) && !IsRegistered(states[k], h)
  {
    RunStep(states, acts, i);
    NotRegisteredRun(states, acts, i + 1, k, h);
    LaterRun(states, acts, i, j);
    RunStep(states, acts, j);
    NotCurrentRun(states, acts, j + 1, k, h);
  }

  // ---------- the two maps, whoever overlaps ----------

  /** An id in one map only is between two steps of somebody. */
  predicate ExcusedFor(s: State, id: Id) {
    && (id in s.table.current && id !in s.peers ==> Leaving(s, id) || id in s.pending)
    && (id in s.peers && id !in s.table.current ==> Joining(s, id))
  }

  ghost predicate Excused(s: State) { forall id :: ExcusedFor(s, id) }

  /**
   * What keeps it so, read off before the step.  An install finds its id registered, leaving or collected;
   * and whoever deletes an entry finds its id unregistered, or another handler about to install.
   */
  predicate Orderly(s: State, act: Action) {
    match act
    case DoInstall(h) =>
      h in s.handlers ==> s.handlers[h].id in s.peers || s.handlers[h].id in s.pending || Leaving(s, s.handlers[h].id)
    case DoDeleteEntry(h) =>
      h in s.handlers && s.handlers[h].id in s.peers ==> Joining(s, s.handlers[h].id)
    case SweepDelete => forall id | id in s.pending && id in s.peers :: Joining(s, id)
    case _ => true
  }

  lemma JoiningStays(s: State, act: Action, id: Id)
    requires Enabled(s, act)
    ensures Joining(s, id) ==> Joining(Apply(s, act), id) || (act.DoInstall? && s.handlers[act.h].id == id)
    ensures Joining(Apply(s, act), id) ==> Joining(s, id) || (act.DoAddPeer? && act.id == id)
  {
    var t := Apply(s, act);
    if Joining(s, id) {
      var h :| h in s.handlers && s.handlers[h].id == id && s.handlers[h].phase == Added;
      assert h in t.handlers && t.handlers[h].id == id;
    }
    if Joining(t, id) {
      var h :| h in t.handlers && t.handlers[h].id == id && t.handlers[h].phase == Added;
      assert h in s.handlers ==> s.handlers[h].id == id;
    }
  }

  lemma LeavingStays(s: State, act: Action, id: Id)
    requires Enabled(s, act)
    ensures Leaving(s, id) ==> Leaving(Apply(s, act), id) || (act.DoDeleteEntry? && s.handlers[act.h].id == id)
    ensures Leaving(Apply(s, act), id) ==> Leaving(s, id) || (act.DoRemovePeer? && s.handlers[act.h].id == id)
  {
    var t := Apply(s, act);
    if Leaving(s, id) {
      var h :| h in s.handlers && s.handlers[h].id == id && s.handlers[h].phase == Removed;
      assert h in t.handlers && t.handlers[h].id == id;
    }
    if Leaving(t, id) {
      var h :| h in t.handlers && t.handlers[h].id == id && t.handlers[h].phase == Removed;
      assert h in s.handlers && s.handlers[h].id == id;
    }
  }

  lemma OrderlyStep(s: State, act: Action, id: Id)
    requires Enabled(s, act) && Orderly(s, act) && ExcusedFor(s, id)
    ensures ExcusedFor(Apply(s, act), id)
  {
    JoiningStays(s, act, id);
    LeavingStays(s, act, id);
    if act.DoRemovePeer? {
      assert Apply(s, act).handlers[act.h].phase == Removed;
    } else if act.DoAddPeer? {
      assert Apply(s, act).handlers[act.h].phase == Added;
    }
  }

  lemma DisorderlyStep(s: State, act: Action)
    requires Enabled(s, act) && !Orderly(s, act)
    ensures !Excused(Apply(s, act))
  {
    var t := Apply(s, act);
    var id :| (act.SweepDelete? && id in s.pending && id in s.peers && !Joining(s, id))
           || (act.DoInstall? && id == s.handlers[act.h].id)
           || (act.DoDeleteEntry? && id == s.handlers[act.h].id);
    JoiningStays(s, act, id);
    LeavingStays(s, act, id);
    assert !ExcusedFor(t, id);
  }

  lemma {:induction false} OrderlyRun(states: seq<State>, acts: seq<Action>, k: nat, id: Id)
    requires IsRun(states, acts) && k < |states|
    requires forall j | 0 <= j < k :: Orderly(states[j], acts[j])
    ensures ExcusedFor(states[k], id)
  {
    if k > 0 {
      OrderlyRun(states, acts, k - 1, id);
      RunStep(states, acts, k - 1);
      OrderlyStep(states[k - 1], acts[k - 1], id);
    }
  }

  /**
   * In every run, overlapping or not, the two maps differ only where somebody is between two steps exactly
   * when every step was orderly.
   */
  lemma ExcusedExactlyWhen(states: seq<State>, acts: seq<Action>)
    requires IsRun(states, acts)
    ensures (forall k | 0 <= k < |states| :: Excused(states[k]))
       <==> (forall k | 0 <= k < |acts| :: Orderly(states[k], acts[k]))
  {
    if forall k | 0 <= k < |acts| :: Orderly(states[k], acts[k]) {
      forall k | 0 <= k < |states|
        ensures Excused(states[k])
      {
        forall id
          ensures ExcusedFor(states[k], id)
        {
          OrderlyRun(states, acts, k, id);
        }
      }
    } else {
      var k :| 0 <= k < |acts| && !Orderly(states[k], acts[k]);
      RunStep(states, acts, k);
      DisorderlyStep(states[k], acts[k]);
    }
  }

  /** When nobody is between two steps the two maps then hold the same ids, and only then. */
  lemma QuietExcused(s: State)
    requires Quiet(s)
    ensures Excused(s) <==> s.table.current.Keys == s.peers.Keys
  {
    assert forall id :: !Joining(s, id) && !Leaving(s, id);
    assert forall id :: ExcusedFor(s, id) <==> (id in s.table.current <==> id in s.peers);
  }

  // ---------- runs in which it happens ----------

  /** One reconnect under the same id is enough to lose a live connection from both maps. */
  lemma OverlapLosesLiveConnection(now: int, timeout: int, id: Id) returns (states: seq<State>, acts: seq<Action>)
    ensures IsRun(states, acts)
    ensures var s := states[|acts|];
      && Quiet(s) && InPhase(s, 1, Reading) && s.handlers[1].id == id && 1 !in s.table.cancelled
      && id !in s.table.current && id !in s.peers
  {
    states, acts := [Init(now, timeout)], [];
    states, acts := Connect(states, acts, 0, id);
    states, acts := Connect(states, acts, 1, id);
    states, acts := LeaveRegistry(states, acts, 0);
    states, acts := Extend(states, acts, DoDeleteEntry(0));
  }

  /** With the same steps in another order the id stays registered, and nobody is left to connect it. */
  lemma OverlapSplitsTheMaps(now: int, timeout: int, id: Id) returns (states: seq<State>, acts: seq<Action>)
    ensures IsRun(states, acts)
    ensures var s := states[|acts|];
      && Quiet(s) && InPhase(s, 1, Reading) && s.handlers[1].id == id && 1 !in s.table.cancelled
      && id !in s.table.current && id in s.peers
  {
    states, acts := [Init(now, timeout)], [];
    states, acts := Connect(states, acts, 0, id);
    states, acts := LeaveRegistry(states, acts, 0);
    states, acts := Connect(states, acts, 1, id);
    states, acts := Extend(states, acts, DoDeleteEntry(0));
  }
}
