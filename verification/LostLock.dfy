/**
 * What a lost s.mu does to the connections: handlers and sweep wait for the lock, so the table freezes,
 * while the registry, which has a mutex of its own, goes on.
 */
module LostLock {
  import opened Lifecycle
  import opened Overlap

  predicate NeedsLock(act: Action) {
    act.DoInstall? || act.DoDeleteEntry? || act.SweepDelete? || act.StopCloseAll?
  }

  /** From its n-th step on the run takes no step that needs s.mu. */
  ghost predicate LostFrom(states: seq<State>, acts: seq<Action>, n: nat) {
    IsRun(states, acts) && n <= |acts| && forall k | n <= k < |acts| :: !NeedsLock(acts[k])
  }

  /** The entries stay; who waits to install or to delete goes on waiting, and so does a sweep that has collected. */
  ghost predicate Frozen(s: State, t: State) {
    && t.table.current == s.table.current
    && (s.pending != {} ==> t.pending == s.pending)
    && (forall h | h in s.handlers && s.handlers[h].phase in {Added, Removed} ::
          h in t.handlers && t.handlers[h].phase == s.handlers[h].phase)
    && (forall h | h in t.handlers && t.handlers[h].phase != Added :: h in s.handlers && s.handlers[h].phase != Added)
    && (forall h | h in t.handlers && t.handlers[h].phase == Finished ::
          h in s.handlers && s.handlers[h].phase == Finished)
  }

  lemma FrozenStep(s: State, act: Action)
    requires Enabled(s, act) && !NeedsLock(act)
    ensures Frozen(s, Apply(s, act))
  {
  }

  lemma FrozenTransitive(s: State, t: State, u: State)
    requires Frozen(s, t) && Frozen(t, u)
    ensures Frozen(s, u)
  {
  }

  lemma FrozenInRun(states: seq<State>, acts: seq<Action>, n: nat, k: nat)
    requires LostFrom(states, acts, n) && n <= k < |acts|
    ensures Frozen(states[k], states[k + 1])
  {
    RunStep(states, acts, k);
    FrozenStep(states[k], acts[k]);
  }

  lemma {:induction false} ConnectionsFreeze(states: seq<State>, acts: seq<Action>, n: nat, k: nat)
    requires LostFrom(states, acts, n) && n <= k < |states|
    ensures Frozen(states[n], states[k])
  {
    if n < k {
      ConnectionsFreeze(states, acts, n, k - 1);
      FrozenInRun(states, acts, n, k - 1);
      FrozenTransitive(states[n], states[k - 1], states[k]);
    }
  }

  /** A peer that a sweep collects after the loss was collected by the last sweep there will be. */
  lemma OneSweepAtMost(states: seq<State>, acts: seq<Action>, n: nat, i: nat, k: nat)
    requires LostFrom(states, acts, n) && n <= i < k < |acts| && acts[i].SweepCollect?
    requires Stale(states[i].peers, states[i].timeout, states[i].now) != {}
    ensures !acts[k].SweepCollect?
  {
    RunStep(states, acts, i);
    RunStep(states, acts, k);
    ConnectionsFreeze(states, acts, i + 1, k);
  }

  lemma Go(states: seq<State>, acts: seq<Action>, n: nat, act: Action)
    returns (states': seq<State>, acts': seq<Action>)
    requires LostFrom(states, acts, n) && Enabled(states[|acts|], act) && !NeedsLock(act)
    ensures LostFrom(states', acts', n) && states <= states' && acts <= acts'
    ensures states'[|acts'|] == Apply(states[|acts|], act)
  {
    states', acts' := states + [Apply(states[|acts|], act)], acts + [act];
    forall k | 0 <= k < |acts'|
      ensures Follows(states', acts', k)
    {
      if k < |acts| {
        RunStep(states, acts, k);
      }
    }
  }

  /**
   * Meanwhile an id that is not connected can register.  It never gets connected (ConnectionsFreeze), and
   * with a sweep waiting for the lock it is never swept.
   */
  lemma RegistersForNothing(states: seq<State>, acts: seq<Action>, h: Handler, id: Id)
    returns (states': seq<State>, acts': seq<Action>)
    requires IsRun(states, acts) && h !in states[|acts|].handlers && id !in states[|acts|].table.current
    ensures LostFrom(states', acts', |acts|) && acts <= acts' && states <= states'
    ensures var s := states'[|acts'|];
      IsRegistered(s, h) && s.handlers[h].id == id && id !in s.table.current
  {
    states', acts' := Go(states, acts, |acts|, DoAddPeer(h, id));
  }

  /** A connected handler that leaves is unregistered and, its connection closed, stays connected for good. */
  lemma LeavesAndStays(states: seq<State>, acts: seq<Action>, h: Handler)
    returns (states': seq<State>, acts': seq<Action>)
    requires IsRun(states, acts) && InPhase(states[|acts|], h, Reading) && IsCurrent(states[|acts|], h)
    ensures LostFrom(states', acts', |acts|) && acts <= acts' && states <= states'
    ensures var s := states'[|acts'|];
      IsCurrent(s, h) && s.handlers[h].id !in s.peers && h in s.table.closed
  {
    states', acts' := Go(states, acts, |acts|, ReadFails(h));
    states', acts' := Go(states', acts', |acts|, CloseConn(h));
    states', acts' := Go(states', acts', |acts|, DoRemovePeer(h));
  }
}
