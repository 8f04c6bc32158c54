/**
 * Where a handler stands, told from the steps it has taken, and which steps it and the others can take
 * next.
 */
module Phases {
  import opened Lifecycle

  /** The steps of a handler after the one that adds its peer, in order. */
  function StepTo(h: Handler, i: nat): Action
    requires 1 <= i <= 5
  {
    match i
    case 1 => DoInstall(h)
    case 2 => ReadFails(h)
    case 3 => CloseConn(h)
    case 4 => DoRemovePeer(h)
    case _ => DoDeleteEntry(h)
  }

  function Rank(phase: Phase): nat {
    match phase
    case Added => 0
    case Reading => 1
    case Cancelled => 2
    case Closed => 3
    case Removed => 4
    case Finished => 5
  }

  predicate Did(acts: seq<Action>, k: nat, act: Action)
    requires k <= |acts|
  {
    exists j | 0 <= j < k :: acts[j] == act
  }

  lemma RankStep(s: State, act: Action, h: Handler, i: nat)
    requires Enabled(s, act) && h in Apply(s, act).handlers && 1 <= i <= 5
    ensures h in s.handlers ==>
      (Rank(Apply(s, act).handlers[h].phase) >= i <==> Rank(s.handlers[h].phase) >= i || act == StepTo(h, i))
    ensures h in s.handlers ==> !(act.DoAddPeer? && act.h == h)
    ensures h !in s.handlers ==>
      && Apply(s, act).handlers[h] == HandlerState(act.id, Added, s.now)
      && act == DoAddPeer(h, act.id)
  {
  }

  lemma {:induction false} NothingBefore(states: seq<State>, acts: seq<Action>, k: nat, h: Handler, i: nat)
    requires IsRun(states, acts) && k < |states| && h !in states[k].handlers && 1 <= i <= 5
    ensures !Did(acts, k, StepTo(h, i))
  {
    if k > 0 {
      LaterRun(states, acts, k - 1, k);
      NothingBefore(states, acts, k - 1, h, i);
      RunStep(states, acts, k - 1);
    }
  }

  /** In every run a handler has come as far as the last of its steps that was taken. */
  lemma {:induction false} RankTold(states: seq<State>, acts: seq<Action>, k: nat, h: Handler, i: nat)
    requires IsRun(states, acts) && k < |states| && h in states[k].handlers && 1 <= i <= 5
    ensures Rank(states[k].handlers[h].phase) >= i <==> Did(acts, k, StepTo(h, i))
  {
    if k > 0 {
      RunStep(states, acts, k - 1);
      RankStep(states[k - 1], acts[k - 1], h, i);
      if h in states[k - 1].handlers {
        RankTold(states, acts, k - 1, h, i);
      } else {
        NothingBefore(states, acts, k - 1, h, i);
      }
    }
  }

  lemma {:induction false} AddedTold(states: seq<State>, acts: seq<Action>, k: nat, h: Handler)
    requires IsRun(states, acts) && k < |states|
    ensures h in states[k].handlers <==> exists j | 0 <= j < k :: acts[j].DoAddPeer? && acts[j].h == h
    ensures forall j | 0 <= j < k && acts[j].DoAddPeer? && acts[j].h == h ::
      && h in states[k].handlers
      && states[k].handlers[h].id == acts[j].id && states[k].handlers[h].addedAt == states[j].now
  {
    if k > 0 {
      AddedTold(states, acts, k - 1, h);
      RunStep(states, acts, k - 1);
      AddedStep(states[k - 1], acts[k - 1], h);
    }
  }

  lemma AddedStep(s: State, act: Action, h: Handler)
    requires Enabled(s, act)
    ensures h in Apply(s, act).handlers <==> h in s.handlers || (act.DoAddPeer? && act.h == h)
    ensures act.DoAddPeer? && act.h == h ==>
      h !in s.handlers && Apply(s, act).handlers[h] == HandlerState(act.id, Added, s.now)
    ensures h in s.handlers ==>
      && Apply(s, act).handlers[h].id == s.handlers[h].id
      && Apply(s, act).handlers[h].addedAt == s.handlers[h].addedAt
  {
  }

  lemma {:induction false} StoppedTold(states: seq<State>, acts: seq<Action>, k: nat)
    requires IsRun(states, acts) && k < |states|
    ensures states[k].stopped <==> Did(acts, k, Stop)
  {
    if k > 0 {
      StoppedTold(states, acts, k - 1);
      RunStep(states, acts, k - 1);
    }
  }

  /**
   * What can happen next, in every run: each handler takes its steps once and in order; it gets pongs from
   * its install to the end of its read loop, and can be cancelled by its monitor from its install on;
   * collecting and deleting alternate; the server stops at any time, and shuts its connections only then.
   */
  lemma NextTold(states: seq<State>, acts: seq<Action>, k: nat, h: Handler, i: nat)
    requires IsRun(states, acts) && k < |states| && 1 <= i <= 5
    ensures Enabled(states[k], StepTo(h, i)) <==>
      && (exists j | 0 <= j < k :: acts[j].DoAddPeer? && acts[j].h == h)
      && (i > 1 ==> Did(acts, k, StepTo(h, i - 1))) && !Did(acts, k, StepTo(h, i))
    ensures Enabled(states[k], Pong(h)) <==> Did(acts, k, DoInstall(h)) && !Did(acts, k, ReadFails(h))
    ensures Enabled(states[k], MonitorCancel(h)) <==> Did(acts, k, DoInstall(h))
    ensures Enabled(states[k], SweepCollect) <==> !Enabled(states[k], SweepDelete)
    ensures Enabled(states[k], Stop) && (Enabled(states[k], StopCloseAll) <==> Did(acts, k, Stop))
    ensures forall id :: Enabled(states[k], DoAddPeer(h, id)) <==>
      forall j | 0 <= j < k :: !(acts[j].DoAddPeer? && acts[j].h == h)
  {
    AddedTold(states, acts, k, h);
    StoppedTold(states, acts, k);
    if h in states[k].handlers {
      RanksTold(states, acts, k, h, i);
    } else {
      NothingBefore(states, acts, k, h, 1);
    }
  }

  lemma RanksTold(states: seq<State>, acts: seq<Action>, k: nat, h: Handler, i: nat)
    requires IsRun(states, acts) && k < |states| && h in states[k].handlers && 1 <= i <= 5
    ensures Rank(states[k].handlers[h].phase) >= 1 <==> Did(acts, k, DoInstall(h))
    ensures Rank(states[k].handlers[h].phase) >= 2 <==> Did(acts, k, ReadFails(h))
    ensures Rank(states[k].handlers[h].phase) >= i <==> Did(acts, k, StepTo(h, i))
    ensures i > 1 ==> (Rank(states[k].handlers[h].phase) >= i - 1 <==> Did(acts, k, StepTo(h, i - 1)))
  {
    RankTold(states, acts, k, h, 1);
    RankTold(states, acts, k, h, 2);
    RankTold(states, acts, k, h, i);
    if i > 1 {
      RankTold(states, acts, k, h, i - 1);
    }
  }
}
