/**
 * Whether a waiting request comes to its end: as long as s.mu has not been lost to a panicking cleanup no
 * schedule can block it, and at most three steps of its own return it.  Runs in which s.mu is lost, and in
 * which a read loop dies.
 */
module RendezvousEnds {
  import opened Wrappers
  import opened Rendezvous
  import opened RendezvousExact

  /** Neither hypothesis of the rendezvous is violated by the step. */
  ghost predicate Careful(s: State, act: Action) { NoCollision(s, act) && NoCloseUnderDelivery(s, act) }

  predicate OwnStep(act: Action, r: Request) {
    (act.SendOk? || act.SendFails? || act.Receive? || act.TimeOut? || act.CleanUp?) && act.r == r
  }

  /** No step takes a request back, and each of its own takes it on. */
  lemma StepsCount(s: State, act: Action, r: Request)
    requires Enabled(s, act) && r in s.requests
    ensures r in Apply(s, act).requests
    ensures StepsLeft(Apply(s, act).requests[r].phase)
         <= StepsLeft(s.requests[r].phase) - if OwnStep(act, r) then 1 else 0
  {
  }

  lemma StepsCountInRun(states: seq<State>, acts: seq<Action>, k: nat, r: Request)
    requires IsRun(states, acts) && k < |acts| && r in states[k].requests
    ensures r in states[k + 1].requests
    ensures StepsLeft(states[k + 1].requests[r].phase)
         <= StepsLeft(states[k].requests[r].phase) - if OwnStep(acts[k], r) then 1 else 0
  {
    RunStep(states, acts, k);
    StepsCount(states[k], acts[k], r);
  }

  /** How many of the steps from j up to k are the request's own. */
  function OwnSteps(acts: seq<Action>, j: nat, k: nat, r: Request): nat
    requires j <= k <= |acts|
  {
    if j == k then 0 else OwnSteps(acts, j, k - 1, r) + if OwnStep(acts[k - 1], r) then 1 else 0
  }

  /**
   * In every run, whatever the others do, a request takes at most as many steps of its own as are left to
   * it, so at most three, and has returned when it has taken them.
   */
  lemma {:induction false} OwnStepsReturn(states: seq<State>, acts: seq<Action>, j: nat, k: nat, r: Request)
    requires IsRun(states, acts) && j <= k < |states| && r in states[j].requests
    ensures r in states[k].requests
    ensures OwnSteps(acts, j, k, r) + StepsLeft(states[k].requests[r].phase) <= StepsLeft(states[j].requests[r].phase)
    ensures OwnSteps(acts, j, k, r) >= StepsLeft(states[j].requests[r].phase) ==>
      Status(states[k].requests[r].phase).Some?
  {
    if j < k {
      OwnStepsReturn(states, acts, j, k - 1, r);
      StepsCountInRun(states, acts, k - 1, r);
    }
  }

  /** An unfinished request has a step of its own to take unless it is at its cleanup and s.mu is lost. */
  lemma BlockedExactlyWhen(s: State, r: Request)
    requires Outstanding(s, r)
    ensures (forall act | OwnStep(act, r) :: !Enabled(s, act)) <==> s.muHeld && s.requests[r].phase.Ended?
  {
    assert OwnStep(SendOk(r), r) && OwnStep(TimeOut(r), r) && OwnStep(CleanUp(r), r);
  }

  /**
   * So in every run without collisions a request is never blocked, and once it has taken its steps it was
   * answered with one of the three statuses, its channel was closed exactly once and its entry is gone.
   */
  lemma ReturnsExactlyOnce(states: seq<State>, acts: seq<Action>, j: nat, k: nat, r: Request)
    requires IsRun(states, acts) && j <= k < |states| && r in states[j].requests
    requires forall i | 0 <= i < k :: NoCollision(states[i], acts[i])
    ensures r in states[k].requests
    ensures Outstanding(states[k], r) ==>
      && OwnSteps(acts, j, k, r) < StepsLeft(states[j].requests[r].phase) <= 3
      && exists act :: OwnStep(act, r) && Enabled(states[k], act)
    ensures !Outstanding(states[k], r) ==> ReturnedOnce(states[k], r)
  {
    OwnStepsReturn(states, acts, j, k, r);
    ExactRun(states, acts, k);
    if Outstanding(states[k], r) {
      BlockedExactlyWhen(states[k], r);
    } else {
      DoneMeansGone(states, acts, k, r);
    }
  }

  predicate ReturnedOnce(s: State, r: Request)
    requires r in s.requests
  {
    && s.requests[r].phase.Done? && Status(s.requests[r].phase) in {Some(200), Some(408), Some(500)}
    && !s.requests[r].ch.open && s.requests[r].ch.closes == 1
    && forall key | key in s.filed :: s.filed[key] != r
  }

  // ---------- ways to the end ----------

  /** A delivery on the request's edge connection is under way, into a channel that is still open. */
  predicate DeliveryUnderWay(s: State, e: Edge) {
    e in s.inFlight && s.inFlight[e].request in s.requests && s.requests[s.inFlight[e].request].ch.open
  }

  function Remaining(s: State, r: Request): nat
    requires r in s.requests
  {
    StepsLeft(s.requests[r].phase) + if DeliveryUnderWay(s, s.requests[r].edge) then 1 else 0
  }

  /** The next step on the way out; a delivery on the request's connection runs out of time first. */
  function NextStep(s: State, r: Request): Action
    requires Outstanding(s, r)
  {
    if DeliveryUnderWay(s, s.requests[r].edge) then GiveUp(s.requests[r].edge)
    else match s.requests[r].phase
      case Registered => SendOk(r)
      case Waiting => TimeOut(r)
      case _ => CleanUp(r)
  }

  lemma NextStepEnabled(s: State, r: Request)
    requires Outstanding(s, r) && !s.muHeld
    ensures Enabled(s, NextStep(s, r)) && r in Apply(s, NextStep(s, r)).requests
    ensures Remaining(Apply(s, NextStep(s, r)), r) < Remaining(s, r)
    ensures Outstanding(Apply(s, NextStep(s, r)), r) ==> !Apply(s, NextStep(s, r)).muHeld
  {
  }

  lemma NextStepCareful(s: State, r: Request)
    requires Inv(s) && Outstanding(s, r)
    ensures Careful(s, NextStep(s, r))
  {
    var act := NextStep(s, r);
    assert FiledOk(s, KeyOf(s, r));
    forall e
      ensures !ClosesUnder(s, act, e)
    {
      assert FlightOk(s, e);
    }
  }

  /** The second run goes on where the first ends. */
  ghost predicate Continues(states: seq<State>, acts: seq<Action>, states': seq<State>, acts': seq<Action>) {
    IsRun(states, acts) && IsRun(states', acts') && states <= states' && acts <= acts'
  }

  lemma Extend(states: seq<State>, acts: seq<Action>, act: Action) returns (states': seq<State>, acts': seq<Action>)
    requires IsRun(states, acts) && Enabled(states[|acts|], act)
    ensures Continues(states, acts, states', acts') && |acts'| == |acts| + 1
    ensures acts'[|acts|] == act && states'[|acts'|] == Apply(states[|acts|], act)
  {
    states', acts' := states + [Apply(states[|acts|], act)], acts + [act];
    forall k | 0 <= k < |acts'|
      ensures Follows(states', acts', k)
    {
      if k < |acts| {
        RunStep(states, acts, k);
      }
    }
  }

  ghost predicate CarefulFrom(states: seq<State>, acts: seq<Action>, n: nat)
    requires |acts| <= |states|
  {
    forall k | n <= k < |acts| :: Careful(states[k], acts[k])
  }

  lemma TakeNextStep(states: seq<State>, acts: seq<Action>, r: Request)
    returns (states': seq<State>, acts': seq<Action>)
    requires IsRun(states, acts) && Outstanding(states[|acts|], r) && !states[|acts|].muHeld
    ensures Continues(states, acts, states', acts') && |acts'| == |acts| + 1 && Careful(states'[|acts|], acts'[|acts|])
    ensures var s, t := states[|acts|], states'[|acts'|];
      && r in t.requests && Remaining(t, r) < Remaining(s, r)
      && (if Outstanding(t, r) then !t.muHeld else Status(t.requests[r].phase).Some?)
      && (Exact(s) ==> Exact(t))
  {
    var s := states[|acts|];
    InvRun(states, acts, |acts|);
    NextStepEnabled(s, r);
    NextStepCareful(s, r);
    if Exact(s) {
      ExactStep(s, NextStep(s, r));
    }
    states', acts' := Extend(states, acts, NextStep(s, r));
  }

  /**
   * From any point at which s.mu is not lost an unfinished request can end within four steps, none of
   * which collides or closes a channel under a delivery: its own three, after its edge connection has
   * given up a delivery that is under way.  Without a collision before, it ends in an orderly way.
   */
  lemma {:induction false} CanEnd(states: seq<State>, acts: seq<Action>, r: Request)
    returns (states': seq<State>, acts': seq<Action>)
    requires IsRun(states, acts) && Outstanding(states[|acts|], r) && !states[|acts|].muHeld
    ensures Continues(states, acts, states', acts') && |acts'| <= |acts| + Remaining(states[|acts|], r) <= |acts| + 4
    ensures CarefulFrom(states', acts', |acts|)
    ensures r in states'[|acts'|].requests && Status(states'[|acts'|].requests[r].phase).Some?
    ensures Exact(states[|acts|]) ==> Exact(states'[|acts'|])
    decreases Remaining(states[|acts|], r)
  {
    var longer, more := TakeNextStep(states, acts, r);
    states', acts' := longer, more;
    if Outstanding(longer[|more|], r) {
      states', acts' := CanEnd(longer, more, r);
      assert acts'[|acts|] == more[|acts|] && states'[|acts|] == longer[|acts|];
    }
  }

  /**
   * After a run without collisions that end is the one the request was promised: one of the three
   * statuses, its channel closed exactly once, its entry gone, whether its edge is connected or not.
   */
  lemma EndsExactlyOnce(states: seq<State>, acts: seq<Action>, r: Request)
    returns (states': seq<State>, acts': seq<Action>)
    requires IsRun(states, acts) && Outstanding(states[|acts|], r)
    requires forall k | 0 <= k < |acts| :: NoCollision(states[k], acts[k])
    ensures Continues(states, acts, states', acts') && |acts'| <= |acts| + 4 && CarefulFrom(states', acts', |acts|)
    ensures r in states'[|acts'|].requests && ReturnedOnce(states'[|acts'|], r)
  {
    ExactRun(states, acts, |acts|);
    states', acts' := CanEnd(states, acts, r);
    assert ExactFor(states'[|acts'|], r);
  }

  /** Once a cleanup has panicked, nobody registers, cleans up, comes or goes any more. */
  lemma {:induction false} LockStaysLost(states: seq<State>, acts: seq<Action>, j: nat, k: nat, r: Request)
    requires IsRun(states, acts) && j <= k < |states| && states[j].muHeld
    ensures states[k].muHeld && forall act | NeedsLock(act) :: !Enabled(states[k], act)
    ensures Outstanding(states[j], r) ==> Outstanding(states[k], r)
  {
    if j < k {
      LockStaysLost(states, acts, j, k - 1, r);
      RunStep(states, acts, k - 1);
      LostStep(states[k - 1], acts[k - 1], r);
    }
  }

  lemma LostStep(s: State, act: Action, r: Request)
    requires Enabled(s, act) && s.muHeld
    ensures Apply(s, act).muHeld && (Outstanding(s, r) ==> Outstanding(Apply(s, act), r))
  {
  }

  /** An unfinished request can still end exactly when s.mu has not been lost. */
  lemma CanEndExactlyWhen(states: seq<State>, acts: seq<Action>, r: Request)
    requires IsRun(states, acts) && Outstanding(states[|acts|], r)
    ensures !states[|acts|].muHeld <==>
      exists states', acts' :: Continues(states, acts, states', acts') && !Outstanding(states'[|acts'|], r)
  {
    if !states[|acts|].muHeld {
      var states', acts' := CanEnd(states, acts, r);
      assert Continues(states, acts, states', acts') && !Outstanding(states'[|acts'|], r);
    } else {
      forall states', acts' | Continues(states, acts, states', acts')
        ensures Outstanding(states'[|acts'|], r)
      {
        LockStaysLost(states', acts', |acts|, |acts'|, r);
      }
    }
  }

  // ---------- runs in which it goes wrong ----------

  /** A request to edge e whose question cannot be sent, up to its cleanup. */
  lemma AskInVain(states: seq<State>, acts: seq<Action>, r: Request, e: Edge, client: ClientId)
    returns (states': seq<State>, acts': seq<Action>)
    requires IsRun(states, acts) && r !in states[|acts|].requests
    requires e in states[|acts|].online && !states[|acts|].muHeld
    ensures IsRun(states', acts')
    ensures var s := states[|acts|];
      states'[|acts'|] == s.(requests := s.requests[r := RequestState(e, client, Ended(SendFailed), NEW_CHANNEL)],
                             filed := s.filed[Key(e, client) := r])
  {
    states', acts' := Extend(states, acts, Register(r, e, client));
    states', acts' := Extend(states', acts', SendFails(r));
  }

  /** Two requests for one client at one edge: one cleanup closes the other's channel, and the other panics. */
  lemma CollisionLosesTheLock(e: Edge, client: ClientId) returns (states: seq<State>, acts: seq<Action>)
    ensures IsRun(states, acts) && states[|acts|].muHeld
    ensures forall r | r in states[|acts|].requests :: !Outstanding(states[|acts|], r)
  {
    states, acts := [INIT], [];
    states, acts := Extend(states, acts, EdgeOnline(e));
    states, acts := AskInVain(states, acts, 0, e, client);
    states, acts := AskInVain(states, acts, 1, e, client);
    states, acts := Extend(states, acts, CleanUp(0));
    states, acts := Extend(states, acts, CleanUp(1));
  }

  /** A message looked up just before its request cleans up kills the read loop, with every table exact. */
  lemma CloseUnderDeliveryKills(e: Edge, msg: Message) returns (states: seq<State>, acts: seq<Action>)
    ensures IsRun(states, acts) && Exact(states[|acts|])
    ensures states[|acts|].inFlight == map[] && e in states[|acts|].killed
  {
    states, acts := [INIT], [];
    states, acts := Extend(states, acts, EdgeOnline(e));
    states, acts := AskInVain(states, acts, 0, e, msg.to);
    states, acts := Extend(states, acts, LookUp(e, msg));
    states, acts := Extend(states, acts, CleanUp(0));
    states, acts := Extend(states, acts, Offer(e));
  }
}
