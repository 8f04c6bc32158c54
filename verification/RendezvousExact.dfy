/**
 * What the rendezvous promises.  In every run, panics included, an answer is the first message its
 * edge sent for it and outcomes are final.  The tables are exact exactly while no two requests have
 * shared a key, and a read loop dies exactly when a channel was closed under a delivery.
 */
module RendezvousExact {
  import opened Wrappers
  import opened Rendezvous

  // ---------- every run, colliding requests included ----------

  /** Message msg was read on edge connection e before step k. */
  predicate Sent(acts: seq<Action>, k: nat, e: Edge, msg: Message)
    requires k <= |acts|
  {
    exists j | 0 <= j < k :: acts[j] == LookUp(e, msg)
  }

  lemma {:induction false} DeliveryWasSent(states: seq<State>, acts: seq<Action>, k: nat, e: Edge)
    requires IsRun(states, acts) && k < |states| && e in states[k].inFlight
    ensures Sent(acts, k, e, states[k].inFlight[e].msg)
  {
    if k > 0 {
      RunStep(states, acts, k - 1);
      DeliveryStep(states[k - 1], acts[k - 1], e);
      if acts[k - 1] != LookUp(e, states[k].inFlight[e].msg) {
        DeliveryWasSent(states, acts, k - 1, e);
      }
    }
  }

  lemma {:induction false} AcceptedWasSent(states: seq<State>, acts: seq<Action>, k: nat, r: Request, i: nat)
    requires IsRun(states, acts) && k < |states| && r in states[k].requests && i < |states[k].requests[r].ch.accepted|
    ensures var a := states[k].requests[r].ch.accepted[i]; Sent(acts, k, a.from, a.msg)
  {
    if k > 0 {
      RunStep(states, acts, k - 1);
      AcceptedStep(states[k - 1], acts[k - 1], r, i);
      var s, a := states[k - 1], states[k].requests[r].ch.accepted[i];
      if r in s.requests && i < |s.requests[r].ch.accepted| && s.requests[r].ch.accepted[i] == a {
        AcceptedWasSent(states, acts, k - 1, r, i);
      } else {
        DeliveryWasSent(states, acts, k - 1, a.from);
      }
    }
  }

  lemma DeliveryStep(s: State, act: Action, e: Edge)
    requires Enabled(s, act) && e in Apply(s, act).inFlight
    ensures var d := Apply(s, act).inFlight[e];
      (e in s.inFlight && s.inFlight[e] == d) || act == LookUp(e, d.msg)
  {
  }

  lemma AcceptedStep(s: State, act: Action, r: Request, i: nat)
    requires Enabled(s, act) && r in Apply(s, act).requests && i < |Apply(s, act).requests[r].ch.accepted|
    ensures var a := Apply(s, act).requests[r].ch.accepted[i];
      || (r in s.requests && i < |s.requests[r].ch.accepted| && s.requests[r].ch.accepted[i] == a)
      || (a.from in s.inFlight && s.inFlight[a.from].msg == a.msg)
  {
  }

  /**
   * In every run, duplicates included, the message a request is answered with is the first one its
   * channel accepted, is addressed to its client, and was sent by the edge connection it captured.
   */
  lemma AnswerIsOurs(states: seq<State>, acts: seq<Action>, k: nat, r: Request)
    requires IsRun(states, acts) && k < |states| && r in states[k].requests
    requires var o := OutcomeOf(states[k].requests[r].phase); o.Some? && o.value.Answered?
    ensures var q := states[k].requests[r];
      var msg := OutcomeOf(q.phase).value.msg;
      && q.ch.accepted != [] && q.ch.accepted[0] == Received(q.edge, msg)
      && msg.to == q.client
      && Sent(acts, k, q.edge, msg)
  {
    InvRun(states, acts, k);
    assert ChannelOk(states[k].requests[r]);
    AcceptedWasSent(states, acts, k, r, 0);
    assert states[k].requests[r].ch.accepted[0].from == states[k].requests[r].edge;
  }

  /** The status a finished request is answered with: a recovered panic is a 500. */
  function Status(phase: Phase): Option<nat> {
    match phase
    case Done(Answered(_)) => Some(200)
    case Done(TimedOut) => Some(408)
    case Done(SendFailed) => Some(500)
    case Done(NilAnswer) => Some(500)
    case Panicked(_) => Some(500)
    case _ => None
  }

  /** How many of its own steps a request is at most away from its end. */
  function StepsLeft(phase: Phase): nat {
    match phase
    case Registered => 3
    case Waiting => 2
    case Ended(_) => 1
    case _ => 0
  }

  /** The same request, no further back: what was decided or answered stays. */
  predicate Further(q: RequestState, q': RequestState) {
    && q'.edge == q.edge && q'.client == q.client
    && (OutcomeOf(q.phase).Some? ==> OutcomeOf(q'.phase) == OutcomeOf(q.phase))
    && (Status(q.phase).Some? ==> q'.phase == q.phase)
    && StepsLeft(q'.phase) <= StepsLeft(q.phase)
    && q.ch.closes <= q'.ch.closes && (q'.ch.open ==> q.ch.open)
  }

  lemma FurtherTransitive(q: RequestState, q': RequestState, q'': RequestState)
    requires Further(q, q') && Further(q', q'')
    ensures Further(q, q'')
  {
  }

  lemma FurtherStep(s: State, act: Action, r: Request)
    requires Enabled(s, act) && r in s.requests
    ensures r in Apply(s, act).requests && Further(s.requests[r], Apply(s, act).requests[r])
  {
    if act.CleanUp? {
      FurtherCleanUp(s, act, r);
    }
  }

  lemma FurtherCleanUp(s: State, act: Action, r: Request)
    requires Enabled(s, act) && act.CleanUp? && r in s.requests
    ensures r in Apply(s, act).requests && Further(s.requests[r], Apply(s, act).requests[r])
  {
  }

  lemma FurtherInRun(states: seq<State>, acts: seq<Action>, k: nat, r: Request)
    requires IsRun(states, acts) && k < |acts| && r in states[k].requests
    ensures r in states[k + 1].requests && Further(states[k].requests[r], states[k + 1].requests[r])
  {
    RunStep(states, acts, k);
    FurtherStep(states[k], acts[k], r);
  }

  /**
   * A request keeps its edge and client; an outcome, once there, never changes, and neither does the
   * one status it is answered with.
   */
  lemma {:induction false} OutcomeIsFinal(states: seq<State>, acts: seq<Action>, j: nat, k: nat, r: Request)
    requires IsRun(states, acts) && j <= k < |states| && r in states[j].requests
    ensures r in states[k].requests && Further(states[j].requests[r], states[k].requests[r])
  {
    if j < k {
      OutcomeIsFinal(states, acts, j, k - 1, r);
      FurtherInRun(states, acts, k - 1, r);
      FurtherTransitive(states[j].requests[r], states[k - 1].requests[r], states[k].requests[r]);
    }
  }

  // ---------- colliding requests ----------

  /** No two overlapping requests share an edge connection and a client id. */
  predicate NoCollision(s: State, act: Action) { act.Register? ==> Key(act.e, act.client) !in s.filed }

  /** An unfinished request whose entry is gone or another's. */
  predicate Orphan(s: State, r: Request) {
    Outstanding(s, r) && (KeyOf(s, r) !in s.filed || s.filed[KeyOf(s, r)] != r)
  }

  ghost predicate Spoiled(s: State) { s.muHeld || exists r :: Orphan(s, r) }

  /** A collision makes an orphan of the request that was filed first. */
  lemma CollisionSpoils(s: State, act: Action)
    requires Inv(s) && Enabled(s, act) && !NoCollision(s, act)
    ensures Spoiled(Apply(s, act))
  {
    var key := Key(act.e, act.client);
    assert FiledOk(s, key);
    assert Orphan(Apply(s, act), s.filed[key]);
  }

  /** Only cleanups finish requests and close channels; besides them only Register touches the table. */
  lemma OnlyCleanUpEnds(s: State, act: Action, r: Request)
    requires Enabled(s, act) && !act.CleanUp? && r in s.requests
    ensures var t := Apply(s, act);
      && t.filed == (if act.Register? then s.filed[Key(act.e, act.client) := act.r] else s.filed)
      && t.muHeld == s.muHeld && r in t.requests
      && KeyOf(t, r) == KeyOf(s, r) && Outstanding(t, r) == Outstanding(s, r)
      && t.requests[r].ch.open == s.requests[r].ch.open && t.requests[r].ch.closes == s.requests[r].ch.closes
      && (!Outstanding(s, r) ==> t.requests[r].phase == s.requests[r].phase)
  {
  }

  /** An orphan's cleanup closes another's channel, and that one becomes the orphan. */
  lemma OrphanCleansUp(s: State, r: Request)
    requires Inv(s) && Orphan(s, r) && Enabled(s, CleanUp(r)) && KeyOf(s, r) in s.filed
    ensures Orphan(Apply(s, CleanUp(r)), s.filed[KeyOf(s, r)])
  {
    assert FiledOk(s, KeyOf(s, r));
  }

  lemma OrphanStays(s: State, act: Action, r: Request)
    requires Inv(s) && Enabled(s, act) && Orphan(s, r) && act != CleanUp(r)
    ensures Orphan(Apply(s, act), r)
  {
    if act.CleanUp? {
      OrphanSurvives(s, r, act.r);
    } else {
      OnlyCleanUpEnds(s, act, r);
    }
  }

  lemma OrphanSurvives(s: State, r: Request, other: Request)
    requires Inv(s) && Enabled(s, CleanUp(other)) && Orphan(s, r) && other != r
    ensures Orphan(Apply(s, CleanUp(other)), r)
  {
    assert FiledOk(s, KeyOf(s, other));
  }

  lemma SpoiledStep(s: State, act: Action)
    requires Inv(s) && Enabled(s, act) && Spoiled(s)
    ensures Spoiled(Apply(s, act))
  {
    if !s.muHeld {
      var r :| Orphan(s, r);
      if act != CleanUp(r) {
        OrphanStays(s, act, r);
      } else if KeyOf(s, r) in s.filed {
        OrphanCleansUp(s, r);
      }
    }
  }

  lemma NoNewOrphan(s: State, act: Action, r: Request)
    requires Inv(s) && Enabled(s, act) && NoCollision(s, act) && !Orphan(s, r)
    requires act.CleanUp? ==> !Orphan(s, act.r)
    ensures !Orphan(Apply(s, act), r)
  {
    if act.CleanUp? {
      assert FiledOk(s, KeyOf(s, act.r));
    } else if r in s.requests {
      OnlyCleanUpEnds(s, act, r);
    }
  }

  /** Without a collision nobody becomes an orphan, and cleanups find what they look for. */
  lemma UnspoiledStep(s: State, act: Action)
    requires Inv(s) && Enabled(s, act) && !Spoiled(s) && NoCollision(s, act)
    ensures !Spoiled(Apply(s, act))
  {
    if act.CleanUp? {
      assert !Orphan(s, act.r) && FiledOk(s, KeyOf(s, act.r));
    }
    forall r
      ensures !Orphan(Apply(s, act), r)
    {
      assert !Orphan(s, r);
      NoNewOrphan(s, act, r);
    }
  }

  lemma SpoilStep(s: State, act: Action)
    requires Inv(s) && Enabled(s, act)
    ensures Spoiled(Apply(s, act)) <==> Spoiled(s) || !NoCollision(s, act)
  {
    if Spoiled(s) {
      SpoiledStep(s, act);
    } else if NoCollision(s, act) {
      UnspoiledStep(s, act);
    } else {
      CollisionSpoils(s, act);
    }
  }

  lemma {:induction false} SpoiledExactlyWhen(states: seq<State>, acts: seq<Action>, k: nat)
    requires IsRun(states, acts) && k < |states|
    ensures Spoiled(states[k]) <==> exists j | 0 <= j < k :: !NoCollision(states[j], acts[j])
  {
    if k > 0 {
      SpoiledExactlyWhen(states, acts, k - 1);
      InvRun(states, acts, k - 1);
      RunStep(states, acts, k - 1);
      SpoilStep(states[k - 1], acts[k - 1]);
    }
  }

  /** An unfinished request has its own open channel filed; a finished one was closed once and did not panic. */
  predicate ExactFor(s: State, r: Request)
    requires r in s.requests
  {
    var q := s.requests[r];
    if Outstanding(s, r)
    then KeyOf(s, r) in s.filed && s.filed[KeyOf(s, r)] == r && q.ch.open && q.ch.closes == 0
    else q.phase.Done? && !q.ch.open && q.ch.closes == 1
  }

  /** The tables hold exactly the unfinished requests; nobody was handed a nil; s.mu is not lost. */
  predicate Exact(s: State) {
    && !s.muHeld
    && (forall key | key in s.filed :: Outstanding(s, s.filed[key]) && KeyOf(s, s.filed[key]) == key)
    && (forall r | r in s.requests :: ExactFor(s, r) && OutcomeOf(s.requests[r].phase) != Some(NilAnswer))
  }

  lemma ExactForCleanUp(s: State, act: Action, r: Request)
    requires Exact(s) && Enabled(s, act) && act.CleanUp? && r in s.requests
    ensures r in Apply(s, act).requests && ExactFor(Apply(s, act), r)
  {
    assert ExactFor(s, act.r) && ExactFor(s, r);
  }

  lemma ExactForStep(s: State, act: Action, r: Request)
    requires Inv(s) && Exact(s) && Enabled(s, act) && NoCollision(s, act) && r in Apply(s, act).requests
    ensures ExactFor(Apply(s, act), r)
  {
    if act.CleanUp? {
      ExactForCleanUp(s, act, r);
    } else if r in s.requests {
      assert ExactFor(s, r);
      OnlyCleanUpEnds(s, act, r);
    }
  }

  lemma ExactStep(s: State, act: Action)
    requires Inv(s) && Exact(s) && Enabled(s, act) && NoCollision(s, act)
    ensures Exact(Apply(s, act))
  {
    var t := Apply(s, act);
    InvStep(s, act);
    if act.CleanUp? || act.Receive? {
      assert ExactFor(s, act.r);
    }
    forall r | r in t.requests
      ensures ExactFor(t, r) && OutcomeOf(t.requests[r].phase) != Some(NilAnswer)
    {
      ExactForStep(s, act, r);
    }
    forall key | key in t.filed
      ensures Outstanding(t, t.filed[key]) && KeyOf(t, t.filed[key]) == key
    {
      assert FiledOk(t, key);
    }
  }

  lemma {:induction false} ExactRun(states: seq<State>, acts: seq<Action>, k: nat)
    requires IsRun(states, acts) && k < |states|
    requires forall j | 0 <= j < k :: NoCollision(states[j], acts[j])
    ensures Exact(states[k])
  {
    if k > 0 {
      ExactRun(states, acts, k - 1);
      InvRun(states, acts, k - 1);
      RunStep(states, acts, k - 1);
      ExactStep(states[k - 1], acts[k - 1]);
    }
  }

  /**
   * At any point of any run the tables hold exactly the unfinished requests, each with its own open
   * channel, finished ones were closed exactly once, nobody was handed a nil and s.mu is not lost,
   * exactly when no two overlapping requests have shared an edge connection and a client id.
   */
  lemma ExactlyOnceExactlyWhen(states: seq<State>, acts: seq<Action>, k: nat)
    requires IsRun(states, acts) && k < |states|
    ensures Exact(states[k]) <==> forall j | 0 <= j < k :: NoCollision(states[j], acts[j])
  {
    SpoiledExactlyWhen(states, acts, k);
    if forall j | 0 <= j < k :: NoCollision(states[j], acts[j]) {
      ExactRun(states, acts, k);
    } else if !states[k].muHeld {
      var r :| Orphan(states[k], r);
      assert !ExactFor(states[k], r);
    }
  }

  /** By the time nobody is waiting any more, a collision has cost the server its lock, and nothing else has. */
  lemma LockLostExactlyWhen(states: seq<State>, acts: seq<Action>, k: nat)
    requires IsRun(states, acts) && k < |states|
    requires forall r | r in states[k].requests :: !Outstanding(states[k], r)
    ensures states[k].muHeld <==> exists j | 0 <= j < k :: !NoCollision(states[j], acts[j])
  {
    SpoiledExactlyWhen(states, acts, k);
  }

  /** In runs without collisions a finished request has no entry, one close, and one of the three statuses. */
  lemma DoneMeansGone(states: seq<State>, acts: seq<Action>, k: nat, r: Request)
    requires IsRun(states, acts) && k < |states|
    requires forall j | 0 <= j < k :: NoCollision(states[j], acts[j])
    requires r in states[k].requests && !Outstanding(states[k], r)
    ensures var s := states[k];
      && (forall key | key in s.filed :: s.filed[key] != r)
      && s.requests[r].ch.closes == 1 && !s.requests[r].ch.open
      && match s.requests[r].phase
         case Done(Answered(msg)) => Status(s.requests[r].phase) == Some(200) && msg.to == s.requests[r].client
         case Done(SendFailed) => Status(s.requests[r].phase) == Some(500)
         case Done(TimedOut) => Status(s.requests[r].phase) == Some(408)
         case _ => false
  {
    ExactRun(states, acts, k);
    InvRun(states, acts, k);
    assert ExactFor(states[k], r) && ChannelOk(states[k].requests[r]);
  }

  // ---------- deliveries to closed channels ----------

  predicate HeadedForClosed(s: State, e: Edge) {
    e in s.inFlight && s.inFlight[e].request in s.requests && !s.requests[s.inFlight[e].request].ch.open
  }

  /** The step closes the channel that a delivery on connection e has looked up but not yet sent into. */
  predicate ClosesUnder(s: State, act: Action, e: Edge) {
    && act.CleanUp? && act.r in s.requests && e in s.inFlight
    && KeyOf(s, act.r) in s.filed && s.filed[KeyOf(s, act.r)] == s.inFlight[e].request
  }

  ghost predicate NoCloseUnderDelivery(s: State, act: Action) { forall e :: !ClosesUnder(s, act, e) }

  /** A read loop has died, or is about to. */
  ghost predicate Sinking(s: State) { s.killed != {} || exists e :: HeadedForClosed(s, e) }

  lemma CloseSinks(s: State, act: Action, e: Edge)
    requires Inv(s) && Enabled(s, act) && ClosesUnder(s, act, e)
    ensures HeadedForClosed(Apply(s, act), e)
  {
    assert FiledOk(s, KeyOf(s, act.r));
  }

  /** A delivery headed for a closed channel can only panic. */
  lemma SinkingStep(s: State, act: Action, e: Edge)
    requires Enabled(s, act) && HeadedForClosed(s, e)
    ensures HeadedForClosed(Apply(s, act), e) || e in Apply(s, act).killed
  {
  }

  lemma AfloatStep(s: State, act: Action, e: Edge)
    requires Inv(s) && Enabled(s, act) && !HeadedForClosed(s, e) && !ClosesUnder(s, act, e)
    ensures !HeadedForClosed(Apply(s, act), e) && (e in Apply(s, act).killed ==> e in s.killed)
  {
    assert FlightOk(s, e);
    if act.LookUp? {
      assert FiledOk(s, Key(act.e, act.msg.to));
    }
  }

  lemma StaysSinking(s: State, act: Action)
    requires Enabled(s, act) && Sinking(s)
    ensures Sinking(Apply(s, act))
  {
    if s.killed == {} {
      var e :| HeadedForClosed(s, e);
      SinkingStep(s, act, e);
    }
  }

  lemma StaysAfloat(s: State, act: Action)
    requires Inv(s) && Enabled(s, act) && !Sinking(s) && NoCloseUnderDelivery(s, act)
    ensures !Sinking(Apply(s, act))
  {
    forall e
      ensures !HeadedForClosed(Apply(s, act), e) && e !in Apply(s, act).killed
    {
      assert !HeadedForClosed(s, e) && !ClosesUnder(s, act, e);
      AfloatStep(s, act, e);
    }
  }

  lemma SinkStep(s: State, act: Action)
    requires Inv(s) && Enabled(s, act)
    ensures Sinking(Apply(s, act)) <==> Sinking(s) || !NoCloseUnderDelivery(s, act)
  {
    if Sinking(s) {
      StaysSinking(s, act);
    } else if e :| ClosesUnder(s, act, e) {
      CloseSinks(s, act, e);
    } else {
      StaysAfloat(s, act);
    }
  }

  /**
   * A read loop has died or is about to exactly when some cleanup has closed a channel that a delivery
   * had looked up and not yet sent into.
   */
  lemma {:induction false} SinkingExactlyWhen(states: seq<State>, acts: seq<Action>, k: nat)
    requires IsRun(states, acts) && k < |states|
    ensures Sinking(states[k]) <==> exists j | 0 <= j < k :: !NoCloseUnderDelivery(states[j], acts[j])
  {
    if k > 0 {
      SinkingExactlyWhen(states, acts, k - 1);
      InvRun(states, acts, k - 1);
      RunStep(states, acts, k - 1);
      SinkStep(states[k - 1], acts[k - 1]);
    }
  }

  /** Whenever no delivery is under way, a read loop has died exactly when a close came under one. */
  lemma ReadLoopDiesExactlyWhen(states: seq<State>, acts: seq<Action>, k: nat)
    requires IsRun(states, acts) && k < |states| && states[k].inFlight == map[]
    ensures states[k].killed != {} <==> exists j | 0 <= j < k :: !NoCloseUnderDelivery(states[j], acts[j])
  {
    SinkingExactlyWhen(states, acts, k);
  }
}
