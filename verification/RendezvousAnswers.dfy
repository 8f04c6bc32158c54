/**
 * What a request is answered, told from the steps of the run: the first message its edge's responses put
 * into its channel, or the timeout, the failed send or the nil that came instead; and which response gets
 * into which channel.
 */
module RendezvousAnswers {
  import opened Wrappers
  import opened Rendezvous
  import opened RendezvousExact
  import opened RendezvousEnds

  // ---------- what is in a channel ----------

  function AcceptedBy(s: State, r: Request): seq<Received>
    requires r in s.requests
  {
    s.requests[r].ch.accepted
  }

  /** A send into an open channel puts exactly the message that was read, with its connection, behind the others. */
  lemma OfferAppends(states: seq<State>, acts: seq<Action>, k: nat, e: Edge)
    requires IsRun(states, acts) && k < |acts| && acts[k] == Offer(e)
    ensures e in states[k].inFlight && e !in states[k + 1].inFlight
    ensures var d := states[k].inFlight[e];
      && d.request in states[k].requests && d.request in states[k + 1].requests
      && (states[k].requests[d.request].ch.open ==>
            && AcceptedBy(states[k + 1], d.request) == AcceptedBy(states[k], d.request) + [Received(e, d.msg)]
            && states[k + 1].killed == states[k].killed && states[k + 1].reading == states[k].reading)
      && (!states[k].requests[d.request].ch.open ==>
            && AcceptedBy(states[k + 1], d.request) == AcceptedBy(states[k], d.request)
            && e in states[k + 1].killed && e !in states[k + 1].reading)
  {
    RunStep(states, acts, k);
  }

  /** Nothing else changes what a channel has accepted. */
  lemma OnlyOfferAppends(s: State, act: Action, r: Request)
    requires Enabled(s, act) && r in s.requests
    requires act.Offer? ==> act.e in s.inFlight && s.inFlight[act.e].request != r
    ensures r in Apply(s, act).requests && AcceptedBy(Apply(s, act), r) == AcceptedBy(s, r)
  {
  }

  lemma AcceptedGrows(s: State, act: Action, r: Request)
    requires Enabled(s, act) && r in s.requests
    ensures r in Apply(s, act).requests && AcceptedBy(s, r) <= AcceptedBy(Apply(s, act), r)
  {
    if act.Offer? && s.inFlight[act.e].request == r {
    } else {
      OnlyOfferAppends(s, act, r);
    }
  }

  lemma {:induction false} AcceptedStays(states: seq<State>, acts: seq<Action>, j: nat, k: nat, r: Request)
    requires IsRun(states, acts) && j <= k < |states| && r in states[j].requests
    ensures r in states[k].requests && AcceptedBy(states[j], r) <= AcceptedBy(states[k], r)
  {
    if j < k {
      AcceptedStays(states, acts, j, k - 1, r);
      RunStep(states, acts, k - 1);
      AcceptedGrows(states[k - 1], acts[k - 1], r);
    }
  }

  /** A request keeps the connection and the client it was registered with. */
  lemma RegisteredAs(states: seq<State>, acts: seq<Action>, k: nat, m: nat, r: Request, e: Edge, client: ClientId)
    requires IsRun(states, acts) && k < |acts| && k < m < |states| && acts[k] == Register(r, e, client)
    ensures r !in states[k].requests && r in states[m].requests
    ensures states[m].requests[r].edge == e && states[m].requests[r].client == client
    ensures r in states[k + 1].requests
    ensures OutcomeOf(states[k + 1].requests[r].phase) == None && AcceptedBy(states[k + 1], r) == []
  {
    RunStep(states, acts, k);
    OutcomeIsFinal(states, acts, k + 1, m, r);
  }

  // ---------- what decides a request ----------

  /** Step k decides request r and what for: it gives up its wait, could not ask, or reads its channel. */
  predicate DecidesOn(states: seq<State>, acts: seq<Action>, k: nat, r: Request, o: Outcome)
    requires k < |acts| && k < |states|
  {
    match o
    case TimedOut => acts[k] == TimeOut(r)
    case SendFailed => acts[k] == SendFails(r)
    case NilAnswer => acts[k] == Receive(r) && r in states[k].requests && AcceptedBy(states[k], r) == []
    case Answered(msg) =>
      acts[k] == Receive(r) && r in states[k].requests
      && AcceptedBy(states[k], r) != [] && AcceptedBy(states[k], r)[0].msg == msg
  }

  lemma DecidedStep(states: seq<State>, acts: seq<Action>, k: nat, r: Request, o: Outcome)
    requires IsRun(states, acts) && k < |acts| && r in states[k].requests
    ensures r in states[k + 1].requests
    ensures OutcomeOf(states[k + 1].requests[r].phase) == Some(o) <==>
      OutcomeOf(states[k].requests[r].phase) == Some(o) || DecidesOn(states, acts, k, r, o)
  {
    RunStep(states, acts, k);
    InvRun(states, acts, k);
    assert ChannelOk(states[k].requests[r]);
    FurtherStep(states[k], acts[k], r);
  }

  lemma FreshUndecided(states: seq<State>, acts: seq<Action>, k: nat, r: Request)
    requires IsRun(states, acts) && k < |acts| && r !in states[k].requests && r in states[k + 1].requests
    ensures OutcomeOf(states[k + 1].requests[r].phase) == None && acts[k].Register? && acts[k].r == r
  {
    RunStep(states, acts, k);
  }

  lemma {:induction false} NotYetDecided(states: seq<State>, acts: seq<Action>, k: nat, r: Request, o: Outcome)
    requires IsRun(states, acts) && k < |states| && r !in states[k].requests
    ensures forall j: nat | j < k :: !DecidesOn(states, acts, j, r, o)
  {
    if k > 0 {
      RunStep(states, acts, k - 1);
      if r in states[k - 1].requests {
        FurtherStep(states[k - 1], acts[k - 1], r);
      }
      NotYetDecided(states, acts, k - 1, r, o);
    }
  }

  /** In every run a request has an outcome exactly when one of the steps before decided on it. */
  lemma {:induction false} OutcomeExactlyWhen(states: seq<State>, acts: seq<Action>, k: nat, r: Request, o: Outcome)
    requires IsRun(states, acts) && k < |states| && r in states[k].requests
    ensures OutcomeOf(states[k].requests[r].phase) == Some(o)
       <==> exists j: nat | j < k :: DecidesOn(states, acts, j, r, o)
  {
    if k > 0 {
      if r in states[k - 1].requests {
        OutcomeExactlyWhen(states, acts, k - 1, r, o);
        DecidedStep(states, acts, k - 1, r, o);
      } else {
        FreshUndecided(states, acts, k - 1, r);
        NotYetDecided(states, acts, k - 1, r, o);
      }
    }
  }

  /**
   * In every run a request that reads its channel after it accepted a message is answered with the first
   * message accepted, from then on, and with status 200 once its cleanup is done.
   */
  lemma ReceiveAnswers(states: seq<State>, acts: seq<Action>, k: nat, m: nat, r: Request)
    requires IsRun(states, acts) && k < |acts| && k < m < |states| && acts[k] == Receive(r)
    requires r in states[k].requests && AcceptedBy(states[k], r) != []
    ensures r in states[m].requests
    ensures var phase := states[m].requests[r].phase;
      && (phase.Ended? || phase.Done? || phase.Panicked?)
      && phase.outcome == Answered(AcceptedBy(states[k], r)[0].msg)
      && (phase.Done? ==> Status(phase) == Some(200))
  {
    OutcomeIsFinal(states, acts, k, m, r);
    assert DecidesOn(states, acts, k, r, Answered(AcceptedBy(states[k], r)[0].msg));
    OutcomeExactlyWhen(states, acts, m, r, Answered(AcceptedBy(states[k], r)[0].msg));
  }

  /** The statuses told from the steps: 408 after a timeout, 500 after a failed send or a nil, 200 after an answer. */
  lemma StatusExactlyWhen(states: seq<State>, acts: seq<Action>, m: nat, r: Request)
    requires IsRun(states, acts) && m < |states| && r in states[m].requests && states[m].requests[r].phase.Done?
    ensures var status := Status(states[m].requests[r].phase);
      && (status == Some(408) <==> exists k: nat | k < m :: acts[k] == TimeOut(r))
      && (status == Some(500) <==> exists k: nat | k < m ::
            acts[k] == SendFails(r) || DecidesOn(states, acts, k, r, NilAnswer))
      && (status == Some(200) <==> exists k: nat | k < m ::
            acts[k] == Receive(r) && r in states[k].requests && AcceptedBy(states[k], r) != [])
  {
    var o := states[m].requests[r].phase.outcome;
    OutcomeExactlyWhen(states, acts, m, r, o);
    OutcomeExactlyWhen(states, acts, m, r, TimedOut);
    OutcomeExactlyWhen(states, acts, m, r, SendFailed);
    OutcomeExactlyWhen(states, acts, m, r, NilAnswer);
    if k: nat :| k < m && acts[k] == Receive(r) && r in states[k].requests && AcceptedBy(states[k], r) != [] {
      ReceiveAnswers(states, acts, k, m, r);
    }
    assert forall k: nat | k < m :: DecidesOn(states, acts, k, r, TimedOut) <==> acts[k] == TimeOut(r);
    assert forall k: nat | k < m :: DecidesOn(states, acts, k, r, SendFailed) <==> acts[k] == SendFails(r);
  }

  // ---------- which response reaches which request ----------

  /** A response read on connection e is on its way to r. */
  predicate Delivering(s: State, e: Edge, r: Request, msg: Message) {
    e in s.inFlight && s.inFlight[e] == Delivery(r, msg)
  }

  /**
   * Without collisions the response read on a connection is on its way to the one unfinished request
   * for its addressee on that connection, if there is one, and to nobody otherwise.
   */
  lemma LookUpFinds(states: seq<State>, acts: seq<Action>, k: nat, e: Edge, msg: Message, r: Request)
    requires IsRun(states, acts) && k < |acts| && acts[k] == LookUp(e, msg)
    requires forall j | 0 <= j < k :: NoCollision(states[j], acts[j])
    ensures Delivering(states[k + 1], e, r, msg)
       <==> Outstanding(states[k], r) && states[k].requests[r].edge == e && states[k].requests[r].client == msg.to
  {
    RunStep(states, acts, k);
    ExactRun(states, acts, k);
    InvRun(states, acts, k);
    assert FiledOk(states[k], Key(e, msg.to));
    if r in states[k].requests {
      assert ExactFor(states[k], r);
    }
  }

  /** A delivery stays under way until its connection sends it or gives it up. */
  lemma {:induction false} DeliveryStays(states: seq<State>, acts: seq<Action>, j: nat, k: nat,
                                         e: Edge, r: Request, msg: Message)
    requires IsRun(states, acts) && j <= k < |states| && Delivering(states[j], e, r, msg)
    requires forall i | j <= i < k :: acts[i] != Offer(e) && acts[i] != GiveUp(e)
    ensures Delivering(states[k], e, r, msg)
  {
    if j < k {
      DeliveryStays(states, acts, j, k - 1, e, r, msg);
      RunStep(states, acts, k - 1);
      DeliveryStaysStep(states[k - 1], acts[k - 1], e, r, msg);
    }
  }

  lemma DeliveryStaysStep(s: State, act: Action, e: Edge, r: Request, msg: Message)
    requires Enabled(s, act) && Delivering(s, e, r, msg) && act != Offer(e) && act != GiveUp(e)
    ensures Delivering(Apply(s, act), e, r, msg)
  {
  }

  /**
   * From end to end: a response that edge connection e reads at step j for a request that is not finished,
   * and sends at step k as the first into its channel, is what the request is answered with, status 200,
   * when it reads its channel after that.
   */
  lemma ResponseReachesRequest(states: seq<State>, acts: seq<Action>, j: nat, k: nat, n: nat, m: nat,
                               e: Edge, msg: Message, r: Request)
    requires IsRun(states, acts) && j < k < n < |acts| && n < m < |states|
    requires forall i | 0 <= i < j :: NoCollision(states[i], acts[i])
    requires Outstanding(states[j], r) && states[j].requests[r].edge == e && states[j].requests[r].client == msg.to
    requires acts[j] == LookUp(e, msg) && acts[k] == Offer(e) && acts[n] == Receive(r)
    requires forall i | j < i < k :: acts[i] != Offer(e) && acts[i] != GiveUp(e)
    requires r in states[k].requests && states[k].requests[r].ch.open && AcceptedBy(states[k], r) == []
    ensures r in states[m].requests
    ensures var phase := states[m].requests[r].phase;
      && OutcomeOf(phase) == Some(Answered(msg))
      && (phase.Done? ==> Status(phase) == Some(200))
  {
    LookUpFinds(states, acts, j, e, msg, r);
    DeliveryStays(states, acts, j + 1, k, e, r, msg);
    OfferAppends(states, acts, k, e);
    AcceptedStays(states, acts, k + 1, n, r);
    ReceiveAnswers(states, acts, n, m, r);
  }

  // ---------- which connections take part ----------

  lemma OnlineStep(states: seq<State>, acts: seq<Action>, k: nat, e: Edge)
    requires IsRun(states, acts) && k < |acts|
    ensures e in states[k + 1].edges <==> e in states[k].edges || acts[k] == EdgeOnline(e)
    ensures e in states[k + 1].online <==>
      (e in states[k].online || acts[k] == EdgeOnline(e)) && acts[k] != EdgeOffline(e)
    ensures acts[k] == EdgeOnline(e) ==> e !in states[k].edges
    ensures acts[k] == EdgeOffline(e) ==> e in states[k].online
  {
    RunStep(states, acts, k);
  }

  /** A connection is online exactly from the step that brings it there to the one that takes it away. */
  lemma {:induction false} OnlineExactlyWhen(states: seq<State>, acts: seq<Action>, k: nat, e: Edge)
    requires IsRun(states, acts) && k < |states|
    ensures e in states[k].edges <==> exists j: nat | j < k :: acts[j] == EdgeOnline(e)
    ensures e in states[k].online <==>
      (exists j: nat | j < k :: acts[j] == EdgeOnline(e)) && forall j: nat | j < k :: acts[j] != EdgeOffline(e)
    ensures forall j: nat | j < k && acts[j] == EdgeOffline(e) :: e in states[k].edges
  {
    if k > 0 {
      OnlineExactlyWhen(states, acts, k - 1, e);
      OnlineStep(states, acts, k - 1, e);
    }
  }

  lemma ReadingStep(states: seq<State>, acts: seq<Action>, k: nat, e: Edge)
    requires IsRun(states, acts) && k < |acts|
    ensures e in states[k + 1].reading <==>
      || acts[k] == EdgeOnline(e)
      || (e in states[k].reading && acts[k] != StopReading(e)
          && !(acts[k] == Offer(e) && HeadedForClosed(states[k], e)))
    ensures acts[k] == EdgeOnline(e) ==> forall msg :: acts[k] != LookUp(e, msg)
  {
    RunStep(states, acts, k);
  }

  /**
   * Requests are filed on connections that are online, and responses read on connections whose read loop
   * has neither met an error nor died of a panicking send.
   */
  lemma {:induction false} ReadingSince(states: seq<State>, acts: seq<Action>, k: nat, e: Edge)
    requires IsRun(states, acts) && k < |states|
    ensures e in states[k].reading <==> exists j: nat | j < k :: ReadsSince(states, acts, j, k, e)
  {
    if k > 0 {
      ReadingSince(states, acts, k - 1, e);
      ReadingStep(states, acts, k - 1, e);
      if e in states[k].reading {
        if acts[k - 1] == EdgeOnline(e) {
          assert ReadsSince(states, acts, k - 1, k, e);
        } else {
          var j: nat :| j < k - 1 && ReadsSince(states, acts, j, k - 1, e);
          assert ReadsSince(states, acts, j, k, e);
        }
      } else if j: nat :| j < k && ReadsSince(states, acts, j, k, e) {
        assert j < k - 1 && ReadsSince(states, acts, j, k - 1, e);
      }
    }
  }

  predicate ReadsSince(states: seq<State>, acts: seq<Action>, j: nat, k: nat, e: Edge)
    requires j < k <= |acts| && |states| == |acts| + 1
  {
    acts[j] == EdgeOnline(e)
    && forall i | j < i < k :: acts[i] != StopReading(e) && !(acts[i] == Offer(e) && HeadedForClosed(states[i], e))
  }

  /** So steps are taken only by those who take part. */
  lemma TakesPart(states: seq<State>, acts: seq<Action>, k: nat)
    requires IsRun(states, acts) && k < |acts|
    ensures acts[k].Register? ==>
      && (exists j: nat | j < k :: acts[j] == EdgeOnline(acts[k].e))
      && (forall j: nat | j < k :: acts[j] != EdgeOffline(acts[k].e))
    ensures acts[k].LookUp? ==> exists j: nat | j < k :: ReadsSince(states, acts, j, k, acts[k].e)
  {
    RunStep(states, acts, k);
    if acts[k].Register? {
      OnlineExactlyWhen(states, acts, k, acts[k].e);
    } else if acts[k].LookUp? {
      ReadingSince(states, acts, k, acts[k].e);
    }
  }

  // ---------- what can happen next ----------

  /** In every run a request stands where the last of its own steps took it. */
  lemma {:induction false} StepsTold(states: seq<State>, acts: seq<Action>, k: nat, r: Request)
    requires IsRun(states, acts) && k < |states| && r in states[k].requests
    ensures StepsLeft(states[k].requests[r].phase) <= 2 <==>
      exists j | 0 <= j < k :: acts[j] == SendOk(r) || acts[j] == SendFails(r)
    ensures StepsLeft(states[k].requests[r].phase) <= 1 <==>
      exists j | 0 <= j < k :: acts[j] == SendFails(r) || acts[j] == TimeOut(r) || acts[j] == Receive(r)
    ensures StepsLeft(states[k].requests[r].phase) == 0 <==> exists j | 0 <= j < k :: acts[j] == CleanUp(r)
  {
    if k > 0 {
      RunStep(states, acts, k - 1);
      if r in states[k - 1].requests {
        StepsTold(states, acts, k - 1, r);
        StepsToldStep(states[k - 1], acts[k - 1], r);
      } else {
        FreshUndecided(states, acts, k - 1, r);
        NoStepsBefore(states, acts, k - 1, r);
      }
    }
  }

  lemma StepsToldStep(s: State, act: Action, r: Request)
    requires Enabled(s, act) && r in s.requests
    ensures r in Apply(s, act).requests
    ensures var before, after := StepsLeft(s.requests[r].phase), StepsLeft(Apply(s, act).requests[r].phase);
      && (after <= 2 <==> before <= 2 || act in {SendOk(r), SendFails(r)})
      && (after <= 1 <==> before <= 1 || act in {SendFails(r), TimeOut(r), Receive(r)})
      && (after == 0 <==> before == 0 || act == CleanUp(r))
  {
    if act.CleanUp? {
      CleanUpTold(s, act, r);
    } else if !OwnStep(act, r) {
      OthersTold(s, act, r);
    }
  }

  lemma CleanUpTold(s: State, act: Action, r: Request)
    requires Enabled(s, act) && r in s.requests && act.CleanUp?
    ensures r in Apply(s, act).requests
    ensures var before, after := StepsLeft(s.requests[r].phase), StepsLeft(Apply(s, act).requests[r].phase);
      if act.r == r then before == 1 && after == 0 else after == before
  {
  }

  lemma OthersTold(s: State, act: Action, r: Request)
    requires Enabled(s, act) && r in s.requests && !OwnStep(act, r) && !act.CleanUp?
    ensures r in Apply(s, act).requests && Apply(s, act).requests[r].phase == s.requests[r].phase
  {
  }

  lemma {:induction false} NoStepsBefore(states: seq<State>, acts: seq<Action>, k: nat, r: Request)
    requires IsRun(states, acts) && k < |states| && r !in states[k].requests
    ensures forall j | 0 <= j < k :: !OwnStep(acts[j], r)
  {
    if k > 0 {
      RunStep(states, acts, k - 1);
      if r in states[k - 1].requests {
        FurtherStep(states[k - 1], acts[k - 1], r);
      }
      NoStepsBefore(states, acts, k - 1, r);
    }
  }

  /** Which steps of its own a request can take: it sends or fails to, then reads or gives up, then cleans up. */
  lemma RequestNext(states: seq<State>, acts: seq<Action>, k: nat, r: Request)
    requires IsRun(states, acts) && k < |states| && r in states[k].requests
    ensures var s, left := states[k], StepsLeft(states[k].requests[r].phase);
      && (Enabled(s, SendOk(r)) <==> left == 3) && (Enabled(s, SendFails(r)) <==> left == 3)
      && (Enabled(s, TimeOut(r)) <==> left == 2)
      && (Enabled(s, Receive(r)) <==> left == 2 && (AcceptedBy(s, r) != [] || !s.requests[r].ch.open))
      && (Enabled(s, CleanUp(r)) <==> left == 1 && !s.muHeld)
  {
    InvRun(states, acts, k);
    assert ChannelOk(states[k].requests[r]);
  }

  /**
   * Which steps an edge connection can take: it reads as long as its loop runs and nothing is under way;
   * what is under way goes out when the channel is closed, or open and all it accepted was read, and is
   * given up only while the channel is open.
   */
  lemma EdgeNext(states: seq<State>, acts: seq<Action>, k: nat, e: Edge)
    requires IsRun(states, acts) && k < |states|
    ensures var s := states[k];
      && (Enabled(s, StopReading(e)) <==> e in s.reading && e !in s.inFlight)
      && (forall msg :: Enabled(s, LookUp(e, msg)) <==> e in s.reading && e !in s.inFlight)
      && (Enabled(s, EdgeOnline(e)) <==> e !in s.edges && !s.muHeld)
      && (Enabled(s, EdgeOffline(e)) <==> e in s.online && !s.muHeld)
      && (forall r, client | r !in s.requests :: Enabled(s, Register(r, e, client)) <==> e in s.online && !s.muHeld)
      && (e !in s.inFlight ==> !Enabled(s, Offer(e)) && !Enabled(s, GiveUp(e)))
      && (e in s.inFlight ==>
            && s.inFlight[e].request in s.requests
            && var q := s.requests[s.inFlight[e].request];
               && (Enabled(s, Offer(e)) <==> !q.ch.open || |q.ch.accepted| == if WasRead(q) then 1 else 0)
               && (Enabled(s, GiveUp(e)) <==> q.ch.open))
  {
    InvRun(states, acts, k);
    if e in states[k].inFlight {
      assert FlightOk(states[k], e);
      assert ChannelOk(states[k].requests[states[k].inFlight[e].request]);
    }
  }

  predicate WasRead(q: RequestState) { OutcomeOf(q.phase).Some? && OutcomeOf(q.phase).value.Answered? }

  /** A whole exchange: whatever an edge answers, a run takes it to the request, status 200. */
  lemma AnswersInFull(e: Edge, msg: Message) returns (states: seq<State>, acts: seq<Action>)
    ensures IsRun(states, acts) && 0 in states[|acts|].requests
    ensures states[|acts|].requests[0].phase == Done(Answered(msg))
    ensures Status(states[|acts|].requests[0].phase) == Some(200)
  {
    states, acts := [INIT], [];
    states, acts := Extend(states, acts, EdgeOnline(e));
    states, acts := Extend(states, acts, Register(0, e, msg.to));
    states, acts := Extend(states, acts, SendOk(0));
    states, acts := AnswersFrom(states, acts, e, msg);
  }

  lemma AnswersFrom(states: seq<State>, acts: seq<Action>, e: Edge, msg: Message)
    returns (states': seq<State>, acts': seq<Action>)
    requires IsRun(states, acts) && InPhase(states[|acts|], 0, Waiting)
    requires var s := states[|acts|];
      && e in s.reading && e !in s.inFlight && !s.muHeld
      && s.requests[0] == RequestState(e, msg.to, Waiting, NEW_CHANNEL)
      && s.filed == map[Key(e, msg.to) := 0]
    ensures IsRun(states', acts') && 0 in states'[|acts'|].requests
    ensures states'[|acts'|].requests[0].phase == Done(Answered(msg))
  {
    states', acts' := Extend(states, acts, LookUp(e, msg));
    states', acts' := Extend(states', acts', Offer(e));
    states', acts' := Extend(states', acts', Receive(0));
    states', acts' := Extend(states', acts', CleanUp(0));
  }
}
