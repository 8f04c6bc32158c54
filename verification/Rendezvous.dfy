/**
 * The rendezvous of a REST connect request with an edge's answer.  A request captures an edge
 * connection, files a one-slot channel under its client id in that connection's table, sends the edge
 * its question, and waits for an answer, a send error or a timeout; its deferred cleanup closes what
 * the table holds under its id and deletes the entry.  The edge's read loop looks the channel up and
 * then sends into it, two separate steps.
 *
 * Panics are recovered, so a run goes on after them.  A request that is handed the nil of a closed
 * channel goes to its cleanup.  A send into a closed channel ends the edge's read loop.  A cleanup
 * that finds nothing to close never unlocks s.mu, and every step that needs the lock waits for good.
 */
module Rendezvous {
  import opened Wrappers

  type Edge = nat       // an edge connection
  type Request = nat    // a request, which also names the channel it makes
  type ClientId = string

  datatype Message = Message(to: ClientId, data: string)

  datatype Outcome = Answered(msg: Message) | SendFailed | TimedOut | NilAnswer

  datatype Phase =
    | Registered
    | Waiting
    | Ended(outcome: Outcome)      // the deferred cleanup is still to come
    | Done(outcome: Outcome)
    | Panicked(outcome: Outcome)   // in the cleanup

  /** `accepted` remembers every message that ever went in, with the connection it came from. */
  datatype Channel = Channel(open: bool, buffer: seq<Message>, closes: nat, accepted: seq<Received>)

  datatype Received = Received(from: Edge, msg: Message)

  datatype RequestState = RequestState(edge: Edge, client: ClientId, phase: Phase, ch: Channel)

  datatype Delivery = Delivery(request: Request, msg: Message)

  /** A client id in the table of one edge connection. */
  datatype Key = Key(edge: Edge, client: ClientId)

  /** `killed` are the connections whose read loop a panicking send ended; `muHeld` is a lost lock. */
  datatype State = State(
    edges: set<Edge>, online: set<Edge>, reading: set<Edge>, filed: map<Key, Request>,
    requests: map<Request, RequestState>, inFlight: map<Edge, Delivery>, killed: set<Edge>, muHeld: bool)

  datatype Action =
    | EdgeOnline(e: Edge)
    | EdgeOffline(e: Edge)            // its entry in the connections is deleted or replaced
    | StopReading(e: Edge)            // a read error
    | Register(r: Request, e: Edge, client: ClientId)
    | SendOk(r: Request)
    | SendFails(r: Request)
    | LookUp(e: Edge, msg: Message)   // an api-connect-response is read on connection e
    | Offer(e: Edge)                  // the send into the channel found
    | GiveUp(e: Edge)                 // the send times out
    | Receive(r: Request)
    | TimeOut(r: Request)
    | CleanUp(r: Request)

  const INIT := State({}, {}, {}, map[], map[], map[], {}, false)

  // ---------- steps ----------

  const NEW_CHANNEL := Channel(true, [], 0, [])

  function Push(ch: Channel, from: Edge, msg: Message): Channel {
    ch.(buffer := ch.buffer + [msg], accepted := ch.accepted + [Received(from, msg)])
  }

  function Shut(ch: Channel): Channel { ch.(open := false, closes := ch.closes + 1) }

  predicate InPhase(s: State, r: Request, phase: Phase) { r in s.requests && s.requests[r].phase == phase }

  /** The steps that lock s.mu. */
  predicate NeedsLock(act: Action) { act.EdgeOnline? || act.EdgeOffline? || act.Register? || act.CleanUp? }

  predicate Enabled(s: State, act: Action) {
    (NeedsLock(act) ==> !s.muHeld) &&
    match act
    case EdgeOnline(e) => e !in s.edges
    case EdgeOffline(e) => e in s.online
    case StopReading(e) => e in s.reading && e !in s.inFlight
    case Register(r, e, _) => r !in s.requests && e in s.online
    case SendOk(r) => InPhase(s, r, Registered)
    case SendFails(r) => InPhase(s, r, Registered)
    case LookUp(e, _) => e in s.reading && e !in s.inFlight
    case Offer(e) =>
      e in s.inFlight && s.inFlight[e].request in s.requests
      && var ch := s.requests[s.inFlight[e].request].ch; !ch.open || ch.buffer == []
    case GiveUp(e) =>
      e in s.inFlight && s.inFlight[e].request in s.requests && s.requests[s.inFlight[e].request].ch.open
    case Receive(r) => InPhase(s, r, Waiting) && (s.requests[r].ch.buffer != [] || !s.requests[r].ch.open)
    case TimeOut(r) => InPhase(s, r, Waiting)
    case CleanUp(r) => r in s.requests && s.requests[r].phase.Ended?
  }

  function Enter(s: State, r: Request, phase: Phase): State
    requires r in s.requests
  {
    s.(requests := s.requests[r := s.requests[r].(phase := phase)])
  }

  function SetChannel(s: State, r: Request, ch: Channel): State
    requires r in s.requests
  {
    s.(requests := s.requests[r := s.requests[r].(ch := ch)])
  }

  function KeyOf(s: State, r: Request): Key
    requires r in s.requests
  {
    Key(s.requests[r].edge, s.requests[r].client)
  }

  /** close() of what the table holds under the key does not panic. */
  predicate Closable(s: State, key: Key) {
    key in s.filed && s.filed[key] in s.requests && s.requests[s.filed[key]].ch.open
  }

  function Apply(s: State, act: Action): State
    requires Enabled(s, act)
  {
    match act
    case EdgeOnline(e) => s.(edges := s.edges + {e}, online := s.online + {e}, reading := s.reading + {e})
    case EdgeOffline(e) => s.(online := s.online - {e})
    case StopReading(e) => s.(reading := s.reading - {e})
    case Register(r, e, client) =>
      s.(requests := s.requests[r := RequestState(e, client, Registered, NEW_CHANNEL)],
         filed := s.filed[Key(e, client) := r])
    case SendOk(r) => Enter(s, r, Waiting)
    case SendFails(r) => Enter(s, r, Ended(SendFailed))
    case LookUp(e, msg) =>
      if Key(e, msg.to) in s.filed
      then s.(inFlight := s.inFlight[e := Delivery(s.filed[Key(e, msg.to)], msg)])
      else s
    case Offer(e) =>
      var d := s.inFlight[e];
      var ch := s.requests[d.request].ch;
      if ch.open then SetChannel(s, d.request, Push(ch, e, d.msg)).(inFlight := s.inFlight - {e})
      else s.(inFlight := s.inFlight - {e}, reading := s.reading - {e}, killed := s.killed + {e})
    case GiveUp(e) => s.(inFlight := s.inFlight - {e})
    case Receive(r) =>
      var ch := s.requests[r].ch;
      if ch.buffer == [] then Enter(s, r, Ended(NilAnswer))
      else Enter(SetChannel(s, r, ch.(buffer := ch.buffer[1..])), r, Ended(Answered(ch.buffer[0])))
    case TimeOut(r) => Enter(s, r, Ended(TimedOut))
    case CleanUp(r) =>
      var key, outcome := KeyOf(s, r), s.requests[r].phase.outcome;
      if !Closable(s, key) then Enter(s, r, Panicked(outcome)).(muHeld := true) else
      var f := s.filed[key];
      Enter(SetChannel(s, f, Shut(s.requests[f].ch)), r, Done(outcome)).(filed := s.filed - {key})
  }

  /** states[k + 1] follows states[k] by acts[k]. */
  predicate Follows(states: seq<State>, acts: seq<Action>, k: nat)
    requires k < |acts| && |states| == |acts| + 1
  {
    Enabled(states[k], acts[k]) && states[k + 1] == Apply(states[k], acts[k])
  }

  predicate IsRun(states: seq<State>, acts: seq<Action>) {
    && |states| == |acts| + 1 && states[0] == INIT
    && forall k | 0 <= k < |acts| :: Follows(states, acts, k)
  }

  lemma RunStep(states: seq<State>, acts: seq<Action>, k: nat)
    requires IsRun(states, acts) && k < |acts|
    ensures Enabled(states[k], acts[k]) && states[k + 1] == Apply(states[k], acts[k])
  {
    assert Follows(states, acts, k);
  }

  // ---------- whose message it is: every run ----------

  predicate Ours(s: State, r: Request, e: Edge, msg: Message) {
    r in s.requests && s.requests[r].edge == e && s.requests[r].client == msg.to
  }

  function OutcomeOf(phase: Phase): Option<Outcome> {
    if phase.Registered? || phase.Waiting? then None else Some(phase.outcome)
  }

  /** The request's handler has not returned. */
  predicate Outstanding(s: State, r: Request) {
    r in s.requests && !s.requests[r].phase.Done? && !s.requests[r].phase.Panicked?
  }

  /**
   * What was accepted came from the captured edge for this client; what was taken out came first; no
   * channel is closed twice.
   */
  predicate ChannelOk(q: RequestState) {
    && (forall i | 0 <= i < |q.ch.accepted| :: q.ch.accepted[i].from == q.edge && q.ch.accepted[i].msg.to == q.client)
    && |q.ch.buffer| <= 1
    && q.ch.closes == (if q.ch.open then 0 else 1)
    && var outcome := OutcomeOf(q.phase);
       if outcome.Some? && outcome.value.Answered?
       then |q.ch.accepted| == |q.ch.buffer| + 1 && q.ch.accepted[0].msg == outcome.value.msg
       else |q.ch.accepted| == |q.ch.buffer| && (q.ch.buffer != [] ==> q.ch.accepted[0].msg == q.ch.buffer[0])
  }

  /** A table entry leads to the open channel of an unfinished request of its edge and client. */
  predicate FiledOk(s: State, key: Key) {
    key in s.filed ==> Outstanding(s, s.filed[key]) && KeyOf(s, s.filed[key]) == key && Closable(s, key)
  }

  /** A delivery under way leads to a channel of its edge and client. */
  predicate FlightOk(s: State, e: Edge) {
    e in s.inFlight ==> Ours(s, s.inFlight[e].request, e, s.inFlight[e].msg)
  }

  ghost predicate FilesOk(s: State) { (forall key :: FiledOk(s, key)) && (forall e :: FlightOk(s, e)) }

  ghost predicate Inv(s: State) {
    FilesOk(s) && forall r | r in s.requests :: ChannelOk(s.requests[r])
  }

  lemma FiledStep(s: State, act: Action, key: Key)
    requires FilesOk(s) && Enabled(s, act)
    ensures FiledOk(Apply(s, act), key)
  {
    assert FiledOk(s, key);
    if act.CleanUp? {
      assert FiledOk(s, KeyOf(s, act.r));
    }
  }

  lemma FlightStep(s: State, act: Action, e: Edge)
    requires FilesOk(s) && Enabled(s, act)
    ensures FlightOk(Apply(s, act), e)
  {
    assert FlightOk(s, e);
    if act.LookUp? {
      assert FiledOk(s, Key(e, act.msg.to));
    }
  }

  lemma FilesStep(s: State, act: Action)
    requires FilesOk(s) && Enabled(s, act)
    ensures FilesOk(Apply(s, act))
  {
    forall key
      ensures FiledOk(Apply(s, act), key)
    {
      FiledStep(s, act, key);
    }
    forall e
      ensures FlightOk(Apply(s, act), e)
    {
      FlightStep(s, act, e);
    }
  }

  lemma PushOk(q: RequestState, from: Edge, msg: Message)
    requires ChannelOk(q) && q.ch.buffer == [] && from == q.edge && msg.to == q.client
    ensures ChannelOk(q.(ch := Push(q.ch, from, msg)))
  {
  }

  lemma TakeOk(q: RequestState)
    requires ChannelOk(q) && q.phase == Waiting && q.ch.buffer != []
    ensures ChannelOk(q.(ch := q.ch.(buffer := q.ch.buffer[1..]), phase := Ended(Answered(q.ch.buffer[0]))))
  {
  }

  lemma PhaseOk(q: RequestState, phase: Phase)
    requires ChannelOk(q)
    requires OutcomeOf(q.phase) == OutcomeOf(phase)
          || (OutcomeOf(q.phase) == None && OutcomeOf(phase) in {Some(SendFailed), Some(TimedOut), Some(NilAnswer)})
    ensures ChannelOk(q.(phase := phase))
    ensures q.ch.open ==> ChannelOk(q.(phase := phase, ch := Shut(q.ch))) && ChannelOk(q.(ch := Shut(q.ch)))
  {
  }

  lemma PhaseStep(s: State, act: Action, r: Request)
    requires Inv(s) && Enabled(s, act) && r in s.requests && (act.SendOk? || act.SendFails? || act.TimeOut?)
    ensures r in Apply(s, act).requests && ChannelOk(Apply(s, act).requests[r])
  {
    if act.r == r {
      PhaseOk(s.requests[r], if act.SendOk? then Waiting else Ended(if act.TimeOut? then TimedOut else SendFailed));
    }
  }

  lemma ReceiveStep(s: State, act: Action, r: Request)
    requires Inv(s) && Enabled(s, act) && r in s.requests && act.Receive?
    ensures r in Apply(s, act).requests && ChannelOk(Apply(s, act).requests[r])
  {
    if act.r == r {
      if s.requests[r].ch.buffer != [] {
        TakeOk(s.requests[r]);
      } else {
        PhaseOk(s.requests[r], Ended(NilAnswer));
      }
    }
  }

  lemma OfferStep(s: State, act: Action, r: Request)
    requires Inv(s) && Enabled(s, act) && r in s.requests && act.Offer?
    ensures r in Apply(s, act).requests && ChannelOk(Apply(s, act).requests[r])
  {
    assert FlightOk(s, act.e);
    if s.inFlight[act.e].request == r && s.requests[r].ch.open {
      PushOk(s.requests[r], act.e, s.inFlight[act.e].msg);
    }
  }

  lemma CleanUpStep(s: State, act: Action, r: Request)
    requires Inv(s) && Enabled(s, act) && r in s.requests && act.CleanUp?
    ensures r in Apply(s, act).requests && ChannelOk(Apply(s, act).requests[r])
  {
    PhaseOk(s.requests[r], s.requests[r].phase);
    if act.r == r {
      PhaseOk(s.requests[r], Done(s.requests[r].phase.outcome));
      PhaseOk(s.requests[r], Panicked(s.requests[r].phase.outcome));
    }
  }

  lemma ChannelStep(s: State, act: Action, r: Request)
    requires Inv(s) && Enabled(s, act) && r in s.requests
    ensures r in Apply(s, act).requests && ChannelOk(Apply(s, act).requests[r])
  {
    if act.SendOk? || act.SendFails? || act.TimeOut? {
      PhaseStep(s, act, r);
    } else if act.Receive? {
      ReceiveStep(s, act, r);
    } else if act.Offer? {
      OfferStep(s, act, r);
    } else if act.CleanUp? {
      CleanUpStep(s, act, r);
    } else {
      assert r in Apply(s, act).requests && Apply(s, act).requests[r] == s.requests[r];
    }
  }

  lemma InvStep(s: State, act: Action)
    requires Inv(s) && Enabled(s, act)
    ensures Inv(Apply(s, act))
  {
    FilesStep(s, act);
    forall r | r in s.requests
      ensures ChannelOk(Apply(s, act).requests[r])
    {
      ChannelStep(s, act, r);
    }
  }

  lemma {:induction false} InvRun(states: seq<State>, acts: seq<Action>, k: nat)
    requires IsRun(states, acts) && k < |states|
    ensures Inv(states[k])
  {
    if k > 0 {
      InvRun(states, acts, k - 1);
      RunStep(states, acts, k - 1);
      InvStep(states[k - 1], acts[k - 1]);
    }
  }
}
