/**
 * Rotation while clients authenticate, one memory access at a time: UpdateSecrets writes its fields
 * under the write lock, restAuth reads two of them under the read lock and decides on its copies.
 */
module SecretRotation {
  import opened Wrappers
  import opened TurnAuth

  datatype Pair = Pair(secret: string, oldSecrets: seq<string>)

  datatype Writer = Writer(update: Pair, wroteSecret: bool, wroteOld: bool)

  /** What is authenticated, with the two clock readings that the checks before the lock are made with. */
  datatype Attempt = Attempt(username: string, realm: string, first: Instant, second: Instant)

  datatype Step =
    | Locked
    | HasSecret(secret: string)
    | HasBoth(copy: Pair)
    | Released(copy: Pair)
    | Answered(copy: Pair, key: Option<Bytes>)

  /** An authentication past its format and time checks; `at` numbers the update it locked behind. */
  datatype Reader = Reader(attempt: Attempt, at: int, step: Step)

  /** The checks before the lock and the decision after it; the steps below do not look inside. */
  datatype Rest = Rest(pastChecks: Attempt -> bool, decide: (Pair, Attempt) -> Option<Bytes>)

  /** Those of restAuth. */
  function RestAuth(crypto: Crypto): Rest {
    Rest((t: Attempt) => PastChecks(t.username, t.first, t.second),
         (pair: Pair, t: Attempt) =>
           RestDecision(crypto, pair.secret, pair.oldSecrets, t.username, t.realm, t.first, t.second))
  }

  /** `written` lists the pair of the constructor and of every completed update, in order. */
  datatype State = State(
    rest: Rest, memory: Pair, writer: Option<Writer>, readers: map<nat, Reader>, written: seq<Pair>)

  datatype Action =
    | LockWrite(update: Pair) | WriteSecret | WriteOld | UnlockWrite
    | LockRead(a: nat, attempt: Attempt) | ReadSecret(a: nat) | ReadOld(a: nat) | UnlockRead(a: nat)
    | Answer(a: nat)              // the loop over the copied secrets

  function Init(rest: Rest, constructed: Pair): State { State(rest, constructed, None, map[], [constructed]) }

  /** Holds the read lock. */
  predicate Reading(r: Reader) { !r.step.Released? && !r.step.Answered? }

  predicate Enabled(s: State, act: Action) {
    match act
    case LockWrite(_) => s.writer.None? && forall a | a in s.readers :: !Reading(s.readers[a])
    case WriteSecret => s.writer.Some? && !s.writer.value.wroteSecret
    case WriteOld => s.writer.Some? && s.writer.value.wroteSecret && !s.writer.value.wroteOld
    case UnlockWrite => s.writer.Some? && s.writer.value.wroteOld
    case LockRead(a, t) => s.writer.None? && a !in s.readers && s.rest.pastChecks(t)
    case ReadSecret(a) => a in s.readers && s.readers[a].step.Locked?
    case ReadOld(a) => a in s.readers && s.readers[a].step.HasSecret?
    case UnlockRead(a) => a in s.readers && s.readers[a].step.HasBoth?
    case Answer(a) => a in s.readers && s.readers[a].step.Released?
  }

  function Go(s: State, a: nat, step: Step): State
    requires a in s.readers
  {
    s.(readers := s.readers[a := s.readers[a].(step := step)])
  }

  function Apply(s: State, act: Action): State
    requires Enabled(s, act)
  {
    match act
    case LockWrite(update) => s.(writer := Some(Writer(update, false, false)))
    case WriteSecret =>
      var w := s.writer.value;
      s.(memory := s.memory.(secret := w.update.secret), writer := Some(w.(wroteSecret := true)))
    case WriteOld =>
      var w := s.writer.value;
      s.(memory := s.memory.(oldSecrets := w.update.oldSecrets), writer := Some(w.(wroteOld := true)))
    case UnlockWrite => s.(writer := None, written := s.written + [s.writer.value.update])
    case LockRead(a, attempt) => s.(readers := s.readers[a := Reader(attempt, |s.written| - 1, Locked)])
    case ReadSecret(a) => Go(s, a, HasSecret(s.memory.secret))
    case ReadOld(a) => Go(s, a, HasBoth(Pair(s.readers[a].step.secret, s.memory.oldSecrets)))
    case UnlockRead(a) => Go(s, a, Released(s.readers[a].step.copy))
    case Answer(a) =>
      var copy := s.readers[a].step.copy;
      Go(s, a, Answered(copy, s.rest.decide(copy, s.readers[a].attempt)))
  }

  /** states[k + 1] follows states[k] by acts[k]. */
  ghost predicate Follows(states: seq<State>, acts: seq<Action>, k: nat)
    requires k < |acts| && |states| == |acts| + 1
  {
    Enabled(states[k], acts[k]) && states[k + 1] == Apply(states[k], acts[k])
  }

  ghost predicate IsRun(states: seq<State>, acts: seq<Action>) {
    && |states| == |acts| + 1
    && states[0].written != [] && states[0] == Init(states[0].rest, states[0].written[0])
    && forall k | 0 <= k < |acts| :: Follows(states, acts, k)
  }

  lemma RunStep(states: seq<State>, acts: seq<Action>, k: nat)
    requires IsRun(states, acts) && k < |acts|
    ensures Enabled(states[k], acts[k]) && states[k + 1] == Apply(states[k], acts[k])
  {
    assert Follows(states, acts, k);
  }

  // ---------- no torn reads ----------

  ghost predicate ReaderOk(s: State, r: Reader) {
    && 0 <= r.at < |s.written|
    && (Reading(r) ==> r.at == |s.written| - 1)
    && match r.step
       case Locked => true
       case HasSecret(secret) => secret == s.written[r.at].secret
       case HasBoth(copy) => copy == s.written[r.at]
       case Released(copy) => copy == s.written[r.at]
       case Answered(copy, key) => copy == s.written[r.at] && key == s.rest.decide(copy, r.attempt)
  }

  /** Between updates the memory holds the last pair; during one nobody reads. */
  predicate WriterOk(s: State) {
    && |s.written| > 0
    && match s.writer
       case None => s.memory == s.written[|s.written| - 1]
       case Some(w) =>
         && (forall a | a in s.readers :: !Reading(s.readers[a]))
         && (w.wroteSecret ==> s.memory.secret == w.update.secret)
         && (w.wroteOld ==> w.wroteSecret && s.memory.oldSecrets == w.update.oldSecrets)
  }

  ghost predicate Inv(s: State) { WriterOk(s) && forall a | a in s.readers :: ReaderOk(s, s.readers[a]) }

  lemma WriterStep(s: State, act: Action)
    requires Inv(s) && Enabled(s, act)
    ensures WriterOk(Apply(s, act))
  {
  }

  lemma ReaderStep(s: State, act: Action, a: nat)
    requires Inv(s) && Enabled(s, act) && a in Apply(s, act).readers
    ensures ReaderOk(Apply(s, act), Apply(s, act).readers[a])
  {
    if a in s.readers {
      assert ReaderOk(s, s.readers[a]);
    }
  }

  lemma InvStep(s: State, act: Action)
    requires Inv(s) && Enabled(s, act)
    ensures Inv(Apply(s, act))
  {
    WriterStep(s, act);
    forall a | a in Apply(s, act).readers
      ensures ReaderOk(Apply(s, act), Apply(s, act).readers[a])
    {
      ReaderStep(s, act, a);
    }
  }

  lemma {:induction false} InvRun(states: seq<State>, acts: seq<Action>, k: nat)
    requires IsRun(states, acts) && k < |states|
    ensures Inv(states[k])
  {
    if k > 0 {
      InvRun(states, acts, k - 1);
      RunStep(states, acts, k - 1);
      InvStep(states[k - 1], acts[k - 1]);
    }
  }

  predicate InPlace(s: State, a: nat, attempt: Attempt, at: int) {
    a in s.readers && s.readers[a].attempt == attempt && s.readers[a].at == at
  }

  lemma LockStep(s: State, a: nat, attempt: Attempt)
    requires Enabled(s, LockRead(a, attempt))
    ensures InPlace(Apply(s, LockRead(a, attempt)), a, attempt, |s.written| - 1)
  {
  }

  lemma PlaceStep(s: State, act: Action, a: nat, attempt: Attempt, at: int)
    requires Enabled(s, act) && InPlace(s, a, attempt, at)
    ensures InPlace(Apply(s, act), a, attempt, at)
  {
  }

  /** Updates are only ever added to those written. */
  ghost predicate Later(s: State, t: State) { s.written <= t.written && t.rest == s.rest }

  lemma LaterStep(s: State, act: Action)
    requires Enabled(s, act)
    ensures Later(s, Apply(s, act))
  {
  }

  lemma LaterTransitive(s: State, t: State, u: State)
    requires Later(s, t) && Later(t, u)
    ensures Later(s, u)
  {
  }

  lemma {:induction false} LaterRun(states: seq<State>, acts: seq<Action>, j: nat, k: nat)
    requires IsRun(states, acts) && j <= k < |states|
    ensures Later(states[j], states[k])
  {
    if j < k {
      LaterRun(states, acts, j, k - 1);
      RunStep(states, acts, k - 1);
      LaterStep(states[k - 1], acts[k - 1]);
      LaterTransitive(states[j], states[k - 1], states[k]);
    }
  }

  lemma {:induction false} ReadersKeepTheirPlace(states: seq<State>, acts: seq<Action>, lock: nat, k: nat,
                                                 a: nat, attempt: Attempt, at: int)
    requires IsRun(states, acts) && lock < k < |states| && acts[lock] == LockRead(a, attempt)
    requires at == |states[lock].written| - 1
    ensures InPlace(states[k], a, attempt, at)
  {
    if k > lock + 1 {
      ReadersKeepTheirPlace(states, acts, lock, k - 1, a, attempt, at);
      RunStep(states, acts, k - 1);
      PlaceStep(states[k - 1], acts[k - 1], a, attempt, at);
    } else {
      RunStep(states, acts, lock);
      LockStep(states[lock], a, attempt);
    }
  }

  /** The authentication that took the read lock in step lock has its answer at point k. */
  predicate AnsweredBy(states: seq<State>, acts: seq<Action>, lock: nat, k: nat) {
    && lock < k < |states| && lock < |acts| && acts[lock].LockRead?
    && acts[lock].a in states[k].readers && states[k].readers[acts[lock].a].step.Answered?
  }

  /**
   * In every run an authentication past its checks answers as with one pair of secrets, written by one
   * single update or by the constructor: the last one completed when it took the read lock.
   */
  lemma AnswersFromOneUpdate(states: seq<State>, acts: seq<Action>, lock: nat, k: nat)
    requires IsRun(states, acts) && AnsweredBy(states, acts, lock, k)
    ensures states[lock].written != [] && states[0].rest.pastChecks(acts[lock].attempt)
    ensures states[k].readers[acts[lock].a].step.key
         == states[0].rest.decide(states[lock].written[|states[lock].written| - 1], acts[lock].attempt)
  {
    LaterRun(states, acts, 0, lock);
    RunStep(states, acts, lock);
    ReadersKeepTheirPlace(states, acts, lock, k, acts[lock].a, acts[lock].attempt, |states[lock].written| - 1);
    LaterRun(states, acts, lock, k);
    InvRun(states, acts, lock);
    InvRun(states, acts, k);
    assert ReaderOk(states[k], states[k].readers[acts[lock].a]);
  }

  /**
   * So it answers with the key under the first non-empty secret of that pair, current before old, and
   * fails exactly when all of them are empty.
   */
  lemma AnswersWithLastUpdate(states: seq<State>, acts: seq<Action>, lock: nat, k: nat, crypto: Crypto)
    requires IsRun(states, acts) && AnsweredBy(states, acts, lock, k) && states[0].rest == RestAuth(crypto)
    ensures states[lock].written != []
    ensures var pair, t := states[lock].written[|states[lock].written| - 1], acts[lock].attempt;
      var secrets, key := [pair.secret] + pair.oldSecrets, states[k].readers[acts[lock].a].step.key;
      && (key.None? <==> forall s | s in secrets :: s == "")
      && forall i | 0 <= i < |secrets| && secrets[i] != "" && forall j | 0 <= j < i :: secrets[j] == "" ::
           key == Some(crypto.authKey(t.username, t.realm, Password(crypto, secrets[i], t.username)))
  {
    AnswersFromOneUpdate(states, acts, lock, k);
    var pair, t := states[lock].written[|states[lock].written| - 1], acts[lock].attempt;
    DecisionPastChecks(crypto, pair.secret, pair.oldSecrets, t.username, t.realm, t.first, t.second);
  }

  // ---------- updates take effect ----------

  /** Who gets the lock: an update when nobody holds it, an authentication past its checks when no update does. */
  lemma LocksExactly(s: State, update: Pair)
    ensures Enabled(s, LockWrite(update)) <==>
      s.writer == None && forall a | a in s.readers :: s.readers[a].step.Released? || s.readers[a].step.Answered?
    ensures forall a, t :: Enabled(s, LockRead(a, t)) <==> s.writer == None && a !in s.readers && s.rest.pastChecks(t)
  {
  }

  lemma {:induction false} WriterKept(states: seq<State>, acts: seq<Action>, j: nat, k: nat, update: Pair)
    requires IsRun(states, acts) && j < k < |states| && acts[j] == LockWrite(update)
    requires forall i | j < i < k :: acts[i] != UnlockWrite
    ensures states[k].writer.Some? && states[k].writer.value.update == update
    ensures states[k].written == states[j].written
  {
    RunStep(states, acts, k - 1);
    if j < k - 1 {
      WriterKept(states, acts, j, k - 1, update);
    }
  }

  /** An update that releases the lock is from then on the last one completed. */
  lemma UpdateCompletes(states: seq<State>, acts: seq<Action>, j: nat, k: nat, update: Pair)
    requires IsRun(states, acts) && j < k < |acts| && acts[j] == LockWrite(update) && acts[k] == UnlockWrite
    requires forall i | j < i < k :: acts[i] != UnlockWrite
    ensures states[k + 1].written == states[j].written + [update]
    ensures states[k + 1].writer == None && states[k + 1].memory == update
  {
    WriterKept(states, acts, j, k, update);
    RunStep(states, acts, k);
    InvRun(states, acts, k + 1);
  }

  lemma Extend(states: seq<State>, acts: seq<Action>, act: Action) returns (states': seq<State>, acts': seq<Action>)
    requires IsRun(states, acts) && Enabled(states[|acts|], act)
    ensures IsRun(states', acts') && states'[|acts'|] == Apply(states[|acts|], act)
  {
    states', acts' := states + [Apply(states[|acts|], act)], acts + [act];
    forall k | 0 <= k < |acts'|
      ensures Follows(states', acts', k)
    {
      if k < |acts| {
        RunStep(states, acts, k);
      }
    }
  }

  /** Whenever nobody holds the lock any update can be made. */
  lemma UpdatesGoThrough(states: seq<State>, acts: seq<Action>, update: Pair)
    returns (states': seq<State>, acts': seq<Action>)
    requires IsRun(states, acts) && Enabled(states[|acts|], LockWrite(update))
    ensures IsRun(states', acts')
    ensures var s := states[|acts|];
      states'[|acts'|] == s.(memory := update, written := s.written + [update])
  {
    states', acts' := Extend(states, acts, LockWrite(update));
    states', acts' := Extend(states', acts', WriteSecret);
    states', acts' := Extend(states', acts', WriteOld);
    states', acts' := Extend(states', acts', UnlockWrite);
  }

  /** An authentication past its checks that starts then is answered with that update. */
  lemma AnswersGoThrough(states: seq<State>, acts: seq<Action>, a: nat, attempt: Attempt)
    returns (states': seq<State>, acts': seq<Action>)
    requires IsRun(states, acts) && Enabled(states[|acts|], LockRead(a, attempt))
    ensures IsRun(states', acts')
    ensures var s, t := states[|acts|], states'[|acts'|];
      && t.memory == s.memory && t.writer == None && t.written == s.written && a in t.readers
      && t.readers[a].step == Answered(s.memory, s.rest.decide(s.memory, attempt))
  {
    states', acts' := Extend(states, acts, LockRead(a, attempt));
    states', acts' := Extend(states', acts', ReadSecret(a));
    states', acts' := Extend(states', acts', ReadOld(a));
    states', acts' := Extend(states', acts', UnlockRead(a));
    states', acts' := Extend(states', acts', Answer(a));
  }
}
