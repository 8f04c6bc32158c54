/** Whole handlers as steps on the service table, and what every run of them keeps. */
module ServiceRuns {
  import opened Wrappers
  import opened Services
  import opened ServiceSync

  const MAX_BATCH_SIZE := 1000

  datatype BatchMessage = MalformedBatch | MissingServices | Services(entries: seq<Entry>)

  datatype BatchReply = InvalidBatch | InvalidServices | BatchTooLarge | Synced(count: nat)

  function SyncBatch(store: Store, edge: string, msg: BatchMessage, clock: nat -> Stamp, faults: nat -> Faults)
    : (Store, BatchReply)
  {
    match msg
    case MalformedBatch => (store, InvalidBatch)
    case MissingServices => (store, InvalidServices)
    case Services(entries) =>
      if |entries| > MAX_BATCH_SIZE then (store, BatchTooLarge) else
      var p := SyncEntries(store, edge, entries, |entries|, clock, faults);
      (p.store, Synced(p.synced))
  }

  /**
   * The answer to a batch, whatever storage calls fail: up to 1000 entries are all handled and the
   * answer is the number that succeeded; anything else changes nothing.
   */
  lemma BatchReplyExactly(store: Store, edge: string, msg: BatchMessage, clock: nat -> Stamp, faults: nat -> Faults)
    requires Keyed(store)
    ensures var (after, reply) := SyncBatch(store, edge, msg, clock, faults);
      match msg
      case MalformedBatch => reply == InvalidBatch && after == store
      case MissingServices => reply == InvalidServices && after == store
      case Services(entries) =>
        if |entries| <= 1000
        then reply == Synced(Successes(store, edge, entries, faults, |entries|))
             && forall id :: Lookup(after, id) == Expected(store, edge, entries, |entries|, clock, faults, id)
        else reply == BatchTooLarge && after == store
  {
    if msg.Services? && |msg.entries| <= 1000 {
      SyncedCount(store, edge, msg.entries, |msg.entries|, clock, faults);
      forall id
        ensures Lookup(SyncEntries(store, edge, msg.entries, |msg.entries|, clock, faults).store, id)
             == Expected(store, edge, msg.entries, |msg.entries|, clock, faults, id)
      {
        LastWriterWins(store, edge, msg.entries, clock, faults, id);
      }
    }
  }

  /** When no storage call fails the number is that of the valid entries whose id no other edge owned. */
  lemma UnfailingReply(store: Store, edge: string, entries: seq<Entry>, clock: nat -> Stamp)
    requires Keyed(store) && |entries| <= 1000
    ensures SyncBatch(store, edge, Services(entries), clock, NEVER).1 == Synced(Accepted(store, edge, entries))
  {
    AcceptedCount(store, edge, entries, clock);
  }

  datatype Op =
    | Single(edge: string, msg: SyncMessage, stamp: Stamp, faults: Faults)
    | Batch(edge: string, batch: BatchMessage, clock: nat -> Stamp, batchFaults: nat -> Faults)
    | RestDelete(id: string, faults: Faults)

  function Apply(store: Store, op: Op): Store {
    match op
    case Single(edge, msg, stamp, faults) => SyncOne(store, edge, msg, stamp, faults).0
    case Batch(edge, msg, clock, faults) => SyncBatch(store, edge, msg, clock, faults).0
    case RestDelete(id, faults) => DeleteService(store, id, faults).store
  }

  /** A REST delete removes exactly the record it names, unless the storage call fails. */
  lemma RestDeleteExactly(store: Store, id: string, faults: Faults, other: string)
    ensures var after := Apply(store, RestDelete(id, faults));
      Lookup(after, other) == if other == id && !faults.remove then None else Lookup(store, other)
  {
  }

  // ---------- the clock during one handler ----------

  predicate Ordered(now: int, stamp: Stamp, next: int) {
    now <= stamp.updated <= stamp.created <= stamp.createdUpdated <= next
  }

  /** The clock never goes back between `now`, when the handler starts, and `next`, when it ends. */
  predicate Timed(op: Op, now: int, next: int) {
    now <= next &&
    match op
    case Single(_, _, stamp, _) => Ordered(now, stamp, next)
    case Batch(_, msg, clock, _) =>
      msg.Services? ==>
        && (forall i: nat | i < |msg.entries| :: Ordered(now, clock(i), next))
        && (forall i: nat, j: nat | i < j < |msg.entries| :: clock(i).createdUpdated <= clock(j).updated)
    case RestDelete(_, _) => true
  }

  // ---------- what every record satisfies ----------

  predicate RecordOk(id: string, s: EdgeService, now: int) {
    s.id == id && WellFormed(s) && s.createdAt <= s.updatedAt <= now
  }

  predicate RecordsOk(store: Store, now: int) { forall id | id in store :: RecordOk(id, store[id], now) }

  /** A step neither moves a record to another edge nor changes when it was created. */
  predicate KeepsIdentity(before: Store, after: Store) {
    forall id | id in before && id in after ::
      after[id].edgeId == before[id].edgeId && after[id].createdAt == before[id].createdAt
  }

  lemma CreateKeeps(store: Store, s: EdgeService, stamp: Stamp, faults: Faults, now: int, next: int)
    requires RecordsOk(store, now) && WellFormed(s) && Ordered(now, stamp, next)
    ensures var e := CreateService(store, s, stamp, faults);
      RecordsOk(e.store, next) && KeepsIdentity(store, e.store) && store.Keys <= e.store.Keys
  {
  }

  lemma UpdateKeeps(store: Store, s: EdgeService, stamp: Stamp, faults: Faults, now: int, next: int)
    requires RecordsOk(store, now) && WellFormed(s) && Ordered(now, stamp, next)
    ensures var e := UpdateService(store, s, stamp, faults);
      RecordsOk(e.store, next) && KeepsIdentity(store, e.store) && store.Keys <= e.store.Keys
  {
    if s.id in store && store[s.id].edgeId == s.edgeId {
      assert WellFormed(Overwrite(store[s.id], s, stamp.updated));
    }
  }

  lemma EntryKeeps(p: Progress, edge: string, e: Entry, stamp: Stamp, faults: Faults, now: int, next: int)
    requires RecordsOk(p.store, now) && Ordered(now, stamp, next)
    ensures var after := SyncEntry(p, edge, e, stamp, faults);
      RecordsOk(after.store, next) && KeepsIdentity(p.store, after.store) && p.store.Keys <= after.store.Keys
  {
    if ValidEntry(edge, e) {
      var s := e.service.(edgeId := edge);
      UpdateKeeps(p.store, s, stamp, faults, now, next);
      CreateKeeps(p.store, s, stamp, faults, now, next);
    }
  }

  lemma {:induction false} EntriesKeep(store: Store, edge: string, entries: seq<Entry>, n: nat,
                                       clock: nat -> Stamp, faults: nat -> Faults, now: int, next: int)
    requires n <= |entries| && Timed(Batch(edge, Services(entries), clock, faults), now, next)
    requires RecordsOk(store, now)
    ensures var p := SyncEntries(store, edge, entries, n, clock, faults);
      && RecordsOk(p.store, if n == 0 then now else clock(n - 1).createdUpdated)
      && KeepsIdentity(store, p.store) && store.Keys <= p.store.Keys
  {
    if n > 0 {
      EntriesKeep(store, edge, entries, n - 1, clock, faults, now, next);
      var p := SyncEntries(store, edge, entries, n - 1, clock, faults);
      assert Ordered(now, clock(n - 1), next);
      var since := if n == 1 then now else clock(n - 2).createdUpdated;
      EntryKeeps(p, edge, entries[n - 1], clock(n - 1), faults(n - 1), since, clock(n - 1).createdUpdated);
    }
  }

  lemma SingleKeeps(store: Store, edge: string, msg: SyncMessage, stamp: Stamp, faults: Faults, now: int, next: int)
    requires RecordsOk(store, now) && Ordered(now, stamp, next)
    ensures var after := SyncOne(store, edge, msg, stamp, faults).0;
      RecordsOk(after, next) && KeepsIdentity(store, after)
  {
    if msg.Sync? {
      var s := msg.service.(edgeId := edge);
      if WellFormed(s) {
        CreateKeeps(store, s, stamp, faults, now, next);
        UpdateKeeps(store, s, stamp, faults, now, next);
      }
    }
  }

  /** Every handler, whatever it is sent and whatever storage calls fail, keeps the table in order. */
  lemma StepKeeps(store: Store, op: Op, now: int, next: int)
    requires RecordsOk(store, now) && Timed(op, now, next)
    ensures RecordsOk(Apply(store, op), next) && KeepsIdentity(store, Apply(store, op))
  {
    match op
    case Single(edge, msg, stamp, faults) =>
      SingleKeeps(store, edge, msg, stamp, faults, now, next);
    case Batch(edge, msg, clock, faults) =>
      if msg.Services? && |msg.entries| > 0 {
        EntriesKeep(store, edge, msg.entries, |msg.entries|, clock, faults, now, next);
        assert clock(|msg.entries| - 1).createdUpdated <= next;
      }
    case RestDelete(_, _) =>
  }

  // ---------- runs ----------

  /** A run from any table in order: states[k] at times[k], then handler ops[k]. */
  predicate IsRun(states: seq<Store>, times: seq<int>, ops: seq<Op>) {
    && |states| == |times| == |ops| + 1
    && RecordsOk(states[0], times[0])
    && forall k | 0 <= k < |ops| :: Timed(ops[k], times[k], times[k + 1]) && states[k + 1] == Apply(states[k], ops[k])
  }

  /** At every point of every run each record is valid, under its own id, and created before updated. */
  lemma {:induction false} RecordsAlwaysOk(states: seq<Store>, times: seq<int>, ops: seq<Op>, k: nat)
    requires IsRun(states, times, ops) && k < |states|
    ensures RecordsOk(states[k], times[k])
  {
    if k > 0 {
      RecordsAlwaysOk(states, times, ops, k - 1);
      StepKeeps(states[k - 1], ops[k - 1], times[k - 1], times[k]);
    }
  }

  /** From its creation until it is deleted a record keeps its edge and its creation time. */
  lemma {:induction false} IdentityUntilDeleted(states: seq<Store>, times: seq<int>, ops: seq<Op>,
                                                i: nat, j: nat, id: string)
    requires IsRun(states, times, ops) && i <= j < |states|
    requires forall k | i <= k <= j :: id in states[k]
    ensures states[j][id].edgeId == states[i][id].edgeId && states[j][id].createdAt == states[i][id].createdAt
  {
    if i < j {
      IdentityUntilDeleted(states, times, ops, i, j - 1, id);
      RecordsAlwaysOk(states, times, ops, j - 1);
      StepKeeps(states[j - 1], ops[j - 1], times[j - 1], times[j]);
      assert id in states[j - 1] && id in states[j];
    }
  }

  /** Only a single delete or a REST delete that names it makes a record disappear. */
  lemma OnlyDeletesRemove(store: Store, op: Op, id: string, now: int, next: int)
    requires RecordsOk(store, now) && Timed(op, now, next)
    requires id in store && id !in Apply(store, op)
    ensures || (op.Single? && op.msg.Sync? && op.msg.operation == "deleted" && op.msg.service.id == id)
            || (op.RestDelete? && op.id == id)
  {
    match op
    case Single(edge, msg, stamp, faults) =>
      SingleSyncExactly(store, edge, msg, stamp, faults);
    case Batch(edge, msg, clock, faults) =>
      if msg.Services? && |msg.entries| <= MAX_BATCH_SIZE {
        EntriesKeep(store, edge, msg.entries, |msg.entries|, clock, faults, now, next);
      }
    case RestDelete(_, _) =>
  }

  /**
   * Reconnect after any run: whatever singles were lost or applied before, one batch within the size
   * limit is answered with the number of services sent, and the server then holds each of them.
   */
  lemma ReconnectAfterAnyRun(states: seq<Store>, times: seq<int>, ops: seq<Op>, edge: string,
                             local: seq<EdgeService>, clock: nat -> Stamp)
    requires IsRun(states, times, ops) && |local| <= 1000
    requires Sendable(states[|ops|], edge, local)
    ensures var (after, reply) := SyncBatch(states[|ops|], edge, Services(AsEntries(local)), clock, NEVER);
      && reply == Synced(|local|)
      && forall i | 0 <= i < |local| ::
           && local[i].id in after && after[local[i].id].edgeId == edge
           && SameService(after[local[i].id], local[i].(edgeId := edge))
  {
    RecordsAlwaysOk(states, times, ops, |ops|);
    var store, entries := states[|ops|], AsEntries(local);
    forall i | 0 <= i < |local|
      ensures var after := SyncAll(store, edge, entries, clock).store;
        && local[i].id in after && after[local[i].id].edgeId == edge
        && SameService(after[local[i].id], local[i].(edgeId := edge))
    {
      ReconnectConverges(store, edge, local, clock, i);
    }
    AcceptedCount(store, edge, entries, clock);
    AllAccepted(store, edge, entries);
  }

  lemma {:induction false} AllAccepted(store: Store, edge: string, entries: seq<Entry>)
    requires forall i | 0 <= i < |entries| :: Acceptable(store, edge, entries[i])
    ensures Accepted(store, edge, entries) == |entries|
  {
    if entries != [] {
      AllAccepted(store, edge, entries[..|entries| - 1]);
    }
  }
}
