/**
 * What single and batch syncs do to the service table, and what that means: last writer wins, whatever
 * storage calls fail; idempotence, order independence and convergence on reconnect when none does.
 */
module ServiceSync {
  import opened Wrappers
  import opened Services

  // ---------- single syncs ----------

  /** A message as far as the handler gets with it; `operation` is the text it carries. */
  datatype SyncMessage =
    | MalformedMessage | MalformedService | UnparseableService
    | Sync(operation: string, service: EdgeService)

  datatype Ack = Ack(localId: string, serverId: string, error: Option<SyncError>)

  function SyncOne(store: Store, edge: string, msg: SyncMessage, stamp: Stamp, faults: Faults): (Store, Ack) {
    match msg
    case MalformedMessage => (store, Ack("", "", Some(BadMessage)))
    case MalformedService => (store, Ack("", "", Some(BadService)))
    case UnparseableService => (store, Ack("", "", Some(Unparseable)))
    case Sync(operation, received) =>
      var s := received.(edgeId := edge);
      var invalid := Validate(s);
      if invalid.Some? then (store, Ack(s.id, s.id, Some(Rejected(invalid.value)))) else
      if operation != "created" && operation != "updated" && operation != "deleted"
      then (store, Ack(s.id, "", Some(BadOperation))) else
      var e :=
        if operation == "created" then CreateService(store, s, stamp, faults)
        else if operation == "updated" then UpdateService(store, s, stamp, faults)
        else DeleteService(store, s.id, faults);
      (e.store, Ack(s.id, if e.error.None? then s.id else "", e.error))
  }

  /** When a message succeeds and what is then stored, written without the handlers. */
  predicate Applicable(store: Store, edge: string, msg: SyncMessage, faults: Faults) {
    && msg.Sync?
    && WellFormed(msg.service.(edgeId := edge))
    && (|| (msg.operation == "created" && !faults.insert && msg.service.id !in store)
        || (msg.operation == "updated" && !faults.get && !faults.save
            && msg.service.id in store && store[msg.service.id].edgeId == edge)
        || (msg.operation == "deleted" && !faults.remove && msg.service.id in store))
  }

  function Intended(store: Store, edge: string, msg: SyncMessage, stamp: Stamp): Option<EdgeService>
    requires msg.Sync?
  {
    var s := msg.service.(edgeId := edge);
    if msg.operation == "deleted" then None
    else if msg.service.id in store
    then Some(s.(createdAt := store[s.id].createdAt, updatedAt := stamp.updated))
    else Some(s.(createdAt := stamp.created, updatedAt := stamp.createdUpdated))
  }

  /**
   * The acknowledgement tells the truth, whatever storage calls fail: success exactly when the
   * operation applied, with the intended record and no other change; error exactly otherwise, with
   * the table as it was.
   */
  lemma SingleSyncExactly(store: Store, edge: string, msg: SyncMessage, stamp: Stamp, faults: Faults)
    requires Keyed(store)
    ensures var (after, ack) := SyncOne(store, edge, msg, stamp, faults);
      && (ack.error.None? <==> Applicable(store, edge, msg, faults))
      && (ack.error.Some? ==> after == store)
      && (ack.error.None? ==> Lookup(after, msg.service.id) == Intended(store, edge, msg, stamp))
      && (forall id | !msg.Sync? || id != msg.service.id :: Lookup(after, id) == Lookup(store, id))
  {
  }

  /** Why a message that carries a service is not applied. */
  predicate Because(store: Store, edge: string, s: EdgeService, operation: string, faults: Faults, error: SyncError) {
    match error
    case Rejected(why) => Validate(s) == Some(why)
    case BadOperation => operation !in {"created", "updated", "deleted"}
    case Conflict => operation == "created" && s.id in store && !faults.insert
    case NotFound =>
      s.id !in store && ((operation == "updated" && !faults.get) || (operation == "deleted" && !faults.remove))
    case OtherEdge => operation == "updated" && !faults.get && s.id in store && store[s.id].edgeId != edge
    case StorageFailure =>
      || (operation == "created" && faults.insert)
      || (operation == "deleted" && faults.remove)
      || (operation == "updated" && (faults.get || (faults.save && s.id in store && store[s.id].edgeId == edge)))
    case _ => false
  }

  /**
   * What else the acknowledgement says: the id of the service it answers, the same as server id when the
   * service was stored or deleted or did not validate, and the reason of a failure.
   */
  lemma AckTells(store: Store, edge: string, msg: SyncMessage, stamp: Stamp, faults: Faults)
    ensures var ack := SyncOne(store, edge, msg, stamp, faults).1;
      match msg
      case Sync(operation, s) =>
        && ack.localId == s.id
        && ack.serverId == (if ack.error.None? || ack.error.value.Rejected? then s.id else "")
        && (ack.error.Some? ==> Because(store, edge, s.(edgeId := edge), operation, faults, ack.error.value))
        && (ack.error.Some? && ack.error.value.Rejected? <==> !WellFormed(s.(edgeId := edge)))
      case MalformedMessage => ack == Ack("", "", Some(BadMessage))
      case MalformedService => ack == Ack("", "", Some(BadService))
      case UnparseableService => ack == Ack("", "", Some(Unparseable))
  {
  }

  /** The success of a sync shows in the table unless it rewrites a record with what it already held. */
  lemma SuccessShows(store: Store, edge: string, msg: SyncMessage, stamp: Stamp, faults: Faults)
    requires Keyed(store)
    ensures var (after, ack) := SyncOne(store, edge, msg, stamp, faults);
      after == store <==>
        || ack.error.Some?
        || (msg.operation == "updated" && Lookup(store, msg.service.id) == Intended(store, edge, msg, stamp))
  {
    SingleSyncExactly(store, edge, msg, stamp, faults);
    var (after, ack) := SyncOne(store, edge, msg, stamp, faults);
    if ack.error.None? && msg.operation == "updated" {
      var s := msg.service.(edgeId := edge);
      var r := Overwrite(store[s.id], s, stamp.updated);
      assert after == store[s.id := r] && after[s.id] == r;
    }
  }

  /** Such a success: the same update twice at one clock reading. */
  lemma SuccessHides(store: Store, edge: string, s: EdgeService, stamp: Stamp)
    requires Keyed(store) && s.id in store && store[s.id].edgeId == edge && WellFormed(s.(edgeId := edge))
    ensures var msg := Sync("updated", s);
      var (once, _) := SyncOne(store, edge, msg, stamp, NO_FAULTS);
      var (twice, ack) := SyncOne(once, edge, msg, stamp, NO_FAULTS);
      ack.error.None? && twice == once
  {
    var msg := Sync("updated", s);
    var (once, _) := SyncOne(store, edge, msg, stamp, NO_FAULTS);
    SingleSyncExactly(store, edge, msg, stamp, NO_FAULTS);
    assert once[s.id] == Overwrite(store[s.id], s, stamp.updated);
    SuccessShows(once, edge, msg, stamp, NO_FAULTS);
    SingleSyncExactly(once, edge, msg, stamp, NO_FAULTS);
  }

  // ---------- batch syncs ----------

  datatype Entry = NotAnObject | BadRecord | Parsed(service: EdgeService)

  datatype Progress = Progress(store: Store, synced: nat, failed: nat)

  predicate ValidEntry(edge: string, e: Entry) {
    e.Parsed? && WellFormed(e.service.(edgeId := edge))
  }

  /** One round of the batch loop: try to update, else create. */
  function SyncEntry(p: Progress, edge: string, e: Entry, stamp: Stamp, faults: Faults): Progress {
    if !e.Parsed? then p.(failed := p.failed + 1) else
    var s := e.service.(edgeId := edge);
    if Validate(s).Some? then p.(failed := p.failed + 1) else
    var updated := UpdateService(p.store, s, stamp, faults);
    if updated.error.None? then Progress(updated.store, p.synced + 1, p.failed) else
    var created := CreateService(updated.store, s, stamp, faults);
    if created.error.None? then Progress(created.store, p.synced + 1, p.failed)
    else Progress(created.store, p.synced, p.failed + 1)
  }

  /** The batch loop after its first n entries; entry i is handled at clock(i) with faults(i). */
  function SyncEntries(store: Store, edge: string, entries: seq<Entry>, n: nat,
                       clock: nat -> Stamp, faults: nat -> Faults): Progress
    requires n <= |entries|
  {
    if n == 0 then Progress(store, 0, 0) else
    var before := SyncEntries(store, edge, entries, n - 1, clock, faults);
    SyncEntry(before, edge, entries[n - 1], clock(n - 1), faults(n - 1))
  }

  /** No storage call fails. */
  const NEVER: nat -> Faults := _ => NO_FAULTS

  function SyncAll(store: Store, edge: string, entries: seq<Entry>, clock: nat -> Stamp): Progress {
    SyncEntries(store, edge, entries, |entries|, clock, NEVER)
  }

  // ---------- last writer wins ----------

  predicate Writes(edge: string, e: Entry, id: string) { ValidEntry(edge, e) && e.service.id == id }

  /** Entry i overwrites the record of id, if there is one of this edge. */
  predicate Updates(edge: string, entries: seq<Entry>, faults: nat -> Faults, i: nat, id: string)
    requires i < |entries|
  {
    Writes(edge, entries[i], id) && !faults(i).get && !faults(i).save
  }

  /** Entry i creates the record of id, if there is none. */
  predicate Creates(edge: string, entries: seq<Entry>, faults: nat -> Faults, i: nat, id: string)
    requires i < |entries|
  {
    Writes(edge, entries[i], id) && !faults(i).insert
  }

  /** The position of the last of the first n entries that can update id, or -1. */
  function LastUpdate(edge: string, entries: seq<Entry>, faults: nat -> Faults, n: nat, id: string): (i: int)
    requires n <= |entries|
    ensures -1 <= i < n
    ensures i >= 0 ==> Updates(edge, entries, faults, i, id)
    ensures forall j | i < j < n :: !Updates(edge, entries, faults, j, id)
  {
    if n == 0 then -1
    else if Updates(edge, entries, faults, n - 1, id) then n - 1
    else LastUpdate(edge, entries, faults, n - 1, id)
  }

  /** The position of the first of the first n entries that can create id, or -1. */
  function FirstCreate(edge: string, entries: seq<Entry>, faults: nat -> Faults, n: nat, id: string): (i: int)
    requires n <= |entries|
    ensures -1 <= i < n
    ensures i >= 0 ==> Creates(edge, entries, faults, i, id)
    ensures forall j | 0 <= j < (if i < 0 then n else i) :: !Creates(edge, entries, faults, j, id)
  {
    if n == 0 then -1 else
    var i := FirstCreate(edge, entries, faults, n - 1, id);
    if i >= 0 then i else if Creates(edge, entries, faults, n - 1, id) then n - 1 else -1
  }

  /** The position of the last entry that writes id, or -1. */
  function LastWrite(edge: string, entries: seq<Entry>, id: string): (i: int)
    ensures -1 <= i < |entries|
    ensures i >= 0 ==> Writes(edge, entries[i], id)
    ensures forall j | i < j < |entries| :: !Writes(edge, entries[j], id)
  {
    var i := LastUpdate(edge, entries, NEVER, |entries|, id);
    assert forall j | i < j < |entries| :: !Writes(edge, entries[j], id) by {
      forall j | i < j < |entries|
        ensures !Writes(edge, entries[j], id)
      {
        assert NEVER(j) == NO_FAULTS;
        assert !Updates(edge, entries, NEVER, j, id);
      }
    }
    i
  }

  predicate Foreign(store: Store, edge: string, id: string) { id in store && store[id].edgeId != edge }

  /**
   * The record of id after a batch, said without the loop.  It is untouched when another edge owns it.
   * One that was there is as the last entry that could update it says.  Else it is created by the first
   * entry that could, and then as the last later one that could update it says.
   */
  function Expected(store: Store, edge: string, entries: seq<Entry>, n: nat,
                    clock: nat -> Stamp, faults: nat -> Faults, id: string): Option<EdgeService>
    requires n <= |entries|
  {
    if Foreign(store, edge, id) then Lookup(store, id) else
    var last, first := LastUpdate(edge, entries, faults, n, id), FirstCreate(edge, entries, faults, n, id);
    if id in store then
      if last < 0 then Lookup(store, id)
      else Some(entries[last].service.(edgeId := edge, createdAt := store[id].createdAt,
                                       updatedAt := clock(last).updated))
    else if first < 0 then None
    else if last <= first then
      Some(entries[first].service.(edgeId := edge, createdAt := clock(first).created,
                                   updatedAt := clock(first).createdUpdated))
    else
      Some(entries[last].service.(edgeId := edge, createdAt := clock(first).created,
                                  updatedAt := clock(last).updated))
  }

  /** What an entry that writes id makes of the record of id, if another edge does not own it. */
  function Written(before: Option<EdgeService>, edge: string, s: EdgeService, stamp: Stamp, faults: Faults)
    : Option<EdgeService>
  {
    if before.Some? then
      if faults.get || faults.save then before
      else Some(s.(edgeId := edge, createdAt := before.value.createdAt, updatedAt := stamp.updated))
    else if faults.insert then None
    else Some(s.(edgeId := edge, createdAt := stamp.created, updatedAt := stamp.createdUpdated))
  }

  lemma EntryEffect(p: Progress, edge: string, e: Entry, stamp: Stamp, faults: Faults, id: string)
    requires Keyed(p.store)
    ensures var after := SyncEntry(p, edge, e, stamp, faults);
      && Keyed(after.store)
      && Lookup(after.store, id)
         == if Writes(edge, e, id) && !Foreign(p.store, edge, id)
            then Written(Lookup(p.store, id), edge, e.service, stamp, faults) else Lookup(p.store, id)
  {
  }

  /** How the declarative result grows by one entry. */
  lemma ExpectedStep(store: Store, edge: string, entries: seq<Entry>, n: nat,
                     clock: nat -> Stamp, faults: nat -> Faults, id: string)
    requires Keyed(store) && 0 < n <= |entries|
    ensures var before := Expected(store, edge, entries, n - 1, clock, faults, id);
      && (Foreign(store, edge, id) <==> before.Some? && before.value.edgeId != edge)
      && Expected(store, edge, entries, n, clock, faults, id)
         == if Writes(edge, entries[n - 1], id) && !Foreign(store, edge, id)
            then Written(before, edge, entries[n - 1].service, clock(n - 1), faults(n - 1)) else before
  {
  }

  lemma {:induction false} LastWriterWinsUpTo(store: Store, edge: string, entries: seq<Entry>, n: nat,
                                              clock: nat -> Stamp, faults: nat -> Faults, id: string)
    requires Keyed(store) && n <= |entries|
    ensures var after := SyncEntries(store, edge, entries, n, clock, faults).store;
      Keyed(after) && Lookup(after, id) == Expected(store, edge, entries, n, clock, faults, id)
  {
    if n > 0 {
      LastWriterWinsUpTo(store, edge, entries, n - 1, clock, faults, id);
      var before := SyncEntries(store, edge, entries, n - 1, clock, faults);
      EntryEffect(before, edge, entries[n - 1], clock(n - 1), faults(n - 1), id);
      ExpectedStep(store, edge, entries, n, clock, faults, id);
    }
  }

  /** The batch loop computes the declarative result, for every id and whatever storage calls fail. */
  lemma LastWriterWins(store: Store, edge: string, entries: seq<Entry>,
                       clock: nat -> Stamp, faults: nat -> Faults, id: string)
    requires Keyed(store)
    ensures var after := SyncEntries(store, edge, entries, |entries|, clock, faults).store;
      Keyed(after) && Lookup(after, id) == Expected(store, edge, entries, |entries|, clock, faults, id)
  {
    LastWriterWinsUpTo(store, edge, entries, |entries|, clock, faults, id);
  }

  /** When no storage call fails the result is that of the last valid entry, whoever created the record. */
  lemma LastEntryWins(store: Store, edge: string, entries: seq<Entry>, clock: nat -> Stamp, id: string)
    requires Keyed(store)
    ensures var after, last := SyncAll(store, edge, entries, clock).store, LastWrite(edge, entries, id);
      && Keyed(after)
      && (last < 0 || Foreign(store, edge, id) ==> Lookup(after, id) == Lookup(store, id))
      && (last >= 0 && !Foreign(store, edge, id) ==>
            && id in after && SameService(after[id], entries[last].service.(edgeId := edge))
            && (id in store ==> after[id].createdAt == store[id].createdAt))
  {
    LastWriterWins(store, edge, entries, clock, NEVER, id);
    var last := LastWrite(edge, entries, id);
    if last >= 0 {
      assert Updates(edge, entries, NEVER, last, id) && Creates(edge, entries, NEVER, last, id);
    }
    var first := FirstCreate(edge, entries, NEVER, |entries|, id);
    if first >= 0 {
      assert Updates(edge, entries, NEVER, first, id);
    }
  }

  /** Untouched: the records of other edges, and of ids no valid entry names.  No key disappears. */
  lemma BatchFrame(store: Store, edge: string, entries: seq<Entry>, clock: nat -> Stamp, faults: nat -> Faults)
    requires Keyed(store)
    ensures var after := SyncEntries(store, edge, entries, |entries|, clock, faults).store;
      && store.Keys <= after.Keys
      && (forall id | id in store && store[id].edgeId != edge :: after[id] == store[id])
      && (forall id | forall e | e in entries :: !Writes(edge, e, id) :: Lookup(after, id) == Lookup(store, id))
  {
    var after := SyncEntries(store, edge, entries, |entries|, clock, faults).store;
    forall id
      ensures id in store ==> id in after
      ensures Foreign(store, edge, id) ==> Lookup(after, id) == Lookup(store, id)
      ensures (forall e | e in entries :: !Writes(edge, e, id)) ==> Lookup(after, id) == Lookup(store, id)
    {
      LastWriterWins(store, edge, entries, clock, faults, id);
    }
  }

  // ---------- counting ----------

  predicate Acceptable(store: Store, edge: string, e: Entry) {
    ValidEntry(edge, e) && !Foreign(store, edge, e.service.id)
  }

  /** Entry i finds a record to update that it can update, or none and can create one. */
  predicate Succeeds(store: Store, edge: string, entries: seq<Entry>, faults: nat -> Faults, i: nat)
    requires i < |entries|
  {
    && Acceptable(store, edge, entries[i])
    && var id := entries[i].service.id;
       if id in store || FirstCreate(edge, entries, faults, i, id) >= 0
       then Updates(edge, entries, faults, i, id) else Creates(edge, entries, faults, i, id)
  }

  function Successes(store: Store, edge: string, entries: seq<Entry>, faults: nat -> Faults, n: nat): nat
    requires n <= |entries|
  {
    if n == 0 then 0 else
    Successes(store, edge, entries, faults, n - 1) + if Succeeds(store, edge, entries, faults, n - 1) then 1 else 0
  }

  lemma EntryCounted(store: Store, edge: string, entries: seq<Entry>, n: nat,
                     clock: nat -> Stamp, faults: nat -> Faults)
    requires Keyed(store) && 0 < n <= |entries| && ValidEntry(edge, entries[n - 1])
    requires var before, id := SyncEntries(store, edge, entries, n - 1, clock, faults).store, entries[n - 1].service.id;
      Lookup(before, id) == Expected(store, edge, entries, n - 1, clock, faults, id)
    ensures SyncEntries(store, edge, entries, n, clock, faults).synced
         == SyncEntries(store, edge, entries, n - 1, clock, faults).synced
            + if Succeeds(store, edge, entries, faults, n - 1) then 1 else 0
  {
  }

  /** The success count is the number of such entries, whatever storage calls fail. */
  lemma {:induction false} SyncedCount(store: Store, edge: string, entries: seq<Entry>, n: nat,
                                       clock: nat -> Stamp, faults: nat -> Faults)
    requires Keyed(store) && n <= |entries|
    ensures SyncEntries(store, edge, entries, n, clock, faults).synced == Successes(store, edge, entries, faults, n)
  {
    if n > 0 {
      SyncedCount(store, edge, entries, n - 1, clock, faults);
      var e := entries[n - 1];
      if ValidEntry(edge, e) {
        LastWriterWinsUpTo(store, edge, entries, n - 1, clock, faults, e.service.id);
        EntryCounted(store, edge, entries, n, clock, faults);
      }
    }
  }

  /** The entries that succeed when no storage call fails, counted against the table before the batch. */
  function Accepted(store: Store, edge: string, entries: seq<Entry>): nat {
    if entries == [] then 0 else
    Accepted(store, edge, entries[..|entries| - 1])
    + (if Acceptable(store, edge, entries[|entries| - 1]) then 1 else 0)
  }

  lemma {:induction false} SuccessesAccepted(store: Store, edge: string, entries: seq<Entry>, n: nat)
    requires n <= |entries|
    ensures Successes(store, edge, entries, NEVER, n) == Accepted(store, edge, entries[..n])
  {
    if n > 0 {
      SuccessesAccepted(store, edge, entries, n - 1);
      assert entries[..n][..n - 1] == entries[..n - 1];
    }
  }

  /** When none fails, that is the number of valid entries whose id no other edge owned before. */
  lemma AcceptedCount(store: Store, edge: string, entries: seq<Entry>, clock: nat -> Stamp)
    requires Keyed(store)
    ensures SyncAll(store, edge, entries, clock).synced == Accepted(store, edge, entries)
  {
    SyncedCount(store, edge, entries, |entries|, clock, NEVER);
    SuccessesAccepted(store, edge, entries, |entries|);
    assert entries[..|entries|] == entries;
  }

  lemma EntryAccounting(p: Progress, edge: string, e: Entry, stamp: Stamp, faults: Faults)
    requires Keyed(p.store)
    ensures var after := SyncEntry(p, edge, e, stamp, faults);
      && Keyed(after.store) && p.store.Keys <= after.store.Keys
      && (|| (after.synced == p.synced + 1 && after.failed == p.failed)
          || (after == p.(failed := p.failed + 1)))
  {
  }

  /** However the storage calls fail, every entry is counted once, and with no success nothing changed. */
  lemma {:induction false} BatchAccounting(store: Store, edge: string, entries: seq<Entry>, n: nat,
                                           clock: nat -> Stamp, faults: nat -> Faults)
    requires Keyed(store) && n <= |entries|
    ensures var p := SyncEntries(store, edge, entries, n, clock, faults);
      && p.synced + p.failed == n
      && Keyed(p.store) && store.Keys <= p.store.Keys
      && (p.synced == 0 ==> p.store == store)
  {
    if n > 0 {
      BatchAccounting(store, edge, entries, n - 1, clock, faults);
      var before := SyncEntries(store, edge, entries, n - 1, clock, faults);
      EntryAccounting(before, edge, entries[n - 1], clock(n - 1), faults(n - 1));
    }
  }

  /**
   * The create fallback never overwrites: whatever fails, a record that exists changes only by a
   * successful update of its own edge, which keeps its key, its edge and its creation time.
   */
  lemma FallbackNeverOverwrites(p: Progress, edge: string, e: Entry, stamp: Stamp, faults: Faults, id: string)
    requires Keyed(p.store) && id in p.store
    ensures var after := SyncEntry(p, edge, e, stamp, faults);
      && id in after.store
      && (after.store[id] != p.store[id] ==>
            && Writes(edge, e, id) && p.store[id].edgeId == edge && !faults.get && !faults.save
            && after.synced == p.synced + 1
            && after.store[id].edgeId == edge && after.store[id].createdAt == p.store[id].createdAt)
      && (after.failed > p.failed ==> after.store == p.store)
  {
  }

  // ---------- idempotence and order ----------

  lemma {:induction false} AcceptedByOwnersOnly(store1: Store, store2: Store, edge: string, entries: seq<Entry>)
    requires forall id :: Foreign(store1, edge, id) == Foreign(store2, edge, id)
    ensures Accepted(store1, edge, entries) == Accepted(store2, edge, entries)
  {
    if entries != [] {
      AcceptedByOwnersOnly(store1, store2, edge, entries[..|entries| - 1]);
    }
  }

  /** Running the same batch again changes nothing but update times, and succeeds as often. */
  lemma BatchIdempotent(store: Store, edge: string, entries: seq<Entry>, clock1: nat -> Stamp, clock2: nat -> Stamp)
    requires Keyed(store)
    ensures var once := SyncAll(store, edge, entries, clock1);
      var twice := SyncAll(once.store, edge, entries, clock2);
      && (forall id :: SameUpToUpdate(Lookup(once.store, id), Lookup(twice.store, id)))
      && twice.synced == once.synced
  {
    var once := SyncAll(store, edge, entries, clock1);
    var twice := SyncAll(once.store, edge, entries, clock2);
    forall id
      ensures SameUpToUpdate(Lookup(once.store, id), Lookup(twice.store, id))
      ensures Foreign(store, edge, id) == Foreign(once.store, edge, id)
    {
      LastEntryWins(store, edge, entries, clock1, id);
      LastEntryWins(once.store, edge, entries, clock2, id);
    }
    LastEntryWins(store, edge, entries, clock1, "");
    AcceptedCount(store, edge, entries, clock1);
    AcceptedCount(once.store, edge, entries, clock2);
    AcceptedByOwnersOnly(store, once.store, edge, entries);
  }

  /** No two valid entries name the same service. */
  ghost predicate DistinctIds(edge: string, entries: seq<Entry>) {
    forall i, j | 0 <= i < j < |entries| && ValidEntry(edge, entries[i]) && ValidEntry(edge, entries[j]) ::
      entries[i].service.id != entries[j].service.id
  }

  lemma DistinctWriter(edge: string, entries: seq<Entry>, e: Entry, id: string)
    requires DistinctIds(edge, entries) && e in entries && Writes(edge, e, id)
    ensures var i := LastWrite(edge, entries, id); i >= 0 && entries[i] == e
  {
    var j :| 0 <= j < |entries| && entries[j] == e;
    var i := LastWrite(edge, entries, id);
    assert i >= j;
  }

  /** With pairwise distinct ids the order of a batch does not matter, clocks aside. */
  lemma BatchOrderIndependent(store: Store, edge: string, p: seq<Entry>, q: seq<Entry>,
                              clock1: nat -> Stamp, clock2: nat -> Stamp, id: string)
    requires Keyed(store) && multiset(p) == multiset(q) && DistinctIds(edge, p)
    ensures SameUpToTimes(Lookup(SyncAll(store, edge, p, clock1).store, id),
                          Lookup(SyncAll(store, edge, q, clock2).store, id))
  {
    LastEntryWins(store, edge, p, clock1, id);
    LastEntryWins(store, edge, q, clock2, id);
    var i, j := LastWrite(edge, p, id), LastWrite(edge, q, id);
    SameElements(p, q);
    if j >= 0 {
      DistinctWriter(edge, p, q[j], id);
    }
    if i >= 0 {
      assert p[i] in q;
    }
  }

  lemma SameElements(p: seq<Entry>, q: seq<Entry>)
    requires multiset(p) == multiset(q)
    ensures forall e :: e in p <==> e in q
  {
    forall e
      ensures e in p <==> e in q
    {
      assert e in multiset(p) <==> e in multiset(q);
    }
  }

  lemma {:induction false} AcceptedRemove(store: Store, edge: string, p: seq<Entry>, i: nat)
    requires i < |p|
    ensures Accepted(store, edge, p)
         == Accepted(store, edge, p[..i] + p[i + 1..]) + (if Acceptable(store, edge, p[i]) then 1 else 0)
  {
    var last := |p| - 1;
    if i == last {
      assert p[..i] + p[i + 1..] == p[..last];
    } else {
      AcceptedRemove(store, edge, p[..last], i);
      assert (p[..i] + p[i + 1..])[..last - 1] == p[..last][..i] + p[..last][i + 1..];
    }
  }

  lemma RemoveSame(p: seq<Entry>, q: seq<Entry>, i: nat)
    requires p != [] && i < |q| && q[i] == p[|p| - 1] && multiset(p) == multiset(q)
    ensures multiset(p[..|p| - 1]) == multiset(q[..i] + q[i + 1..])
  {
    var front, before, after := p[..|p| - 1], q[..i], q[i + 1..];
    assert p == front + [q[i]];
    assert q == before + [q[i]] + after;
    calc {
      multiset(front);
      multiset(p) - multiset{q[i]};
      multiset(before) + multiset{q[i]} + multiset(after) - multiset{q[i]};
      multiset(before) + multiset(after);
      multiset(before + after);
    }
  }

  lemma {:induction false} AcceptedPermutation(store: Store, edge: string, p: seq<Entry>, q: seq<Entry>)
    requires multiset(p) == multiset(q)
    ensures Accepted(store, edge, p) == Accepted(store, edge, q)
    decreases |p|
  {
    if p == [] {
      assert |q| == |multiset(q)|;
    } else {
      assert p[|p| - 1] in multiset(q);
      var i :| 0 <= i < |q| && q[i] == p[|p| - 1];
      RemoveSame(p, q, i);
      AcceptedPermutation(store, edge, p[..|p| - 1], q[..i] + q[i + 1..]);
      AcceptedRemove(store, edge, q, i);
    }
  }

  /** The success count does not depend on the order. */
  lemma SuccessCountStable(store: Store, edge: string, p: seq<Entry>, q: seq<Entry>,
                           clock1: nat -> Stamp, clock2: nat -> Stamp)
    requires Keyed(store) && multiset(p) == multiset(q)
    ensures SyncAll(store, edge, p, clock1).synced == SyncAll(store, edge, q, clock2).synced
            == Accepted(store, edge, p)
  {
    AcceptedCount(store, edge, p, clock1);
    AcceptedCount(store, edge, q, clock2);
    AcceptedPermutation(store, edge, p, q);
  }

  // ---------- convergence on reconnect ----------

  /** An edge's local list as it sends it. */
  function AsEntries(local: seq<EdgeService>): (entries: seq<Entry>)
    ensures |entries| == |local|
  {
    seq(|local|, i requires 0 <= i < |local| => Parsed(local[i]))
  }

  predicate Sendable(store: Store, edge: string, local: seq<EdgeService>) {
    && (forall i | 0 <= i < |local| :: WellFormed(local[i].(edgeId := edge)))
    && (forall i, j | 0 <= i < j < |local| :: local[i].id != local[j].id)
    && (forall i | 0 <= i < |local| :: !Foreign(store, edge, local[i].id))
  }

  predicate Listed(local: seq<EdgeService>, id: string) { exists i | 0 <= i < |local| :: local[i].id == id }

  lemma LocalWriter(store: Store, edge: string, local: seq<EdgeService>, i: nat)
    requires Sendable(store, edge, local) && i < |local|
    ensures LastWrite(edge, AsEntries(local), local[i].id) == i
  {
    var entries := AsEntries(local);
    var k := LastWrite(edge, entries, local[i].id);
    assert Writes(edge, entries[i], local[i].id);
    assert k >= i;
    assert entries[k].service == local[k];
  }

  /** From any table at all, one batch of the local list makes the server hold each listed service. */
  lemma ReconnectConverges(store: Store, edge: string, local: seq<EdgeService>, clock: nat -> Stamp, i: nat)
    requires Keyed(store) && Sendable(store, edge, local) && i < |local|
    ensures var after := SyncAll(store, edge, AsEntries(local), clock).store;
      && local[i].id in after
      && after[local[i].id].edgeId == edge
      && SameService(after[local[i].id], local[i].(edgeId := edge))
  {
    LastEntryWins(store, edge, AsEntries(local), clock, local[i].id);
    LocalWriter(store, edge, local, i);
  }

  /**
   * A batch only adds and updates.  So the server's services of the edge are exactly the local ones
   * afterwards if and only if it held no service of this edge that is gone from the local list.
   */
  lemma ReconnectExactlyWhen(store: Store, edge: string, local: seq<EdgeService>, clock: nat -> Stamp)
    requires Keyed(store) && Sendable(store, edge, local)
    ensures var after := SyncAll(store, edge, AsEntries(local), clock).store;
      (forall id :: id in after && after[id].edgeId == edge <==> Listed(local, id))
      <==> (forall id | id in store && store[id].edgeId == edge :: Listed(local, id))
  {
    var after := SyncAll(store, edge, AsEntries(local), clock).store;
    forall id
      ensures id in after && after[id].edgeId == edge
         <==> Listed(local, id) || (id in store && store[id].edgeId == edge)
    {
      LastEntryWins(store, edge, AsEntries(local), clock, id);
      if Listed(local, id) {
        var i :| 0 <= i < |local| && local[i].id == id;
        ReconnectConverges(store, edge, local, clock, i);
      }
    }
  }

  /** A service that the edge dropped while it was away stays on the server, whatever the batch says. */
  lemma DroppedServiceStays(store: Store, edge: string, local: seq<EdgeService>, clock: nat -> Stamp, id: string)
    requires Keyed(store) && Sendable(store, edge, local)
    requires id in store && store[id].edgeId == edge && !Listed(local, id)
    ensures var after := SyncAll(store, edge, AsEntries(local), clock).store; id in after && after[id] == store[id]
  {
    var entries := AsEntries(local);
    LastEntryWins(store, edge, entries, clock, id);
    assert forall i | 0 <= i < |local| :: entries[i].service == local[i] && local[i].id != id;
  }
}
