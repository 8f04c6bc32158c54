/**
 * The storage and the message handlers that work on it, step by step as they run, each shown to do
 * what the step functions of Services, ServiceSync and ServiceRuns say.
 */
module ServiceHandlers {
  import opened Wrappers
  import opened Services
  import opened ServiceSync
  import opened ServiceRuns

  /** The services of one edge, newest first, each exactly once. */
  ghost predicate IsListing(store: Store, edge: string, list: seq<EdgeService>) {
    ListingBut(store, edge, list, {})
  }

  /** The same for the services of an edge but those with an id in `rest`, none of which is newer. */
  ghost predicate ListingBut(store: Store, edge: string, list: seq<EdgeService>, rest: set<string>) {
    && (forall id | id in rest :: id in store && store[id].edgeId == edge)
    && (forall i | 0 <= i < |list| ::
          list[i].id in store && list[i].id !in rest && store[list[i].id] == list[i] && list[i].edgeId == edge)
    && (forall id | id in store && store[id].edgeId == edge :: id in rest || store[id] in list)
    && (forall i, j | 0 <= i < j < |list| :: list[i].id != list[j].id && list[i].createdAt >= list[j].createdAt)
    && (list != [] ==> forall id | id in rest :: list[|list| - 1].createdAt >= store[id].createdAt)
  }

  lemma AppendNewest(store: Store, edge: string, list: seq<EdgeService>, rest: set<string>, newest: string)
    requires Keyed(store) && ListingBut(store, edge, list, rest) && newest in rest
    requires forall id | id in rest :: store[newest].createdAt >= store[id].createdAt
    ensures ListingBut(store, edge, list + [store[newest]], rest - {newest})
  {
    var longer := list + [store[newest]];
    forall id | id in store && store[id].edgeId == edge
      ensures id in rest - {newest} || store[id] in longer
    {
      assert id == newest ==> longer[|list|] == store[id];
    }
    forall i, j | 0 <= i < j < |longer|
      ensures longer[i].id != longer[j].id && longer[i].createdAt >= longer[j].createdAt
    {
      if j == |list| {
        assert list[i].createdAt >= list[|list| - 1].createdAt;
      }
    }
  }

  /** The service table; a `fault` argument says that the database reports an error of its own. */
  class ServiceStorage {
    var db: Store

    constructor ()
      ensures db == map[]
    {
      db := map[];
    }

    method CreateEdgeService(service: EdgeService, fault: bool) returns (error: Option<SyncError>)
      modifies this
      ensures error == if fault then Some(StorageFailure) else if service.id in old(db) then Some(Conflict) else None
      ensures db == if error.None? then old(db)[service.id := service] else old(db)
    {
      if fault {
        return Some(StorageFailure);
      }
      if service.id in db {
        return Some(Conflict);
      }
      db := db[service.id := service];
      return None;
    }

    method UpdateEdgeService(service: EdgeService, fault: bool) returns (error: Option<SyncError>)
      modifies this
      ensures error == if fault then Some(StorageFailure) else None
      ensures db == if fault then old(db) else old(db)[service.id := service]
    {
      if fault {
        return Some(StorageFailure);
      }
      db := db[service.id := service];
      return None;
    }

    method DeleteEdgeService(id: string, fault: bool) returns (error: Option<SyncError>)
      modifies this
      ensures Effect(db, error) == DeleteService(old(db), id, NO_FAULTS.(remove := fault))
    {
      if fault {
        return Some(StorageFailure);
      }
      var affected := if id in db then 1 else 0;
      db := db - {id};
      if affected == 0 {
        return Some(NotFound);
      }
      return None;
    }

    method GetEdgeService(id: string, fault: bool) returns (r: Result<EdgeService, SyncError>)
      ensures r == if fault then Err(StorageFailure) else if id in db then Ok(db[id]) else Err(NotFound)
    {
      if fault {
        return Err(StorageFailure);
      }
      if id !in db {
        return Err(NotFound);
      }
      return Ok(db[id]);
    }

    method ListEdgeServices(edge: string, fault: bool) returns (r: Result<seq<EdgeService>, SyncError>)
      requires Keyed(db)
      ensures r.Err? <==> fault
      ensures r.Ok? ==> IsListing(db, edge, r.value)
    {
      if fault {
        return Err(StorageFailure);
      }
      var list: seq<EdgeService> := [];
      var rest := set id | id in db && db[id].edgeId == edge;
      while rest != {}
        invariant ListingBut(db, edge, list, rest)
        decreases rest
      {
        var newest := Newest(rest);
        AppendNewest(db, edge, list, rest, newest);
        list := list + [db[newest]];
        rest := rest - {newest};
      }
      return Ok(list);
    }

    method Newest(ids: set<string>) returns (newest: string)
      requires ids != {} && ids <= db.Keys
      ensures newest in ids && forall id | id in ids :: db[newest].createdAt >= db[id].createdAt
    {
      newest :| newest in ids;
      var rest := ids - {newest};
      while rest != {}
        invariant rest <= ids && newest in ids
        invariant forall id | id in ids - rest :: db[newest].createdAt >= db[id].createdAt
        decreases rest
      {
        var id :| id in rest;
        if db[id].createdAt > db[newest].createdAt {
          newest := id;
        }
        rest := rest - {id};
      }
    }
  }

  datatype Outgoing =
    | SyncAck(ack: Ack)
    | BatchAnswer(reply: BatchReply)
    | ServiceList(services: seq<EdgeService>)
    | ListFailed

  /** A peer's connection, with the log of what was sent on it. */
  class EdgeLink {
    const peerId: string
    var sent: seq<Outgoing>

    constructor (peerId: string)
      ensures this.peerId == peerId && sent == []
    {
      this.peerId, this.sent := peerId, [];
    }

    method Send(msg: Outgoing)
      modifies this
      ensures sent == old(sent) + [msg]
    {
      sent := sent + [msg];
    }
  }

  class ServiceServer {
    const storage: ServiceStorage

    constructor (storage: ServiceStorage)
      ensures this.storage == storage
    {
      this.storage := storage;
    }

    method Create(service: EdgeService, stamp: Stamp, faults: Faults) returns (error: Option<SyncError>)
      modifies storage
      ensures Effect(storage.db, error) == CreateService(old(storage.db), service, stamp, faults)
    {
      var record := service.(createdAt := stamp.created);
      record := record.(updatedAt := stamp.createdUpdated);
      error := storage.CreateEdgeService(record, faults.insert);
    }

    method Update(service: EdgeService, stamp: Stamp, faults: Faults) returns (error: Option<SyncError>)
      requires Keyed(storage.db)
      modifies storage
      ensures Effect(storage.db, error) == UpdateService(old(storage.db), service, stamp, faults)
    {
      var found := storage.GetEdgeService(service.id, faults.get);
      if found.Err? {
        return Some(found.error);
      }
      var existing := found.value;
      if existing.edgeId != service.edgeId {
        return Some(OtherEdge);
      }
      existing := existing.(name := service.name);
      existing := existing.(tunnelPort := service.tunnelPort);
      existing := existing.(localHost := service.localHost);
      existing := existing.(localPort := service.localPort);
      existing := existing.(protocol := service.protocol);
      existing := existing.(enabled := service.enabled);
      existing := existing.(updatedAt := stamp.updated);
      error := storage.UpdateEdgeService(existing, faults.save);
    }

    /** Exactly one acknowledgement goes out, and table and acknowledgement are those of SyncOne. */
    method HandleServiceSync(from: EdgeLink, msg: SyncMessage, stamp: Stamp, faults: Faults)
      requires Keyed(storage.db)
      modifies storage, from
      ensures storage.db == SyncOne(old(storage.db), from.peerId, msg, stamp, faults).0
      ensures from.sent == old(from.sent) + [SyncAck(SyncOne(old(storage.db), from.peerId, msg, stamp, faults).1)]
    {
      if msg.MalformedMessage? {
        from.Send(SyncAck(Ack("", "", Some(BadMessage))));
        return;
      }
      if msg.MalformedService? {
        from.Send(SyncAck(Ack("", "", Some(BadService))));
        return;
      }
      if msg.UnparseableService? {
        from.Send(SyncAck(Ack("", "", Some(Unparseable))));
        return;
      }
      var service := msg.service.(edgeId := from.peerId);
      var invalid := Validate(service);
      if invalid.Some? {
        from.Send(SyncAck(Ack(service.id, service.id, Some(Rejected(invalid.value)))));
        return;
      }
      var error;
      if msg.operation == "created" {
        error := Create(service, stamp, faults);
      } else if msg.operation == "updated" {
        error := Update(service, stamp, faults);
      } else if msg.operation == "deleted" {
        error := storage.DeleteEdgeService(service.id, faults.remove);
      } else {
        from.Send(SyncAck(Ack(service.id, "", Some(BadOperation))));
        return;
      }
      if error.Some? {
        from.Send(SyncAck(Ack(service.id, "", error)));
        return;
      }
      from.Send(SyncAck(Ack(service.id, service.id, None)));
    }

    /** One round of the batch loop: tries to update, else to create, and says whether to count a success. */
    method Round(edge: string, entry: Entry, stamp: Stamp, faults: Faults, ghost before: Progress)
      returns (synced: bool)
      requires Keyed(storage.db) && before.store == storage.db
      modifies storage
      ensures Keyed(storage.db)
      ensures SyncEntry(before, edge, entry, stamp, faults)
           == if synced then Progress(storage.db, before.synced + 1, before.failed)
              else Progress(storage.db, before.synced, before.failed + 1)
    {
      if !entry.Parsed? {
        return false;
      }
      var service := entry.service.(edgeId := edge);
      if Validate(service).Some? {
        return false;
      }
      var error := Update(service, stamp, faults);
      if error.Some? {
        error := Create(service, stamp, faults);
      }
      return error.None?;
    }

    /** One answer goes out; table and answer are those of SyncBatch, with every entry counted once. */
    method HandleServiceSyncBatch(from: EdgeLink, msg: BatchMessage, clock: nat -> Stamp, faults: nat -> Faults)
      requires Keyed(storage.db)
      modifies storage, from
      ensures storage.db == SyncBatch(old(storage.db), from.peerId, msg, clock, faults).0
      ensures from.sent == old(from.sent) + [BatchAnswer(SyncBatch(old(storage.db), from.peerId, msg, clock, faults).1)]
      ensures Keyed(storage.db)
    {
      if msg.MalformedBatch? {
        from.Send(BatchAnswer(InvalidBatch));
        return;
      }
      if msg.MissingServices? {
        from.Send(BatchAnswer(InvalidServices));
        return;
      }
      var entries := msg.entries;
      if |entries| > MAX_BATCH_SIZE {
        from.Send(BatchAnswer(BatchTooLarge));
        return;
      }
      var successCount, failedCount := 0, 0;
      ghost var before := storage.db;
      for i := 0 to |entries|
        invariant Keyed(storage.db) && from.sent == old(from.sent)
        invariant successCount >= 0 && failedCount >= 0
        invariant Progress(storage.db, successCount, failedCount)
               == SyncEntries(before, from.peerId, entries, i, clock, faults)
      {
        ghost var now := Progress(storage.db, successCount, failedCount);
        var synced := Round(from.peerId, entries[i], clock(i), faults(i), now);
        if !synced {
          failedCount := failedCount + 1;
          continue;
        }
        successCount := successCount + 1;
      }
      from.Send(BatchAnswer(Synced(successCount)));
    }

    /** Sends the edge's own services, newest first, or an error when the query fails. */
    method HandleServiceListRequest(from: EdgeLink, fault: bool)
      requires Keyed(storage.db)
      modifies from
      ensures |from.sent| == |old(from.sent)| + 1 && old(from.sent) < from.sent
      ensures var answer := from.sent[|old(from.sent)|];
        if fault then answer == ListFailed
        else answer.ServiceList? && IsListing(storage.db, from.peerId, answer.services)
    {
      var services := storage.ListEdgeServices(from.peerId, fault);
      if services.Err? {
        from.Send(ListFailed);
        return;
      }
      from.Send(ServiceList(services.value));
    }
  }

  /** After a reconnect batch every local service shows up in the list the edge is sent. */
  lemma ListedAfterReconnect(store: Store, edge: string, local: seq<EdgeService>, clock: nat -> Stamp,
                             list: seq<EdgeService>, i: nat)
    requires Keyed(store) && Sendable(store, edge, local) && i < |local|
    requires IsListing(SyncAll(store, edge, AsEntries(local), clock).store, edge, list)
    ensures exists k :: 0 <= k < |list| && SameService(list[k], local[i].(edgeId := edge))
  {
    ReconnectConverges(store, edge, local, clock, i);
    var after := SyncAll(store, edge, AsEntries(local), clock).store;
    var k :| 0 <= k < |list| && list[k] == after[local[i].id];
  }
}
