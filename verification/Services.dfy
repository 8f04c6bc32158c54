/** Service records, their validation, and the service table as a map with a primary key. */
module Services {
  import opened Wrappers

  /** Times are clock readings; only their order matters. */
  datatype EdgeService = EdgeService(
    id: string, edgeId: string, name: string, tunnelPort: int, localHost: string, localPort: int,
    protocol: string, enabled: bool, createdAt: int, updatedAt: int)

  // ---------- validation ----------

  datatype Invalid =
    | IdMissing | IdTooLong | EdgeIdMissing | NameMissing | NameTooLong | NameBadCharacter
    | LocalHostMissing | BadTunnelPort | BadLocalPort | BadProtocol

  predicate NameCharacter(c: char) {
    'a' <= c <= 'z' || 'A' <= c <= 'Z' || '0' <= c <= '9' || c == ' ' || c == '_' || c == '-'
  }

  /** The records the server stores. */
  predicate WellFormed(s: EdgeService) {
    && 1 <= |s.id| <= 8
    && s.edgeId != ""
    && 1 <= |s.name| <= 128
    && (forall c | c in s.name ::
          'a' <= c <= 'z' || 'A' <= c <= 'Z' || '0' <= c <= '9' || c == ' ' || c == '_' || c == '-')
    && s.localHost != ""
    && 1 <= s.tunnelPort <= 65535 && 1 <= s.localPort <= 65535
    && (s.protocol == "http" || s.protocol == "websocket")
  }

  function Validate(s: EdgeService): (r: Option<Invalid>)
    ensures r.None? <==> WellFormed(s)
  {
    if s.id == "" then Some(IdMissing)
    else if |s.id| > 8 then Some(IdTooLong)
    else if s.edgeId == "" then Some(EdgeIdMissing)
    else if s.name == "" then Some(NameMissing)
    else if |s.name| > 128 then Some(NameTooLong)
    else if !(forall c | c in s.name :: NameCharacter(c)) then Some(NameBadCharacter)
    else if s.localHost == "" then Some(LocalHostMissing)
    else if s.tunnelPort < 1 || s.tunnelPort > 65535 then Some(BadTunnelPort)
    else if s.localPort < 1 || s.localPort > 65535 then Some(BadLocalPort)
    else if s.protocol != "http" && s.protocol != "websocket" then Some(BadProtocol)
    else None
  }

  /** The faults in the order they are looked for. */
  const CHECKED := [IdMissing, IdTooLong, EdgeIdMissing, NameMissing, NameTooLong, NameBadCharacter,
                    LocalHostMissing, BadTunnelPort, BadLocalPort, BadProtocol]

  predicate Has(s: EdgeService, fault: Invalid) {
    match fault
    case IdMissing => |s.id| == 0
    case IdTooLong => |s.id| >= 9
    case EdgeIdMissing => |s.edgeId| == 0
    case NameMissing => |s.name| == 0
    case NameTooLong => |s.name| >= 129
    case NameBadCharacter =>
      exists c | c in s.name ::
        !('a' <= c <= 'z' || 'A' <= c <= 'Z' || '0' <= c <= '9' || c == ' ' || c == '_' || c == '-')
    case LocalHostMissing => |s.localHost| == 0
    case BadTunnelPort => s.tunnelPort <= 0 || s.tunnelPort >= 65536
    case BadLocalPort => s.localPort <= 0 || s.localPort >= 65536
    case BadProtocol => s.protocol !in {"http", "websocket"}
  }

  /** The fault reported is the first the record has. */
  lemma FirstFault(s: EdgeService, i: nat)
    requires i < 10
    ensures |CHECKED| == 10
    ensures Validate(s) == Some(CHECKED[i]) <==> Has(s, CHECKED[i]) && forall j | 0 <= j < i :: !Has(s, CHECKED[j])
  {
    assert Has(s, NameBadCharacter) <==> exists c | c in s.name :: !NameCharacter(c);
    assert CHECKED[0] == IdMissing && CHECKED[1] == IdTooLong && CHECKED[2] == EdgeIdMissing;
    assert CHECKED[3] == NameMissing && CHECKED[4] == NameTooLong && CHECKED[5] == NameBadCharacter;
    assert CHECKED[6] == LocalHostMissing && CHECKED[7] == BadTunnelPort && CHECKED[8] == BadLocalPort;
    assert CHECKED[9] == BadProtocol;
  }

  // ---------- the table ----------

  type Store = map<string, EdgeService>

  /** Every record is stored under its own primary key. */
  predicate Keyed(store: Store) { forall id | id in store :: store[id].id == id }

  function Lookup(store: Store, id: string): Option<EdgeService> {
    if id in store then Some(store[id]) else None
  }

  datatype SyncError =
    | BadMessage | BadService | Unparseable | Rejected(why: Invalid) | BadOperation
    | NotFound | OtherEdge | Conflict | StorageFailure

  /** Which storage calls report a failure of their own, without any effect. */
  datatype Faults = Faults(get: bool, save: bool, insert: bool, remove: bool)

  const NO_FAULTS := Faults(false, false, false, false)

  /** The readings taken of the clock: by updateService, then by createService, twice. */
  datatype Stamp = Stamp(updated: int, created: int, createdUpdated: int)

  datatype Effect = Effect(store: Store, error: Option<SyncError>)

  function CreateService(store: Store, s: EdgeService, stamp: Stamp, faults: Faults): Effect {
    if faults.insert then Effect(store, Some(StorageFailure))
    else if s.id in store then Effect(store, Some(Conflict))
    else Effect(store[s.id := s.(createdAt := stamp.created, updatedAt := stamp.createdUpdated)], None)
  }

  /** The loaded record with the fields a sync may change overwritten. */
  function Overwrite(existing: EdgeService, s: EdgeService, now: int): EdgeService {
    existing.(name := s.name, tunnelPort := s.tunnelPort, localHost := s.localHost, localPort := s.localPort,
              protocol := s.protocol, enabled := s.enabled, updatedAt := now)
  }

  function UpdateService(store: Store, s: EdgeService, stamp: Stamp, faults: Faults): Effect {
    if faults.get then Effect(store, Some(StorageFailure))
    else if s.id !in store then Effect(store, Some(NotFound))
    else if store[s.id].edgeId != s.edgeId then Effect(store, Some(OtherEdge))
    else if faults.save then Effect(store, Some(StorageFailure))
    else Effect(store[s.id := Overwrite(store[s.id], s, stamp.updated)], None)
  }

  function DeleteService(store: Store, id: string, faults: Faults): Effect {
    if faults.remove then Effect(store, Some(StorageFailure))
    else if id !in store then Effect(store, Some(NotFound))
    else Effect(store - {id}, None)
  }

  // ---------- what records look like to an observer who ignores clocks ----------

  /** Equal but for the two timestamps. */
  predicate SameService(a: EdgeService, b: EdgeService) {
    a == b.(createdAt := a.createdAt, updatedAt := a.updatedAt)
  }

  predicate SameUpToTimes(a: Option<EdgeService>, b: Option<EdgeService>) {
    a.None? == b.None? && (a.Some? ==> SameService(a.value, b.value))
  }

  /** Equal but for the time of the last update. */
  predicate SameUpToUpdate(a: Option<EdgeService>, b: Option<EdgeService>) {
    a.None? == b.None? && (a.Some? ==> a.value == b.value.(updatedAt := a.value.updatedAt))
  }
}
