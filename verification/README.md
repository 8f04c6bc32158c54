# Verification of the signaling and TURN server

A Dafny model of the server's protocols and data paths, with proofs of what they keep.  Source paths
below are relative to the repository root.

| file | models |
| --- | --- |
| `Lifecycle.dfy`, `Phases.dfy`, `Agreement.dfy`, `Overlap.dfy`, `LostLock.dfy` | WebSocket handlers, the peer registry and the stale sweep as a step system at lock granularity; runs without and with overlapping handlers of one id, and runs in which s.mu is lost |
| `Registry.dfy`, `SignalingServer.dfy` | the registry and server objects; the methods on peers and connections are one critical section each and take the step of `Lifecycle` of that name, those of the rendezvous change tables and channels with the functions of `Rendezvous` |
| `Rendezvous.dfy`, `RendezvousExact.dfy`, `RendezvousEnds.dfy`, `RendezvousAnswers.dfy` | REST connect requests waiting for an edge's answer on one-slot channels, panics and a lost lock included |
| `Services.dfy`, `ServiceSync.dfy`, `ServiceRuns.dfy`, `ServiceHandlers.dfy` | service records, single and batch sync, the keyed store, whole runs, and the handlers themselves |
| `TurnAuth.dfy`, `SecretRotation.dfy` | TURN REST credentials, the acceptance window, and secret rotation under a lock |
| `Base64.dfy`, `ApiKey.dfy` | base64 with the Go decoder's tolerance, API keys, stored hashes, the bearer-token check |
| `Text.dfy`, `Wrappers.dfy` | splitting, decimal integers, option and result types |

`dafny verify dfyconfig.toml` checks everything.

## Conventions

* Step systems have `Enabled` and `Apply`; a run is a sequence of states and actions.  "In every run"
  means every interleaving, of any length and any number of handlers, requests or edges.
* A Go string is a sequence of bytes: each Dafny `char` stands for one byte.
* HMAC-SHA256, the long-term-credential key and Argon2id are arbitrary functions (parameters `Crypto`
  and `Kdf`); random bytes, clock readings and storage failures are inputs.  Constant-time comparison
  is equality.
* Go's `chan` of capacity one is a buffer with an `open` flag.  Panics do not end a run.  In REST
  handlers they are recovered (`internal/api/server.go:47`) and answered with a 500: a nil received from
  a closed channel sends the request to its cleanup, and a close of a missing channel panics while s.mu
  is locked, which leaves it locked (`muHeld`).  A send into a closed channel ends the read loop of its
  edge's handler, whose own cleanup then follows; that the WebSocket package recovers this panic is
  assumed, and the package is not part of this model.

## What the proofs found

* **Registry and connections.**  Even when no two handlers of one id overlap, the two maps can disagree
  until a handler ends: a sweep may collect and finish with a peer between its `AddPeer` and its install, and the
  late install then is connected but not registered (`LateInstallIsNeverRegistered`).
  `AgreementExactlyWhen` shows this is the only way, and `PromptInstallsAgree` that installing within the
  session timeout rules it out.  `Agree` speaks of the ids that are in the maps: an id that a pending
  sweep collected need not be connected, and one that is waiting to install need not be registered
  (`CollectedWhileJoining`, `CollectedAndGone`).
* **Overlapping handlers.**  Cleanup is by id, so an older handler's takes the entry and the registration
  of a live connection of the same id (`OldCleanupEvicts`).  A connection that is not cancelled is in the
  table exactly when no other handler's cleanup deleted its entry (`CurrentExactlyWhen`), and its peer is
  registered exactly when no sweep, and no other handler of the id, took it away
  (`RegisteredExactlyWhen`).  One reconnect can lose it from both maps, or from the connections alone
  (`OverlapLosesLiveConnection`, `OverlapSplitsTheMaps`).  `ExcusedExactlyWhen` says for every run which
  steps the agreement of the maps hangs on.
* **Old secrets.**  The comment at `internal/turn/auth.go:111` says current and old secrets are tried.
  The loop answers with the first non-empty secret, so with a current secret set the old ones have no
  influence (`OldSecretsUnused`), and a credential survives a rotation exactly when its issuer's secret
  is the first non-empty one (`RotationKeepsExactly`).
* **Reconnect batches** only add and update.  The server's view of an edge equals the edge's list
  afterwards exactly when the server held nothing that the edge has dropped (`ReconnectExactlyWhen`,
  `DroppedServiceStays`).
* **Rendezvous.**  Exactly-once fails when two overlapping requests share an edge connection and a client
  id, and only then (`ExactlyOnceExactlyWhen`): one request's cleanup closes the other's channel, and a
  later cleanup finds nothing to close and panics with s.mu locked.  Once all requests of a run have
  returned, s.mu is lost exactly when a collision occurred (`LockLostExactlyWhen`), and then nobody
  registers or cleans up again (`LockStaysLost`); `CollisionLosesTheLock` is such a run.  Apart from that, an edge's read loop dies exactly when
  a cleanup closed a channel between a response's lookup and its send (`ReadLoopDiesExactlyWhen`), which
  needs no collision (`CloseUnderDeliveryKills`).  No channel is ever closed twice (`InvRun`).
* **A lost lock.**  When s.mu is lost the connections freeze while the registry goes on: peers register
  without being connected, leave while staying connected, and at most one more sweep collects anything
  (`ConnectionsFreeze`, `OneSweepAtMost`, `RegistersForNothing`, `LeavesAndStays`).
* **Success acknowledgements** need not show in the table: an update that rewrites a record with the
  same fields at the same clock reading succeeds and changes nothing (`SuccessShows`, `SuccessHides`).

## Model

| member | source | states |
|---|---|---|
| Lifecycle.InvStep | internal/signaling/server.go:179-215 | every step keeps: an entry names an installed handler of that id; a handler that began its cleanup is cancelled, and closed once past the close |
| Lifecycle.EntryIsNewest | internal/signaling/server.go:181-215 | in every run the entry of an id is absent or the most recently installed connection |
| Lifecycle.InstalledAccountedFor | internal/signaling/server.go:181-215 | in every run each installed connection is current, or cancelled, or lost its entry to another same-id handler's deferred cleanup |
| Lifecycle.DisplacedIsShut | internal/signaling/server.go:183-195 | a connection displaced by an install is cancelled and closed at every later state |
| Lifecycle.ShutExactlyWhen | internal/signaling/server.go:89-215 | in every run a connection is cancelled iff its read loop ended, a ping failed, another was installed over it, a sweep deleted its entry or the stop found it current; closed iff its cleanup closed it, another was installed over it or the stop found it current |
| Lifecycle.StopShutsEverybody | internal/signaling/server.go:89-99 | stopping leaves every current connection cancelled and closed for good and the entries in place |
| Lifecycle.SweepDeletesCollected | internal/signaling/server.go:581-591 | a sweep's second half deletes exactly the entries of the ids it collected and closes nobody |
| Phases.RankTold | internal/signaling/server.go:179-215 | in every run a handler has come exactly as far as the last of its steps that was taken |
| Phases.NextTold | internal/signaling/server.go:179-236 | which steps can come next: a handler's own once and in order, pongs while it reads, its monitor's cancel from the install on, collecting and deleting in turn, the stop's shutdown only after the stop |
| Agreement.AgreementExactlyWhen | internal/signaling/server.go:577-591 | without overlapping lifetimes, registry and connections agree up to handlers and sweeps in mid-step at every state iff no install comes after a sweep removed its peer and moved on |
| Agreement.PromptInstallsAgree | internal/signaling/server.go:180-196 | if every handler installs within the session timeout of its AddPeer the maps always agree, and their key sets are equal when nobody is mid-step |
| Agreement.LateInstallIsNeverRegistered | internal/signaling/server.go:180-196 | a concrete non-overlapping run that ends quiet with an id connected but not registered |
| Agreement.CollectedWhileJoining | internal/signaling/server.go:577-591 | a run without overlap or late install in which an id waiting to install is collected: neither registered nor connected |
| Agreement.CollectedAndGone | internal/signaling/server.go:577-591 | such a run in which a collected id's own handler deletes the entry before the sweep does |
| Overlap.CurrentExactlyWhen | internal/signaling/server.go:181-215 | in every run an installed, uncancelled connection is its id's entry iff no other handler's deferred cleanup deleted it |
| Overlap.RegisteredExactlyWhen | internal/registry/registry.go:23-55 | in every run a handler's peer is registered, until it removes it, iff no sweep collected it and no other handler of the id replaced or removed it |
| Overlap.OldCleanupEvicts | internal/signaling/server.go:207-215 | however the steps interleave, an older handler's RemovePeer and delete leave a successor that was added before the one and installed before the other unregistered and unconnected ever after |
| Overlap.ExcusedExactlyWhen | internal/signaling/server.go:179-215 | in every run, overlapping or not, ids are in one map only while somebody is between two steps, at every state, iff every install finds its id registered, leaving or collected and every delete of an entry finds its id unregistered or about to be installed |
| Overlap.QuietExcused | internal/signaling/server.go:179-215 | when nobody is between two steps that means that the two maps hold the same ids |
| Overlap.OverlapLosesLiveConnection | internal/signaling/server.go:207-215 | one reconnect under the same id can end with nobody in mid-step and a live connection in neither map |
| Overlap.OverlapSplitsTheMaps | internal/signaling/server.go:179-215 | it can also end with nobody in mid-step and the id registered but not connected |
| LostLock.ConnectionsFreeze | internal/signaling/server.go:181-215 | once no step gets s.mu any more the entries stay as they are, nobody installs or finishes, and a sweep that has collected stays pending |
| LostLock.OneSweepAtMost | internal/signaling/server.go:568-591 | after such a loss a sweep that collects a peer is the last sweep |
| LostLock.RegistersForNothing | internal/signaling/server.go:179-180 | an id that is not connected can still register, without getting connected |
| LostLock.LeavesAndStays | internal/signaling/server.go:207-215 | a connected handler can still close and unregister, and its entry stays |
| Agreement.BoundedStaleness | internal/signaling/server.go:568-591 | if at every point the last sweep, or the start, is at most half a session timeout ago, no registered peer was last heard of more than 1.5 session timeouts ago |
| Agreement.RefreshedNeverSwept | internal/registry/registry.go:85-120 | a registered peer whose id had a pong or an AddPeer at most one timeout ago, at every point, stays registered until a handler of its id removes it |
| Registry.PeerRegistry.AddPeer | internal/registry/registry.go:23-35 | files the peer under its id with the current ping, marks it connected, sets a missing creation time; nothing else changes |
| Registry.PeerRegistry.RemovePeer | internal/registry/registry.go:46-55 | removes exactly that id and marks its peer disconnected |
| Registry.PeerRegistry.UpdateLastPing | internal/registry/registry.go:85-93 | refreshes exactly that id's peer if it is registered |
| Registry.PeerRegistry.GetPeersByType | internal/registry/registry.go:70-83 | returns each registered peer of the type exactly once |
| Registry.PeerRegistry.CleanupStale | internal/registry/registry.go:103-120 | splits the registry into kept (age within timeout) and removed (older), each removed id once and disconnected, sizes adding up |
| SignalingServer.Server.Install | internal/signaling/server.go:181-196 | cancels and closes the connection it displaces and becomes the current entry |
| SignalingServer.Server.Delete | internal/signaling/server.go:211-213 | deletes by id whatever connection is there |
| SignalingServer.Server.DeleteSwept | internal/signaling/server.go:581-591 | cancels and deletes the current connections of exactly the removed ids, without closing them |
| SignalingServer.Server.CloseAll | internal/signaling/server.go:89-99 | cancels and closes every current connection and keeps the entries |
| SignalingServer.Server.ForwardMessage | internal/signaling/server.go:323-346 | a forwarded message is sent to the current connection of its recipient and to nobody else; an unknown recipient or a failed write drops it |
| SignalingServer.Server.Register | internal/signaling/server.go:463-490 | the error cases in order, else a fresh channel filed under the client id in the captured edge's table only |
| SignalingServer.Server.HandleAPIConnectResponse | internal/signaling/server.go:377-397 | nobody waits, delivered into an empty channel, timed out on a full one or panicked on a closed one; no other channel changes |
| SignalingServer.Server.CleanUpRequest | internal/signaling/server.go:492-500 | closes the channel filed under the id and deletes that entry; with nothing to close it panics, changes nothing and leaves s.mu locked |
| Rendezvous.InvRun | internal/signaling/server.go:469-525 | in every run, panics included, entries lead to open channels of unfinished requests of the right edge and client, deliveries to channels of the right edge and client, channels hold at most one message and none is closed twice |
| RendezvousExact.AnswerIsOurs | internal/signaling/server.go:385-392 | in every run, duplicate ids and panics included, an answer is the first message its channel accepted, is addressed to the client and was sent by the captured edge connection |
| RendezvousAnswers.OutcomeExactlyWhen | internal/signaling/server.go:502-525 | in every run a request is answered with msg iff it read its channel when msg was the first message accepted there, timed out iff it gave up its wait, failed iff its question could not be sent, and got a nil iff it read a closed channel that never accepted anything |
| RendezvousAnswers.ReceiveAnswers | internal/signaling/server.go:512-519 | a request that reads its channel after it accepted a message is answered with the first one for good, status 200 once done |
| RendezvousAnswers.StatusExactlyWhen | internal/signaling/server.go:502-525 | a finished request was answered 408 iff it timed out, 500 iff its question could not be sent or it got a nil, 200 iff it read an accepted message |
| RendezvousAnswers.OfferAppends | internal/signaling/server.go:385-388 | a send into an open channel puts exactly the message read and its connection behind those accepted; into a closed one it ends the read loop |
| RendezvousAnswers.LookUpFinds | internal/signaling/server.go:377-397 | without collisions a response is on its way to exactly the unfinished request for its addressee on that connection |
| RendezvousAnswers.ResponseReachesRequest | internal/signaling/server.go:377-519 | from end to end: a response read on the request's connection and sent first into its channel is what the request is answered with, status 200 |
| RendezvousAnswers.RegisteredAs | internal/signaling/server.go:469-490 | a request keeps the connection and client it was registered with, and starts undecided with an empty channel |
| RendezvousAnswers.TakesPart | internal/signaling/server.go:469-490 | requests are filed on connections that came online and did not go, responses read on connections whose read loop has not ended |
| RendezvousAnswers.RequestNext | internal/signaling/server.go:502-525 | which of its own steps a request can take at any point of any run |
| RendezvousAnswers.EdgeNext | internal/signaling/server.go:377-397 | which steps an edge connection can take; a delivery can go out iff the channel is closed or all it accepted was read |
| RendezvousAnswers.AnswersInFull | internal/signaling/server.go:469-519 | a whole exchange, for every edge and message: the run ends with the request answered with that message, status 200 |
| RendezvousExact.OutcomeIsFinal | internal/signaling/server.go:502-525 | in every run a request's outcome and the one status it is answered with never change once there, and it never goes back |
| RendezvousExact.ExactlyOnceExactlyWhen | internal/signaling/server.go:469-525 | at any point of any run the tables hold exactly the unfinished requests with their own open channels, finished ones were closed once, nobody was handed a nil and s.mu is free of a panicked cleanup iff no overlapping requests shared a key |
| RendezvousExact.LockLostExactlyWhen | internal/signaling/server.go:487-500 | when all requests of a run have returned, a cleanup has panicked under s.mu iff two overlapping requests shared a key |
| RendezvousEnds.CollisionLosesTheLock | internal/signaling/server.go:487-500 | a run of two overlapping requests with one key in which both return and s.mu is lost |
| RendezvousExact.ReadLoopDiesExactlyWhen | internal/signaling/server.go:385-388 | with no delivery under way, some edge's read loop has died of a panic iff a cleanup closed a channel between a lookup and its send |
| RendezvousEnds.CloseUnderDeliveryKills | internal/signaling/server.go:385-388 | a run of one request, without a collision, in which its cleanup comes between a lookup and its send and the edge's read loop dies |
| RendezvousExact.DoneMeansGone | internal/signaling/server.go:492-525 | in runs without collisions a finished request has no entry, its channel was closed exactly once, and it was answered 200 with a message to its client, 500 for a failed send or 408 |
| RendezvousEnds.StepsCount | internal/signaling/server.go:502-525 | no step takes a request back and each of its own brings it nearer its end |
| RendezvousEnds.OwnStepsReturn | internal/signaling/server.go:492-525 | in every run, whatever the others do, a request takes at most three steps of its own and has returned when it has taken those left to it |
| RendezvousEnds.BlockedExactlyWhen | internal/signaling/server.go:492-525 | an unfinished request has no step of its own to take iff it is at its cleanup and s.mu is lost |
| RendezvousEnds.ReturnsExactlyOnce | internal/signaling/server.go:492-525 | in every run without collisions a request is never blocked, and when it has returned it had one of the three statuses, its channel was closed once and its entry is gone |
| RendezvousEnds.CanEnd | internal/signaling/server.go:492-525 | from any point of any run with s.mu not lost an unfinished request can return within four more steps that respect both hypotheses |
| RendezvousEnds.EndsExactlyOnce | internal/signaling/server.go:492-525 | after a run without collisions it can so return with one of the three statuses, its channel closed once and its entry gone, whether its edge is connected or not |
| RendezvousEnds.LockStaysLost | internal/signaling/server.go:492-500 | after a cleanup that panicked nobody registers, cleans up, comes or goes any more and unfinished requests stay unfinished |
| RendezvousEnds.CanEndExactlyWhen | internal/signaling/server.go:492-525 | an unfinished request can still return iff s.mu is not lost |
| Services.Validate | internal/signaling/validation.go:13-63 | accepts a record iff id has 1 to 8 bytes, edge id and host are not empty, the name has 1 to 128 bytes from a-z A-Z 0-9 space _ -, both ports are 1 to 65535 and the protocol is http or websocket |
| Services.FirstFault | internal/signaling/validation.go:13-63 | the error reported is the first of the ten checks, in order, that the record fails |
| ServiceSync.SingleSyncExactly | internal/signaling/service_handlers.go:21-99 | whatever storage calls fail: success iff the operation applied, with the intended record and no other change; error iff not, with the table unchanged |
| ServiceSync.AckTells | internal/signaling/service_handlers.go:21-99 | the acknowledgement names the service it answers, repeats its id as server id iff it succeeded or did not validate, and gives the reason that applied |
| ServiceSync.SuccessShows | internal/signaling/service_handlers.go:264-294 | the table is unchanged iff the ack is an error or an update rewrote what was there |
| ServiceSync.SuccessHides | internal/signaling/service_handlers.go:264-294 | the same update twice at one clock reading succeeds the second time and changes nothing |
| ServiceSync.LastWriterWins | internal/signaling/service_handlers.go:138-202 | whatever storage calls fail, the batch loop equals the declarative result: the last entry that could update, on the original creation time or that of the first entry that could create, foreign records untouched |
| ServiceSync.LastEntryWins | internal/signaling/service_handlers.go:138-202 | when none fails that is the last valid entry |
| ServiceSync.BatchFrame | internal/signaling/service_handlers.go:141-202 | whatever storage calls fail, records of other edges and of ids no valid entry names are untouched and no key disappears |
| ServiceSync.SyncedCount | internal/signaling/service_handlers.go:139-202 | whatever storage calls fail, the success count is the number of valid entries of ids no other edge owned that could update the record there was by then, or create it if there was none |
| ServiceSync.AcceptedCount | internal/signaling/service_handlers.go:139-202 | when none fails it is the number of valid entries whose id no other edge owned before the batch |
| ServiceSync.BatchAccounting | internal/signaling/service_handlers.go:139-202 | successes and failures add up to the entries, whatever storage calls fail |
| ServiceSync.FallbackNeverOverwrites | internal/signaling/service_handlers.go:183-200 | an existing record changes only by a successful update of its own edge, which keeps edge and creation time; a failed entry changes nothing |
| ServiceSync.BatchIdempotent | internal/signaling/service_handlers.go:138-202 | the same batch again changes only update times and succeeds as often |
| ServiceSync.BatchOrderIndependent | internal/signaling/service_handlers.go:138-202 | with distinct ids any permutation gives the same table up to timestamps |
| ServiceSync.SuccessCountStable | internal/signaling/service_handlers.go:138-202 | any permutation gives the same success count |
| ServiceSync.ReconnectConverges | internal/signaling/service_handlers.go:102-218 | from any table one batch of the local list makes the server hold each listed service, under the sending edge |
| ServiceSync.ReconnectExactlyWhen | internal/signaling/service_handlers.go:102-218 | the edge's services on the server are exactly the local ones iff it held none the edge has dropped |
| ServiceSync.DroppedServiceStays | internal/signaling/service_handlers.go:102-218 | a service of the edge that its list no longer has stays as it was |
| ServiceRuns.BatchReplyExactly | internal/signaling/service_handlers.go:102-218 | whatever storage calls fail, up to 1000 entries are answered with the number that succeeded, more with an error and an unchanged table |
| ServiceRuns.UnfailingReply | internal/signaling/service_handlers.go:139-217 | when none fails that is the number of valid entries whose id no other edge owned |
| ServiceRuns.StepKeeps | internal/signaling/service_handlers.go:48-99 | every handler keeps records valid, under their own id, created before updated, with edge and creation time fixed |
| ServiceRuns.RecordsAlwaysOk | internal/signaling/validation.go:13-63 | at every point of every run each record satisfies the field rules of validation, is keyed by its id and has CreatedAt <= UpdatedAt |
| ServiceRuns.IdentityUntilDeleted | internal/signaling/service_handlers.go:264-294 | from creation to deletion a record keeps its edge and its creation time |
| ServiceRuns.OnlyDeletesRemove | internal/api/handlers.go:134-143 | only a single delete or a REST delete that names a record makes it disappear |
| ServiceRuns.RestDeleteExactly | internal/api/handlers.go:134-143 | a REST delete removes exactly the record it names, or nothing when the storage call fails |
| ServiceRuns.ReconnectAfterAnyRun | internal/signaling/service_handlers.go:126-217 | after any run a batch within the size limit is answered with the number sent and leaves every listed service on the server |
| ServiceHandlers.ServiceStorage.CreateEdgeService | internal/storage/sqlite.go:57-63 | inserts or reports a primary-key conflict or a failure, unchanged then |
| ServiceHandlers.ServiceStorage.DeleteEdgeService | internal/storage/sqlite.go:73-86 | deletes exactly that id, or reports not found or a failure |
| ServiceHandlers.ServiceStorage.GetEdgeService | internal/storage/sqlite.go:88-101 | returns the record under the id, not found, or a failure |
| ServiceHandlers.ServiceStorage.ListEdgeServices | internal/storage/sqlite.go:103-115 | the edge's records, each once, newest first |
| ServiceHandlers.ServiceServer.Update | internal/signaling/service_handlers.go:264-294 | ownership check, then the loaded record with the synced fields overwritten |
| ServiceHandlers.ServiceServer.HandleServiceSync | internal/signaling/service_handlers.go:21-99 | exactly one acknowledgement, and table and acknowledgement as SyncOne says |
| ServiceHandlers.ServiceServer.HandleServiceSyncBatch | internal/signaling/service_handlers.go:102-218 | exactly one answer, and table and answer as SyncBatch says |
| ServiceHandlers.ServiceServer.HandleServiceListRequest | internal/signaling/service_handlers.go:220-243 | sends the requesting edge its own services, or the error |
| ServiceHandlers.ListedAfterReconnect | internal/signaling/service_handlers.go:220-243 | after a reconnect batch every local service is in the list the edge is sent |
| TurnAuth.ParseInvertsUsername | internal/turn/auth.go:67-89 | parsing a printed username gives the printed triple if type and id are colon-free and is rejected otherwise |
| TurnAuth.UsernameInjective | internal/api/handlers.go:191-204 | colon-free triples with the same username are equal |
| TurnAuth.WindowExactly | internal/turn/auth.go:91-109 | the two time checks leave exactly the expiries not before the first reading and at most 172800 seconds after the second, although a far expiry wraps around inside time.Time |
| TurnAuth.AcceptanceWindow | internal/turn/auth.go:60-146 | an issued credential is answered, with its holder's key, iff it is colon-free and inside the window |
| TurnAuth.IssuesExactly | internal/api/handlers.go:34-57 | credentials iff the type is edge or client and the id is not empty, a missing-field error iff one is empty, else a type error; username is type:id:expiry with expiry the clock plus the ttl, or the configured one for zero |
| TurnAuth.EndpointCredentials | internal/api/handlers.go:34-51 | every such request is answered, and whether the credential is accepted depends on the peer id and the window only |
| TurnAuth.PasswordForm | internal/api/handlers.go:198-201 | a password is the base64 text of the HMAC of the username, padded with '=' to a multiple of four characters |
| TurnAuth.WholeLifetime | internal/turn/auth.go:91-141 | a credential with a ttl of 1 to 172800 seconds is answered with its holder's key from issue to expiry and not after |
| TurnAuth.LongLivedOnlyAtTheEnd | internal/turn/auth.go:91-141 | one with a longer ttl is refused at issue and answered only in the last 172800 seconds before its expiry |
| TurnAuth.NeverAgain | internal/turn/auth.go:91-99 | once refused as expired, refused at every later reading |
| TurnAuth.FirstNonEmptyIsFirst | internal/turn/auth.go:117-141 | the secret chosen is the first non-empty one in current followed by old |
| TurnAuth.RotationKeepsExactly | internal/turn/auth.go:111-141 | unless HMACs or keys collide, a credential works under a pair of secrets iff its issuer's is the first non-empty one |
| TurnAuth.OldSecretsUnused | internal/turn/auth.go:111-141 | with a non-empty current secret the old ones have no influence |
| TurnAuth.AuthHandler.RestAuth | internal/turn/auth.go:60-147 | the parse, the two checks and the loop over the secrets answer as RestDecision |
| TurnAuth.AuthHandler.AuthenticateRequest | internal/turn/auth.go:45-55 | the answer by mode: rest, static, or none |
| TurnAuth.AuthHandler.StaticAuth | internal/turn/auth.go:150-171 | a key iff the user is configured, derived from its password |
| TurnAuth.AuthHandler.UpdateSecrets | internal/turn/auth.go:174-183 | replaces all three fields |
| SecretRotation.AnswersFromOneUpdate | internal/turn/auth.go:111-146 | in every interleaving of single memory accesses an authentication past its checks decides with the pair of one update or the constructor, the last completed when the read lock was taken |
| SecretRotation.AnswersWithLastUpdate | internal/turn/auth.go:111-146 | so it answers with the key under the first non-empty secret of that pair and fails iff all are empty |
| SecretRotation.LocksExactly | internal/turn/auth.go:111-178 | an update gets the lock iff nobody holds it, an authentication iff no update does |
| SecretRotation.UpdateCompletes | internal/turn/auth.go:174-183 | when an update releases the lock its pair is in memory and the last one completed |
| SecretRotation.UpdatesGoThrough | internal/turn/auth.go:174-183 | from any point with the lock free any update can be made |
| SecretRotation.AnswersGoThrough | internal/turn/auth.go:111-146 | an authentication that starts then can come to its answer, which is decided on the pair in memory |
| Base64.LetterPlaces | internal/apikey/apikey.go:37 | a 6-bit value is written as the letter at its place in the tables of RFC 4648, sections 4 and 5 |
| Base64.PackKeepsBits | internal/apikey/apikey.go:37 | encoding keeps the bits in order and fills the last letter up with zeros |
| Base64.UnpackKeepsBits | internal/apikey/apikey.go:92-102 | decoding keeps the bits in order and drops at most the last four, whatever they are |
| Base64.DecodableExactly | internal/apikey/apikey.go:92-102 | a text decodes iff apart from CR and LF it has letters only and their number is not one above a multiple of four |
| Base64.StripOne | internal/apikey/apikey.go:126-130 | the decoder skips CR and LF and no other byte |
| Base64.DecodeEncode | internal/apikey/apikey.go:30-60 | decoding an encoding gives back every byte string |
| Base64.EncodeDecode | internal/apikey/apikey.go:92-102 | re-encoding what was decoded reproduces the text iff it has nothing to skip and no stray trailing bits |
| Base64.SkippedUnnoticed | internal/apikey/apikey.go:125-130 | a CR or LF inserted anywhere does not change what is decoded |
| Base64.EncodeLength | internal/apikey/apikey.go:118-120 | n bytes encode to ceil(8n/6) characters |
| Base64.DecodeLength | internal/apikey/apikey.go:125-133 | which texts decode, and to how many bytes |
| ApiKey.FormatLanguage | internal/apikey/apikey.go:108-134 | ValidateFormat accepts exactly "arq_" and 43 base64url letters |
| ApiKey.GeneratedKeyWellFormed | internal/apikey/apikey.go:30-41 | every generated key is well formed and decodes to its random bytes |
| ApiKey.GeneratedKeysAreCanonical | internal/apikey/apikey.go:108-134 | a well-formed key is one Generate can return iff its last letter has no stray bits |
| ApiKey.ParseHash | internal/apikey/apikey.go:78-105 | the scan for the first ':' and the two decodes, with their errors |
| ApiKey.ParseExactly | internal/apikey/apikey.go:78-105 | a text with no ':' is refused; else both sides of the first ':' must decode and give salt and digest, with the error of the first that does not |
| ApiKey.ParseInvertsHash | internal/apikey/apikey.go:45-60 | a printed hash parses back to the salt and digest printed; its ':' is the only one |
| ApiKey.ValidateAgainstHashOf | internal/apikey/apikey.go:63-75 | a key validates against another's hash iff the digests coincide |
| ApiKey.GenerateWithHash | internal/apikey/apikey.go:137-149 | succeeds iff both random reads do; the key is "arq_" and the base64url text of the random bytes, the hash the base64 texts of salt and digest around ':', and the key validates against it |
| Middleware.PassesExactly | internal/middleware/auth.go:36-65 | a header passes iff it is "Bearer " and a well-formed key whose digest under the stored salt is the stored one |
| Middleware.RefusedExactly | internal/middleware/auth.go:36-65 | which of the four refusals a header meets |
| Middleware.IssuedKeyPasses | internal/middleware/auth.go:36-65 | every issued key passes against the hash it was issued with |
| Text.SplitExactly | internal/turn/auth.go:68 | the split is the one cut into at most n parts that joins back to the text, with a separator only in the last of n parts |
| Text.ParsePrintInt | internal/turn/auth.go:82 | printing an int64 in decimal and parsing it back is the identity |
| Text.WrapsByMultiples | internal/api/handlers.go:193 | a 64-bit sum differs from the true one by a multiple of 2 to the 64th |
| Text.ParseIntExactly | internal/turn/auth.go:82 | ParseInt reads an optional sign and decimal digits whose value fits in 64 bits |
| Text.DigitMore | internal/turn/auth.go:82 | one more digit makes ten times the number plus the digit |
| Text.NoLeadingZero | internal/api/handlers.go:196 | a positive number is printed without a leading zero |
| Text.MinusWhenNegative | internal/api/handlers.go:196 | a minus sign is printed in front of negative numbers only |

## Left out

- SignalingServer.Server.HandleAPIConnectResponse: nothing comes between lookup and send here, and a full channel is given up at once instead of after a second's wait; the two separate steps, the wait and the panic they allow are in Rendezvous.  The unlocked map read itself, which the Go runtime may also abort on, is not modelled.
- ServiceHandlers.ServiceServer.Update: the load and the save of one update are one atomic step; two handlers interleaving between them is not modelled.
- ServiceHandlers.ServiceStorage.ListEdgeServices: the order of services created at the same instant is left open, as the query leaves it.
- TurnAuth.WindowExactly: assumes a clock between 1970 and 48 hours before the end of the 64-bit range.
- RendezvousEnds.LockStaysLost and LostLock.ConnectionsFreeze: what a lost s.mu does is proved for the rendezvous and for the connections, in two step systems that share no state; that it also blocks forwarding is not modelled.
- Lifecycle.DisplacedIsShut and the other results on cancelled connections: stopping the server also cancels the parent of every handler's context, those that connect later included; `cancelled` holds only who was cancelled by name.
- Fiber routing, WebSocket reads and writes, deadlines, JSON decoding: a message arrives parsed or is one of the parse failures; a send is an append to a log.
- Goroutine scheduling fairness and real time: RendezvousEnds.ReturnsExactlyOnce shows that a request is never blocked and needs at most three steps of its own, not that the scheduler gives them to it.
- GORM and SQLite internals: a map with a primary key, not-found and failures without effect.
- handleEdgeRegistration, handleGetPeers, ICE server lists and peer-to-map conversion: single straight-line bodies.
- Pion relay and listeners, ACME, configuration, logging, command line and dashboard.
- MaxPeersPerRoom and handleRotateSecrets: no code gives them an effect.
