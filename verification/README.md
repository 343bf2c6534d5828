# Verified models of the pairing, credential and bridge core

This project models, in Dafny, the stateful core of a server that lets AI clients reach local
agents over a WebSocket bridge, and proves what that core is for:

- **Device credentials on the server.** The repository as compare-and-swap over generations
  (`DeviceCredential`), the per-device promise-chain mutex as a FIFO lock
  (`DeviceCredentialLifecycle`), the counters, leases and drains (`SessionGate`), and the runtime as
  a step system over unboundedly many handshakes and mutations (`ServerRuntime`,
  `ServerRuntimeInvariant`, `ServerRuntimeResults`, `ServerRuntimeLaws`): no session becomes ready
  on a generation that is being rotated or revoked, or for a secret that is not the active one.
- **Pairing completion and recovery.** The completion store as two maps and as one table
  (`CompletionStore`, `CompletionRepositories`), the service with a crash at any await and outside
  mutations at any step (`CompletionRecovery`), and what a resume achieves after a crash
  (`CompletionCrash`).
- **Pairing sessions and delivery.** Single-use codes (`PairingStore`), the channel and the client
  of the "store before acknowledging" protocol (`PairingChannel`, `PairingSessions`,
  `PairingClient`), the protocol end to end (`PairingDelivery`), the rate limiter (`PairingAbuseGuard`) and the session registry
  (`DeviceSessionRegistry`).
- **The agent.** The reconnect controller (`ReconnectDelay`, `LocalBridgeReconnect`), the bounded
  send queue (`BridgeSendQueue`), chunked UTF-8 reads (`Utf8`, `FilesystemRead`) and breadth-first
  listing (`FilesystemList`).

## How it is modelled

Code that runs across awaits is a step system: one atomic step per stretch of code between two
awaits, with total step functions. An event that is not possible leaves the state unchanged, so
every sequence of events is a run, and theorems are about all sequences. Objects that the source
updates in place are classes whose methods are proved equal to the functions that the step systems
and lemmas use. Event parameters carry what the code gets from outside: clock readings, generated
ids, socket readings, random numbers, and the outcome of an I/O call.

Assumptions:

- Generated ids (UUIDs) come from a supply of fresh names; secrets, proofs and digests are opaque,
  and a digest is an injective constructor applied to its secret.
- A repository operation reads the clock once. Clocks are non-decreasing only where a lemma says so.
- There is one server process, as the in-memory coordinator documents.
- The pairing client is the one in the repository. Other parties may connect and send anything but
  the channel proof, which they do not know.
- A native socket buffer grows only by the bytes sent through it; every look at it may find less.
- A device id is already canonical, so lower-casing it is the identity.
- In `FilesystemList` the tree is given after symlink and deny filtering of each entry, with
  children in listing order. In `FilesystemRead` the file does not change during one read.

## What the proofs show about the code

- `resumeClaimedPairing` calls the completion service outside the lifecycle operation when its
  device lookup returns null (apps/server/src/server-runtime.ts:540-548). If a claim lands between
  that lookup and the service's own, credential calls run without the device's lock and lease drain.
  They do evict the generation they replace, but only after the commit
  (apps/server/src/server-runtime.ts:415-436). The model has these calls as events `OutsideCommit`
  and `OutsideEvict` of every run. `AcknowledgementsAreActiveExactlyUnlessStruck` gives the exact
  condition: no rotation or revocation commits this way while a validated handshake of the device
  may still be acknowledged. `OutsideRotationMisleadsHandshake` is a run from the start that fails.
- Can such a call come to a rotation at all? Not as the first completion of its session: that one
  only issues (`FirstCompletionNeverRotates`), and an outside issue is harmless. While the first
  completion runs or has succeeded, the promise cache answers instead
  (apps/server/src/pairing-credential-completion.ts:585-586 and 633-634). The call rotates only if it
  resumes after that cache entry is gone: when the first completion failed after issuing (683-690;
  nobody holds that secret), or when `forgetPendingCompletion` dropped the entry and the record is
  still there, because the channel entry expired or was cancelled and the record's deletion follows
  an await later (618-626). After an acknowledgement the record is delivered and the call fails. So
  the failing run needs one call to stay between its two lookups from before the claim until the
  channel entry is removed.
- The rate limiter accepts up to `2 * limit - 1` calls of a key within a span shorter than its
  window, and this is exact (`SpanBound`, `SpanBoundIsReached`).
- The branch of the send queue for a full native buffer is dead
  (apps/agent/src/bridge-server-transport.ts:611-614): without a frame in flight the transport's own
  socket holds a hello at most. Its queue stops only when a poll finds the socket no longer open
  (`OpenQueueNeverStops`, `StopsOnlyWithTheSocket`, `NativeBufferIsNeverFull`).
- A resume after a crash also fails, with the credential untouched, when the clock is behind the
  credential it would rotate (`RotatingOutcome`, `CrashedPairingResumes`).
- The branch of a completion that discards its reservation is dead as long as generated ids are
  fresh (apps/server/src/pairing-credential-completion.ts:656-665, `NothingIsDiscarded`).
- A NUL byte makes a file binary only when it is among the first 8192 bytes of a chunk
  (`BinaryExactly`, `ReadSucceedsExactly`).
- Two more kinds of branches are dead: the mismatch branches of the session registry
  (apps/server/src/device-session-registry.ts:180-187 and 207-214), and the limiter's window reset
  after its own cleanup (apps/server/src/pairing-abuse-guard.ts:96-99).

## Model

| member | source | states |
|---|---|---|
| `DeviceCredential.InMemoryDeviceCredentialRepository.constructor` | apps/server/src/device-credential.ts:140-149 | the repository starts empty |
| `DeviceCredential.InMemoryDeviceCredentialRepository.Issue` | apps/server/src/device-credential.ts:151-191 | `issue`: refused while a credential is active or the id was used; otherwise the version continues the device's own |
| `DeviceCredential.InMemoryDeviceCredentialRepository.VerifyDigest` | apps/server/src/device-credential.ts:193-207 | `verify`: the active credential, if its digest is the presented one |
| `DeviceCredential.InMemoryDeviceCredentialRepository.Revoke` | apps/server/src/device-credential.ts:209-235 | `revoke` as compare-and-swap: null, error or new state for every input |
| `DeviceCredential.InMemoryDeviceCredentialRepository.Rotate` | apps/server/src/device-credential.ts:237-278 | `rotate` as compare-and-swap, with the order of its error cases |
| `DeviceCredential.ApplyKeepsValid` | apps/server/src/device-credential.ts:151-284 | every operation keeps: current ids used, and no id current for two devices |
| `DeviceCredential.RunKeepsValid` | apps/server/src/device-credential.ts:151-284 | the same over every sequence of operations |
| `DeviceCredential.RecordsOnlySucceed` | apps/server/src/device-credential.ts:151-278 | over any run a device's version never falls, and the record changes its id only together with a higher version |
| `DeviceCredential.CredentialIdsNeverReused` | apps/server/src/device-credential.ts:280-284 | an id that was ever used never becomes current again, for that or any other device |
| `DeviceCredential.UsedIdTracesBack` | apps/server/src/device-credential.ts:280-284 | a used id that is current later was that device's current id before |
| `DeviceCredential.NoAba` | apps/server/src/device-credential.ts:151-284 | the same active generation read twice means the record was unchanged at every state between |
| `DeviceCredential.RotateIsCompareAndSwap` | apps/server/src/device-credential.ts:237-278 | a rotation replaces the record if and only if the expected generation is the active one (with an unused id and a sound clock) |
| `DeviceCredentialLifecycle.InMemoryDeviceCredentialLifecycleCoordinator.EnterExclusive` | apps/server/src/device-credential-lifecycle.ts:15-25 | arrival: waits for the device's tail, and becomes the new tail |
| `DeviceCredentialLifecycle.InMemoryDeviceCredentialLifecycleCoordinator.FinishExclusive` | apps/server/src/device-credential-lifecycle.ts:27-35 | the `finally` branch: released on return and on throw alike; the tail is dropped only by the last in line |
| `DeviceCredentialLifecycle.OnlyHeadMayRun` | apps/server/src/device-credential-lifecycle.ts:15-35 | of the operations in line exactly the first may run |
| `DeviceCredentialLifecycle.EnterJoinsLine` | apps/server/src/device-credential-lifecycle.ts:19-25 | arriving puts an operation at the end of its device's line |
| `DeviceCredentialLifecycle.FinishLeavesLine` | apps/server/src/device-credential-lifecycle.ts:30-35 | finishing removes the head, and the tail is in the map exactly while someone is in line |
| `DeviceCredentialLifecycle.RunIsFifo` | apps/server/src/device-credential-lifecycle.ts:10-37 | every run of the promise chains is a run of FIFO lines, one per device, and a device without a line has no tail |
| `DeviceCredentialLifecycle.ChainResolvesLikePromise` | apps/server/src/device-credential-lifecycle.ts:20-28 | over every run a chained tail has resolved exactly when its own promise has |
| `DeviceCredentialLifecycle.PromiseTail.Enter` | apps/server/src/device-credential.ts:286-291 | a repository call takes the bare promise before it as what it awaits, and becomes the tail |
| `DeviceCredentialLifecycle.PromiseTail.Finish` | apps/server/src/device-credential.ts:292-298 | it releases on return and on throw, and the tail is never deleted |
| `DeviceCredentialLifecycle.BareTailIsFifo` | apps/server/src/pairing.ts:437-450 | over every run of the bare, undeleted tail, calls finish in arrival order, and of the unfinished ones exactly the first may run |
| `SessionGate.CredentialGate.BeginCredentialMutation` | apps/server/src/server-runtime.ts:220-227 | a mutation is counted, unless the server stops |
| `SessionGate.CredentialGate.EndCredentialMutation` | apps/server/src/server-runtime.ts:228-236 | the count falls, and the entry goes at zero |
| `SessionGate.CredentialGate.BeginAuthentication` | apps/server/src/server-runtime.ts:246-252 | an authentication is counted |
| `SessionGate.CredentialGate.EndAuthentication` | apps/server/src/server-runtime.ts:253-265 | the last authentication of a device resolves exactly its drain waiters |
| `SessionGate.CredentialGate.WaitForAuthenticationDrain` | apps/server/src/server-runtime.ts:266-277 | a waiter is registered exactly when something is in flight |
| `SessionGate.CredentialGate.BeginSessionReady` | apps/server/src/server-runtime.ts:278-289 | a lease is granted exactly when no mutation is active and the server runs |
| `SessionGate.CredentialGate.ReleaseSessionReady` | apps/server/src/server-runtime.ts:289-302 | the last lease of a device resolves exactly its drain waiters |
| `SessionGate.CredentialGate.WaitForSessionReadyDrain` | apps/server/src/server-runtime.ts:303-313 | a waiter is registered exactly when a lease is held |
| `SessionGate.CredentialGate.BeginStop` | apps/server/src/server-runtime.ts:780-787 | stopping resolves every waiter |
| `SessionGate.CredentialGate.EndStop` | apps/server/src/server-runtime.ts:788-794 | all counts are cleared |
| `SessionGate.EndUndoesBegin` | apps/server/src/server-runtime.ts:220-301 | a mutation, authentication or lease that is begun and ended leaves the gate exactly as it was |
| `SessionGate.LastHolderReleasesWaiters` | apps/server/src/server-runtime.ts:253-301 | waiters of a device are let go exactly when its last holder leaves |
| `SessionGate.MutationsStayWellKept` | apps/server/src/server-runtime.ts:220-236 | no count stays at zero, and stopping lets every waiter go |
| `SessionGate.AuthenticationsStayWellKept` | apps/server/src/server-runtime.ts:246-276 | no authentication waiter outlives what it waits for |
| `SessionGate.LeasesStayWellKept` | apps/server/src/server-runtime.ts:278-313 | no lease waiter outlives what it waits for |
| `ServerRuntimeInvariant.StepKeeps` | apps/server/src/server-runtime.ts:217-436 | every step of handshakes, mutations, closing and stop keeps counts, lines, drains, registry and acknowledgements sound |
| `ServerRuntimeInvariant.RunKeeps` | apps/server/src/server-runtime.ts:217-436 | the same over every interleaving |
| `ServerRuntimeInvariant.HandshakeStepKeeps` | apps/server/src/gateway.ts:706-873 | the handshake's steps between awaits |
| `ServerRuntimeInvariant.MutationStepKeeps` | apps/server/src/server-runtime.ts:392-451 | the steps of `runCredentialLifecycleOperation` and of what runs inside it |
| `ServerRuntimeInvariant.CommitReadyKeeps` | apps/server/src/gateway.ts:800-873 | session ready, acknowledgement and registration in one step, with every failing exit |
| `ServerRuntimeInvariant.CommitKeeps` | apps/server/src/server-runtime.ts:392-413 | a committed operation leaves no session of the old generation, except one it is about to evict |
| `ServerRuntimeInvariant.EvictCommittedKeeps` | apps/server/src/server-runtime.ts:315-328 | evicting the generation committed away |
| `ServerRuntimeInvariant.FinalizeKeeps` | apps/server/src/gateway.ts:368-392 | finalising a connection takes its session out of the registry |
| `ServerRuntimeResults.AcknowledgedGenerationIsActive` | apps/server/src/gateway.ts:786-873 | an authenticated acknowledgement carried the generation active at that instant if and only if no call outside the lifecycle operation had rotated or revoked it since validation; at most one per connection |
| `ServerRuntimeResults.RegisteredGenerationIsActive` | apps/server/src/server-runtime.ts:715-735 | with no operation in its critical section and no outside call about to evict, a registered device has the active generation if and only if its handshake was not so struck |
| `ServerRuntimeResults.SessionIsMadeOnce` | apps/server/src/gateway.ts:786-873 | a connection gets at most one session: once made, it never changes |
| `ServerRuntimeResults.FinalizedSessionsAreUnregistered` | apps/server/src/server-runtime.ts:754-758 | no registered session has a finalised connection |
| `ServerRuntimeResults.LeasesAreReleasedExactlyOnce` | apps/server/src/server-runtime.ts:278-301 | lease, authentication and mutation counts equal the handshakes and mutations that hold them |
| `ServerRuntimeResults.OperationRunsAlone` | apps/server/src/server-runtime.ts:392-413 | an operation overlaps no other of its device, and no leased handshake of it |
| `ServerRuntimeResults.MutationOutlastsRun` | apps/server/src/server-runtime.ts:246-276 | a mutation active while an authentication is in flight is active at every later state of that authentication |
| `ServerRuntimeResults.AuthenticationOverlapsNoMutation` | apps/server/src/server-runtime.ts:679-697 | a successful authentication overlaps no mutation of its device at any point of its run |
| `ServerRuntimeResults.AuthenticationsOnlyEnd` | apps/server/src/server-runtime.ts:679-697 | during a mutation the authentications in flight only end |
| `ServerRuntimeResults.DrainsComplete` | apps/server/src/server-runtime.ts:266-313 | no lost wake-up: with nothing left to wait for, the waiting mutation can continue |
| `ServerRuntimeResults.AcknowledgementsAreActiveExactlyUnlessStruck` | apps/server/src/server-runtime.ts:540-548 | for every run: all acknowledgements, sent or possible after any of its steps, name the active generation if and only if no outside call rotates or revokes beside a validated handshake of its device that may still be acknowledged; first issues and registered sessions do no harm |
| `ServerRuntimeResults.OutsideRotationMisleadsHandshake` | apps/server/src/server-runtime.ts:415-436 | a run from the start that fails: after an outside rotation and its eviction the handshake is acknowledged for the dead generation, and its session stays registered under it |
| `ServerRuntimeInvariant.OutsideCommitKeeps` | apps/server/src/server-runtime.ts:415-428 | an outside issue, rotation or revocation at any moment keeps the invariant |
| `ServerRuntimeInvariant.OutsideEvictKeeps` | apps/server/src/server-runtime.ts:428-434 | so does the eviction it performs afterwards |
| `CompletionStore.RepositoriesAgree` | apps/server/src/pairing-credential-completion.ts:186-444 | for every operation sequence under a non-falling clock both repositories return the same results; unexpired entries stay equal |
| `CompletionStore.ApplyKeepsWellFormed` | apps/server/src/pairing-credential-completion.ts:266-344 | a record carries a target exactly while recovering |
| `CompletionStore.CapacityHolds` | apps/server/src/pairing-credential-completion.ts:186-204 | entries never exceed `maxRecords` |
| `CompletionStore.DeliveredIsFinal` | apps/server/src/pairing-credential-completion.ts:386-419 | a delivered record changes only by expiry or delete |
| `CompletionStore.DeliveredOnlyByAcknowledgement` | apps/server/src/pairing-credential-completion.ts:386-419 | a record becomes delivered only by acknowledging exactly its pending generation |
| `CompletionRepositories.InMemoryPairingCredentialCompletionRepository.PruneRecords` | apps/server/src/pairing-credential-completion.ts:436-441 | the first prune loop deletes exactly the expired records |
| `CompletionRepositories.InMemoryPairingCredentialCompletionRepository.PruneReservations` | apps/server/src/pairing-credential-completion.ts:441-444 | the second prune loop deletes exactly the expired reservations |
| `CompletionRepositories.InMemoryPairingCredentialCompletionRepository.Reserve` | apps/server/src/pairing-credential-completion.ts:186-204 | `reserve` over two maps: equals the store operation on the joined maps |
| `CompletionRepositories.InMemoryPairingCredentialCompletionRepository.TransferReservation` | apps/server/src/pairing-credential-completion.ts:206-224 | `transferReservation`: equals the store operation on the joined maps |
| `CompletionRepositories.InMemoryPairingCredentialCompletionRepository.Get` | apps/server/src/pairing-credential-completion.ts:226-232 | `get`: equals the store operation on the joined maps |
| `CompletionRepositories.InMemoryPairingCredentialCompletionRepository.SetPending` | apps/server/src/pairing-credential-completion.ts:234-264 | `setPending`: equals the store operation on the joined maps |
| `CompletionRepositories.InMemoryPairingCredentialCompletionRepository.BeginRecovery` | apps/server/src/pairing-credential-completion.ts:266-302 | `beginRecovery`: equals the store operation on the joined maps |
| `CompletionRepositories.InMemoryPairingCredentialCompletionRepository.AdvanceRecovery` | apps/server/src/pairing-credential-completion.ts:304-344 | `advanceRecovery`: equals the store operation on the joined maps |
| `CompletionRepositories.InMemoryPairingCredentialCompletionRepository.FinishRecovery` | apps/server/src/pairing-credential-completion.ts:346-384 | `finishRecovery`: equals the store operation on the joined maps |
| `CompletionRepositories.InMemoryPairingCredentialCompletionRepository.Acknowledge` | apps/server/src/pairing-credential-completion.ts:386-419 | `acknowledge`: equals the store operation on the joined maps |
| `CompletionRepositories.InMemoryPairingCredentialCompletionRepository.Delete` | apps/server/src/pairing-credential-completion.ts:421-426 | `delete`, which does not prune: equals the store operation on the joined maps |
| `CompletionRepositories.SqlitePairingCredentialCompletionRepository.Prune` | apps/server/src/storage/sqlite-pairing-credential-completion-repository.ts:89-95 | deletes exactly the expired rows |
| `CompletionRepositories.SqlitePairingCredentialCompletionRepository.Reserve` | apps/server/src/storage/sqlite-pairing-credential-completion-repository.ts:146-158 | `reserve`: equals the store operation on the table |
| `CompletionRepositories.SqlitePairingCredentialCompletionRepository.TransferReservation` | apps/server/src/storage/sqlite-pairing-credential-completion-repository.ts:160-176 | `transferReservation`: equals the store operation on the table |
| `CompletionRepositories.SqlitePairingCredentialCompletionRepository.Get` | apps/server/src/storage/sqlite-pairing-credential-completion-repository.ts:178-185 | `get`: equals the store operation on the table |
| `CompletionRepositories.SqlitePairingCredentialCompletionRepository.SetPending` | apps/server/src/storage/sqlite-pairing-credential-completion-repository.ts:187-203 | `setPending`: equals the store operation on the table |
| `CompletionRepositories.SqlitePairingCredentialCompletionRepository.BeginRecovery` | apps/server/src/storage/sqlite-pairing-credential-completion-repository.ts:205-235 | `beginRecovery`: equals the store operation on the table |
| `CompletionRepositories.SqlitePairingCredentialCompletionRepository.AdvanceRecovery` | apps/server/src/storage/sqlite-pairing-credential-completion-repository.ts:237-265 | `advanceRecovery`: equals the store operation on the table |
| `CompletionRepositories.SqlitePairingCredentialCompletionRepository.FinishRecovery` | apps/server/src/storage/sqlite-pairing-credential-completion-repository.ts:267-294 | `finishRecovery`: equals the store operation on the table |
| `CompletionRepositories.SqlitePairingCredentialCompletionRepository.Acknowledge` | apps/server/src/storage/sqlite-pairing-credential-completion-repository.ts:296-321 | `acknowledge`: equals the store operation on the table |
| `CompletionRepositories.SqlitePairingCredentialCompletionRepository.Delete` | apps/server/src/storage/sqlite-pairing-credential-completion-repository.ts:323-331 | `delete`, inside a pruning transaction: equals the store operation on the table |
| `CompletionRecovery.StepKeeps` | apps/server/src/pairing-credential-completion.ts:628-852 | every step of the service, and everything that may happen around it, keeps records, targets and completed secrets sound |
| `CompletionRecovery.RunKeeps` | apps/server/src/pairing-credential-completion.ts:628-852 | the same over every run, with crashes anywhere |
| `CompletionRecovery.ServiceChangesCredentialOnlyBySwap` | apps/server/src/pairing-credential-completion.ts:694-825 | the service issues a first credential or swaps the recorded source for the reserved target, and nothing else |
| `CompletionRecovery.OutsideMutationWins` | apps/server/src/server-runtime.ts:621-677 | any outside change of the active generation makes a live recovery lose |
| `CompletionRecovery.LostStaysLost` | apps/server/src/pairing-credential-completion.ts:729-825 | a lost recovery stays lost at every step while its record lives |
| `CompletionRecovery.RecoveryNeverOverridesOutsideMutation` | apps/server/src/pairing-credential-completion.ts:694-825 | after an outside rotate or revoke no step of any resume changes or re-activates the credential while the record lives |
| `CompletionRecovery.FirstCompletionNeverRotates` | apps/server/src/pairing-credential-completion.ts:628-692 | the first completion of a session never comes to a rotation, whatever happens around it |
| `CompletionRecovery.ReturnedSecretIsActive` | apps/server/src/pairing-credential-completion.ts:800-825 | a recovered secret belongs to the generation last read as active, and verifies against it |
| `CompletionCrash.LoopOutcome` | apps/server/src/pairing-credential-completion.ts:729-825 | the recovery loop completes within two turns if and only if the active generation is the recorded source or the reserved target and the clock is not behind it; otherwise it fails without touching a credential |
| `CompletionCrash.RotatingOutcome` | apps/server/src/pairing-credential-completion.ts:775-798 | the rotation is refused exactly when the clock is behind the credential |
| `CompletionCrash.ResumeOutcome` | apps/server/src/pairing-credential-completion.ts:628-692 | a resume from any sound durable state, with expired rows of any session in it, completes if and only if that state is resumable and its rotation is in time |
| `CompletionCrash.CrashedPairingResumes` | apps/server/src/pairing-credential-completion.ts:628-825 | after any run and a crash at any await, as long as the session's own entry does not expire meanwhile, a resume completes within two of the sixteen turns if and only if the durable state is resumable and the clock is not behind the credential; otherwise it fails with every credential unchanged |
| `PairingChannel.PairingChannelCoordinator.PruneExpired` | apps/server/src/pairing-channel.ts:477-484 | removes exactly the entries past their deadline |
| `PairingChannel.PairingChannelCoordinator.Register` | apps/server/src/pairing-channel.ts:138-182 | `register`: who is refused and how, pruning, capacity, and the new entry |
| `PairingChannel.PairingChannelCoordinator.FindLive` | apps/server/src/pairing-channel.ts:461-475 | looking up an expired entry removes it |
| `PairingChannel.PairingChannelCoordinator.StartAttach` | apps/server/src/pairing-channel.ts:184-202 | `attach` up to hashing: refused while a socket is attached or attaching |
| `PairingChannel.PairingChannelCoordinator.CompleteAttach` | apps/server/src/pairing-channel.ts:203-220 | the socket is taken only with the registered proof and only while the entry lives |
| `PairingChannel.PairingChannelCoordinator.SendPendingDelivery` | apps/server/src/pairing-channel.ts:430-459 | the credential is sent at most once per attached socket |
| `PairingChannel.PairingChannelCoordinator.Deliver` | apps/server/src/pairing-channel.ts:275-323 | `deliver`: sessions not claimed in time for the device, first, repeated and conflicting delivery |
| `PairingChannel.PairingChannelCoordinator.StartAcknowledge` | apps/server/src/pairing-channel.ts:325-345 | an acknowledgement is taken up only from the attached socket, for the generation handed out, one at a time |
| `PairingChannel.PairingChannelCoordinator.CompleteAcknowledge` | apps/server/src/pairing-channel.ts:346-367 | a recorded acknowledgement ends the entry; a refused one may be repeated |
| `PairingChannel.PairingChannelCoordinator.Detach` | apps/server/src/pairing-channel.ts:230-244 | only the attached socket detaches |
| `PairingChannel.AttachingContinues` | apps/server/src/pairing-channel.ts:184-228 | attaching never changes a delivery or replaces an attached socket |
| `PairingChannel.DeliveringContinues` | apps/server/src/pairing-channel.ts:275-323 | a delivery under way is never replaced by another |
| `PairingChannel.AcknowledgingContinues` | apps/server/src/pairing-channel.ts:325-376 | a refused acknowledgement, a detached socket or a failed send leave the delivery as it is |
| `PairingChannel.CredentialGoesOncePerSocket` | apps/server/src/pairing-channel.ts:430-459 | a socket given the credential is not given it again while attached |
| `PairingChannel.OnlyTheProofAttaches` | apps/server/src/pairing-channel.ts:203-212 | a socket is taken if and only if the entry lives and the proof is the registered one |
| `PairingClient.MessagesLeaveTheStore` | apps/agent/src/pairing-client.ts:449-497 | no message touches the store; only a credential of its own session starts a replacement |
| `PairingClient.AcknowledgesOnce` | apps/agent/src/pairing-client.ts:514-543 | a client acknowledges at most once |
| `PairingClient.LocalPairingClient.OnMessage` | apps/agent/src/pairing-client.ts:449-490 | `#handleMessage` up to the store replacement, for every kind of message |
| `PairingClient.LocalPairingClient.OnReplaced` | apps/agent/src/pairing-client.ts:514-543 | after the store was replaced: acknowledged only on the socket it came from, if that is still attached and open |
| `PairingClient.LocalPairingClient.OnReplaceFailed` | apps/agent/src/pairing-client.ts:498-513 | a failed replacement reports a storage error and closes |
| `PairingClient.LocalPairingClient.Close` | apps/agent/src/pairing-client.ts:179-197 | closing is final and idempotent |
| `PairingDelivery.StepKeeps` | apps/server/src/pairing-channel.ts:184-376 | every step of service, channel, acknowledgement, network and client keeps the protocol invariant |
| `PairingDelivery.RunKeeps` | apps/server/src/pairing-channel.ts:184-376 | the same over every run |
| `PairingDelivery.ServiceStepKeepsSound` | apps/server/src/pairing-credential-completion.ts:694-825 | what is known of a returned secret survives every later step, crashes and outside mutations |
| `PairingDelivery.AckKeeps` | apps/server/src/server-runtime.ts:560-592 | the acknowledgement under the lifecycle lock |
| `PairingDelivery.DeliveredMeansStored` | apps/server/src/server-runtime.ts:560-592 | at the step where the completion becomes delivered, the client's durable store holds a secret that verifies against the active credential, across lost sockets, re-attach and duplicates |
| `PairingDelivery.DeliveredStaysStored` | apps/agent/src/pairing-client.ts:485-543 | from then on the client keeps that secret |
| `PairingDelivery.OneCredentialPerSession` | apps/server/src/pairing-channel.ts:275-315 | all credential frames of a session carry one and the same secret |
| `PairingDelivery.OneAttachAndOneAcknowledgement` | apps/server/src/pairing-channel.ts:197-228 | an attach or acknowledgement is taken up only when no other is under way |
| `PairingDelivery.DeliveryIsPossible` | apps/server/src/pairing-channel.ts:275-376 | from the start, with live deadlines and room in the store, a run exists that gets the credential delivered |
| `PairingDelivery.ReconnectDelivers` | apps/agent/src/pairing-client.ts:330-447 | whatever socket is still attached or attaching, as long as the delivery waits and the client has not finished, the close of the old socket and a fresh one get it delivered |
| `PairingDelivery.FreshSocketDelivers` | apps/agent/src/pairing-client.ts:330-447 | from an entry without a socket, a fresh one suffices |
| `PairingDelivery.ClosedSocketIsGone` | apps/server/src/pairing-channel.ts:230-244 | after the attached socket closes the entry has no socket, is not marked as having sent to it, and keeps its delivery |
| `PairingDelivery.AttachFailureWaits` | apps/server/src/pairing-channel.ts:203-228 | an attach under way ends when its sends fail, and the entry can be attached again |
| `PairingDelivery.StorageFailureIsSent` | apps/agent/src/pairing-client.ts:498-513 | a storage failure of the client is sent on its open socket, and changes neither store nor delivery |
| `PairingDelivery.AcknowledgementOutcome` | apps/server/src/server-runtime.ts:560-592 | an acknowledgement ends the entry and delivers the record if and only if the record is pending for the active generation it names, or was delivered for it before; otherwise it may be repeated |
| `PairingStore.InMemoryPairingSessionRepository.DropOldTombstones` | apps/server/src/pairing.ts:425-431 | the bound on tombstones, oldest first |
| `PairingStore.InMemoryPairingSessionRepository.PruneExpiredRecords` | apps/server/src/pairing.ts:413-435 | the prune loop, with its count |
| `PairingStore.InMemoryPairingSessionRepository.Create` | apps/server/src/pairing.ts:238-291 | `create` with the order of its error cases |
| `PairingStore.InMemoryPairingSessionRepository.Claim` | apps/server/src/pairing.ts:299-349 | `claim`: expires, refuses or claims |
| `PairingStore.InMemoryPairingSessionRepository.Cancel` | apps/server/src/pairing.ts:351-389 | `cancel` |
| `PairingStore.InMemoryPairingSessionRepository.ExpireRecords` | apps/server/src/pairing.ts:391-404 | the expiry loop changes exactly the pending records past their time |
| `PairingStore.InMemoryPairingSessionRepository.Expire` | apps/server/src/pairing.ts:391-404 | `expire` and its count |
| `PairingStore.ApplyKeepsValid` | apps/server/src/pairing.ts:238-435 | id and digest maps stay inverse, tombstones equal their queue without duplicates and within the bound, disjoint from live digests, every record schema-valid |
| `PairingStore.RunKeepsValid` | apps/server/src/pairing.ts:238-435 | the same over every sequence of operations |
| `PairingStore.StoredRecordsAreNeverInvalid` | packages/schemas/src/pairing.ts:64-112 | an invalid record is reported if and only if `create` is given a bad lifetime |
| `PairingStore.PruneFromDigest` | apps/server/src/pairing.ts:413-435 | pruning opens no code and forgets one only when the tombstone queue is full |
| `PairingStore.CreationNeedsUnknownCode` | apps/server/src/pairing.ts:251-272 | a known code is created again only by an operation that drops its own tombstone, from a full queue |
| `PairingStore.CodeStaysClosed` | apps/server/src/pairing.ts:299-349 | no operation but its own creation opens a code, and a claim closes it |
| `PairingStore.CodeYieldsOneDeviceUnlessDropped` | apps/server/src/pairing.ts:238-435 | over any run in which its own tombstone is not dropped, a code yields at most one device |
| `PairingStore.CodeYieldsOneDevice` | apps/server/src/pairing.ts:299-349 | until it may be created again, a code yields at most one device |
| `DeviceSessionRegistry.Registry.AddOwnerDevice` | apps/server/src/device-session-registry.ts:289-293 | adds one membership to the owner index |
| `DeviceSessionRegistry.Registry.RemoveOwnerDevice` | apps/server/src/device-session-registry.ts:295-300 | removes one membership and an empty group |
| `DeviceSessionRegistry.Registry.Register` | apps/server/src/device-session-registry.ts:113-168 | refused unless authenticated and ready; idempotent for a registered session; otherwise takes the device over and returns what it replaced |
| `DeviceSessionRegistry.Registry.TakeOver` | apps/server/src/device-session-registry.ts:136-168 | the index updates of a takeover, also across owners |
| `DeviceSessionRegistry.Registry.Remove` | apps/server/src/device-session-registry.ts:302-308 | removes only the very registration |
| `DeviceSessionRegistry.Registry.GetBySession` | apps/server/src/device-session-registry.ts:176-189 | the session index is exact, so the mismatch branch is dead |
| `DeviceSessionRegistry.Registry.GetActive` | apps/server/src/device-session-registry.ts:170-174 | the live registration of a device |
| `DeviceSessionRegistry.Registry.MarkHeartbeat` | apps/server/src/device-session-registry.ts:203-221 | moves the last sight forward, never back, and only of a live session |
| `DeviceSessionRegistry.Registry.EvictSession` | apps/server/src/device-session-registry.ts:223-237 | evicting a replaced session never removes its replacement |
| `DeviceSessionRegistry.Registry.EvictGeneration` | apps/server/src/device-session-registry.ts:239-254 | removes the registration exactly when it carries the generation |
| `DeviceSessionRegistry.Registry.ListActiveForOwner` | apps/server/src/device-session-registry.ts:191-201 | equals a plain filter of the device map, each registration once |
| `DeviceSessionRegistry.Registry.Clear` | apps/server/src/device-session-registry.ts:276-282 | empties all three maps and returns each registration once |
| `DeviceSessionRegistry.OwnerIndexIsUnique` | apps/server/src/device-session-registry.ts:289-300 | the owner index is determined by the device map |
| `PairingAbuseGuard.InMemoryPairingAbuseGuard.Cleanup` | apps/server/src/pairing-abuse-guard.ts:105-114 | deletes exactly the expired buckets |
| `PairingAbuseGuard.InMemoryPairingAbuseGuard.ConsumeOne` | apps/server/src/pairing-abuse-guard.ts:84-103 | `#consume`: every accepting and rejecting branch, also for a clock that is not finite or falls |
| `PairingAbuseGuard.InMemoryPairingAbuseGuard.BeforeStart` | apps/server/src/pairing-abuse-guard.ts:70-76 | missing, empty and overlong addresses share one bucket |
| `PairingAbuseGuard.InMemoryPairingAbuseGuard.BeforeClaim` | apps/server/src/pairing-abuse-guard.ts:78-81 | claims count per owner |
| `PairingAbuseGuard.ConsumeKeepsValid` | apps/server/src/pairing-abuse-guard.ts:84-114 | never more than `maxBuckets` buckets, each within its limit |
| `PairingAbuseGuard.WindowBound` | apps/server/src/pairing-abuse-guard.ts:84-103 | from the call that opens a window at most `limit` calls of its key are accepted in it |
| `PairingAbuseGuard.SpanBound` | apps/server/src/pairing-abuse-guard.ts:84-114 | under a clock that does not fall, a span no longer than the window sees at most 2 * limit - 1 calls of a key accepted, across bucket deletion and re-creation |
| `PairingAbuseGuard.SpanBoundIsReached` | apps/server/src/pairing-abuse-guard.ts:84-114 | that bound is exact, for every limit |
| `FilesystemRead.TrimIncompleteUtf8Sequence` | apps/agent/src/filesystem-read.ts:119-147 | the backwards scan |
| `FilesystemRead.IsBinaryBuffer` | apps/agent/src/filesystem-read.ts:105-113 | a NUL among the first 8192 bytes |
| `FilesystemRead.Read` | apps/agent/src/filesystem-read.ts:200-263 | the read action on the bytes of the file |
| `FilesystemRead.TrimIsLastBoundary` | apps/agent/src/filesystem-read.ts:119-147 | on a window of valid UTF-8 (sections 3 and 4 of RFC 3629) the scan keeps everything up to the last whole character |
| `FilesystemRead.MisalignedReadFails` | apps/agent/src/filesystem-read.ts:239-247 | a read that starts inside a character never succeeds |
| `FilesystemRead.ReadSucceedsExactly` | apps/agent/src/filesystem-read.ts:216-247 | of a valid file a read succeeds if and only if no NUL is in its first 8192 bytes, it starts at a boundary and the character there fits |
| `FilesystemRead.ReadEndsAtLastBoundary` | apps/agent/src/filesystem-read.ts:221-250 | a successful read makes progress and ends at the last boundary within the limit |
| `FilesystemRead.TextOfChunk` | apps/agent/src/filesystem-read.ts:235-263 | what is returned are the bytes up to `nextOffset`, as valid text |
| `FilesystemRead.ReadPastTheEndIsEmpty` | apps/agent/src/filesystem-read.ts:200-203 | an offset at or past the end reads nothing, successfully |
| `FilesystemRead.ReadThroughIsValidText` | apps/agent/src/filesystem-read.ts:221-263 | whoever reads through has read valid text |
| `FilesystemRead.ReadsThroughExactlyValidText` | apps/agent/src/filesystem-read.ts:200-263 | for a file without NUL, following `nextOffset` from 0 reaches the end if and only if the file is valid and no character exceeds the limit |
| `FilesystemRead.SlicesTile` | apps/agent/src/filesystem-read.ts:249-263 | the slices tile the file and each is valid on its own |
| `FilesystemRead.ValidTextIsTiled` | apps/agent/src/filesystem-read.ts:200-263 | with a limit of at least four every valid text file is read through |
| `FilesystemList.List` | apps/agent/src/filesystem-read.ts:312-411 | the result is the first `limit` entries of the traversal; truncated if and only if it has at least as many |
| `FilesystemList.ListNext` | apps/agent/src/filesystem-read.ts:326-352 | one turn of the loop: an unreadable directory is passed over, and the queue shrinks unless the limit is reached |
| `FilesystemList.ListDirectory` | apps/agent/src/filesystem-read.ts:345-410 | one directory: entries appended, subdirectories queued, stopped at the limit |
| `FilesystemList.QueueShrinks` | apps/agent/src/filesystem-read.ts:326-338 | the queue loop terminates: the subtree sizes in the queue fall |
| `FilesystemList.QueueListsTraversal` | apps/agent/src/filesystem-read.ts:312-411 | working the queue off lists the level-order traversal, defined level by level over the tree |
| `FilesystemList.TraversalIsComplete` | apps/agent/src/filesystem-read.ts:345-400 | the traversal lists exactly the visible entries down to the last level |
| `FilesystemList.TraversalAscends` | apps/agent/src/filesystem-read.ts:312-338 | entries nearer the root come first |
| `BridgeSendQueue.BridgeServerTransport.RejectQueued` | apps/agent/src/bridge-server-transport.ts:762-766 | every waiting frame is rejected, in order |
| `BridgeSendQueue.BridgeServerTransport.FinalizeClose` | apps/agent/src/bridge-server-transport.ts:768-793 | finalising the close |
| `BridgeSendQueue.BridgeServerTransport.Fail` | apps/agent/src/bridge-server-transport.ts:693-731 | failing |
| `BridgeSendQueue.BridgeServerTransport.Close` | apps/agent/src/bridge-server-transport.ts:339-375 | closing |
| `BridgeSendQueue.BridgeServerTransport.Send` | apps/agent/src/bridge-server-transport.ts:286-337 | refused when not ready, too large or over the bounds; otherwise queued |
| `BridgeSendQueue.BridgeServerTransport.DrainOne` | apps/agent/src/bridge-server-transport.ts:597-642 | one turn of the drain loop |
| `BridgeSendQueue.BridgeServerTransport.DrainQueue` | apps/agent/src/bridge-server-transport.ts:593-645 | the drain loop against any readings of the socket |
| `BridgeSendQueue.BridgeServerTransport.NativeDrainPoll` | apps/agent/src/bridge-server-transport.ts:647-681 | the poll of a native buffer |
| `BridgeSendQueue.StepKeeps` | apps/agent/src/bridge-server-transport.ts:286-793 | every event keeps the queue invariant |
| `BridgeSendQueue.RunKeeps` | apps/agent/src/bridge-server-transport.ts:286-793 | the same over every run |
| `BridgeSendQueue.QueueIsBounded` | apps/agent/src/bridge-server-transport.ts:310-336 | `queuedBytes` is the sum of the queued frames and at most 4 MiB; at most 256 frames wait |
| `BridgeSendQueue.FramesAreSentInOrder` | apps/agent/src/bridge-server-transport.ts:593-645 | frames reach the socket in the order of acceptance, at most once |
| `BridgeSendQueue.FramesAreSettledOnce` | apps/agent/src/bridge-server-transport.ts:593-681 | each accepted send is settled at most once, resolved only if sent, and unsettled exactly while it waits |
| `BridgeSendQueue.InFlightIsHead` | apps/agent/src/bridge-server-transport.ts:630-636 | while ready a frame in flight is the head of the queue |
| `BridgeSendQueue.HistoryGrows` | apps/agent/src/bridge-server-transport.ts:593-681 | what was accepted, sent or settled stays so |
| `BridgeSendQueue.OpenQueueNeverStops` | apps/agent/src/bridge-server-transport.ts:593-681 | on the transport's own socket, while it is open, waiting frames always have something scheduled that looks at them again |
| `BridgeSendQueue.StopsOnlyWithTheSocket` | apps/agent/src/bridge-server-transport.ts:651-658 | on its own socket a moving queue stops if and only if a poll finds that socket no longer open |
| `BridgeSendQueue.NativeBufferIsNeverFull` | apps/agent/src/bridge-server-transport.ts:610-615 | on its own socket no drain ever finds the native buffer full, so that branch is dead |
| `BridgeSendQueue.QueueStopsExactly` | apps/agent/src/bridge-server-transport.ts:611-658 | for any readings at all, the queue stops if and only if a drain finds the buffer full before a frame is in flight, or a poll finds the socket not open |
| `BridgeSendQueue.StoppedStays` | apps/agent/src/bridge-server-transport.ts:651-658 | a stopped queue stays as it is, whatever timers fire |
| `ReconnectDelay.CalculateReconnectDelay` | apps/agent/src/local-bridge-reconnect.ts:51-76 | the delay stays within the policy's limits for every random number |
| `ReconnectDelay.DelayGrows` | apps/agent/src/local-bridge-reconnect.ts:61-63 | more failures never mean a shorter delay |
| `ReconnectDelay.DelayNearBase` | apps/agent/src/local-bridge-reconnect.ts:64-75 | jitter moves the delay by at most its share of the base, up to rounding |
| `LocalBridgeReconnect.LocalBridgeReconnectController.BeginAttempt` | apps/agent/src/local-bridge-reconnect.ts:286-293 | an attempt begins only for the current lifecycle |
| `LocalBridgeReconnect.LocalBridgeReconnectController.Start` | apps/agent/src/local-bridge-reconnect.ts:237-257 | `start` |
| `LocalBridgeReconnect.LocalBridgeReconnectController.Stop` | apps/agent/src/local-bridge-reconnect.ts:259-284 | `stop` |
| `LocalBridgeReconnect.LocalBridgeReconnectController.AfterFailure` | apps/agent/src/local-bridge-reconnect.ts:386-413 | the transition after a failure, by disposition |
| `LocalBridgeReconnect.LocalBridgeReconnectController.AfterLoad` | apps/agent/src/local-bridge-reconnect.ts:295-337 | the four outcomes of a credential load |
| `LocalBridgeReconnect.LocalBridgeReconnectController.AfterConnect` | apps/agent/src/local-bridge-reconnect.ts:354-365 | ready, with or without a stable timer |
| `LocalBridgeReconnect.LocalBridgeReconnectController.AfterConnectFailure` | apps/agent/src/local-bridge-reconnect.ts:357-360 | the failed attempt is finalised before its transport closes |
| `LocalBridgeReconnect.LocalBridgeReconnectController.OnTransportClose` | apps/agent/src/local-bridge-reconnect.ts:345-352 | a transport that closed by itself |
| `LocalBridgeReconnect.LocalBridgeReconnectController.OnTransportError` | apps/agent/src/local-bridge-reconnect.ts:338-344 | a failure is noted on the current attempt only |
| `LocalBridgeReconnect.LocalBridgeReconnectController.OnBackoffTimer` | apps/agent/src/local-bridge-reconnect.ts:418-428 | the backoff timer |
| `LocalBridgeReconnect.LocalBridgeReconnectController.OnStableTimer` | apps/agent/src/local-bridge-reconnect.ts:439-445 | the stable timer |
| `LocalBridgeReconnect.StepKeeps` | apps/agent/src/local-bridge-reconnect.ts:237-479 | every event, in any order, keeps the controller invariant |
| `LocalBridgeReconnect.RunKeeps` | apps/agent/src/local-bridge-reconnect.ts:237-479 | the same over every run |
| `LocalBridgeReconnect.TimersMatchState` | apps/agent/src/local-bridge-reconnect.ts:415-446 | a backoff timer is armed if and only if the state is `backoff`; a stable timer only in `ready` |
| `LocalBridgeReconnect.AttemptMatchesState` | apps/agent/src/local-bridge-reconnect.ts:327-384 | `ready` has exactly the newest attempt of its lifecycle; resting states hold no timer, attempt or outstanding work |
| `LocalBridgeReconnect.ControllerIsNeverStuck` | apps/agent/src/local-bridge-reconnect.ts:286-430 | connecting and backoff always have something outstanding that continues them |
| `LocalBridgeReconnect.StaleEventsChangeNothing` | apps/agent/src/local-bridge-reconnect.ts:457-467 | no event of an older attempt or lifecycle changes anything |
| `LocalBridgeReconnect.StoppedUntilStarted` | apps/agent/src/local-bridge-reconnect.ts:259-284 | only `start` leaves `stopped` |
| `DeviceCredential.DigestIsAcceptedExactly` | apps/server/src/device-credential.ts:193-207 | a digest is accepted if and only if the record is active and carries it |
| `DeviceCredential.IssueAnswersExactly` | apps/server/src/device-credential.ts:151-191 | an issue succeeds exactly without an active credential and with an unused id; then the digest alone is accepted, one version on |
| `DeviceCredential.RevokeIsCompareAndSwap` | apps/server/src/device-credential.ts:209-235 | a revocation goes through if and only if it names the active generation in time; then no generation is active and no digest accepted |
| `DeviceCredential.RotateAnswersExactly` | apps/server/src/device-credential.ts:237-278 | each error of a rotation in its order, and the new record of one that goes through |
| `DeviceCredential.NewDigestAloneIsAccepted` | apps/server/src/device-credential.ts:193-207 | after an issue or a rotation its digest is accepted, and no other |
| `ServerRuntimeLaws.ReadyConnectionsAreRegistered` | apps/server/src/server-runtime.ts:315-328 | over every run, while no registration is dropped without a close, a ready connection is the very one its device is registered with: what is evicted or replaced is closed |
| `ServerRuntimeLaws.EndedHandshakeEndsConnection` | apps/server/src/gateway.ts:733-873 | a handshake that ends never leaves its connection waiting in the handshake |
| `ServerRuntimeLaws.HelloBeginsOrCloses` | apps/server/src/server-runtime.ts:679-697 | a hello begins an authentication, or is refused during a mutation or a stop, and its connection closes |
| `ServerRuntimeLaws.LateHandshakeOnlyEnds` | apps/server/src/gateway.ts:775-820 | a handshake that comes too late for its connection changes nothing but what it holds itself |
| `ServerRuntimeLaws.FinalizeEnds` | apps/server/src/gateway.ts:368-392 | a finalised connection is closed, and its registration gone |
| `ServerRuntimeLaws.InvalidationEvicts` | apps/server/src/server-runtime.ts:315-345 | an invalidated generation is neither registered nor on a ready connection |
| `ServerRuntimeLaws.CloseIsFinal` | apps/server/src/gateway.ts:394-425 | a connection that is closing never becomes ready |
| `ServerRuntimeLaws.StopReleasesEverything` | apps/server/src/server-runtime.ts:780-794 | after a stop nothing is counted, nobody waits and nobody is registered |
| `ServerRuntimeLaws.StoppedServerAdmitsNothing` | apps/server/src/server-runtime.ts:220-313 | a stopping server counts no new authentication, lease or mutation |
| `ServerRuntimeLaws.AcceptedHellosHadTheDigest` | apps/server/src/server-runtime.ts:679-697 | over every run, who was acknowledged had sent a hello with the digest that was then active for its device |
| `ServerRuntimeLaws.WrongSecretIsNeverAcknowledged` | apps/server/src/server-runtime.ts:679-697 | a connection whose hellos carry no digest ever active for the device is never acknowledged for it |
| `ServerRuntimeLaws.ValidatedHandshakesHoldTheDigest` | apps/server/src/gateway.ts:800-820 | over every run, an unstruck validated handshake carries exactly the digest of the active credential, whose generation it will be acknowledged for |
| `ServerRuntimeLaws.RightSecretIsAcknowledged` | apps/server/src/gateway.ts:706-873 | undisturbed, a hello with the active digest is acknowledged for the active generation, registered, and replaces and closes any other session of the device |
| `ServerRuntimeLaws.WrongSecretIsRefused` | apps/server/src/gateway.ts:733-766 | any other digest ends the connection without acknowledgement or registration |
| `ServerRuntimeLaws.MutationCompletes` | apps/server/src/server-runtime.ts:392-413 | an undisturbed mutation runs through: the operation commits, the replaced session is evicted and closed, and the lock is free again |
| `ServerRuntimeLaws.RegistrationsComeFromAcks` | apps/server/src/server-runtime.ts:715-735 | over every run, what is registered was acknowledged for that connection and generation |
| `CompletionStore.ReserveAnswersExactly` | apps/server/src/pairing-credential-completion.ts:186-204 | a reservation is kept, or taken while there is room, for the whole retention |
| `CompletionStore.TransferAnswersExactly` | apps/server/src/pairing-credential-completion.ts:206-224 | a transfer moves an unexpired reservation with its own expiry to a free session, and otherwise changes nothing |
| `CompletionStore.GetAnswersExactly` | apps/server/src/pairing-credential-completion.ts:226-232 | a record is found exactly while held and unexpired |
| `CompletionStore.SetPendingAnswersExactly` | apps/server/src/pairing-credential-completion.ts:234-264 | a first record is stored, the same one found again, and any other refused |
| `CompletionStore.BeginRecoveryAnswersExactly` | apps/server/src/pairing-credential-completion.ts:266-302 | what a recovery begins from, or finds under way, or is refused for |
| `CompletionStore.RecoveriesAnswerExactly` | apps/server/src/pairing-credential-completion.ts:304-384 | a recovery advances or finishes exactly from its recorded source to its reserved target |
| `CompletionStore.AcknowledgeAnswersExactly` | apps/server/src/pairing-credential-completion.ts:386-419 | exactly the pending generation is delivered, and a delivered one found again |
| `CompletionStore.DeleteAnswersExactly` | apps/server/src/pairing-credential-completion.ts:421-426 | a delete removes its own entry and no other |
| `CompletionStore.MemoryAnswersLikeTable` | apps/server/src/storage/sqlite-pairing-credential-completion-repository.ts:89-95 | after every operation both repositories answer alike and hold the same unexpired entries |
| `CompletionRecovery.ReturnedValueIsRecorded` | apps/server/src/pairing-credential-completion.ts:671-825 | no value is returned that the store does not hold as pending, and a rotated one only while it is still active |
| `CompletionRecovery.FirstStepsAreExact` | apps/server/src/pairing-credential-completion.ts:628-728 | a device without a credential is issued one; one that has it is recovered from the generation found |
| `CompletionRecovery.TurnsAreExact` | apps/server/src/pairing-credential-completion.ts:729-825 | a turn works on the recovering record for at most sixteen turns, and goes on after a lost rotation or an advance |
| `CompletionRecovery.NothingIsDiscarded` | apps/server/src/pairing-credential-completion.ts:628-665 | over every run generated ids never conflict, so the branch that discards a reservation is dead |
| `PairingChannel.ExpiredEntryServesNobody` | apps/server/src/pairing-channel.ts:461-475 | an expired entry attaches, delivers and acknowledges nothing |
| `PairingChannel.FreeEntryAttaches` | apps/server/src/pairing-channel.ts:184-202 | exactly a live entry that is free is attached |
| `PairingChannel.RightProofTakesSocket` | apps/server/src/pairing-channel.ts:203-220 | the right proof takes the socket and keeps everything else |
| `PairingChannel.LostSocketLeavesNothing` | apps/server/src/pairing-channel.ts:230-244 | what a closed socket or a failed send leaves: no socket, no mark of a send, all else as it was |
| `PairingChannel.FailedAttachMayBeRepeated` | apps/server/src/pairing-channel.ts:213-228 | after a failed notice or credential frame the entry attaches again |
| `PairingChannel.AttachedSocketGetsCredential` | apps/server/src/pairing-channel.ts:430-459 | an attached socket is given the waiting credential unless it has it |
| `PairingChannel.DeliveryAnswersExactly` | apps/server/src/pairing-channel.ts:275-323 | a delivery is taken in, repeated or refused, and only the first sets the deadline |
| `PairingChannel.AcknowledgementAnswersExactly` | apps/server/src/pairing-channel.ts:325-367 | an acknowledgement is taken up exactly when socket, device and generation are right and no other is under way |
| `PairingSessions.RegistrableWhileClaimable` | apps/server/src/pairing-channel.ts:138-160 | a session may be registered exactly as long as its code could be claimed |
| `PairingSessions.DeliverableToItsDevice` | apps/server/src/pairing-channel.ts:275-290 | a credential may be delivered exactly to the device that claimed the session |
| `PairingSessions.ClaimMakesDeliverable` | apps/server/src/pairing.ts:299-349 | a claim makes its session deliverable to the device it made, and to no other |
| `PairingSessions.RegisteredEntryServes` | apps/server/src/pairing-channel.ts:162-182 | a registered entry serves its proof until its deadline |
| `PairingClient.DeadSocketsAreSilent` | apps/agent/src/pairing-client.ts:514-543 | a client whose socket is lost, failed or closed sends nothing and keeps its store |
| `PairingClient.ClientsReconnect` | apps/agent/src/pairing-client.ts:330-345 | a client connects again exactly until it has acknowledged or was closed |
| `PairingClient.DeliveryIsAcknowledged` | apps/agent/src/pairing-client.ts:449-543 | notice and credential make a client store that secret and acknowledge that generation |
| `PairingClient.BadMessagesCloseTheSocket` | apps/agent/src/pairing-client.ts:449-490 | every other message but a normal close closes the socket |
| `PairingClient.StorageFailureIsReported` | apps/agent/src/pairing-client.ts:498-513 | a storage failure is reported on the open socket it came from |
| `PairingStore.CancelAnswersExactly` | apps/server/src/pairing.ts:351-389 | a cancel stores exactly the record it returns, cancelled in time and expired after, and changes nothing else |
| `PairingStore.CancelledCodeYieldsNothing` | apps/server/src/pairing.ts:351-389 | a cancelled code is not open, and over every continuation without its re-creation yields no device |
| `PairingStore.ExpireAnswersExactly` | apps/server/src/pairing.ts:391-404 | exactly the pending sessions past their time expire, and their number is returned |
| `PairingStore.ExpiredCodesYieldNothing` | apps/server/src/pairing.ts:391-404 | after expiry no code is open past its time, every other open code still is, and the closed ones yield no device |
| `PairingStore.ClaimAnswersExactly` | apps/server/src/pairing.ts:299-349 | a claim succeeds exactly within the lifetime of an open code, and stores the claimed record it returns |
| `PairingStore.CreatedCodeIsClaimable` | apps/server/src/pairing.ts:238-349 | a created code can be claimed exactly from its creation until it expires, for the device asked |
| `PairingStore.CreateAnswersExactly` | apps/server/src/pairing.ts:238-291 | a session is created exactly when, after pruning, id and code are new and there is room |
| `PairingStore.PruneAnswersExactly` | apps/server/src/pairing.ts:413-435 | pruning drops exactly the sessions past their keeping, with their number, and remembers the latest of their codes in order |
| `DeviceSessionRegistry.LiveExactlyWhileBeating` | apps/server/src/device-session-registry.ts:203-221 | a ready session is live if and only if no gap between its registration, its heartbeats and now reaches the timeout; afterwards no heartbeat revives it |
| `PairingAbuseGuard.CallsAreAcceptedExactly` | apps/server/src/pairing-abuse-guard.ts:84-114 | a call is accepted exactly within the limit of its open window, or to open one while there is room |
| `PairingAbuseGuard.AddressesShareOnlyUnknown` | apps/server/src/pairing-abuse-guard.ts:70-81 | addresses share a bucket only if they are missing, empty, overlong or called "unknown" |
| `FilesystemRead.BinaryExactly` | apps/agent/src/filesystem-read.ts:105-113 | a chunk is binary if and only if a NUL is among its first 8192 bytes |
| `FilesystemRead.FailureTellsWhy` | apps/agent/src/filesystem-read.ts:235-247 | of a valid file, a read fails as invalid exactly inside a character, and for its limit exactly at one that does not fit |
| `Utf8.WellFormedIsEncoded` | apps/agent/src/filesystem-read.ts:239-247 | what the fatal decoder accepts are exactly the encodings of scalar values (section 3 of RFC 3629), each byte sequence of one text only |
| `Utf8.CharIsEncoding` | apps/agent/src/filesystem-read.ts:119-147 | every character is the encoding of a scalar value: no surrogate, nothing overlong |
| `Utf8.EncodingIsChar` | apps/agent/src/filesystem-read.ts:119-147 | every scalar value's encoding is a character |
| `FilesystemList.TraversalIsSortedPreorder` | apps/agent/src/filesystem-read.ts:312-411 | the traversal is the depth-first preorder of the tree, stably sorted by depth and cut at the last level: every visible entry once, siblings in listing order |
| `BridgeSendQueue.PhasesMove` | apps/agent/src/bridge-server-transport.ts:247-545 | a transport becomes ready in its three steps, never again once it has ended, and closed is final |
| `BridgeSendQueue.EndingsMove` | apps/agent/src/bridge-server-transport.ts:693-793 | failing, closing and a lost socket end in their own phase |
| `BridgeSendQueue.SendIsAcceptedExactly` | apps/agent/src/bridge-server-transport.ts:286-337 | a send is accepted exactly when it fits with all that waits and what the socket holds |
| `BridgeSendQueue.DrainAnswersExactly` | apps/agent/src/bridge-server-transport.ts:593-645 | a drain sends and delivers exactly the frames that go straight through; the next one goes into flight, waits for room or ends the transport |
| `BridgeSendQueue.PollAnswersExactly` | apps/agent/src/bridge-server-transport.ts:647-681 | a poll delivers the frame in flight exactly when the open socket is back at the baseline |
| `BridgeSendQueue.FramesAreRejectedOnlyAtTheEnd` | apps/agent/src/bridge-server-transport.ts:593-766 | over every run all that is settled while ready was delivered, and a frame is rejected exactly if it waits, unsent, at the one step that leaves ready |
| `BridgeSendQueue.DeliveryIsPossible` | apps/agent/src/bridge-server-transport.ts:593-645 | a started transport delivers what a socket takes |
| `ReconnectDelay.DelayFollowsPolicy` | apps/agent/src/local-bridge-reconnect.ts:51-76 | the delay is the minimum times a power of the factor, capped, jittered by the random number and limited, up to rounding |
| `ReconnectDelay.OneMoreFailureMultiplies` | apps/agent/src/local-bridge-reconnect.ts:61-63 | within the limits one more failure multiplies the jittered delay by the factor |
| `LocalBridgeReconnect.FailuresEndByKind` | apps/agent/src/local-bridge-reconnect.ts:80-102 | which state each kind of failure ends in, and the counted delay of a retry |
| `LocalBridgeReconnect.LoadsEndByResult` | apps/agent/src/local-bridge-reconnect.ts:295-337 | the state after each result of a credential load |
| `LocalBridgeReconnect.ConnectsEndByResult` | apps/agent/src/local-bridge-reconnect.ts:338-365 | a connect makes ready; a failed one closes first, with the failure its transport reported |
| `LocalBridgeReconnect.TimersContinue` | apps/agent/src/local-bridge-reconnect.ts:415-446 | the backoff timer starts the next attempt, the stable timer forgets the failures, and an older timer does nothing |
| `LocalBridgeReconnect.CallersDecide` | apps/agent/src/local-bridge-reconnect.ts:237-284 | exactly when start and stop act, and what they reset |

## Left out

- WebSocket, HTTP, TLS and proxy plumbing, the MCP SDK, token verification, command-line and index wiring: I/O over libraries that are not part of this model.
- The search, stat, write, delete and shell tools, process handling and path resolution: operating-system behaviour.
- Input validation by schemas beyond the predicates the invariants need; input is assumed parsed.
- The SQL engine: a table is a map of rows, a transaction one atomic step; migrations are not modelled.
- The heartbeat exchange of the gateway and the routing of tool calls: no property proved here depends on them.
- Global uniqueness of bridge session ids: entries are deleted by id after a failed send, so only per-connection facts are claimed.
- The gateway's connection objects, the closures of the runtime around the gate, and the loop of the completion service run across awaits; they are step systems on values, so aliasing between those objects is not captured.
- `cancel`, `close`, `reportClientError` and the expiry timer of the pairing channel appear only as the removal of an entry.
- Callbacks that call back synchronously into the object that invoked them.
- A rejected hello closes its connection in the same step; frames still in flight on it are ignored afterwards.
- The service's promise cache per pairing session: a cached result is the same value again, and in `PairingDelivery` any value returned since the server started may be delivered later.
- `claimAndIssue` of the service without recovery of an existing credential, as one atomic claim followed by the completion modelled in `CompletionRecovery`.
- Waiters of `deliver` and their timeouts: they are promises towards the caller and change no entry.
- Abort signals in the listing and read loops.
- Decoding to a string: byte-order marks are stripped by the decoder, so tiling is stated on bytes.
- Equality of the in-memory and SQL pairing stores: their tombstones differ by design.
- Progress of a delivery whose acknowledgement frame is lost after the client finished: the client does not repeat it, so the record expires.
- The handshake of the agent's transport beyond its phases, and incoming frames.
- The network in `PairingDelivery` keeps every frame ever sent on the client's sockets, so it may also repeat and reorder frames, which is more than a WebSocket does.
- CompletionCrash.CrashedPairingResumes: says nothing of a resume during which the session's own entry expires between two reads; expiry before the resume, and of other sessions at any time, is covered.
- ServerRuntimeLaws.ReadyConnectionsAreRegistered: the two events that drop a registration without closing in the same step, a heartbeat's own `EvictSession` and `EndStop`, are not in its runs; the close that follows them is an event of its own.
- PairingDelivery.DeliveredMeansStored: the service and outside mutations of the device run inside the lifecycle operation there; calls outside it are events of the server runtime only.
- ReconnectDelay.CalculateReconnectDelay: real arithmetic instead of floating point; an infinite power behaves like any other beyond the maximum.
- DeviceCredentialLifecycle.RunIsFifo: operations are represented by their arrival and completion; what they do inside is modelled in `ServerRuntime`.
- FilesystemList.List: `queue.shift()` on a sequence; the file sizes attached to entries are not modelled.
