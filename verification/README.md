# RLN membership, modelled in Dafny

An RLN (rate-limiting nullifier) membership lets its holder send a bounded number of
messages per epoch. Each message spends a slot `(rln_identifier, epoch, message_id)`;
two proofs on one slot reveal the identity secret. So the module's central rule is that
a slot is never issued twice, under an untrusted clock, failed writes, crashes and
restarts. This project models the components that enforce or feed that rule and proves,
over all their inputs and all their runs, what each is for.

`dafny verify dfyconfig.toml` checks everything.

## How it is built

Every protocol is a state machine on values: a `Step` datatype whose steps are the
source's critical sections or system calls, an `Enabled` predicate, a `Next` function,
and a run as a sequence of steps. Theorems quantify over every run. Code that updates
state in place is also written in place, as a class or a loop, and proved equal to the
function the theorems are about.

| file | component |
|---|---|
| `Words.dfy`, `Digits.dfy`, `ByteOrder.dfy` | machine words, positional numerals, the order of byte strings |
| `RateLimit.dfy` | the slot allocator: a pruned ledger and a monotone floor |
| `SealedStore.dfy` | reservations over whole runs, with each write's system calls, crashes and reloads |
| `StoreOnDisk.dfy` | the store and its file together: what a crash leaves is what the store reckons with |
| `NullifierLog.dfy` | the verifier's pruned log, against a log that forgets nothing |
| `EndToEnd.dfy` | `generate_proof` and `validate_proof` composed: the honest prover is never convicted |
| `Supervisor.dfy` | the worker supervisor: one lock, generations, joins under the lock |
| `Merkle.dfy`, `DepthBridge.dfy`, `PathCache.dfy` | sparse-tree openings, padding to the circuit's depth, the cached path and its root window |
| `Format.dfy`, `EpochBytes.dfy`, `Base58.dfy` | canonical encodings |
| `DurableFile.dfy` | crash-atomic file replacement |
| `WalletHome.dfy` | binding a wallet home to a network |
| `Dispatch.dfy` | exactly-once callback delivery |
| `Lifecycle.dfy`, `LifecycleRuns.dfy` | membership states, compare-and-set reads, and the events announcing changes |
| `RoundRobin.dfy` | fair selection under churn |
| `RegisterWatch.dfy` | the registration re-send watcher |

## Premises

These are parameters or hypotheses of the theorems, never assumed silently.

- Cryptography is abstract. `EndToEnd` takes the nullifier as an injective function of the
  secret, the external nullifier and the message_id, the external nullifier as an injective
  function of epoch and rln_identifier, an injective secret per membership
  (`CollisionFree`), and the soundness of the proof system (`ZkSound`). `Merkle` takes any
  hash; only `OpeningIsBinding` asks that it be collision-free.
- Durability is not assumed. Each allocations write carries the outcome of its own system
  calls (`DurableFile.Io`), and the central rule is stated for runs in which no write skipped
  a sync (`SealedStore.Synced`). Of a file renamed into place unsynced a crash may leave any
  bytes; those that load are some version this store once wrote, because a version carries
  MACs.
- A registration mints a fresh identity: its hash is new, or its honest section is still held
  (`SealedStore.Enabled`); store.rs states the same reliance at lines 428-431, and
  `ResetReissues` shows what depends on it. `Lifecycle.Enabled` asks for a new hash.
- One directory lock means one writer (`DurableFile`).
- In `WalletHome` a crash is the end of the process alone, and a power cut may also lose any
  file step made since the last one, none of which the program syncs. A home an operator
  stages is taken to be synced by its operator.
- All queries to one verifier log use one epoch size: the log is keyed by epoch index alone
  while sizes are per registry, so the model counts epochs in one unit.
- Blocks are never undone, a send that returns nothing submitted nothing, and a send reply
  names its own transaction or none (`RegisterWatch.Lawful`).

## Where the code does not do what one might expect

Each of these is a proved lemma, with the exact condition under which the expected
property does hold.

- The nullifier log forgets under a clock that jumps ahead and back
  (`RewindHidesDoubleSignal`); its verdicts are ideal if and only if no floor passed an
  epoch between two sightings (`IdealIff`), and `validate_proof`'s are if and only if neither
  a floor nor a restart did (`ValidateIsIdealIff`).
- `write_durable` returns success when a sync is unsupported, and makes no directory sync off
  Unix (`UnsyncedFileTears`, `UnsyncedRenameIsLost`); success is durable if and only if both
  syncs were real (`DurableIffSynced`). So "a slot is never issued twice" fails there: a slot
  granted over a skipped sync can be granted again (`SkippedSyncMayReissue`), and two messages
  on it convict the prover (`ReissueConvicts`); `ReissueIsRealised` shows the run on the file
  system itself. A slot can come back if and only if its own
  write skipped a sync (`ReissuedIffSyncSkipped`), and no run reissues exactly on the file
  systems that have both (`NeverTwiceIffSyncsSupported`).
- "A failed call changes nothing" fails for a failed allocations write: the slot is consumed
  and wasted (`FailedWriteWastesOneSlot`). A call changes the store if and only if it consumes
  a slot (`RefusalChangesNothing`), and the quota stays charged for exactly the issued ids if
  and only if its write did not fail (`ConsumedIsIssuedIff`).
- "An existing config is never rewritten" fails when an operator stages a config while a
  provisioning that saw none is under way (`StagingMidwayIsOverwritten`); an existing config
  changes if and only if the step is a provisioning's config step
  (`ExistingConfigRewrittenIff`).
- "A config this module wrote has its marker" fails when an operator stages another marker
  between the two file steps (`RemarkedConfigReadsAsOperators`), and when a power cut keeps the
  config's rename and loses the marker's, since neither is synced (`PowerCutLosesTheMarker`):
  the order of the two file steps guards against the end of the process, not against that. It
  holds if and only if neither happened (`WrittenConfigHasItsMarkerIff`). An accepted reference
  survives restarts if and only if no operator's marker turned it away
  (`RecordedSurvivesRestartsIff`), and power cuts too if and only if no unsynced step is left
  to lose (`KeptSurvivesPowerCutsIff`).
- "The allocation floor never decreases" fails over runs: a reservation whose write fails
  raises it in memory, and a crash brings the lower one back (`FailedWritesFloorFalls`). A step
  lowers a loaded floor if and only if it reloads a version with a lower one (`FloorFallsIff`;
  the reset of a quarantined hash would too, `ResetLowersTheFloor`), and a floor that a durable
  grant reached is never seen lower (`DurableFloorNeverFalls`).
- The refresher refuses depths outside 1 to the circuit's depth, the path fill does not
  check; the refresher answers if and only if the depth is in that range, and then they agree
  (`BothPathsBuildOneWindow`). A cached path can be of the wrong length
  (`PaddedToCircuitIff`).
- Lengths are cast to 32 bits. This is a limit of the encoding functions, far beyond any
  string the program passes: each payload is injective over lengths up to n if and only if
  n is below 2^32 (`CredentialsDistinctIff`, `SectionsDistinctIff`, `RootsDistinctIff`).
- A state change is announced if and only if the poller or a read made it and its sidecar
  write succeeded (`EventsAreTheStoredChanges`). Failed submissions are silent, and a failed
  sidecar write loses the event for as long as the process lives
  (`FailedPersistIsNeverAnnounced`), although a comment at
  logos-rln-module/rust-lib/src/lib.rs:910-911 says it only costs the next reader a recompute.
  A restart before the next successful write finds the old state and announces the change
  (`RestartAnnounces`).

## Model

| member | source | states |
|---|---|---|
| `RateLimit.AllocationState.ReserveSlot` | logos-rln-module/rust-lib/src/rate_limit.rs:78-132 | the in-place update of rows and floor is exactly `Reserve`, and a refused call leaves every field as it was |
| `RateLimit.Find` | logos-rln-module/rust-lib/src/rate_limit.rs:107-111 | the first row of a key, with every earlier row under another key |
| `RateLimit.Highest` | logos-rln-module/rust-lib/src/rate_limit.rs:85-95 | one past the greatest row epoch at or below the candidate: attained by a row, and above every other |
| `RateLimit.RetainUsed` | logos-rln-module/rust-lib/src/rate_limit.rs:129-131 | pruning hides the counters below the floor and no others |
| `RateLimit.ReserveUsed` | logos-rln-module/rust-lib/src/rate_limit.rs:104-131 | a success adds one to its own counter, changes no other at or above the new floor, and drops those below |
| `RateLimit.RefusedBelowFloorIff` | logos-rln-module/rust-lib/src/rate_limit.rs:85-102 | a call is refused as below the floor if and only if its epoch is below the floor that stands, or below the lesser of the candidate and one past some row's epoch at or below the candidate |
| `RateLimit.FloorAfterIsLeast` | logos-rln-module/rust-lib/src/rate_limit.rs:85-103 | a success leaves the least floor that does not fall and reaches, for every row at or below the candidate, the lesser of the candidate and one past that row's epoch |
| `RateLimit.RewoundClockIsRefused` | logos-rln-module/rust-lib/src/rate_limit.rs:224-237 | after a later clock reading raised the floor, a rewound clock's epoch is refused and nothing changes |
| `RateLimit.OutcomeIs` | logos-rln-module/rust-lib/src/rate_limit.rs:78-132 | every outcome from the whole history: too old, or as many ids consumed as the limit, or the next id in turn |
| `RateLimit.ReserveFaithful` | logos-rln-module/rust-lib/src/rate_limit.rs:72-132 | if every counter at or above the floor names exactly the ids ever consumed, a success returns an id below the limit that the whole history lacks, never lowers the floor, and keeps that exactness |
| `RateLimit.RemainingIsExact` | logos-rln-module/rust-lib/src/rate_limit.rs:134-146 | at and above the floor the quota is the limit less everything ever consumed, floored at 0 |
| `RateLimit.FloorStaysWitnessed` | logos-rln-module/rust-lib/src/rate_limit.rs:85-103 | a nonzero floor is at most some candidate seen, and at most one past an epoch issued at or below that candidate |
| `RateLimit.SteadyClockNeverLockedOut` | logos-rln-module/rust-lib/src/rate_limit.rs:85-103 | while no earlier candidate was greater, an epoch at or above its candidate is never refused as below the floor |
| `RateLimit.ReserveKeepsUnique` | logos-rln-module/rust-lib/src/rate_limit.rs:104-131 | there is at most one row per (application, epoch), always |
| `SealedStore.Guards` | logos-rln-module/rust-lib/src/sealed_store/store.rs:616-640 | a request passes exactly when the store is unlocked, the entry is not quarantined and is held, its epoch size is unset or equal, and its row exists or fits under the cap; and exactly which requests each guard refuses |
| `SealedStore.GrantIsNew` | logos-rln-module/rust-lib/src/sealed_store/store.rs:602-658 | while no sync was skipped, in every reachable state a slot is granted only after a successful write, below the caller's limit, and was never granted before |
| `SealedStore.ReserveKeepsBase` | logos-rln-module/rust-lib/src/sealed_store/store.rs:602-658 | synced or not, every version ever offered to the disk tells the truth about its own history, charges only slots handed out or wasted, and some version a crash may leave carries the whole memory |
| `SealedStore.ReserveKeepsInv` | logos-rln-module/rust-lib/src/sealed_store/store.rs:602-658 | while no sync is skipped, every version a crash may leave remembers every slot handed out, before and after any reservation, granted, refused or unwritten |
| `SealedStore.InsertKeepsInv` | logos-rln-module/rust-lib/src/sealed_store/store.rs:415-475 | registering keeps an honest section's counters, resets and releases a quarantined one and starts a new one empty; for a fresh hash this forgets no slot |
| `SealedStore.InsertOpens` | logos-rln-module/rust-lib/src/sealed_store/store.rs:415-475 | a registration's whole effect, section by section; a locked store registers nothing |
| `SealedStore.ResetReissues` | logos-rln-module/rust-lib/src/sealed_store/store.rs:428-439 | without a fresh identity it would: from any state, registering a quarantined hash again grants its first slot a second time |
| `SealedStore.ReopenKeepsInv` | logos-rln-module/rust-lib/src/sealed_store/store.rs:892-1000 | reloading any version that may be there, for any set of credentials, forgets no slot of a membership it loads: after a crash, which settles the disk, and after the end of the process alone, which settles nothing |
| `SealedStore.ReopenLoads` | logos-rln-module/rust-lib/src/sealed_store/store.rs:892-1000 | a reload holds exactly the sections that have a credential, as the file has them, and starts locked |
| `SealedStore.NeverIssuedTwice` | logos-rln-module/rust-lib/src/sealed_store/store.rs:597-658 | over every run of reservations, insertions, locks, failed writes, crashes of the machine and restarts of the process, with any epochs, candidates and limits, in which no write skipped a sync, no (membership, application, epoch, id) is handed out twice |
| `SealedStore.SkippedSyncMayReissue` | logos-rln-module/rust-lib/src/sealed_store/fs.rs:82-93 | from every reachable state, a slot granted by a write that skipped a sync can be granted again: crash to the earlier version, unlock, ask again |
| `SealedStore.ReissuedIffSyncSkipped` | logos-rln-module/rust-lib/src/sealed_store/fs.rs:82-93 | while every other write keeps its syncs, the slot a call grants can be handed out again if and only if that call's own write skipped one |
| `SealedStore.NeverTwiceIffSyncsSupported` | logos-rln-module/rust-lib/src/sealed_store/fs.rs:82-93 | the file systems on which no run ever hands a slot out twice are exactly those with both the file and the directory sync |
| `SealedStore.RefusalChangesNothing` | logos-rln-module/rust-lib/src/sealed_store/store.rs:602-658 | in every reachable state a call changes the store if and only if it consumes a slot, which is exactly when the guards pass, the epoch is not too old and fewer ids than the limit were consumed; it hands the slot out exactly when its write succeeds, and wastes it otherwise |
| `SealedStore.ReplyIs` | logos-rln-module/rust-lib/src/sealed_store/store.rs:602-658 | past the guards, in every reachable state: below the floor when too old, exhausted when as many ids were consumed as the limit, otherwise the next id in turn, granted exactly when the write succeeds; the floor then is the least the rows call for |
| `SealedStore.LockedMeansLocked` | logos-rln-module/rust-lib/src/sealed_store/store.rs:614-618 | a locked store answers only that it is locked; an unlocked one refuses as quarantined just the entries that are |
| `SealedStore.FailedWriteWastesOneSlot` | logos-rln-module/rust-lib/src/sealed_store/store.rs:650-656 | written or not, a consumed slot adds one to its own counter, leaves every other at or above the new floor, and touches no other membership |
| `SealedStore.QuotaIsExact` | logos-rln-module/rust-lib/src/sealed_store/store.rs:664-687 | in every reachable state the quota of an epoch at or above the floor is the limit less the ids the loaded history consumed |
| `SealedStore.ConsumedIsIssuedOrWasted` | logos-rln-module/rust-lib/src/sealed_store/store.rs:650-656 | in every run the ids charged to the quota were handed out or wasted by a failed write; while no sync is skipped, every id handed out is charged |
| `SealedStore.ConsumedIsIssuedIff` | logos-rln-module/rust-lib/src/sealed_store/store.rs:650-656 | a reservation leaves the charged ids exactly the issued ones if and only if its write did not fail |
| `SealedStore.ConsumedIsIssued` | logos-rln-module/rust-lib/src/sealed_store/store.rs:602-658 | when no write has failed and no sync was skipped, the ids charged are exactly the ids ever handed out, across every restart |
| `SealedStore.OneEpochSize` | logos-rln-module/rust-lib/src/sealed_store/store.rs:764-787 | all slots of a membership are granted under one epoch size |
| `SealedStore.InWindowNeverBelowFloor` | logos-rln-module/rust-lib/src/lib.rs:1327-1337 | with non-decreasing candidates, no request at or above its own candidate is refused as below the floor, in any run |
| `SealedStore.FloorIsBounded` | logos-rln-module/rust-lib/src/rate_limit.rs:85-103 | in every reachable state the floor is at most a candidate seen and one past an issued epoch at or below it, and no single call lowers it |
| `SealedStore.DurableFloorNeverFalls` | logos-rln-module/rust-lib/src/rate_limit.rs:129-131 | the floor a durable grant reached is never seen lower, in any later state that loads the membership, whatever writes failed and whatever crashed or restarted since, while no sync is skipped |
| `SealedStore.FloorFallsIff` | logos-rln-module/rust-lib/src/sealed_store/store.rs:892-1000 | in every run, a step lowers a loaded floor if and only if it reloads a version in which that floor is lower |
| `SealedStore.FailedWritesFloorFalls` | logos-rln-module/rust-lib/src/sealed_store/store.rs:650-656 | such a fall exists from any state: a reservation whose write fails raises the floor in memory, and a crash brings the lower one back |
| `SealedStore.ResetLowersTheFloor` | logos-rln-module/rust-lib/src/sealed_store/store.rs:428-439 | the reset of a quarantined hash puts its floor back to 0 |
| `SealedStore.EveryFileIsReadable` | logos-rln-module/rust-lib/src/sealed_store/store.rs:1049-1110 | every version of the allocations file a crash may leave is within the row cap its reader enforces, with one row per key |
| `StoreOnDisk.DiskIsBacked` | logos-rln-module/rust-lib/src/sealed_store/store.rs:1049-1110 | along any run in which no file was renamed into place unsynced, and the file-system history that realises it, the file can only come to hold versions the store's `disk` names |
| `StoreOnDisk.EveryCrashIsAStep` | logos-rln-module/rust-lib/src/sealed_store/store.rs:892-1000 | in such a run, whatever contents a crash leaves, some enabled crash step of the store reloads exactly those |
| `StoreOnDisk.EveryRestartIsAStep` | logos-rln-module/rust-lib/src/lib.rs:1636-1638 | in such a run, whatever the file holds when the process ends, some enabled restart step of the store reloads exactly that |
| `StoreOnDisk.MidWriteCrashLeavesAVersion` | logos-rln-module/rust-lib/src/sealed_store/fs.rs:14-38 | a crash after any system call of the ledger's write leaves an earlier version or the new one |
| `StoreOnDisk.SkippedSyncBringsBackTheOld` | logos-rln-module/rust-lib/src/sealed_store/fs.rs:82-93 | after a success that skipped a sync, some crash brings the previous version of the file back |
| `StoreOnDisk.ReissueIsRealised` | logos-rln-module/rust-lib/src/sealed_store/fs.rs:82-93 | on a file system without one of the syncs, a history of writes and one crash realises a run of the store that hands a new membership's first slot out twice |
| `NullifierLog.VerifierLog.RecordVerified` | logos-rln-module/rust-lib/src/nullifier_log.rs:65-84 | the static map's update and verdict are exactly `Record`: prune, then judge, and never replace a share |
| `NullifierLog.HoldsFirst` | logos-rln-module/rust-lib/src/nullifier_log.rs:65-84 | while no floor has passed its epoch, the log holds the first share accepted under a key |
| `NullifierLog.CollisionNamesEarlierShare` | logos-rln-module/rust-lib/src/nullifier_log.rs:65-84 | under any floors a collision names a different share that an earlier call with the same key delivered |
| `NullifierLog.IdealIff` | logos-rln-module/rust-lib/src/nullifier_log.rs:65-84 | all verdicts are those of perfect memory if and only if no floor passes an epoch between its first sighting and a later one |
| `NullifierLog.UnprunedIsIdeal` | logos-rln-module/rust-lib/src/nullifier_log.rs:65-84 | a log that never prunes judges every sighting against the first |
| `NullifierLog.PruningIsInvisible` | logos-rln-module/rust-lib/src/nullifier_log.rs:65-84 | with non-decreasing floors, each at or below its call's epoch, the pruned and the never-pruned log return the same verdicts |
| `NullifierLog.RewindHidesDoubleSignal` | logos-rln-module/rust-lib/src/nullifier_log.rs:14-19 | one forward clock reading followed by a rewind makes the pruned log accept what the unpruned one convicts |
| `EndToEnd.OnlyAcceptedAreLogged` | logos-rln-module/rust-lib/src/lib.rs:1470-1505 | invalid and not-ready proofs leave no trace: after any queries and restarts the log is that of the accepted calls alone, empty until the first one after a restart |
| `EndToEnd.ValidateOutcome` | logos-rln-module/rust-lib/src/lib.rs:1470-1512 | a proof is judged if and only if its epoch is within the gap of the clock, any carried epoch equals it, its external nullifier is that of epoch and application, its root is in a warm window and the cryptographic check passed; told to wait if and only if bound and the window is cold; otherwise invalid; only a judged proof touches the log, which then holds nothing older than the window |
| `EndToEnd.AcceptedIff` | logos-rln-module/rust-lib/src/lib.rs:1470-1490 | on every run the accepted queries are exactly those, and exactly the ones judged |
| `EndToEnd.GenerateOutcome` | logos-rln-module/rust-lib/src/lib.rs:1380-1394 | an epoch outside the window is refused with nothing changed; otherwise a slot is reserved with the window's lower end as candidate, and while the clock has not run back the floor never stands in the way |
| `EndToEnd.VerdictOfAccepted` | logos-rln-module/rust-lib/src/lib.rs:1495-1512 | an accepted proof gets the verdict of its call among the accepted calls |
| `EndToEnd.SteadyFloors` | logos-rln-module/rust-lib/src/lib.rs:1369-1371 | with a steady clock and one gap, the window check makes every floor non-decreasing and at or below its call's epoch, restarts aside |
| `EndToEnd.ValidateIsIdealIff` | logos-rln-module/rust-lib/src/lib.rs:1438-1512 | for any clocks, gaps and restarts, all answers are those of a verifier that never prunes and never restarts if and only if no floor and no restart came between an accepted proof and a later one with its nullifier |
| `EndToEnd.SteadyVerifierIsIdealIff` | logos-rln-module/rust-lib/src/nullifier_log.rs:14-19 | with a steady clock and one gap, that holds if and only if no restart came between two such proofs |
| `EndToEnd.AcceptedSpendsItsEpoch` | logos-rln-module/rust-lib/src/lib.rs:1400-1411 | the binding check makes an accepted proof spend a slot of the message's own epoch and application |
| `EndToEnd.SameNullifierSameShare` | logos-rln-module/rust-lib/src/lib.rs:1327-1347 | two accepted proofs of one prover with one nullifier spend one slot, so they carry one share |
| `EndToEnd.CollidesWith` | logos-rln-module/rust-lib/src/lib.rs:1495-1512 | a collision is with an earlier accepted proof of the same nullifier and another share |
| `EndToEnd.HonestNeverConvicted` | logos-rln-module/rust-lib/src/lib.rs:1327-1347 | while no sync is skipped, a prover that spends only granted slots is never judged a collision, whatever its crashes, the delivery order, retransmissions, other provers' proofs, prune floors and verifier restarts |
| `EndToEnd.TwoSharesConvict` | logos-rln-module/rust-lib/src/nullifier_log.rs:65-84 | two accepted proofs of one epoch and nullifier with different shares are judged a collision at one of the two, among any other proofs, while nothing is forgotten |
| `EndToEnd.ReissueConvicts` | logos-rln-module/rust-lib/src/lib.rs:1495-1512 | once a slot has been handed out twice, two different messages sent on it convict the prover, among any other proofs, while nothing is forgotten |
| `Supervisor.SupervisorCell.EnsureSlot` | logos-rln-module/rust-lib/src/worker.rs:137-152 | the in-place section of `ensure` is the step `Ensure` |
| `Supervisor.SupervisorCell.SpawnInto` | logos-rln-module/rust-lib/src/worker.rs:150-152 | slotting a worker of the current generation and counting it is the step `Spawn` |
| `Supervisor.SupervisorCell.WarmUpSection` | logos-rln-module/rust-lib/src/worker.rs:218-233 | `start`'s last section: a finished warm pass is joined, one in flight detached, and a new one spawned unless stopped |
| `Supervisor.SupervisorCell.AfterJoin` | logos-rln-module/rust-lib/src/worker.rs:147-152 | once its join has returned, a reaper spawns into the slot and releases the lock |
| `Supervisor.SupervisorCell.StartSection` | logos-rln-module/rust-lib/src/worker.rs:207-214 | the in-place first section of `start`: a generation is opened exactly after a stop |
| `Supervisor.SupervisorCell.StopSection` | logos-rln-module/rust-lib/src/worker.rs:246-250 | the in-place first section of `stop` |
| `Supervisor.SupervisorCell.CloseTurn` | logos-rln-module/rust-lib/src/worker.rs:256-267 | one turn of `stop`'s closing loop, or its end, is the step `Close` |
| `Supervisor.SupervisorCell.Epilogue` | logos-rln-module/rust-lib/src/worker.rs:176-181 | a worker's exit section, with its generation check and saturating decrement, is the step `ExitSection` |
| `Supervisor.EnsureServes` | logos-rln-module/rust-lib/src/worker.rs:137-152 | unless stopped, `ensure` with its join returned leaves the role served by a current unfinished worker: the one that served it, untouched, or one new one; nobody else is moved |
| `Supervisor.WarmUpServes` | logos-rln-module/rust-lib/src/worker.rs:218-233 | the warm pass is a new current worker each time, whatever became of the last |
| `Supervisor.StartServesEveryRole` | logos-rln-module/rust-lib/src/worker.rs:206-233 | from every state that meets the invariant, a whole `start` ends running, with a current poller, a current refresher and a new warm pass, in a new generation exactly after a stop |
| `Supervisor.StoppedSpawnsNothing` | logos-rln-module/rust-lib/src/worker.rs:139-141 | while stopped, `ensure` changes nothing |
| `Supervisor.FinishedAreJoined` | logos-rln-module/rust-lib/src/worker.rs:146-148 | a finished worker is joined before its slot is filled again, and before `stop` moves on |
| `Supervisor.UnfinishedAreDetached` | logos-rln-module/rust-lib/src/worker.rs:256-264 | `stop` detaches a worker that has not finished and waits for nobody |
| `Supervisor.NextKeepsInv` | logos-rln-module/rust-lib/src/worker.rs:137-268 | every step of every party keeps the exact count, the slots, the lock and the lifecycle discipline |
| `Supervisor.RunningIsExact` | logos-rln-module/rust-lib/src/worker.rs:61-63 | in every interleaving `running` is the number of current workers that have not run their exit section |
| `Supervisor.ExitTakesOne` | logos-rln-module/rust-lib/src/worker.rs:176-181 | a current worker's exit takes exactly one off the count, so the decrement never saturates; a superseded one takes nothing |
| `Supervisor.OneWorkerPerRole` | logos-rln-module/rust-lib/src/worker.rs:137-152 | at most one current worker holds the poller role and at most one the refresher role, over any restarts |
| `Supervisor.StoppedMeansNothingRuns` | logos-rln-module/rust-lib/src/worker.rs:245-268 | when `stop` has returned, nothing is counted or slotted and every worker is superseded |
| `Supervisor.JoinsNeedNoLock` | logos-rln-module/rust-lib/src/worker.rs:154-190 | every join made while holding the lock is on a worker past its last use of the lock |
| `Supervisor.LockIsAlwaysReleased` | logos-rln-module/rust-lib/src/worker.rs:137-268 | from every state meeting the invariant, steps that need the lock of nobody else release it: no deadlock on a join |
| `Supervisor.WaitIffWanted` | logos-rln-module/rust-lib/src/worker.rs:84-115 | a wait that returns says exactly whether its worker is still wanted, and a nudge alone never ends a non-subscriber's wait |
| `Supervisor.WakesWhom` | logos-rln-module/rust-lib/src/worker.rs:117-122 | a nudge ends the waits that subscribed to it, as due ticks, and no others; a stop ends them all |
| `Supervisor.SupersededNeverTicks` | logos-rln-module/rust-lib/src/worker.rs:100-115 | once a stop has begun or a newer generation exists, no later wait of that worker returns true, across any restarts |
| `Supervisor.UnserializedStopStrands` | logos-rln-module/rust-lib/src/lib.rs:1085-1088 | without LIFECYCLE, a whole start inside any stop's grace wait, from any state that meets the invariant, ends `Running` with every worker superseded, no slot filled and nothing counted |
| `Merkle.ReadPath` | logos-lez-rln-module/rust-lib/src/rln_core.rs:290-308 | the climbing loop fills both arrays with the siblings and direction bits from leaf to root |
| `Merkle.BitsSpellIndex` | logos-lez-rln-module/rust-lib/src/rln_core.rs:298-307 | the direction bits spell the leaf's index, lowest first |
| `Merkle.BuildMerkleProof` | logos-lez-rln-module/rust-lib/src/rln_core.rs:263-317 | exactly which accounts and indices give a proof and which error the others give, and every field of the proof |
| `Merkle.NodeIsSubRoot` | logos-lez-rln-module/rust-lib/src/rln_core.rs:263-317 | a consistent account's stored and defaulted nodes are the roots of its own leaves |
| `Merkle.PathFoldsToRoot` | logos-lez-rln-module/rust-lib/src/rln_core.rs:263-317 | for any hash, any depth and any in-range leaf, the path folds from the leaf to the stored root |
| `Merkle.OpeningIsBinding` | logos-lez-rln-module/rust-lib/src/rln_core.rs:263-317 | with a collision-free hash, only the stored leaf and the path read there fold to the root |
| `Merkle.FindBelow` | logos-lez-rln-module/rust-lib/src/rln_core.rs:462-475 | the greatest matching index below the bound, if any matches |
| `Merkle.FoundLeafOpens` | logos-lez-rln-module/rust-lib/src/rln_core.rs:462-475 | a leaf is found if and only if it is stored below next_index, at its greatest index, and the proof built there opens exactly it |
| `DepthBridge.ZeroLadder` | logos-rln-module/rust-lib/src/proof.rs:424-440 | rung k is the root of the all-empty tree of height k |
| `DepthBridge.PadPath` | logos-rln-module/rust-lib/src/proof.rs:458-467 | the path gains the empty siblings from its depth to the circuit's, the indices as many zeros |
| `DepthBridge.FoldRoot` | logos-rln-module/rust-lib/src/proof.rs:471-480 | the loop lifts a root that is a field element and passes any other string through |
| `DepthBridge.PaddedFoldIsLift` | logos-rln-module/rust-lib/src/proof.rs:424-480 | folding any leaf through the padded path equals lifting what its short path folds to, for any hash and depth |
| `DepthBridge.LiftIsFullTree` | logos-rln-module/rust-lib/src/proof.rs:424-480 | the lifted root is the root of the full-depth tree whose extra leaves are all empty |
| `DepthBridge.BridgeIsExact` | logos-rln-module/rust-lib/src/proof.rs:424-480 | from a consistent account: padded path, lifted stored root and full-depth tree agree |
| `PathCache.Caches.Hit` | logos-rln-module/rust-lib/src/path_cache.rs:50-56 | a cached path is served exactly when it was cached for the current leaf index |
| `PathCache.Caches.FillPathCache` | logos-rln-module/rust-lib/src/path_cache.rs:60-95 | a good snapshot overwrites the entry with its padded path and the window with its lifted roots if any is readable; a bad one changes neither |
| `PathCache.LiftAndRead` | logos-rln-module/rust-lib/src/path_cache.rs:76-90 | the loop lifts every reported root and keeps the readable ones in order |
| `PathCache.RootsReplyOutcome` | logos-rln-module/rust-lib/src/provider.rs:508-539 | which replies the refresher takes, and what it makes of each root: a bare list passes unlifted, an object is lifted from its depth |
| `PathCache.RawsInTurn` | logos-rln-module/rust-lib/src/path_cache.rs:84-89 | the window is, root by root and in order, the bytes of those that have any |
| `PathCache.FillServesItsOwnWindow` | logos-rln-module/rust-lib/src/path_cache.rs:60-95 | a snapshot whose path folds to one of its roots caches a path whose circuit root is in the window that fill adopts, whatever depth it reports |
| `PathCache.PaddedToCircuitIff` | logos-rln-module/rust-lib/src/path_cache.rs:67-75 | the cached path has the circuit's length if and only if the reported depth is the path's length and at most the circuit's, or the path is already that long and the depth no less |
| `PathCache.BothPathsBuildOneWindow` | logos-rln-module/rust-lib/src/provider.rs:512-539 | the refresher accepts a depth exactly from 1 to the circuit's, and then builds the very window the fill adopts |
| `Base58.Position` | logos-lez-rln-module/rust-lib/src/base58.rs:12-19 | a character's place in the alphabet, inverse to `Letter`, for exactly the 58 letters |
| `Base58.LettersAreTheAlphabet` | logos-lez-rln-module/rust-lib/src/base58.rs:12 | the letters run 1-9, A-H, J-N, P-Z, a-k, m-z |
| `Base58.MulAddBytes` | logos-lez-rln-module/rust-lib/src/base58.rs:20-29 | one carry pass multiplies the byte numeral by 58 and adds, with a carry that stays within 32 bits |
| `Base58.MulAddDigits` | logos-lez-rln-module/rust-lib/src/base58.rs:60-69 | one carry pass multiplies the base-58 numeral by 256 and adds, with a carry that stays within 32 bits |
| `Base58.Accumulate` | logos-lez-rln-module/rust-lib/src/base58.rs:16-30 | reading succeeds exactly on strings in the alphabet and yields the number they spell |
| `Base58.Decode32` | logos-lez-rln-module/rust-lib/src/base58.rs:16-51 | decoding succeeds if and only if all characters are in the alphabet and the value is below 256^32; the 32 bytes have that value |
| `Base58.Encode32` | logos-lez-rln-module/rust-lib/src/base58.rs:57-83 | the text spells the same value, with one leading 1 for each leading zero byte |
| `Base58.RoundTrip` | logos-lez-rln-module/rust-lib/src/base58.rs:16-83 | decoding the encoding of any 32 bytes returns them, leading zeros included |
| `Format.CredentialAad` | logos-rln-module/rust-lib/src/sealed_store/format.rs:97-110 | the growing buffer ends as the credential payload |
| `Format.SectionMacPayload` | logos-rln-module/rust-lib/src/sealed_store/format.rs:113-134 | sorting and appending ends as the section payload |
| `Format.RootMacPayload` | logos-rln-module/rust-lib/src/sealed_store/format.rs:137-150 | appending each MAC ends as the root payload |
| `Format.PurposesAreNamed` | logos-rln-module/rust-lib/src/sealed_store/format.rs:103-143 | the three purposes are the texts the payloads start with |
| `Format.CredentialSpells` | logos-rln-module/rust-lib/src/sealed_store/format.rs:97-110 | a reader that knows only lengths and big-endian numbers finds, in this order, the purpose, hash, registry id, rln identifier, commitment, time and uuid |
| `Format.SectionSpells` | logos-rln-module/rust-lib/src/sealed_store/format.rs:113-134 | it finds the purpose, hash, uuid, size, floor, count, and then the sorted rows, each application, epoch and count, and nothing else |
| `Format.RootSpells` | logos-rln-module/rust-lib/src/sealed_store/format.rs:137-150 | it finds the purpose, uuid, count, and then each key with its MAC, and nothing else |
| `Format.SortedByAppThenEpoch` | logos-rln-module/rust-lib/src/sealed_store/format.rs:120-121 | the rows come by application, then by epoch |
| `Format.CredentialInjective` | logos-rln-module/rust-lib/src/sealed_store/format.rs:97-110 | with lengths below 2^32 the credential payload determines the hash, every identity field and the uuid |
| `Format.SectionInjective` | logos-rln-module/rust-lib/src/sealed_store/format.rs:113-134 | two section payloads are equal if and only if hash, size, floor, uuid and sorted rows are |
| `Format.SectionCoversRowsInAnyOrder` | logos-rln-module/rust-lib/src/sealed_store/format.rs:113-134 | with one row per key, equal if and only if the other fields are equal and the rows are reorderings of each other |
| `Format.RootInjective` | logos-rln-module/rust-lib/src/sealed_store/format.rs:137-150 | the root payload determines every section MAC and the uuid |
| `Format.PurposesAreDisjoint` | logos-rln-module/rust-lib/src/sealed_store/format.rs:92-150 | no payload of one kind equals one of another, whatever either covers |
| `Format.CredentialsDistinctIff` | logos-rln-module/rust-lib/src/sealed_store/format.rs:92-110 | credential payloads over strings of at most n bytes are injective if and only if n is below 2^32 |
| `Format.SectionsDistinctIff` | logos-rln-module/rust-lib/src/sealed_store/format.rs:92-134 | section payloads over strings and lists of length at most n are injective, up to the order of rows with unique keys, if and only if n is below 2^32 |
| `Format.RootsDistinctIff` | logos-rln-module/rust-lib/src/sealed_store/format.rs:92-150 | root payloads over key-ordered lists and strings of length at most n are injective if and only if n is below 2^32 |
| `EpochBytes.EpochRoundTrip` | logos-rln-module/rust-lib/src/proof.rs:346-364 | an encoded epoch decodes to itself |
| `EpochBytes.EpochLayout` | logos-rln-module/rust-lib/src/proof.rs:346-350 | least significant byte first, and zeros after the eighth |
| `EpochBytes.EpochEncodingIsABijection` | logos-rln-module/rust-lib/src/proof.rs:346-364 | 32 bytes decode to an epoch if and only if they are its encoding |
| `DurableFile.Volume.WriteDurable` | logos-rln-module/rust-lib/src/sealed_store/fs.rs:14-38 | the call passes through exactly the states of `Path`, stops at the first failing system call, and succeeds exactly when none failed |
| `DurableFile.CrashIsSafe` | logos-rln-module/rust-lib/src/sealed_store/fs.rs:14-38 | losing any subset of unsynced directory changes and any unsynced bytes leaves an allowed complete content and a state ready for the next write |
| `DurableFile.PathIsSafe` | logos-rln-module/rust-lib/src/sealed_store/fs.rs:14-38 | when the file syncs, every intermediate state is ready for the old contents and the new, and a durable success leaves only the new |
| `DurableFile.CrashLeavesOldOrNew` | logos-rln-module/rust-lib/src/sealed_store/fs.rs:125-141 | under one writer whose files sync, after any earlier writes, failures and crashes, a crash anywhere leaves complete old or complete new contents, and the new ones after a success with both syncs |
| `DurableFile.CutShortIsAnotherCall` | logos-rln-module/rust-lib/src/sealed_store/fs.rs:14-38 | a call cut short after any of its states leaves what a failed or completed call leaves |
| `DurableFile.UnsyncedFileTears` | logos-rln-module/rust-lib/src/sealed_store/fs.rs:82-93 | a file renamed into place unsynced holds whatever bytes the crash left in it |
| `DurableFile.UnsyncedRenameIsLost` | logos-rln-module/rust-lib/src/sealed_store/fs.rs:82-93 | a rename whose directory was never synced can be lost whole, and the contents just before it are back |
| `DurableFile.DurableIffSynced` | logos-rln-module/rust-lib/src/sealed_store/fs.rs:82-93 | a reported success survives every crash if and only if both syncs were real, not skipped as unsupported |
| `WalletHome.Selector.ProvisionHome` | logos-lez-rln-module/rust-lib/src/wallet.rs:493-510 | marker first, then config: which files exist after either step fails |
| `WalletHome.Selector.UseNetworkCall` | logos-lez-rln-module/rust-lib/src/wallet.rs:641-749 | a call's whole effect on home and selection, and that it is accepted exactly when the resulting binding matches |
| `WalletHome.BringUpOutcome` | logos-lez-rln-module/rust-lib/src/wallet.rs:427-455 | a bring-up from home and environment to files and selection: a set sequencer is written, else the table's for a set network, each under its own binding and marker; an unknown network fails, nothing set waits, and a configured home is adopted under its marker whatever is set |
| `WalletHome.UseNetworkOutcome` | logos-lez-rln-module/rust-lib/src/wallet.rs:641-706 | from a waiting process: the table's sequencer is written for a known network and the reference accepted, an unknown one is refused with nothing changed, and a home configured meanwhile is adopted |
| `WalletHome.ReplyIs` | logos-lez-rln-module/rust-lib/src/wallet.rs:709-749 | the reply in every selection: by the bound network alone, any network on an operator's home, and never once failed |
| `WalletHome.FailedStepFails` | logos-lez-rln-module/rust-lib/src/wallet.rs:575-579 | a file step that fails ends the bring-up as failed, with the files written so far |
| `WalletHome.FileStepsAreUnsynced` | logos-lez-rln-module/rust-lib/src/wallet.rs:512-516 | a power cut may undo each file step since the last one, and garble a written marker |
| `WalletHome.NextKeepsInv` | logos-lez-rln-module/rust-lib/src/wallet.rs:568-594 | every bring-up, call, file step, process end, power cut and operator action keeps config, marker, selection and acceptances in agreement |
| `WalletHome.ExistingConfigRewrittenIff` | logos-lez-rln-module/rust-lib/src/wallet.rs:427-455 | in every run, a step of the program changes a config that exists if and only if it is the config step of a provisioning, and the config it replaces is then an operator's; a power cut changes it only back to none or to an operator's; with no provisioning under way the program changes nothing in the home |
| `WalletHome.StagingMidwayIsOverwritten` | logos-lez-rln-module/rust-lib/src/wallet.rs:493-510 | such a run exists: an operator's config staged after the plan was made is overwritten |
| `WalletHome.WrittenConfigHasItsMarkerIff` | logos-lez-rln-module/rust-lib/src/wallet.rs:487-516 | after any process ends, restarts and power cuts, a config this module wrote carries the marker of its binding if and only if no operator staged another marker between the two file steps and no power cut kept the config and lost its marker |
| `WalletHome.PowerCutLosesTheMarker` | logos-lez-rln-module/rust-lib/src/wallet.rs:512-516 | such a cut exists: the unsynced config rename survives, the marker's does not, and the next process accepts any network |
| `WalletHome.RemarkedConfigReadsAsOperators` | logos-lez-rln-module/rust-lib/src/wallet.rs:487-510 | such a run exists: a config written for a network stands next to no marker, and reads as the operator's own |
| `WalletHome.SettledIsPermanent` | logos-lez-rln-module/rust-lib/src/wallet.rs:568-594 | within a process Bound and Failed never change |
| `WalletHome.AcceptedStaysAccepted` | logos-lez-rln-module/rust-lib/src/wallet.rs:709-749 | a reference a process has accepted is never later refused by it |
| `WalletHome.KeptSurvivesRestartsIff` | logos-lez-rln-module/rust-lib/src/wallet.rs:427-455 | a reference accepted under a recorded binding is refused by no later process, under any environment and while the machine stays up, if and only if the marker then in the home admits it |
| `WalletHome.KeptSurvivesPowerCutsIff` | logos-lez-rln-module/rust-lib/src/wallet.rs:512-516 | power cuts included, if and only if no unsynced file step is left to lose: no config where there was none, and no marker a cut may leave that does not admit it |
| `WalletHome.RecordedSurvivesRestartsIff` | logos-lez-rln-module/rust-lib/src/wallet.rs:427-455 | on the run itself, while the machine stays up: if and only if no operator staged a marker that does not admit it between the two file steps |
| `Dispatch.Pending.OnCompletion` | logos-rln-module/rust-lib/src/provider.rs:156-172 | the completion's section under the mutex is `Complete` |
| `Dispatch.Pending.OnReturn` | logos-rln-module/rust-lib/src/provider.rs:173-191 | the dispatcher's section under the mutex is `Settle` |
| `Dispatch.DeliveredExactlyOnce` | logos-rln-module/rust-lib/src/provider.rs:145-191 | in every interleaving a completion is returned as the error with `on_done` never called, or delivered by exactly one call carrying it; an SDK error and an empty reply are failures, any other reply a success with its text |
| `Dispatch.NeverTwice` | logos-rln-module/rust-lib/src/provider.rs:145-191 | at no moment has `on_done` been called twice, or with anything but what was reported |
| `Dispatch.ReturnedIffEarlyFailure` | logos-rln-module/rust-lib/src/provider.rs:173-191 | the error is returned exactly when an SDK error or an empty reply was reported before the dispatcher's section |
| `Lifecycle.CacheStore.UpdateCache` | logos-rln-module/rust-lib/src/sealed_store/store.rs:575-595 | the row's edit, stamp, persist and publication in place; the returned state is the one overwritten; a refused call changes nothing |
| `Lifecycle.CacheStore.SettleJob` | logos-rln-module/rust-lib/src/poller.rs:151-233 | one poller record or read tail: its write, and an event that names the state now stored and the state overwritten |
| `Lifecycle.EmissionIsExact` | logos-rln-module/rust-lib/src/lib.rs:917-956 | from any store, the event decided from the returned prior is the change actually made to the row, and there is none when nothing changed, the write failed or the race was lost |
| `Lifecycle.ReadStores` | logos-rln-module/rust-lib/src/lib.rs:905-935 | what a state read stores when no fresher writer came between: the registry's state, leaf and rate; failed exactly when a pending row is absent more than 300 seconds after its submission; erased when absent and ever seen; otherwise nothing |
| `Lifecycle.ConfirmStores` | logos-rln-module/rust-lib/src/poller.rs:161-202 | the poller stores the same of a pending row, and times it out at the same moments |
| `Lifecycle.RefreshStores` | logos-rln-module/rust-lib/src/poller.rs:209-233 | a refresh stores the registry's word, or erased |
| `Lifecycle.SubmitStores` | logos-rln-module/rust-lib/src/lib.rs:514-600 | a submission's error fails a row exactly if it is still pending and not retryable, a gifter's if still pending, a refused submit call always; a reply is kept with its leaf estimate and moves no state; none is announced |
| `Lifecycle.InsertStores` | logos-rln-module/rust-lib/src/sealed_store/store.rs:441-449 | a registration opens a pending row with its rate, in sight of every reader |
| `Lifecycle.WorkLists` | logos-rln-module/rust-lib/src/sealed_store/store.rs:527-555 | the poller confirms pending rows and refreshes active, grace-period, expired and unknown ones |
| `Lifecycle.ClosedStoresNothing` | logos-rln-module/rust-lib/src/sealed_store/store.rs:575-586 | a closed store, or an unknown membership, takes no write |
| `LifecycleRuns.NextKeepsInv` | logos-rln-module/rust-lib/src/poller.rs:111-233 | every snapshot, write, callback, insertion, emission and close keeps events, writes and rows accounted for |
| `LifecycleRuns.EventsAreTheStoredChanges` | logos-rln-module/rust-lib/src/lib.rs:905-956 | over every interleaving the events fired and in flight are one for one the stored changes by poller and reads; each write overwrote what the one before it left; submit callbacks only ever move Pending to Failed, and a retryable error moves nothing |
| `Lifecycle.ReadEmitsIffItWins` | logos-rln-module/rust-lib/src/lib.rs:905-956 | a read emits exactly when its compare-and-set wins, changes the state and is stored; a lost one leaves the row as the winner left it |
| `LifecycleRuns.EventsBalance` | logos-rln-module/rust-lib/src/lifecycle.rs:187-216 | once all events are out, entries into a state less exits from it, in any order, plus the silent changes, equal where the membership is now less where it began |
| `LifecycleRuns.ObserverKnowsTheState` | logos-rln-module/rust-lib/src/lifecycle.rs:187-216 | without silent changes, an observer of the unordered events knows the current state exactly |
| `Lifecycle.FailedPersistIsNeverAnnounced` | logos-rln-module/rust-lib/src/sealed_store/store.rs:585-594 | from any state with a pending membership, a confirmation whose sidecar write failed and the same process's next successful one together emit nothing |
| `Lifecycle.RestartAnnounces` | logos-rln-module/rust-lib/src/sealed_store/store.rs:1005-1047 | a process that starts on the old sidecar finds the membership pending again, and its confirmation is announced |
| `LifecycleRuns.StampIsPermanent` | logos-rln-module/rust-lib/src/lifecycle.rs:100-103 | the first-active stamp, once set, is never changed by any run |
| `LifecycleRuns.SeenThenAbsentIsErased` | logos-rln-module/rust-lib/src/lifecycle.rs:155-185 | a membership ever stored as seen on the registry merges to erased when absent, through any recorded failures, exactly unless it is pending |
| `RoundRobin.PickIsLeastAbove` | logos-rln-module/rust-lib/src/select.rs:64-122 | selection fails exactly when nothing is usable; otherwise it is the least candidate above the cursor, or the least of all |
| `RoundRobin.Rotation.SelectHash` | logos-rln-module/rust-lib/src/select.rs:106-122 | the shared table's update: the pick becomes this scope's cursor and no other changes; a failure changes nothing |
| `RoundRobin.ChosenExactlyOnce` | logos-rln-module/rust-lib/src/select.rs:106-122 | a candidate usable at every call from one wrap to the next is picked exactly once between them, under any churn |
| `RoundRobin.StableSetIsRotated` | logos-rln-module/rust-lib/src/select.rs:106-122 | over an unchanging set of n, n consecutive picks from any cursor are one rotation of it in hash order |
| `RoundRobin.ScopesAreIndependent` | logos-rln-module/rust-lib/src/select.rs:52-54 | a scope's cursor is what its own calls alone leave |
| `RoundRobin.AnswersAreIndependent` | logos-rln-module/rust-lib/src/select.rs:52-54 | each answer is the one its scope would have had on its own |
| `RegisterWatch.InFlight.RegisterWatch` | logos-lez-rln-module/rust-lib/src/lib.rs:703-772 | the loop's end, its transactions and the in-flight table are those of `Follow` |
| `RegisterWatch.OneOutstandingAtATime` | logos-lez-rln-module/rust-lib/src/lib.rs:703-772 | at most five re-sends, and at every moment all but the latest of the watcher's transactions are in a block; when it gives up or refuses, all are |
| `RegisterWatch.TurnOutcome` | logos-lez-rln-module/rust-lib/src/lib.rs:709-769 | one turn in full: landed exactly when the membership is there; a reverted registration is given up exactly after five re-sends, refused exactly when the preflight speaks against it, and otherwise sent again; anything else waits |
| `RegisterWatch.RevertedIsResent` | logos-lez-rln-module/rust-lib/src/lib.rs:750-769 | at any look of any run, a reverted registration under the cap and not refused is re-sent and followed from then on |
| `RegisterWatch.SlotTellsTheOutcome` | logos-lez-rln-module/rust-lib/src/lib.rs:731-769 | the slot is freed only after five re-sends, holds a refusal only from the preflight, and otherwise the followed transaction; no other slot changes |
| `RegisterWatch.LandedEndsTheWatch` | logos-lez-rln-module/rust-lib/src/lib.rs:720-726 | a look that finds the membership ends the watch without another send |

## Left out

- Zerokit proving and verifying, Poseidon, Argon2, HKDF, AEAD and HMAC bodies, and secret recovery from colliding shares: foreign code, abstract here.
- Tampered or unreadable sealed-store files, the keystore password flow and the quarantine that answers them: a quarantined membership is refused and a re-registration resets it, but how it became so is not modelled, nor is a file torn so that it no longer loads, which grants nothing.
- SealedStore.ReserveKeepsInv: `reserve_message_id`, `insert` and the loader are functions on store values, so a closed store's refusal is not modelled and the sharing of the store between threads is captured only as an order of whole calls under its one write lock.
- Lifecycle.CacheStore.UpdateCache: the closures callers pass, which edit the row's fields in place, are values of the datatype `Edit`; a registration whose insert fails half-way is not modelled, nor is a process that dies between a write and its event.
- EndToEnd.ValidateIsIdealIff: the handler is a function on the log, and one epoch size holds for all queries.
- Merkle.BuildMerkleProof: the account is a map of nodes with per-level defaults; the byte layout of the shard and its bounds checks are one `TooShort` case.
- Supervisor.SupervisorCell.EnsureSlot: thread creation always succeeds, and the length of the grace wait is left open: `stop` may close at any moment after it began.
- WalletHome.Selector.UseNetworkCall: one home per process; the wallet open, its retries and the status text are not modelled, of a config torn by a power cut only that it exists is, and references are taken trimmed and in lower case.
- DurableFile.Volume.WriteDurable: two names in one directory; permissions and the loose, unsynced writer are not modelled.
- RoundRobin.Rotation.SelectHash: the other three strategies pick by a given hash, the sole candidate, or the highest rate limit with ties to the lowest hash; each is one scan of the same candidates with no state kept between calls, so there is no run to reason about.
- RegisterWatch.InFlight.RegisterWatch: the deadline is the end of the looks; expiry of in-flight entries, the preflight's arithmetic and the instruction sent are inputs.
- `current_epoch`, JSON options and replies, registry id parsing, views, catalogues and the user interface: formatting and plumbing.
- HTTP and JSON-RPC, the SDK transport, the keychain command line, the panic hook: input and output.
- Durations, retry cadences and log messages, except where a step depends on them.
- "A confirmed membership never returns to Failed" and "leaf_index stays authoritative once active" are not claimed: the poller's writes are unconditional, and a submit callback sets the leaf estimate in any state.
