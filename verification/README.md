# Adesh control plane: a Dafny model and its proofs

Adesh is a daemon that drafts actions for a person, asks for approval, and only then runs tools. This project models
the parts of it where a mistake would be expensive, and proves what they keep:

- **Approval, execution and recovery.** Consuming an approval mints one permitted syscall; an executor takes a timed
  lease on the operation, claims the syscall, calls the tool with retries and settles it; a recovery loop picks up what
  was approved and never claimed. Executors, recovery, decisions, cancellations, crashes and replayed answers are
  interleaved one storage call at a time.
- **The pinned capability** an approval was built from, the review queue that changes the active one, the schema check
  and the normalisation of email arguments that stand between an approval and its syscall.
- **Content addressing.** The canonical JSON printer, a parser that undoes it, and the workflow registry stored under
  the hash of its text.
- **The job queue** with fencing epochs, dedupe keys, retry delays and dead letters.
- **The memory-claim store**: alignment, the strength contest, supersession, promotion, and the greedy choice of what
  is surfaced.
- **Message framing** over a byte stream, and the **sliding-window rate limiter**.

## How it is built

Each storage call is one transaction. `Database.dfy` gives, for every call, the state it commits and the answer it
returns, as a function; `SqliteStorage.dfy` runs the same calls statement by statement on a private copy of the tables,
commits by assignment, and is proved to do what the function says. The functions are then what the results about whole
runs speak of. The job queue, the review queue, the workflow registry, the memory-claim store, the byte reader and
writer and the rate limiter are built the same way. `Executor.dfy` runs the daemon's executor and recovery loops against
the storage provider; `ExecutorRuns.dfy` shows that what they do is a run of one executor's moves in the state machine of
`Execution.dfy`, over which `ExecutionSafety.dfy` and `WorkNotLost.dfy` prove safety for every interleaving. There the step
`Elsewhere` makes any storage call but those of executors and decisions, with any arguments, which is more than the
program's other handlers do: what is proved of every run holds of theirs. `RequestHandlers.dfy` adds the handlers of
submitted requests with their own progress, and shows that the daemon's runs are among those in which each operation is
submitted by one handler. The runs given as counterexamples take only steps that the program takes, apart from the two
of `StrandedWork.dfy`, which say so.

What a call comes to is said a second time without the function that computes it, so that neither can go wrong alone:
`ApprovalDecisions.dfy` and `StorageOutcomes.dfy` say of every storage call exactly when it goes through and what every
table then holds, `ExecutionOutcomes.dfy` tells an execution by the tool's answers, `JobOutcomes.dfy` a job's status by the
last call that settled it, `StoredClaims.dfy` the rows of the memory store by the statement and its rivals,
`McpFrames.dfy` the reader by the bytes of a frame, and `Keys.dfy` a normalised key by the words it is made of.

Times are integers. Row ids that the program draws at random are parameters, so a clash of ids is a case of its own.
Queries answer with any rows their SQL allows: the helper methods that stand for the database engine are used through
their contracts only, and rows that tie in `ORDER BY` may come in any order. A tool is a function from syscall and
attempt to an outcome, and a count of its calls. The content hash is a function; results that need it to be free of
collisions say so. Lower-casing of whole strings enters as a function where the library's full table would be needed.

### Where the program does not do what one might expect

- `docs/specs/active/storage_semantics_txn.md:188-199` (section 5.3) asks that only one worker at a time advance an
  operation, for which it allows a row-level lock with lease semantics, and names duplicated syscalls as what follows
  otherwise. Acquiring is exclusive, as `docs/specs/active/storage_provider_port_contract.md:221-233` (section 7.1)
  demands (`LeasesExclude`), but the write that claims a syscall checks neither the lease nor its epoch, and accepts a row
  that is `executing` already (`crates/adesh-storage-sqlite/src/storage.rs:3112-3169`). `ClaimedOnceExactly` gives the
  exact condition under which every syscall is claimed once, `CalledWithinAttempts` bounds the tool calls under that
  condition alone, `ClaimedAndCalledAtMostOnce` proves both when claims are written before the lease runs out, and
  `EveryApprovalCanBeClaimedTwice` and `OneRunClaimsTwice` give the runs in which neither holds.
- `reference/provider_interfaces_summary.md:66` gives `update_operation_state` an idempotency key; the code takes none,
  and does not look at the state it leaves. `WorkWaitsExactly` says for every run which writes strand approved work, and
  `UngatedHandlerStrands` and `UngatedHandlerRepeats` what a second handler of one request could do through the storage
  calls alone. What keeps it from that is the unique operation of a gate decision
  (`crates/adesh-storage-sqlite/migrations/0001_m1.sql:95-97`), which the handler stores before it proposes anything:
  `DaemonSubmitsOnce` and `DaemonLosesNoWork`.
- `docs/specs/active/storage_semantics_txn.md:147-151` (section 4.3) asks that the answer to a request with a key be stored
  before it is given, so that the key is answered the same from then on. Every call does so but one: verifying a challenge
  that is verified already is answered and not stored (`crates/adesh-storage-sqlite/src/storage.rs:2600-2622`).
  `CallStores` says that this is the only exception, `RepeatedRequestIsAnsweredAlike` what holds without it, and
  `UnstoredAnswerDiffers` shows it.
- Releasing a lease deletes its row, so the next epoch is 1 again. Until then the epoch is a fence
  (`EpochFencesUntilReleased`); across a release a number that was refused becomes valid again
  (`ReleasedEpochIsValidAgain`).
- The automatic retry delay is the intended one up to the 63rd failure; at the 64th the shifted bit is the sign. From the
  65th on a build that checks for overflow panics, and any other starts over at one second (`DelayIsBackoffExactly`,
  `WaitStartsOver`). At most 64 configured attempts keep clear of all this.
- A claim listing is cut to 100 rows before statuses and types are looked at, so in a larger scope two accepted claims
  can contradict each other. `StoreConsistentExactly` says exactly when a store does this, in terms of what stood before
  it; `ConflictingKeysAreBothAccepted` is a run for any two keys in conflict, with the program's own comparisons.
- A frame cut before its header name is complete reads as the clean end of the stream (`CutFrameIsNoPayload`).
- `docs/specs/active/storage_semantics_txn.md:90-95` (section 2.3) wants a `Conflict` when the base version of a change
  is no longer current. An approval does not look at the base (`ApprovedExactly`): after any run, of two pending
  proposals made against one version both can be applied (`SecondApprovalIsStale`, `StaleProposalIsApplied`).
  `ActivationsFollowBases` shows that comparing the base at each activation is exactly the check that is missing.

## Model

| member | source | states |
|---|---|---|
| ExecutionSafety.ClaimedAndCalledAtMostOnce | crates/adesh-daemon/src/http/routes.rs:178-262 | over every interleaving of decisions, replayed decisions, recovery, executors and crashes in which live executors have distinct runner names and claims are written under an unexpired lease, each syscall is claimed at most once and its tool called at most max(1, configured attempts) times |
| ExecutionSafety.AlwaysSound | crates/adesh-daemon/src/http/routes.rs:217-347 | in every run at all, a syscall has left `permitted` exactly when it was claimed, and an executor working on a syscall is the one that claimed it |
| StaleClaims.ClaimedOnceExactly | crates/adesh-storage-sqlite/src/storage.rs:3135-3152 | with no assumption on the run: syscalls are claimed at most once if and only if no claim is written over a row that is already `executing` |
| StaleClaims.CallsFollowClaims | crates/adesh-daemon/src/http/routes.rs:241-347 | in any run at all, a syscall's tool is called at most max(1, configured attempts) times for each claim of it |
| StaleClaims.CalledWithinAttempts | crates/adesh-daemon/src/http/routes.rs:237-347 | with no lease, clock or runner looked at: if no claim is written over a row that is already `executing`, each tool is called at most max(1, configured attempts) times |
| ClaimedTwice.StaleClaimIsAccepted | crates/adesh-daemon/src/http/routes.rs:225-240 | from any state where an executor is about to claim its operation's only recoverable work under a lapsed lease, every answer of the recovery query offers that work, recovery takes the lease over and claims, and the first executor's claim is accepted too |
| ClaimedTwice.SleepingExecutorGoesStale | crates/adesh-daemon/src/http/routes.rs:185-200 | an executor started on its operation's only work ends up in such a state if it sleeps for as long as its lease lasts |
| ClaimedTwice.EveryApprovalCanBeClaimedTwice | crates/adesh-daemon/src/http/routes.rs:178-462 | after any run with one submitting handler per operation, every approval that goes through on an operation nobody leases can end with two claims of its syscall and twice the configured tool calls |
| ClaimedTwice.OneRunClaimsTwice | crates/adesh-daemon/src/http/routes.rs:178-462 | one such run from the migrated database: submission, approval, sleep, takeover, two claims, twice the configured calls |
| WorkNotLost.NoApprovedWorkIsLost | crates/adesh-storage-sqlite/src/storage.rs:5186-5225 | while each operation is submitted by one handler, a syscall still permitted belongs to an operation that was cancelled or that recovery returns, in exactly one group that holds the syscall |
| WorkNotLost.AlwaysKept | crates/adesh-daemon/src/http/routes.rs:765-1133 | the invariant behind it: one approval per operation, undecided until its handler has finished, and permitted work always waiting |
| StrandedWork.WorkWaitsExactly | crates/adesh-storage-sqlite/src/storage.rs:1261-1313 | in any run at all: every permitted syscall stays cancelled or recoverable after every step if and only if no step writes an operation that holds one to anything but cancelled, or running and pending execution |
| StrandedWork.OneHandlerIsSafe | crates/adesh-daemon/src/http/routes.rs:765-1133 | runs with one submitting handler per operation write that way only |
| StrandedWork.UngatedHandlerStrands | crates/adesh-storage-sqlite/src/storage.rs:1261-1313 | the storage calls alone do not prevent the loss: if a second handler of a request, answered with the operation while it was new, went on past the gate decision, then after an approval, a crash, and the second handler's own approval item and state write, and again after that item is denied, the approved syscall would be permitted, its operation not cancelled, and no answer of the recovery query would hold it |
| RequestHandlers.DaemonSubmitsOnce | crates/adesh-storage-sqlite/migrations/0001_m1.sql:95-97 | the unique operation of a gate decision does prevent it: whatever handlers of repeated requests do between their storage calls, every run of the daemon is one in which each operation is submitted by one handler |
| RequestHandlers.SecondHandlerEndsAtTheGate | crates/adesh-daemon/src/http/routes.rs:778-870 | a request sent twice under its key gets two handlers of one operation, both of which read it as new; the first goes on and the second ends at the gate decision with nothing written |
| RequestHandlers.GoesOnExactly | crates/adesh-daemon/src/http/routes.rs:765-870 | a handler goes on past reading its operation exactly when that is still new, and past the gate exactly when the operation has no gate decision yet; otherwise it ends with nothing written |
| RequestHandlers.OneHandlerPassesTheGate | crates/adesh-daemon/src/http/routes.rs:860-880 | at any moment at most one handler of an operation can still store an approval item for it or write its state |
| RequestHandlers.DaemonWritesSafely | crates/adesh-daemon/src/http/routes.rs:765-1133 | so no run of the daemon writes an operation that holds a permitted syscall in a way that strands it |
| RequestHandlers.DaemonLosesNoWork | crates/adesh-storage-sqlite/src/storage.rs:5186-5225 | and in every run of the daemon, with no assumption on how often requests are sent, a permitted syscall belongs to an operation that was cancelled or that recovery returns, in exactly one group that holds the syscall |
| StrandedWork.UngatedHandlerRepeats | crates/adesh-storage-sqlite/src/storage.rs:2351-2388 | likewise, were the second handler's item approved instead, the one request would have two recoverable syscalls of the same action |
| ExecutionRuns.WorldIsRun | crates/adesh-daemon/src/http/routes.rs:178-462 | whatever executors, recovery and handlers do, the database they leave is the outcome of a sequence of storage calls |
| ExecutionRuns.WorldsKeepTheLedger | crates/adesh-storage-sqlite/src/storage.rs:2686-3075 | so the log, the balance of grants and the budget of decisions hold in every interleaving |
| Recovery.GroupedIsExact | crates/adesh-storage-sqlite/src/storage.rs:5203-5225 | the grouping loop's answer holds exactly the recoverable syscalls, each under its own operation |
| Recovery.GroupedWait | crates/adesh-storage-sqlite/src/storage.rs:5186-5225 | a syscall is in the answer exactly when it is permitted, its operation is running and still waits for execution, and the operation's trace is there |
| Recovery.GroupsCarryTraces | crates/adesh-storage-sqlite/src/storage.rs:5203-5225 | each group carries the trace of its operation |
| Recovery.GroupRows | crates/adesh-storage-sqlite/src/storage.rs:5203-5225 | one group per operation, in the order in which operations first occur, each with that operation's syscalls in row order and the trace of its first row |
| Recovery.SelectRecoverable | crates/adesh-storage-sqlite/src/storage.rs:5186-5202 | an answer of the recovery query: every running, not yet started, permitted syscall once, in the queried order |
| Recovery.RowsByAge | crates/adesh-storage-sqlite/src/storage.rs:5186-5202 | the rows of an answer come by the time their operation was last changed, then by the time their syscall was made, each with its operation and that operation's trace |
| Executor.ExecutePermittedSyscalls | crates/adesh-daemon/src/http/routes.rs:178-215 | acquire, execute under the lease, release also after an error, and report the execution's error before the release's |
| Executor.ExecutePermittedSyscallsUnderLease | crates/adesh-daemon/src/http/routes.rs:217-441 | the loop over syscalls: skips what is not permitted, claims, calls and settles the rest, stops at the first error, then completes the operation if it has syscalls and all of them are executed; `ListOutcome` and `CompletesExactly` say what that comes to |
| Executor.ExecuteSyscallWithRetries | crates/adesh-daemon/src/http/routes.rs:241-396 | the loop over attempts: goes round again after any error while attempts remain, stops at a result that is rejected, and records the failure after the last |
| Executor.RecoverPendingOperationExecutions | crates/adesh-daemon/src/http/routes.rs:443-462 | executes each recovered operation in order under the recovery runner, up to the first error |
| ExecutorRuns.ExecutionIsARun | crates/adesh-daemon/src/http/routes.rs:178-441 | what an undisturbed execution does to the tables and to the call counts is a run of that executor's own moves in the state machine |
| ExecutionOutcomes.RetriesUntilAnswered | crates/adesh-daemon/src/http/routes.rs:241-347 | a tool is called until it answers otherwise than with an error or the attempts are used up, and that answer decides |
| ExecutionOutcomes.ListOutcome | crates/adesh-daemon/src/http/routes.rs:217-396 | told by the tool's answers: how far the list of syscalls is gone through, what becomes of each that was permitted, how often each tool is called, and when the operation is failed; every other row is as before |
| ExecutionOutcomes.ExecutionOutcome | crates/adesh-daemon/src/http/routes.rs:178-441 | the same of a whole execution with the lease taken and given back, and with the operation completed, failed or left running |
| ExecutionOutcomes.CompletesExactly | crates/adesh-daemon/src/http/routes.rs:404-441 | an execution moves a running operation to completed exactly when it ends without an error, the operation has a syscall, and every one of its syscalls is executed |
| ExecutionOutcomes.ListingDecides | crates/adesh-daemon/src/http/routes.rs:404-416 | in the state machine a listing leads on to completing exactly when the operation has a syscall and all of its syscalls are executed |
| ExecutionOutcomes.CompletedAfterListing | crates/adesh-daemon/src/http/routes.rs:404-441 | in every interleaving an executor completes its operation only after a listing of its own in which the operation had syscalls and all of them were executed |
| ExecutionOutcomes.LeaseLasts | crates/adesh-daemon/src/http/routes.rs:178-200 | an executor that gets its lease has it for thirty seconds, and one that does not goes no further |
| RecoveryRuns.ExecutionSettles | crates/adesh-daemon/src/http/routes.rs:178-441 | an execution that gets the lease gives it back, changes no other lease, and if it ends without error leaves none of its syscalls permitted |
| RecoveryRuns.RecoveryDrains | crates/adesh-daemon/src/http/routes.rs:443-462 | an undisturbed recovery that ends without error leaves nothing to recover |
| Ledger.AlwaysBalanced | crates/adesh-storage-sqlite/src/storage.rs:2686-3075 | in every reachable state a consumed approval has exactly one syscall and any other none; a consumed out-of-band approval has exactly one consumed challenge and any other approval none |
| Ledger.DecisionsNeverExceedEntries | crates/adesh-storage-sqlite/src/storage.rs:2813-2824 | per operation, decided approvals plus one if it is awaiting approval never exceed the logged entries into that state |
| Ledger.LogAlwaysReplays | crates/adesh-storage-sqlite/src/storage.rs:1261-1313 | in every reachable state an operation's log rows start from nothing, link up, and end in its current state |
| Ledger.RunOnlyAppends | crates/adesh-storage-sqlite/src/storage.rs:3205-3241 | the log and every audit timeline of an earlier state are prefixes of those of any later one |
| SqliteStorage.SqliteStorage.ConsumeApprovalAtomic | crates/adesh-storage-sqlite/src/storage.rs:2686-3075 | the transaction commits exactly the decided state or, on any failing check, nothing, although the challenge is marked consumed before the later checks |
| ApprovalDecisions.DecidedExactly | crates/adesh-storage-sqlite/src/storage.rs:2686-2900 | a decision that was not answered before goes through exactly when the approval is pending, the decision is to approve or deny, a challenge is named only for an out-of-band approval, the operation awaits approval, the audit trace is there and, to approve, the named challenge is the approval's own, verified, unspent and not expired, the syscall is prepared and no row is in its way; otherwise nothing changes |
| ApprovalDecisions.OperationIsWritten | crates/adesh-storage-sqlite/src/storage.rs:2940-3000 | what a decision writes to the approval, the operation and the log, and that it writes no other row of them |
| ApprovalDecisions.GrantIsWritten | crates/adesh-storage-sqlite/src/storage.rs:2798-2940 | approving writes one permitted syscall, prepared from the pinned snapshot, and spends the challenge of an out-of-band approval; denying writes neither |
| ApprovalDecisions.AnswerIsWritten | crates/adesh-storage-sqlite/src/storage.rs:3000-3075 | the timeline entry, the answer, and the answer stored under the key; leases, registry and request ids are as before |
| ApprovalDecisions.ChallengeStory | crates/adesh-storage-sqlite/src/storage.rs:2456-2811 | in every run each challenge was started for its approval five minutes before it expires; if verified, that was done later and in time; if consumed, that was by approving with it, later still and in time, and the time is recorded |
| ApprovalDecisions.ConsumedInTime | crates/adesh-storage-sqlite/src/storage.rs:2791-2797 | in every run a challenge consumed at t was started for its approval at some t0 with t <= t0 + 300000 |
| SqliteStorage.SqliteStorage.StartOobChallenge | crates/adesh-storage-sqlite/src/storage.rs:2456-2560 | the new challenge, its expiry and the refusals, as the specification function gives them |
| SqliteStorage.SqliteStorage.VerifyOobChallenge | crates/adesh-storage-sqlite/src/storage.rs:2562-2684 | verification, its refusals, and the answer for a challenge verified before |
| SqliteStorage.SqliteStorage.CreateOperationBundle | crates/adesh-storage-sqlite/src/storage.rs:833-1046 | operation, log row and audit trace together, or the stored answer for a repeated key; a request id that was logged before is refused |
| SqliteStorage.SqliteStorage.UpdateOperationState | crates/adesh-storage-sqlite/src/storage.rs:1261-1313 | the new state and a log row from the old one, whatever the old one is |
| SqliteStorage.SqliteStorage.CancelOperation | crates/adesh-storage-sqlite/src/storage.rs:1048-1220 | cancels what is not terminal, logs it and extends the timeline |
| SqliteStorage.SqliteStorage.CreateReplayDryRun | crates/adesh-storage-sqlite/src/storage.rs:3243-3458 | a completed operation with its own log row and trace, pinned to the original's snapshot; other modes and strategies are refused |
| SqliteStorage.SqliteStorage.UpdateSyscallStatus | crates/adesh-storage-sqlite/src/storage.rs:3112-3169 | accepted from `permitted` and from `executing` only |
| SqliteStorage.SqliteStorage.TryAcquireOperationLease | crates/adesh-storage-sqlite/src/storage.rs:5227-5309 | grants to the owner and, after expiry, to anyone; the epoch rises on a change of owner |
| SqliteStorage.SqliteStorage.RenewOperationLease | crates/adesh-storage-sqlite/src/storage.rs:5311-5349 | extends the lease of its owner at its epoch and rejects everyone else |
| SqliteStorage.SqliteStorage.ReleaseOperationLease | crates/adesh-storage-sqlite/src/storage.rs:5351-5374 | deletes the row for its owner at its epoch and rejects everyone else |
| SqliteStorage.SqliteStorage.ListRecoverableOperationExecutions | crates/adesh-storage-sqlite/src/storage.rs:5186-5225 | the grouped answer holds exactly the recoverable syscalls, each operation once |
| SqliteStorage.SqliteStorage.MintCapabilitySnapshot | crates/adesh-storage-sqlite/src/storage.rs:1673-1813 | stores the canonical payload under its version unless the version exists; refuses unknown schemas; gives the stored answer for a repeated key |
| SqliteStorage.SqliteStorage.RegisterSchemaEntry | crates/adesh-storage-sqlite/src/storage.rs:1842-1932 | stores the canonical payload under its reference unless the reference exists, or gives the stored answer for a repeated key |
| StorageOutcomes.CreatedExactly | crates/adesh-storage-sqlite/src/storage.rs:833-1046 | a new request is accepted exactly when its id was not logged and the drawn ids are free; the operation, log row, trace and stored answer it writes, and that nothing else changes |
| StorageOutcomes.UpdatedExactly | crates/adesh-storage-sqlite/src/storage.rs:1261-1313 | a state write goes through exactly for a known operation and changes its state, reason and time and adds one log row, nothing else |
| StorageOutcomes.CancelledExactly | crates/adesh-storage-sqlite/src/storage.rs:1048-1220 | exactly new, waiting and running operations with a trace are cancelled; the row, log row, timeline entry and answer |
| StorageOutcomes.ReplayedExactly | crates/adesh-storage-sqlite/src/storage.rs:3243-3458 | when a replay goes through, and the completed operation with the original's pin, its log row, its trace and its answer |
| StorageOutcomes.AppendedExactly | crates/adesh-storage-sqlite/src/storage.rs:3205-3241 | one entry is added at the end of a known trace, and nothing else changes |
| StorageOutcomes.ApprovalCreatedExactly | crates/adesh-storage-sqlite/src/storage.rs:2351-2388 | a pending approval item with the given mode, proposal, diff and trace, for a new id and a known operation |
| StorageOutcomes.ChallengeStartedExactly | crates/adesh-storage-sqlite/src/storage.rs:2456-2560 | a challenge is started exactly for a pending out-of-band approval and expires after five minutes |
| StorageOutcomes.ChallengeVerifiedExactly | crates/adesh-storage-sqlite/src/storage.rs:2562-2684 | a challenge is verified exactly for its own approval and, while pending, before it expires; one verified before is answered with nothing written |
| StorageOutcomes.SyscallWrittenExactly | crates/adesh-storage-sqlite/src/storage.rs:3112-3169 | a syscall row is written exactly from `permitted` and `executing`, and only its status and result change |
| StorageOutcomes.AcquiredExactly | crates/adesh-storage-sqlite/src/storage.rs:5227-5309 | the lease is granted exactly when there is no row, or the row is the runner's own, or it has run out; owner, expiry and epoch of the row afterwards |
| StorageOutcomes.RenewedExactly | crates/adesh-storage-sqlite/src/storage.rs:5311-5349 | renewal goes through exactly for the owner at its epoch and only moves the expiry |
| StorageOutcomes.ReleasedExactly | crates/adesh-storage-sqlite/src/storage.rs:5351-5374 | release goes through exactly for the owner at its epoch and removes that row only |
| StorageOutcomes.MintedExactly | crates/adesh-storage-sqlite/src/storage.rs:1673-1813 | a snapshot is minted exactly when every action names registered schemas; the canonical payload is stored under the hash unless that version stands |
| StorageOutcomes.SchemaRegisteredExactly | crates/adesh-storage-sqlite/src/storage.rs:1842-1932 | a schema is stored in canonical form under its hash unless that reference stands, and the payload is answered |
| StorageOutcomes.ActivatedExactly | crates/adesh-storage-sqlite/src/storage.rs:2212-2240 | a version becomes the current one exactly when it is stored, and nothing else changes |
| StorageOutcomes.CallStores | crates/adesh-storage-sqlite/src/storage.rs:2562-2684 | every answer to a request with a key is stored, with exactly one exception: the answer for a challenge that is verified already; stored answers are never lost |
| StorageOutcomes.RepeatedRequestIsAnsweredAlike | crates/adesh-storage-sqlite/src/storage.rs:2697-2720 | over any run: once a request under a key was answered, and not by that exception, every request that comes under the key for the same endpoint and resource is answered the same, whatever its arguments, and changes nothing |
| StorageOutcomes.UnstoredAnswerDiffers | crates/adesh-storage-sqlite/src/storage.rs:2600-2622 | with the exception: the key of such an answer, sent again with another challenge of the approval, is answered otherwise and verifies that challenge |
| OperationLeases.LeasesExclude | crates/adesh-storage-sqlite/src/storage.rs:5227-5309 | under a clock that never runs back, two runners never both hold an unexpired grant they have not released |
| OperationLeases.SupersededIsRefused | crates/adesh-storage-sqlite/src/storage.rs:5311-5374 | a runner that lost the lease has every renewal and release rejected, and they change nothing |
| OperationLeases.EpochCountsTakeovers | crates/adesh-storage-sqlite/src/storage.rs:5250-5285 | while the row stands its epoch has risen by exactly the number of changes of owner |
| OperationLeases.EpochRisesWithOwner | crates/adesh-storage-sqlite/src/storage.rs:5250-5285 | no call lowers the epoch of a row, and it rises exactly on a change of owner |
| OperationLeases.EpochFencesUntilReleased | crates/adesh-storage-sqlite/src/storage.rs:5250-5285 | while the row stands its epoch is the same at two moments exactly when one runner held the lease all the time between |
| OperationLeases.ReleasedEpochIsValidAgain | crates/adesh-storage-sqlite/src/storage.rs:5351-5374 | a run in which the number of a first grant is refused after a takeover and, after a release and a new acquisition, ends the new grant |
| PinnedCapabilities.PinnedCapabilityIsEnforced | crates/adesh-storage-sqlite/src/storage.rs:2826-2900 | whatever is minted, registered or activated after submission, the approval resolves to the descriptor it was built from and only the payload itself can stop it: the mismatch and missing-entry errors are unreachable |
| PinnedCapabilities.GrantedIsPinned | crates/adesh-storage-sqlite/src/storage.rs:2840-2894 | whatever diff an approval holds, what is granted is an action of the pinned snapshot whose schemas are registered |
| PinnedCapabilities.RunsKeepPins | crates/adesh-storage-sqlite/src/storage.rs:1673-1813 | over any run, stored snapshots and schemas are never replaced, every stored snapshot names registered schemas only, and operations and approvals keep their pins |
| ActionSchemas.ResolveActionDescriptorFromSnapshot | crates/adesh-core/src/action_schemas.rs:94-207 | the scan with early returns finds the first matching action or the error of the first malformed entry before it; the answer is said by positions and member names (`IsResolution`), not only by the recursive specification |
| ActionSchemas.ResolvedExactly | crates/adesh-core/src/action_schemas.rs:94-207 | in terms of positions: the answer describes the first action of that name in the first capability of that tool that has one, each field read from the member of its name, and is given exactly when the required members are there; invalid input exactly when nothing in a well-formed list was asked for; corruption otherwise |
| ActionSchemas.PreparedExactly | crates/adesh-storage-sqlite/src/storage.rs:2826-2900 | a syscall is prepared exactly when the diff names a tool and an action that the pinned snapshot resolves, agrees with the descriptor on both schemas, and its payload normalises and passes; with the descriptor's fields and that payload |
| ActionSchemas.CheckSnapshot | crates/adesh-storage-sqlite/src/storage.rs:1703-1757 | accepts exactly the snapshots whose every action names registered schemas |
| ActionSchemas.ResolvedFromKnown | crates/adesh-core/src/action_schemas.rs:94-207 | a descriptor resolved from an accepted snapshot names registered schemas and the tool and action asked for |
| ActionSchemas.CanonicalStaysKnown | crates/adesh-storage-sqlite/src/storage.rs:1759-1780 | the check made on the minted payload carries over to the canonical text that is stored |
| ActionSchemas.DiffPayloadReads | crates/adesh-core/src/action_schemas.rs:233-248 | reading the approval diff gives back the descriptor's tool, action and schema references |
| ActionSchemas.DiffPayloadShows | crates/adesh-core/src/action_schemas.rs:233-248 | each of the nine members of the approval diff: kind, action, schemas, nothing before, the proposal after and as it stands, what may be edited |
| SchemaValidation.CheckDecidesConformance | crates/adesh-core/src/action_schemas.rs:451-532 | the first-error check passes exactly the instances that conform to every keyword |
| SchemaValidation.TypesExactly | crates/adesh-core/src/action_schemas.rs:451-532 | which type names match which values; a number is an integer when it fits a 64-bit type |
| SchemaValidation.UnknownMembersExactly | crates/adesh-core/src/action_schemas.rs:451-532 | members that no property names are refused exactly where the schema says `false` to them |
| SchemaValidation.BlamesExactly | crates/adesh-core/src/action_schemas.rs:451-532 | the first error blames the instance in the class asked for, or the schema for being malformed |
| SchemaValidation.ConformanceIgnoresOrder | crates/adesh-core/src/action_schemas.rs:451-532 | schema and instance in canonical form are judged as they are in any member order |
| SchemaValidation.SameSchemasPassTheSame | crates/adesh-core/src/action_schemas.rs:278-284 | the schema read back from its stored text passes exactly what the registered one does |
| EmailPayload.NormalizeEmailSendPayload | crates/adesh-core/src/action_schemas.rs:292-346 | the imperative normaliser computes the specification's payload or its error |
| EmailPayload.RecipientsAreExact | crates/adesh-core/src/action_schemas.rs:299-329 | a recipient list holds every cleaned entry exactly once and nothing else, none empty |
| EmailPayload.RecipientsInOrder | crates/adesh-core/src/action_schemas.rs:299-329 | recipients stand in the order in which they first occur |
| EmailPayload.NormalizedExactly | crates/adesh-core/src/action_schemas.rs:292-346 | a payload is normalised exactly when it has three lists of strings none of which is blank, the first not empty, and a subject and a body that are not blank |
| EmailPayload.NormalizedKeepsFields | crates/adesh-core/src/action_schemas.rs:292-346 | each list is cleaned under its own name, the texts are trimmed, and nothing else is kept |
| EmailPayload.NormalizingTwice | crates/adesh-core/src/action_schemas.rs:292-346 | a normalised payload normalises to itself |
| EmailPayload.NormalizedPassesSchema | registry/bootstrap/schema_registry/email_send_args.json:9-20 | what normalising lets through conforms to the bootstrap schema of the email arguments, however that schema's members are ordered |
| EmailPayload.ApprovedEmailIsPrepared | crates/adesh-storage-sqlite/src/storage.rs:2826-2900 | for an email approval, from proposal to any later consumption, normalising is the only check left that can stop it |
| ReviewQueue.AlwaysOrderly | crates/adesh-storage-sqlite/src/storage.rs:2138-2337 | over any run the active version is stored and is the one applied last, and an item is resolved exactly when it has its one decision |
| ReviewQueue.ReviewQueue.DecideReviewItem | crates/adesh-storage-sqlite/src/storage.rs:2138-2337 | the decision's checks in order, the version it activates and the row it records |
| ReviewQueue.ReviewQueue.CreateCapabilityActivationReviewItem | crates/adesh-storage-sqlite/src/storage.rs:1934-2105 | proposes only a stored version that is not active |
| ReviewQueue.ProposedExactly | crates/adesh-storage-sqlite/src/storage.rs:1934-2105 | a version is proposed exactly when it is stored and not active, against the one that is; what is written and answered |
| ReviewQueue.DecidedExactly | crates/adesh-storage-sqlite/src/storage.rs:2138-2337 | a decision goes through exactly for a pending item of the capability registry, when it is a rejection or names a stored version; it resolves the item, is recorded, and a rejection activates nothing, any other the version it names |
| ReviewQueue.ApprovedExactly | crates/adesh-storage-sqlite/src/storage.rs:2175-2240 | in every reachable state an approval succeeds exactly when its item is pending and activates what was proposed, whatever base version the item carries |
| ReviewQueue.ActivationsFollowBases | crates/adesh-storage-sqlite/src/storage.rs:2196-2240 | every activation of a run was decided under the version its item was proposed against if and only if at each of them the item's base was the active version |
| ReviewQueue.SecondApprovalIsStale | crates/adesh-storage-sqlite/src/storage.rs:2196-2240 | after any run, of two pending proposals made against one version, the second approved is activated although its base is no longer active |
| ReviewQueue.StaleProposalIsApplied | crates/adesh-storage-sqlite/src/storage.rs:1966-2240 | a run from the bootstrap version that ends so: two versions minted, proposed and approved one after the other |
| ReviewedActivations.NewOperationsPinTheLastApplied | crates/adesh-storage-sqlite/src/storage.rs:870-945 | in every run of minting, proposing, deciding and any other storage call, a new operation pins the stored version that the decided items applied last |
| ReviewedActivations.ActivationsSucceed | crates/adesh-storage-sqlite/src/storage.rs:2212-2240 | every activation a decision makes finds its snapshot stored and makes it the current one |
| CanonicalJson.CanonicalJsonString | crates/adesh-storage-sqlite/src/storage.rs:510-548 | the recursive printer with its buffer computes the canonical text |
| CanonicalJson.ParseRendered | crates/adesh-storage-sqlite/src/storage.rs:510-548 | a parser recovers a value and what follows it from their text, when what follows does not start with a digit |
| CanonicalJson.ParseCanonicalText | crates/adesh-storage-sqlite/src/storage.rs:510-548 | parsing the canonical text gives the canonical value |
| CanonicalJson.CanonicalTextIdentifies | crates/adesh-storage-sqlite/src/storage.rs:510-548 | two payloads have one canonical text exactly when they are the same JSON value up to member order |
| CanonicalJson.KeysAscend | crates/adesh-storage-sqlite/src/storage.rs:530-546 | members stand in ascending order of their keys by code point |
| CanonicalJson.EscapedExactly | crates/adesh-storage-sqlite/src/storage.rs:515-517 | which characters are escaped, and by how many characters |
| Json.BeforeExactly | crates/adesh-storage-sqlite/src/storage.rs:530-531 | the key order: the texts agree up to a position at which the first has ended or is smaller |
| Json.CanonicalIffSame | crates/adesh-storage-sqlite/src/storage.rs:530-546 | sorting members at every depth identifies exactly the values that differ in member order only |
| WorkflowRegistry.RegisteredPayloadIsReturned | crates/adesh-storage-sqlite/src/storage.rs:4342-4391 | with a collision-free hash, outside the replay path a registration succeeds exactly for a workflow and answers with the payload it was given also when the insert was ignored; name, description, tags and time are then those of the first registration |
| WorkflowRegistry.PayloadComesBackExactly | crates/adesh-storage-sqlite/src/storage.rs:4342-4391 | with any hash, the payload comes back exactly when the text stored under the reference is its own |
| WorkflowRegistry.ReferencesIdentifyPayloads | crates/adesh-storage-sqlite/src/storage.rs:4342-4346 | references are equal exactly for the same JSON value |
| WorkflowRegistry.SpecsNeverChange | crates/adesh-storage-sqlite/src/storage.rs:4348-4366 | what is stored under a reference never changes |
| WorkflowRegistry.Registry.RegisterWorkflowSpec | crates/adesh-storage-sqlite/src/storage.rs:4312-4417 | the transaction computes the specification's tables and answer |
| WorkflowRegistry.RegisteredExactly | crates/adesh-storage-sqlite/src/storage.rs:4312-4417 | a registration that is not a replay succeeds exactly for a workflow whose stored text can be read; every field of the one row it may write, the answer read from the row that then stands, and the answer stored under the key |
| WorkflowRegistry.WorkflowFitsExactly | crates/adesh-storage-sqlite/src/storage.rs:432-479 | what a workflow is: four members, and steps with an id that is not blank and one of four types |
| WorkflowRegistry.RepeatedKeyIsAnsweredAlike | crates/adesh-storage-sqlite/src/storage.rs:4318-4340 | over any run: a key that was answered is answered the same ever after, whatever comes with it, and nothing changes then |
| WorkflowRegistry.ParseWorkflowSpecSteps | crates/adesh-storage-sqlite/src/storage.rs:432-479 | accepts exactly well-formed workflows and lists each step's id and type in order |
| JobQueueSafety.CountersAgree | crates/adesh-storage-sqlite/src/job_queue.rs:127-357 | in every run pending means epoch = attempts, leased or completed means epoch = attempts + 1, and epochs stay within max(1, max_attempts) |
| JobQueueSafety.LeasesAreFenced | crates/adesh-storage-sqlite/src/job_queue.rs:223-307 | each (job, epoch) was handed to one worker and settled at most once, by that worker, and no job was handed out more than max(1, max_attempts) times |
| JobQueueSafety.EndedForGood | crates/adesh-storage-sqlite/src/job_queue.rs:359-382 | a job that has ended never changes again, and until then its counters never fall |
| JobQueueSafety.DedupeKeysAreUnique | crates/adesh-storage-sqlite/src/job_queue.rs:98-122 | every run keeps at most one live job per dedupe key |
| JobQueueSafety.BatchIsExact | crates/adesh-storage-sqlite/src/job_queue.rs:184-252 | a batch leases min(limit, available) due jobs, each for one more epoch, changes no other, and leaves no due job strictly older than one it leased |
| JobQueueSafety.DelayIsBackoffExactly | crates/adesh-storage-sqlite/src/job_queue.rs:309-319 | the computed delay is min(1000 * 2^(n-1), 60000) exactly for the first 63 failures in a build that checks for overflow; in any other also where the shift distance modulo 64 meets the cap; what it is at the 64th, and that it panics or starts over from the 65th |
| JobQueueSafety.RetriesBackOff | crates/adesh-storage-sqlite/src/job_queue.rs:309-319 | with at most 64 attempts every automatic retry waits that delay, within [1000, 60000] and no shorter than after an earlier failure |
| JobQueueSafety.WaitStartsOver | crates/adesh-storage-sqlite/src/job_queue.rs:309-319 | at the 65th failure a build that does not check for overflow waits one second again, and one that does fails with nothing changed |
| JobOutcomes.StatusTellsTheEnding | crates/adesh-storage-sqlite/src/job_queue.rs:255-382 | over every run: a job is completed exactly when it was last settled by its holder's acknowledgement, dead-lettered exactly when by a last failure, cancelled exactly when by a cancellation that found it live, and the time it ended is the time of that call |
| JobOutcomes.AcknowledgedExactly | crates/adesh-storage-sqlite/src/job_queue.rs:255-290 | the holder's acknowledgement at its epoch answers the job completed, unowned, its end set; attempts, epoch and every other field and row are as before; anyone else's is a conflict that changes nothing |
| JobOutcomes.FailedExactly | crates/adesh-storage-sqlite/src/job_queue.rs:292-357 | the holder's failure is counted: the last one allowed buries the job, an earlier one puts it back to run at the time the worker names or after the automatic delay; anyone else's changes nothing, and which error each gets |
| JobOutcomes.CancelledExactly | crates/adesh-storage-sqlite/src/job_queue.rs:359-382 | pending and leased jobs are cancelled and freed, ended ones answered as they are |
| JobOutcomes.EnqueuedExactly | crates/adesh-storage-sqlite/src/job_queue.rs:95-169 | every field of a new job, and the live job answered in its place |
| JobOutcomes.ExistingExactly | crates/adesh-storage-sqlite/src/job_queue.rs:102-122 | the job answered in the place of a new one is the oldest pending or leased job of its dedupe key, and there is none only if no such job is |
| JobOutcomes.LeasedExactly | crates/adesh-storage-sqlite/src/job_queue.rs:223-247 | a leased job has its worker, expiry and one more epoch; all else of it and every other job are as before |
| JobOutcomes.DueExactly | crates/adesh-storage-sqlite/src/job_queue.rs:184-222 | what may be leased: pending, its time come, of the type asked for |
| JobQueue.SqliteJobQueue.EnqueueJob | crates/adesh-storage-sqlite/src/job_queue.rs:95-169 | answers with the oldest live job of the key or inserts a new pending one |
| JobQueue.SqliteJobQueue.LeaseJobs | crates/adesh-storage-sqlite/src/job_queue.rs:171-253 | leases the selected jobs and returns their new rows in the selected order |
| JobQueue.SqliteJobQueue.AckJob | crates/adesh-storage-sqlite/src/job_queue.rs:255-290 | completes the job for its holder at its epoch and rejects everyone else, as `AcknowledgedExactly` spells out |
| JobQueue.SqliteJobQueue.FailJob | crates/adesh-storage-sqlite/src/job_queue.rs:292-357 | retries or dead-letters the job for its holder at its epoch and rejects everyone else |
| JobQueue.SqliteJobQueue.CancelJob | crates/adesh-storage-sqlite/src/job_queue.rs:359-382 | cancels a live job and answers with an ended one as it is |
| JobQueue.SelectDue | crates/adesh-storage-sqlite/src/job_queue.rs:184-222 | an answer of the selecting query: due jobs, oldest first, up to the limit |
| McpRoundTrips.FramesRoundTrip | crates/adesh-daemon/src/mcp_stdio.rs:258-324 | any list of payloads, whatever their bytes, comes back in order and then the stream ends |
| McpRoundTrips.FrameIsRead | crates/adesh-daemon/src/mcp_stdio.rs:258-304 | a frame delimits itself: its body is read and exactly what follows is left |
| McpRoundTrips.CutFrameIsNoPayload | crates/adesh-daemon/src/mcp_stdio.rs:265-302 | a frame cut anywhere is never read as a payload: an error, or the end of the stream exactly when the cut comes before the header name is complete |
| McpRoundTrips.CutStream | crates/adesh-daemon/src/mcp_stdio.rs:258-304 | a stream cut inside a frame yields exactly the frames before it |
| McpRoundTrips.ExchangeRoundTrip | crates/adesh-daemon/src/mcp_stdio.rs:18-47 | the server's output, read back, is its responses to the framed requests in order up to the first handler error, each answered on the storage the one before left |
| McpRoundTrips.ExchangesCompose | crates/adesh-daemon/src/mcp_stdio.rs:18-47 | serving two batches of requests is serving the first and then, unless it failed, the second on the storage it left |
| McpRoundTrips.OneExchange | crates/adesh-daemon/src/mcp_stdio.rs:31-44 | a payload that is not JSON gets its refusal and reaches no handler, a notification gets no response, a handler's error ends the exchange with what the handler left of the storage |
| McpFrames.PayloadExactly | crates/adesh-daemon/src/mcp_stdio.rs:258-304 | a payload is read exactly when the stream starts with header lines that end up giving its length, an empty line, and the payload; what is left is what follows |
| McpFrames.EndExactly | crates/adesh-daemon/src/mcp_stdio.rs:265-275 | the stream ends cleanly exactly when nothing is left but header lines, the last perhaps cut short, that give no length |
| McpFrames.HeaderExactly | crates/adesh-daemon/src/mcp_stdio.rs:276-296 | a header line is the UTF-8 encoding of a text; trimmed, it starts with the header name and its value is a decimal below 2^64, or it changes nothing |
| McpFrames.DecodesExactly | crates/adesh-daemon/src/mcp_stdio.rs:276-283 | bytes are read as a text exactly when they are its UTF-8 encoding |
| McpFrames.UsizeExactly | crates/adesh-daemon/src/mcp_stdio.rs:284-296 | a length is read exactly from its digits, perhaps after zeros and a plus sign, below 2^64 |
| Text.TrimExactly | crates/adesh-daemon/src/mcp_stdio.rs:276-290 | trimming takes the white space off both ends and nothing else |
| McpFraming.ByteReader.ReadMcpPayload | crates/adesh-daemon/src/mcp_stdio.rs:258-304 | the reader loop takes one frame off the stream, or reports its end, or the first error |
| McpFraming.ByteWriter.WriteMcpPayload | crates/adesh-daemon/src/mcp_stdio.rs:306-324 | appends exactly one frame |
| McpFraming.RunMcpStdio | crates/adesh-daemon/src/mcp_stdio.rs:18-47 | writes the frames of the responses, threads the storage through the handler, and ends as the stream or the first handler error does |
| RateLimiter.LimiterIsExact | crates/adesh-daemon/src/http/mod.rs:39-57 | over any run with fixed limits and a clock that never runs back, no window holds more than the maximum of admitted calls for a key, a call is admitted exactly when its window holds fewer, and a refused one finds exactly the maximum |
| RateLimiter.RateLimiter.Allow | crates/adesh-daemon/src/http/mod.rs:45-57 | prunes the key's bucket, then admits and records the call or refuses it |
| CognitionRules.AcceptedStatementsNeverConflict | crates/adesh-daemon/src/cognition.rs:943-1040 | after every serial run over scopes of at most 100 claims, no two accepted claims of one type and scope conflict, and none share a normalised statement |
| CognitionRules.RulesExactly | crates/adesh-daemon/src/cognition.rs:2622-2702 | the store's comparisons are those of statements |
| CognitionRules.SubjectsByType | crates/adesh-daemon/src/cognition.rs:2192-2220 | subjects stand under the names of the types |
| MemoryConsistency.MemoryStaysConsistent | crates/adesh-daemon/src/cognition.rs:915-1055 | the same for any symmetric, irreflexive conflict on keys, through stores, supersessions and resolved open loops, with the conservation of claims |
| MemoryConsistency.StoreConsistentExactly | crates/adesh-storage-sqlite/src/storage.rs:4213-4247 | for scopes of any size, in terms of the state before: a store leaves the claims consistent exactly when, if it has earned acceptance and no accepted listed rival is stronger, its listing showed every accepted claim it contradicts |
| MemoryConsistency.ContestWonExactly | crates/adesh-daemon/src/cognition.rs:986-1000 | the contest leaves the incoming claim accepted exactly when it entered accepted and no accepted rival is stronger |
| LargeScopes.ListedByRecency | crates/adesh-storage-sqlite/src/storage.rs:4213-4247 | a claim is left out of a listing when as many claims of its scope as the limit were changed later, and shown when fewer than that could take its place |
| LargeScopes.BuriedClaimIsMissed | crates/adesh-daemon/src/cognition.rs:943-1040 | an accepted claim buried under a full listing of later ones is left standing beside a winning statement that contradicts it |
| LargeScopes.ConflictingKeysAreBothAccepted | crates/adesh-daemon/src/cognition.rs:915-1055 | with the program's own comparisons, for any two keys in conflict: a run of stores after which both are accepted in one scope |
| LargeScopes.SomeRunEndsInconsistent | crates/adesh-daemon/src/cognition.rs:915-1055 | such keys exist, so some run ends inconsistent |
| MemoryConsistency.DisplacedOnlyByStrength | crates/adesh-daemon/src/cognition.rs:986-1000 | an accepted claim is displaced by another statement only if they conflict, that statement earned acceptance, and its strength is at least the claim's own |
| MemoryConsistency.StoreConserves | crates/adesh-daemon/src/cognition.rs:927-1030 | one claim per type, scope and key; its signals count the stores of its statement; its evidence is the union of all supplied |
| MemoryConsistency.StoredAgainStaysAcceptedExactly | crates/adesh-daemon/src/cognition.rs:1593-1643 | an accepted claim stored again stays accepted exactly when no accepted claim in conflict with it is stronger and it is not a user-global preference held in fewer than two workspaces |
| MemoryConsistency.ContestDecides | crates/adesh-daemon/src/cognition.rs:986-1000 | the contest supersedes every rival or demotes the incoming claim, and supersedes accepted rivals only by strength |
| StoredClaims.StoredRowExactly | crates/adesh-daemon/src/cognition.rs:1001-1030 | every field of the row a stored statement leaves: its type, scope, text, detail and subject, its own explicit signal, support, determinism, count and workspaces, its status and confidence after the contest, the rivals left unresolved, its times; and that its strength in later contests is computed from these |
| StoredClaims.ContestSplits | crates/adesh-daemon/src/cognition.rs:986-1000 | the contest, told by the first rival that is accepted and stronger: all before it are superseded, it and all after it stay unresolved and cost the statement its status and confidence |
| StoredClaims.SupersededRowsExactly | crates/adesh-daemon/src/cognition.rs:2256-2294 | every superseded row: what superseded it and when, its confidence capped, all else as it was |
| StoredClaims.EarnedExactly | crates/adesh-daemon/src/cognition.rs:1593-1643 | when a statement earns acceptance, by its type and scope, and how sure the store is of it |
| StoredClaims.StrengthAdds | crates/adesh-daemon/src/cognition.rs:1645-1666 | what each part adds to a strength: acceptance more than all others together, and at most four signals count |
| StoredClaims.EvidenceCountsExactly | crates/adesh-daemon/src/cognition.rs:2177-2190 | which evidence supports and which is strong |
| StoredClaims.LastEvidenceStands | crates/adesh-daemon/src/cognition.rs:2805-2826 | of two entries under one reference the last stands |
| StoredClaims.WorkspacesExactly | crates/adesh-daemon/src/cognition.rs:965-971 | a user-global preference counts the workspaces that hold it, accepted or not yet; anything else counts one |
| StoredClaims.StaleExactly | crates/adesh-daemon/src/cognition.rs:2334-2378 | a listed open loop is resolved exactly when it looks so and overlaps no current item |
| StoredClaims.RecordsJoin | crates/adesh-storage-sqlite/src/storage.rs:4213-4247 | the records of a listing stand in its order, one for each claim of the type and statuses asked for |
| StoredClaims.ConflictingJoin | crates/adesh-daemon/src/cognition.rs:943-957 | so do the claims in conflict with a statement |
| Cognition.UpsertMemoryStatement | crates/adesh-daemon/src/cognition.rs:915-1055 | lists at most 100 claims, assesses, writes and supersedes as the specification says; `StoredRowExactly` and `SupersededRowsExactly` say what the rows then hold |
| Cognition.SettleConflicts | crates/adesh-daemon/src/cognition.rs:986-1000 | the loop over conflicting claims computes the contest |
| Cognition.Examine | crates/adesh-daemon/src/cognition.rs:943-957 | the loop over listed claims finds the last aligned one and the conflicting ones in order |
| Cognition.MergeEvidence | crates/adesh-daemon/src/cognition.rs:2805-2826 | the merged evidence holds every reference of both sides, the newer entry winning |
| Cognition.ResolveStaleOpenLoops | crates/adesh-daemon/src/cognition.rs:2334-2378 | supersedes exactly the listed open loops that look resolved and that no current item repeats |
| Cognition.PromoteUserGlobalPreference | crates/adesh-daemon/src/cognition.rs:2296-2332 | stores the preference for the user exactly when two workspaces or more hold it |
| Cognition.SupersedeClaim | crates/adesh-daemon/src/cognition.rs:2256-2294 | rewrites the claim as superseded, its confidence capped, everything else kept |
| MemoryClaims.MemoryStore.ListMemoryClaims | crates/adesh-storage-sqlite/src/storage.rs:4208-4250 | the most recent claims of the scope up to the limit, and of those the ones of the type and statuses asked for |
| MemoryClaims.MemoryStore.UpsertMemoryClaim | crates/adesh-storage-sqlite/src/storage.rs:4115-4206 | inserts, or overwrites keeping the creation time |
| Statements.NormalizeKey | crates/adesh-daemon/src/cognition.rs:2890-2903 | the character loop computes the normalised key |
| Statements.NormalizingIsIdempotent | crates/adesh-daemon/src/cognition.rs:2890-2903 | the result is lower-case words joined by single underscores, and normalising it again changes nothing |
| Statements.ComparisonsFollowKeys | crates/adesh-daemon/src/cognition.rs:2622-2702 | overlap and conflict are symmetric and depend on the normalised keys alone, and no statement conflicts with one of the same key |
| Keys.KeyExactly | crates/adesh-daemon/src/cognition.rs:2890-2903 | the key is the maximal runs of letters and digits of the lower-cased statement, joined by underscores |
| Keys.WordsExactly | crates/adesh-daemon/src/cognition.rs:2622-2702 | the words that statements are compared by are those runs of at least three characters |
| Keys.ConflictExactly | crates/adesh-daemon/src/cognition.rs:2622-2680 | two keys are in conflict exactly when one refuses, the other assents, and they overlap or share three words |
| Keys.OverlapExactly | crates/adesh-daemon/src/cognition.rs:2681-2702 | two keys overlap exactly when one stands within the other or they share at least three fifths of the words of each |
| Keys.CoreWordsExactly | crates/adesh-daemon/src/cognition.rs:2715-2757 | the core words are those words without a fixed list of fillers |
| Keys.SubjectExactly | crates/adesh-daemon/src/cognition.rs:2192-2230 | the subject is the type and the words without those of attitude, or all words if nothing is left |
| Guidance.SelectRankedClaims | crates/adesh-daemon/src/cognition.rs:1468-1484 | the selecting loop computes the scan of the ranking |
| Guidance.FillWithCandidateClaims | crates/adesh-daemon/src/cognition.rs:1486-1505 | the filling loop continues the scan over the candidates while there is room |
| Guidance.FillIsGreedy | crates/adesh-daemon/src/cognition.rs:1468-1505 | both choices keep the ranking's order, pick fairly, and pass over only what is suppressed or redundant with an earlier choice |
| Guidance.SurfacedIsMaximal | crates/adesh-daemon/src/cognition.rs:1468-1523 | while there is room, every claim that is not surfaced is suppressed or redundant with one that is |
| Guidance.GuidanceIsConsistent | crates/adesh-daemon/src/cognition.rs:551-571 | at most three decisions and three preferences, any two of either apart in the sense of `ApartExactly`, and no preference overlapping or contradicting a decision |
| Guidance.RedundancyIsSymmetric | crates/adesh-daemon/src/cognition.rs:1525-1550 | redundancy does not depend on which claim came first |
| Guidance.ApartExactly | crates/adesh-daemon/src/cognition.rs:1525-1550 | two claims are not redundant exactly when they are not in conflict and, if of one type, differ in subject, do not overlap, and share less than three quarters of their core words, or half if they share evidence |

## Left out

- Progress: a result that fails its schema leaves its syscall `executing` for good, and an expired job lease is never
  leased again; only safety is proved.
- Terminal operation states are not absorbing, and a tool call may come after a cancellation: the code promises neither.
- SqliteStorage.SqliteStorage.ConsumeApprovalAtomic: the verdicts of normalising and schema-checking enter as parameters,
  so its results hold for any normaliser; the email normaliser and the schema check are modelled beside it and joined to
  it by `ApprovedEmailIsPrepared`, the webhook normaliser is not.
- SqliteStorage.SqliteStorage.CreateOperationBundle: of the event log only the ids of the requests in it are kept.
- JobQueue.SqliteJobQueue.FailJob: at the 64th failure it answers with a delay of -2^63 milliseconds; what the time
  library makes of that is not part of this model.
- SQL text, connection pool, row parsing, timestamp text, UUIDs and SHA-256; failures of the database itself
  other than refused inserts.
- JSON numbers other than integers. Floating-point thresholds are exact fractions, and confidences are real numbers.
- Counters are unbounded integers: the 32-bit signal count and the 64-bit epochs and attempts are not wrapped.
- A panic of the shift in the retry delay, where the build checks for overflow, is an error that rolls the transaction
  back.
- `char::to_lowercase` beyond the characters that become ASCII letters, and `str::to_lowercase`.
- Ranking scores, intent and keyword heuristics: rankings and "looks resolved" enter as given.
- Text carried along and never read by the modelled logic: claim keys, rationales, time bounds, promotion references,
  prompts, WebSocket events.
- Writes of one memory claim and its evidence are one step; concurrent stores into the memory are not modelled.
- Allocation of a buffer for an absurd content length, and read errors of the stream other than its end.
- Workflow and interface instances, ingest jobs, evaluation runs, intervention outcomes and metrics repeat the same
  patterns with easier properties.
- Review items for other domains than the capability registry: nothing in the code makes one.
- Tool, model, mail and HTTP providers, configuration, authentication, user interface.
