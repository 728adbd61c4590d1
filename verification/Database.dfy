/** The control-plane tables and, for each storage call, the state it commits and the answer it gives.
    A call is one transaction: an error answer always comes with the unchanged database. */
module Database {
  import opened Prelude
  import opened Json
  import opened ActionSchemas

  /** A row id, or an idempotency key. */
  datatype Id = Id(text: string)

  /** The name a lease is taken under: one per decision request, or the recovery loop's for an operation. */
  datatype Runner = Executor(request: Id) | RecoveryOf(operation: Id) | OtherRunner(name: string)

  /** Why an operation is in its state. */
  datatype Reason =
    | DraftReady
    | ApprovalRequired
    | PendingExecution      // approved_send_pending_execution
    | ApprovalConsumed
    | ApprovalDenied
    | SyscallExecutionFailed
    | SyscallsExecuted
    | ReplayDone
    | Because(text: string)

  datatype ApprovalMode = Diff | OobRequired | OtherMode(name: string)

  datatype Choice = Approve | Deny | OtherChoice(text: string)

  type Time = int

  datatype OperationState = Created | AwaitingApproval | Running | Blocked | Completed | OperationFailed | Cancelled

  datatype Operation = Operation(
    state: OperationState, reason: Option<Reason>, pinned: string, audit: Id, updatedAt: Time)

  /** A row of `operation_transitions`. */
  datatype Transition = Transition(
    operation: Id, from: Option<OperationState>, to: OperationState, reason: Option<Reason>, audit: Id, at: Time)

  datatype ApprovalStatus = Pending | Consumed | Denied

  datatype Approval = Approval(
    operation: Id, status: ApprovalStatus, mode: ApprovalMode, proposal: Value, diff: Value, audit: Id)

  datatype ChallengeStatus = ChallengePending | Verified | ChallengeConsumed

  datatype Challenge = Challenge(approval: Id, expiresAt: Time, status: ChallengeStatus, consumedAt: Option<Time>)

  datatype SyscallStatus = Permitted | Executing | Executed | SyscallFailed

  datatype Syscall = Syscall(
    operation: Id, approval: Id, status: SyscallStatus, call: Prepared, resultRef: Option<string>,
    createdAt: Time, audit: Id)

  datatype Lease = Lease(owner: Runner, until: Time, epoch: int)

  datatype TimelineItem =
    | RequestAccepted(at: Time)
    | OperationCancelled(at: Time, operation: Id, reason: Reason)
    | ApprovalDecision(at: Time, approval: Id, decision: Choice, state: OperationState, syscalls: seq<Id>)
    | ReplayStarted(at: Time, source: Id)
    | ReplayCompleted(at: Time, operation: Id)
    | Note(text: string)

  datatype Audit = Audit(operation: Id, timeline: seq<TimelineItem>)

  /** The endpoint part of an idempotency key. */
  datatype Scope =
    | Requests
    | Decide(approval: Id)
    | OobStart(approval: Id)
    | OobVerify(approval: Id)
    | Cancel(operation: Id)
    | Replay(audit: Id)
    | Mints
    | Registrations

  /** A stored response. */
  datatype Reply =
    | Accepted(operation: Id, audit: Id)
    | Decision(approval: Id, operation: Id, decision: Choice, status: ApprovalStatus, state: OperationState,
               syscalls: seq<Id>, audit: Id)
    | Challenged(approval: Id, challenge: Id, expiresAt: Time)
    | ChallengeVerified(approval: Id, challenge: Id)
    | OperationView(operation: Id, row: Operation)
    | Replayed(operation: Id, audit: Id)
    | Minted(version: string)
    | Registered(schemaRef: string, payload: Value)

  /** `requests`: the request ids that the event log has an event of. */
  datatype Db = Db(
    requests: set<Id>,
    operations: map<Id, Operation>,
    transitions: seq<Transition>,
    audits: map<Id, Audit>,
    approvals: map<Id, Approval>,
    challenges: map<Id, Challenge>,
    syscalls: map<Id, Syscall>,
    leases: map<Id, Lease>,
    replies: map<(Scope, Id), Reply>,
    registry: Registry)

  const CHALLENGE_MINUTES := 5

  function Minutes(n: int): Time { 60_000 * n }

  function Earlier(db: Db, scope: Scope, key: Option<Id>): Option<Reply> {
    if key.Some? && (scope, key.value) in db.replies then Some(db.replies[(scope, key.value)]) else None
  }

  function Remember(replies: map<(Scope, Id), Reply>, scope: Scope, key: Option<Id>, reply: Reply)
    : map<(Scope, Id), Reply>
  {
    if key.Some? then replies[(scope, key.value) := reply] else replies
  }

  // ----- Operations -----

  /** `origin` is the client's id of the request: its event is logged once. */
  function CreateOperation(db: Db, origin: Id, op: Id, audit: Id, key: Option<Id>, now: Time): (Db, Result<Reply>) {
    match Earlier(db, Requests, key)
    case Some(reply) => (db, Ok(reply))
    case None =>
      if origin in db.requests || op in db.operations || audit in db.audits then (db, Err(Unavailable("insert")))
      else
        var reply := Accepted(op, audit);
        (db.(requests := db.requests + {origin},
             operations := db.operations[op := Operation(Created, None, db.registry.current, audit, now)],
             transitions := db.transitions + [Transition(op, None, Created, None, audit, now)],
             audits := db.audits[audit := Audit(op, [RequestAccepted(now)])],
             replies := Remember(db.replies, Requests, key, reply)),
         Ok(reply))
  }

  /** No guard on the state the operation leaves. */
  function UpdateOperationState(
      db: Db, op: Id, state: OperationState, reason: Option<Reason>, audit: Id, now: Time): (Db, Result<()>)
  {
    if op !in db.operations then (db, Err(NotFound("operation")))
    else
      var row := db.operations[op];
      (db.(operations := db.operations[op := row.(state := state, reason := reason, updatedAt := now)],
           transitions := db.transitions + [Transition(op, Some(row.state), state, reason, audit, now)]),
       Ok(()))
  }

  predicate Terminal(state: OperationState) {
    state == Completed || state == OperationFailed || state == Blocked || state == Cancelled
  }

  function CancelOperation(db: Db, op: Id, reason: Reason, key: Option<Id>, now: Time): (Db, Result<Reply>) {
    match Earlier(db, Cancel(op), key)
    case Some(reply) => (db, Ok(reply))
    case None =>
      if op !in db.operations || db.operations[op].audit !in db.audits then (db, Err(NotFound("operation")))
      else if Terminal(db.operations[op].state) then (db, Err(Conflict("operation is already terminal")))
      else
        var row := db.operations[op];
        var next := row.(state := Cancelled, reason := Some(reason), updatedAt := now);
        var trace := db.audits[row.audit];
        var reply := OperationView(op, next);
        (db.(operations := db.operations[op := next],
             transitions := db.transitions + [Transition(op, Some(row.state), Cancelled, Some(reason), row.audit, now)],
             audits := db.audits[row.audit := trace.(timeline := trace.timeline + [OperationCancelled(now, op, reason)])],
             replies := Remember(db.replies, Cancel(op), key, reply)),
         Ok(reply))
  }

  /** `anchored`: gate decision and slice were found. */
  datatype ReplayInput = ReplayInput(source: Id, mode: string, strategy: string, anchored: bool, key: Option<Id>)

  predicate Replayable(input: ReplayInput) { input.mode == "dry_run" && input.strategy == "stored_output" }

  /** A dry-run replay is a new, already completed operation. */
  function CreateReplay(db: Db, input: ReplayInput, op: Id, audit: Id, now: Time)
    : (Db, Result<Reply>)
  {
    match Earlier(db, Replay(input.source), input.key)
    case Some(reply) => (db, Ok(reply))
    case None =>
      if !Replayable(input) then (db, Err(InvalidInput("only dry_run + stored_output replay is implemented")))
      else if input.source !in db.audits then (db, Err(NotFound("audit trace")))
      else if !input.anchored then (db, Err(Corruption("missing replay anchor")))
      else if op in db.operations || audit in db.audits || db.audits[input.source].operation !in db.operations then
        (db, Err(Unavailable("insert")))
      else
        var origin := db.audits[input.source].operation;
        var reason := Some(ReplayDone);
        var reply := Reply.Replayed(op, audit);
        (db.(operations := db.operations[op := Operation(Completed, reason, db.operations[origin].pinned, audit, now)],
             transitions := db.transitions + [Transition(op, None, Completed, reason, audit, now)],
             audits := db.audits[audit := Audit(op, [ReplayStarted(now, input.source), ReplayCompleted(now, origin)])],
             replies := Remember(db.replies, Replay(input.source), input.key, reply)),
         Ok(reply))
  }

  function AppendTimelineItem(db: Db, audit: Id, item: TimelineItem): (Db, Result<()>) {
    if audit !in db.audits then (db, Err(NotFound("audit trace")))
    else
      var trace := db.audits[audit];
      (db.(audits := db.audits[audit := trace.(timeline := trace.timeline + [item])]), Ok(()))
  }

  // ----- Approvals -----

  function CreateApprovalItem(
      db: Db, id: Id, op: Id, mode: ApprovalMode, proposal: Value, diff: Value, audit: Id): (Db, Result<Id>)
  {
    if id in db.approvals || op !in db.operations then (db, Err(Conflict("insert")))
    else (db.(approvals := db.approvals[id := Approval(op, Pending, mode, proposal, diff, audit)]), Ok(id))
  }

  function StartOobChallenge(db: Db, approval: Id, challenge: Id, key: Option<Id>, now: Time): (Db, Result<Reply>) {
    match Earlier(db, OobStart(approval), key)
    case Some(reply) => (db, Ok(reply))
    case None =>
      if approval !in db.approvals then (db, Err(NotFound("approval")))
      else if db.approvals[approval].status != Pending then (db, Err(Conflict("approval is not pending")))
      else if db.approvals[approval].mode != OobRequired then (db, Err(InvalidInput("oob is not valid for this mode")))
      else if challenge in db.challenges then (db, Err(Conflict("insert")))
      else
        var expiresAt := now + Minutes(CHALLENGE_MINUTES);
        var reply := Challenged(approval, challenge, expiresAt);
        (db.(challenges := db.challenges[challenge := Challenge(approval, expiresAt, ChallengePending, None)],
             replies := Remember(db.replies, OobStart(approval), key, reply)),
         Ok(reply))
  }

  /** Verifying again is answered before the key is stored. */
  function VerifyOobChallenge(db: Db, approval: Id, challenge: Id, key: Option<Id>, now: Time): (Db, Result<Reply>) {
    match Earlier(db, OobVerify(approval), key)
    case Some(reply) => (db, Ok(reply))
    case None =>
      if challenge !in db.challenges then (db, Err(NotFound("oob challenge")))
      else
        var row := db.challenges[challenge];
        var reply := ChallengeVerified(approval, challenge);
        if row.approval != approval then (db, Err(Conflict("challenge does not belong to approval")))
        else if row.status != ChallengePending then (db, Ok(reply))
        else if now > row.expiresAt then (db, Err(Conflict("challenge expired")))
        else
          (db.(challenges := db.challenges[challenge := row.(status := Verified)],
               replies := Remember(db.replies, OobVerify(approval), key, reply)),
           Ok(reply))
  }

  /** `normalized` and `invalid` are the outcome of normalising and schema-checking the payload. */
  datatype ConsumeInput = ConsumeInput(
    approval: Id, decision: Choice, challenge: Option<Id>, key: Option<Id>,
    normalized: Result<Value>, invalid: Option<StorageError>)

  function ChallengeProblem(db: Db, approval: Id, challenge: Option<Id>, now: Time): Option<StorageError> {
    if challenge.None? then Some(InvalidInput("oob challenge_id is required"))
    else if challenge.value !in db.challenges then Some(NotFound("oob challenge"))
    else
      var row := db.challenges[challenge.value];
      if row.approval != approval then Some(Conflict("oob challenge does not match approval"))
      else if row.status != Verified then Some(Conflict("oob challenge is not verified"))
      else if row.consumedAt.Some? then Some(Conflict("oob challenge was already consumed"))
      else if now > row.expiresAt then Some(Conflict("oob challenge expired"))
      else None
  }

  /** The unique index of `syscalls`, and its primary key. */
  predicate SyscallClashes(db: Db, id: Id, approval: Id, call: Prepared) {
    id in db.syscalls ||
    exists s | s in db.syscalls ::
      && db.syscalls[s].approval == approval
      && db.syscalls[s].call.toolName == call.toolName
      && db.syscalls[s].call.actionName == call.actionName
  }

  predicate NeedsChallenge(db: Db, input: ConsumeInput)
    requires input.approval in db.approvals
  {
    db.approvals[input.approval].mode == OobRequired && input.decision == Approve
  }

  function PreparedFor(db: Db, input: ConsumeInput): Result<Prepared>
    requires input.approval in db.approvals && db.approvals[input.approval].operation in db.operations
  {
    var approval := db.approvals[input.approval];
    PrepareSyscall(db.registry, db.operations[approval.operation].pinned, approval.diff, input.normalized, input.invalid)
  }

  /** The first check that stops a decision, in the order they are made. */
  function ConsumeProblem(db: Db, input: ConsumeInput, syscall: Id, now: Time): Option<StorageError> {
    if input.approval !in db.approvals then Some(NotFound("approval"))
    else
      var approval := db.approvals[input.approval];
      if approval.status != Pending then Some(Conflict("approval is not pending"))
      else if input.decision.OtherChoice? then Some(InvalidInput("decision"))
      else if input.challenge.Some? && approval.mode != OobRequired then Some(InvalidInput("oob challenge"))
      else if NeedsChallenge(db, input) && ChallengeProblem(db, input.approval, input.challenge, now).Some? then
        ChallengeProblem(db, input.approval, input.challenge, now)
      else if approval.operation !in db.operations then Some(NotFound("operation"))
      else if db.operations[approval.operation].state != AwaitingApproval then
        Some(Conflict("operation is not awaiting approval"))
      else if input.decision == Approve && PreparedFor(db, input).Err? then Some(PreparedFor(db, input).error)
      else if input.decision == Approve && SyscallClashes(db, syscall, input.approval, PreparedFor(db, input).value) then
        Some(Conflict("insert"))
      else if approval.audit !in db.audits then Some(Corruption("missing audit trace"))
      else None
  }

  function DecisionReply(db: Db, input: ConsumeInput, syscall: Id): Reply
    requires input.approval in db.approvals
  {
    var approval := db.approvals[input.approval];
    if input.decision == Approve then
      Decision(input.approval, approval.operation, input.decision, Consumed, Running, [syscall], approval.audit)
    else
      Decision(input.approval, approval.operation, input.decision, Denied, Blocked, [], approval.audit)
  }

  function DecidedDb(db: Db, input: ConsumeInput, syscall: Id, now: Time): Db
    requires ConsumeProblem(db, input, syscall, now).None?
  {
    var approval := db.approvals[input.approval];
    var op := approval.operation;
    var approve := input.decision == Approve;
    var reply := DecisionReply(db, input, syscall);
    var trace := db.audits[approval.audit];
    db.(challenges :=
          if NeedsChallenge(db, input) then
            db.challenges[input.challenge.value :=
              db.challenges[input.challenge.value].(status := ChallengeConsumed, consumedAt := Some(now))]
          else db.challenges,
        syscalls :=
          if approve then
            db.syscalls[syscall :=
              Syscall(op, input.approval, Permitted, PreparedFor(db, input).value, None, now, approval.audit)]
          else db.syscalls,
        approvals := db.approvals[input.approval := approval.(status := reply.status)],
        operations := db.operations[op :=
          db.operations[op].(state := reply.state,
                             reason := Some(if approve then PendingExecution else ApprovalDenied),
                             updatedAt := now)],
        transitions := db.transitions +
          [Transition(op, Some(AwaitingApproval), reply.state,
                      Some(if approve then ApprovalConsumed else ApprovalDenied), approval.audit, now)],
        audits := db.audits[approval.audit := trace.(timeline := trace.timeline +
          [ApprovalDecision(now, input.approval, input.decision, reply.state, reply.syscalls)])],
        replies := Remember(db.replies, Decide(input.approval), input.key, reply))
  }

  function ConsumeApproval(db: Db, input: ConsumeInput, syscall: Id, now: Time): (Db, Result<Reply>) {
    match Earlier(db, Decide(input.approval), input.key)
    case Some(reply) => (db, Ok(reply))
    case None =>
      match ConsumeProblem(db, input, syscall, now)
      case Some(e) => (db, Err(e))
      case None => (DecidedDb(db, input, syscall, now), Ok(DecisionReply(db, input, syscall)))
  }

  // ----- Syscalls -----

  /** Accepted from `permitted` and from `executing`. */
  function UpdateSyscallStatus(db: Db, id: Id, status: SyscallStatus, resultRef: Option<string>): (Db, Result<Syscall>) {
    if id !in db.syscalls then (db, Err(NotFound("syscall")))
    else
      var row := db.syscalls[id];
      if row.status != Permitted && row.status != Executing then (db, Err(Conflict("syscall is not executable")))
      else
        var next := row.(status := status, resultRef := resultRef);
        (db.(syscalls := db.syscalls[id := next]), Ok(next))
  }

  // ----- Operation leases -----

  datatype Acquisition = Acquisition(acquired: bool, epoch: Option<int>)

  function TryAcquireLease(db: Db, op: Id, runner: Runner, duration: Time, now: Time): (Db, Result<Acquisition>) {
    if op in db.leases then
      var row := db.leases[op];
      if row.owner != runner && row.until > now then (db, Ok(Acquisition(false, None)))
      else
        var epoch := if row.owner == runner then row.epoch else row.epoch + 1;
        (db.(leases := db.leases[op := Lease(runner, now + duration, epoch)]), Ok(Acquisition(true, Some(epoch))))
    else if op !in db.operations then (db, Err(Unavailable("insert")))
    else (db.(leases := db.leases[op := Lease(runner, now + duration, 1)]), Ok(Acquisition(true, Some(1))))
  }

  predicate HoldsLease(db: Db, op: Id, runner: Runner, epoch: int) {
    op in db.leases && db.leases[op].owner == runner && db.leases[op].epoch == epoch
  }

  function RenewLease(db: Db, op: Id, runner: Runner, epoch: int, duration: Time, now: Time): (Db, Result<Lease>) {
    if !HoldsLease(db, op, runner, epoch) then (db, Err(Conflict("lease renewal rejected")))
    else
      var next := Lease(runner, now + duration, epoch);
      (db.(leases := db.leases[op := next]), Ok(next))
  }

  /** Releasing deletes the row. */
  function ReleaseLease(db: Db, op: Id, runner: Runner, epoch: int): (Db, Result<()>) {
    if !HoldsLease(db, op, runner, epoch) then (db, Err(Conflict("lease release rejected")))
    else (db.(leases := db.leases - {op}), Ok(()))
  }

  // ----- Capability snapshots and schemas -----

  /** `digest` is the hash of the canonical text; an insert under a known version is ignored. */
  function MintSnapshot(db: Db, payload: Value, digest: string, key: Option<Id>): (Db, Result<Reply>) {
    match Earlier(db, Mints, key)
    case Some(reply) => (db, Ok(reply))
    case None =>
      if !SnapshotKnown(payload, db.registry.schemas) then (db, Err(InvalidInput("snapshot_payload")))
      else
        var version := "cap:sha256:" + digest;
        var snapshots := db.registry.snapshots;
        (db.(registry := db.registry.(snapshots :=
               if version in snapshots then snapshots else snapshots[version := Canonical(payload)]),
             replies := Remember(db.replies, Mints, key, Minted(version))),
         Ok(Minted(version)))
  }

  function RegisterSchema(db: Db, payload: Value, digest: string, key: Option<Id>): (Db, Result<Reply>) {
    match Earlier(db, Registrations, key)
    case Some(reply) => (db, Ok(reply))
    case None =>
      var ref := "schema:sha256:" + digest;
      var schemas := db.registry.schemas;
      (db.(registry := db.registry.(schemas :=
             if ref in schemas then schemas else schemas[ref := Canonical(payload)]),
           replies := Remember(db.replies, Registrations, key, Registered(ref, payload))),
       Ok(Registered(ref, payload)))
  }

  /** What an approved review item does to the active version. */
  function ActivateSnapshot(db: Db, version: string): (Db, Result<string>) {
    if version !in db.registry.snapshots then (db, Err(InvalidInput("unknown capability snapshot")))
    else (db.(registry := db.registry.(current := version)), Ok(version))
  }

  // ----- Runs of calls -----

  datatype OperationCall =
    | CallCreateOperation(origin: Id, op: Id, audit: Id, key: Option<Id>)
    | CallUpdateOperationState(op: Id, state: OperationState, reason: Option<Reason>, audit: Id)
    | CallCancelOperation(op: Id, cancelReason: Reason, key: Option<Id>)
    | CallCreateReplay(input: ReplayInput, op: Id, audit: Id)
    | CallAppendTimelineItem(audit: Id, item: TimelineItem)

  datatype ApprovalCall =
    | CallCreateApprovalItem(approval: Id, op: Id, mode: ApprovalMode, proposal: Value, diff: Value, audit: Id)
    | CallStartOobChallenge(approval: Id, challenge: Id, key: Option<Id>)
    | CallVerifyOobChallenge(approval: Id, challenge: Id, key: Option<Id>)
    | CallConsumeApproval(input: ConsumeInput, syscall: Id)
    | CallUpdateSyscallStatus(syscall: Id, status: SyscallStatus, resultRef: Option<string>)

  datatype LeaseCall =
    | CallTryAcquireLease(op: Id, runner: Runner, duration: Time)
    | CallRenewLease(op: Id, runner: Runner, epoch: int, duration: Time)
    | CallReleaseLease(op: Id, runner: Runner, epoch: int)

  datatype RegistryCall =
    | CallMintSnapshot(payload: Value, digest: string, key: Option<Id>)
    | CallRegisterSchema(payload: Value, digest: string, key: Option<Id>)
    | CallActivateSnapshot(version: string)

  function ApplyOperation(db: Db, call: OperationCall, now: Time): Db {
    match call
    case CallCreateOperation(origin, op, audit, key) => CreateOperation(db, origin, op, audit, key, now).0
    case CallUpdateOperationState(op, state, reason, audit) => UpdateOperationState(db, op, state, reason, audit, now).0
    case CallCancelOperation(op, reason, key) => CancelOperation(db, op, reason, key, now).0
    case CallCreateReplay(input, op, audit) => CreateReplay(db, input, op, audit, now).0
    case CallAppendTimelineItem(audit, item) => AppendTimelineItem(db, audit, item).0
  }

  function ApplyApproval(db: Db, call: ApprovalCall, now: Time): Db {
    match call
    case CallCreateApprovalItem(id, op, mode, proposal, diff, audit) =>
      CreateApprovalItem(db, id, op, mode, proposal, diff, audit).0
    case CallStartOobChallenge(approval, challenge, key) => StartOobChallenge(db, approval, challenge, key, now).0
    case CallVerifyOobChallenge(approval, challenge, key) => VerifyOobChallenge(db, approval, challenge, key, now).0
    case CallConsumeApproval(input, syscall) => ConsumeApproval(db, input, syscall, now).0
    case CallUpdateSyscallStatus(id, status, resultRef) => UpdateSyscallStatus(db, id, status, resultRef).0
  }

  function ApplyLease(db: Db, call: LeaseCall, now: Time): Db {
    match call
    case CallTryAcquireLease(op, runner, duration) => TryAcquireLease(db, op, runner, duration, now).0
    case CallRenewLease(op, runner, epoch, duration) => RenewLease(db, op, runner, epoch, duration, now).0
    case CallReleaseLease(op, runner, epoch) => ReleaseLease(db, op, runner, epoch).0
  }

  function ApplyRegistry(db: Db, call: RegistryCall): Db {
    match call
    case CallMintSnapshot(payload, digest, key) => MintSnapshot(db, payload, digest, key).0
    case CallRegisterSchema(payload, digest, key) => RegisterSchema(db, payload, digest, key).0
    case CallActivateSnapshot(version) => ActivateSnapshot(db, version).0
  }

  /** Any storage call with any arguments. */
  datatype Call =
    | OnOperation(operation: OperationCall)
    | OnApproval(approval: ApprovalCall)
    | OnLease(lease: LeaseCall)
    | OnRegistry(registry: RegistryCall)

  function Apply(db: Db, call: Call, now: Time): Db {
    match call
    case OnOperation(c) => ApplyOperation(db, c, now)
    case OnApproval(c) => ApplyApproval(db, c, now)
    case OnLease(c) => ApplyLease(db, c, now)
    case OnRegistry(c) => ApplyRegistry(db, c)
  }

  /** A call and the clock reading it was served at. */
  datatype Event = Event(call: Call, at: Time)

  function Run(db: Db, events: seq<Event>): Db {
    if events == [] then db
    else Apply(Run(db, events[..|events| - 1]), events[|events| - 1].call, events[|events| - 1].at)
  }

  /** A migrated database: only the bootstrap registry has rows. */
  function Fresh(registry: Registry): Db { Db({}, map[], [], map[], map[], map[], map[], map[], map[], registry) }

  // ----- Which tables a call can change -----

  predicate KeepsGrants(db: Db, after: Db) {
    && after.approvals == db.approvals && after.challenges == db.challenges && after.syscalls == db.syscalls
    && after.leases == db.leases && after.registry == db.registry
  }

  lemma CreateKeepsGrants(db: Db, origin: Id, op: Id, audit: Id, key: Option<Id>, now: Time)
    ensures KeepsGrants(db, CreateOperation(db, origin, op, audit, key, now).0)
  {
  }

  lemma CancelKeepsGrants(db: Db, op: Id, reason: Reason, key: Option<Id>, now: Time)
    ensures KeepsGrants(db, CancelOperation(db, op, reason, key, now).0)
  {
  }

  lemma ReplayKeepsGrants(db: Db, input: ReplayInput, op: Id, audit: Id, now: Time)
    ensures KeepsGrants(db, CreateReplay(db, input, op, audit, now).0)
  {
  }

  lemma OperationCallKeepsGrants(db: Db, call: OperationCall, now: Time)
    ensures KeepsGrants(db, ApplyOperation(db, call, now))
  {
    match call
    case CallCreateOperation(origin, op, audit, key) => CreateKeepsGrants(db, origin, op, audit, key, now);
    case CallUpdateOperationState(op, state, reason, audit) =>
    case CallCancelOperation(op, reason, key) => CancelKeepsGrants(db, op, reason, key, now);
    case CallCreateReplay(input, op, audit) =>
      ReplayKeepsGrants(db, input, op, audit, now);
    case CallAppendTimelineItem(audit, item) =>
  }

  predicate KeepsLeases(db: Db, after: Db) { after.leases == db.leases && after.registry == db.registry }

  lemma ApprovalCallKeepsLeases(db: Db, call: ApprovalCall, now: Time)
    ensures KeepsLeases(db, ApplyApproval(db, call, now))
  {
  }

  predicate OnlyLeases(db: Db, after: Db) { after == db.(leases := after.leases) }

  lemma AcquireOnlyLeases(db: Db, op: Id, runner: Runner, duration: Time, now: Time)
    ensures OnlyLeases(db, TryAcquireLease(db, op, runner, duration, now).0)
  {
  }

  lemma LeaseCallOnlyLeases(db: Db, call: LeaseCall, now: Time)
    ensures OnlyLeases(db, ApplyLease(db, call, now))
  {
    match call
    case CallTryAcquireLease(op, runner, duration) => AcquireOnlyLeases(db, op, runner, duration, now);
    case CallRenewLease(op, runner, epoch, duration) =>
    case CallReleaseLease(op, runner, epoch) =>
  }

  /** The registry, and the answers remembered for it. */
  predicate OnlyRegistry(db: Db, after: Db) {
    && after == db.(registry := after.registry, replies := after.replies)
    && forall k | k in after.replies ::
         (k in db.replies && after.replies[k] == db.replies[k]) || !after.replies[k].Decision?
  }

  lemma RememberAddsOne(replies: map<(Scope, Id), Reply>, scope: Scope, key: Option<Id>, reply: Reply)
    ensures forall k | k in Remember(replies, scope, key, reply) ::
              (k in replies && Remember(replies, scope, key, reply)[k] == replies[k])
              || Remember(replies, scope, key, reply)[k] == reply
  {
  }

  lemma MintOnlyRegistry(db: Db, payload: Value, digest: string, key: Option<Id>)
    ensures OnlyRegistry(db, MintSnapshot(db, payload, digest, key).0)
  {
    RememberAddsOne(db.replies, Mints, key, Minted("cap:sha256:" + digest));
  }

  lemma RegisterOnlyRegistry(db: Db, payload: Value, digest: string, key: Option<Id>)
    ensures OnlyRegistry(db, RegisterSchema(db, payload, digest, key).0)
  {
    var ref := "schema:sha256:" + digest;
    RememberAddsOne(db.replies, Registrations, key, Registered(ref, payload));
  }

  lemma RegistryCallOnlyRegistry(db: Db, call: RegistryCall)
    ensures OnlyRegistry(db, ApplyRegistry(db, call))
  {
    match call
    case CallMintSnapshot(payload, digest, key) => MintOnlyRegistry(db, payload, digest, key);
    case CallRegisterSchema(payload, digest, key) => RegisterOnlyRegistry(db, payload, digest, key);
    case CallActivateSnapshot(version) =>
  }

  lemma LeasesKeptElsewhere(db: Db, call: Call, now: Time)
    requires !call.OnLease?
    ensures Apply(db, call, now).leases == db.leases
  {
    match call
    case OnOperation(c) => OperationCallKeepsGrants(db, c, now);
    case OnApproval(c) => ApprovalCallKeepsLeases(db, c, now);
    case OnRegistry(c) => RegistryCallOnlyRegistry(db, c);
  }
}
