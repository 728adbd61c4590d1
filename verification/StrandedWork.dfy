/** When approved work is lost: exactly which state writes strand a permitted syscall, and how a request that is sent
    twice would come to one if its handlers were not held up at the gate decision. */
module StrandedWork {
  import opened Prelude
  import opened ActionSchemas
  import opened Database
  import opened Execution
  import opened Recovery
  import opened Submissions
  import opened WorkNotLost
  import ExecutionRuns
  import ExecutionSafety
  import Ledger
  import PinnedCapabilities

  // ----- What a storage call writes -----

  /** Every permitted syscall belongs to an operation that is cancelled or is one that recovery returns. */
  predicate AllWait(db: Db) {
    forall s | s in db.syscalls && db.syscalls[s].status == Permitted ::
      && db.syscalls[s].operation in db.operations
      && (db.operations[db.syscalls[s].operation].state == Cancelled || Recoverable(db, s))
  }

  datatype Write = Write(op: Id, state: OperationState, reason: Option<Reason>)

  /** The state that a call gives an operation which exists already, unless it cancels it. */
  function StateWrite(db: Db, call: Call, at: Time): Option<Write> {
    match call
    case OnOperation(CallUpdateOperationState(op, state, reason, _)) =>
      if op in db.operations then Some(Write(op, state, reason)) else None
    case OnApproval(CallConsumeApproval(input, syscall)) =>
      if Earlier(db, Decide(input.approval), input.key).Some? || ConsumeProblem(db, input, syscall, at).Some? then None
      else
        var op := db.approvals[input.approval].operation;
        Some(if input.decision == Approve then Write(op, Running, Some(PendingExecution))
             else Write(op, Blocked, Some(ApprovalDenied)))
    case _ => None
  }

  ghost predicate HoldsPermitted(db: Db, op: Id) {
    exists s :: s in db.syscalls && db.syscalls[s].operation == op && db.syscalls[s].status == Permitted
  }

  predicate KeepsWaiting(write: Write) {
    write.state == Cancelled || (write.state == Running && write.reason == Some(PendingExecution))
  }

  /** An operation that holds a permitted syscall is only written to be cancelled, or to go on waiting. */
  ghost predicate Safe(db: Db, write: Option<Write>) {
    write.Some? && HoldsPermitted(db, write.value.op) ==> KeepsWaiting(write.value)
  }

  /** Nothing but the write changes an operation, apart from cancellations and new operations; syscalls become permitted
      only with their operation going to wait for them. */
  predicate Writes(db: Db, after: Db, write: Option<Write>) {
    && (forall o | o in db.operations ::
          && o in after.operations
          && (after.operations[o] == db.operations[o] || after.operations[o].state == Cancelled
              || (write.Some? && write.value.op == o)))
    && (write.Some? ==>
          && write.value.op in after.operations
          && after.operations[write.value.op].state == write.value.state
          && after.operations[write.value.op].reason == write.value.reason)
    && (write.Some? ==> forall s | s in db.syscalls :: s in after.syscalls && after.syscalls[s] == db.syscalls[s])
    && forall s | s in after.syscalls && after.syscalls[s].status == Permitted ::
         || (s in db.syscalls && db.syscalls[s].status == Permitted
             && db.syscalls[s].operation == after.syscalls[s].operation)
         || (write.Some? && write.value.op == after.syscalls[s].operation && KeepsWaiting(write.value))
  }

  lemma WriteDecidesWaiting(db: Db, after: Db, write: Option<Write>)
    requires PermittedIsWaiting(db) && Writes(db, after, write)
    ensures PermittedIsWaiting(after) <==> Safe(db, write)
  {
    if write.Some? && HoldsPermitted(db, write.value.op) {
      var s :| s in db.syscalls && db.syscalls[s].operation == write.value.op && db.syscalls[s].status == Permitted;
      assert after.syscalls[s] == db.syscalls[s];
    }
  }

  // ----- Each call -----

  lemma OnlyCancelsWrites(db: Db, after: Db)
    requires OnlyCancels(db, after)
    ensures Writes(db, after, None)
  {
  }

  lemma UpdateWrites(db: Db, op: Id, state: OperationState, reason: Option<Reason>, audit: Id, at: Time)
    ensures var after := UpdateOperationState(db, op, state, reason, audit, at).0;
            && Writes(db, after, if op in db.operations then Some(Write(op, state, reason)) else None)
            && (Audited(db) ==> Audited(after))
  {
    UpdateEndsOperation(db, op, state, reason, audit, at);
  }

  lemma CreateWrites(db: Db, origin: Id, op: Id, audit: Id, key: Option<Id>, at: Time)
    ensures var after := CreateOperation(db, origin, op, audit, key, at).0;
            Writes(db, after, None) && (Audited(db) ==> Audited(after))
  {
    OpenedOperation(db, origin, op, audit, key, at);
  }

  lemma OperationCallWrites(db: Db, call: OperationCall, at: Time)
    ensures var after := ApplyOperation(db, call, at);
            Writes(db, after, StateWrite(db, OnOperation(call), at)) && (Audited(db) ==> Audited(after))
  {
    match call
    case CallUpdateOperationState(op, state, reason, audit) => UpdateWrites(db, op, state, reason, audit, at);
    case CallCreateOperation(origin, op, audit, key) => CreateWrites(db, origin, op, audit, key, at);
    case CallCancelOperation(op, reason, key) =>
      CancelOnlyCancels(db, op, reason, key, at);
      OnlyCancelsWrites(db, ApplyOperation(db, call, at));
    case CallCreateReplay(input, op, audit) =>
      ReplayOnlyCancels(db, input, op, audit, at);
      OnlyCancelsWrites(db, ApplyOperation(db, call, at));
    case CallAppendTimelineItem(audit, item) =>
      AppendOnlyCancels(db, audit, item);
      OnlyCancelsWrites(db, ApplyOperation(db, call, at));
  }

  lemma DecisionWrites(db: Db, input: ConsumeInput, syscall: Id, at: Time)
    ensures var after := ConsumeApproval(db, input, syscall, at).0;
            && Writes(db, after, StateWrite(db, OnApproval(CallConsumeApproval(input, syscall)), at))
            && (Audited(db) ==> Audited(after))
  {
    if Earlier(db, Decide(input.approval), input.key).None? && ConsumeProblem(db, input, syscall, at).None? {
      DecidedWrites(db, input, syscall, at);
    }
  }

  lemma DecidedWrites(db: Db, input: ConsumeInput, syscall: Id, at: Time)
    requires ConsumeProblem(db, input, syscall, at).None?
    ensures var op := db.approvals[input.approval].operation;
            var write := if input.decision == Approve then Write(op, Running, Some(PendingExecution))
                         else Write(op, Blocked, Some(ApprovalDenied));
            && Writes(db, DecidedDb(db, input, syscall, at), Some(write))
            && (Audited(db) ==> Audited(DecidedDb(db, input, syscall, at)))
  {
    Ledger.DecisionDecidesOne(db, input, syscall, at);
    DecidedOperation(db, input, syscall, at);
    var op := db.approvals[input.approval].operation;
    assert input.decision != Approve ==>
             && DecidedDb(db, input, syscall, at).operations[op].state == Blocked
             && DecidedDb(db, input, syscall, at).operations[op].reason == Some(ApprovalDenied);
  }

  /** No call of the program makes a syscall permitted again. */
  predicate NeverPermits(call: Call) {
    call.OnApproval? && call.approval.CallUpdateSyscallStatus? ==> call.approval.status != Permitted
  }

  lemma StatusWrites(db: Db, s: Id, status: SyscallStatus, resultRef: Option<string>)
    requires status != Permitted
    ensures var after := UpdateSyscallStatus(db, s, status, resultRef).0;
            Writes(db, after, None) && after.operations == db.operations && after.audits == db.audits
  {
    ExecutionSafety.SyscallUpdateWrites(db, s, status, resultRef);
  }

  lemma ApprovalCallWrites(db: Db, call: ApprovalCall, at: Time)
    requires NeverPermits(OnApproval(call))
    ensures var after := ApplyApproval(db, call, at);
            Writes(db, after, StateWrite(db, OnApproval(call), at)) && (Audited(db) ==> Audited(after))
  {
    match call
    case CallConsumeApproval(input, syscall) => DecisionWrites(db, input, syscall, at);
    case CallUpdateSyscallStatus(s, status, resultRef) => StatusWrites(db, s, status, resultRef);
    case CallCreateApprovalItem(id, op, mode, proposal, diff, audit) =>
      var after := ApplyApproval(db, call, at);
      assert after == db.(approvals := after.approvals);
    case _ =>
      OobOnlyCancels(db, call, at);
      OnlyCancelsWrites(db, ApplyApproval(db, call, at));
  }

  lemma CallWrites(db: Db, call: Call, at: Time)
    requires NeverPermits(call)
    ensures Writes(db, Apply(db, call, at), StateWrite(db, call, at))
    ensures Audited(db) ==> Audited(Apply(db, call, at))
  {
    match call
    case OnOperation(c) => OperationCallWrites(db, c, at);
    case OnApproval(c) => ApprovalCallWrites(db, c, at);
    case OnLease(c) => LeaseCallOnlyLeases(db, c, at);
    case OnRegistry(c) => RegistryCallOnlyRegistry(db, c);
  }

  // ----- Runs -----

  /** The state write of a step, read off the storage call it makes. */
  function StepWrite(w: World, step: Step, at: Time): Option<Write> {
    if Enabled(w, step) && ExecutionRuns.StepCall(w, step).Some? then
      StateWrite(w.db, ExecutionRuns.StepCall(w, step).value, at)
    else None
  }

  lemma StepWrites(w: World, step: Step, attempts: nat, at: Time)
    requires Audited(w.db)
    ensures Audited(Next(w, step, attempts, at).db)
    ensures Writes(w.db, Next(w, step, attempts, at).db, StepWrite(w, step, at))
  {
    if Enabled(w, step) {
      ExecutionRuns.StepIsCall(w, step, attempts, at);
      var call := ExecutionRuns.StepCall(w, step);
      if call.Some? {
        StepsNeverPermit(w, step);
        CallWrites(w.db, call.value, at);
      }
    }
  }

  lemma StepsNeverPermit(w: World, step: Step)
    requires Enabled(w, step) && ExecutionRuns.StepCall(w, step).Some?
    ensures NeverPermits(ExecutionRuns.StepCall(w, step).value)
  {
  }

  lemma {:induction false} AlwaysAudited(registry: Registry, steps: seq<Timed>, attempts: nat)
    ensures Audited(RunWorld(Start(registry), steps, attempts).db)
  {
    if steps != [] {
      var before, last := steps[..|steps| - 1], steps[|steps| - 1];
      AlwaysAudited(registry, before, attempts);
      StepWrites(RunWorld(Start(registry), before, attempts), last.step, attempts, last.at);
    }
  }

  lemma WaitingIsRecoverable(db: Db)
    requires Audited(db)
    ensures PermittedIsWaiting(db) <==> AllWait(db)
  {
    if PermittedIsWaiting(db) {
      forall s | s in db.syscalls && db.syscalls[s].status == Permitted
        ensures db.operations[db.syscalls[s].operation].state == Cancelled || Recoverable(db, s)
      {
      }
    }
  }

  lemma StepDecidesWaiting(w: World, step: Step, attempts: nat, at: Time)
    requires Audited(w.db) && AllWait(w.db)
    ensures AllWait(Next(w, step, attempts, at).db) <==> Safe(w.db, StepWrite(w, step, at))
  {
    var after := Next(w, step, attempts, at).db;
    StepWrites(w, step, attempts, at);
    WaitingIsRecoverable(w.db);
    WaitingIsRecoverable(after);
    WriteDecidesWaiting(w.db, after, StepWrite(w, step, at));
  }

  predicate WaitsAfter(w: World, steps: seq<Timed>, attempts: nat) { AllWait(RunWorld(w, steps, attempts).db) }

  ghost predicate AlwaysWaits(w: World, steps: seq<Timed>, attempts: nat) {
    forall k | 0 <= k <= |steps| :: WaitsAfter(w, steps[..k], attempts)
  }

  /** The step after `steps` writes safely. */
  ghost predicate SafeNext(w: World, steps: seq<Timed>, next: Timed, attempts: nat) {
    var before := RunWorld(w, steps, attempts);
    Safe(before.db, StepWrite(before, next.step, next.at))
  }

  ghost predicate AlwaysSafe(w: World, steps: seq<Timed>, attempts: nat) {
    forall k | 0 <= k < |steps| :: SafeNext(w, steps[..k], steps[k], attempts)
  }

  lemma AlwaysWaitsSnoc(w: World, steps: seq<Timed>, attempts: nat)
    requires steps != []
    ensures AlwaysWaits(w, steps, attempts) <==>
            AlwaysWaits(w, steps[..|steps| - 1], attempts) && WaitsAfter(w, steps, attempts)
  {
    var before := steps[..|steps| - 1];
    assert steps[..|steps|] == steps;
    assert forall k | 0 <= k <= |before| :: before[..k] == steps[..k];
    if AlwaysWaits(w, steps, attempts) {
      assert WaitsAfter(w, steps[..|steps|], attempts);
    }
  }

  lemma AlwaysSafeSnoc(w: World, steps: seq<Timed>, attempts: nat)
    requires steps != []
    ensures var n := |steps| - 1;
            AlwaysSafe(w, steps, attempts) <==>
            AlwaysSafe(w, steps[..n], attempts) && SafeNext(w, steps[..n], steps[n], attempts)
  {
    var before := steps[..|steps| - 1];
    assert forall k | 0 <= k < |before| :: before[..k] == steps[..k] && before[k] == steps[k];
  }

  /** In any run at all: approved work is cancelled or recoverable all along exactly when no step writes an operation
      that holds a permitted syscall to anything but cancelled, or running and pending execution. */
  lemma {:induction false} WorkWaitsExactly(registry: Registry, steps: seq<Timed>, attempts: nat)
    ensures AlwaysWaits(Start(registry), steps, attempts) <==> AlwaysSafe(Start(registry), steps, attempts)
  {
    if steps == [] {
      assert RunWorld(Start(registry), steps[..0], attempts) == Start(registry);
    } else {
      var before, last := steps[..|steps| - 1], steps[|steps| - 1];
      var w := RunWorld(Start(registry), before, attempts);
      WorkWaitsExactly(registry, before, attempts);
      AlwaysWaitsSnoc(Start(registry), steps, attempts);
      AlwaysSafeSnoc(Start(registry), steps, attempts);
      AlwaysAudited(registry, before, attempts);
      if AlwaysWaits(Start(registry), before, attempts) {
        assert before[..|before|] == before && WaitsAfter(Start(registry), before[..|before|], attempts);
        StepDecidesWaiting(w, last.step, attempts, last.at);
      }
    }
  }

  /** One submitting handler per operation is enough for that. */
  lemma OneHandlerIsSafe(registry: Registry, steps: seq<Timed>, attempts: nat)
    requires SubmittedOnceRun(steps)
    ensures AlwaysSafe(Start(registry), steps, attempts)
  {
    forall k | 0 <= k <= |steps| ensures WaitsAfter(Start(registry), steps[..k], attempts) {
      AlwaysKept(registry, steps[..k], attempts);
      WaitingIsRecoverable(RunWorld(Start(registry), steps[..k], attempts).db);
    }
    WorkWaitsExactly(registry, steps, attempts);
  }

  // ----- A request that is sent twice -----

  // What the storage calls of a handler would do after another one's. In the program none of this happens: the second
  // handler of a request is refused when it stores its gate decision, for the operation has one.

  /** What a second handler of a request would still do after the approval of the first one's item: store an item of its
      own, and then the state. */
  function Overtaking(x: Submission, approval: Id, proposal: Json.Value, at: Time): seq<Timed> {
    [Timed(Elsewhere(OnApproval(SecondItem(x, approval, proposal))), at)]
    + [Timed(Elsewhere(OnOperation(SecondWrite(x))), at)]
  }

  function SecondItem(x: Submission, approval: Id, proposal: Json.Value): ApprovalCall {
    CallCreateApprovalItem(approval, x.op, Diff, proposal, DiffPayload(x.action, proposal), x.audit)
  }

  function SecondWrite(x: Submission): OperationCall {
    CallUpdateOperationState(x.op, AwaitingApproval, Some(ApprovalRequired), x.audit)
  }

  function GrantAndCrash(x: Submission, op: Id, audit: Id, s: Id, request: Id, at: Time): seq<Timed> {
    SubmitTwiceRun(x, op, audit) + [Timed(DecideApproval(Approving(x), s, 0, request), at)] + [Timed(Crash(0), at)]
  }

  /** The request is sent twice under its key, the first handler proposes, the approval is granted, its executor
      crashes, and then the second handler goes on. */
  function StrandingRun(x: Submission, op: Id, audit: Id, s: Id, request: Id, approval: Id, proposal: Json.Value,
                        at: Time): seq<Timed>
  {
    GrantAndCrash(x, op, audit, s, request, at) + Overtaking(x, approval, proposal, at)
  }

  /** Permitted, not cancelled, nobody working on it, and not what recovery looks for. */
  predicate Stranded(w: World, op: Id, s: Id) {
    && s in w.db.syscalls && w.db.syscalls[s].status == Permitted && w.db.syscalls[s].operation == op
    && op in w.db.operations && w.db.operations[op].state != Cancelled
    && (forall pid | pid in w.execs :: s !in w.execs[pid].ids) && !Recoverable(w.db, s)
  }

  /** No answer of the recovery query holds it. */
  ghost predicate NeverReturned(db: Db, s: Id) {
    forall rows: seq<Row>, grouped: seq<RecoverableOperation>, g |
      IsQueryResult(db, rows) && IsGrouping(rows, grouped) && 0 <= g < |grouped| :: s !in grouped[g].syscalls
  }

  lemma StrandedIsNotReturned(w: World, op: Id, s: Id)
    requires Stranded(w, op, s)
    ensures NeverReturned(w.db, s)
  {
    forall rows: seq<Row>, grouped: seq<RecoverableOperation>, g |
      IsQueryResult(w.db, rows) && IsGrouping(rows, grouped) && 0 <= g < |grouped|
      ensures s !in grouped[g].syscalls
    {
      GroupedIsExact(w.db, rows, grouped, s);
    }
  }

  /** The tool call that an approved proposal becomes. */
  function CallOf(d: ActionDescriptor, proposal: Json.Value): Prepared {
    Prepared(d.toolName, d.actionName, d.argsSchemaRef, d.resultSchemaRef, proposal)
  }

  /** The first approval is granted and nobody is at work. */
  predicate IsGranted(w: World, registry: Registry, x: Submission, s: Id) {
    && w.execs == map[] && w.db.registry == registry && w.db.leases == map[] && x.audit in w.db.audits
    && w.db.approvals.Keys == {x.approval} && w.db.operations.Keys == {x.op}
    && w.db.operations[x.op].pinned == registry.current && w.db.operations[x.op].audit == x.audit
    && w.db.syscalls.Keys == {s} && w.db.syscalls[s].operation == x.op && w.db.syscalls[s].approval == x.approval
    && w.db.syscalls[s].status == Permitted && w.db.syscalls[s].call == CallOf(x.action, x.proposal)
    && w.db.replies == Remember(map[], Requests, x.key, Accepted(x.op, x.audit))
  }

  lemma GrantedThenCrashed(w: World, registry: Registry, x: Submission, s: Id, request: Id, attempts: nat, at: Time)
    requires Bootstrapped(registry, x.action) && IsSubmitted(w, registry, x) && Grants(w, Approving(x), s, 0, at)
    ensures var decided := Next(w, DecideApproval(Approving(x), s, 0, request), attempts, at);
            IsGranted(Next(decided, Crash(0), attempts, at), registry, x, s)
  {
    var decided := Next(w, DecideApproval(Approving(x), s, 0, request), attempts, at);
    DecisionStartsOne(w, Approving(x), s, 0, request, attempts, at);
    DecidedTables(w, registry, x, s, at);
    OnlyOneCrashes(decided, attempts, at);
    assert decided.db == DecidedDb(w.db, Approving(x), s, at);
  }

  lemma OnlyOneCrashes(w: World, attempts: nat, at: Time)
    requires w.execs.Keys == {0}
    ensures Next(w, Crash(0), attempts, at) == w.(execs := map[])
  {
    assert (w.execs - {0}).Keys == {};
  }

  lemma DecidedTables(w: World, registry: Registry, x: Submission, s: Id, at: Time)
    requires Bootstrapped(registry, x.action) && IsSubmitted(w, registry, x) && Grants(w, Approving(x), s, 0, at)
    ensures IsGranted(w.(db := DecidedDb(w.db, Approving(x), s, at)), registry, x, s)
  {
    PinnedCapabilities.PreparedFromPin(registry, registry.current, x.action, x.proposal, Ok(x.proposal), None);
    DecidedTablesFor(w, registry, x, s, DiffOf(x), at);
  }

  lemma DecidedTablesFor(w: World, registry: Registry, x: Submission, s: Id, diff: Json.Value, at: Time)
    requires IsSubmitted(w, registry, x) && Grants(w, Approving(x), s, 0, at) && diff == DiffOf(x)
    requires PrepareSyscall(registry, registry.current, diff, Ok(x.proposal), None) == Ok(CallOf(x.action, x.proposal))
    ensures IsGranted(w.(db := DecidedDb(w.db, Approving(x), s, at)), registry, x, s)
  {
  }

  /** The second handler has gone on: its approval item is pending and the operation awaits approval again. */
  predicate IsOvertaken(w: World, registry: Registry, x: Submission, s: Id, approval: Id, proposal: Json.Value) {
    && w.execs == map[] && w.db.registry == registry && w.db.leases == map[] && x.audit in w.db.audits
    && approval in w.db.approvals
    && w.db.approvals[approval] == Approval(x.op, Pending, Diff, proposal, DiffPayload(x.action, proposal), x.audit)
    && w.db.operations.Keys == {x.op} && w.db.operations[x.op].state == AwaitingApproval
    && w.db.operations[x.op].pinned == registry.current && w.db.operations[x.op].audit == x.audit
    && w.db.syscalls.Keys == {s} && w.db.syscalls[s].operation == x.op && w.db.syscalls[s].approval != approval
    && w.db.syscalls[s].status == Permitted && w.db.syscalls[s].call == CallOf(x.action, x.proposal)
    && w.db.replies == Remember(map[], Requests, x.key, Accepted(x.op, x.audit))
  }

  lemma SecondHandlerOvertakes(w: World, registry: Registry, x: Submission, s: Id, approval: Id, proposal: Json.Value,
                               attempts: nat, at: Time)
    requires IsGranted(w, registry, x, s) && approval != x.approval
    ensures var stored := Next(w, Elsewhere(OnApproval(SecondItem(x, approval, proposal))), attempts, at);
            IsOvertaken(Next(stored, Elsewhere(OnOperation(SecondWrite(x))), attempts, at), registry, x, s, approval,
                        proposal)
  {
    ItemTables(w, registry, x, s, approval, proposal, DiffPayload(x.action, proposal), attempts, at);
  }

  lemma ItemTables(w: World, registry: Registry, x: Submission, s: Id, approval: Id, proposal: Json.Value,
                   diff: Json.Value, attempts: nat, at: Time)
    requires IsGranted(w, registry, x, s) && approval != x.approval && diff == DiffPayload(x.action, proposal)
    ensures var item := CallCreateApprovalItem(approval, x.op, Diff, proposal, diff, x.audit);
            var stored := Next(w, Elsewhere(OnApproval(item)), attempts, at);
            IsOvertaken(Next(stored, Elsewhere(OnOperation(SecondWrite(x))), attempts, at), registry, x, s, approval,
                        proposal)
  {
  }

  lemma OvertakenIsStranded(w: World, registry: Registry, x: Submission, s: Id, approval: Id, proposal: Json.Value)
    requires IsOvertaken(w, registry, x, s, approval, proposal)
    ensures Stranded(w, x.op, s)
  {
  }

  lemma GrantedRun(registry: Registry, x: Submission, op: Id, audit: Id, s: Id, request: Id, attempts: nat, at: Time)
    requires Bootstrapped(registry, x.action)
    ensures IsGranted(RunWorld(Start(registry), GrantAndCrash(x, op, audit, s, request, at), attempts), registry, x, s)
  {
    var submit := SubmitTwiceRun(x, op, audit);
    var decide := Timed(DecideApproval(Approving(x), s, 0, request), at);
    SubmittedTwice(registry, x, op, audit, attempts);
    IsSubmittedIsGranted(RunWorld(Start(registry), submit, attempts), registry, x, s, at);
    GrantedThenCrashed(RunWorld(Start(registry), submit, attempts), registry, x, s, request, attempts, at);
    RunSnoc(Start(registry), submit, decide, attempts);
    RunSnoc(Start(registry), submit + [decide], Timed(Crash(0), at), attempts);
  }

  lemma OvertakenRun(registry: Registry, x: Submission, steps: seq<Timed>, s: Id, approval: Id, proposal: Json.Value,
                     attempts: nat, at: Time)
    requires IsGranted(RunWorld(Start(registry), steps, attempts), registry, x, s) && approval != x.approval
    ensures var more := Overtaking(x, approval, proposal, at);
            IsOvertaken(RunWorld(Start(registry), steps + more, attempts), registry, x, s, approval, proposal)
  {
    var late := Overtaking(x, approval, proposal, at);
    var w := RunWorld(Start(registry), steps, attempts);
    SecondHandlerOvertakes(w, registry, x, s, approval, proposal, attempts, at);
    RunSnoc(Start(registry), steps, late[0], attempts);
    RunSnoc(Start(registry), steps + [late[0]], late[1], attempts);
    assert steps + late == steps + [late[0]] + [late[1]];
  }

  lemma StrandingRunOvertakes(registry: Registry, x: Submission, op: Id, audit: Id, s: Id, request: Id, approval: Id,
                              proposal: Json.Value, attempts: nat, at: Time)
    requires Bootstrapped(registry, x.action) && approval != x.approval
    ensures var steps := StrandingRun(x, op, audit, s, request, approval, proposal, at);
            IsOvertaken(RunWorld(Start(registry), steps, attempts), registry, x, s, approval, proposal)
  {
    GrantedRun(registry, x, op, audit, s, request, attempts, at);
    OvertakenRun(registry, x, GrantAndCrash(x, op, audit, s, request, at), s, approval, proposal, attempts, at);
  }

  // ----- How it ends -----

  function Denying(approval: Id, proposal: Json.Value): ConsumeInput {
    ConsumeInput(approval, Deny, None, None, Ok(proposal), None)
  }

  lemma DenialGoesThrough(w: World, registry: Registry, x: Submission, s: Id, approval: Id, proposal: Json.Value, t: Id,
                          at: Time)
    requires IsOvertaken(w, registry, x, s, approval, proposal)
    ensures var input := Denying(approval, proposal);
            && Earlier(w.db, Decide(approval), input.key).None? && ConsumeProblem(w.db, input, t, at).None?
            && w.db.approvals[approval].operation == x.op
  {
  }

  lemma DeniedDb(db: Db, input: ConsumeInput, t: Id, at: Time)
    requires ConsumeProblem(db, input, t, at).None? && input.decision == Deny
    ensures var after := DecidedDb(db, input, t, at);
            var op := db.approvals[input.approval].operation;
            && after.syscalls == db.syscalls && op in after.operations && after.operations[op].state == Blocked
            && DecisionReply(db, input, t).syscalls == []
  {
  }

  lemma DeniedStaysStranded(w: World, registry: Registry, x: Submission, s: Id, approval: Id, proposal: Json.Value,
                            t: Id, request: Id, attempts: nat, at: Time)
    requires IsOvertaken(w, registry, x, s, approval, proposal)
    ensures var after := Next(w, DecideApproval(Denying(approval, proposal), t, 0, request), attempts, at);
            Stranded(after, x.op, s) && after.db.operations[x.op].state == Blocked
  {
    DenialGoesThrough(w, registry, x, s, approval, proposal, t, at);
    DeniedDb(w.db, Denying(approval, proposal), t, at);
    DenialStep(w, Denying(approval, proposal), t, request, attempts, at);
  }

  lemma DenialStep(w: World, input: ConsumeInput, t: Id, request: Id, attempts: nat, at: Time)
    requires w.execs == map[] && Earlier(w.db, Decide(input.approval), input.key).None?
    requires ConsumeProblem(w.db, input, t, at).None? && DecisionReply(w.db, input, t).syscalls == []
    ensures var after := Next(w, DecideApproval(input, t, 0, request), attempts, at);
            after.db == DecidedDb(w.db, input, t, at) && forall pid | pid in after.execs :: after.execs[pid].ids == []
  {
  }

  /** The second handler is given the operation of the first, which is new still. */
  predicate GoesOnWith(registry: Registry, x: Submission, op: Id, audit: Id, attempts: nat, at: Time) {
    var db := RunWorld(Start(registry), Opening(x), attempts).db;
    && CreateOperation(db, x.origin, op, audit, x.key, at) == (db, Ok(Accepted(x.op, x.audit)))
    && x.op in db.operations && db.operations[x.op].state == Created
  }

  lemma SecondHandlerGoesOn(registry: Registry, x: Submission, op: Id, audit: Id, attempts: nat, at: Time)
    requires x.key.Some?
    ensures GoesOnWith(registry, x, op, audit, attempts, at)
  {
    FirstIsAccepted(registry, x, attempts);
    RepeatIsAnswered(Fresh(registry), x, op, audit, 0, at);
  }

  /** If two handlers went beyond the gate decision, approved work could be lost for good: a request is sent twice under
      one key, the first approval is granted and its executor crashes, the second handler asks for approval again, and
      that is denied. The granted syscall is permitted, its operation blocked and so past cancelling, and no answer of
      the recovery query holds it. */
  lemma UngatedHandlerStrands(registry: Registry, x: Submission, op: Id, audit: Id, s: Id, request: Id, approval: Id,
                             proposal: Json.Value, t: Id, again: Id, attempts: nat, at: Time)
    requires Bootstrapped(registry, x.action) && x.key.Some? && approval != x.approval
    ensures GoesOnWith(registry, x, op, audit, attempts, 0)
    ensures var steps := StrandingRun(x, op, audit, s, request, approval, proposal, at);
            var deny := Timed(DecideApproval(Denying(approval, proposal), t, 0, again), at);
            var after := RunWorld(Start(registry), steps + [deny], attempts);
            && Stranded(RunWorld(Start(registry), steps, attempts), x.op, s)
            && NeverReturned(RunWorld(Start(registry), steps, attempts).db, s)
            && Stranded(after, x.op, s) && NeverReturned(after.db, s) && after.db.operations[x.op].state == Blocked
  {
    var steps := StrandingRun(x, op, audit, s, request, approval, proposal, at);
    var w := RunWorld(Start(registry), steps, attempts);
    SecondHandlerGoesOn(registry, x, op, audit, attempts, 0);
    StrandingRunOvertakes(registry, x, op, audit, s, request, approval, proposal, attempts, at);
    OvertakenIsStranded(w, registry, x, s, approval, proposal);
    DeniedStaysStranded(w, registry, x, s, approval, proposal, t, again, attempts, at);
    RunSnoc(Start(registry), steps, Timed(DecideApproval(Denying(approval, proposal), t, 0, again), at), attempts);
    StrandedIsNotReturned(w, x.op, s);
    StrandedIsNotReturned(Next(w, DecideApproval(Denying(approval, proposal), t, 0, again), attempts, at), x.op, s);
  }

  /** Two recoverable syscalls of one operation for the same tool and action. */
  predicate BothWait(w: World, x: Submission, s: Id, t: Id, proposal: Json.Value) {
    && s != t && Recoverable(w.db, s) && Recoverable(w.db, t)
    && w.db.syscalls[s].operation == x.op && w.db.syscalls[t].operation == x.op
    && w.db.syscalls[s].call == CallOf(x.action, x.proposal) && w.db.syscalls[t].call == CallOf(x.action, proposal)
  }

  lemma ApprovedAgain(w: World, registry: Registry, x: Submission, s: Id, approval: Id, proposal: Json.Value, t: Id,
                      request: Id, attempts: nat, at: Time)
    requires Bootstrapped(registry, x.action) && IsOvertaken(w, registry, x, s, approval, proposal) && t != s
    ensures var again := PlainApproval(approval, proposal);
            BothWait(Next(w, DecideApproval(again, t, 0, request), attempts, at), x, s, t, proposal)
  {
    var d := x.action;
    PinnedCapabilities.PreparedFromPin(registry, registry.current, d, proposal, Ok(proposal), None);
    PlainApprovalIsGranted(w, approval, w.db.approvals[approval], w.db.operations[x.op], proposal, t, at);
    DecidedAgain(w, registry, x, s, approval, proposal, DiffPayload(d, proposal), t, at);
  }

  lemma DecidedAgain(w: World, registry: Registry, x: Submission, s: Id, approval: Id, proposal: Json.Value,
                     diff: Json.Value, t: Id, at: Time)
    requires IsOvertaken(w, registry, x, s, approval, proposal) && t != s && diff == DiffPayload(x.action, proposal)
    requires PrepareSyscall(registry, registry.current, diff, Ok(proposal), None) == Ok(CallOf(x.action, proposal))
    requires Grants(w, PlainApproval(approval, proposal), t, 0, at)
    ensures BothWait(w.(db := DecidedDb(w.db, PlainApproval(approval, proposal), t, at)), x, s, t, proposal)
  {
  }

  /** And if the second handler's approval were granted instead, the one request would have two syscalls, both of them
      recovered. */
  lemma UngatedHandlerRepeats(registry: Registry, x: Submission, op: Id, audit: Id, s: Id, request: Id, approval: Id,
                              proposal: Json.Value, t: Id, again: Id, attempts: nat, at: Time)
    requires Bootstrapped(registry, x.action) && x.key.Some? && approval != x.approval && t != s
    ensures GoesOnWith(registry, x, op, audit, attempts, 0)
    ensures var steps := StrandingRun(x, op, audit, s, request, approval, proposal, at);
            var grant := Timed(DecideApproval(PlainApproval(approval, proposal), t, 0, again), at);
            BothWait(RunWorld(Start(registry), steps + [grant], attempts), x, s, t, proposal)
  {
    var steps := StrandingRun(x, op, audit, s, request, approval, proposal, at);
    var grant := Timed(DecideApproval(PlainApproval(approval, proposal), t, 0, again), at);
    SecondHandlerGoesOn(registry, x, op, audit, attempts, 0);
    StrandingRunOvertakes(registry, x, op, audit, s, request, approval, proposal, attempts, at);
    var w := RunWorld(Start(registry), steps, attempts);
    ApprovedAgain(w, registry, x, s, approval, proposal, t, again, attempts, at);
    RunSnoc(Start(registry), steps, grant, attempts);
  }
}
