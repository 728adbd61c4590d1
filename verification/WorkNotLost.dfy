/** Approved work is never lost: while every operation is submitted by one handler, a syscall that is still permitted
    belongs to an operation that was cancelled or that recovery returns. */
module WorkNotLost {
  import opened Prelude
  import opened ActionSchemas
  import opened Database
  import opened Execution
  import opened ExecutionSafety
  import ExecutionRuns
  import opened Ledger
  import opened Recovery

  /** Only the handler of an operation moves it to a state of its own choice or proposes an approval for it. */
  predicate SubmittedOnce(step: Step) {
    step.Elsewhere? ==>
      match step.call
      case OnOperation(c) => !c.CallUpdateOperationState? && !c.CallCreateOperation?
      case OnApproval(c) => !c.CallCreateApprovalItem?
      case _ => true
  }

  predicate SubmittedOnceRun(steps: seq<Timed>) { forall k | 0 <= k < |steps| :: SubmittedOnce(steps[k].step) }

  predicate Audited(db: Db) { forall o | o in db.operations :: db.operations[o].audit in db.audits }

  /** At most one approval per operation, made by a handler that has proposed. */
  predicate OneApproval(db: Db, stages: map<Id, Stage>) {
    && (forall a | a in db.approvals ::
          && db.approvals[a].operation in db.operations && db.approvals[a].operation in stages
          && stages[db.approvals[a].operation] != Compiling)
    && forall a, b | a in db.approvals && b in db.approvals && db.approvals[a].operation == db.approvals[b].operation :: a == b
  }

  /** Until its handler has finished, an operation is new or cancelled and nothing about it is decided. */
  predicate UndecidedUntilFinished(db: Db, stages: map<Id, Stage>) {
    && (forall o | o in stages ::
          o in db.operations &&
          (stages[o] != Finished ==> db.operations[o].state == Created || db.operations[o].state == Cancelled))
    && forall a | a in db.approvals && db.approvals[a].operation in stages && stages[db.approvals[a].operation] != Finished ::
         db.approvals[a].status == Pending
  }

  predicate IsWaiting(row: Operation) { row.state == Running && row.reason == Some(PendingExecution) }

  predicate PermittedIsWaiting(db: Db) {
    forall s | s in db.syscalls && db.syscalls[s].status == Permitted ::
      && db.syscalls[s].operation in db.operations
      && (db.operations[db.syscalls[s].operation].state == Cancelled
          || IsWaiting(db.operations[db.syscalls[s].operation]))
  }

  ghost predicate HasClaimed(syscalls: map<Id, Syscall>, op: Id) {
    exists s :: s in syscalls && syscalls[s].operation == op && syscalls[s].status != Permitted
  }

  /** An executor about to end its operation has seen a syscall of it that was claimed. */
  ghost predicate EndsClaimed(w: World) {
    forall pid | pid in w.execs && (w.execs[pid].pc == FailOperation || w.execs[pid].pc == Complete) ::
      HasClaimed(w.db.syscalls, w.execs[pid].op)
  }

  ghost predicate Kept(w: World) {
    && Audited(w.db) && OneApproval(w.db, w.stages) && UndecidedUntilFinished(w.db, w.stages)
    && PermittedIsWaiting(w.db) && EndsClaimed(w)
  }

  // ----- One syscall per operation -----

  lemma OneSyscallPerOperation(db: Db, stages: map<Id, Stage>, s: Id, t: Id)
    requires SyscallsBalance(db) && OneApproval(db, stages)
    requires s in db.syscalls && t in db.syscalls && db.syscalls[s].operation == db.syscalls[t].operation
    ensures s == t
  {
    var a := db.syscalls[s].approval;
    assert db.syscalls[t].approval == a;
    var both := SyscallsFor(db, a);
    assert s in both && t in both && |both| <= 1;
    SmallSet(both, s, t);
  }

  lemma SmallSet(both: set<Id>, s: Id, t: Id)
    requires s in both && t in both && |both| <= 1
    ensures s == t
  {
    assert |both - {s}| == 0;
  }

  lemma PendingHasNoSyscall(db: Db, s: Id)
    requires SyscallsBalance(db) && s in db.syscalls
    ensures db.approvals[db.syscalls[s].approval].status == Consumed
  {
    assert s in SyscallsFor(db, db.syscalls[s].approval);
  }

  // ----- Steps that at most cancel -----

  /** Approvals and syscalls stay; operations stay, are cancelled, or are new. */
  predicate OnlyCancels(db: Db, after: Db) {
    && after.approvals == db.approvals && after.syscalls == db.syscalls
    && (forall o | o in db.operations ::
          && o in after.operations
          && (after.operations[o] == db.operations[o] || after.operations[o].state == Cancelled))
    && (Audited(db) ==> Audited(after))
  }

  lemma OnlyCancelsKeeps(w: World, after: World)
    requires Kept(w) && OnlyCancels(w.db, after.db) && after.stages == w.stages
    requires forall pid | pid in after.execs && (after.execs[pid].pc == FailOperation || after.execs[pid].pc == Complete) ::
               HasClaimed(w.db.syscalls, after.execs[pid].op)
    ensures Kept(after)
  {
  }

  lemma CancelOnlyCancels(db: Db, op: Id, reason: Reason, key: Option<Id>, at: Time)
    ensures OnlyCancels(db, CancelOperation(db, op, reason, key, at).0)
  {
    var after := CancelOperation(db, op, reason, key, at).0;
    CancelShape(db, op, reason, key, at);
    if after.operations != db.operations {
      assert after.operations == db.operations[op := after.operations[op]];
    }
  }

  lemma CancelShape(db: Db, op: Id, reason: Reason, key: Option<Id>, at: Time)
    ensures var after := CancelOperation(db, op, reason, key, at).0;
            && after.approvals == db.approvals && after.syscalls == db.syscalls && after.audits.Keys == db.audits.Keys
            && (after.operations == db.operations
                || (op in db.operations && op in after.operations && after.operations[op].state == Cancelled
                    && after.operations[op].audit == db.operations[op].audit
                    && after.operations == db.operations[op := after.operations[op]]))
  {
  }

  lemma ReplayShape(db: Db, input: ReplayInput, op: Id, audit: Id, at: Time)
    ensures var after := CreateReplay(db, input, op, audit, at).0;
            && after.approvals == db.approvals && after.syscalls == db.syscalls
            && ((after.operations == db.operations && after.audits == db.audits)
                || (op !in db.operations && audit !in db.audits && op in after.operations && audit in after.audits
                    && after.operations[op].audit == audit
                    && after.operations == db.operations[op := after.operations[op]]
                    && after.audits == db.audits[audit := after.audits[audit]]))
  {
  }

  lemma ReplayOnlyCancels(db: Db, input: ReplayInput, op: Id, audit: Id, at: Time)
    ensures OnlyCancels(db, CreateReplay(db, input, op, audit, at).0)
  {
    ReplayShape(db, input, op, audit, at);
  }

  lemma AppendOnlyCancels(db: Db, audit: Id, item: TimelineItem)
    ensures OnlyCancels(db, AppendTimelineItem(db, audit, item).0)
  {
  }

  lemma StartOnlyCancels(db: Db, approval: Id, challenge: Id, key: Option<Id>, at: Time)
    ensures OnlyCancels(db, StartOobChallenge(db, approval, challenge, key, at).0)
  {
    var after := StartOobChallenge(db, approval, challenge, key, at).0;
    assert after == db.(challenges := after.challenges, replies := after.replies);
  }

  lemma VerifyOnlyCancels(db: Db, approval: Id, challenge: Id, key: Option<Id>, at: Time)
    ensures OnlyCancels(db, VerifyOobChallenge(db, approval, challenge, key, at).0)
  {
    var after := VerifyOobChallenge(db, approval, challenge, key, at).0;
    assert after == db.(challenges := after.challenges, replies := after.replies);
  }

  lemma OobOnlyCancels(db: Db, call: ApprovalCall, at: Time)
    requires call.CallStartOobChallenge? || call.CallVerifyOobChallenge?
    ensures OnlyCancels(db, ApplyApproval(db, call, at))
  {
    match call
    case CallStartOobChallenge(approval, challenge, key) => StartOnlyCancels(db, approval, challenge, key, at);
    case CallVerifyOobChallenge(approval, challenge, key) => VerifyOnlyCancels(db, approval, challenge, key, at);
  }

  lemma ElsewhereOnlyCancels(db: Db, call: Call, at: Time)
    requires FromElsewhere(call) && SubmittedOnce(Elsewhere(call))
    ensures OnlyCancels(db, Apply(db, call, at))
  {
    match call
    case OnOperation(CallCancelOperation(op, reason, key)) => CancelOnlyCancels(db, op, reason, key, at);
    case OnOperation(CallCreateReplay(input, op, audit)) =>
      ReplayOnlyCancels(db, input, op, audit, at);
    case OnOperation(CallAppendTimelineItem(audit, item)) => AppendOnlyCancels(db, audit, item);
    case OnApproval(c) => OobOnlyCancels(db, c, at);
    case OnRegistry(c) => RegistryCallOnlyRegistry(db, c);
  }

  // ----- Executors -----

  /** Writing a status other than `permitted`. */
  lemma StatusWriteKeeps(w: World, after: World, s: Id)
    requires Kept(w) && after.stages == w.stages
    requires s in w.db.syscalls && s in after.db.syscalls
    requires after.db == w.db.(syscalls := w.db.syscalls[s := after.db.syscalls[s]])
    requires after.db.syscalls[s].status != Permitted
    requires after.db.syscalls[s].operation == w.db.syscalls[s].operation
    requires forall pid | pid in after.execs && (after.execs[pid].pc == FailOperation || after.execs[pid].pc == Complete) ::
               after.execs[pid].op == w.db.syscalls[s].operation
               || HasClaimed(w.db.syscalls, after.execs[pid].op)
    ensures Kept(after)
  {
    forall op | HasClaimed(w.db.syscalls, op) || op == w.db.syscalls[s].operation
      ensures HasClaimed(after.db.syscalls, op)
    {
      if op == w.db.syscalls[s].operation {
        assert after.db.syscalls[s].operation == op;
      } else {
        var t :| t in w.db.syscalls && w.db.syscalls[t].operation == op && w.db.syscalls[t].status != Permitted;
        assert after.db.syscalls[t] == w.db.syscalls[t];
      }
    }
  }

  /** An operation one of whose syscalls was claimed has no permitted one, and its handler has finished. */
  lemma ClaimedIsTheOnlyOne(w: World, op: Id, s: Id)
    requires Kept(w) && SyscallsBalance(w.db) && HasClaimed(w.db.syscalls, op)
    ensures op in w.stages ==> w.stages[op] == Finished
    ensures s in w.db.syscalls && w.db.syscalls[s].status == Permitted ==> w.db.syscalls[s].operation != op
  {
    var t :| t in w.db.syscalls && w.db.syscalls[t].operation == op && w.db.syscalls[t].status != Permitted;
    PendingHasNoSyscall(w.db, t);
    if s in w.db.syscalls && w.db.syscalls[s].status == Permitted && w.db.syscalls[s].operation == op {
      OneSyscallPerOperation(w.db, w.stages, s, t);
    }
  }

  /** Ending an operation one of whose syscalls was claimed strands nothing. */
  lemma EndingKeeps(w: World, after: World, op: Id, row: Operation)
    requires Kept(w) && SyscallsBalance(w.db) && HasClaimed(w.db.syscalls, op) && op in w.db.operations
    requires row.audit == w.db.operations[op].audit
    requires after.db.operations == w.db.operations[op := row]
    requires after.db.approvals == w.db.approvals && after.db.syscalls == w.db.syscalls && after.db.audits == w.db.audits
    requires after.stages == w.stages
    requires forall pid | pid in after.execs && (after.execs[pid].pc == FailOperation || after.execs[pid].pc == Complete) ::
               HasClaimed(w.db.syscalls, after.execs[pid].op)
    ensures Kept(after)
  {
    forall s ensures (op in w.stages ==> w.stages[op] == Finished)
                     && (s in w.db.syscalls && w.db.syscalls[s].status == Permitted ==> w.db.syscalls[s].operation != op)
    {
      ClaimedIsTheOnlyOne(w, op, s);
    }
  }

  lemma UpdateEndsOperation(db: Db, op: Id, state: OperationState, reason: Option<Reason>, audit: Id, at: Time)
    ensures var (after, r) := UpdateOperationState(db, op, state, reason, audit, at);
            if op in db.operations then
              && op in after.operations && after.operations == db.operations[op := after.operations[op]]
              && after.operations[op].audit == db.operations[op].audit
              && after.operations[op].state == state && after.operations[op].reason == reason
              && after.approvals == db.approvals && after.syscalls == db.syscalls && after.audits == db.audits
            else after == db
  {
  }

  lemma EndStepKeeps(w: World, pid: nat, state: OperationState, reason: Reason, pc: Pc, at: Time)
    requires Kept(w) && SyscallsBalance(w.db) && pid in w.execs
    requires w.execs[pid].pc == FailOperation || w.execs[pid].pc == Complete
    requires pc != FailOperation && pc != Complete
    ensures var e := w.execs[pid];
            var (db, r) := UpdateOperationState(w.db, e.op, state, Some(reason), e.audit, at);
            Kept(Put(w.(db := db), pid, Then(e, r.Ok?, pc)))
  {
    var e := w.execs[pid];
    var (db, r) := UpdateOperationState(w.db, e.op, state, Some(reason), e.audit, at);
    var after := Put(w.(db := db), pid, Then(e, r.Ok?, pc));
    UpdateEndsOperation(w.db, e.op, state, Some(reason), e.audit, at);
    if e.op in w.db.operations {
      EndingKeeps(w, after, e.op, db.operations[e.op]);
    } else {
      OnlyCancelsKeeps(w, after);
    }
  }

  lemma ClaimKeeps(w: World, pid: nat)
    requires Kept(w) && Sound(w) && pid in w.execs && w.execs[pid].pc == Claim
    ensures Kept(ClaimStep(w, pid))
  {
    var after := ClaimStep(w, pid);
    ClaimWrites(w, pid);
    if after.claims == w.claims {
      OnlyCancelsKeeps(w, after);
    } else {
      StatusWriteKeeps(w, after, w.execs[pid].ids[w.execs[pid].next]);
    }
  }

  lemma OutcomeKeeps(w: World, pid: nat, status: SyscallStatus, resultRef: Option<string>, pc: Pc)
    requires Kept(w) && Sound(w) && pid in w.execs && PastClaim(w.execs[pid].pc) && status != Permitted
    requires pc != Complete
    ensures var e := w.execs[pid];
            var (db, r) := UpdateSyscallStatus(w.db, e.ids[e.next], status, resultRef);
            Kept(Put(w.(db := db), pid, Then(e, r.Ok?, pc)))
  {
    var e := w.execs[pid];
    var s := e.ids[e.next];
    var (db, r) := UpdateSyscallStatus(w.db, s, status, resultRef);
    var after := Put(w.(db := db), pid, Then(e, r.Ok?, pc));
    assert ExecSound(w.db.syscalls, w.claims, pid, e);
    if r.Ok? {
      StatusWriteKeeps(w, after, s);
    } else {
      OnlyCancelsKeeps(w, after);
    }
  }

  lemma ListKeeps(w: World, pid: nat)
    requires Kept(w) && pid in w.execs && w.execs[pid].pc == ListSyscalls
    ensures Kept(ListStep(w, pid))
  {
    OnlyCancelsKeeps(w, ListStep(w, pid));
  }

  lemma NoteKeeps(w: World, pid: nat)
    requires Kept(w) && pid in w.execs
    requires w.execs[pid].pc == NoteExecuted || w.execs[pid].pc == NoteFailed || w.execs[pid].pc == NoteCompleted
    ensures Kept(NoteStep(w, pid))
  {
    AppendOnlyCancels(w.db, w.execs[pid].audit, Note("executor"));
    OnlyCancelsKeeps(w, NoteStep(w, pid));
  }

  lemma AcquireKeeps(w: World, pid: nat, at: Time)
    requires Kept(w) && pid in w.execs && w.execs[pid].pc == Acquire
    ensures Kept(AcquireStep(w, pid, at))
  {
    AcquireOnlyExec(w, pid, at);
    LeaseCallOnlyLeases(w.db, CallTryAcquireLease(w.execs[pid].op, w.execs[pid].runner, LEASE_MS), at);
    OnlyCancelsKeeps(w, AcquireStep(w, pid, at));
  }

  lemma ScanKeeps(w: World, pid: nat)
    requires Kept(w) && pid in w.execs && w.execs[pid].pc == Scan
    ensures Kept(ScanStep(w, pid))
  {
    ScanReads(w, pid);
    OnlyCancelsKeeps(w, ScanStep(w, pid));
  }

  lemma ToolKeeps(w: World, pid: nat, outcome: ToolOutcome, attempts: nat)
    requires Kept(w) && pid in w.execs && HasCurrent(w.execs[pid]) && w.execs[pid].pc.CallTool?
    ensures Kept(ToolStep(w, pid, outcome, attempts))
  {
    OnlyCancelsKeeps(w, ToolStep(w, pid, outcome, attempts));
  }

  lemma InspectKeeps(w: World, pid: nat)
    requires Kept(w) && pid in w.execs
    ensures Kept(InspectStep(w, pid))
  {
    OnlyCancelsKeeps(w, InspectStep(w, pid));
  }

  lemma ReleaseKeeps(w: World, pid: nat)
    requires Kept(w) && pid in w.execs
    ensures Kept(ReleaseStep(w, pid))
  {
    OnlyCancelsKeeps(w, ReleaseStep(w, pid));
  }

  lemma MoveKeeps(w: World, pid: nat, outcome: ToolOutcome, attempts: nat, at: Time)
    requires Kept(w) && Sound(w) && SyscallsBalance(w.db) && pid in w.execs
    ensures Kept(MoveStep(w, pid, outcome, attempts, at))
  {
    match w.execs[pid].pc
    case Acquire => AcquireKeeps(w, pid, at);
    case Scan => ScanKeeps(w, pid);
    case Claim => ClaimKeeps(w, pid);
    case CallTool(_) => ToolKeeps(w, pid, outcome, attempts);
    case Settle => OutcomeKeeps(w, pid, Executed, Some("event:syscall_result"), NoteExecuted);
    case RecordFailure => OutcomeKeeps(w, pid, SyscallFailed, None, FailOperation);
    case NoteExecuted => NoteKeeps(w, pid);
    case NoteFailed => NoteKeeps(w, pid);
    case NoteCompleted => NoteKeeps(w, pid);
    case FailOperation => EndStepKeeps(w, pid, OperationFailed, SyscallExecutionFailed, NoteFailed, at);
    case Inspect => InspectKeeps(w, pid);
    case ListSyscalls => ListKeeps(w, pid);
    case Complete => EndStepKeeps(w, pid, Completed, SyscallsExecuted, NoteCompleted, at);
    case Release => ReleaseKeeps(w, pid);
  }

  // ----- Decisions -----

  /** The decided operation awaited approval and now waits for its syscall, if it was approved. */
  predicate MovesOn(db: Db, after: Db, op: Id, approved: bool) {
    && op in db.operations && db.operations[op].state == AwaitingApproval
    && op in after.operations && after.operations == db.operations[op := after.operations[op]]
    && after.operations[op].audit == db.operations[op].audit
    && (approved ==> IsWaiting(after.operations[op]))
    && forall a | a in db.audits :: a in after.audits
  }

  lemma NothingGrantedYet(w: World, approval: Id, s: Id)
    requires Kept(w) && SyscallsBalance(w.db) && s in w.db.syscalls
    requires approval in w.db.approvals && w.db.approvals[approval].status == Pending
    ensures w.db.syscalls[s].operation != w.db.approvals[approval].operation
  {
    PendingHasNoSyscall(w.db, s);
  }

  lemma DecidedKeepsApprovals(w: World, after: Db, approval: Id, granted: Option<Id>, spent: Option<Id>)
    requires Kept(w) && DecidesOne(w.db, after, approval, granted, spent)
    requires MovesOn(w.db, after, w.db.approvals[approval].operation, granted.Some?)
    ensures Audited(after) && OneApproval(after, w.stages) && UndecidedUntilFinished(after, w.stages)
  {
  }

  lemma DecidedKeepsWaiting(w: World, after: Db, approval: Id, granted: Option<Id>, spent: Option<Id>)
    requires Kept(w) && SyscallsBalance(w.db) && DecidesOne(w.db, after, approval, granted, spent)
    requires MovesOn(w.db, after, w.db.approvals[approval].operation, granted.Some?)
    ensures PermittedIsWaiting(after)
  {
    forall s | s in w.db.syscalls ensures w.db.syscalls[s].operation != w.db.approvals[approval].operation {
      NothingGrantedYet(w, approval, s);
    }
  }

  lemma ClaimedStaysClaimed(db: Db, after: Db, op: Id)
    requires forall s | s in db.syscalls :: s in after.syscalls && after.syscalls[s] == db.syscalls[s]
    requires HasClaimed(db.syscalls, op)
    ensures HasClaimed(after.syscalls, op)
  {
    var t :| t in db.syscalls && db.syscalls[t].operation == op && db.syscalls[t].status != Permitted;
    assert after.syscalls[t] == db.syscalls[t];
  }

  /** Deciding the one approval of an operation. */
  lemma DecidedKeeps(w: World, after: World, approval: Id, granted: Option<Id>, spent: Option<Id>)
    requires Kept(w) && SyscallsBalance(w.db) && DecidesOne(w.db, after.db, approval, granted, spent)
    requires MovesOn(w.db, after.db, w.db.approvals[approval].operation, granted.Some?)
    requires after.stages == w.stages && after.execs == w.execs
    ensures Kept(after)
  {
    DecidedKeepsApprovals(w, after.db, approval, granted, spent);
    DecidedKeepsWaiting(w, after.db, approval, granted, spent);
    EndsStayClaimed(w, after);
  }

  lemma EndsStayClaimed(w: World, after: World)
    requires EndsClaimed(w) && after.execs == w.execs
    requires forall s | s in w.db.syscalls :: s in after.db.syscalls && after.db.syscalls[s] == w.db.syscalls[s]
    ensures EndsClaimed(after)
  {
    forall pid | pid in w.execs && HasClaimed(w.db.syscalls, w.execs[pid].op)
      ensures HasClaimed(after.db.syscalls, w.execs[pid].op)
    {
      ClaimedStaysClaimed(w.db, after.db, w.execs[pid].op);
    }
  }

  lemma DecidedOperation(db: Db, input: ConsumeInput, syscall: Id, at: Time)
    requires ConsumeProblem(db, input, syscall, at).None?
    ensures MovesOn(db, DecidedDb(db, input, syscall, at), db.approvals[input.approval].operation, input.decision == Approve)
  {
  }

  lemma ConsumeKeeps(w: World, input: ConsumeInput, syscall: Id, at: Time)
    requires Kept(w) && SyscallsBalance(w.db)
    requires ConsumeProblem(w.db, input, syscall, at).None?
    ensures Kept(w.(db := DecidedDb(w.db, input, syscall, at)))
  {
    DecisionDecidesOne(w.db, input, syscall, at);
    DecidedOperation(w.db, input, syscall, at);
    DecidedKeeps(w, w.(db := DecidedDb(w.db, input, syscall, at)), input.approval,
                 if input.decision == Approve then Some(syscall) else None,
                 if NeedsChallenge(w.db, input) then input.challenge else None);
  }

  lemma SpawnKeeps(w: World, pid: nat, runner: Runner, op: Id, audit: Id, ids: seq<Id>)
    requires Kept(w)
    ensures Kept(Put(w, pid, NewExec(runner, op, audit, ids)))
  {
    OnlyCancelsKeeps(w, Put(w, pid, NewExec(runner, op, audit, ids)));
  }

  lemma DecideKeeps(w: World, input: ConsumeInput, syscall: Id, pid: nat, request: Id, at: Time)
    requires Kept(w) && SyscallsBalance(w.db)
    ensures Kept(DecideStep(w, input, syscall, pid, request, at))
  {
    var (db, r) := ConsumeApproval(w.db, input, syscall, at);
    if Earlier(w.db, Decide(input.approval), input.key).None? && ConsumeProblem(w.db, input, syscall, at).None? {
      ConsumeKeeps(w, input, syscall, at);
    }
    assert Kept(w.(db := db));
    if r.Ok? && r.value.Decision? {
      SpawnKeeps(w.(db := db), pid, Executor(request), r.value.operation, r.value.audit, r.value.syscalls);
    }
  }

  // ----- Submission -----

  predicate Opens(db: Db, after: Db, op: Id) {
    && op !in db.operations && op in after.operations
    && after.operations == db.operations[op := after.operations[op]]
    && after.operations[op].state == Created && after.operations[op].audit in after.audits
    && (forall a | a in db.audits :: a in after.audits)
    && after.approvals == db.approvals && after.syscalls == db.syscalls
  }

  lemma OpenedOperation(db: Db, origin: Id, op: Id, audit: Id, key: Option<Id>, at: Time)
    ensures var after := CreateOperation(db, origin, op, audit, key, at).0;
            after == db || Opens(db, after, op)
  {
  }

  lemma OpenKeepsRows(db: Db, after: Db, stages: map<Id, Stage>, op: Id)
    requires Audited(db) && OneApproval(db, stages) && UndecidedUntilFinished(db, stages) && PermittedIsWaiting(db)
    requires Opens(db, after, op)
    ensures var started := stages[op := Compiling];
            Audited(after) && OneApproval(after, started) && UndecidedUntilFinished(after, started)
            && PermittedIsWaiting(after)
  {
    assert forall a | a in db.approvals :: db.approvals[a].operation != op;
  }

  lemma OpenKeeps(w: World, origin: Id, op: Id, audit: Id, key: Option<Id>, at: Time)
    requires Kept(w)
    ensures Kept(OpenStep(w, origin, op, audit, key, at))
  {
    var after := OpenStep(w, origin, op, audit, key, at);
    OpenedOperation(w.db, origin, op, audit, key, at);
    if after.db == w.db {
      assert after == w;
    } else {
      OpenKeepsRows(w.db, after.db, w.stages, op);
    }
  }

  lemma ProposeKeepsRows(db: Db, after: Db, stages: map<Id, Stage>, approval: Id, row: Approval)
    requires Audited(db) && OneApproval(db, stages) && UndecidedUntilFinished(db, stages) && PermittedIsWaiting(db)
    requires row.operation in stages && stages[row.operation] == Compiling && row.status == Pending
    requires approval !in db.approvals && after == db.(approvals := db.approvals[approval := row])
    ensures var proposed := stages[row.operation := Proposed];
            Audited(after) && OneApproval(after, proposed) && UndecidedUntilFinished(after, proposed)
            && PermittedIsWaiting(after)
  {
    assert forall a | a in db.approvals :: db.approvals[a].operation != row.operation;
  }

  lemma ProposeKeeps(w: World, op: Id, approval: Id, mode: ApprovalMode, proposal: Json.Value, diff: Json.Value)
    requires Kept(w) && op in w.stages && w.stages[op] == Compiling && op in w.db.operations
    ensures Kept(ProposeStep(w, op, approval, mode, proposal, diff))
  {
    var after := ProposeStep(w, op, approval, mode, proposal, diff);
    if approval in w.db.approvals {
      assert after.db == w.db;
    } else {
      ProposeKeepsRows(w.db, after.db, w.stages, approval, after.db.approvals[approval]);
    }
  }

  lemma FinishKeeps(w: World, op: Id, draft: bool, why: string, at: Time)
    requires Kept(w) && SyscallsBalance(w.db)
    requires op in w.stages && w.stages[op] != Finished && op in w.db.operations
    ensures Kept(FinishStep(w, op, draft, why, at))
  {
    forall s | s in w.db.syscalls ensures w.db.syscalls[s].operation != op {
      PendingHasNoSyscall(w.db, s);
    }
  }

  // ----- Runs -----

  lemma StepKeeps(w: World, step: Step, attempts: nat, at: Time)
    requires Kept(w) && Sound(w) && SyscallsBalance(w.db) && SubmittedOnce(step)
    ensures Kept(Next(w, step, attempts, at))
  {
    if Enabled(w, step) {
      match step
      case Elsewhere(call) =>
        ElsewhereOnlyCancels(w.db, call, at);
        OnlyCancelsKeeps(w, Next(w, step, attempts, at));
      case DecideApproval(input, syscall, pid, request) => DecideKeeps(w, input, syscall, pid, request, at);
      case Recover(pid, op, ids) => SpawnKeeps(w, pid, RecoveryOf(op), op, w.db.operations[op].audit, ids);
      case Move(pid, outcome) => MoveKeeps(w, pid, outcome, attempts, at);
      case Crash(pid) => OnlyCancelsKeeps(w, Drop(w, pid));
      case SubmitOpen(origin, op, audit, key) => OpenKeeps(w, origin, op, audit, key, at);
      case SubmitPropose(op, approval, mode, proposal, diff) => ProposeKeeps(w, op, approval, mode, proposal, diff);
      case SubmitFinish(op, draft, why) => FinishKeeps(w, op, draft, why, at);
    }
  }

  lemma {:induction false} AlwaysKept(registry: Registry, steps: seq<Timed>, attempts: nat)
    requires SubmittedOnceRun(steps)
    ensures Kept(RunWorld(Start(registry), steps, attempts))
  {
    if steps != [] {
      var before, last := steps[..|steps| - 1], steps[|steps| - 1];
      AlwaysKept(registry, before, attempts);
      AlwaysSound(registry, before, attempts);
      ExecutionRuns.WorldsKeepTheLedger(registry, before, attempts);
      StepKeeps(RunWorld(Start(registry), before, attempts), last.step, attempts, last.at);
    }
  }

  /** The main result: whatever crashed, a permitted syscall's operation is cancelled or recovery returns it, once,
      with that syscall. */
  lemma NoApprovedWorkIsLost(registry: Registry, steps: seq<Timed>, attempts: nat, rows: seq<Row>,
                             grouped: seq<RecoverableOperation>, s: Id)
    requires SubmittedOnceRun(steps)
    requires var db := RunWorld(Start(registry), steps, attempts).db;
             && IsQueryResult(db, rows) && IsGrouping(rows, grouped)
             && s in db.syscalls && db.syscalls[s].status == Permitted
    ensures var db := RunWorld(Start(registry), steps, attempts).db;
            var op := db.syscalls[s].operation;
            && op in db.operations
            && (db.operations[op].state != Cancelled ==>
                  exists g :: 0 <= g < |grouped| && grouped[g].operation == op && s in grouped[g].syscalls
                              && forall h | 0 <= h < |grouped| && grouped[h].operation == op :: h == g)
  {
    var db := RunWorld(Start(registry), steps, attempts).db;
    var op := db.syscalls[s].operation;
    AlwaysKept(registry, steps, attempts);
    if db.operations[op].state != Cancelled {
      assert Recoverable(db, s);
      GroupedIsExact(db, rows, grouped, s);
      var g :| 0 <= g < |grouped| && s in grouped[g].syscalls;
      assert grouped[g].operation == op;
    }
  }

  /** Exactly when a state change by some other handler leaves a permitted syscall that recovery no longer returns. */
  lemma StrandedExactly(db: Db, s: Id, state: OperationState, reason: Option<Reason>, audit: Id, at: Time)
    requires Recoverable(db, s)
    ensures var after := UpdateOperationState(db, db.syscalls[s].operation, state, reason, audit, at).0;
            && after.syscalls[s].status == Permitted
            && (!Recoverable(after, s) <==> state != Running || reason != Some(PendingExecution))
  {
    UpdateEndsOperation(db, db.syscalls[s].operation, state, reason, audit, at);
  }
}
