/** Every world is the outcome of storage calls, so what the calls keep holds in every world. */
module ExecutionRuns {
  import opened Prelude
  import opened ActionSchemas
  import opened Database
  import opened Execution
  import Ledger

  /** The storage call an executor's next move makes, if it makes one that can change something. */
  function MoveCall(w: World, pid: nat): Option<Call>
    requires pid in w.execs && HasCurrent(w.execs[pid])
  {
    var e := w.execs[pid];
    match e.pc
    case Acquire => Some(OnLease(CallTryAcquireLease(e.op, e.runner, LEASE_MS)))
    case Claim => Some(OnApproval(CallUpdateSyscallStatus(e.ids[e.next], Executing, None)))
    case Settle => Some(OnApproval(CallUpdateSyscallStatus(e.ids[e.next], Executed, Some("event:syscall_result"))))
    case RecordFailure => Some(OnApproval(CallUpdateSyscallStatus(e.ids[e.next], SyscallFailed, None)))
    case NoteExecuted => Some(OnOperation(CallAppendTimelineItem(e.audit, Note("executor"))))
    case NoteFailed => Some(OnOperation(CallAppendTimelineItem(e.audit, Note("executor"))))
    case NoteCompleted => Some(OnOperation(CallAppendTimelineItem(e.audit, Note("executor"))))
    case FailOperation =>
      Some(OnOperation(CallUpdateOperationState(e.op, OperationFailed, Some(SyscallExecutionFailed), e.audit)))
    case Complete => Some(OnOperation(CallUpdateOperationState(e.op, Completed, Some(SyscallsExecuted), e.audit)))
    case Release => Some(OnLease(CallReleaseLease(e.op, e.runner, e.epoch)))
    case _ => None
  }

  function StepCall(w: World, step: Step): Option<Call>
    requires Enabled(w, step)
  {
    match step
    case Elsewhere(call) => Some(call)
    case DecideApproval(input, syscall, _, _) => Some(OnApproval(CallConsumeApproval(input, syscall)))
    case Move(pid, _) => MoveCall(w, pid)
    case SubmitOpen(origin, op, audit, key) => Some(OnOperation(CallCreateOperation(origin, op, audit, key)))
    case SubmitPropose(op, approval, mode, proposal, diff) =>
      Some(OnApproval(CallCreateApprovalItem(approval, op, mode, proposal, diff, w.db.operations[op].audit)))
    case SubmitFinish(op, draft, why) =>
      var (state, reason) :=
        if w.stages[op] == Proposed then (AwaitingApproval, ApprovalRequired)
        else if draft then (Completed, DraftReady)
        else (Blocked, Because(why));
      Some(OnOperation(CallUpdateOperationState(op, state, Some(reason), w.db.operations[op].audit)))
    case _ => None
  }

  function ApplyOption(db: Db, call: Option<Call>, at: Time): Db {
    if call.Some? then Apply(db, call.value, at) else db
  }

  lemma MoveIsCall(w: World, pid: nat, outcome: ToolOutcome, attempts: nat, at: Time)
    requires pid in w.execs && HasCurrent(w.execs[pid])
    ensures MoveStep(w, pid, outcome, attempts, at).db == ApplyOption(w.db, MoveCall(w, pid), at)
  {
    var e := w.execs[pid];
    match e.pc
    case Acquire => AcquireIsCall(w, pid, at);
    case Claim => ClaimIsCall(w, pid, at);
    case Settle => OutcomeIsCall(w, pid, outcome, attempts, at);
    case RecordFailure => OutcomeIsCall(w, pid, outcome, attempts, at);
    case NoteExecuted => NoteIsCall(w, pid);
    case NoteFailed => NoteIsCall(w, pid);
    case NoteCompleted => NoteIsCall(w, pid);
    case FailOperation => EndIsCall(w, pid, outcome, attempts, at);
    case Complete => EndIsCall(w, pid, outcome, attempts, at);
    case Release => ReleaseIsCall(w, pid);
    case _ => OtherMoveIsNoCall(w, pid, outcome, attempts, at);
  }

  lemma OutcomeIsCall(w: World, pid: nat, outcome: ToolOutcome, attempts: nat, at: Time)
    requires pid in w.execs && HasCurrent(w.execs[pid])
    requires w.execs[pid].pc == Settle || w.execs[pid].pc == RecordFailure
    ensures MoveStep(w, pid, outcome, attempts, at).db == ApplyOption(w.db, MoveCall(w, pid), at)
  {
  }

  lemma NoteIsCall(w: World, pid: nat)
    requires pid in w.execs
    ensures NoteStep(w, pid).db == ApplyOperation(w.db, CallAppendTimelineItem(w.execs[pid].audit, Note("executor")), 0)
  {
  }

  lemma EndIsCall(w: World, pid: nat, outcome: ToolOutcome, attempts: nat, at: Time)
    requires pid in w.execs && (w.execs[pid].pc == FailOperation || w.execs[pid].pc == Complete)
    requires HasCurrent(w.execs[pid])
    ensures MoveStep(w, pid, outcome, attempts, at).db == ApplyOption(w.db, MoveCall(w, pid), at)
  {
  }

  lemma ReleaseIsCall(w: World, pid: nat)
    requires pid in w.execs
    ensures var e := w.execs[pid];
            ReleaseStep(w, pid).db == ApplyLease(w.db, CallReleaseLease(e.op, e.runner, e.epoch), 0)
  {
  }

  lemma OtherMoveIsNoCall(w: World, pid: nat, outcome: ToolOutcome, attempts: nat, at: Time)
    requires pid in w.execs && HasCurrent(w.execs[pid])
    requires var pc := w.execs[pid].pc; pc.Scan? || pc.CallTool? || pc.Inspect? || pc.ListSyscalls?
    ensures MoveStep(w, pid, outcome, attempts, at).db == w.db
  {
  }

  lemma AcquireIsCall(w: World, pid: nat, at: Time)
    requires pid in w.execs && w.execs[pid].pc == Acquire
    ensures AcquireStep(w, pid, at).db ==
            ApplyLease(w.db, CallTryAcquireLease(w.execs[pid].op, w.execs[pid].runner, LEASE_MS), at)
  {
  }

  lemma ClaimIsCall(w: World, pid: nat, at: Time)
    requires pid in w.execs && w.execs[pid].next < |w.execs[pid].ids|
    ensures ClaimStep(w, pid).db ==
            ApplyApproval(w.db, CallUpdateSyscallStatus(w.execs[pid].ids[w.execs[pid].next], Executing, None), at)
  {
  }

  lemma StepIsCall(w: World, step: Step, attempts: nat, at: Time)
    requires Enabled(w, step)
    ensures Next(w, step, attempts, at).db == ApplyOption(w.db, StepCall(w, step), at)
  {
    match step
    case Move(pid, outcome) => MoveIsCall(w, pid, outcome, attempts, at);
    case _ =>
  }

  lemma {:induction false} WorldIsRun(registry: Registry, steps: seq<Timed>, attempts: nat) returns (events: seq<Event>)
    ensures RunWorld(Start(registry), steps, attempts).db == Run(Fresh(registry), events)
    ensures |events| <= |steps|
  {
    events := [];
    if steps != [] {
      var last := steps[|steps| - 1];
      var w := RunWorld(Start(registry), steps[..|steps| - 1], attempts);
      events := WorldIsRun(registry, steps[..|steps| - 1], attempts);
      if Enabled(w, last.step) {
        StepIsCall(w, last.step, attempts, last.at);
        if StepCall(w, last.step).Some? {
          var longer := events + [Event(StepCall(w, last.step).value, last.at)];
          assert longer[..|events|] == events;
          events := longer;
        }
      }
    }
  }

  /** The log, the balance of grants and the budget of decisions hold in every world. */
  lemma WorldsKeepTheLedger(registry: Registry, steps: seq<Timed>, attempts: nat)
    ensures var db := RunWorld(Start(registry), steps, attempts).db;
            Ledger.LogReplays(db) && Ledger.Balanced(db) && Ledger.DecisionsWithinBudget(db)
  {
    var events := WorldIsRun(registry, steps, attempts);
    Ledger.LogAlwaysReplays(registry, events);
    Ledger.AlwaysBalanced(registry, events);
    Ledger.DecisionsNeverExceedEntries(registry, events);
  }
}
