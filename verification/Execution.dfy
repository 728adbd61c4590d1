/** Executors, recovery, decisions and cancellations interleaved one storage call at a time.
    A world is the database, the live executors, and two logs: who claimed which syscall, and how often each
    syscall's tool was called. A step that is not enabled changes nothing. */
module Execution {
  import opened Prelude
  import opened ActionSchemas
  import opened Database

  const LEASE_MS: Time := 30_000

  /** The next thing an executor does. */
  datatype Pc =
    | Acquire
    | Scan                      // read the next syscall, or finish
    | Claim                     // it was read as permitted: write `executing`
    | CallTool(attempt: nat)
    | Settle                    // write `executed`
    | NoteExecuted
    | RecordFailure             // write `failed`
    | FailOperation
    | NoteFailed
    | Inspect                   // read the operation
    | ListSyscalls
    | Complete
    | NoteCompleted
    | Release

  datatype Exec = Exec(
    runner: Runner, op: Id, audit: Id, ids: seq<Id>, next: nat, pc: Pc, epoch: int, until: Time)

  /** A successful `executing` write. */
  datatype ClaimRow = ClaimRow(syscall: Id, executor: nat)

  /** How far the request handler of an operation has got. */
  datatype Stage = Compiling | Proposed | Finished

  datatype World = World(
    db: Db, execs: map<nat, Exec>, claims: seq<ClaimRow>, calls: map<Id, nat>, stages: map<Id, Stage>)

  /** `Rejected`: the tool answered, but its result failed its schema or could not be stored. */
  datatype ToolOutcome = ToolOk | ToolError | Rejected

  function Start(registry: Registry): World { World(Fresh(registry), map[], [], map[], map[]) }

  function CallsOf(calls: map<Id, nat>, s: Id): nat { if s in calls then calls[s] else 0 }

  // ----- One executor -----

  function Put(w: World, pid: nat, e: Exec): World { w.(execs := w.execs[pid := e]) }

  function Drop(w: World, pid: nat): World { w.(execs := w.execs - {pid}) }

  /** Continue at `pc`, or give the lease back when the storage call failed. */
  function Then(e: Exec, ok: bool, pc: Pc): Exec { e.(pc := if ok then pc else Release) }

  function NextSyscall(e: Exec, ok: bool): Exec {
    if ok then e.(pc := Scan, next := e.next + 1) else e.(pc := Release)
  }

  function AcquireStep(w: World, pid: nat, at: Time): World
    requires pid in w.execs
  {
    var e := w.execs[pid];
    var (db, r) := TryAcquireLease(w.db, e.op, e.runner, LEASE_MS, at);
    match r
    case Ok(Acquisition(true, Some(epoch))) =>
      Put(w.(db := db), pid, e.(pc := Scan, epoch := epoch, until := at + LEASE_MS))
    case _ => Drop(w.(db := db), pid)
  }

  function ScanStep(w: World, pid: nat): World
    requires pid in w.execs
  {
    var e := w.execs[pid];
    if e.next >= |e.ids| then Put(w, pid, e.(pc := Inspect))
    else if e.ids[e.next] !in w.db.syscalls then Put(w, pid, e.(pc := Release))
    else if w.db.syscalls[e.ids[e.next]].status != Permitted then Put(w, pid, e.(next := e.next + 1))
    else Put(w, pid, e.(pc := Claim))
  }

  function ClaimStep(w: World, pid: nat): World
    requires pid in w.execs && w.execs[pid].next < |w.execs[pid].ids|
  {
    var e := w.execs[pid];
    var s := e.ids[e.next];
    var (db, r) := UpdateSyscallStatus(w.db, s, Executing, None);
    if r.Ok? then Put(w.(db := db, claims := w.claims + [ClaimRow(s, pid)]), pid, e.(pc := CallTool(1)))
    else Put(w, pid, e.(pc := Release))
  }

  /** Every error leads to another attempt while attempts remain. */
  function ToolStep(w: World, pid: nat, outcome: ToolOutcome, attempts: nat): World
    requires pid in w.execs && w.execs[pid].next < |w.execs[pid].ids| && w.execs[pid].pc.CallTool?
  {
    var e := w.execs[pid];
    var s := e.ids[e.next];
    var attempt := e.pc.attempt;
    var pc := match outcome
      case ToolOk => Settle
      case Rejected => Release
      case ToolError => if attempt < attempts then CallTool(attempt + 1) else RecordFailure;
    Put(w.(calls := w.calls[s := CallsOf(w.calls, s) + 1]), pid, e.(pc := pc))
  }

  function SettleStep(w: World, pid: nat, resultRef: string): World
    requires pid in w.execs && w.execs[pid].next < |w.execs[pid].ids|
  {
    var e := w.execs[pid];
    var (db, r) := UpdateSyscallStatus(w.db, e.ids[e.next], Executed, Some(resultRef));
    Put(w.(db := db), pid, Then(e, r.Ok?, NoteExecuted))
  }

  function FailureStep(w: World, pid: nat): World
    requires pid in w.execs && w.execs[pid].next < |w.execs[pid].ids|
  {
    var e := w.execs[pid];
    var (db, r) := UpdateSyscallStatus(w.db, e.ids[e.next], SyscallFailed, None);
    Put(w.(db := db), pid, Then(e, r.Ok?, FailOperation))
  }

  function NoteStep(w: World, pid: nat): World
    requires pid in w.execs
  {
    var e := w.execs[pid];
    var (db, r) := AppendTimelineItem(w.db, e.audit, Note("executor"));
    Put(w.(db := db), pid, if e.pc == NoteCompleted then e.(pc := Release) else NextSyscall(e, r.Ok?))
  }

  function FailOperationStep(w: World, pid: nat, at: Time): World
    requires pid in w.execs
  {
    var e := w.execs[pid];
    var (db, r) := UpdateOperationState(w.db, e.op, OperationFailed, Some(SyscallExecutionFailed), e.audit, at);
    Put(w.(db := db), pid, Then(e, r.Ok?, NoteFailed))
  }

  function InspectStep(w: World, pid: nat): World
    requires pid in w.execs
  {
    var e := w.execs[pid];
    Put(w, pid, Then(e, e.op in w.db.operations && w.db.operations[e.op].state == Running, ListSyscalls))
  }

  predicate AllExecuted(db: Db, op: Id) {
    && (exists s :: s in db.syscalls && db.syscalls[s].operation == op)
    && forall s :: s in db.syscalls && db.syscalls[s].operation == op ==> db.syscalls[s].status == Executed
  }

  function ListStep(w: World, pid: nat): World
    requires pid in w.execs
  {
    var e := w.execs[pid];
    Put(w, pid, Then(e, AllExecuted(w.db, e.op), Complete))
  }

  function CompleteStep(w: World, pid: nat, at: Time): World
    requires pid in w.execs
  {
    var e := w.execs[pid];
    var (db, r) := UpdateOperationState(w.db, e.op, Completed, Some(SyscallsExecuted), e.audit, at);
    Put(w.(db := db), pid, Then(e, r.Ok?, NoteCompleted))
  }

  function ReleaseStep(w: World, pid: nat): World
    requires pid in w.execs
  {
    var e := w.execs[pid];
    Drop(w.(db := ReleaseLease(w.db, e.op, e.runner, e.epoch).0), pid)
  }

  /** A program counter that works on a syscall needs one. */
  predicate HasCurrent(e: Exec) {
    e.pc.Claim? || PastClaim(e.pc) ==> e.next < |e.ids|
  }

  /** The executor has claimed its current syscall and is not done with it. */
  predicate PastClaim(pc: Pc) {
    || pc.CallTool? || pc.Settle? || pc.NoteExecuted?
    || pc.RecordFailure? || pc.FailOperation? || pc.NoteFailed?
  }

  function MoveStep(w: World, pid: nat, outcome: ToolOutcome, attempts: nat, at: Time): World
    requires pid in w.execs && HasCurrent(w.execs[pid])
  {
    match w.execs[pid].pc
    case Acquire => AcquireStep(w, pid, at)
    case Scan => ScanStep(w, pid)
    case Claim => ClaimStep(w, pid)
    case CallTool(_) => ToolStep(w, pid, outcome, attempts)
    case Settle => SettleStep(w, pid, "event:syscall_result")
    case RecordFailure => FailureStep(w, pid)
    case NoteExecuted => NoteStep(w, pid)
    case NoteFailed => NoteStep(w, pid)
    case NoteCompleted => NoteStep(w, pid)
    case FailOperation => FailOperationStep(w, pid, at)
    case Inspect => InspectStep(w, pid)
    case ListSyscalls => ListStep(w, pid)
    case Complete => CompleteStep(w, pid, at)
    case Release => ReleaseStep(w, pid)
  }

  // ----- Everything that can happen -----

  /** Calls that other handlers make at any time: not those of executors, and not decisions. */
  predicate FromElsewhere(call: Call) {
    && !call.OnLease?
    && (call.OnApproval? ==> !call.approval.CallUpdateSyscallStatus? && !call.approval.CallConsumeApproval?)
  }

  datatype Step =
    | Elsewhere(call: Call)
    | DecideApproval(input: ConsumeInput, syscall: Id, pid: nat, request: Id)
    | Recover(pid: nat, op: Id, ids: seq<Id>)
    | Move(pid: nat, outcome: ToolOutcome)
    | Crash(pid: nat)
    | SubmitOpen(origin: Id, op: Id, audit: Id, key: Option<Id>)
    | SubmitPropose(op: Id, approval: Id, mode: ApprovalMode, proposal: Json.Value, diff: Json.Value)
    | SubmitFinish(op: Id, draft: bool, why: string)

  datatype Timed = Timed(step: Step, at: Time)

  predicate Enabled(w: World, step: Step) {
    match step
    case Elsewhere(call) => FromElsewhere(call)
    case DecideApproval(_, _, pid, _) => pid !in w.execs
    case Recover(pid, op, ids) =>
      && pid !in w.execs && op in w.db.operations
      && forall i | 0 <= i < |ids| :: ids[i] in w.db.syscalls && w.db.syscalls[ids[i]].operation == op
    case Move(pid, _) => pid in w.execs && HasCurrent(w.execs[pid])
    case Crash(pid) => pid in w.execs
    case SubmitOpen(_, _, _, _) => true
    case SubmitPropose(op, _, _, _, _) => op in w.stages && w.stages[op] == Compiling && op in w.db.operations
    case SubmitFinish(op, _, _) => op in w.stages && w.stages[op] != Finished && op in w.db.operations
  }

  function NewExec(runner: Runner, op: Id, audit: Id, ids: seq<Id>): Exec { Exec(runner, op, audit, ids, 0, Acquire, 0, 0) }

  /** The handler decides, then executes whatever syscalls the answer lists, also when it is a replayed answer. */
  function DecideStep(w: World, input: ConsumeInput, syscall: Id, pid: nat, request: Id, at: Time): World {
    var (db, r) := ConsumeApproval(w.db, input, syscall, at);
    match r
    case Ok(Decision(_, op, _, _, _, ids, audit)) =>
      Put(w.(db := db), pid, NewExec(Executor(request), op, audit, ids))
    case _ => w.(db := db)
  }

  function OpenStep(w: World, origin: Id, op: Id, audit: Id, key: Option<Id>, at: Time): World {
    var db := CreateOperation(w.db, origin, op, audit, key, at).0;
    w.(db := db, stages := if op in db.operations && op !in w.db.operations then w.stages[op := Compiling] else w.stages)
  }

  function ProposeStep(w: World, op: Id, approval: Id, mode: ApprovalMode, proposal: Json.Value, diff: Json.Value): World
    requires op in w.db.operations
  {
    var (db, r) := CreateApprovalItem(w.db, approval, op, mode, proposal, diff, w.db.operations[op].audit);
    w.(db := db, stages := w.stages[op := if r.Ok? then Proposed else Finished])
  }

  function FinishStep(w: World, op: Id, draft: bool, why: string, at: Time): World
    requires op in w.stages && op in w.db.operations
  {
    var (state, reason) :=
      if w.stages[op] == Proposed then (AwaitingApproval, ApprovalRequired)
      else if draft then (Completed, DraftReady)
      else (Blocked, Because(why));
    w.(db := UpdateOperationState(w.db, op, state, Some(reason), w.db.operations[op].audit, at).0,
       stages := w.stages[op := Finished])
  }

  function Next(w: World, step: Step, attempts: nat, at: Time): World {
    if !Enabled(w, step) then w
    else match step
      case Elsewhere(call) => w.(db := Apply(w.db, call, at))
      case DecideApproval(input, syscall, pid, request) => DecideStep(w, input, syscall, pid, request, at)
      case Recover(pid, op, ids) => Put(w, pid, NewExec(RecoveryOf(op), op, w.db.operations[op].audit, ids))
      case Move(pid, outcome) => MoveStep(w, pid, outcome, attempts, at)
      case Crash(pid) => Drop(w, pid)
      case SubmitOpen(origin, op, audit, key) => OpenStep(w, origin, op, audit, key, at)
      case SubmitPropose(op, approval, mode, proposal, diff) => ProposeStep(w, op, approval, mode, proposal, diff)
      case SubmitFinish(op, draft, why) => FinishStep(w, op, draft, why, at)
  }

  function RunWorld(w: World, steps: seq<Timed>, attempts: nat): World {
    if steps == [] then w
    else
      var last := steps[|steps| - 1];
      Next(RunWorld(w, steps[..|steps| - 1], attempts), last.step, attempts, last.at)
  }

  lemma RunSnoc(w: World, steps: seq<Timed>, last: Timed, attempts: nat)
    ensures RunWorld(w, steps + [last], attempts) == Next(RunWorld(w, steps, attempts), last.step, attempts, last.at)
  {
    assert (steps + [last])[..|steps|] == steps;
  }

  lemma {:induction false} RunJoins(w: World, first: seq<Timed>, second: seq<Timed>, attempts: nat)
    ensures RunWorld(w, first + second, attempts) == RunWorld(RunWorld(w, first, attempts), second, attempts)
  {
    if second == [] {
      assert first + second == first;
    } else {
      var n := |second| - 1;
      RunJoins(w, first, second[..n], attempts);
      RunSnoc(w, first + second[..n], second[n], attempts);
      assert first + second == first + second[..n] + [second[n]];
    }
  }
}
