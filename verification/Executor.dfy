/** The daemon's executor and recovery loop. The methods run them against the storage and tool providers; what they do
    is tied to the state machine of `Execution`: it is a run of one executor's moves. */
module Executor {
  import opened Prelude
  import opened ActionSchemas
  import opened Database
  import opened Execution
  import Recovery
  import SqliteStorage

  /** The tool provider: how it answers is decided elsewhere, how often it was asked is counted. */
  class Tools {
    const answers: (Id, nat) -> ToolOutcome
    var calls: map<Id, nat>

    constructor (answers: (Id, nat) -> ToolOutcome)
      ensures calls == map[] && this.answers == answers
    {
      this.answers := answers;
      calls := map[];
    }

    method ExecuteSyscall(id: Id, attempt: nat) returns (outcome: ToolOutcome)
      modifies this
      ensures calls == old(calls)[id := CallsOf(old(calls), id) + 1]
      ensures outcome == answers(id, attempt)
    {
      calls := calls[id := CallsOf(calls, id) + 1];
      outcome := answers(id, attempt);
    }
  }

  function AtLeastOne(configured: nat): (attempts: nat)
    ensures attempts >= 1 && attempts >= configured && (attempts == 1 || attempts == configured)
  {
    if configured < 1 then 1 else configured
  }

  // ----- What an executor does to the database and to the call counts -----

  const RESULT_REF := "event:syscall_result"

  /** The answer that ends the attempts, and the counts by then. */
  function Retry(calls: map<Id, nat>, s: Id, answers: (Id, nat) -> ToolOutcome, attempt: nat, attempts: nat)
    : (map<Id, nat>, ToolOutcome)
    decreases attempts - attempt
  {
    var counted := calls[s := CallsOf(calls, s) + 1];
    var outcome := answers(s, attempt);
    if outcome == ToolError && attempt < attempts then Retry(counted, s, answers, attempt + 1, attempts)
    else (counted, outcome)
  }

  function Settled(db: Db, s: Id, audit: Id): (Db, Result<()>) {
    var (updated, r) := UpdateSyscallStatus(db, s, Executed, Some(RESULT_REF));
    if r.Err? then (updated, Err(r.error)) else AppendTimelineItem(updated, audit, Note("executor"))
  }

  function FailedWith(db: Db, s: Id, op: Id, audit: Id, at: Time): (Db, Result<()>) {
    var (recorded, r) := UpdateSyscallStatus(db, s, SyscallFailed, None);
    if r.Err? then (recorded, Err(r.error))
    else
      var (failed, q) := UpdateOperationState(recorded, op, OperationFailed, Some(SyscallExecutionFailed), audit, at);
      if q.Err? then (failed, Err(q.error)) else AppendTimelineItem(failed, audit, Note("executor"))
  }

  function AfterTool(db: Db, s: Id, op: Id, audit: Id, outcome: ToolOutcome, at: Time): (Db, Result<()>) {
    match outcome
    case ToolOk => Settled(db, s, audit)
    case Rejected => (db, Err(Corruption("tool result")))
    case ToolError => FailedWith(db, s, op, audit, at)
  }

  datatype Progress = Progress(db: Db, calls: map<Id, nat>, result: Result<()>)

  function ExecuteOne(db: Db, calls: map<Id, nat>, s: Id, op: Id, audit: Id, answers: (Id, nat) -> ToolOutcome,
                      attempts: nat, at: Time): Progress
  {
    if s !in db.syscalls then Progress(db, calls, Err(NotFound("syscall")))
    else if db.syscalls[s].status != Permitted then Progress(db, calls, Ok(()))
    else
      var claimed := UpdateSyscallStatus(db, s, Executing, None).0;
      var (counted, outcome) := Retry(calls, s, answers, 1, attempts);
      var (after, r) := AfterTool(claimed, s, op, audit, outcome, at);
      Progress(after, counted, r)
  }

  /** The syscalls in order, up to the first error. */
  function ExecuteFrom(db: Db, calls: map<Id, nat>, ids: seq<Id>, i: nat, op: Id, audit: Id,
                       answers: (Id, nat) -> ToolOutcome, attempts: nat, clock: nat -> Time): Progress
    requires i <= |ids|
    decreases |ids| - i
  {
    if i == |ids| then Progress(db, calls, Ok(()))
    else
      var p := ExecuteOne(db, calls, ids[i], op, audit, answers, attempts, clock(i));
      if p.result.Err? then p
      else ExecuteFrom(p.db, p.calls, ids, i + 1, op, audit, answers, attempts, clock)
  }

  function Concluded(db: Db, op: Id, audit: Id, at: Time): (Db, Result<()>) {
    if op !in db.operations then (db, Err(NotFound("operation")))
    else if db.operations[op].state != Running || !AllExecuted(db, op) then (db, Ok(()))
    else
      var (completed, r) := UpdateOperationState(db, op, Completed, Some(SyscallsExecuted), audit, at);
      if r.Err? then (completed, Err(r.error)) else AppendTimelineItem(completed, audit, Note("executor"))
  }

  /** `clock(i)` is the reading at syscall `i`, `clock(|ids|)` the one at the end. */
  function UnderLease(db: Db, calls: map<Id, nat>, ids: seq<Id>, op: Id, audit: Id,
                      answers: (Id, nat) -> ToolOutcome, attempts: nat, clock: nat -> Time): Progress
  {
    var p := ExecuteFrom(db, calls, ids, 0, op, audit, answers, attempts, clock);
    if p.result.Err? then p
    else
      var (db', r) := Concluded(p.db, op, audit, clock(|ids|));
      Progress(db', p.calls, r)
  }

  function ExecutionOf(db: Db, calls: map<Id, nat>, runner: Runner, ids: seq<Id>, op: Id, audit: Id,
                    answers: (Id, nat) -> ToolOutcome, attempts: nat, start: Time, clock: nat -> Time): Progress
  {
    var (leased, r) := TryAcquireLease(db, op, runner, LEASE_MS, start);
    match r
    case Err(e) => Progress(leased, calls, Err(e))
    case Ok(Acquisition(true, Some(epoch))) =>
      var p := UnderLease(leased, calls, ids, op, audit, answers, attempts, clock);
      var (released, q) := ReleaseLease(p.db, op, runner, epoch);
      Progress(released, p.calls, if p.result.Err? then p.result else q)
    case _ => Progress(leased, calls, Ok(()))
  }

  /** The recovered operations in order, up to the first error; `start(i)` and `clock(i)` are the readings made
      while operation `i` is executed. */
  function RecoverFrom(db: Db, calls: map<Id, nat>, items: seq<Recovery.RecoverableOperation>, i: nat,
                       answers: (Id, nat) -> ToolOutcome, attempts: nat, start: nat -> Time, clock: nat -> nat -> Time)
    : Progress
    requires i <= |items|
    decreases |items| - i
  {
    if i == |items| then Progress(db, calls, Ok(()))
    else
      var op := items[i].operation;
      var p := ExecutionOf(db, calls, RecoveryOf(op), items[i].syscalls, op, items[i].audit, answers, attempts,
                           start(i), clock(i));
      if p.result.Err? then p else RecoverFrom(p.db, p.calls, items, i + 1, answers, attempts, start, clock)
  }

  /** `p` is what recovering the answer of the recovery query to `db` gives. */
  ghost predicate IsRecovery(db: Db, calls: map<Id, nat>, answers: (Id, nat) -> ToolOutcome, attempts: nat,
                             start: nat -> Time, clock: nat -> nat -> Time, p: Progress, count: nat)
  {
    exists rows, items ::
      && Recovery.IsQueryResult(db, rows) && Recovery.IsGrouping(rows, items)
      && p == RecoverFrom(db, calls, items, 0, answers, attempts, start, clock) && count == |items|
  }

  // ----- The methods -----

  method ExecuteSyscallWithRetries(storage: SqliteStorage.SqliteStorage, tools: Tools, s: Id, op: Id, audit: Id,
                                   attempts: nat, at: Time)
    returns (r: Result<()>)
    requires attempts >= 1
    modifies storage, tools
    ensures var (counted, outcome) := Retry(old(tools.calls), s, tools.answers, 1, attempts);
            tools.calls == counted && (storage.db, r) == AfterTool(old(storage.db), s, op, audit, outcome, at)
  {
    var executed := false;
    var attempt := 1;
    ghost var end := Retry(tools.calls, s, tools.answers, 1, attempts);
    while attempt <= attempts
      invariant 1 <= attempt <= attempts + 1 && !executed
      invariant storage.db == old(storage.db)
      invariant attempt <= attempts ==> end == Retry(tools.calls, s, tools.answers, attempt, attempts)
      invariant attempt > attempts ==> end == (tools.calls, ToolError)
    {
      var outcome := tools.ExecuteSyscall(s, attempt);
      if outcome == Rejected {
        return Err(Corruption("tool result"));
      }
      if outcome == ToolOk {
        var updated := storage.UpdateSyscallStatus(s, Executed, Some(RESULT_REF));
        if updated.Err? {
          return Err(updated.error);
        }
        r := storage.AppendAuditTimelineItem(audit, Note("executor"));
        return;
      }
      attempt := attempt + 1;
    }
    var recorded := storage.UpdateSyscallStatus(s, SyscallFailed, None);
    if recorded.Err? {
      return Err(recorded.error);
    }
    var failed := storage.UpdateOperationState(op, OperationFailed, Some(SyscallExecutionFailed), audit, at);
    if failed.Err? {
      return Err(failed.error);
    }
    r := storage.AppendAuditTimelineItem(audit, Note("executor"));
  }

  method ExecutePermittedSyscallsUnderLease(
      storage: SqliteStorage.SqliteStorage, tools: Tools, ids: seq<Id>, op: Id, audit: Id, attempts: nat,
      clock: nat -> Time)
    returns (r: Result<()>)
    requires attempts >= 1
    modifies storage, tools
    ensures Progress(storage.db, tools.calls, r) ==
            UnderLease(old(storage.db), old(tools.calls), ids, op, audit, tools.answers, attempts, clock)
  {
    ghost var all := ExecuteFrom(storage.db, tools.calls, ids, 0, op, audit, tools.answers, attempts, clock);
    for i := 0 to |ids|
      invariant all == ExecuteFrom(storage.db, tools.calls, ids, i, op, audit, tools.answers, attempts, clock)
    {
      var s := ids[i];
      if s !in storage.db.syscalls {
        return Err(NotFound("syscall"));
      }
      if storage.db.syscalls[s].status != Permitted {
        continue;
      }
      var claimed := storage.UpdateSyscallStatus(s, Executing, None);
      assert claimed.Ok?;
      r := ExecuteSyscallWithRetries(storage, tools, s, op, audit, attempts, clock(i));
      if r.Err? {
        return;
      }
    }
    r := ConcludeOperation(storage, op, audit, clock(|ids|));
  }

  method ConcludeOperation(storage: SqliteStorage.SqliteStorage, op: Id, audit: Id, at: Time) returns (r: Result<()>)
    modifies storage
    ensures (storage.db, r) == Concluded(old(storage.db), op, audit, at)
  {
    if op !in storage.db.operations {
      return Err(NotFound("operation"));
    }
    if storage.db.operations[op].state == Running && AllExecuted(storage.db, op) {
      var completed := storage.UpdateOperationState(op, Completed, Some(SyscallsExecuted), audit, at);
      if completed.Err? {
        return Err(completed.error);
      }
      r := storage.AppendAuditTimelineItem(audit, Note("executor"));
      return;
    }
    return Ok(());
  }

  method ExecutePermittedSyscalls(
      storage: SqliteStorage.SqliteStorage, tools: Tools, runner: Runner, ids: seq<Id>, op: Id, audit: Id,
      configured: nat, start: Time, clock: nat -> Time)
    returns (r: Result<()>)
    modifies storage, tools
    ensures Progress(storage.db, tools.calls, r) ==
            ExecutionOf(old(storage.db), old(tools.calls), runner, ids, op, audit, tools.answers, AtLeastOne(configured),
                     start, clock)
  {
    var lease := storage.TryAcquireOperationLease(op, runner, LEASE_MS, start);
    if lease.Err? {
      return Err(lease.error);
    }
    if !lease.value.acquired {
      return Ok(());
    }
    var epoch := if lease.value.epoch.Some? then lease.value.epoch.value else 0;
    var executionResult :=
      ExecutePermittedSyscallsUnderLease(storage, tools, ids, op, audit, AtLeastOne(configured), clock);
    var releaseResult := storage.ReleaseOperationLease(op, runner, epoch);
    if executionResult.Err? {
      return executionResult;
    }
    return releaseResult;
  }

  method RecoverPendingOperationExecutions(
      storage: SqliteStorage.SqliteStorage, tools: Tools, configured: nat, start: nat -> Time,
      clock: nat -> nat -> Time)
    returns (r: Result<()>, count: nat)
    modifies storage, tools
    ensures IsRecovery(old(storage.db), old(tools.calls), tools.answers, AtLeastOne(configured), start, clock,
                       Progress(storage.db, tools.calls, r), count)
  {
    var recoverable := storage.ListRecoverableOperationExecutions();
    ghost var attempts := AtLeastOne(configured);
    ghost var all := RecoverFrom(storage.db, tools.calls, recoverable, 0, tools.answers, attempts, start, clock);
    count := |recoverable|;
    for i := 0 to |recoverable|
      invariant all == RecoverFrom(storage.db, tools.calls, recoverable, i, tools.answers, attempts, start, clock)
    {
      var item := recoverable[i];
      r := ExecutePermittedSyscalls(storage, tools, RecoveryOf(item.operation), item.syscalls, item.operation,
                                    item.audit, configured, start(i), clock(i));
      if r.Err? {
        return;
      }
    }
    r := Ok(());
  }
}
