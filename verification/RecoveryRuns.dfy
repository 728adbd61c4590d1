/** What recovery achieves when nothing interferes: the approved work is done, and no operation keeps a lease. */
module RecoveryRuns {
  import opened Prelude
  import opened ActionSchemas
  import opened Database
  import opened Execution
  import opened Executor
  import opened Recovery
  import ExecutionSafety

  /** The same rows; nothing that was claimed becomes permitted again, and no operation starts running. */
  predicate Progresses(db: Db, after: Db) {
    && after.syscalls.Keys == db.syscalls.Keys && after.operations.Keys == db.operations.Keys
    && after.audits.Keys == db.audits.Keys
    && (forall o | o in db.operations && after.operations[o].state == Running ::
          after.operations[o] == db.operations[o])
    && forall s | s in db.syscalls ::
         && after.syscalls[s].operation == db.syscalls[s].operation
         && (db.syscalls[s].status != Permitted ==> after.syscalls[s].status != Permitted)
  }

  predicate SettledIn(db: Db, ids: seq<Id>) {
    forall i | 0 <= i < |ids| :: ids[i] in db.syscalls && db.syscalls[ids[i]].status != Permitted
  }

  lemma WriteProgresses(db: Db, s: Id, status: SyscallStatus, resultRef: Option<string>)
    requires status != Permitted
    ensures var (after, r) := UpdateSyscallStatus(db, s, status, resultRef);
            && Progresses(db, after) && after.leases == db.leases
            && (r.Ok? ==> s in after.syscalls && after.syscalls[s].status == status)
  {
    ExecutionSafety.SyscallUpdateWrites(db, s, status, resultRef);
  }

  /** One operation row changes, to a state other than running. */
  predicate EndsOne(db: Db, after: Db, op: Id) {
    && after.syscalls == db.syscalls && after.audits == db.audits && after.leases == db.leases
    && (after.operations == db.operations
        || (op in db.operations && op in after.operations && after.operations[op].state != Running
            && after.operations == db.operations[op := after.operations[op]]))
  }

  lemma UpdateEndsOne(db: Db, op: Id, state: OperationState, reason: Option<Reason>, audit: Id, at: Time)
    requires state != Running
    ensures EndsOne(db, UpdateOperationState(db, op, state, reason, audit, at).0, op)
  {
  }

  lemma UpdateProgresses(db: Db, op: Id, state: OperationState, reason: Option<Reason>, audit: Id, at: Time)
    requires state != Running
    ensures var after := UpdateOperationState(db, op, state, reason, audit, at).0;
            Progresses(db, after) && after.leases == db.leases && after.syscalls == db.syscalls
  {
    UpdateEndsOne(db, op, state, reason, audit, at);
  }

  lemma FailureProgresses(db: Db, s: Id, op: Id, audit: Id, at: Time)
    ensures var after := FailedWith(db, s, op, audit, at).0;
            Progresses(db, after) && after.leases == db.leases
  {
    WriteProgresses(db, s, SyscallFailed, None);
    var recorded := UpdateSyscallStatus(db, s, SyscallFailed, None).0;
    UpdateProgresses(recorded, op, OperationFailed, Some(SyscallExecutionFailed), audit, at);
    ProgressesTwice(db, recorded, UpdateOperationState(recorded, op, OperationFailed, Some(SyscallExecutionFailed), audit, at).0);
  }

  lemma AfterToolProgresses(db: Db, s: Id, op: Id, audit: Id, outcome: ToolOutcome, at: Time)
    ensures var after := AfterTool(db, s, op, audit, outcome, at).0;
            Progresses(db, after) && after.leases == db.leases
  {
    match outcome
    case ToolOk => WriteProgresses(db, s, Executed, Some(RESULT_REF));
    case Rejected =>
    case ToolError => FailureProgresses(db, s, op, audit, at);
  }

  lemma OneProgresses(db: Db, calls: map<Id, nat>, s: Id, op: Id, audit: Id, answers: (Id, nat) -> ToolOutcome,
                      attempts: nat, at: Time)
    ensures var p := ExecuteOne(db, calls, s, op, audit, answers, attempts, at);
            && Progresses(db, p.db) && p.db.leases == db.leases
            && (p.result.Ok? ==> s in p.db.syscalls && p.db.syscalls[s].status != Permitted)
  {
    if s in db.syscalls && db.syscalls[s].status == Permitted {
      var claimed := UpdateSyscallStatus(db, s, Executing, None).0;
      WriteProgresses(db, s, Executing, None);
      AfterToolProgresses(claimed, s, op, audit, Retry(calls, s, answers, 1, attempts).1, at);
    }
  }

  lemma {:induction false} FromProgresses(
      db: Db, calls: map<Id, nat>, ids: seq<Id>, i: nat, op: Id, audit: Id, answers: (Id, nat) -> ToolOutcome,
      attempts: nat, clock: nat -> Time)
    requires i <= |ids|
    ensures var p := ExecuteFrom(db, calls, ids, i, op, audit, answers, attempts, clock);
            Progresses(db, p.db) && p.db.leases == db.leases && (p.result.Ok? ==> SettledIn(p.db, ids[i..]))
    decreases |ids| - i
  {
    if i < |ids| {
      var p := ExecuteOne(db, calls, ids[i], op, audit, answers, attempts, clock(i));
      OneProgresses(db, calls, ids[i], op, audit, answers, attempts, clock(i));
      if p.result.Ok? {
        var q := ExecuteFrom(p.db, p.calls, ids, i + 1, op, audit, answers, attempts, clock);
        FromProgresses(p.db, p.calls, ids, i + 1, op, audit, answers, attempts, clock);
        ProgressesTwice(db, p.db, q.db);
        if q.result.Ok? {
          SettledOneMore(p.db, q.db, ids, i);
        }
      }
    }
  }

  lemma ProgressesTwice(db: Db, mid: Db, after: Db)
    requires Progresses(db, mid) && Progresses(mid, after)
    ensures Progresses(db, after)
  {
  }

  lemma SettledOneMore(mid: Db, after: Db, ids: seq<Id>, i: nat)
    requires i < |ids| && Progresses(mid, after) && SettledIn(after, ids[i + 1..])
    requires ids[i] in mid.syscalls && mid.syscalls[ids[i]].status != Permitted
    ensures SettledIn(after, ids[i..])
  {
    assert ids[i..] == [ids[i]] + ids[i + 1..];
  }

  lemma ConcludedProgresses(db: Db, op: Id, audit: Id, at: Time)
    ensures var after := Concluded(db, op, audit, at).0;
            Progresses(db, after) && after.leases == db.leases && after.syscalls == db.syscalls
  {
    UpdateProgresses(db, op, Completed, Some(SyscallsExecuted), audit, at);
  }

  lemma UnderLeaseProgresses(
      db: Db, calls: map<Id, nat>, ids: seq<Id>, op: Id, audit: Id, answers: (Id, nat) -> ToolOutcome,
      attempts: nat, clock: nat -> Time)
    ensures var p := UnderLease(db, calls, ids, op, audit, answers, attempts, clock);
            Progresses(db, p.db) && p.db.leases == db.leases && (p.result.Ok? ==> SettledIn(p.db, ids))
  {
    var p := ExecuteFrom(db, calls, ids, 0, op, audit, answers, attempts, clock);
    FromProgresses(db, calls, ids, 0, op, audit, answers, attempts, clock);
    assert ids[0..] == ids;
    ConcludedProgresses(p.db, op, audit, clock(|ids|));
  }

  /** Nobody else holds an unexpired lease. */
  predicate Leasable(db: Db, op: Id, runner: Runner, at: Time) {
    op in db.operations && (op in db.leases ==> db.leases[op].owner == runner || db.leases[op].until <= at)
  }

  /** An execution that takes the lease and ends without an error leaves none of its syscalls permitted, and returns
      the lease whether or not it ends with an error. */
  lemma ExecutionSettles(
      db: Db, calls: map<Id, nat>, runner: Runner, ids: seq<Id>, op: Id, audit: Id,
      answers: (Id, nat) -> ToolOutcome, attempts: nat, start: Time, clock: nat -> Time)
    requires Leasable(db, op, runner, start)
    ensures var p := ExecutionOf(db, calls, runner, ids, op, audit, answers, attempts, start, clock);
            && Progresses(db, p.db) && p.db.leases == db.leases - {op}
            && (p.result.Ok? ==> SettledIn(p.db, ids))
  {
    var leased := TryAcquireLease(db, op, runner, LEASE_MS, start).0;
    AcquireGrants(db, op, runner, start);
    UnderLeaseProgresses(leased, calls, ids, op, audit, answers, attempts, clock);
    var p := UnderLease(leased, calls, ids, op, audit, answers, attempts, clock);
    ProgressesTwice(db, leased, p.db);
    SameLeasesHeld(leased, p.db, op, runner, TryAcquireLease(db, op, runner, LEASE_MS, start).1.value.epoch.value);
    ReleaseGivesBack(p.db, op, runner, TryAcquireLease(db, op, runner, LEASE_MS, start).1.value.epoch.value);
    LeasesAside(db, leased, p.db, op);
    ReleaseProgresses(db, p.db, ids, op);
  }

  lemma SameLeasesHeld(db: Db, after: Db, op: Id, runner: Runner, epoch: int)
    requires after.leases == db.leases && HoldsLease(db, op, runner, epoch)
    ensures HoldsLease(after, op, runner, epoch)
  {
  }

  lemma LeasesAside(db: Db, leased: Db, after: Db, op: Id)
    requires leased.leases.Keys == db.leases.Keys + {op} && after.leases == leased.leases
    requires forall o | o in db.leases && o != op :: leased.leases[o] == db.leases[o]
    ensures after.leases - {op} == db.leases - {op}
  {
  }

  lemma ReleaseProgresses(db: Db, after: Db, ids: seq<Id>, op: Id)
    requires Progresses(db, after)
    ensures Progresses(db, after.(leases := after.leases - {op}))
    ensures SettledIn(after, ids) ==> SettledIn(after.(leases := after.leases - {op}), ids)
  {
  }

  lemma ReleaseGivesBack(db: Db, op: Id, runner: Runner, epoch: int)
    requires HoldsLease(db, op, runner, epoch)
    ensures ReleaseLease(db, op, runner, epoch) == (db.(leases := db.leases - {op}), Ok(()))
  {
  }

  lemma AcquireGrants(db: Db, op: Id, runner: Runner, at: Time)
    requires Leasable(db, op, runner, at)
    ensures var (after, r) := TryAcquireLease(db, op, runner, LEASE_MS, at);
            && Progresses(db, after) && after.leases.Keys == db.leases.Keys + {op} && after.syscalls == db.syscalls
            && (forall o | o in db.leases && o != op :: after.leases[o] == db.leases[o])
            && r.Ok? && r.value.acquired && r.value.epoch.Some?
            && HoldsLease(after, op, runner, r.value.epoch.value)
  {
  }

  /** Distinct operations, each with none of the others' syscalls. */
  predicate AllLeasable(db: Db, items: seq<RecoverableOperation>, i: nat, start: nat -> Time) {
    forall k | i <= k < |items| :: Leasable(db, items[k].operation, RecoveryOf(items[k].operation), start(k))
  }

  predicate DistinctOperations(items: seq<RecoverableOperation>) {
    forall g, h | 0 <= g < h < |items| :: items[g].operation != items[h].operation
  }

  lemma OthersStayLeasable(db: Db, after: Db, items: seq<RecoverableOperation>, i: nat, start: nat -> Time)
    requires i < |items| && DistinctOperations(items) && AllLeasable(db, items, i, start)
    requires Progresses(db, after) && after.leases == db.leases - {items[i].operation}
    ensures AllLeasable(after, items, i + 1, start)
  {
    forall k | i + 1 <= k < |items| ensures Leasable(after, items[k].operation, RecoveryOf(items[k].operation), start(k)) {
      assert Leasable(db, items[k].operation, RecoveryOf(items[k].operation), start(k));
    }
  }

  lemma StaysSettled(db: Db, after: Db, ids: seq<Id>)
    requires Progresses(db, after) && SettledIn(db, ids)
    ensures SettledIn(after, ids)
  {
  }

  lemma {:induction false} RecoverFromSettles(
      db: Db, calls: map<Id, nat>, items: seq<RecoverableOperation>, i: nat, answers: (Id, nat) -> ToolOutcome,
      attempts: nat, start: nat -> Time, clock: nat -> nat -> Time)
    requires i <= |items| && DistinctOperations(items) && AllLeasable(db, items, i, start)
    ensures var p := RecoverFrom(db, calls, items, i, answers, attempts, start, clock);
            && Progresses(db, p.db)
            && (p.result.Ok? ==> forall k | i <= k < |items| :: SettledIn(p.db, items[k].syscalls))
    decreases |items| - i
  {
    if i < |items| {
      var op := items[i].operation;
      var p := ExecutionOf(db, calls, RecoveryOf(op), items[i].syscalls, op, items[i].audit, answers, attempts,
                           start(i), clock(i));
      ExecutionSettles(db, calls, RecoveryOf(op), items[i].syscalls, op, items[i].audit, answers, attempts, start(i),
                       clock(i));
      if p.result.Ok? {
        OthersStayLeasable(db, p.db, items, i, start);
        RecoverFromSettles(p.db, p.calls, items, i + 1, answers, attempts, start, clock);
        var q := RecoverFrom(p.db, p.calls, items, i + 1, answers, attempts, start, clock);
        ProgressesTwice(db, p.db, q.db);
        StaysSettled(p.db, q.db, items[i].syscalls);
      }
    }
  }

  /** An undisturbed recovery that ends without an error leaves nothing to recover. */
  lemma RecoveryDrains(db: Db, calls: map<Id, nat>, answers: (Id, nat) -> ToolOutcome, attempts: nat,
                       start: nat -> Time, clock: nat -> nat -> Time, p: Progress, count: nat, s: Id)
    requires IsRecovery(db, calls, answers, attempts, start, clock, p, count) && p.result.Ok?
    requires forall op, k | op in db.operations :: Leasable(db, op, RecoveryOf(op), start(k))
    ensures !Recoverable(p.db, s)
  {
    var rows: seq<Row>, items: seq<RecoverableOperation> :|
      && IsQueryResult(db, rows) && IsGrouping(rows, items)
      && p == RecoverFrom(db, calls, items, 0, answers, attempts, start, clock) && count == |items|;
    forall k | 0 <= k < |items| ensures items[k].operation in db.operations {
      var t := items[k].syscalls[0];
      assert t in items[k].syscalls;
      GroupedIsExact(db, rows, items, t);
    }
    RecoverFromSettles(db, calls, items, 0, answers, attempts, start, clock);
    if Recoverable(db, s) {
      GroupedIsExact(db, rows, items, s);
      var g :| 0 <= g < |items| && s in items[g].syscalls;
      assert SettledIn(p.db, items[g].syscalls);
    }
  }
}
