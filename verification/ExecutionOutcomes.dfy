/** What an execution makes of its syscalls and of their operation, told by the tool's answers; and that an operation is
    completed only after a listing in which all its syscalls were executed. */
module ExecutionOutcomes {
  import opened Prelude
  import opened ActionSchemas
  import opened Database
  import opened Execution
  import opened Executor
  import opened RecoveryRuns
  import ExecutionRuns
  import StorageOutcomes

  type Answers = (Id, nat) -> ToolOutcome

  // ----- Attempts -----

  /** The last attempt made, counting on from attempt `n`: the first that is not an error, or the last allowed. */
  function Made(answers: Answers, s: Id, n: nat, attempts: nat): (m: nat)
    requires n <= attempts
    ensures n <= m <= attempts && (answers(s, m) != ToolError || m == attempts)
    ensures forall k | n <= k < m :: answers(s, k) == ToolError
    decreases attempts - n
  {
    if answers(s, n) == ToolError && n < attempts then Made(answers, s, n + 1, attempts) else n
  }

  /** How the tool finally answered. */
  function Final(answers: Answers, s: Id, attempts: nat): ToolOutcome
    requires attempts >= 1
  {
    answers(s, Made(answers, s, 1, attempts))
  }

  lemma {:induction false} RetriesUntilAnswered(calls: map<Id, nat>, s: Id, answers: Answers, n: nat, attempts: nat)
    requires n <= attempts
    ensures Retry(calls, s, answers, n, attempts) ==
            (calls[s := CallsOf(calls, s) + Made(answers, s, n, attempts) - n + 1],
             answers(s, Made(answers, s, n, attempts)))
    decreases attempts - n
  {
    if answers(s, n) == ToolError && n < attempts {
      var counted := calls[s := CallsOf(calls, s) + 1];
      RetriesUntilAnswered(counted, s, answers, n + 1, attempts);
      var k := CallsOf(calls, s) + Made(answers, s, n, attempts) - n + 1;
      assert counted[s := k] == calls[s := k];
    }
  }

  // ----- One syscall -----

  /** A claimed row when the attempts are over; a rejected result leaves it claimed. */
  function RowAfter(row: Syscall, outcome: ToolOutcome): Syscall {
    match outcome
    case ToolOk => row.(status := Executed, resultRef := Some("event:syscall_result"))
    case Rejected => row.(status := Executing, resultRef := None)
    case ToolError => row.(status := SyscallFailed, resultRef := None)
  }

  /** Nothing but the state of the operation, its reason and the time of the change. */
  predicate Fails(db: Db, after: Db, op: Id) {
    && op in db.operations && op in after.operations
    && after.operations == db.operations[op :=
         Operation(OperationFailed, Some(SyscallExecutionFailed), db.operations[op].pinned, db.operations[op].audit,
                   after.operations[op].updatedAt)]
  }

  /** Rows that an execution never touches. */
  predicate KeepsOthers(db: Db, after: Db) {
    && after.approvals == db.approvals && after.challenges == db.challenges && after.leases == db.leases
    && after.registry == db.registry && after.replies == db.replies && after.requests == db.requests
    && after.audits.Keys == db.audits.Keys
  }

  lemma NoteKeeps(db: Db, audit: Id)
    requires audit in db.audits
    ensures var (after, r) := AppendTimelineItem(db, audit, Note("executor"));
            r.Ok? && KeepsOthers(db, after) && after.syscalls == db.syscalls && after.operations == db.operations
  {
    StorageOutcomes.AppendedExactly(db, audit, Note("executor"));
  }

  lemma SettledWrites(db: Db, s: Id, audit: Id)
    requires s in db.syscalls && db.syscalls[s].status == Executing && audit in db.audits
    ensures var (after, r) := Settled(db, s, audit);
            && r.Ok? && KeepsOthers(db, after) && after.operations == db.operations
            && after.syscalls == db.syscalls[s := RowAfter(db.syscalls[s], ToolOk)]
  {
    StorageOutcomes.SyscallWrittenExactly(db, s, Executed, Some(RESULT_REF));
    NoteKeeps(UpdateSyscallStatus(db, s, Executed, Some(RESULT_REF)).0, audit);
  }

  lemma FailureWrites(db: Db, s: Id, op: Id, audit: Id, at: Time)
    requires s in db.syscalls && db.syscalls[s].status == Executing && audit in db.audits && op in db.operations
    ensures var (after, r) := FailedWith(db, s, op, audit, at);
            && r.Ok? && KeepsOthers(db, after) && Fails(db, after, op)
            && after.syscalls == db.syscalls[s := RowAfter(db.syscalls[s], ToolError)]
  {
    StorageOutcomes.SyscallWrittenExactly(db, s, SyscallFailed, None);
    var recorded := UpdateSyscallStatus(db, s, SyscallFailed, None).0;
    StorageOutcomes.UpdatedExactly(recorded, op, OperationFailed, Some(SyscallExecutionFailed), audit, at);
    NoteKeeps(UpdateOperationState(recorded, op, OperationFailed, Some(SyscallExecutionFailed), audit, at).0, audit);
  }

  /** A permitted syscall is claimed, attempted and settled. */
  predicate ExecutesOne(db: Db, calls: map<Id, nat>, s: Id, op: Id, answers: Answers, attempts: nat, p: Progress)
    requires attempts >= 1 && s in db.syscalls
  {
    var outcome := Final(answers, s, attempts);
    && KeepsOthers(db, p.db)
    && p.db.syscalls == db.syscalls[s := RowAfter(db.syscalls[s], outcome)]
    && p.calls == calls[s := CallsOf(calls, s) + Made(answers, s, 1, attempts)]
    && (if outcome == ToolError then Fails(db, p.db, op) else p.db.operations == db.operations)
    && (p.result.Err? <==> outcome == Rejected)
  }

  /** What follows the claim. */
  lemma ToolSettles(db: Db, s: Id, op: Id, audit: Id, outcome: ToolOutcome, at: Time)
    requires s in db.syscalls && db.syscalls[s].status == Executing && db.syscalls[s].resultRef == None
    requires audit in db.audits && op in db.operations
    ensures var (after, r) := AfterTool(db, s, op, audit, outcome, at);
            && KeepsOthers(db, after) && after.syscalls == db.syscalls[s := RowAfter(db.syscalls[s], outcome)]
            && (if outcome == ToolError then Fails(db, after, op) else after.operations == db.operations)
            && (r.Err? <==> outcome == Rejected)
  {
    match outcome
    case ToolOk => SettledWrites(db, s, audit);
    case Rejected =>
    case ToolError => FailureWrites(db, s, op, audit, at);
  }

  lemma ClaimWrites(db: Db, s: Id)
    requires s in db.syscalls && db.syscalls[s].status == Permitted
    ensures var after := UpdateSyscallStatus(db, s, Executing, None).0;
            && after == db.(syscalls := after.syscalls)
            && after.syscalls == db.syscalls[s := db.syscalls[s].(status := Executing, resultRef := None)]
  {
    StorageOutcomes.SyscallWrittenExactly(db, s, Executing, None);
  }

  lemma PermittedIsExecuted(db: Db, calls: map<Id, nat>, s: Id, op: Id, audit: Id, answers: Answers, attempts: nat,
                            at: Time)
    requires attempts >= 1 && audit in db.audits && op in db.operations
    requires s in db.syscalls && db.syscalls[s].status == Permitted
    ensures ExecutesOne(db, calls, s, op, answers, attempts, ExecuteOne(db, calls, s, op, audit, answers, attempts, at))
  {
    var claimed := UpdateSyscallStatus(db, s, Executing, None).0;
    ClaimWrites(db, s);
    RetriesUntilAnswered(calls, s, answers, 1, attempts);
    ToolSettles(claimed, s, op, audit, Final(answers, s, attempts), at);
    ClaimIsForgotten(db, claimed, s, Final(answers, s, attempts));
  }

  lemma ClaimIsForgotten(db: Db, claimed: Db, s: Id, outcome: ToolOutcome)
    requires s in db.syscalls
    requires claimed.syscalls == db.syscalls[s := db.syscalls[s].(status := Executing, resultRef := None)]
    ensures claimed.syscalls[s := RowAfter(claimed.syscalls[s], outcome)] ==
            db.syscalls[s := RowAfter(db.syscalls[s], outcome)]
  {
  }

  // ----- The list -----

  /** The syscall was permitted and stood in the part of the list that was gone through. */
  predicate Handled(db: Db, ids: seq<Id>, from: nat, reached: nat, s: Id)
    requires from <= reached <= |ids|
  {
    s in db.syscalls && db.syscalls[s].status == Permitted && s in ids[from..reached]
  }

  /** The list is left at an id without a row and after a rejected result. */
  predicate Stops(db: Db, s: Id, answers: Answers, attempts: nat)
    requires attempts >= 1
  {
    s !in db.syscalls || (db.syscalls[s].status == Permitted && Final(answers, s, attempts) == Rejected)
  }

  /** A syscall that was handled is as its tool answered, and was called until it did; any other is as before. */
  predicate RowSettles(db: Db, calls: map<Id, nat>, ids: seq<Id>, from: nat, reached: nat, answers: Answers,
                       attempts: nat, p: Progress, s: Id)
    requires attempts >= 1 && from <= reached <= |ids|
  {
    var handled := Handled(db, ids, from, reached, s);
    && (s in p.db.syscalls <==> s in db.syscalls)
    && (s in db.syscalls ==>
          p.db.syscalls[s] == if handled then RowAfter(db.syscalls[s], Final(answers, s, attempts)) else db.syscalls[s])
    && CallsOf(p.calls, s) == CallsOf(calls, s) + if handled then Made(answers, s, 1, attempts) else 0
  }

  ghost predicate SettlesHandled(db: Db, calls: map<Id, nat>, ids: seq<Id>, from: nat, reached: nat, answers: Answers,
                                 attempts: nat, p: Progress)
    requires attempts >= 1 && from <= reached <= |ids|
  {
    forall s :: RowSettles(db, calls, ids, from, reached, answers, attempts, p, s)
  }

  ghost predicate SomeFailed(db: Db, ids: seq<Id>, from: nat, reached: nat, answers: Answers, attempts: nat)
    requires attempts >= 1 && from <= reached <= |ids|
  {
    exists s :: Handled(db, ids, from, reached, s) && Final(answers, s, attempts) == ToolError
  }

  /** `reached`: how far the list was gone through. */
  ghost predicate IsOutcome(db: Db, calls: map<Id, nat>, ids: seq<Id>, from: nat, reached: nat, op: Id, answers: Answers,
                            attempts: nat, p: Progress)
    requires attempts >= 1
  {
    && from <= reached <= |ids| && KeepsOthers(db, p.db)
    && SettlesHandled(db, calls, ids, from, reached, answers, attempts, p)
    && (if SomeFailed(db, ids, from, reached, answers, attempts) then Fails(db, p.db, op)
        else p.db.operations == db.operations)
    && (forall k | from <= k < reached - 1 :: !Stops(db, ids[k], answers, attempts))
    && (p.result.Err? <==> reached > from && Stops(db, ids[reached - 1], answers, attempts))
    && (p.result.Ok? ==> reached == |ids|)
  }

  lemma OneHandled(db: Db, ids: seq<Id>, from: nat, reached: nat, s: Id)
    requires from < reached <= |ids|
    ensures Handled(db, ids, from, reached, s) <==>
            s in db.syscalls && db.syscalls[s].status == Permitted && (s == ids[from] || s in ids[from + 1..reached])
  {
    assert ids[from..reached] == [ids[from]] + ids[from + 1..reached];
  }

  /** A permitted syscall is executed, and any other skipped. */
  predicate FirstDone(db: Db, calls: map<Id, nat>, s: Id, op: Id, answers: Answers, attempts: nat, p: Progress)
    requires attempts >= 1
  {
    && (p.result.Err? <==> Stops(db, s, answers, attempts))
    && (if s in db.syscalls && db.syscalls[s].status == Permitted then ExecutesOne(db, calls, s, op, answers, attempts, p)
        else p.db == db && p.calls == calls)
  }

  lemma FirstOutcome(db: Db, calls: map<Id, nat>, ids: seq<Id>, from: nat, op: Id, audit: Id, answers: Answers,
                     attempts: nat, at: Time)
    requires attempts >= 1 && audit in db.audits && op in db.operations && from < |ids|
    ensures FirstDone(db, calls, ids[from], op, answers, attempts,
                      ExecuteOne(db, calls, ids[from], op, audit, answers, attempts, at))
  {
    if ids[from] in db.syscalls && db.syscalls[ids[from]].status == Permitted {
      PermittedIsExecuted(db, calls, ids[from], op, audit, answers, attempts, at);
    }
  }

  predicate IsPermitted(db: Db, s: Id) { s in db.syscalls && db.syscalls[s].status == Permitted }

  /** After the first syscall the others are handled as they would be without it. */
  lemma HandledOnward(db: Db, calls: map<Id, nat>, ids: seq<Id>, from: nat, reached: nat, op: Id, answers: Answers,
                      attempts: nat, first: Progress, s: Id)
    requires attempts >= 1 && from + 1 <= reached <= |ids|
    requires FirstDone(db, calls, ids[from], op, answers, attempts, first)
    ensures Handled(db, ids, from, reached, s) <==>
            (s == ids[from] && IsPermitted(db, s)) || Handled(first.db, ids, from + 1, reached, s)
    ensures s == ids[from] && IsPermitted(db, s) ==> !Handled(first.db, ids, from + 1, reached, s)
  {
    OneHandled(db, ids, from, reached, s);
  }

  lemma RowOnward(db: Db, calls: map<Id, nat>, ids: seq<Id>, from: nat, reached: nat, op: Id, answers: Answers,
                  attempts: nat, first: Progress, p: Progress, s: Id)
    requires attempts >= 1 && from + 1 <= reached <= |ids|
    requires FirstDone(db, calls, ids[from], op, answers, attempts, first)
    requires SettlesHandled(first.db, first.calls, ids, from + 1, reached, answers, attempts, p)
    ensures RowSettles(db, calls, ids, from, reached, answers, attempts, p, s)
  {
    assert RowSettles(first.db, first.calls, ids, from + 1, reached, answers, attempts, p, s);
    HandledOnward(db, calls, ids, from, reached, op, answers, attempts, first, s);
  }

  lemma OthersHandled(db: Db, calls: map<Id, nat>, ids: seq<Id>, from: nat, reached: nat, op: Id, answers: Answers,
                      attempts: nat, first: Progress, p: Progress)
    requires attempts >= 1 && from + 1 <= reached <= |ids|
    requires FirstDone(db, calls, ids[from], op, answers, attempts, first)
    requires SettlesHandled(first.db, first.calls, ids, from + 1, reached, answers, attempts, p)
    ensures SettlesHandled(db, calls, ids, from, reached, answers, attempts, p)
  {
    forall s ensures RowSettles(db, calls, ids, from, reached, answers, attempts, p, s) {
      RowOnward(db, calls, ids, from, reached, op, answers, attempts, first, p, s);
    }
  }

  lemma OthersStop(db: Db, calls: map<Id, nat>, s: Id, op: Id, answers: Answers, attempts: nat, first: Progress, t: Id)
    requires attempts >= 1 && FirstDone(db, calls, s, op, answers, attempts, first) && first.result.Ok?
    ensures Stops(first.db, t, answers, attempts) <==> Stops(db, t, answers, attempts)
  {
  }

  lemma OthersFail(db: Db, calls: map<Id, nat>, ids: seq<Id>, from: nat, reached: nat, op: Id, answers: Answers,
                   attempts: nat, first: Progress, p: Progress)
    requires attempts >= 1 && from + 1 <= reached <= |ids| && op in db.operations
    requires FirstDone(db, calls, ids[from], op, answers, attempts, first)
    requires if SomeFailed(first.db, ids, from + 1, reached, answers, attempts) then Fails(first.db, p.db, op)
             else p.db.operations == first.db.operations
    ensures if SomeFailed(db, ids, from, reached, answers, attempts) then Fails(db, p.db, op)
            else p.db.operations == db.operations
  {
    var s := ids[from];
    forall t ensures Handled(db, ids, from, reached, t) <==>
                     (t == s && IsPermitted(db, t)) || Handled(first.db, ids, from + 1, reached, t)
    {
      HandledOnward(db, calls, ids, from, reached, op, answers, attempts, first, t);
    }
    if IsPermitted(db, s) && Final(answers, s, attempts) == ToolError {
      assert Handled(db, ids, from, reached, s) && Fails(db, first.db, op);
    }
  }

  /** The first syscall stops the list. */
  lemma StoppedOutcome(db: Db, calls: map<Id, nat>, ids: seq<Id>, from: nat, op: Id, answers: Answers, attempts: nat,
                       first: Progress)
    requires attempts >= 1 && op in db.operations && from < |ids|
    requires FirstDone(db, calls, ids[from], op, answers, attempts, first) && first.result.Err?
    ensures IsOutcome(db, calls, ids, from, from + 1, op, answers, attempts, first)
  {
    assert ids[from + 1..from + 1] == [];
    assert SettlesHandled(first.db, first.calls, ids, from + 1, from + 1, answers, attempts, first);
    OthersHandled(db, calls, ids, from, from + 1, op, answers, attempts, first, first);
    OthersFail(db, calls, ids, from, from + 1, op, answers, attempts, first, first);
  }

  lemma OnwardOutcome(db: Db, calls: map<Id, nat>, ids: seq<Id>, from: nat, reached: nat, op: Id, answers: Answers,
                      attempts: nat, first: Progress, p: Progress)
    requires attempts >= 1 && op in db.operations && from < |ids|
    requires FirstDone(db, calls, ids[from], op, answers, attempts, first) && first.result.Ok?
    requires IsOutcome(first.db, first.calls, ids, from + 1, reached, op, answers, attempts, p)
    ensures IsOutcome(db, calls, ids, from, reached, op, answers, attempts, p)
  {
    OthersHandled(db, calls, ids, from, reached, op, answers, attempts, first, p);
    OthersFail(db, calls, ids, from, reached, op, answers, attempts, first, p);
    forall t ensures Stops(first.db, t, answers, attempts) <==> Stops(db, t, answers, attempts) {
      OthersStop(db, calls, ids[from], op, answers, attempts, first, t);
    }
  }

  lemma DoneKeepsRows(db: Db, calls: map<Id, nat>, s: Id, op: Id, answers: Answers, attempts: nat, p: Progress)
    requires attempts >= 1 && op in db.operations && FirstDone(db, calls, s, op, answers, attempts, p)
    ensures op in p.db.operations && p.db.audits.Keys == db.audits.Keys
  {
  }

  lemma {:induction false} ListOutcome(db: Db, calls: map<Id, nat>, ids: seq<Id>, from: nat, op: Id, audit: Id,
                                       answers: Answers, attempts: nat, clock: nat -> Time)
    returns (reached: nat)
    requires attempts >= 1 && audit in db.audits && op in db.operations && from <= |ids|
    ensures IsOutcome(db, calls, ids, from, reached, op, answers, attempts,
                      ExecuteFrom(db, calls, ids, from, op, audit, answers, attempts, clock))
    decreases |ids| - from
  {
    if from == |ids| {
      reached := from;
    } else {
      var first := ExecuteOne(db, calls, ids[from], op, audit, answers, attempts, clock(from));
      FirstOutcome(db, calls, ids, from, op, audit, answers, attempts, clock(from));
      DoneKeepsRows(db, calls, ids[from], op, answers, attempts, first);
      if first.result.Err? {
        reached := from + 1;
        StoppedOutcome(db, calls, ids, from, op, answers, attempts, first);
      } else {
        reached := ListOutcome(first.db, first.calls, ids, from + 1, op, audit, answers, attempts, clock);
        OnwardOutcome(db, calls, ids, from, reached, op, answers, attempts, first,
                      ExecuteFrom(first.db, first.calls, ids, from + 1, op, audit, answers, attempts, clock));
      }
    }
  }

  // ----- The operation -----

  /** The operation has syscalls, and all of them are executed. */
  ghost predicate WorkDone(db: Db, op: Id) {
    && (exists s :: s in db.syscalls && db.syscalls[s].operation == op)
    && forall s | s in db.syscalls && db.syscalls[s].operation == op :: db.syscalls[s].status == Executed
  }

  predicate Completes(db: Db, after: Db, op: Id) {
    && op in db.operations && op in after.operations
    && after.operations == db.operations[op :=
         Operation(Completed, Some(SyscallsExecuted), db.operations[op].pinned, db.operations[op].audit,
                   after.operations[op].updatedAt)]
  }

  lemma ConcludedExactly(db: Db, op: Id, audit: Id, at: Time)
    requires audit in db.audits && op in db.operations
    ensures var (after, r) := Concluded(db, op, audit, at);
            && r.Ok? && after.syscalls == db.syscalls && KeepsOthers(db, after)
            && (if db.operations[op].state == Running && WorkDone(db, op) then Completes(db, after, op)
                else after.operations == db.operations)
  {
    AllExecutedExactly(db, op);
    if db.operations[op].state == Running && WorkDone(db, op) {
      StorageOutcomes.UpdatedExactly(db, op, Completed, Some(SyscallsExecuted), audit, at);
      NoteKeeps(UpdateOperationState(db, op, Completed, Some(SyscallsExecuted), audit, at).0, audit);
    }
  }

  /** All the ids of the list that have a row are of the operation. */
  predicate BelongTo(db: Db, ids: seq<Id>, op: Id) {
    forall i | 0 <= i < |ids| && ids[i] in db.syscalls :: db.syscalls[ids[i]].operation == op
  }

  /** What an execution leaves behind when it went through the list up to `reached`. */
  ghost predicate Ends(db: Db, calls: map<Id, nat>, ids: seq<Id>, reached: nat, op: Id, answers: Answers, attempts: nat,
                       p: Progress)
    requires attempts >= 1
  {
    && reached <= |ids| && SettlesHandled(db, calls, ids, 0, reached, answers, attempts, p)
    && (forall k | 0 <= k < reached - 1 :: !Stops(db, ids[k], answers, attempts))
    && (p.result.Err? <==> reached > 0 && Stops(db, ids[reached - 1], answers, attempts))
    && (p.result.Ok? ==> reached == |ids|)
    && (if SomeFailed(db, ids, 0, reached, answers, attempts) then Fails(db, p.db, op)
        else if p.result.Ok? && WorkDone(p.db, op) then Completes(db, p.db, op)
        else p.db.operations == db.operations)
  }

  lemma FailedWorkIsNotDone(db: Db, calls: map<Id, nat>, ids: seq<Id>, reached: nat, op: Id, answers: Answers,
                            attempts: nat, p: Progress)
    requires attempts >= 1 && reached <= |ids| && BelongTo(db, ids, op)
    requires SettlesHandled(db, calls, ids, 0, reached, answers, attempts, p)
    requires SomeFailed(db, ids, 0, reached, answers, attempts)
    ensures !WorkDone(p.db, op)
  {
    var s :| Handled(db, ids, 0, reached, s) && Final(answers, s, attempts) == ToolError;
    assert RowSettles(db, calls, ids, 0, reached, answers, attempts, p, s);
    var i :| 0 <= i < |ids[0..reached]| && ids[0..reached][i] == s;
    assert ids[i] == s && p.db.syscalls[s].operation == op;
  }

  lemma UnderLeaseOutcome(db: Db, calls: map<Id, nat>, ids: seq<Id>, op: Id, audit: Id, answers: Answers, attempts: nat,
                          clock: nat -> Time)
    returns (reached: nat)
    requires attempts >= 1 && audit in db.audits && op in db.operations && db.operations[op].state == Running
    requires BelongTo(db, ids, op)
    ensures var p := UnderLease(db, calls, ids, op, audit, answers, attempts, clock);
            Ends(db, calls, ids, reached, op, answers, attempts, p) && KeepsOthers(db, p.db)
  {
    reached := ListOutcome(db, calls, ids, 0, op, audit, answers, attempts, clock);
    var listed := ExecuteFrom(db, calls, ids, 0, op, audit, answers, attempts, clock);
    if listed.result.Ok? {
      ConcludedExactly(listed.db, op, audit, clock(|ids|));
      var p := UnderLease(db, calls, ids, op, audit, answers, attempts, clock);
      ConcludedOutcome(db, calls, ids, reached, op, answers, attempts, listed, p);
    }
  }

  lemma ConcludedOutcome(db: Db, calls: map<Id, nat>, ids: seq<Id>, reached: nat, op: Id, answers: Answers, attempts: nat,
                         listed: Progress, p: Progress)
    requires attempts >= 1 && op in db.operations && db.operations[op].state == Running && BelongTo(db, ids, op)
    requires IsOutcome(db, calls, ids, 0, reached, op, answers, attempts, listed) && listed.result.Ok?
    requires op in listed.db.operations && p.result.Ok? && p.calls == listed.calls
    requires p.db.syscalls == listed.db.syscalls && KeepsOthers(listed.db, p.db)
    requires if listed.db.operations[op].state == Running && WorkDone(listed.db, op) then Completes(listed.db, p.db, op)
             else p.db.operations == listed.db.operations
    ensures Ends(db, calls, ids, reached, op, answers, attempts, p) && KeepsOthers(db, p.db)
  {
    SameRowsSettle(db, calls, ids, reached, answers, attempts, listed, p);
    if SomeFailed(db, ids, 0, reached, answers, attempts) {
      FailedWorkIsNotDone(db, calls, ids, reached, op, answers, attempts, listed);
    }
    SameWorkDone(listed.db, p.db, op);
  }

  lemma SameWorkDone(db: Db, after: Db, op: Id)
    requires after.syscalls == db.syscalls
    ensures WorkDone(after, op) <==> WorkDone(db, op)
  {
  }

  lemma SameRowsSettle(db: Db, calls: map<Id, nat>, ids: seq<Id>, reached: nat, answers: Answers, attempts: nat,
                       p: Progress, q: Progress)
    requires attempts >= 1 && reached <= |ids| && SettlesHandled(db, calls, ids, 0, reached, answers, attempts, p)
    requires q.db.syscalls == p.db.syscalls && q.calls == p.calls
    ensures SettlesHandled(db, calls, ids, 0, reached, answers, attempts, q)
  {
    forall s ensures RowSettles(db, calls, ids, 0, reached, answers, attempts, q, s) {
      assert RowSettles(db, calls, ids, 0, reached, answers, attempts, p, s);
    }
  }

  /** What an execution that finds its operation running does, told by the tool's answers: which syscalls it comes to,
      what becomes of each and how often its tool is called, where an error ends it, and what becomes of the operation.
      The lease is given back in any case. */
  lemma ExecutionOutcome(db: Db, calls: map<Id, nat>, runner: Runner, ids: seq<Id>, op: Id, audit: Id, answers: Answers,
                         attempts: nat, start: Time, clock: nat -> Time)
    returns (reached: nat)
    requires attempts >= 1 && audit in db.audits && BelongTo(db, ids, op)
    requires Leasable(db, op, runner, start) && db.operations[op].state == Running
    ensures var p := ExecutionOf(db, calls, runner, ids, op, audit, answers, attempts, start, clock);
            Ends(db, calls, ids, reached, op, answers, attempts, p) && p.db.leases == db.leases - {op}
  {
    var (leased, r) := TryAcquireLease(db, op, runner, LEASE_MS, start);
    AcquireTakes(db, op, runner, start);
    reached := UnderLeaseOutcome(leased, calls, ids, op, audit, answers, attempts, clock);
    var p := UnderLease(leased, calls, ids, op, audit, answers, attempts, clock);
    ReleaseGivesBack(p.db, op, runner, r.value.epoch.value);
    LeaseAside(db, leased, calls, ids, reached, op, answers, attempts, p,
               ExecutionOf(db, calls, runner, ids, op, audit, answers, attempts, start, clock));
  }

  lemma AcquireTakes(db: Db, op: Id, runner: Runner, start: Time)
    requires Leasable(db, op, runner, start)
    ensures var (leased, r) := TryAcquireLease(db, op, runner, LEASE_MS, start);
            && leased == db.(leases := leased.leases) && leased.leases - {op} == db.leases - {op}
            && r.Ok? && r.value.acquired && r.value.epoch.Some? && HoldsLease(leased, op, runner, r.value.epoch.value)
  {
    StorageOutcomes.AcquiredExactly(db, op, runner, LEASE_MS, start);
  }

  /** The lease row plays no part in what an execution leaves behind. */
  lemma LeaseAside(db: Db, leased: Db, calls: map<Id, nat>, ids: seq<Id>, reached: nat, op: Id, answers: Answers,
                   attempts: nat, p: Progress, q: Progress)
    requires attempts >= 1 && Ends(leased, calls, ids, reached, op, answers, attempts, p)
    requires leased == db.(leases := leased.leases) && q == Progress(p.db.(leases := q.db.leases), p.calls, p.result)
    ensures Ends(db, calls, ids, reached, op, answers, attempts, q)
  {
    RowsAside(db, leased, calls, ids, reached, answers, attempts, p, q);
    FailuresAside(db, leased, ids, reached, answers, attempts);
    SameWorkDone(p.db, q.db, op);
  }

  lemma RowsAside(db: Db, leased: Db, calls: map<Id, nat>, ids: seq<Id>, reached: nat, answers: Answers,
                  attempts: nat, p: Progress, q: Progress)
    requires attempts >= 1 && reached <= |ids| && SettlesHandled(leased, calls, ids, 0, reached, answers, attempts, p)
    requires leased.syscalls == db.syscalls && q.db.syscalls == p.db.syscalls && q.calls == p.calls
    ensures SettlesHandled(db, calls, ids, 0, reached, answers, attempts, q)
  {
    forall s ensures RowSettles(db, calls, ids, 0, reached, answers, attempts, q, s) {
      assert RowSettles(leased, calls, ids, 0, reached, answers, attempts, p, s);
    }
  }

  lemma FailuresAside(db: Db, leased: Db, ids: seq<Id>, reached: nat, answers: Answers, attempts: nat)
    requires attempts >= 1 && reached <= |ids| && leased.syscalls == db.syscalls
    ensures SomeFailed(db, ids, 0, reached, answers, attempts) <==> SomeFailed(leased, ids, 0, reached, answers, attempts)
  {
    assert forall s :: Handled(leased, ids, 0, reached, s) <==> Handled(db, ids, 0, reached, s);
  }

  /** So an execution moves a running operation to completed exactly when it ends without an error and the operation has
      syscalls, every one of which is then executed. */
  lemma CompletesExactly(db: Db, calls: map<Id, nat>, runner: Runner, ids: seq<Id>, op: Id, audit: Id, answers: Answers,
                         attempts: nat, start: Time, clock: nat -> Time)
    requires attempts >= 1 && audit in db.audits && BelongTo(db, ids, op)
    requires Leasable(db, op, runner, start) && db.operations[op].state == Running
    ensures var p := ExecutionOf(db, calls, runner, ids, op, audit, answers, attempts, start, clock);
            && op in p.db.operations
            && (p.db.operations[op].state == Completed <==>
                && p.result.Ok?
                && (exists s :: s in p.db.syscalls && p.db.syscalls[s].operation == op)
                && forall s | s in p.db.syscalls && p.db.syscalls[s].operation == op ::
                     p.db.syscalls[s].status == Executed)
  {
    var p := ExecutionOf(db, calls, runner, ids, op, audit, answers, attempts, start, clock);
    var reached := ExecutionOutcome(db, calls, runner, ids, op, audit, answers, attempts, start, clock);
    if SomeFailed(db, ids, 0, reached, answers, attempts) {
      FailedWorkIsNotDone(db, calls, ids, reached, op, answers, attempts, p);
    }
  }

  // ----- Every interleaving -----

  /** An executor that gets its lease has it for thirty seconds; one that does not is gone. */
  lemma LeaseLasts(w: World, pid: nat, at: Time)
    requires pid in w.execs
    ensures var (e, after) := (w.execs[pid], AcquireStep(w, pid, at));
            if pid in after.execs then
              && after.execs[pid] == e.(pc := Scan, epoch := after.execs[pid].epoch, until := at + 30_000)
              && e.op in after.db.leases
              && after.db.leases[e.op] == Lease(e.runner, at + 30_000, after.execs[pid].epoch)
            else after.db == w.db
  {
    StorageOutcomes.AcquiredExactly(w.db, w.execs[pid].op, w.execs[pid].runner, LEASE_MS, at);
  }

  /** Step `k` is the listing by which executor `pid` found its operation's work done. */
  ghost predicate FoundDone(registry: Registry, steps: seq<Timed>, attempts: nat, k: nat, pid: nat, op: Id)
    requires k < |steps|
  {
    var w := RunWorld(Start(registry), steps[..k], attempts);
    && steps[k].step.Move? && steps[k].step.pid == pid
    && pid in w.execs && w.execs[pid].pc == ListSyscalls && w.execs[pid].op == op
    && (exists s :: s in w.db.syscalls && w.db.syscalls[s].operation == op)
    && forall s | s in w.db.syscalls && w.db.syscalls[s].operation == op :: w.db.syscalls[s].status == Executed
  }

  /** A move changes no other executor; this one does not get to `Complete`, and keeps its operation. */
  ghost predicate MovesAside(w: World, after: World, pid: nat)
    requires pid in w.execs
  {
    && (pid in after.execs ==> after.execs[pid].pc != Complete && after.execs[pid].op == w.execs[pid].op)
    && forall q | q != pid :: (q in after.execs <==> q in w.execs) && (q in w.execs ==> after.execs[q] == w.execs[q])
  }

  lemma AcquireAside(w: World, pid: nat, at: Time)
    requires pid in w.execs
    ensures MovesAside(w, AcquireStep(w, pid, at), pid)
  {
  }

  lemma ScanAside(w: World, pid: nat)
    requires pid in w.execs && w.execs[pid].pc != Complete
    ensures MovesAside(w, ScanStep(w, pid), pid)
  {
  }

  lemma ClaimAside(w: World, pid: nat)
    requires pid in w.execs && w.execs[pid].next < |w.execs[pid].ids|
    ensures MovesAside(w, ClaimStep(w, pid), pid)
  {
  }

  lemma ToolAside(w: World, pid: nat, outcome: ToolOutcome, attempts: nat)
    requires pid in w.execs && w.execs[pid].next < |w.execs[pid].ids| && w.execs[pid].pc.CallTool?
    ensures MovesAside(w, ToolStep(w, pid, outcome, attempts), pid)
  {
  }

  lemma OutcomeAside(w: World, pid: nat)
    requires pid in w.execs && w.execs[pid].next < |w.execs[pid].ids|
    ensures MovesAside(w, SettleStep(w, pid, RESULT_REF), pid) && MovesAside(w, FailureStep(w, pid), pid)
  {
  }

  lemma NoteAside(w: World, pid: nat)
    requires pid in w.execs
    ensures MovesAside(w, NoteStep(w, pid), pid) && MovesAside(w, InspectStep(w, pid), pid)
  {
  }

  lemma EndAside(w: World, pid: nat, at: Time)
    requires pid in w.execs
    ensures MovesAside(w, FailOperationStep(w, pid, at), pid) && MovesAside(w, CompleteStep(w, pid, at), pid)
  {
  }

  lemma ReleaseAside(w: World, pid: nat)
    requires pid in w.execs
    ensures MovesAside(w, ReleaseStep(w, pid), pid)
  {
  }

  lemma MoveAside(w: World, pid: nat, outcome: ToolOutcome, attempts: nat, at: Time)
    requires pid in w.execs && HasCurrent(w.execs[pid]) && w.execs[pid].pc != ListSyscalls
    ensures MovesAside(w, MoveStep(w, pid, outcome, attempts, at), pid)
  {
    match w.execs[pid].pc
    case Acquire => AcquireAside(w, pid, at);
    case Scan => ScanAside(w, pid);
    case Claim => ClaimAside(w, pid);
    case CallTool(_) => ToolAside(w, pid, outcome, attempts);
    case Settle => OutcomeAside(w, pid);
    case RecordFailure => OutcomeAside(w, pid);
    case NoteExecuted => NoteAside(w, pid);
    case NoteFailed => NoteAside(w, pid);
    case NoteCompleted => NoteAside(w, pid);
    case Inspect => NoteAside(w, pid);
    case FailOperation => EndAside(w, pid, at);
    case Complete => EndAside(w, pid, at);
    case Release => ReleaseAside(w, pid);
  }

  /** A listing leads on to `Complete` exactly when it finds the work done. */
  lemma ListingDecides(w: World, pid: nat, outcome: ToolOutcome, attempts: nat, at: Time)
    requires pid in w.execs && HasCurrent(w.execs[pid]) && w.execs[pid].pc == ListSyscalls
    ensures var after := MoveStep(w, pid, outcome, attempts, at);
            && after == w.(execs := after.execs)
            && after.execs ==
               w.execs[pid := w.execs[pid].(pc := if WorkDone(w.db, w.execs[pid].op) then Complete else Release)]
  {
    AllExecutedExactly(w.db, w.execs[pid].op);
  }

  lemma AllExecutedExactly(db: Db, op: Id)
    ensures AllExecuted(db, op) <==> WorkDone(db, op)
  {
  }

  lemma OtherStepsKeepExec(w: World, step: Step, attempts: nat, at: Time, pid: nat)
    requires !(step.Move? && step.pid == pid)
    requires pid in Next(w, step, attempts, at).execs && Next(w, step, attempts, at).execs[pid].pc == Complete
    ensures pid in w.execs && w.execs[pid] == Next(w, step, attempts, at).execs[pid]
  {
    if step.Move? && Enabled(w, step) {
      if w.execs[step.pid].pc == ListSyscalls {
        ListingDecides(w, step.pid, step.outcome, attempts, at);
      } else {
        MoveAside(w, step.pid, step.outcome, attempts, at);
      }
    }
  }

  /** An executor that is about to complete its operation stood there before, or has just listed its work as done. */
  lemma ReachesComplete(w: World, step: Step, attempts: nat, at: Time, pid: nat)
    requires pid in Next(w, step, attempts, at).execs && Next(w, step, attempts, at).execs[pid].pc == Complete
    ensures pid in w.execs && w.execs[pid].op == Next(w, step, attempts, at).execs[pid].op
    ensures w.execs[pid].pc == Complete
            || (w.execs[pid].pc == ListSyscalls && step.Move? && step.pid == pid && WorkDone(w.db, w.execs[pid].op))
  {
    if step.Move? && step.pid == pid {
      if Enabled(w, step) {
        if w.execs[pid].pc == ListSyscalls {
          ListingDecides(w, pid, step.outcome, attempts, at);
        } else {
          MoveAside(w, pid, step.outcome, attempts, at);
        }
      }
    } else {
      OtherStepsKeepExec(w, step, attempts, at, pid);
    }
  }

  lemma {:induction false} CompleteFollowsListing(registry: Registry, steps: seq<Timed>, attempts: nat, pid: nat)
    returns (k: nat)
    requires var w := RunWorld(Start(registry), steps, attempts); pid in w.execs && w.execs[pid].pc == Complete
    ensures k < |steps|
    ensures FoundDone(registry, steps, attempts, k, pid, RunWorld(Start(registry), steps, attempts).execs[pid].op)
  {
    var (before, last) := (steps[..|steps| - 1], steps[|steps| - 1]);
    var w := RunWorld(Start(registry), before, attempts);
    ReachesComplete(w, last.step, attempts, last.at, pid);
    if w.execs[pid].pc == Complete {
      k := CompleteFollowsListing(registry, before, attempts, pid);
      assert before[..k] == steps[..k];
    } else {
      k := |steps| - 1;
    }
  }

  /** In any interleaving an executor completes its operation only after a listing of its own in which the operation had
      syscalls and all of them were executed. */
  lemma CompletedAfterListing(registry: Registry, steps: seq<Timed>, attempts: nat, pid: nat, outcome: ToolOutcome,
                              at: Time)
    returns (k: nat)
    requires var w := RunWorld(Start(registry), steps, attempts);
             pid in w.execs && HasCurrent(w.execs[pid]) && w.execs[pid].op in w.db.operations
    requires var w := RunWorld(Start(registry), steps, attempts);
             w.db.operations[w.execs[pid].op].state != Completed
    requires var w := RunWorld(Start(registry), steps, attempts);
             var after := Next(w, Move(pid, outcome), attempts, at);
             w.execs[pid].op in after.db.operations && after.db.operations[w.execs[pid].op].state == Completed
    ensures k < |steps|
    ensures FoundDone(registry, steps, attempts, k, pid, RunWorld(Start(registry), steps, attempts).execs[pid].op)
  {
    OnlyCompleteCompletes(RunWorld(Start(registry), steps, attempts), pid, outcome, attempts, at);
    k := CompleteFollowsListing(registry, steps, attempts, pid);
  }

  lemma LeaseStepsKeepOperations(w: World, pid: nat, at: Time)
    requires pid in w.execs
    ensures AcquireStep(w, pid, at).db.operations == w.db.operations
    ensures ReleaseStep(w, pid).db.operations == w.db.operations && NoteStep(w, pid).db.operations == w.db.operations
  {
    AcquireOnlyLeases(w.db, w.execs[pid].op, w.execs[pid].runner, LEASE_MS, at);
  }

  lemma SyscallWriteKeepsOperations(db: Db, s: Id, status: SyscallStatus, resultRef: Option<string>)
    ensures UpdateSyscallStatus(db, s, status, resultRef).0.operations == db.operations
  {
  }

  lemma ClaimKeepsOperations(w: World, pid: nat)
    requires pid in w.execs && w.execs[pid].next < |w.execs[pid].ids|
    ensures ClaimStep(w, pid).db.operations == w.db.operations
  {
    SyscallWriteKeepsOperations(w.db, w.execs[pid].ids[w.execs[pid].next], Executing, None);
  }

  lemma SettlingKeepsOperations(w: World, pid: nat)
    requires pid in w.execs && w.execs[pid].next < |w.execs[pid].ids|
    ensures SettleStep(w, pid, RESULT_REF).db.operations == w.db.operations
  {
    SyscallWriteKeepsOperations(w.db, w.execs[pid].ids[w.execs[pid].next], Executed, Some(RESULT_REF));
  }

  lemma RecordingKeepsOperations(w: World, pid: nat)
    requires pid in w.execs && w.execs[pid].next < |w.execs[pid].ids|
    ensures FailureStep(w, pid).db.operations == w.db.operations
  {
    SyscallWriteKeepsOperations(w.db, w.execs[pid].ids[w.execs[pid].next], SyscallFailed, None);
  }

  lemma FailingDoesNotComplete(w: World, pid: nat, at: Time)
    requires pid in w.execs && w.execs[pid].op in w.db.operations
    ensures var db := FailOperationStep(w, pid, at).db;
            w.execs[pid].op in db.operations && db.operations[w.execs[pid].op].state == OperationFailed
  {
    var e := w.execs[pid];
    StorageOutcomes.UpdatedExactly(w.db, e.op, OperationFailed, Some(SyscallExecutionFailed), e.audit, at);
  }

  lemma OnlyCompleteCompletes(w: World, pid: nat, outcome: ToolOutcome, attempts: nat, at: Time)
    requires pid in w.execs && HasCurrent(w.execs[pid]) && w.execs[pid].op in w.db.operations
    requires w.db.operations[w.execs[pid].op].state != Completed
    requires var db := MoveStep(w, pid, outcome, attempts, at).db;
             w.execs[pid].op in db.operations && db.operations[w.execs[pid].op].state == Completed
    ensures w.execs[pid].pc == Complete
  {
    match w.execs[pid].pc
    case Acquire => LeaseStepsKeepOperations(w, pid, at);
    case Release => LeaseStepsKeepOperations(w, pid, at);
    case NoteExecuted => LeaseStepsKeepOperations(w, pid, at);
    case NoteFailed => LeaseStepsKeepOperations(w, pid, at);
    case NoteCompleted => LeaseStepsKeepOperations(w, pid, at);
    case Claim => ClaimKeepsOperations(w, pid);
    case Settle => SettlingKeepsOperations(w, pid);
    case RecordFailure => RecordingKeepsOperations(w, pid);
    case FailOperation => FailingDoesNotComplete(w, pid, at);
    case Complete =>
    case _ => ExecutionRuns.OtherMoveIsNoCall(w, pid, outcome, attempts, at);
  }
}
