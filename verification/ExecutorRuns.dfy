/** What the executor computes is a run of one executor's moves in the state machine, from taking the lease to giving
    it back. */
module ExecutorRuns {
  import opened Prelude
  import opened ActionSchemas
  import opened Database
  import opened Execution
  import opened Executor
  import ExecutionSafety

  predicate MovesOf(steps: seq<Timed>, pid: nat) {
    forall k | 0 <= k < |steps| :: steps[k].step.Move? && steps[k].step.pid == pid
  }

  /** Executor `pid` alone leads from `w` to `after`. */
  ghost predicate Moved(w: World, after: World, pid: nat, attempts: nat) {
    exists steps :: MovesOf(steps, pid) && RunWorld(w, steps, attempts) == after
  }

  lemma MovedTwice(a: World, b: World, c: World, pid: nat, attempts: nat)
    requires Moved(a, b, pid, attempts) && Moved(b, c, pid, attempts)
    ensures Moved(a, c, pid, attempts)
  {
    var first :| MovesOf(first, pid) && RunWorld(a, first, attempts) == b;
    var second :| MovesOf(second, pid) && RunWorld(b, second, attempts) == c;
    RunJoins(a, first, second, attempts);
    assert MovesOf(first + second, pid);
  }

  lemma MovedOnce(w: World, pid: nat, outcome: ToolOutcome, attempts: nat, at: Time)
    requires pid in w.execs && HasCurrent(w.execs[pid])
    ensures Moved(w, MoveStep(w, pid, outcome, attempts, at), pid, attempts)
  {
    RunSnoc(w, [], Timed(Move(pid, outcome), at), attempts);
    var steps := [] + [Timed(Move(pid, outcome), at)];
    assert MovesOf(steps, pid) && RunWorld(w, steps, attempts) == MoveStep(w, pid, outcome, attempts, at);
  }

  // The stretches below hold of every reflexive and transitive relation that includes the moves; `Moved` is one.

  type Relation = (World, World) -> bool

  ghost predicate IncludesMoves(moved: Relation, pid: nat, attempts: nat) {
    forall w: World, outcome, at | pid in w.execs && HasCurrent(w.execs[pid]) ::
      moved(w, MoveStep(w, pid, outcome, attempts, at))
  }

  ghost predicate Transitive(moved: Relation) {
    forall a, b, c :: moved(a, b) && moved(b, c) ==> moved(a, c)
  }

  ghost predicate Follows(moved: Relation, pid: nat, attempts: nat) {
    IncludesMoves(moved, pid, attempts) && Transitive(moved) && forall w :: moved(w, w)
  }

  /** `after` is `w` with executor `pid` at `e`, and with these tables and counts. */
  predicate Reaches(w: World, after: World, pid: nat, e: Exec, db: Db, calls: map<Id, nat>) {
    after.execs == w.execs[pid := e] && after.db == db && after.calls == calls && after.stages == w.stages
  }

  predicate StandsAt(w: World, pid: nat, e: Exec) { pid in w.execs && w.execs[pid] == e && HasCurrent(e) }

  // ----- Single moves -----

  lemma ToolMove(moved: Relation, w: World, pid: nat, e: Exec, attempts: nat, outcome: ToolOutcome) returns (after: World)
    requires Follows(moved, pid, attempts) && StandsAt(w, pid, e) && (e.pc.CallTool?)
    ensures moved(w, after)
    ensures var s := e.ids[e.next];
            var pc := match outcome
              case ToolOk => Settle
              case Rejected => Release
              case ToolError => if e.pc.attempt < attempts then CallTool(e.pc.attempt + 1) else RecordFailure;
            Reaches(w, after, pid, e.(pc := pc), w.db, w.calls[s := CallsOf(w.calls, s) + 1])
  {
    after := MoveStep(w, pid, outcome, attempts, 0);
  }

  lemma OutcomeMove(moved: Relation, w: World, pid: nat, e: Exec, attempts: nat) returns (after: World)
    requires Follows(moved, pid, attempts) && StandsAt(w, pid, e) && (e.pc == Settle || e.pc == RecordFailure)
    ensures moved(w, after)
    ensures var s := e.ids[e.next];
            var (db, r) := if e.pc == Settle then UpdateSyscallStatus(w.db, s, Executed, Some(RESULT_REF))
                           else UpdateSyscallStatus(w.db, s, SyscallFailed, None);
            Reaches(w, after, pid, Then(e, r.Ok?, if e.pc == Settle then NoteExecuted else FailOperation), db, w.calls)
  {
    after := MoveStep(w, pid, ToolOk, attempts, 0);
  }

  lemma NoteMove(moved: Relation, w: World, pid: nat, e: Exec, attempts: nat) returns (after: World)
    requires Follows(moved, pid, attempts) && StandsAt(w, pid, e) && (e.pc == NoteExecuted || e.pc == NoteFailed || e.pc == NoteCompleted)
    ensures moved(w, after)
    ensures var (db, r) := AppendTimelineItem(w.db, e.audit, Note("executor"));
            Reaches(w, after, pid, if e.pc == NoteCompleted then e.(pc := Release) else NextSyscall(e, r.Ok?), db, w.calls)
  {
    after := MoveStep(w, pid, ToolOk, attempts, 0);
  }

  lemma EndMove(moved: Relation, w: World, pid: nat, e: Exec, attempts: nat, at: Time) returns (after: World)
    requires Follows(moved, pid, attempts) && StandsAt(w, pid, e) && (e.pc == FailOperation || e.pc == Complete)
    ensures moved(w, after)
    ensures var (state, reason, pc) :=
              if e.pc == Complete then (Completed, SyscallsExecuted, NoteCompleted)
              else (OperationFailed, SyscallExecutionFailed, NoteFailed);
            var (db, r) := UpdateOperationState(w.db, e.op, state, Some(reason), e.audit, at);
            Reaches(w, after, pid, Then(e, r.Ok?, pc), db, w.calls)
  {
    after := MoveStep(w, pid, ToolOk, attempts, at);
  }

  lemma ScanMove(moved: Relation, w: World, pid: nat, e: Exec, attempts: nat) returns (after: World)
    requires Follows(moved, pid, attempts) && StandsAt(w, pid, e) && (e.pc == Scan)
    ensures moved(w, after)
    ensures Reaches(w, after, pid, if e.next >= |e.ids| then e.(pc := Inspect)
              else if e.ids[e.next] !in w.db.syscalls then e.(pc := Release)
              else if w.db.syscalls[e.ids[e.next]].status != Permitted then e.(next := e.next + 1)
              else e.(pc := Claim), w.db, w.calls)
  {
    after := MoveStep(w, pid, ToolOk, attempts, 0);
  }

  lemma ClaimMove(moved: Relation, w: World, pid: nat, e: Exec, attempts: nat) returns (after: World)
    requires Follows(moved, pid, attempts) && StandsAt(w, pid, e) && (e.pc == Claim)
    requires e.ids[e.next] in w.db.syscalls && w.db.syscalls[e.ids[e.next]].status == Permitted
    ensures moved(w, after)
    ensures Reaches(w, after, pid, e.(pc := CallTool(1)), UpdateSyscallStatus(w.db, e.ids[e.next], Executing, None).0, w.calls)
  {
    after := MoveStep(w, pid, ToolOk, attempts, 0);
    ExecutionSafety.ClaimWrites(w, pid);
    ExecutionSafety.SyscallUpdateWrites(w.db, e.ids[e.next], Executing, None);
  }

  lemma InspectMove(moved: Relation, w: World, pid: nat, e: Exec, attempts: nat) returns (after: World)
    requires Follows(moved, pid, attempts) && StandsAt(w, pid, e) && (e.pc == Inspect || e.pc == ListSyscalls)
    ensures moved(w, after)
    ensures Reaches(w, after, pid, if e.pc == Inspect then
                Then(e, e.op in w.db.operations && w.db.operations[e.op].state == Running, ListSyscalls)
              else Then(e, AllExecuted(w.db, e.op), Complete), w.db, w.calls)
  {
    after := MoveStep(w, pid, ToolOk, attempts, 0);
  }

  // ----- Stretches of moves -----

  function AfterRetry(outcome: ToolOutcome): Pc {
    match outcome
    case ToolOk => Settle
    case Rejected => Release
    case ToolError => RecordFailure
  }

  function Onward(e: Exec, ok: bool): Exec { if ok then e.(pc := Scan, next := e.next + 1) else e.(pc := Release) }

  lemma {:induction false} RetryIsRun(
      moved: Relation, w: World, pid: nat, e: Exec, answers: (Id, nat) -> ToolOutcome, attempts: nat)
    returns (after: World)
    requires Follows(moved, pid, attempts) && StandsAt(w, pid, e) && e.pc.CallTool?
    ensures moved(w, after)
    ensures var (counted, outcome) := Retry(w.calls, e.ids[e.next], answers, e.pc.attempt, attempts);
            Reaches(w, after, pid, e.(pc := AfterRetry(outcome)), w.db, counted)
    decreases attempts - e.pc.attempt
  {
    var outcome := answers(e.ids[e.next], e.pc.attempt);
    after := ToolMove(moved, w, pid, e, attempts, outcome);
    if outcome == ToolError && e.pc.attempt < attempts {
      var mid := after;
      after := RetryIsRun(moved, mid, pid, e.(pc := CallTool(e.pc.attempt + 1)), answers, attempts);
    }
  }

  lemma SettleIsRun(moved: Relation, w: World, pid: nat, e: Exec, attempts: nat) returns (after: World)
    requires Follows(moved, pid, attempts) && StandsAt(w, pid, e) && e.pc == Settle
    ensures moved(w, after)
    ensures var (db, r) := Settled(w.db, e.ids[e.next], e.audit);
            Reaches(w, after, pid, Onward(e, r.Ok?), db, w.calls)
  {
    after := OutcomeMove(moved, w, pid, e, attempts);
    if after.execs[pid].pc == NoteExecuted {
      var mid := after;
      after := NoteMove(moved, mid, pid, e.(pc := NoteExecuted), attempts);
    }
  }

  lemma EndAndNoteIsRun(moved: Relation, w: World, pid: nat, e: Exec, attempts: nat, at: Time) returns (after: World)
    requires Follows(moved, pid, attempts) && StandsAt(w, pid, e) && (e.pc == FailOperation || e.pc == Complete)
    ensures moved(w, after)
    ensures var (state, reason) :=
              if e.pc == Complete then (Completed, SyscallsExecuted) else (OperationFailed, SyscallExecutionFailed);
            var (ended, q) := UpdateOperationState(w.db, e.op, state, Some(reason), e.audit, at);
            var (db, r) := if q.Ok? then AppendTimelineItem(ended, e.audit, Note("executor")) else (ended, q);
            Reaches(w, after, pid, Onward(e, r.Ok? && e.pc == FailOperation), db, w.calls)
  {
    after := EndMove(moved, w, pid, e, attempts, at);
    if after.execs[pid].pc != Release {
      var mid := after;
      after := NoteMove(moved, mid, pid, mid.execs[pid], attempts);
    }
  }

  lemma FailureIsRun(moved: Relation, w: World, pid: nat, e: Exec, attempts: nat, at: Time) returns (after: World)
    requires Follows(moved, pid, attempts) && StandsAt(w, pid, e) && e.pc == RecordFailure
    ensures moved(w, after)
    ensures var (db, r) := FailedWith(w.db, e.ids[e.next], e.op, e.audit, at);
            Reaches(w, after, pid, Onward(e, r.Ok?), db, w.calls)
  {
    after := OutcomeMove(moved, w, pid, e, attempts);
    if after.execs[pid].pc == FailOperation {
      var mid := after;
      after := EndAndNoteIsRun(moved, mid, pid, e.(pc := FailOperation), attempts, at);
    }
  }

  lemma AfterToolIsRun(moved: Relation, w: World, pid: nat, e: Exec, outcome: ToolOutcome, attempts: nat, at: Time)
    returns (after: World)
    requires Follows(moved, pid, attempts) && pid in w.execs
    requires w.execs[pid] == e.(pc := AfterRetry(outcome)) && e.next < |e.ids|
    ensures moved(w, after)
    ensures var (db, r) := AfterTool(w.db, e.ids[e.next], e.op, e.audit, outcome, at);
            Reaches(w, after, pid, Onward(e, r.Ok?), db, w.calls)
  {
    match outcome
    case ToolOk => after := SettleIsRun(moved, w, pid, e.(pc := Settle), attempts);
    case Rejected =>
      after := w;
    case ToolError => after := FailureIsRun(moved, w, pid, e.(pc := RecordFailure), attempts, at);
  }

  lemma OneIsRun(moved: Relation, w: World, pid: nat, e: Exec, answers: (Id, nat) -> ToolOutcome, attempts: nat, at: Time)
    returns (after: World)
    requires Follows(moved, pid, attempts) && StandsAt(w, pid, e) && e.pc == Scan && e.next < |e.ids|
    ensures moved(w, after)
    ensures var p := ExecuteOne(w.db, w.calls, e.ids[e.next], e.op, e.audit, answers, attempts, at);
            Reaches(w, after, pid, Onward(e, p.result.Ok?), p.db, p.calls)
  {
    after := ScanMove(moved, w, pid, e, attempts);
    if after.execs[pid].pc == Claim {
      after := PermittedIsRun(moved, w, after, pid, e, answers, attempts, at);
    }
  }

  lemma PermittedIsRun(moved: Relation, w: World, read: World, pid: nat, e: Exec,
                       answers: (Id, nat) -> ToolOutcome, attempts: nat, at: Time)
    returns (after: World)
    requires Follows(moved, pid, attempts) && StandsAt(w, pid, e) && e.pc == Scan && e.next < |e.ids|
    requires e.ids[e.next] in w.db.syscalls && w.db.syscalls[e.ids[e.next]].status == Permitted
    requires moved(w, read) && Reaches(w, read, pid, e.(pc := Claim), w.db, w.calls)
    ensures moved(w, after)
    ensures var p := ExecuteOne(w.db, w.calls, e.ids[e.next], e.op, e.audit, answers, attempts, at);
            Reaches(w, after, pid, Onward(e, p.result.Ok?), p.db, p.calls)
  {
    var s := e.ids[e.next];
    var claimed := ClaimMove(moved, read, pid, e.(pc := Claim), attempts);
    var retried := RetryIsRun(moved, claimed, pid, e.(pc := CallTool(1)), answers, attempts);
    var outcome := Retry(w.calls, s, answers, 1, attempts).1;
    after := AfterToolIsRun(moved, retried, pid, e, outcome, attempts, at);
  }

  lemma {:induction false} FromIsRun(moved: Relation, w: World, pid: nat, e: Exec,
                                     answers: (Id, nat) -> ToolOutcome, attempts: nat, clock: nat -> Time)
    returns (after: World, end: nat)
    requires Follows(moved, pid, attempts) && StandsAt(w, pid, e) && e.pc == Scan && e.next <= |e.ids|
    ensures moved(w, after)
    ensures var p := ExecuteFrom(w.db, w.calls, e.ids, e.next, e.op, e.audit, answers, attempts, clock);
            && (p.result.Ok? ==> end == |e.ids|)
            && Reaches(w, after, pid, e.(pc := if p.result.Ok? then Scan else Release, next := end), p.db, p.calls)
    decreases |e.ids| - e.next, 1
  {
    if e.next == |e.ids| {
      after, end := w, e.next;
    } else {
      var p := ExecuteOne(w.db, w.calls, e.ids[e.next], e.op, e.audit, answers, attempts, clock(e.next));
      var mid := OneIsRun(moved, w, pid, e, answers, attempts, clock(e.next));
      after, end := OthersAreRun(moved, w, mid, pid, e, p, answers, attempts, clock);
    }
  }

  /** After the first syscall, whatever came of it. */
  lemma {:induction false} OthersAreRun(
      moved: Relation, w: World, mid: World, pid: nat, e: Exec, p: Progress, answers: (Id, nat) -> ToolOutcome,
      attempts: nat, clock: nat -> Time)
    returns (after: World, end: nat)
    requires Follows(moved, pid, attempts) && StandsAt(w, pid, e) && e.pc == Scan && e.next < |e.ids|
    requires moved(w, mid) && Reaches(w, mid, pid, Onward(e, p.result.Ok?), p.db, p.calls)
    ensures moved(w, after)
    ensures var q := if p.result.Err? then p
                     else ExecuteFrom(p.db, p.calls, e.ids, e.next + 1, e.op, e.audit, answers, attempts, clock);
            && (q.result.Ok? ==> end == |e.ids|)
            && Reaches(w, after, pid, e.(pc := if q.result.Ok? then Scan else Release, next := end), q.db, q.calls)
    decreases |e.ids| - e.next, 0
  {
    if p.result.Err? {
      after, end := mid, e.next;
    } else {
      after, end := FromIsRun(moved, mid, pid, Onward(e, true), answers, attempts, clock);
    }
  }

  lemma ConcludedIsRun(moved: Relation, w: World, pid: nat, e: Exec, attempts: nat, at: Time) returns (after: World)
    requires Follows(moved, pid, attempts) && StandsAt(w, pid, e) && e.pc == Scan && e.next == |e.ids|
    ensures moved(w, after)
    ensures Reaches(w, after, pid, e.(pc := Release), Concluded(w.db, e.op, e.audit, at).0, w.calls)
  {
    after := ScanMove(moved, w, pid, e, attempts);
    after := InspectMove(moved, after, pid, e.(pc := Inspect), attempts);
    if after.execs[pid].pc == ListSyscalls {
      after := InspectMove(moved, after, pid, e.(pc := ListSyscalls), attempts);
      if after.execs[pid].pc == Complete {
        after := EndAndNoteIsRun(moved, after, pid, e.(pc := Complete), attempts, at);
      }
    }
  }

  lemma UnderLeaseIsRun(moved: Relation, w: World, pid: nat, e: Exec,
                        answers: (Id, nat) -> ToolOutcome, attempts: nat, clock: nat -> Time)
    returns (after: World, end: nat)
    requires Follows(moved, pid, attempts) && StandsAt(w, pid, e) && e.pc == Scan && e.next == 0
    ensures moved(w, after)
    ensures var p := UnderLease(w.db, w.calls, e.ids, e.op, e.audit, answers, attempts, clock);
            Reaches(w, after, pid, e.(pc := Release, next := end), p.db, p.calls)
  {
    after, end := FromIsRun(moved, w, pid, e, answers, attempts, clock);
    if after.execs[pid].pc == Scan {
      var mid := after;
      after := ConcludedIsRun(moved, mid, pid, e.(next := end), attempts, clock(|e.ids|));
    }
  }

  lemma AcquireMove(moved: Relation, w: World, pid: nat, e: Exec, attempts: nat, at: Time) returns (after: World)
    requires Follows(moved, pid, attempts) && StandsAt(w, pid, e) && e.pc == Acquire
    ensures moved(w, after)
    ensures match TryAcquireLease(w.db, e.op, e.runner, LEASE_MS, at)
            case (db, Ok(Acquisition(true, Some(epoch)))) =>
              Reaches(w, after, pid, e.(pc := Scan, epoch := epoch, until := at + LEASE_MS), db, w.calls)
            case (db, _) =>
              after.execs == w.execs - {pid} && after.db == db && after.calls == w.calls && after.stages == w.stages
  {
    after := MoveStep(w, pid, ToolOk, attempts, at);
  }

  lemma ReleaseMove(moved: Relation, w: World, pid: nat, e: Exec, attempts: nat) returns (after: World)
    requires Follows(moved, pid, attempts) && StandsAt(w, pid, e) && e.pc == Release
    ensures moved(w, after)
    ensures after.execs == w.execs - {pid} && after.db == ReleaseLease(w.db, e.op, e.runner, e.epoch).0
            && after.calls == w.calls && after.stages == w.stages
  {
    after := MoveStep(w, pid, ToolOk, attempts, 0);
  }

  lemma ExecutionIsRun(moved: Relation, w: World, pid: nat, e: Exec, answers: (Id, nat) -> ToolOutcome,
                       attempts: nat, start: Time, clock: nat -> Time)
    returns (after: World)
    requires Follows(moved, pid, attempts) && StandsAt(w, pid, e) && e.pc == Acquire && e.next == 0
    ensures moved(w, after)
    ensures var p := ExecutionOf(w.db, w.calls, e.runner, e.ids, e.op, e.audit, answers, attempts, start, clock);
            && after.execs == w.execs - {pid} && after.db == p.db && after.calls == p.calls && after.stages == w.stages
  {
    after := AcquireMove(moved, w, pid, e, attempts, start);
    if pid in after.execs {
      var f, end := after.execs[pid], 0;
      after, end := UnderLeaseIsRun(moved, after, pid, f, answers, attempts, clock);
      after := ReleaseMove(moved, after, pid, f.(pc := Release, next := end), attempts);
    }
  }

  lemma MovesFollow(pid: nat, attempts: nat) returns (moved: Relation)
    ensures Follows(moved, pid, attempts)
    ensures forall a, b :: moved(a, b) <==> Moved(a, b, pid, attempts)
  {
    moved := (a: World, b: World) => Moved(a, b, pid, attempts);
    forall w: World, outcome, at | pid in w.execs && HasCurrent(w.execs[pid])
      ensures moved(w, MoveStep(w, pid, outcome, attempts, at))
    {
      MovedOnce(w, pid, outcome, attempts, at);
    }
    forall a, b, c | moved(a, b) && moved(b, c) ensures moved(a, c) {
      MovedTwice(a, b, c, pid, attempts);
    }
    forall a ensures moved(a, a) {
      assert MovesOf([], pid) && RunWorld(a, [], attempts) == a;
    }
  }

  /** What one undisturbed execution does to the database and to the call counts, its executor does by its own moves. */
  lemma ExecutionIsARun(w: World, pid: nat, e: Exec, answers: (Id, nat) -> ToolOutcome,
                        attempts: nat, start: Time, clock: nat -> Time)
    returns (after: World)
    requires StandsAt(w, pid, e) && e.pc == Acquire && e.next == 0
    ensures Moved(w, after, pid, attempts)
    ensures var p := ExecutionOf(w.db, w.calls, e.runner, e.ids, e.op, e.audit, answers, attempts, start, clock);
            && after.execs == w.execs - {pid} && after.db == p.db && after.calls == p.calls && after.stages == w.stages
  {
    var moved := MovesFollow(pid, attempts);
    after := ExecutionIsRun(moved, w, pid, e, answers, attempts, start, clock);
  }
}
