/** How a syscall comes to be claimed twice: from any approval, through an executor that sleeps as long as its lease and
    a recovery that takes the lease over. */
module ClaimedTwice {
  import opened Prelude
  import opened ActionSchemas
  import opened Database
  import opened Execution
  import opened ExecutionSafety
  import opened Recovery
  import opened Submissions
  import ExecutionRuns
  import Ledger
  import WorkNotLost

  /** An executor about to claim `s`, the only work left of its operation, under a lease that has run out. */
  predicate HoldsStaleLease(w: World, pid: nat, op: Id, s: Id, at: Time) {
    && pid in w.execs
    && w.execs[pid].op == op && w.execs[pid].runner != RecoveryOf(op)
    && w.execs[pid].ids == [s] && w.execs[pid].next == 0 && w.execs[pid].pc == Claim
    && op in w.db.leases && w.db.leases[op].until <= at
    && OnlyWork(w.db, s) && w.db.syscalls[s].operation == op
  }

  function TakeoverRun(pid: nat, recovery: nat, op: Id, s: Id, at: Time): seq<Timed> {
    [Timed(Recover(recovery, op, [s]), at), Timed(Move(recovery, ToolOk), at), Timed(Move(recovery, ToolOk), at),
     Timed(Move(recovery, ToolOk), at), Timed(Move(pid, ToolOk), at)]
  }

  /** Ready to call the tool of `s` for the first time. */
  predicate AboutToCall(w: World, pid: nat, s: Id) {
    pid in w.execs && w.execs[pid].pc == CallTool(1) && w.execs[pid].ids == [s] && w.execs[pid].next == 0
  }

  /** Recovery, which the query offers just this work, takes over the lapsed lease and claims; the first executor's
      write is accepted all the same. */
  lemma StaleClaimIsAccepted(w: World, pid: nat, recovery: nat, op: Id, s: Id, attempts: nat, at: Time)
    requires HoldsStaleLease(w, pid, op, s, at) && recovery !in w.execs
    ensures Offers(w.db, op, [s])
    ensures var after := RunWorld(w, TakeoverRun(pid, recovery, op, s, at), attempts);
            && after.claims == w.claims + [ClaimRow(s, recovery), ClaimRow(s, pid)] && after.calls == w.calls
            && AboutToCall(after, pid, s) && AboutToCall(after, recovery, s)
  {
    OnlyWorkIsOffered(w.db, s);
    var w3 := TakeoverReads(w, pid, recovery, op, s, attempts, at);
    BothClaim(w3, pid, recovery, s, attempts, at);
    TakeoverUnfolds(w, pid, recovery, op, s, attempts, at);
  }

  lemma BothClaim(w: World, pid: nat, recovery: nat, s: Id, attempts: nat, at: Time)
    requires s in w.db.syscalls && w.db.syscalls[s].status == Permitted && pid != recovery
    requires forall p | p == pid || p == recovery ::
               p in w.execs && w.execs[p].pc == Claim && w.execs[p].ids == [s] && w.execs[p].next == 0
    ensures var after := Next(Next(w, Move(recovery, ToolOk), attempts, at), Move(pid, ToolOk), attempts, at);
            && after.claims == w.claims + [ClaimRow(s, recovery), ClaimRow(s, pid)] && after.calls == w.calls
            && AboutToCall(after, pid, s) && AboutToCall(after, recovery, s)
  {
    ClaimWrites(w, recovery);
    ClaimWrites(ClaimStep(w, recovery), pid);
    assert w.claims + [ClaimRow(s, recovery)] + [ClaimRow(s, pid)] ==
           w.claims + [ClaimRow(s, recovery), ClaimRow(s, pid)];
  }

  /** Up to the moment the recovery is about to claim, too. */
  lemma TakeoverReads(w: World, pid: nat, recovery: nat, op: Id, s: Id, attempts: nat, at: Time) returns (w3: World)
    requires HoldsStaleLease(w, pid, op, s, at) && recovery !in w.execs
    ensures w3 == Next(Next(Next(w, Recover(recovery, op, [s]), attempts, at), Move(recovery, ToolOk), attempts, at),
                       Move(recovery, ToolOk), attempts, at)
    ensures w3.claims == w.claims && w3.calls == w.calls && w3.db.syscalls == w.db.syscalls
    ensures recovery in w3.execs && w3.execs[recovery].pc == Claim && w3.execs[recovery].ids == [s]
            && w3.execs[recovery].next == 0
    ensures pid in w3.execs && w3.execs[pid] == w.execs[pid]
  {
    var w1 := Next(w, Recover(recovery, op, [s]), attempts, at);
    assert w1 == Put(w, recovery, NewExec(RecoveryOf(op), op, w.db.operations[op].audit, [s]));
    var w2 := AcquireStep(w1, recovery, at);
    TakeoverAcquires(w1, recovery, op, at);
    w3 := ScanStep(w2, recovery);
  }

  lemma TakeoverAcquires(w: World, recovery: nat, op: Id, at: Time)
    requires recovery in w.execs && w.execs[recovery].pc == Acquire && w.execs[recovery].op == op
    requires op in w.db.leases && w.db.leases[op].until <= at
    ensures var after := AcquireStep(w, recovery, at);
            && after.claims == w.claims && after.calls == w.calls && after.db.syscalls == w.db.syscalls
            && recovery in after.execs && after.execs == w.execs[recovery := after.execs[recovery]]
            && after.execs[recovery].pc == Scan && after.execs[recovery].ids == w.execs[recovery].ids
            && after.execs[recovery].next == w.execs[recovery].next
  {
  }

  lemma TakeoverUnfolds(w: World, pid: nat, recovery: nat, op: Id, s: Id, attempts: nat, at: Time)
    ensures RunWorld(w, TakeoverRun(pid, recovery, op, s, at), attempts) ==
            var w1 := Next(w, Recover(recovery, op, [s]), attempts, at);
            var w2 := Next(w1, Move(recovery, ToolOk), attempts, at);
            var w3 := Next(w2, Move(recovery, ToolOk), attempts, at);
            var w4 := Next(w3, Move(recovery, ToolOk), attempts, at);
            Next(w4, Move(pid, ToolOk), attempts, at)
  {
    var steps := TakeoverRun(pid, recovery, op, s, at);
    assert steps == [] + [steps[0]] + [steps[1]] + [steps[2]] + [steps[3]] + [steps[4]];
    RunSnoc(w, [], steps[0], attempts);
    RunSnoc(w, [] + [steps[0]], steps[1], attempts);
    RunSnoc(w, [] + [steps[0]] + [steps[1]], steps[2], attempts);
    RunSnoc(w, [] + [steps[0]] + [steps[1]] + [steps[2]], steps[3], attempts);
    RunSnoc(w, [] + [steps[0]] + [steps[1]] + [steps[2]] + [steps[3]], steps[4], attempts);
  }

  // ----- Every approval can end there -----

  /** The operation an approval is for has an audit trace and no syscall yet. */
  predicate Untouched(db: Db, op: Id) {
    && op in db.operations && db.operations[op].audit in db.audits
    && forall t | t in db.syscalls :: db.syscalls[t].operation != op
  }

  /** The granted syscall is the operation's only work if the operation had none before. */
  lemma GrantedIsOnlyWork(w: World, input: ConsumeInput, s: Id, pid: nat, request: Id, attempts: nat, at: Time)
    requires Grants(w, input, s, pid, at) && Untouched(w.db, w.db.approvals[input.approval].operation)
    ensures OnlyWork(Next(w, DecideApproval(input, s, pid, request), attempts, at).db, s)
  {
    assert Next(w, DecideApproval(input, s, pid, request), attempts, at).db == DecidedDb(w.db, input, s, at);
    DecidedIsOnlyWork(w.db, input, s, at);
  }

  lemma DecidedIsOnlyWork(db: Db, input: ConsumeInput, s: Id, at: Time)
    requires ConsumeProblem(db, input, s, at).None? && input.decision == Approve
    requires Untouched(db, db.approvals[input.approval].operation)
    ensures OnlyWork(DecidedDb(db, input, s, at), s)
  {
    var op := db.approvals[input.approval].operation;
    var after := DecidedDb(db, input, s, at);
    assert after.operations[op].audit == db.operations[op].audit && after.audits.Keys >= db.audits.Keys;
  }

  /** The lease is taken, and the syscall read as permitted: then nothing for as long as the lease lasts. */
  function Sleep(pid: nat, at: Time): seq<Timed> { [Timed(Move(pid, ToolOk), at), Timed(Move(pid, ToolOk), at)] }

  /** Every approval is followed by a stale moment if its executor then sleeps as long as its lease lasts. */
  lemma SleepingExecutorGoesStale(
      w: World, pid: nat, op: Id, s: Id, request: Id, audit: Id, attempts: nat, at: Time)
    requires JustApproved(w, pid, op, s, request, audit) && OnlyWork(w.db, s)
    ensures var after := RunWorld(w, Sleep(pid, at), attempts);
            && HoldsStaleLease(after, pid, op, s, at + LEASE_MS)
            && after.claims == w.claims && after.calls == w.calls && after.execs.Keys == w.execs.Keys
  {
    var first := Timed(Move(pid, ToolOk), at);
    RunSnoc(w, [], first, attempts);
    RunSnoc(w, [first], first, attempts);
    assert [] + [first] == [first] && [first] + [first] == [first, first];
    var w1 := AcquireStep(w, pid, at);
    assert w1.db == w.db.(leases := w1.db.leases) && w1.execs[pid].pc == Scan && w1.execs[pid].next == 0;
    LeasesKeepWork(w.db, w1.db, s);
  }

  lemma LeasesKeepWork(db: Db, after: Db, s: Id)
    requires OnlyWork(db, s) && after == db.(leases := after.leases)
    ensures OnlyWork(after, s)
  {
    forall t | Recoverable(after, t) ensures Recoverable(db, t) {
    }
  }

  // ----- And the tool is called twice as often as it may be -----

  function Failures(pid: nat, k: nat, at: Time): seq<Timed> { seq(k, _ => Timed(Move(pid, ToolError), at)) }

  lemma FailuresSnoc(pid: nat, k: nat, at: Time)
    ensures Failures(pid, k + 1, at) == Failures(pid, k, at) + [Timed(Move(pid, ToolError), at)]
  {
  }

  /** What `k` failing calls of an executor do. */
  predicate Called(w: World, after: World, pid: nat, s: Id, attempts: nat, k: nat) {
    && after.claims == w.claims && CallsOf(after.calls, s) == CallsOf(w.calls, s) + k
    && pid in after.execs && after.execs.Keys == w.execs.Keys
    && (forall q | q in w.execs && q != pid :: after.execs[q] == w.execs[q])
    && after.execs[pid].ids == [s] && after.execs[pid].next == 0
    && (k < attempts ==> after.execs[pid].pc == CallTool(k + 1))
  }

  lemma OneMoreFailure(w: World, before: World, pid: nat, s: Id, attempts: nat, k: nat, at: Time)
    requires Called(w, before, pid, s, attempts, k) && k < attempts
    ensures Called(w, Next(before, Move(pid, ToolError), attempts, at), pid, s, attempts, k + 1)
  {
  }

  lemma OneMoreInRun(w: World, steps: seq<Timed>, pid: nat, s: Id, attempts: nat, k: nat, at: Time)
    requires Called(w, RunWorld(w, steps, attempts), pid, s, attempts, k) && k < attempts
    ensures Called(w, RunWorld(w, steps + [Timed(Move(pid, ToolError), at)], attempts), pid, s, attempts, k + 1)
  {
    OneMoreFailure(w, RunWorld(w, steps, attempts), pid, s, attempts, k, at);
    RunSnoc(w, steps, Timed(Move(pid, ToolError), at), attempts);
  }

  /** An executor whose tool keeps failing calls it for every attempt it has. */
  lemma {:induction false} FailuresCall(w: World, pid: nat, s: Id, attempts: nat, k: nat, at: Time)
    requires AboutToCall(w, pid, s) && k <= attempts
    ensures Called(w, RunWorld(w, Failures(pid, k, at), attempts), pid, s, attempts, k)
  {
    if k > 0 {
      FailuresCall(w, pid, s, attempts, k - 1, at);
      FailuresSnoc(pid, k - 1, at);
      OneMoreInRun(w, Failures(pid, k - 1, at), pid, s, attempts, k - 1, at);
    }
  }

  /** Both claimants run out of attempts. */
  function BothFail(pid: nat, recovery: nat, attempts: nat, at: Time): seq<Timed> {
    Failures(pid, attempts, at) + Failures(recovery, attempts, at)
  }

  lemma BothCallAll(w: World, pid: nat, recovery: nat, s: Id, attempts: nat, at: Time)
    requires AboutToCall(w, pid, s) && AboutToCall(w, recovery, s) && pid != recovery
    ensures var after := RunWorld(w, BothFail(pid, recovery, attempts, at), attempts);
            after.claims == w.claims && CallsOf(after.calls, s) == CallsOf(w.calls, s) + 2 * attempts
  {
    RunJoins(w, Failures(pid, attempts, at), Failures(recovery, attempts, at), attempts);
    FailuresCall(w, pid, s, attempts, attempts, at);
    var between := RunWorld(w, Failures(pid, attempts, at), attempts);
    FailuresCall(between, recovery, s, attempts, attempts, at);
  }

  /** The decision, and a sleep as long as the lease. */
  function ApproveAndSleep(input: ConsumeInput, s: Id, pid: nat, request: Id, at: Time): seq<Timed> {
    [Timed(DecideApproval(input, s, pid, request), at)] + Sleep(pid, at)
  }

  /** A run up to the stale moment that claims and calls nothing. */
  predicate GoesStale(w: World, first: seq<Timed>, pid: nat, op: Id, s: Id, attempts: nat, at: Time) {
    var after := RunWorld(w, first, attempts);
    && HoldsStaleLease(after, pid, op, s, at)
    && after.claims == w.claims && after.calls == w.calls && after.execs.Keys == w.execs.Keys + {pid}
  }

  /** An executor started on its operation's only work, and nothing claimed or called. */
  predicate Started(w: World, after: World, pid: nat, op: Id, s: Id, request: Id, audit: Id) {
    && JustApproved(after, pid, op, s, request, audit) && OnlyWork(after.db, s)
    && after.claims == w.claims && after.calls == w.calls && after.execs.Keys == w.execs.Keys + {pid}
  }

  lemma DecisionStarts(w: World, input: ConsumeInput, s: Id, pid: nat, request: Id, attempts: nat, at: Time)
    requires Grants(w, input, s, pid, at) && Untouched(w.db, w.db.approvals[input.approval].operation)
    ensures var approval := w.db.approvals[input.approval];
            Started(w, RunWorld(w, [Timed(DecideApproval(input, s, pid, request), at)], attempts), pid,
                    approval.operation, s, request, approval.audit)
  {
    var decide := Timed(DecideApproval(input, s, pid, request), at);
    RunSnoc(w, [], decide, attempts);
    assert [] + [decide] == [decide];
    DecisionStartsOne(w, input, s, pid, request, attempts, at);
    ApprovalStartsExecutor(w, input, s, pid, request, attempts, at);
    GrantedIsOnlyWork(w, input, s, pid, request, attempts, at);
  }

  lemma StartedGoesStale(w: World, first: seq<Timed>, pid: nat, op: Id, s: Id, request: Id, audit: Id, attempts: nat,
                         at: Time)
    requires Started(w, RunWorld(w, first, attempts), pid, op, s, request, audit)
    ensures GoesStale(w, first + Sleep(pid, at), pid, op, s, attempts, at + LEASE_MS)
  {
    SleepingExecutorGoesStale(RunWorld(w, first, attempts), pid, op, s, request, audit, attempts, at);
    RunJoins(w, first, Sleep(pid, at), attempts);
  }

  lemma ApprovedAndAsleep(w: World, input: ConsumeInput, s: Id, pid: nat, request: Id, attempts: nat, at: Time)
    requires Grants(w, input, s, pid, at) && Untouched(w.db, w.db.approvals[input.approval].operation)
    ensures GoesStale(w, ApproveAndSleep(input, s, pid, request, at), pid, w.db.approvals[input.approval].operation, s,
                      attempts, at + LEASE_MS)
  {
    var approval := w.db.approvals[input.approval];
    DecisionStarts(w, input, s, pid, request, attempts, at);
    StartedGoesStale(w, [Timed(DecideApproval(input, s, pid, request), at)], pid, approval.operation, s, request,
                     approval.audit, attempts, at);
  }

  /** The takeover, and failing calls on both sides. */
  function ClaimAndFail(pid: nat, recovery: nat, op: Id, s: Id, attempts: nat, at: Time): seq<Timed> {
    TakeoverRun(pid, recovery, op, s, at) + BothFail(pid, recovery, attempts, at)
  }

  lemma StaleIsClaimedTwice(w: World, pid: nat, recovery: nat, op: Id, s: Id, attempts: nat, at: Time)
    requires HoldsStaleLease(w, pid, op, s, at) && recovery !in w.execs
    ensures var after := RunWorld(w, ClaimAndFail(pid, recovery, op, s, attempts, at), attempts);
            && after.claims == w.claims + [ClaimRow(s, recovery), ClaimRow(s, pid)]
            && CallsOf(after.calls, s) == CallsOf(w.calls, s) + 2 * attempts
  {
    StaleClaimIsAccepted(w, pid, recovery, op, s, attempts, at);
    var taken := RunWorld(w, TakeoverRun(pid, recovery, op, s, at), attempts);
    BothCallAll(taken, pid, recovery, s, attempts, at);
    RunJoins(w, TakeoverRun(pid, recovery, op, s, at), BothFail(pid, recovery, attempts, at), attempts);
  }

  function TwiceRun(input: ConsumeInput, op: Id, s: Id, pid: nat, request: Id, recovery: nat, attempts: nat, at: Time)
    : seq<Timed>
  {
    ApproveAndSleep(input, s, pid, request, at) + ClaimAndFail(pid, recovery, op, s, attempts, at + LEASE_MS)
  }

  predicate ClaimedAndCalledTwice(w: World, after: World, pid: nat, recovery: nat, s: Id, attempts: nat) {
    && after.claims == w.claims + [ClaimRow(s, recovery), ClaimRow(s, pid)]
    && CallsOf(after.calls, s) == CallsOf(w.calls, s) + 2 * attempts
  }

  lemma StaleRunClaimsTwice(
      w: World, first: seq<Timed>, pid: nat, recovery: nat, op: Id, s: Id, attempts: nat, at: Time)
    requires GoesStale(w, first, pid, op, s, attempts, at) && recovery !in w.execs && recovery != pid
    ensures var more := ClaimAndFail(pid, recovery, op, s, attempts, at);
            ClaimedAndCalledTwice(w, RunWorld(w, first + more, attempts), pid, recovery, s, attempts)
  {
    StaleIsClaimedTwice(RunWorld(w, first, attempts), pid, recovery, op, s, attempts, at);
    RunJoins(w, first, ClaimAndFail(pid, recovery, op, s, attempts, at), attempts);
  }

  lemma PendingIsUntouched(registry: Registry, steps: seq<Timed>, attempts: nat, a: Id)
    requires WorkNotLost.SubmittedOnceRun(steps)
    requires var db := RunWorld(Start(registry), steps, attempts).db;
             a in db.approvals && db.approvals[a].status == Pending
    ensures var db := RunWorld(Start(registry), steps, attempts).db; Untouched(db, db.approvals[a].operation)
  {
    var w := RunWorld(Start(registry), steps, attempts);
    WorkNotLost.AlwaysKept(registry, steps, attempts);
    ExecutionRuns.WorldsKeepTheLedger(registry, steps, attempts);
    forall t | t in w.db.syscalls ensures w.db.syscalls[t].operation != w.db.approvals[a].operation {
      WorkNotLost.PendingHasNoSyscall(w.db, t);
    }
  }

  /** After any run in which each operation is submitted by one handler, every approval that goes through on an
      operation nobody leases can be claimed twice and its tool called twice as often as configured. */
  lemma EveryApprovalCanBeClaimedTwice(registry: Registry, steps: seq<Timed>, input: ConsumeInput, s: Id, pid: nat,
                                       request: Id, recovery: nat, attempts: nat, at: Time)
    requires WorkNotLost.SubmittedOnceRun(steps)
    requires var w := RunWorld(Start(registry), steps, attempts);
             Grants(w, input, s, pid, at) && recovery !in w.execs && recovery != pid
    ensures var w := RunWorld(Start(registry), steps, attempts);
            var op := w.db.approvals[input.approval].operation;
            var more := TwiceRun(input, op, s, pid, request, recovery, attempts, at);
            && ClaimedAndCalledTwice(w, RunWorld(Start(registry), steps + more, attempts), pid, recovery, s, attempts)
            && Offers(RunWorld(w, ApproveAndSleep(input, s, pid, request, at), attempts).db, op, [s])
  {
    var w := RunWorld(Start(registry), steps, attempts);
    var op := w.db.approvals[input.approval].operation;
    var first := ApproveAndSleep(input, s, pid, request, at);
    PendingIsUntouched(registry, steps, attempts, input.approval);
    ApprovedAndAsleep(w, input, s, pid, request, attempts, at);
    StaleRunClaimsTwice(w, first, pid, recovery, op, s, attempts, at + LEASE_MS);
    OnlyWorkIsOffered(RunWorld(w, first, attempts).db, s);
    RunJoins(Start(registry), steps, TwiceRun(input, op, s, pid, request, recovery, attempts, at), attempts);
  }

  // ----- One run from the start -----

  lemma SubmitsOnce(x: Submission)
    ensures WorkNotLost.SubmittedOnceRun(SubmitRun(x))
  {
  }

  /** From a migrated database: a request is submitted and approved, its executor sleeps as long as its lease, and in
      the end its one syscall has two claims and its tool was called twice as often as configured. */
  lemma OneRunClaimsTwice(registry: Registry, x: Submission, s: Id, request: Id, attempts: nat, at: Time)
    requires Bootstrapped(registry, x.action)
    ensures var steps := SubmitRun(x) + TwiceRun(Approving(x), x.op, s, 0, request, 1, attempts, at);
            var w := RunWorld(Start(registry), steps, attempts);
            w.claims == [ClaimRow(s, 1), ClaimRow(s, 0)] && CallsOf(w.calls, s) == 2 * attempts
  {
    Submitted(registry, x, attempts);
    SubmittedIsGranted(registry, x, s, attempts, at);
    SubmitsOnce(x);
    EveryApprovalCanBeClaimedTwice(registry, SubmitRun(x), Approving(x), s, 0, request, 1, attempts, at);
  }
}
