/** Over every interleaving: who claims a syscall, and how often its tool is called. */
module ExecutionSafety {
  import opened Prelude
  import opened ActionSchemas
  import opened Database
  import opened Execution
  import OperationLeases

  // ----- Facts that need no discipline -----

  ghost function Claimed(claims: seq<ClaimRow>): set<Id> { set c | c in claims :: c.syscall }

  lemma ClaimedSnoc(claims: seq<ClaimRow>, row: ClaimRow)
    ensures Claimed(claims + [row]) == Claimed(claims) + {row.syscall}
  {
    assert forall c :: c in claims + [row] <==> c in claims || c == row;
    forall s | s in Claimed(claims) + {row.syscall} ensures s in Claimed(claims + [row]) {
      if s == row.syscall {
        assert row in claims + [row];
      }
    }
  }

  /** A syscall has been claimed exactly when it has left `permitted`. */
  ghost predicate ClaimsMatch(syscalls: map<Id, Syscall>, claims: seq<ClaimRow>) {
    forall s :: s in Claimed(claims) <==> s in syscalls && syscalls[s].status != Permitted
  }

  predicate OwnsIds(syscalls: map<Id, Syscall>, op: Id, ids: seq<Id>) {
    forall i | 0 <= i < |ids| :: ids[i] in syscalls && syscalls[ids[i]].operation == op
  }

  ghost predicate ReplySound(syscalls: map<Id, Syscall>, reply: Reply) {
    reply.Decision? ==> OwnsIds(syscalls, reply.operation, reply.syscalls)
  }

  ghost predicate RepliesSound(db: Db) {
    forall k | k in db.replies :: ReplySound(db.syscalls, db.replies[k])
  }

  ghost predicate ExecSound(syscalls: map<Id, Syscall>, claims: seq<ClaimRow>, pid: nat, e: Exec) {
    && HasCurrent(e) && OwnsIds(syscalls, e.op, e.ids)
    && (PastClaim(e.pc) ==> ClaimRow(e.ids[e.next], pid) in claims)
  }

  ghost predicate Sound(w: World) {
    && RepliesSound(w.db)
    && ClaimsMatch(w.db.syscalls, w.claims)
    && forall pid | pid in w.execs :: ExecSound(w.db.syscalls, w.claims, pid, w.execs[pid])
  }

  /** `after` differs from `w` in nothing that `Sound` reads except the executor `pid`. */
  predicate OnlyExec(w: World, after: World, pid: nat) {
    && after.db.syscalls == w.db.syscalls && after.db.replies == w.db.replies && after.claims == w.claims
    && pid in w.execs
    && (after.execs == w.execs - {pid} || (pid in after.execs && after.execs == w.execs[pid := after.execs[pid]]))
  }

  lemma OnlyExecKeepsSound(w: World, after: World, pid: nat)
    requires Sound(w) && OnlyExec(w, after, pid)
    requires pid in after.execs ==> ExecSound(w.db.syscalls, w.claims, pid, after.execs[pid])
    ensures Sound(after)
  {
  }

  lemma AcquireOnlyExec(w: World, pid: nat, at: Time)
    requires pid in w.execs && w.execs[pid].pc == Acquire
    ensures var after := AcquireStep(w, pid, at);
            && OnlyExec(w, after, pid)
            && (pid in after.execs ==>
                  && after.execs[pid].pc == Scan && after.execs[pid].ids == w.execs[pid].ids
                  && after.execs[pid].op == w.execs[pid].op)
  {
  }

  lemma ScanKeepsSound(w: World, pid: nat)
    requires Sound(w) && pid in w.execs && w.execs[pid].pc == Scan
    ensures Sound(ScanStep(w, pid))
  {
    OnlyExecKeepsSound(w, ScanStep(w, pid), pid);
  }

  lemma ToolKeepsSound(w: World, pid: nat, outcome: ToolOutcome, attempts: nat)
    requires Sound(w) && pid in w.execs && w.execs[pid].pc.CallTool?
    ensures Sound(ToolStep(w, pid, outcome, attempts))
  {
    OnlyExecKeepsSound(w, ToolStep(w, pid, outcome, attempts), pid);
  }

  lemma NoteKeepsSound(w: World, pid: nat)
    requires Sound(w) && pid in w.execs
    requires w.execs[pid].pc == NoteExecuted || w.execs[pid].pc == NoteFailed || w.execs[pid].pc == NoteCompleted
    ensures Sound(NoteStep(w, pid))
  {
    OnlyExecKeepsSound(w, NoteStep(w, pid), pid);
  }

  lemma FailOperationKeepsSound(w: World, pid: nat, at: Time)
    requires Sound(w) && pid in w.execs && w.execs[pid].pc == FailOperation
    ensures Sound(FailOperationStep(w, pid, at))
  {
    OnlyExecKeepsSound(w, FailOperationStep(w, pid, at), pid);
  }

  lemma CompleteKeepsSound(w: World, pid: nat, at: Time)
    requires Sound(w) && pid in w.execs && w.execs[pid].pc == Complete
    ensures Sound(CompleteStep(w, pid, at))
  {
    OnlyExecKeepsSound(w, CompleteStep(w, pid, at), pid);
  }

  lemma ReleaseKeepsSound(w: World, pid: nat)
    requires Sound(w) && pid in w.execs
    ensures Sound(ReleaseStep(w, pid))
  {
    OnlyExecKeepsSound(w, ReleaseStep(w, pid), pid);
  }

  predicate SameOwners(syscalls: map<Id, Syscall>, after: map<Id, Syscall>) {
    forall s | s in syscalls :: s in after && after[s].operation == syscalls[s].operation
  }

  /** Replies and executors stay sound while syscalls keep their operations and claims only grow. */
  lemma GrowthKeepsSound(w: World, after: World)
    requires Sound(w) && SameOwners(w.db.syscalls, after.db.syscalls)
    requires forall c | c in w.claims :: c in after.claims
    requires after.db.replies == w.db.replies
    ensures RepliesSound(after.db)
    ensures forall pid | pid in w.execs :: ExecSound(after.db.syscalls, after.claims, pid, w.execs[pid])
  {
    forall k | k in after.db.replies ensures ReplySound(after.db.syscalls, after.db.replies[k]) {
      assert ReplySound(w.db.syscalls, w.db.replies[k]);
    }
    forall pid | pid in w.execs ensures ExecSound(after.db.syscalls, after.claims, pid, w.execs[pid]) {
      assert ExecSound(w.db.syscalls, w.claims, pid, w.execs[pid]);
    }
  }

  lemma ClaimWrites(w: World, pid: nat)
    requires pid in w.execs && w.execs[pid].next < |w.execs[pid].ids|
    ensures var (e, after) := (w.execs[pid], ClaimStep(w, pid));
            var s := e.ids[e.next];
            if s in w.db.syscalls && (w.db.syscalls[s].status == Permitted || w.db.syscalls[s].status == Executing) then
              && after.db == w.db.(syscalls := w.db.syscalls[s := after.db.syscalls[s]])
              && after.db.syscalls[s].status == Executing
              && after.db.syscalls[s].operation == w.db.syscalls[s].operation
              && after == World(after.db, w.execs[pid := e.(pc := CallTool(1))], w.claims + [ClaimRow(s, pid)],
                                w.calls, w.stages)
            else after == Put(w, pid, e.(pc := Release))
  {
  }

  lemma ClaimKeepsSound(w: World, pid: nat)
    requires Sound(w) && pid in w.execs && w.execs[pid].pc == Claim
    ensures Sound(ClaimStep(w, pid))
  {
    var e := w.execs[pid];
    var s := e.ids[e.next];
    var after := ClaimStep(w, pid);
    ClaimWrites(w, pid);
    if after.claims == w.claims {
      OnlyExecKeepsSound(w, after, pid);
    } else {
      ClaimedSnoc(w.claims, ClaimRow(s, pid));
      GrowthKeepsSound(w, after);
      assert ClaimRow(s, pid) in after.claims;
    }
  }

  /** Writing the outcome of the current syscall. */
  lemma OutcomeKeepsSound(w: World, pid: nat, status: SyscallStatus, resultRef: Option<string>, pc: Pc)
    requires Sound(w) && pid in w.execs && PastClaim(w.execs[pid].pc) && status != Permitted && PastClaim(pc)
    ensures var e := w.execs[pid];
            var (db, r) := UpdateSyscallStatus(w.db, e.ids[e.next], status, resultRef);
            Sound(Put(w.(db := db), pid, Then(e, r.Ok?, pc)))
  {
    var e := w.execs[pid];
    var s := e.ids[e.next];
    var (db, r) := UpdateSyscallStatus(w.db, s, status, resultRef);
    var after := Put(w.(db := db), pid, Then(e, r.Ok?, pc));
    assert ClaimRow(s, pid) in w.claims && s in Claimed(w.claims);
    assert SameOwners(w.db.syscalls, db.syscalls);
    GrowthKeepsSound(w, after);
    assert ClaimsMatch(db.syscalls, w.claims);
  }

  lemma MoveKeepsSound(w: World, pid: nat, outcome: ToolOutcome, attempts: nat, at: Time)
    requires Sound(w) && pid in w.execs
    ensures Sound(MoveStep(w, pid, outcome, attempts, at))
  {
    match w.execs[pid].pc
    case Acquire =>
      AcquireOnlyExec(w, pid, at);
      OnlyExecKeepsSound(w, AcquireStep(w, pid, at), pid);
    case Scan => ScanKeepsSound(w, pid);
    case Claim => ClaimKeepsSound(w, pid);
    case CallTool(_) => ToolKeepsSound(w, pid, outcome, attempts);
    case Settle => OutcomeKeepsSound(w, pid, Executed, Some("event:syscall_result"), NoteExecuted);
    case RecordFailure => OutcomeKeepsSound(w, pid, SyscallFailed, None, FailOperation);
    case NoteExecuted => NoteKeepsSound(w, pid);
    case NoteFailed => NoteKeepsSound(w, pid);
    case NoteCompleted => NoteKeepsSound(w, pid);
    case FailOperation => FailOperationKeepsSound(w, pid, at);
    case Inspect => OnlyExecKeepsSound(w, InspectStep(w, pid), pid);
    case ListSyscalls => OnlyExecKeepsSound(w, ListStep(w, pid), pid);
    case Complete => CompleteKeepsSound(w, pid, at);
    case Release => ReleaseKeepsSound(w, pid);
  }

  // ----- Calls from elsewhere -----

  /** Syscalls stay, leases stay, and no decision is stored. */
  predicate Harmless(db: Db, after: Db) {
    && after.syscalls == db.syscalls && after.leases == db.leases
    && forall k | k in after.replies :: (k in db.replies && after.replies[k] == db.replies[k]) || !after.replies[k].Decision?
  }

  lemma OperationCallIsHarmless(db: Db, call: OperationCall, at: Time)
    ensures Harmless(db, ApplyOperation(db, call, at))
  {
    match call
    case CallCreateOperation(origin, op, audit, key) => CreateIsHarmless(db, origin, op, audit, key, at);
    case CallUpdateOperationState(op, state, reason, audit) =>
      assert Harmless(db, UpdateOperationState(db, op, state, reason, audit, at).0);
    case CallCancelOperation(op, reason, key) => CancelIsHarmless(db, op, reason, key, at);
    case CallCreateReplay(input, op, audit) => ReplayIsHarmless(db, input, op, audit, at);
    case CallAppendTimelineItem(audit, item) => assert Harmless(db, AppendTimelineItem(db, audit, item).0);
  }

  lemma CreateIsHarmless(db: Db, origin: Id, op: Id, audit: Id, key: Option<Id>, at: Time)
    ensures Harmless(db, CreateOperation(db, origin, op, audit, key, at).0)
  {
  }

  lemma CancelIsHarmless(db: Db, op: Id, reason: Reason, key: Option<Id>, at: Time)
    ensures Harmless(db, CancelOperation(db, op, reason, key, at).0)
  {
  }

  lemma ReplayIsHarmless(db: Db, input: ReplayInput, op: Id, audit: Id, at: Time)
    ensures Harmless(db, CreateReplay(db, input, op, audit, at).0)
  {
  }

  lemma StartIsHarmless(db: Db, approval: Id, challenge: Id, key: Option<Id>, at: Time)
    ensures Harmless(db, StartOobChallenge(db, approval, challenge, key, at).0)
  {
  }

  lemma VerifyIsHarmless(db: Db, approval: Id, challenge: Id, key: Option<Id>, at: Time)
    ensures Harmless(db, VerifyOobChallenge(db, approval, challenge, key, at).0)
  {
  }

  lemma ElsewhereIsHarmless(db: Db, call: Call, at: Time)
    requires FromElsewhere(call)
    ensures Harmless(db, Apply(db, call, at))
  {
    match call
    case OnOperation(c) => OperationCallIsHarmless(db, c, at);
    case OnApproval(CallCreateApprovalItem(id, op, mode, proposal, diff, audit)) =>
      assert Harmless(db, CreateApprovalItem(db, id, op, mode, proposal, diff, audit).0);
    case OnApproval(CallStartOobChallenge(approval, challenge, key)) => StartIsHarmless(db, approval, challenge, key, at);
    case OnApproval(CallVerifyOobChallenge(approval, challenge, key)) => VerifyIsHarmless(db, approval, challenge, key, at);
    case OnRegistry(c) => RegistryCallOnlyRegistry(db, c);
  }

  lemma HarmlessKeepsSound(w: World, db: Db, stages: map<Id, Stage>)
    requires Sound(w) && Harmless(w.db, db)
    ensures Sound(w.(db := db, stages := stages))
  {
    forall k | k in db.replies ensures ReplySound(db.syscalls, db.replies[k]) {
      assert k in w.db.replies ==> ReplySound(w.db.syscalls, w.db.replies[k]);
    }
  }

  // ----- Decisions -----

  /** A decision leaves syscalls alone or adds one permitted syscall of the decided operation. */
  ghost predicate AddsPermitted(db: Db, after: Db) {
    && after.leases == db.leases
    && (after.syscalls == db.syscalls
        || exists s :: s !in db.syscalls && s in after.syscalls && after.syscalls == db.syscalls[s := after.syscalls[s]]
                       && after.syscalls[s].status == Permitted)
  }

  lemma DecidedAdds(db: Db, input: ConsumeInput, syscall: Id, at: Time)
    requires ConsumeProblem(db, input, syscall, at).None?
    ensures AddsPermitted(db, DecidedDb(db, input, syscall, at))
    ensures ReplySound(DecidedDb(db, input, syscall, at).syscalls, DecisionReply(db, input, syscall))
  {
    var after := DecidedDb(db, input, syscall, at);
    if input.decision == Approve {
      assert syscall !in db.syscalls && after.syscalls[syscall].status == Permitted;
    }
  }

  lemma DecidedReplies(db: Db, input: ConsumeInput, syscall: Id, at: Time)
    requires ConsumeProblem(db, input, syscall, at).None?
    ensures DecidedDb(db, input, syscall, at).replies ==
            Remember(db.replies, Decide(input.approval), input.key, DecisionReply(db, input, syscall))
  {
  }

  lemma DecisionIsSound(db: Db, input: ConsumeInput, syscall: Id, at: Time)
    requires RepliesSound(db)
    ensures var (after, r) := ConsumeApproval(db, input, syscall, at);
            && AddsPermitted(db, after) && RepliesSound(after)
            && (r.Ok? ==> ReplySound(after.syscalls, r.value))
  {
    var earlier := Earlier(db, Decide(input.approval), input.key);
    if earlier.Some? {
      assert ReplySound(db.syscalls, earlier.value);
    } else if ConsumeProblem(db, input, syscall, at).None? {
      var after := DecidedDb(db, input, syscall, at);
      DecidedAdds(db, input, syscall, at);
      DecidedReplies(db, input, syscall, at);
      RememberedIsSound(db, after, Decide(input.approval), input.key, DecisionReply(db, input, syscall));
    }
  }

  lemma RememberedIsSound(db: Db, after: Db, scope: Scope, key: Option<Id>, reply: Reply)
    requires RepliesSound(db) && AddsPermitted(db, after) && ReplySound(after.syscalls, reply)
    requires after.replies == Remember(db.replies, scope, key, reply)
    ensures RepliesSound(after)
  {
    forall k | k in after.replies ensures ReplySound(after.syscalls, after.replies[k]) {
      assert k in db.replies ==> ReplySound(db.syscalls, db.replies[k]);
    }
  }

  lemma AddsPermittedKeepsSound(w: World, db: Db)
    requires Sound(w) && AddsPermitted(w.db, db) && RepliesSound(db)
    ensures Sound(w.(db := db))
  {
    forall pid | pid in w.execs ensures ExecSound(db.syscalls, w.claims, pid, w.execs[pid]) {
      assert ExecSound(w.db.syscalls, w.claims, pid, w.execs[pid]);
    }
  }

  lemma DecideKeepsSound(w: World, input: ConsumeInput, syscall: Id, pid: nat, request: Id, at: Time)
    requires Sound(w) && pid !in w.execs
    ensures Sound(DecideStep(w, input, syscall, pid, request, at))
  {
    DecisionIsSound(w.db, input, syscall, at);
    AddsPermittedKeepsSound(w, ConsumeApproval(w.db, input, syscall, at).0);
  }

  lemma StepKeepsSound(w: World, step: Step, attempts: nat, at: Time)
    requires Sound(w)
    ensures Sound(Next(w, step, attempts, at))
  {
    if Enabled(w, step) {
      match step
      case Elsewhere(call) =>
        ElsewhereIsHarmless(w.db, call, at);
        HarmlessKeepsSound(w, Apply(w.db, call, at), w.stages);
      case DecideApproval(input, syscall, pid, request) => DecideKeepsSound(w, input, syscall, pid, request, at);
      case Recover(pid, op, ids) =>
      case Move(pid, outcome) => MoveKeepsSound(w, pid, outcome, attempts, at);
      case Crash(pid) => OnlyExecKeepsSound(w, Drop(w, pid), pid);
      case SubmitOpen(origin, op, audit, key) =>
        CreateIsHarmless(w.db, origin, op, audit, key, at);
        HarmlessKeepsSound(w, CreateOperation(w.db, origin, op, audit, key, at).0, OpenStep(w, origin, op, audit, key, at).stages);
      case SubmitPropose(op, approval, mode, proposal, diff) =>
        var after := ProposeStep(w, op, approval, mode, proposal, diff);
        HarmlessKeepsSound(w, after.db, after.stages);
      case SubmitFinish(op, draft, why) =>
        var after := FinishStep(w, op, draft, why, at);
        HarmlessKeepsSound(w, after.db, after.stages);
    }
  }

  lemma {:induction false} AlwaysSound(registry: Registry, steps: seq<Timed>, attempts: nat)
    ensures Sound(RunWorld(Start(registry), steps, attempts))
  {
    if steps != [] {
      var last := steps[|steps| - 1];
      AlwaysSound(registry, steps[..|steps| - 1], attempts);
      StepKeepsSound(RunWorld(Start(registry), steps[..|steps| - 1], attempts), last.step, attempts, last.at);
    }
  }

  // ----- Facts that need the discipline -----

  /** A new executor takes a runner name no live executor has, and a claim is written before the writer's lease ends. */
  predicate Disciplined(w: World, step: Step, at: Time) {
    match step
    case DecideApproval(_, _, _, request) => RunnerFree(w, Executor(request))
    case Recover(_, op, _) => RunnerFree(w, RecoveryOf(op))
    case Move(pid, _) => pid in w.execs && w.execs[pid].pc == Claim ==> at < w.execs[pid].until
    case _ => true
  }

  predicate RunnerFree(w: World, runner: Runner) { forall pid | pid in w.execs :: w.execs[pid].runner != runner }

  ghost predicate DisciplinedRun(w: World, steps: seq<Timed>, attempts: nat) {
    forall k | 0 <= k < |steps| ::
      && Disciplined(RunWorld(w, steps[..k], attempts), steps[k].step, steps[k].at)
      && (k > 0 ==> steps[k - 1].at <= steps[k].at)
  }

  ghost predicate ClaimedOnce(claims: seq<ClaimRow>) {
    forall i, j | 0 <= i < j < |claims| :: claims[i].syscall != claims[j].syscall
  }

  ghost predicate CallsBounded(claims: seq<ClaimRow>, calls: map<Id, nat>, attempts: nat) {
    forall s :: CallsOf(calls, s) <= attempts && (s !in Claimed(claims) ==> CallsOf(calls, s) == 0)
  }

  predicate DistinctRunners(execs: map<nat, Exec>) {
    forall p, q | p in execs && q in execs && execs[p].runner == execs[q].runner :: p == q
  }

  /** An unexpired grant is the lease row; under it, what was read as permitted still is; the current syscall's tool
      was called once per finished attempt. */
  predicate ExecExclusive(syscalls: map<Id, Syscall>, leases: map<Id, Lease>, calls: map<Id, nat>, e: Exec,
                          attempts: nat, at: Time)
    requires HasCurrent(e)
  {
    && (e.pc != Acquire && at < e.until ==> e.op in leases && leases[e.op] == Lease(e.runner, e.until, e.epoch))
    && (e.pc == Claim && at < e.until ==>
          e.ids[e.next] in syscalls && syscalls[e.ids[e.next]].status == Permitted)
    && (e.pc.CallTool? ==> 1 <= e.pc.attempt <= attempts && CallsOf(calls, e.ids[e.next]) == e.pc.attempt - 1)
  }

  ghost predicate ExecsExclusive(w: World, attempts: nat, at: Time) {
    forall pid | pid in w.execs ::
      HasCurrent(w.execs[pid]) &&
      ExecExclusive(w.db.syscalls, w.db.leases, w.calls, w.execs[pid], attempts, at)
  }

  ghost predicate Exclusive(w: World, attempts: nat, at: Time) {
    && ClaimedOnce(w.claims) && CallsBounded(w.claims, w.calls, attempts) && DistinctRunners(w.execs)
    && ExecsExclusive(w, attempts, at)
  }

  /** Nothing that `Exclusive` reads changed except the executor `pid`, which keeps its runner. */
  predicate OnlyExecMoves(w: World, after: World, pid: nat) {
    && after.db.syscalls == w.db.syscalls && after.db.leases == w.db.leases
    && after.claims == w.claims && after.calls == w.calls
    && pid in w.execs
    && (after.execs == w.execs - {pid}
        || (pid in after.execs && after.execs == w.execs[pid := after.execs[pid]]
            && after.execs[pid].runner == w.execs[pid].runner))
  }

  lemma OnlyExecMovesKeeps(w: World, after: World, pid: nat, attempts: nat, at: Time)
    requires Exclusive(w, attempts, at) && OnlyExecMoves(w, after, pid)
    requires pid in after.execs ==>
               HasCurrent(after.execs[pid]) &&
               ExecExclusive(w.db.syscalls, w.db.leases, w.calls, after.execs[pid], attempts, at)
    ensures Exclusive(after, attempts, at)
  {
  }

  /** What reading the next syscall can do to the executor. */
  lemma ScanReads(w: World, pid: nat)
    requires pid in w.execs && w.execs[pid].pc == Scan
    ensures var (e, after) := (w.execs[pid], ScanStep(w, pid));
            && pid in after.execs && OnlyExecMoves(w, after, pid)
            && (after.execs[pid] == e.(pc := after.execs[pid].pc) || after.execs[pid] == e.(next := e.next + 1))
            && !PastClaim(after.execs[pid].pc) && !after.execs[pid].pc.Acquire?
            && (after.execs[pid].pc.Claim? ==>
                  && e.next < |e.ids| && e.ids[e.next] in w.db.syscalls
                  && w.db.syscalls[e.ids[e.next]].status == Permitted)
  {
  }

  lemma ScanMoves(w: World, pid: nat, attempts: nat, at: Time)
    requires Sound(w) && Exclusive(w, attempts, at) && pid in w.execs && w.execs[pid].pc == Scan
    ensures Exclusive(ScanStep(w, pid), attempts, at)
  {
    ScanReads(w, pid);
    assert ExecExclusive(w.db.syscalls, w.db.leases, w.calls, w.execs[pid], attempts, at);
    OnlyExecMovesKeeps(w, ScanStep(w, pid), pid, attempts, at);
  }

  lemma NoteMoves(w: World, pid: nat, attempts: nat, at: Time)
    requires Sound(w) && Exclusive(w, attempts, at) && pid in w.execs
    requires w.execs[pid].pc == NoteExecuted || w.execs[pid].pc == NoteFailed || w.execs[pid].pc == NoteCompleted
    ensures Exclusive(NoteStep(w, pid), attempts, at)
  {
    OnlyExecMovesKeeps(w, NoteStep(w, pid), pid, attempts, at);
  }

  lemma FailOperationMoves(w: World, pid: nat, attempts: nat, at: Time)
    requires Sound(w) && Exclusive(w, attempts, at) && pid in w.execs && w.execs[pid].pc == FailOperation
    ensures Exclusive(FailOperationStep(w, pid, at), attempts, at)
  {
    OnlyExecMovesKeeps(w, FailOperationStep(w, pid, at), pid, attempts, at);
  }

  lemma CompleteMoves(w: World, pid: nat, attempts: nat, at: Time)
    requires Sound(w) && Exclusive(w, attempts, at) && pid in w.execs && w.execs[pid].pc == Complete
    ensures Exclusive(CompleteStep(w, pid, at), attempts, at)
  {
    OnlyExecMovesKeeps(w, CompleteStep(w, pid, at), pid, attempts, at);
  }

  /** Taking the lease cannot take it from a live executor whose grant has not expired. */
  lemma AcquireMoves(w: World, pid: nat, attempts: nat, at: Time)
    requires Sound(w) && Exclusive(w, attempts, at) && pid in w.execs && w.execs[pid].pc == Acquire
    ensures Exclusive(AcquireStep(w, pid, at), attempts, at)
  {
    var e := w.execs[pid];
    var after := AcquireStep(w, pid, at);
    if pid !in after.execs {
      assert after.db == w.db;
      OnlyExecMovesKeeps(w, after, pid, attempts, at);
    } else {
      var row := Lease(e.runner, at + LEASE_MS, after.execs[pid].epoch);
      AcquireTakes(w, pid, at);
      TakenLeaseIsFree(w, pid, row, attempts, at);
      assert after == Put(w.(db := w.db.(leases := w.db.leases[e.op := row])), pid,
                          e.(pc := Scan, epoch := row.epoch, until := row.until));
    }
  }

  lemma AcquireTakes(w: World, pid: nat, at: Time)
    requires pid in w.execs && pid in AcquireStep(w, pid, at).execs
    ensures var (e, after) := (w.execs[pid], AcquireStep(w, pid, at));
            && after.db == w.db.(leases := w.db.leases[e.op := Lease(e.runner, at + LEASE_MS, after.execs[pid].epoch)])
            && after == Put(w.(db := after.db), pid,
                            e.(pc := Scan, epoch := after.execs[pid].epoch, until := at + LEASE_MS))
            && (e.op in w.db.leases ==> w.db.leases[e.op].owner == e.runner || w.db.leases[e.op].until <= at)
  {
    var e := w.execs[pid];
    var (db, r) := TryAcquireLease(w.db, e.op, e.runner, LEASE_MS, at);
    assert r.Ok? && r.value.acquired;
    OperationLeases.AcquireWrites(w.db, e.op, e.runner, LEASE_MS, at);
  }

  lemma TakenLeaseIsFree(w: World, pid: nat, row: Lease, attempts: nat, at: Time)
    requires Exclusive(w, attempts, at) && pid in w.execs
    requires var e := w.execs[pid];
             && row.owner == e.runner
             && (e.op in w.db.leases ==> w.db.leases[e.op].owner == e.runner || w.db.leases[e.op].until <= at)
    ensures var e := w.execs[pid];
            Exclusive(Put(w.(db := w.db.(leases := w.db.leases[e.op := row])), pid,
                          e.(pc := Scan, epoch := row.epoch, until := row.until)), attempts, at)
  {
    var e := w.execs[pid];
    var leases := w.db.leases[e.op := row];
    forall q | q in w.execs && q != pid
      ensures ExecExclusive(w.db.syscalls, leases, w.calls, w.execs[q], attempts, at)
    {
      assert ExecExclusive(w.db.syscalls, w.db.leases, w.calls, w.execs[q], attempts, at);
      assert w.execs[q].runner != e.runner;
    }
  }

  lemma ReleaseMoves(w: World, pid: nat, attempts: nat, at: Time)
    requires Exclusive(w, attempts, at) && pid in w.execs && w.execs[pid].pc == Release
    ensures Exclusive(ReleaseStep(w, pid), attempts, at)
  {
    var e := w.execs[pid];
    var leases := ReleaseLease(w.db, e.op, e.runner, e.epoch).0.leases;
    forall q | q in w.execs && q != pid
      ensures ExecExclusive(w.db.syscalls, leases, w.calls, w.execs[q], attempts, at)
    {
      assert ExecExclusive(w.db.syscalls, w.db.leases, w.calls, w.execs[q], attempts, at);
      assert w.execs[q].runner != e.runner;
    }
  }

  lemma SyscallUpdateWrites(db: Db, s: Id, status: SyscallStatus, resultRef: Option<string>)
    ensures var (after, r) := UpdateSyscallStatus(db, s, status, resultRef);
            if r.Ok? then
              && s in db.syscalls && s in after.syscalls && after.syscalls[s].status == status
              && after == db.(syscalls := db.syscalls[s := after.syscalls[s]])
            else after == db
  {
  }

  /** The lease keeps two executors from claiming one syscall; the second would hold the same row. */
  lemma ClaimMoves(w: World, pid: nat, attempts: nat, at: Time)
    requires Sound(w) && Exclusive(w, attempts, at) && attempts >= 1
    requires pid in w.execs && w.execs[pid].pc == Claim && at < w.execs[pid].until
    ensures Exclusive(ClaimStep(w, pid), attempts, at)
  {
    var e := w.execs[pid];
    var s := e.ids[e.next];
    var after := ClaimStep(w, pid);
    ClaimWrites(w, pid);
    assert s !in Claimed(w.claims);
    ClaimedSnoc(w.claims, ClaimRow(s, pid));
    ClaimIsFirst(w.claims, ClaimRow(s, pid));
    forall q | q in w.execs && q != pid
      ensures ExecExclusive(after.db.syscalls, w.db.leases, w.calls, w.execs[q], attempts, at)
    {
      OthersUndisturbedByClaim(w, pid, q, after.db.syscalls, attempts, at);
    }
  }

  lemma ClaimIsFirst(claims: seq<ClaimRow>, row: ClaimRow)
    requires ClaimedOnce(claims) && row.syscall !in Claimed(claims)
    ensures ClaimedOnce(claims + [row])
  {
    var after := claims + [row];
    forall i, j | 0 <= i < j < |after| ensures after[i].syscall != after[j].syscall {
      assert after[i] in claims;
    }
  }

  lemma OthersUndisturbedByClaim(w: World, pid: nat, q: nat, syscalls: map<Id, Syscall>, attempts: nat, at: Time)
    requires Sound(w) && Exclusive(w, attempts, at) && pid in w.execs && q in w.execs && q != pid
    requires w.execs[pid].pc == Claim && at < w.execs[pid].until
    requires var s := w.execs[pid].ids[w.execs[pid].next];
             s in w.db.syscalls && s in syscalls && syscalls == w.db.syscalls[s := syscalls[s]]
    ensures ExecExclusive(syscalls, w.db.leases, w.calls, w.execs[q], attempts, at)
  {
    var e, f := w.execs[pid], w.execs[q];
    var s := e.ids[e.next];
    assert ExecExclusive(w.db.syscalls, w.db.leases, w.calls, e, attempts, at);
    assert ExecExclusive(w.db.syscalls, w.db.leases, w.calls, f, attempts, at);
    assert e.runner != f.runner;
    if f.pc == Claim && at < f.until {
      assert OwnsIds(w.db.syscalls, e.op, e.ids) && OwnsIds(w.db.syscalls, f.op, f.ids);
      assert f.ids[f.next] == s ==> e.op == f.op;
    }
  }

  /** Writing the outcome of a claimed syscall leaves the other executors as they are. */
  lemma OthersUndisturbedByOutcome(w: World, q: nat, s: Id, row: Syscall, attempts: nat, at: Time)
    requires Exclusive(w, attempts, at) && q in w.execs
    requires s in w.db.syscalls && w.db.syscalls[s].status != Permitted
    ensures ExecExclusive(w.db.syscalls[s := row], w.db.leases, w.calls, w.execs[q], attempts, at)
  {
    assert ExecExclusive(w.db.syscalls, w.db.leases, w.calls, w.execs[q], attempts, at);
  }

  lemma OutcomeMoves(w: World, pid: nat, status: SyscallStatus, resultRef: Option<string>, pc: Pc, attempts: nat, at: Time)
    requires Sound(w) && Exclusive(w, attempts, at) && pid in w.execs && PastClaim(w.execs[pid].pc)
    requires status != Permitted && PastClaim(pc) && !pc.CallTool?
    ensures var e := w.execs[pid];
            var (db, r) := UpdateSyscallStatus(w.db, e.ids[e.next], status, resultRef);
            Exclusive(Put(w.(db := db), pid, Then(e, r.Ok?, pc)), attempts, at)
  {
    var e := w.execs[pid];
    var s := e.ids[e.next];
    var (db, r) := UpdateSyscallStatus(w.db, s, status, resultRef);
    SyscallUpdateWrites(w.db, s, status, resultRef);
    assert ClaimRow(s, pid) in w.claims && s in Claimed(w.claims);
    forall q | q in w.execs
      ensures ExecExclusive(db.syscalls, w.db.leases, w.calls, w.execs[q], attempts, at)
    {
      if r.Ok? {
        OthersUndisturbedByOutcome(w, q, s, db.syscalls[s], attempts, at);
      }
    }
  }

  lemma OneMoreCall(claims: seq<ClaimRow>, calls: map<Id, nat>, s: Id, attempts: nat)
    requires CallsBounded(claims, calls, attempts) && s in Claimed(claims) && CallsOf(calls, s) < attempts
    ensures CallsBounded(claims, calls[s := CallsOf(calls, s) + 1], attempts)
  {
    var after := calls[s := CallsOf(calls, s) + 1];
    forall x ensures CallsOf(after, x) <= attempts && (x !in Claimed(claims) ==> CallsOf(after, x) == 0) {
      assert CallsOf(after, x) == if x == s then CallsOf(calls, s) + 1 else CallsOf(calls, x);
    }
  }

  /** No other executor is calling the tool of a syscall this one has claimed. */
  lemma OthersUndisturbedByTool(w: World, pid: nat, q: nat, calls: map<Id, nat>, attempts: nat, at: Time)
    requires Sound(w) && Exclusive(w, attempts, at) && pid in w.execs && q in w.execs && q != pid
    requires w.execs[pid].pc.CallTool?
    requires forall x :: x != w.execs[pid].ids[w.execs[pid].next] ==> CallsOf(calls, x) == CallsOf(w.calls, x)
    ensures ExecExclusive(w.db.syscalls, w.db.leases, calls, w.execs[q], attempts, at)
  {
    var e, f := w.execs[pid], w.execs[q];
    assert ExecExclusive(w.db.syscalls, w.db.leases, w.calls, f, attempts, at);
    if f.pc.CallTool? && f.ids[f.next] == e.ids[e.next] {
      assert ExecSound(w.db.syscalls, w.claims, pid, e) && ExecSound(w.db.syscalls, w.claims, q, f);
      OneClaimant(w.claims, ClaimRow(e.ids[e.next], pid), ClaimRow(e.ids[e.next], q));
    }
  }

  lemma ToolMoves(w: World, pid: nat, outcome: ToolOutcome, attempts: nat, at: Time)
    requires Sound(w) && Exclusive(w, attempts, at) && pid in w.execs && w.execs[pid].pc.CallTool?
    ensures Exclusive(ToolStep(w, pid, outcome, attempts), attempts, at)
  {
    var e := w.execs[pid];
    var s := e.ids[e.next];
    var after := ToolStep(w, pid, outcome, attempts);
    assert ExecExclusive(w.db.syscalls, w.db.leases, w.calls, e, attempts, at);
    assert ExecSound(w.db.syscalls, w.claims, pid, e);
    OneMoreCall(w.claims, w.calls, s, attempts);
    forall q | q in w.execs && q != pid
      ensures ExecExclusive(w.db.syscalls, w.db.leases, after.calls, w.execs[q], attempts, at)
    {
      OthersUndisturbedByTool(w, pid, q, after.calls, attempts, at);
    }
  }

  lemma OneClaimant(claims: seq<ClaimRow>, a: ClaimRow, b: ClaimRow)
    requires ClaimedOnce(claims) && a in claims && b in claims && a.syscall == b.syscall
    ensures a == b
  {
    var i :| 0 <= i < |claims| && claims[i] == a;
    var j :| 0 <= j < |claims| && claims[j] == b;
  }

  lemma MoveKeepsExclusive(w: World, pid: nat, outcome: ToolOutcome, attempts: nat, at: Time)
    requires Sound(w) && Exclusive(w, attempts, at) && attempts >= 1 && pid in w.execs
    requires Disciplined(w, Move(pid, outcome), at)
    ensures Exclusive(MoveStep(w, pid, outcome, attempts, at), attempts, at)
  {
    match w.execs[pid].pc
    case Acquire => AcquireMoves(w, pid, attempts, at);
    case Scan => ScanMoves(w, pid, attempts, at);
    case Claim => ClaimMoves(w, pid, attempts, at);
    case CallTool(_) => ToolMoves(w, pid, outcome, attempts, at);
    case Settle => OutcomeMoves(w, pid, Executed, Some("event:syscall_result"), NoteExecuted, attempts, at);
    case RecordFailure => OutcomeMoves(w, pid, SyscallFailed, None, FailOperation, attempts, at);
    case NoteExecuted => NoteMoves(w, pid, attempts, at);
    case NoteFailed => NoteMoves(w, pid, attempts, at);
    case NoteCompleted => NoteMoves(w, pid, attempts, at);
    case FailOperation => FailOperationMoves(w, pid, attempts, at);
    case Inspect => OnlyExecMovesKeeps(w, InspectStep(w, pid), pid, attempts, at);
    case ListSyscalls => OnlyExecMovesKeeps(w, ListStep(w, pid), pid, attempts, at);
    case Complete => CompleteMoves(w, pid, attempts, at);
    case Release => ReleaseMoves(w, pid, attempts, at);
  }

  lemma LaterKeepsExclusive(w: World, attempts: nat, at: Time, later: Time)
    requires Exclusive(w, attempts, at) && at <= later
    ensures Exclusive(w, attempts, later)
  {
    forall pid | pid in w.execs
      ensures ExecExclusive(w.db.syscalls, w.db.leases, w.calls, w.execs[pid], attempts, later)
    {
      assert ExecExclusive(w.db.syscalls, w.db.leases, w.calls, w.execs[pid], attempts, at);
    }
  }

  lemma HarmlessKeepsExclusive(w: World, db: Db, stages: map<Id, Stage>, attempts: nat, at: Time)
    requires Exclusive(w, attempts, at) && Harmless(w.db, db)
    ensures Exclusive(w.(db := db, stages := stages), attempts, at)
  {
  }

  lemma DecideKeepsExclusive(w: World, input: ConsumeInput, syscall: Id, pid: nat, request: Id, attempts: nat, at: Time)
    requires Sound(w) && Exclusive(w, attempts, at) && pid !in w.execs && RunnerFree(w, Executor(request))
    ensures Exclusive(DecideStep(w, input, syscall, pid, request, at), attempts, at)
  {
    var db := ConsumeApproval(w.db, input, syscall, at).0;
    DecisionIsSound(w.db, input, syscall, at);
    forall q | q in w.execs
      ensures ExecExclusive(db.syscalls, db.leases, w.calls, w.execs[q], attempts, at)
    {
      assert ExecExclusive(w.db.syscalls, w.db.leases, w.calls, w.execs[q], attempts, at);
      assert ExecSound(w.db.syscalls, w.claims, q, w.execs[q]);
    }
  }

  lemma StepKeepsExclusive(w: World, step: Step, attempts: nat, at: Time)
    requires Sound(w) && Exclusive(w, attempts, at) && attempts >= 1 && Disciplined(w, step, at)
    ensures Exclusive(Next(w, step, attempts, at), attempts, at)
  {
    if Enabled(w, step) {
      match step
      case Elsewhere(call) =>
        ElsewhereIsHarmless(w.db, call, at);
        HarmlessKeepsExclusive(w, Apply(w.db, call, at), w.stages, attempts, at);
      case DecideApproval(input, syscall, pid, request) =>
        DecideKeepsExclusive(w, input, syscall, pid, request, attempts, at);
      case Recover(pid, op, ids) =>
      case Move(pid, outcome) => MoveKeepsExclusive(w, pid, outcome, attempts, at);
      case Crash(pid) => OnlyExecMovesKeeps(w, Drop(w, pid), pid, attempts, at);
      case SubmitOpen(origin, op, audit, key) =>
        CreateIsHarmless(w.db, origin, op, audit, key, at);
        var after := OpenStep(w, origin, op, audit, key, at);
        HarmlessKeepsExclusive(w, after.db, after.stages, attempts, at);
      case SubmitPropose(op, approval, mode, proposal, diff) =>
        var after := ProposeStep(w, op, approval, mode, proposal, diff);
        HarmlessKeepsExclusive(w, after.db, after.stages, attempts, at);
      case SubmitFinish(op, draft, why) =>
        var after := FinishStep(w, op, draft, why, at);
        HarmlessKeepsExclusive(w, after.db, after.stages, attempts, at);
    }
  }

  lemma {:induction false} AlwaysExclusive(registry: Registry, steps: seq<Timed>, attempts: nat, at: Time)
    requires attempts >= 1 && DisciplinedRun(Start(registry), steps, attempts)
    requires steps != [] ==> steps[|steps| - 1].at <= at
    ensures Exclusive(RunWorld(Start(registry), steps, attempts), attempts, at)
  {
    if steps != [] {
      var before, last := steps[..|steps| - 1], steps[|steps| - 1];
      var w := RunWorld(Start(registry), before, attempts);
      forall k | 0 <= k < |before| ensures before[..k] == steps[..k] {
      }
      AlwaysExclusive(registry, before, attempts, last.at);
      AlwaysSound(registry, before, attempts);
      assert Disciplined(RunWorld(Start(registry), steps[..|steps| - 1], attempts), last.step, last.at);
      StepKeepsExclusive(w, last.step, attempts, last.at);
      LaterKeepsExclusive(Next(w, last.step, attempts, last.at), attempts, last.at, at);
    }
  }

  /** In every disciplined run each syscall is claimed at most once, and its tool is called at most
      max(1, configured attempts) times. */
  lemma ClaimedAndCalledAtMostOnce(registry: Registry, steps: seq<Timed>, configured: nat, i: nat, j: nat, s: Id)
    requires var attempts := if configured < 1 then 1 else configured;
             DisciplinedRun(Start(registry), steps, attempts)
    ensures var attempts := if configured < 1 then 1 else configured;
            var w := RunWorld(Start(registry), steps, attempts);
            && (i < |w.claims| && j < |w.claims| && w.claims[i].syscall == w.claims[j].syscall ==> i == j)
            && CallsOf(w.calls, s) <= attempts
  {
    var attempts := if configured < 1 then 1 else configured;
    AlwaysExclusive(registry, steps, attempts, if steps == [] then 0 else steps[|steps| - 1].at);
  }
}
