/** A request that is submitted and approved: the steps, and what they leave. */
module Submissions {
  import opened Prelude
  import opened ActionSchemas
  import opened Database
  import opened Execution
  import PinnedCapabilities

  // ----- From a migrated database to a waiting approval -----

  /** The bootstrap snapshot grants the action, and its schema is registered. */
  predicate Bootstrapped(registry: Registry, d: ActionDescriptor) {
    && registry.current in registry.snapshots && d.argsSchemaRef in registry.schemas
    && Resolve(registry.snapshots[registry.current], d.toolName, d.actionName) == Ok(d)
  }

  /** A request: the client's id of it, the ids drawn for it, and the action its handler proposes. */
  datatype Submission = Submission(
    origin: Id, op: Id, audit: Id, key: Option<Id>, approval: Id, action: ActionDescriptor, proposal: Json.Value)

  function Opening(x: Submission): seq<Timed> { [Timed(SubmitOpen(x.origin, x.op, x.audit, x.key), 0)] }

  function DiffOf(x: Submission): Json.Value { DiffPayload(x.action, x.proposal) }

  function Proposing(x: Submission): seq<Timed> {
    [Timed(SubmitPropose(x.op, x.approval, Diff, x.proposal, DiffOf(x)), 0)] + [Timed(SubmitFinish(x.op, false, ""), 0)]
  }

  /** One handler submits the request and proposes the action for approval. */
  function SubmitRun(x: Submission): seq<Timed> { Opening(x) + Proposing(x) }

  lemma SubmitUnfolds(registry: Registry, x: Submission, attempts: nat)
    ensures RunWorld(Start(registry), SubmitRun(x), attempts) ==
            var w1 := Next(Start(registry), SubmitOpen(x.origin, x.op, x.audit, x.key), attempts, 0);
            var w2 := Next(w1, SubmitPropose(x.op, x.approval, Diff, x.proposal, DiffOf(x)), attempts, 0);
            Next(w2, SubmitFinish(x.op, false, ""), attempts, 0)
  {
    var propose := Timed(SubmitPropose(x.op, x.approval, Diff, x.proposal, DiffOf(x)), 0);
    var finish := Timed(SubmitFinish(x.op, false, ""), 0);
    RunSnoc(Start(registry), [], Opening(x)[0], attempts);
    RunSnoc(Start(registry), Opening(x), propose, attempts);
    RunSnoc(Start(registry), Opening(x) + [propose], finish, attempts);
    assert [] + Opening(x) == Opening(x) && SubmitRun(x) == Opening(x) + [propose] + [finish];
  }

  /** What the tables hold then. */
  predicate IsSubmitted(w: World, registry: Registry, x: Submission) {
    && w.execs == map[] && w.claims == [] && w.calls == map[]
    && w.db.registry == registry && w.db.leases == map[] && w.db.syscalls == map[]
    && w.db.replies == Remember(map[], Requests, x.key, Accepted(x.op, x.audit))
    && w.db.approvals == map[x.approval := Approval(x.op, Pending, Diff, x.proposal, DiffOf(x), x.audit)]
    && w.db.operations == map[x.op := Operation(AwaitingApproval, Some(ApprovalRequired), registry.current, x.audit, 0)]
    && x.audit in w.db.audits
  }

  lemma SubmittedTables(registry: Registry, x: Submission, diff: Json.Value, attempts: nat)
    requires diff == DiffOf(x)
    ensures var w1 := Next(Start(registry), SubmitOpen(x.origin, x.op, x.audit, x.key), attempts, 0);
            var w2 := Next(w1, SubmitPropose(x.op, x.approval, Diff, x.proposal, diff), attempts, 0);
            var w3 := Next(w2, SubmitFinish(x.op, false, ""), attempts, 0);
            IsSubmitted(w3, registry, x)
  {
  }

  lemma Submitted(registry: Registry, x: Submission, attempts: nat)
    ensures IsSubmitted(RunWorld(Start(registry), SubmitRun(x), attempts), registry, x)
  {
    SubmitUnfolds(registry, x, attempts);
    SubmittedTables(registry, x, DiffOf(x), attempts);
  }

  // ----- A request submitted twice -----

  /** The request is sent again under its key, while the first handler is still at work: `op` and `audit` are the ids
      drawn for it the second time. */
  function Repeating(x: Submission, op: Id, audit: Id): seq<Timed> {
    [Timed(SubmitOpen(x.origin, op, audit, x.key), 0)]
  }

  function SubmitTwiceRun(x: Submission, op: Id, audit: Id): seq<Timed> {
    Opening(x) + Repeating(x, op, audit) + Proposing(x)
  }

  /** The same request again: with its key it is given the stored answer; without one it is refused, for its event is
      logged already. Either way nothing changes. */
  lemma RepeatIsAnswered(db: Db, x: Submission, op: Id, audit: Id, was: Time, at: Time)
    requires Earlier(db, Requests, x.key).None? && CreateOperation(db, x.origin, x.op, x.audit, x.key, was).1.Ok?
    ensures var after := CreateOperation(db, x.origin, x.op, x.audit, x.key, was).0;
            && CreateOperation(after, x.origin, op, audit, x.key, at) ==
               (after, if x.key.Some? then Ok(Accepted(x.op, x.audit)) else Err(Unavailable("insert")))
            && x.op in after.operations && after.operations[x.op].state == Created
  {
  }

  /** The database once the request is accepted. */
  function AcceptedDb(registry: Registry, x: Submission): Db {
    CreateOperation(Fresh(registry), x.origin, x.op, x.audit, x.key, 0).0
  }

  lemma FirstIsAccepted(registry: Registry, x: Submission, attempts: nat)
    ensures CreateOperation(Fresh(registry), x.origin, x.op, x.audit, x.key, 0).1.Ok?
    ensures RunWorld(Start(registry), Opening(x), attempts).db == AcceptedDb(registry, x)
  {
    RunSnoc(Start(registry), [], Opening(x)[0], attempts);
    assert [] + Opening(x) == Opening(x);
  }

  lemma RepeatChangesNothing(w: World, x: Submission, op: Id, audit: Id, attempts: nat)
    requires CreateOperation(w.db, x.origin, op, audit, x.key, 0).0 == w.db
    ensures Next(w, SubmitOpen(x.origin, op, audit, x.key), attempts, 0) == w
  {
  }

  /** So the repeat changes nothing. */
  lemma SubmittedTwice(registry: Registry, x: Submission, op: Id, audit: Id, attempts: nat)
    ensures IsSubmitted(RunWorld(Start(registry), SubmitTwiceRun(x, op, audit), attempts), registry, x)
  {
    var start := Start(registry);
    var w := RunWorld(start, Opening(x), attempts);
    FirstIsAccepted(registry, x, attempts);
    RepeatIsAnswered(Fresh(registry), x, op, audit, 0, 0);
    RepeatChangesNothing(w, x, op, audit, attempts);
    RunSnoc(start, Opening(x), Repeating(x, op, audit)[0], attempts);
    assert RunWorld(start, Opening(x) + Repeating(x, op, audit), attempts) == w;
    RunJoins(start, Opening(x) + Repeating(x, op, audit), Proposing(x), attempts);
    RunJoins(start, Opening(x), Proposing(x), attempts);
    Submitted(registry, x, attempts);
  }

  // ----- Approving -----

  /** An executor just started by a decision, on an operation nobody leases. */
  predicate JustApproved(w: World, pid: nat, op: Id, s: Id, request: Id, audit: Id) {
    && pid in w.execs && w.execs[pid] == NewExec(Executor(request), op, audit, [s])
    && op in w.db.operations && w.db.operations[op].state == Running
    && w.db.operations[op].reason == Some(PendingExecution) && op !in w.db.leases
    && s in w.db.syscalls && w.db.syscalls[s].operation == op && w.db.syscalls[s].status == Permitted
  }

  /** A new approval that goes through, on an operation nobody leases. */
  predicate Grants(w: World, input: ConsumeInput, s: Id, pid: nat, at: Time) {
    && pid !in w.execs && input.decision == Approve && Earlier(w.db, Decide(input.approval), input.key).None?
    && ConsumeProblem(w.db, input, s, at).None?
    && w.db.approvals[input.approval].operation !in w.db.leases
  }

  lemma ApprovalStartsExecutor(w: World, input: ConsumeInput, s: Id, pid: nat, request: Id, attempts: nat, at: Time)
    requires Grants(w, input, s, pid, at)
    ensures var approval := w.db.approvals[input.approval];
            JustApproved(Next(w, DecideApproval(input, s, pid, request), attempts, at), pid, approval.operation, s,
                         request, approval.audit)
  {
  }

  lemma DecisionStartsOne(w: World, input: ConsumeInput, s: Id, pid: nat, request: Id, attempts: nat, at: Time)
    requires Grants(w, input, s, pid, at)
    ensures var after := Next(w, DecideApproval(input, s, pid, request), attempts, at);
            after.claims == w.claims && after.calls == w.calls && after.execs.Keys == w.execs.Keys + {pid}
  {
  }

  function PlainApproval(approval: Id, payload: Json.Value): ConsumeInput {
    ConsumeInput(approval, Approve, None, None, Ok(payload), None)
  }

  function Approving(x: Submission): ConsumeInput { PlainApproval(x.approval, x.proposal) }

  /** An approval without a challenge goes through once its syscall can be prepared. */
  lemma PlainApprovalIsGranted(w: World, approval: Id, row: Approval, operation: Operation, payload: Json.Value, s: Id,
                               at: Time)
    requires w.execs == map[] && w.db.leases == map[] && s !in w.db.syscalls
    requires forall t | t in w.db.syscalls :: w.db.syscalls[t].approval != approval
    requires approval in w.db.approvals && w.db.approvals[approval] == row && row.status == Pending && row.mode == Diff
    requires row.operation in w.db.operations && w.db.operations[row.operation] == operation
    requires operation.state == AwaitingApproval && row.audit in w.db.audits
    requires PrepareSyscall(w.db.registry, operation.pinned, row.diff, Ok(payload), None).Ok?
    ensures Grants(w, PlainApproval(approval, payload), s, 0, at)
  {
  }

  lemma IsSubmittedIsGranted(w: World, registry: Registry, x: Submission, s: Id, at: Time)
    requires Bootstrapped(registry, x.action) && IsSubmitted(w, registry, x)
    ensures Grants(w, Approving(x), s, 0, at) && w.db.approvals[x.approval].operation == x.op
  {
    PinnedCapabilities.PreparedFromPin(registry, registry.current, x.action, x.proposal, Ok(x.proposal), None);
    PlainApprovalIsGranted(w, x.approval, w.db.approvals[x.approval], w.db.operations[x.op], x.proposal, s, at);
  }

  lemma SubmittedIsGranted(registry: Registry, x: Submission, s: Id, attempts: nat, at: Time)
    requires Bootstrapped(registry, x.action)
    ensures var w := RunWorld(Start(registry), SubmitRun(x), attempts);
            Grants(w, Approving(x), s, 0, at) && w.db.approvals[x.approval].operation == x.op
  {
    Submitted(registry, x, attempts);
    IsSubmittedIsGranted(RunWorld(Start(registry), SubmitRun(x), attempts), registry, x, s, at);
  }
}
