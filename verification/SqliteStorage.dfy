/** The storage provider. Each method works through its transaction statement by statement on a private copy and
    commits by assigning `db`; returning early drops the copy, which is the rollback. */
module SqliteStorage {
  import opened Prelude
  import opened Json
  import opened ActionSchemas
  import opened Database
  import Recovery
  import CanonicalJson

  class SqliteStorage {
    var db: Db

    constructor (registry: Registry)
      ensures db == Fresh(registry)
    {
      db := Fresh(registry);
    }

    method FindReply(scope: Scope, key: Option<Id>) returns (found: Option<Reply>)
      ensures found == Earlier(db, scope, key)
    {
      if key.None? {
        return None;
      }
      if (scope, key.value) in db.replies {
        return Some(db.replies[(scope, key.value)]);
      }
      return None;
    }

    method CreateOperationBundle(origin: Id, op: Id, audit: Id, key: Option<Id>, now: Time)
      returns (r: Result<Reply>)
      modifies this
      ensures (db, r) == CreateOperation(old(db), origin, op, audit, key, now)
    {
      var existing := FindReply(Requests, key);
      if existing.Some? {
        return Ok(existing.value);
      }
      var tx := db;
      if origin in tx.requests {
        return Err(Unavailable("insert"));
      }
      tx := tx.(requests := tx.requests + {origin});
      if op in tx.operations {
        return Err(Unavailable("insert"));
      }
      tx := tx.(operations := tx.operations[op := Operation(Created, None, tx.registry.current, audit, now)]);
      tx := tx.(transitions := tx.transitions + [Transition(op, None, Created, None, audit, now)]);
      if audit in tx.audits {
        return Err(Unavailable("insert"));
      }
      tx := tx.(audits := tx.audits[audit := Audit(op, [RequestAccepted(now)])]);
      var response := Accepted(op, audit);
      if key.Some? {
        tx := tx.(replies := tx.replies[(Requests, key.value) := response]);
      }
      db := tx;
      return Ok(response);
    }

    method UpdateOperationState(op: Id, newState: OperationState, reason: Option<Reason>, audit: Id, now: Time)
      returns (r: Result<()>)
      modifies this
      ensures (db, r) == Database.UpdateOperationState(old(db), op, newState, reason, audit, now)
    {
      var tx := db;
      if op !in tx.operations {
        return Err(NotFound("operation"));
      }
      var fromState := tx.operations[op].state;
      tx := tx.(operations :=
        tx.operations[op := tx.operations[op].(state := newState, reason := reason, updatedAt := now)]);
      tx := tx.(transitions := tx.transitions + [Transition(op, Some(fromState), newState, reason, audit, now)]);
      db := tx;
      return Ok(());
    }

    method CancelOperation(op: Id, reason: Reason, key: Option<Id>, now: Time) returns (r: Result<Reply>)
      modifies this
      ensures (db, r) == Database.CancelOperation(old(db), op, reason, key, now)
    {
      var existing := FindReply(Scope.Cancel(op), key);
      if existing.Some? {
        return Ok(existing.value);
      }
      var tx := db;
      if op !in tx.operations || tx.operations[op].audit !in tx.audits {
        return Err(NotFound("operation"));
      }
      var currentState := tx.operations[op].state;
      if Terminal(currentState) {
        return Err(Conflict("operation is already terminal"));
      }
      var audit := tx.operations[op].audit;
      tx := tx.(operations :=
        tx.operations[op := tx.operations[op].(state := Cancelled, reason := Some(reason), updatedAt := now)]);
      tx := tx.(transitions :=
        tx.transitions + [Transition(op, Some(currentState), Cancelled, Some(reason), audit, now)]);
      var timeline := tx.audits[audit].timeline;
      timeline := timeline + [OperationCancelled(now, op, reason)];
      tx := tx.(audits := tx.audits[audit := tx.audits[audit].(timeline := timeline)]);
      var response := OperationView(op, tx.operations[op]);
      if key.Some? {
        tx := tx.(replies := tx.replies[(Scope.Cancel(op), key.value) := response]);
      }
      db := tx;
      return Ok(response);
    }

    method CreateReplayDryRun(input: ReplayInput, op: Id, audit: Id, now: Time)
      returns (r: Result<Reply>)
      modifies this
      ensures (db, r) == CreateReplay(old(db), input, op, audit, now)
    {
      var existing := FindReply(Scope.Replay(input.source), input.key);
      if existing.Some? {
        return Ok(existing.value);
      }
      if input.mode != "dry_run" || input.strategy != "stored_output" {
        return Err(InvalidInput("only dry_run + stored_output replay is implemented"));
      }
      var tx := db;
      if input.source !in tx.audits {
        return Err(NotFound("audit trace"));
      }
      var origin := tx.audits[input.source].operation;
      if !input.anchored {
        return Err(Corruption("missing replay anchor"));
      }
      if op in tx.operations || origin !in tx.operations {
        return Err(Unavailable("insert"));
      }
      var reason := Some(ReplayDone);
      tx := tx.(operations :=
        tx.operations[op := Operation(Completed, reason, tx.operations[origin].pinned, audit, now)]);
      tx := tx.(transitions := tx.transitions + [Transition(op, None, Completed, reason, audit, now)]);
      if audit in tx.audits {
        return Err(Unavailable("insert"));
      }
      tx := tx.(audits := tx.audits[audit := Audit(op, [ReplayStarted(now, input.source), ReplayCompleted(now, origin)])]);
      var response := Reply.Replayed(op, audit);
      if input.key.Some? {
        tx := tx.(replies := tx.replies[(Scope.Replay(input.source), input.key.value) := response]);
      }
      db := tx;
      return Ok(response);
    }

    method AppendAuditTimelineItem(audit: Id, item: TimelineItem) returns (r: Result<()>)
      modifies this
      ensures (db, r) == AppendTimelineItem(old(db), audit, item)
    {
      if audit !in db.audits {
        return Err(NotFound("audit trace"));
      }
      var timeline := db.audits[audit].timeline;
      timeline := timeline + [item];
      db := db.(audits := db.audits[audit := db.audits[audit].(timeline := timeline)]);
      return Ok(());
    }

    method CreateApprovalItem(id: Id, op: Id, mode: ApprovalMode, proposal: Value, diff: Value, audit: Id)
      returns (r: Result<Id>)
      modifies this
      ensures (db, r) == Database.CreateApprovalItem(old(db), id, op, mode, proposal, diff, audit)
    {
      if id in db.approvals || op !in db.operations {
        return Err(Conflict("insert"));
      }
      db := db.(approvals := db.approvals[id := Approval(op, Pending, mode, proposal, diff, audit)]);
      return Ok(id);
    }

    method StartOobChallenge(approval: Id, challenge: Id, key: Option<Id>, now: Time) returns (r: Result<Reply>)
      modifies this
      ensures (db, r) == Database.StartOobChallenge(old(db), approval, challenge, key, now)
    {
      var existing := FindReply(OobStart(approval), key);
      if existing.Some? {
        return Ok(existing.value);
      }
      var tx := db;
      if approval !in tx.approvals {
        return Err(NotFound("approval"));
      }
      if tx.approvals[approval].status != Pending {
        return Err(Conflict("approval is not pending"));
      }
      if tx.approvals[approval].mode != OobRequired {
        return Err(InvalidInput("oob is not valid for this mode"));
      }
      var expiresAt := now + Minutes(CHALLENGE_MINUTES);
      if challenge in tx.challenges {
        return Err(Conflict("insert"));
      }
      tx := tx.(challenges := tx.challenges[challenge := Challenge(approval, expiresAt, ChallengePending, None)]);
      var response := Challenged(approval, challenge, expiresAt);
      if key.Some? {
        tx := tx.(replies := tx.replies[(OobStart(approval), key.value) := response]);
      }
      db := tx;
      return Ok(response);
    }

    method VerifyOobChallenge(approval: Id, challenge: Id, key: Option<Id>, now: Time) returns (r: Result<Reply>)
      modifies this
      ensures (db, r) == Database.VerifyOobChallenge(old(db), approval, challenge, key, now)
    {
      var existing := FindReply(OobVerify(approval), key);
      if existing.Some? {
        return Ok(existing.value);
      }
      var tx := db;
      if challenge !in tx.challenges {
        return Err(NotFound("oob challenge"));
      }
      var row := tx.challenges[challenge];
      if row.approval != approval {
        return Err(Conflict("challenge does not belong to approval"));
      }
      var response := ChallengeVerified(approval, challenge);
      if row.status == Verified || row.status == ChallengeConsumed {
        return Ok(response);
      }
      if now > row.expiresAt {
        return Err(Conflict("challenge expired"));
      }
      tx := tx.(challenges := tx.challenges[challenge := row.(status := Verified)]);
      if key.Some? {
        tx := tx.(replies := tx.replies[(OobVerify(approval), key.value) := response]);
      }
      db := tx;
      return Ok(response);
    }

    /** The challenge is marked consumed before the operation, descriptor and payload are checked. */
    method ConsumeApprovalAtomic(input: ConsumeInput, syscall: Id, now: Time) returns (r: Result<Reply>)
      modifies this
      ensures (db, r) == ConsumeApproval(old(db), input, syscall, now)
      ensures r.Err? ==> db == old(db)
    {
      var existing := FindReply(Decide(input.approval), input.key);
      if existing.Some? {
        return Ok(existing.value);
      }
      var tx := db;
      if input.approval !in tx.approvals {
        return Err(NotFound("approval"));
      }
      var approval := tx.approvals[input.approval];
      if approval.status != Pending {
        return Err(Conflict("approval is not pending"));
      }
      if input.decision.OtherChoice? {
        return Err(InvalidInput("decision"));
      }
      if input.challenge.Some? && approval.mode != OobRequired {
        return Err(InvalidInput("oob challenge"));
      }
      if approval.mode == OobRequired && input.decision == Approve {
        var problem := ChallengeProblem(tx, input.approval, input.challenge, now);
        if problem.Some? {
          return Err(problem.value);
        }
        var spent := tx.challenges[input.challenge.value].(status := ChallengeConsumed, consumedAt := Some(now));
        tx := tx.(challenges := tx.challenges[input.challenge.value := spent]);
      }
      var op := approval.operation;
      if op !in tx.operations {
        return Err(NotFound("operation"));
      }
      if tx.operations[op].state != AwaitingApproval {
        return Err(Conflict("operation is not awaiting approval"));
      }
      var nextState, nextStatus, granted := Blocked, Denied, [];
      if input.decision == Approve {
        var prepared := PrepareSyscall(
          tx.registry, tx.operations[op].pinned, approval.diff, input.normalized, input.invalid);
        if prepared.Err? {
          return Err(prepared.error);
        }
        if SyscallClashes(tx, syscall, input.approval, prepared.value) {
          return Err(Conflict("insert"));
        }
        var row := Syscall(op, input.approval, Permitted, prepared.value, None, now, approval.audit);
        tx := tx.(syscalls := tx.syscalls[syscall := row]);
        nextState, nextStatus, granted := Running, Consumed, [syscall];
      }
      tx := tx.(approvals := tx.approvals[input.approval := approval.(status := nextStatus)]);
      var stateReason := if input.decision == Approve then PendingExecution else ApprovalDenied;
      var decided := tx.operations[op].(state := nextState, reason := Some(stateReason), updatedAt := now);
      tx := tx.(operations := tx.operations[op := decided]);
      var logReason := if input.decision == Approve then ApprovalConsumed else ApprovalDenied;
      var logRow := Transition(op, Some(AwaitingApproval), nextState, Some(logReason), approval.audit, now);
      tx := tx.(transitions := tx.transitions + [logRow]);
      if approval.audit !in tx.audits {
        return Err(Corruption("missing audit trace"));
      }
      var timeline := tx.audits[approval.audit].timeline;
      timeline := timeline + [ApprovalDecision(now, input.approval, input.decision, nextState, granted)];
      tx := tx.(audits := tx.audits[approval.audit := tx.audits[approval.audit].(timeline := timeline)]);
      var response := Decision(input.approval, op, input.decision, nextStatus, nextState, granted, approval.audit);
      if input.key.Some? {
        tx := tx.(replies := tx.replies[(Decide(input.approval), input.key.value) := response]);
      }
      db := tx;
      return Ok(response);
    }

    method UpdateSyscallStatus(id: Id, newStatus: SyscallStatus, resultRef: Option<string>)
      returns (r: Result<Syscall>)
      modifies this
      ensures (db, r) == Database.UpdateSyscallStatus(old(db), id, newStatus, resultRef)
    {
      if id !in db.syscalls {
        return Err(NotFound("syscall"));
      }
      var currentStatus := db.syscalls[id].status;
      if currentStatus != Permitted && currentStatus != Executing {
        return Err(Conflict("syscall is not executable"));
      }
      db := db.(syscalls := db.syscalls[id := db.syscalls[id].(status := newStatus, resultRef := resultRef)]);
      return Ok(db.syscalls[id]);
    }

    method ListRecoverableOperationExecutions() returns (grouped: seq<Recovery.RecoverableOperation>)
      ensures forall s :: Recovery.Recoverable(db, s) <==> exists g :: 0 <= g < |grouped| && s in grouped[g].syscalls
      ensures forall g, s | 0 <= g < |grouped| && s in grouped[g].syscalls ::
                s in db.syscalls && db.syscalls[s].operation == grouped[g].operation
      ensures forall g, h | 0 <= g < h < |grouped| :: grouped[g].operation != grouped[h].operation
      ensures forall g | 0 <= g < |grouped| ::
                grouped[g].operation in db.operations && grouped[g].audit == db.operations[grouped[g].operation].audit
      ensures exists rows :: Recovery.IsQueryResult(db, rows) && Recovery.IsGrouping(rows, grouped)
    {
      var rows := Recovery.SelectRecoverable(db);
      grouped := Recovery.GroupRows(rows);
      forall s
        ensures Recovery.Recoverable(db, s) <==> exists g :: 0 <= g < |grouped| && s in grouped[g].syscalls
        ensures forall g | 0 <= g < |grouped| && s in grouped[g].syscalls ::
                  s in db.syscalls && db.syscalls[s].operation == grouped[g].operation
      {
        Recovery.GroupedIsExact(db, rows, grouped, s);
      }
      Recovery.GroupsCarryTraces(db, rows, grouped);
    }

    method TryAcquireOperationLease(op: Id, runner: Runner, duration: Time, now: Time) returns (r: Result<Acquisition>)
      modifies this
      ensures (db, r) == TryAcquireLease(old(db), op, runner, duration, now)
    {
      var leasedUntil := now + duration;
      if op in db.leases {
        var current := db.leases[op];
        if current.owner != runner && current.until > now {
          return Ok(Acquisition(false, None));
        }
        var nextEpoch := current.epoch;
        if current.owner != runner {
          nextEpoch := nextEpoch + 1;
        }
        db := db.(leases := db.leases[op := Lease(runner, leasedUntil, nextEpoch)]);
        return Ok(Acquisition(true, Some(nextEpoch)));
      }
      if op !in db.operations {
        return Err(Unavailable("insert"));
      }
      db := db.(leases := db.leases[op := Lease(runner, leasedUntil, 1)]);
      return Ok(Acquisition(true, Some(1)));
    }

    method RenewOperationLease(op: Id, runner: Runner, epoch: int, duration: Time, now: Time) returns (r: Result<Lease>)
      modifies this
      ensures (db, r) == RenewLease(old(db), op, runner, epoch, duration, now)
    {
      var rows := 0;
      if op in db.leases && db.leases[op].owner == runner && db.leases[op].epoch == epoch {
        db := db.(leases := db.leases[op := db.leases[op].(until := now + duration)]);
        rows := 1;
      }
      if rows == 0 {
        return Err(Conflict("lease renewal rejected"));
      }
      return Ok(Lease(runner, now + duration, epoch));
    }

    method ReleaseOperationLease(op: Id, runner: Runner, epoch: int) returns (r: Result<()>)
      modifies this
      ensures (db, r) == ReleaseLease(old(db), op, runner, epoch)
    {
      var rows := 0;
      if op in db.leases && db.leases[op].owner == runner && db.leases[op].epoch == epoch {
        db := db.(leases := db.leases - {op});
        rows := 1;
      }
      if rows == 0 {
        return Err(Conflict("lease release rejected"));
      }
      return Ok(());
    }

    method MintCapabilitySnapshot(payload: Value, digest: string, key: Option<Id>) returns (r: Result<Reply>)
      modifies this
      ensures db == MintSnapshot(old(db), payload, digest, key).0
      ensures r.Ok? <==> MintSnapshot(old(db), payload, digest, key).1.Ok?
      ensures r.Ok? ==> r == MintSnapshot(old(db), payload, digest, key).1
    {
      var existing := FindReply(Mints, key);
      if existing.Some? {
        return Ok(existing.value);
      }
      var problem := CheckSnapshot(payload, db.registry.schemas);
      if problem.Some? {
        return Err(problem.value);
      }
      var version := "cap:sha256:" + digest;
      var tx := db;
      if version !in tx.registry.snapshots {
        tx := tx.(registry := tx.registry.(snapshots := tx.registry.snapshots[version := Canonical(payload)]));
      }
      if key.Some? {
        tx := tx.(replies := tx.replies[(Mints, key.value) := Minted(version)]);
      }
      db := tx;
      return Ok(Minted(version));
    }

    method RegisterSchemaEntry(payload: Value, digest: string, key: Option<Id>) returns (r: Result<Reply>)
      modifies this
      ensures (db, r) == RegisterSchema(old(db), payload, digest, key)
    {
      var existing := FindReply(Registrations, key);
      if existing.Some? {
        return Ok(existing.value);
      }
      var ref := "schema:sha256:" + digest;
      var tx := db;
      if ref !in tx.registry.schemas {
        tx := tx.(registry := tx.registry.(schemas := tx.registry.schemas[ref := Canonical(payload)]));
      }
      if key.Some? {
        tx := tx.(replies := tx.replies[(Registrations, key.value) := Registered(ref, payload)]);
      }
      db := tx;
      return Ok(Registered(ref, payload));
    }
  }
}
