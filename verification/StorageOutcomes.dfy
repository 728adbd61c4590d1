/** When each of the other storage calls goes through, and all that it changes. */
module StorageOutcomes {
  import opened Prelude
  import opened Json
  import opened ActionSchemas
  import opened Database
  import opened ApprovalDecisions

  /** The stored answers afterwards: the one given is added under the key, if there is one. */
  predicate Answered(db: Db, after: Db, scope: Scope, key: Option<Id>, answer: Reply) {
    after.replies == match key case None => db.replies case Some(k) => db.replies[(scope, k) := answer]
  }

  // ----- Operations -----

  lemma CreatedExactly(db: Db, origin: Id, op: Id, audit: Id, key: Option<Id>, now: Time)
    requires NotAnswered(db, Requests, key)
    ensures var (after, r) := CreateOperation(db, origin, op, audit, key, now);
            && (r.Ok? <==> origin !in db.requests && op !in db.operations && audit !in db.audits)
            && (r.Err? ==> after == db)
            && (r.Ok? ==>
                  && r.value == Accepted(op, audit) && Answered(db, after, Requests, key, r.value)
                  && after.requests == db.requests + {origin} && KeepsGrants(db, after)
                  && after.operations == db.operations[op := Operation(Created, None, db.registry.current, audit, now)]
                  && after.transitions == db.transitions + [Transition(op, None, Created, None, audit, now)]
                  && after.audits == db.audits[audit := Audit(op, [RequestAccepted(now)])])
  {
  }

  lemma UpdatedExactly(db: Db, op: Id, state: OperationState, reason: Option<Reason>, audit: Id, now: Time)
    ensures var (after, r) := UpdateOperationState(db, op, state, reason, audit, now);
            && (r.Ok? <==> op in db.operations)
            && (r.Err? ==> after == db)
            && (r.Ok? ==>
                  && after.operations == db.operations[op :=
                       Operation(state, reason, db.operations[op].pinned, db.operations[op].audit, now)]
                  && after.transitions ==
                     db.transitions + [Transition(op, Some(db.operations[op].state), state, reason, audit, now)]
                  && after.audits == db.audits && after.requests == db.requests && after.replies == db.replies
                  && KeepsGrants(db, after))
  {
  }

  /** Only an operation that is new, waiting or running can be cancelled. */
  predicate Cancellable(db: Db, op: Id) {
    && op in db.operations && db.operations[op].audit in db.audits
    && var state := db.operations[op].state; state == Created || state == AwaitingApproval || state == Running
  }

  lemma CancelledExactly(db: Db, op: Id, reason: Reason, key: Option<Id>, now: Time)
    requires NotAnswered(db, Cancel(op), key)
    ensures var (after, r) := CancelOperation(db, op, reason, key, now);
            && (r.Ok? <==> Cancellable(db, op))
            && (r.Err? ==> after == db)
            && (r.Ok? ==>
                  var row := db.operations[op];
                  && op in after.operations
                  && after.operations[op] == Operation(Cancelled, Some(reason), row.pinned, row.audit, now)
                  && after.operations == db.operations[op := after.operations[op]]
                  && r.value == OperationView(op, after.operations[op]) && Answered(db, after, Cancel(op), key, r.value)
                  && after.transitions == db.transitions +
                       [Transition(op, Some(row.state), Cancelled, Some(reason), row.audit, now)]
                  && after.audits == db.audits[row.audit :=
                       Audit(db.audits[row.audit].operation,
                             db.audits[row.audit].timeline + [OperationCancelled(now, op, reason)])]
                  && after.requests == db.requests && KeepsGrants(db, after))
  {
  }

  lemma ReplayedExactly(db: Db, input: ReplayInput, op: Id, audit: Id, now: Time)
    requires NotAnswered(db, Replay(input.source), input.key)
    ensures var (after, r) := CreateReplay(db, input, op, audit, now);
            && (r.Ok? <==>
                && input.mode == "dry_run" && input.strategy == "stored_output"
                && input.source in db.audits && db.audits[input.source].operation in db.operations && input.anchored
                && op !in db.operations && audit !in db.audits)
            && (r.Err? ==> after == db)
            && (r.Ok? ==>
                  var origin := db.audits[input.source].operation;
                  && r.value == Reply.Replayed(op, audit)
                  && Answered(db, after, Replay(input.source), input.key, r.value)
                  && after.operations == db.operations[op :=
                       Operation(Completed, Some(ReplayDone), db.operations[origin].pinned, audit, now)]
                  && after.transitions ==
                     db.transitions + [Transition(op, None, Completed, Some(ReplayDone), audit, now)]
                  && after.audits == db.audits[audit :=
                       Audit(op, [ReplayStarted(now, input.source), ReplayCompleted(now, origin)])]
                  && after.requests == db.requests && KeepsGrants(db, after))
  {
  }

  lemma AppendedExactly(db: Db, audit: Id, item: TimelineItem)
    ensures var (after, r) := AppendTimelineItem(db, audit, item);
            && (r.Ok? <==> audit in db.audits)
            && (r.Err? ==> after == db)
            && (r.Ok? ==> after == db.(audits := db.audits[audit :=
                            Audit(db.audits[audit].operation, db.audits[audit].timeline + [item])]))
  {
  }

  // ----- Approvals and challenges -----

  predicate OnlyChallenge(db: Db, after: Db, challenge: Id, row: Challenge) {
    after == db.(challenges := db.challenges[challenge := row], replies := after.replies)
  }

  lemma ApprovalCreatedExactly(
      db: Db, id: Id, op: Id, mode: ApprovalMode, proposal: Value, diff: Value, audit: Id)
    ensures var (after, r) := CreateApprovalItem(db, id, op, mode, proposal, diff, audit);
            && (r.Ok? <==> id !in db.approvals && op in db.operations)
            && (r.Err? ==> after == db)
            && (r.Ok? ==>
                  && r.value == id && id in after.approvals
                  && after == db.(approvals := db.approvals[id := after.approvals[id]])
                  && after.approvals[id].operation == op && after.approvals[id].status == Pending
                  && after.approvals[id].mode == mode && after.approvals[id].audit == audit
                  && after.approvals[id].proposal == proposal && after.approvals[id].diff == diff)
  {
  }

  lemma ChallengeStartedExactly(db: Db, approval: Id, challenge: Id, key: Option<Id>, now: Time)
    requires NotAnswered(db, OobStart(approval), key)
    ensures var (after, r) := StartOobChallenge(db, approval, challenge, key, now);
            && (r.Ok? <==>
                && approval in db.approvals && db.approvals[approval].status == Pending
                && db.approvals[approval].mode == OobRequired && challenge !in db.challenges)
            && (r.Err? ==> after == db)
            && (r.Ok? ==>
                  && r.value == Challenged(approval, challenge, now + CHALLENGE_LIFETIME)
                  && Answered(db, after, OobStart(approval), key, r.value)
                  && OnlyChallenge(db, after, challenge,
                                   Challenge(approval, now + CHALLENGE_LIFETIME, ChallengePending, None)))
  {
  }

  /** Verifying is refused for another approval and after expiry; a challenge verified before is answered as it is, and
      that answer is not stored. */
  lemma ChallengeVerifiedExactly(db: Db, approval: Id, challenge: Id, key: Option<Id>, now: Time)
    requires NotAnswered(db, OobVerify(approval), key)
    ensures var (after, r) := VerifyOobChallenge(db, approval, challenge, key, now);
            && (r.Ok? <==>
                && challenge in db.challenges && db.challenges[challenge].approval == approval
                && (db.challenges[challenge].status == ChallengePending ==> now <= db.challenges[challenge].expiresAt))
            && (r.Ok? ==> r.value == ChallengeVerified(approval, challenge))
            && if r.Ok? && db.challenges[challenge].status == ChallengePending then
                 && Answered(db, after, OobVerify(approval), key, r.value)
                 && OnlyChallenge(db, after, challenge,
                                  Challenge(approval, db.challenges[challenge].expiresAt, Verified,
                                            db.challenges[challenge].consumedAt))
               else after == db
  {
  }

  lemma SyscallWrittenExactly(db: Db, id: Id, status: SyscallStatus, resultRef: Option<string>)
    ensures var (after, r) := UpdateSyscallStatus(db, id, status, resultRef);
            && (r.Ok? <==>
                id in db.syscalls && (db.syscalls[id].status == Permitted || db.syscalls[id].status == Executing))
            && (r.Err? ==> after == db)
            && (r.Ok? ==>
                  var was := db.syscalls[id];
                  && r.value == Syscall(was.operation, was.approval, status, was.call, resultRef, was.createdAt, was.audit)
                  && after == db.(syscalls := db.syscalls[id := r.value]))
  {
  }

  // ----- Leases -----

  /** The lease goes to a runner exactly when nobody else's stands: there is no row, or it is the runner's own, or it has
      run out. */
  lemma AcquiredExactly(db: Db, op: Id, runner: Runner, duration: Time, now: Time)
    ensures var (after, r) := TryAcquireLease(db, op, runner, duration, now);
            && (r.Ok? <==> op in db.leases || op in db.operations)
            && (r.Ok? && r.value.acquired <==>
                if op in db.leases then db.leases[op].owner == runner || db.leases[op].until <= now
                else op in db.operations)
            && if r.Ok? && r.value.acquired then
                 && op in after.leases && after == db.(leases := db.leases[op := after.leases[op]])
                 && after.leases[op].owner == runner && after.leases[op].until == now + duration
                 && r.value.epoch == Some(after.leases[op].epoch)
                 && after.leases[op].epoch ==
                    if op !in db.leases then 1
                    else if db.leases[op].owner == runner then db.leases[op].epoch
                    else db.leases[op].epoch + 1
               else after == db && (r.Ok? ==> r.value.epoch == None)
  {
  }

  predicate IsLease(db: Db, op: Id, runner: Runner, epoch: int) {
    op in db.leases && db.leases[op] == Lease(runner, db.leases[op].until, epoch)
  }

  lemma RenewedExactly(db: Db, op: Id, runner: Runner, epoch: int, duration: Time, now: Time)
    ensures var (after, r) := RenewLease(db, op, runner, epoch, duration, now);
            && (r.Ok? <==> IsLease(db, op, runner, epoch))
            && (r.Err? ==> after == db)
            && (r.Ok? ==> r.value == Lease(runner, now + duration, epoch)
                          && after == db.(leases := db.leases[op := r.value]))
  {
  }

  lemma ReleasedExactly(db: Db, op: Id, runner: Runner, epoch: int)
    ensures var (after, r) := ReleaseLease(db, op, runner, epoch);
            && (r.Ok? <==> IsLease(db, op, runner, epoch))
            && (r.Err? ==> after == db)
            && (r.Ok? ==> op !in after.leases && after == db.(leases := after.leases)
                          && forall o | o != op ::
                               (o in after.leases <==> o in db.leases)
                               && (o in db.leases ==> after.leases[o] == db.leases[o]))
  {
  }

  // ----- Registry -----

  /** Every action of every capability names schemas that are registered. */
  ghost predicate NamesRegistered(payload: Value, schemas: map<string, Value>) {
    && Get(payload, "capabilities").Some? && Get(payload, "capabilities").value.Array?
    && var capabilities := Get(payload, "capabilities").value.items;
       forall i | 0 <= i < |capabilities| :: ActionsNameRegistered(capabilities[i], schemas)
  }

  ghost predicate ActionsNameRegistered(capability: Value, schemas: map<string, Value>) {
    && Get(capability, "actions").Some? && Get(capability, "actions").value.Array?
    && var actions := Get(capability, "actions").value.items;
       forall j | 0 <= j < |actions| :: NamesSchemas(actions[j], schemas)
  }

  predicate NamesSchemas(action: Value, schemas: map<string, Value>) {
    && (match Get(action, "args_schema_ref") case Some(String(ref)) => ref in schemas case _ => false)
    && match Get(action, "result_schema_ref") case Some(String(ref)) => ref in schemas case _ => true
  }

  lemma ActionKnownExactly(action: Value, schemas: map<string, Value>)
    ensures ActionKnown(action, schemas) <==> NamesSchemas(action, schemas)
  {
  }

  lemma CapabilityKnownExactly(capability: Value, schemas: map<string, Value>)
    ensures CapabilityKnown(capability, schemas) <==> ActionsNameRegistered(capability, schemas)
  {
    if GetArray(capability, "actions").Some? {
      var actions := GetArray(capability, "actions").value;
      forall action ensures ActionKnown(action, schemas) <==> NamesSchemas(action, schemas) {
        ActionKnownExactly(action, schemas);
      }
      assert forall j | 0 <= j < |actions| :: actions[j] in actions;
    }
  }

  lemma KnownExactly(payload: Value, schemas: map<string, Value>)
    ensures SnapshotKnown(payload, schemas) <==> NamesRegistered(payload, schemas)
  {
    if GetArray(payload, "capabilities").Some? {
      var capabilities := GetArray(payload, "capabilities").value;
      forall c ensures CapabilityKnown(c, schemas) <==> ActionsNameRegistered(c, schemas) {
        CapabilityKnownExactly(c, schemas);
      }
      assert forall i | 0 <= i < |capabilities| :: capabilities[i] in capabilities;
    }
  }

  /** A payload is stored in canonical form under the hash of that form, once. */
  lemma MintedExactly(db: Db, payload: Value, digest: string, key: Option<Id>)
    requires NotAnswered(db, Mints, key)
    ensures var (after, r) := MintSnapshot(db, payload, digest, key);
            var version := "cap:sha256:" + digest;
            && (r.Ok? <==> NamesRegistered(payload, db.registry.schemas))
            && (r.Err? ==> after == db)
            && (r.Ok? ==>
                  && r.value == Minted(version) && Answered(db, after, Mints, key, r.value)
                  && after == db.(registry := db.registry.(snapshots := after.registry.snapshots), replies := after.replies)
                  && after.registry.snapshots ==
                     (if version in db.registry.snapshots then db.registry.snapshots
                      else db.registry.snapshots[version := Canonical(payload)]))
  {
    KnownExactly(payload, db.registry.schemas);
  }

  lemma SchemaRegisteredExactly(db: Db, payload: Value, digest: string, key: Option<Id>)
    requires NotAnswered(db, Registrations, key)
    ensures var (after, r) := RegisterSchema(db, payload, digest, key);
            var ref := "schema:sha256:" + digest;
            && r == Ok(Registered(ref, payload)) && Answered(db, after, Registrations, key, r.value)
            && after == db.(registry := db.registry.(schemas := after.registry.schemas), replies := after.replies)
            && after.registry.schemas ==
               (if ref in db.registry.schemas then db.registry.schemas
                else db.registry.schemas[ref := Canonical(payload)])
  {
  }

  lemma ActivatedExactly(db: Db, version: string)
    ensures var (after, r) := ActivateSnapshot(db, version);
            && (r.Ok? <==> version in db.registry.snapshots)
            && (r.Ok? ==> r.value == version)
            && after == db.(registry := Registry(db.registry.snapshots, db.registry.schemas,
                                                 if r.Ok? then version else db.registry.current))
  {
  }

  // ----- Repeated requests -----

  /** Where a call's answer is stored, if it carries a key. */
  function Place(call: Call): Option<(Scope, Id)> {
    match call
    case OnOperation(CallCreateOperation(_, _, _, Some(k))) => Some((Requests, k))
    case OnOperation(CallCancelOperation(op, _, Some(k))) => Some((Scope.Cancel(op), k))
    case OnOperation(CallCreateReplay(input, _, _)) =>
      if input.key.Some? then Some((Scope.Replay(input.source), input.key.value)) else None
    case OnApproval(CallStartOobChallenge(approval, _, Some(k))) => Some((OobStart(approval), k))
    case OnApproval(CallVerifyOobChallenge(approval, _, Some(k))) => Some((OobVerify(approval), k))
    case OnApproval(CallConsumeApproval(input, _)) =>
      if input.key.Some? then Some((Decide(input.approval), input.key.value)) else None
    case OnRegistry(CallMintSnapshot(_, _, Some(k))) => Some((Mints, k))
    case OnRegistry(CallRegisterSchema(_, _, Some(k))) => Some((Registrations, k))
    case _ => None
  }

  /** What such a call answers. */
  function AnswerTo(db: Db, call: Call, now: Time): Result<Reply> {
    match call
    case OnOperation(CallCreateOperation(origin, op, audit, key)) => CreateOperation(db, origin, op, audit, key, now).1
    case OnOperation(CallCancelOperation(op, reason, key)) => CancelOperation(db, op, reason, key, now).1
    case OnOperation(CallCreateReplay(input, op, audit)) => CreateReplay(db, input, op, audit, now).1
    case OnApproval(CallStartOobChallenge(approval, challenge, key)) =>
      StartOobChallenge(db, approval, challenge, key, now).1
    case OnApproval(CallVerifyOobChallenge(approval, challenge, key)) =>
      VerifyOobChallenge(db, approval, challenge, key, now).1
    case OnApproval(CallConsumeApproval(input, syscall)) => ConsumeApproval(db, input, syscall, now).1
    case OnRegistry(CallMintSnapshot(payload, digest, key)) => MintSnapshot(db, payload, digest, key).1
    case OnRegistry(CallRegisterSchema(payload, digest, key)) => RegisterSchema(db, payload, digest, key).1
    case _ => Err(Unsupported("no answer"))
  }

  /** The one answer that is given without being stored: to verifying a challenge that is verified already. */
  predicate VerifiedBefore(db: Db, call: Call) {
    && Place(call).Some? && Place(call).value !in db.replies
    && call.OnApproval? && call.approval.CallVerifyOobChallenge? && call.approval.challenge in db.challenges
    && db.challenges[call.approval.challenge].status != ChallengePending
  }

  predicate KeepsReplies(db: Db, after: Db) {
    forall place | place in db.replies :: place in after.replies && after.replies[place] == db.replies[place]
  }

  /** What the call was answered is stored, with that one exception, and nothing stored is lost. */
  predicate Stores(db: Db, after: Db, call: Call, answer: Result<Reply>) {
    && KeepsReplies(db, after)
    && (Place(call).Some? && answer.Ok? ==>
          (Place(call).value in after.replies <==> !VerifiedBefore(db, call))
          && (Place(call).value in after.replies ==> after.replies[Place(call).value] == answer.value))
    && (Place(call).Some? && Place(call).value in db.replies ==>
          after == db && answer == Ok(db.replies[Place(call).value]))
  }

  lemma CreateStores(db: Db, origin: Id, op: Id, audit: Id, key: Option<Id>, now: Time)
    ensures var (after, r) := CreateOperation(db, origin, op, audit, key, now);
            Stores(db, after, OnOperation(CallCreateOperation(origin, op, audit, key)), r)
  {
  }

  lemma CancelStores(db: Db, op: Id, reason: Reason, key: Option<Id>, now: Time)
    ensures var (after, r) := CancelOperation(db, op, reason, key, now);
            Stores(db, after, OnOperation(CallCancelOperation(op, reason, key)), r)
  {
  }

  lemma ReplayStores(db: Db, input: ReplayInput, op: Id, audit: Id, now: Time)
    ensures var (after, r) := CreateReplay(db, input, op, audit, now);
            Stores(db, after, OnOperation(CallCreateReplay(input, op, audit)), r)
  {
  }

  lemma StartStores(db: Db, approval: Id, challenge: Id, key: Option<Id>, now: Time)
    ensures var (after, r) := StartOobChallenge(db, approval, challenge, key, now);
            Stores(db, after, OnApproval(CallStartOobChallenge(approval, challenge, key)), r)
  {
  }

  lemma VerifyStores(db: Db, approval: Id, challenge: Id, key: Option<Id>, now: Time)
    ensures var (after, r) := VerifyOobChallenge(db, approval, challenge, key, now);
            Stores(db, after, OnApproval(CallVerifyOobChallenge(approval, challenge, key)), r)
  {
  }

  lemma DecisionStores(db: Db, input: ConsumeInput, syscall: Id, now: Time)
    ensures var (after, r) := ConsumeApproval(db, input, syscall, now);
            Stores(db, after, OnApproval(CallConsumeApproval(input, syscall)), r)
  {
    if NotAnswered(db, Decide(input.approval), input.key) {
      DecidedExactly(db, input, syscall, now);
      if Decidable(db, input, syscall, now) {
        AnswerIsWritten(db, input, syscall, now);
      }
    }
  }

  lemma MintStores(db: Db, payload: Value, digest: string, key: Option<Id>)
    ensures var (after, r) := MintSnapshot(db, payload, digest, key);
            Stores(db, after, OnRegistry(CallMintSnapshot(payload, digest, key)), r)
  {
    if NotAnswered(db, Mints, key) {
      MintedExactly(db, payload, digest, key);
    }
  }

  lemma RegisterStores(db: Db, payload: Value, digest: string, key: Option<Id>)
    ensures var (after, r) := RegisterSchema(db, payload, digest, key);
            Stores(db, after, OnRegistry(CallRegisterSchema(payload, digest, key)), r)
  {
    if NotAnswered(db, Registrations, key) {
      SchemaRegisteredExactly(db, payload, digest, key);
    }
  }

  lemma PlainCallsKeepReplies(db: Db, call: Call, now: Time)
    requires match call
             case OnOperation(c) => c.CallUpdateOperationState? || c.CallAppendTimelineItem?
             case OnApproval(c) => c.CallCreateApprovalItem? || c.CallUpdateSyscallStatus?
             case OnLease(c) => true
             case OnRegistry(c) => c.CallActivateSnapshot?
    ensures Apply(db, call, now).replies == db.replies
  {
    if call.OnLease? {
      LeaseCallOnlyLeases(db, call.lease, now);
    }
  }

  lemma CallStores(db: Db, call: Call, now: Time)
    ensures Stores(db, Apply(db, call, now), call, AnswerTo(db, call, now))
  {
    match call
    case OnOperation(CallCreateOperation(origin, op, audit, key)) => CreateStores(db, origin, op, audit, key, now);
    case OnOperation(CallCancelOperation(op, reason, key)) => CancelStores(db, op, reason, key, now);
    case OnOperation(CallCreateReplay(input, op, audit)) => ReplayStores(db, input, op, audit, now);
    case OnApproval(CallStartOobChallenge(approval, challenge, key)) => StartStores(db, approval, challenge, key, now);
    case OnApproval(CallVerifyOobChallenge(approval, challenge, key)) => VerifyStores(db, approval, challenge, key, now);
    case OnApproval(CallConsumeApproval(input, syscall)) => DecisionStores(db, input, syscall, now);
    case OnRegistry(CallMintSnapshot(payload, digest, key)) => MintStores(db, payload, digest, key);
    case OnRegistry(CallRegisterSchema(payload, digest, key)) => RegisterStores(db, payload, digest, key);
    case _ => PlainCallsKeepReplies(db, call, now);
  }

  /** The exception shows when the key comes again with another challenge of the approval: that request is not answered
      alike, but verifies its challenge. */
  lemma UnstoredAnswerDiffers(db: Db, approval: Id, verified: Id, other: Id, key: Id, now: Time)
    requires (OobVerify(approval), key) !in db.replies && verified in db.challenges && other in db.challenges
    requires db.challenges[verified].approval == approval && db.challenges[verified].status != ChallengePending
    requires db.challenges[other].approval == approval && db.challenges[other].status == ChallengePending
    requires now <= db.challenges[other].expiresAt
    ensures var first := OnApproval(CallVerifyOobChallenge(approval, verified, Some(key)));
            var second := OnApproval(CallVerifyOobChallenge(approval, other, Some(key)));
            && Place(first) == Place(second)
            && AnswerTo(db, first, now) == Ok(ChallengeVerified(approval, verified)) && Apply(db, first, now) == db
            && AnswerTo(db, second, now) == Ok(ChallengeVerified(approval, other))
            && other in Apply(db, second, now).challenges
            && Apply(db, second, now).challenges[other].status == Verified
  {
    ChallengeVerifiedExactly(db, approval, verified, Some(key), now);
    ChallengeVerifiedExactly(db, approval, other, Some(key), now);
  }

  lemma {:induction false} RepliesStay(db: Db, events: seq<Event>, k: nat)
    requires k <= |events|
    ensures KeepsReplies(Run(db, events[..k]), Run(db, events))
  {
    if k == |events| {
      assert events[..k] == events;
    } else {
      var (before, last) := (events[..|events| - 1], events[|events| - 1]);
      assert before[..k] == events[..k];
      RepliesStay(db, before, k);
      CallStores(Run(db, before), last.call, last.at);
    }
  }

  /** A request that was answered under a key is answered the same whenever the key comes again for the same endpoint
      and resource, with whatever arguments, and changes nothing then. */
  lemma RepeatedRequestIsAnsweredAlike(db: Db, events: seq<Event>, k: nat, again: Call, now: Time)
    requires k < |events| && Place(again).Some? && Place(again) == Place(events[k].call)
    requires AnswerTo(Run(db, events[..k]), events[k].call, events[k].at).Ok?
    requires !VerifiedBefore(Run(db, events[..k]), events[k].call)
    ensures Apply(Run(db, events), again, now) == Run(db, events)
    ensures AnswerTo(Run(db, events), again, now) == AnswerTo(Run(db, events[..k]), events[k].call, events[k].at)
  {
    var e := events[k];
    assert events[..k + 1][..k] == events[..k];
    CallStores(Run(db, events[..k]), e.call, e.at);
    RepliesStay(db, events, k + 1);
    CallStores(Run(db, events), again, now);
  }
}
