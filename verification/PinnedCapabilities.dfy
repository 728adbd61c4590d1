/** The capability an approval was built from is the one enforced when it is consumed, whatever is minted, registered
    or activated in between. */
module PinnedCapabilities {
  import opened Prelude
  import opened Json
  import opened ActionSchemas
  import opened Database

  /** Every stored snapshot names only registered schemas. */
  predicate RegistryKnown(registry: Registry) {
    forall v | v in registry.snapshots :: SnapshotKnown(registry.snapshots[v], registry.schemas)
  }

  /** Stored snapshots and schemas are never replaced or removed. */
  predicate Grows(registry: Registry, after: Registry) {
    && (forall v | v in registry.snapshots :: v in after.snapshots && after.snapshots[v] == registry.snapshots[v])
    && forall s | s in registry.schemas :: s in after.schemas && after.schemas[s] == registry.schemas[s]
  }

  /** Operations keep their pinned version, approvals their operation and diff. */
  predicate KeepsPins(db: Db, after: Db) {
    && (forall o | o in db.operations ::
          o in after.operations && after.operations[o].pinned == db.operations[o].pinned)
    && forall a | a in db.approvals ::
         && a in after.approvals && after.approvals[a].operation == db.approvals[a].operation
         && after.approvals[a].diff == db.approvals[a].diff
  }

  /** A parsed JSON document has one member per key. */
  ghost predicate ParsedPayload(call: Call) {
    call.OnRegistry? && call.registry.CallMintSnapshot? ==> WellFormed(call.registry.payload)
  }

  ghost predicate ParsedPayloads(events: seq<Event>) { forall k | 0 <= k < |events| :: ParsedPayload(events[k].call) }

  // ----- One call -----

  lemma MintAddsOne(db: Db, payload: Value, digest: string, key: Option<Id>)
    ensures var (before, after) := (db.registry, MintSnapshot(db, payload, digest, key).0.registry);
            && after.schemas == before.schemas
            && (after.snapshots == before.snapshots
                || (SnapshotKnown(payload, before.schemas)
                    && exists version :: version !in before.snapshots
                                         && after.snapshots == before.snapshots[version := Canonical(payload)]))
  {
  }

  lemma MintGrows(db: Db, payload: Value, digest: string, key: Option<Id>)
    requires RegistryKnown(db.registry) && WellFormed(payload)
    ensures var after := MintSnapshot(db, payload, digest, key).0.registry;
            Grows(db.registry, after) && RegistryKnown(after)
  {
    MintAddsOne(db, payload, digest, key);
    if SnapshotKnown(payload, db.registry.schemas) {
      CanonicalStaysKnown(payload, db.registry.schemas);
    }
  }

  lemma RegisterAddsOne(db: Db, payload: Value, digest: string, key: Option<Id>)
    ensures var (before, after) := (db.registry, RegisterSchema(db, payload, digest, key).0.registry);
            && after.snapshots == before.snapshots
            && (after.schemas == before.schemas
                || exists ref :: ref !in before.schemas && after.schemas == before.schemas[ref := Canonical(payload)])
  {
  }

  lemma RegisterGrows(db: Db, payload: Value, digest: string, key: Option<Id>)
    requires RegistryKnown(db.registry)
    ensures var after := RegisterSchema(db, payload, digest, key).0.registry;
            Grows(db.registry, after) && RegistryKnown(after)
  {
    var after := RegisterSchema(db, payload, digest, key).0.registry;
    RegisterAddsOne(db, payload, digest, key);
    forall v | v in db.registry.snapshots ensures SnapshotKnown(db.registry.snapshots[v], after.schemas) {
      KnownIsMonotone(db.registry.snapshots[v], db.registry.schemas, after.schemas);
    }
  }

  lemma ActivateGrows(db: Db, version: string)
    requires RegistryKnown(db.registry)
    ensures var after := ActivateSnapshot(db, version).0.registry;
            Grows(db.registry, after) && RegistryKnown(after)
  {
  }

  lemma CallGrowsRegistry(db: Db, call: Call, now: Time)
    requires RegistryKnown(db.registry) && ParsedPayload(call)
    ensures var after := Apply(db, call, now).registry;
            Grows(db.registry, after) && RegistryKnown(after)
  {
    match call
    case OnOperation(c) => OperationCallKeepsGrants(db, c, now);
    case OnApproval(c) => ApprovalCallKeepsLeases(db, c, now);
    case OnLease(c) => LeaseCallOnlyLeases(db, c, now);
    case OnRegistry(CallMintSnapshot(payload, digest, key)) => MintGrows(db, payload, digest, key);
    case OnRegistry(CallRegisterSchema(payload, digest, key)) => RegisterGrows(db, payload, digest, key);
    case OnRegistry(CallActivateSnapshot(version)) => ActivateGrows(db, version);
  }

  lemma CreateKeepsPins(db: Db, origin: Id, op: Id, audit: Id, key: Option<Id>, now: Time)
    ensures KeepsPins(db, CreateOperation(db, origin, op, audit, key, now).0)
  {
  }

  lemma UpdateKeepsPins(db: Db, op: Id, state: OperationState, reason: Option<Reason>, audit: Id, now: Time)
    ensures KeepsPins(db, UpdateOperationState(db, op, state, reason, audit, now).0)
  {
  }

  lemma CancelKeepsPins(db: Db, op: Id, reason: Reason, key: Option<Id>, now: Time)
    ensures KeepsPins(db, CancelOperation(db, op, reason, key, now).0)
  {
  }

  lemma ReplayKeepsPins(db: Db, input: ReplayInput, op: Id, audit: Id, now: Time)
    ensures KeepsPins(db, CreateReplay(db, input, op, audit, now).0)
  {
  }

  lemma OperationCallKeepsPins(db: Db, call: OperationCall, now: Time)
    ensures KeepsPins(db, ApplyOperation(db, call, now))
  {
    match call
    case CallCreateOperation(origin, op, audit, key) => CreateKeepsPins(db, origin, op, audit, key, now);
    case CallUpdateOperationState(op, state, reason, audit) => UpdateKeepsPins(db, op, state, reason, audit, now);
    case CallCancelOperation(op, reason, key) => CancelKeepsPins(db, op, reason, key, now);
    case CallCreateReplay(input, op, audit) =>
      ReplayKeepsPins(db, input, op, audit, now);
    case CallAppendTimelineItem(audit, item) =>
  }

  lemma DecisionKeepsPins(db: Db, input: ConsumeInput, syscall: Id, now: Time)
    ensures KeepsPins(db, ConsumeApproval(db, input, syscall, now).0)
  {
  }

  lemma OtherApprovalCallKeepsPins(db: Db, call: ApprovalCall, now: Time)
    requires !call.CallConsumeApproval?
    ensures KeepsPins(db, ApplyApproval(db, call, now))
  {
  }

  lemma ApprovalCallKeepsPins(db: Db, call: ApprovalCall, now: Time)
    ensures KeepsPins(db, ApplyApproval(db, call, now))
  {
    match call
    case CallConsumeApproval(input, syscall) => DecisionKeepsPins(db, input, syscall, now);
    case _ => OtherApprovalCallKeepsPins(db, call, now);
  }

  lemma CallKeepsPins(db: Db, call: Call, now: Time)
    ensures KeepsPins(db, Apply(db, call, now))
  {
    match call
    case OnOperation(c) => OperationCallKeepsPins(db, c, now);
    case OnApproval(c) => ApprovalCallKeepsPins(db, c, now);
    case OnLease(c) => LeaseCallOnlyLeases(db, c, now);
    case OnRegistry(c) => RegistryCallOnlyRegistry(db, c);
  }

  // ----- Runs -----

  lemma {:induction false} RunsKeepPins(registry: Registry, events: seq<Event>, k: nat)
    requires RegistryKnown(registry) && ParsedPayloads(events) && k <= |events|
    ensures var (db, after) := (Run(Fresh(registry), events[..k]), Run(Fresh(registry), events));
            KeepsPins(db, after) && Grows(db.registry, after.registry) && RegistryKnown(after.registry)
  {
    if events == [] {
    } else if k == |events| {
      assert events[..k] == events;
      RunsKeepPins(registry, events[..k - 1], 0);
      CallGrowsRegistry(Run(Fresh(registry), events[..k - 1]), events[k - 1].call, events[k - 1].at);
    } else {
      var before, last := events[..|events| - 1], events[|events| - 1];
      assert before[..k] == events[..k];
      RunsKeepPins(registry, before, k);
      CallKeepsPins(Run(Fresh(registry), before), last.call, last.at);
      CallGrowsRegistry(Run(Fresh(registry), before), last.call, last.at);
    }
  }

  /** The submission resolved `d` from the operation's pinned snapshot. */
  predicate ResolvedFor(db: Db, op: Id, d: ActionDescriptor) {
    && op in db.operations && db.operations[op].pinned in db.registry.snapshots
    && Resolve(db.registry.snapshots[db.operations[op].pinned], "email", "send") == Ok(d)
  }

  /** ...and proposed it for approval. */
  predicate ProposedWith(db: Db, approval: Id, op: Id, d: ActionDescriptor, proposal: Value) {
    && approval in db.approvals && db.approvals[approval].operation == op
    && db.approvals[approval].diff == DiffPayload(d, proposal)
  }

  lemma ResolvedDescriptorIsKnown(registry: Registry, pinned: string, toolName: string, actionName: string)
    requires RegistryKnown(registry) && pinned in registry.snapshots
    requires Resolve(registry.snapshots[pinned], toolName, actionName).Ok?
    ensures var d := Resolve(registry.snapshots[pinned], toolName, actionName).value;
            && d.toolName == toolName && d.actionName == actionName && d.argsSchemaRef in registry.schemas
            && (d.resultSchemaRef.Some? ==> d.resultSchemaRef.value in registry.schemas)
  {
    assert SnapshotKnown(registry.snapshots[pinned], registry.schemas);
    ResolvedFromKnown(GetArray(registry.snapshots[pinned], "capabilities").value, toolName, actionName, registry.schemas);
  }

  /** Only the payload can still be refused; otherwise the syscall is the descriptor's. */
  function PayloadDecides(d: ActionDescriptor, normalized: Result<Value>, invalid: Option<StorageError>): Result<Prepared> {
    match normalized
    case Err(e) => Err(e)
    case Ok(args) =>
      if invalid.Some? then Err(invalid.value)
      else Ok(Prepared(d.toolName, d.actionName, d.argsSchemaRef, d.resultSchemaRef, args))
  }

  lemma PreparedFromPin(registry: Registry, pinned: string, d: ActionDescriptor, proposal: Value,
                        normalized: Result<Value>, invalid: Option<StorageError>)
    requires pinned in registry.snapshots && d.argsSchemaRef in registry.schemas
    requires Resolve(registry.snapshots[pinned], d.toolName, d.actionName) == Ok(d)
    ensures PrepareSyscall(registry, pinned, DiffPayload(d, proposal), normalized, invalid) ==
            PayloadDecides(d, normalized, invalid)
  {
    DiffPayloadReads(d, proposal);
  }

  /** From resolution (`i`) through proposal (`j`) to any later moment: the syscall is prepared from the descriptor
      resolved at submission, and only the payload itself can still stop it. */
  lemma PinnedCapabilityIsEnforced(
      registry: Registry, events: seq<Event>, i: nat, j: nat, approval: Id, op: Id, d: ActionDescriptor,
      proposal: Value, normalized: Result<Value>, invalid: Option<StorageError>)
    requires RegistryKnown(registry) && ParsedPayloads(events) && i <= j <= |events|
    requires ResolvedFor(Run(Fresh(registry), events[..i]), op, d)
    requires ProposedWith(Run(Fresh(registry), events[..j]), approval, op, d, proposal)
    ensures var db := Run(Fresh(registry), events);
            && approval in db.approvals && db.approvals[approval].operation == op && op in db.operations
            && d.argsSchemaRef in db.registry.schemas
            && PrepareSyscall(db.registry, db.operations[op].pinned, db.approvals[approval].diff, normalized, invalid)
               == PayloadDecides(d, normalized, invalid)
            && d.toolName == "email" && d.actionName == "send"
  {
    var db := Run(Fresh(registry), events);
    RunsKeepPins(registry, events, i);
    RunsKeepPins(registry, events, j);
    ResolvedDescriptorIsKnown(db.registry, db.operations[op].pinned, "email", "send");
    PreparedFromPin(db.registry, db.operations[op].pinned, d, proposal, normalized, invalid);
  }

  /** Whatever diff an approval holds, what is granted is an action of the pinned snapshot with registered schemas. */
  lemma GrantedIsPinned(registry: Registry, pinned: string, diff: Value, normalized: Result<Value>,
                        invalid: Option<StorageError>)
    requires RegistryKnown(registry)
    requires PrepareSyscall(registry, pinned, diff, normalized, invalid).Ok?
    ensures var call := PrepareSyscall(registry, pinned, diff, normalized, invalid).value;
            && pinned in registry.snapshots
            && Resolve(registry.snapshots[pinned], call.toolName, call.actionName).Ok?
            && var d := Resolve(registry.snapshots[pinned], call.toolName, call.actionName).value;
               && call.argsSchemaRef == d.argsSchemaRef && call.resultSchemaRef == d.resultSchemaRef
               && call.argsSchemaRef in registry.schemas
               && (call.resultSchemaRef.Some? ==> call.resultSchemaRef.value in registry.schemas)
  {
    var call := PrepareSyscall(registry, pinned, diff, normalized, invalid).value;
    ResolvedDescriptorIsKnown(registry, pinned, call.toolName, call.actionName);
  }
}
