/** The review queue and the control plane share the capability tables: what one activates is what the other pins. */
module ReviewedActivations {
  import opened Prelude
  import opened Json
  import opened ActionSchemas
  import opened Database
  import PinnedCapabilities
  import Queue = ReviewQueue

  datatype Plane = Plane(queue: Queue.Tables, db: Db)

  function Versions(registry: Registry): set<Queue.Version> { set v | v in registry.snapshots :: Queue.Version(v) }

  /** Both sides see the same stored snapshots and the same active version. */
  predicate Agree(p: Plane) {
    p.queue.snapshots == Versions(p.db.registry) && p.queue.current == Queue.Version(p.db.registry.current)
  }

  function StartPlane(registry: Registry): Plane {
    Plane(Queue.Tables(Versions(registry), Queue.Version(registry.current), map[], [], map[]), Fresh(registry))
  }

  datatype Step =
    | MintStep(payload: Value, digest: string, key: Option<Id>)
    | ProposeStep(item: Queue.Id, version: Queue.Version, queueKey: Option<Queue.Key>)
    | DecideStep(input: Queue.DecideInput)
    | OtherStep(call: Call)

  predicate Elsewhere(call: Call) {
    call.OnRegistry? ==> call.registry.CallRegisterSchema?
  }

  function MintOnPlane(p: Plane, payload: Value, digest: string, key: Option<Id>): Plane {
    var (db, r) := MintSnapshot(p.db, payload, digest, key);
    var isNew := Earlier(p.db, Mints, key).None? && r.Ok?;
    Plane(if isNew then Queue.Next(p.queue, Queue.Mint(Queue.Version(r.value.version))) else p.queue, db)
  }

  /** A decision that applies a version writes it as the active one. */
  function DecideOnPlane(p: Plane, input: Queue.DecideInput): Plane {
    var queue := Queue.Decided(p.queue, input).0;
    var n := |p.queue.decisions|;
    Plane(queue,
          if |queue.decisions| > n && queue.decisions[n].applied.Some? then
            ActivateSnapshot(p.db, queue.decisions[n].applied.value.text).0
          else p.db)
  }

  function NextPlane(p: Plane, step: Step, now: Time): Plane {
    match step
    case MintStep(payload, digest, key) => MintOnPlane(p, payload, digest, key)
    case ProposeStep(item, version, key) => p.(queue := Queue.Proposed(p.queue, item, version, key).0)
    case DecideStep(input) => DecideOnPlane(p, input)
    case OtherStep(call) => if Elsewhere(call) then p.(db := Apply(p.db, call, now)) else p
  }

  function RunPlane(registry: Registry, steps: seq<(Step, Time)>): Plane {
    if steps == [] then StartPlane(registry)
    else
      var last := steps[|steps| - 1];
      NextPlane(RunPlane(registry, steps[..|steps| - 1]), last.0, last.1)
  }

  // ----- What every step keeps -----

  lemma OtherCallsKeepSnapshots(db: Db, call: Call, now: Time)
    requires Elsewhere(call)
    ensures var after := Apply(db, call, now).registry;
            after.snapshots == db.registry.snapshots && after.current == db.registry.current
  {
    match call
    case OnOperation(c) => OperationCallKeepsGrants(db, c, now);
    case OnApproval(c) => ApprovalCallKeepsLeases(db, c, now);
    case OnLease(c) => LeaseCallOnlyLeases(db, c, now);
    case OnRegistry(CallRegisterSchema(payload, digest, key)) =>
      PinnedCapabilities.RegisterAddsOne(db, payload, digest, key);
      assert RegisterSchema(db, payload, digest, key).0.registry.current == db.registry.current;
  }

  lemma MintAgrees(p: Plane, payload: Value, digest: string, key: Option<Id>)
    requires Agree(p)
    ensures Agree(MintOnPlane(p, payload, digest, key))
    ensures var after := MintOnPlane(p, payload, digest, key).queue;
            after == p.queue.(snapshots := after.snapshots) && p.queue.snapshots <= after.snapshots
  {
    var after := MintOnPlane(p, payload, digest, key).db.registry;
    assert forall v :: v in after.snapshots ==> v in p.db.registry.snapshots || v == "cap:sha256:" + digest;
  }

  lemma DecisionAgrees(p: Plane, input: Queue.DecideInput, bootstrap: Queue.Version)
    requires Agree(p) && Queue.Orderly(p.queue, bootstrap)
    ensures Agree(DecideOnPlane(p, input))
  {
    Queue.NextDecides(p.queue, Queue.Decide(input));
    Queue.DecideKeepsOrder(p.queue, input, bootstrap);
  }

  lemma StepAgrees(p: Plane, step: Step, now: Time, bootstrap: Queue.Version)
    requires Agree(p) && Queue.Orderly(p.queue, bootstrap)
    ensures Agree(NextPlane(p, step, now)) && Queue.Orderly(NextPlane(p, step, now).queue, bootstrap)
  {
    match step
    case MintStep(payload, digest, key) => MintAgrees(p, payload, digest, key);
    case ProposeStep(item, version, key) => Queue.ProposeKeepsOrder(p.queue, item, version, key, bootstrap);
    case DecideStep(input) =>
      DecisionAgrees(p, input, bootstrap);
      Queue.DecideKeepsOrder(p.queue, input, bootstrap);
    case OtherStep(call) =>
      if Elsewhere(call) {
        OtherCallsKeepSnapshots(p.db, call, now);
      }
  }

  lemma {:induction false} AlwaysAgree(registry: Registry, steps: seq<(Step, Time)>)
    requires registry.current in registry.snapshots
    ensures Agree(RunPlane(registry, steps))
    ensures Queue.Orderly(RunPlane(registry, steps).queue, Queue.Version(registry.current))
  {
    if steps != [] {
      var last := steps[|steps| - 1];
      AlwaysAgree(registry, steps[..|steps| - 1]);
      StepAgrees(RunPlane(registry, steps[..|steps| - 1]), last.0, last.1, Queue.Version(registry.current));
    }
  }

  /** In every run a new operation pins the version that the decided review items applied last. */
  lemma NewOperationsPinTheLastApplied(registry: Registry, steps: seq<(Step, Time)>, origin: Id, op: Id, audit: Id,
                                       key: Option<Id>, now: Time)
    requires registry.current in registry.snapshots
    ensures var p := RunPlane(registry, steps);
            var (after, r) := CreateOperation(p.db, origin, op, audit, key, now);
            r.Ok? && Earlier(p.db, Requests, key).None? ==>
              && op in after.operations
              && Queue.Version(after.operations[op].pinned) ==
                 Queue.LastApplied(p.queue.decisions, Queue.Version(registry.current))
              && after.operations[op].pinned in after.registry.snapshots
  {
    AlwaysAgree(registry, steps);
  }

  /** And every activation finds its snapshot stored. */
  lemma ActivationsSucceed(registry: Registry, steps: seq<(Step, Time)>, input: Queue.DecideInput)
    requires registry.current in registry.snapshots
    requires Queue.Activates(RunPlane(registry, steps).queue, Queue.Decide(input))
    ensures var p := RunPlane(registry, steps);
            var applied := Queue.Decided(p.queue, input).0.current;
            && ActivateSnapshot(p.db, applied.text).1 == Ok(applied.text)
            && DecideOnPlane(p, input).db.registry.current == applied.text
  {
    AlwaysAgree(registry, steps);
    var p := RunPlane(registry, steps);
    Queue.NextDecides(p.queue, Queue.Decide(input));
    Queue.DecideKeepsOrder(p.queue, input, Queue.Version(registry.current));
    DecisionAgrees(p, input, Queue.Version(registry.current));
  }
}
