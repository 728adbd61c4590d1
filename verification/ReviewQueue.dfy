/** Proposals to activate a capability snapshot, and their decisions. */
module ReviewQueue {
  import opened Prelude

  datatype Id = Id(text: string)

  datatype Version = Version(text: string)

  datatype Key = Key(text: string)

  datatype Domain = CapabilityRegistry | OtherDomain(name: string)

  datatype ItemStatus = Pending | Resolved

  /** `proposed`: the version the proposal names. */
  datatype Item = Item(
    status: ItemStatus, domain: Domain, proposed: Option<Version>, base: Version, resolved: Option<Version>)

  datatype Choice = Approve | Reject | Edit | OtherChoice(text: string)

  /** A row of `review_queue_decisions`. */
  datatype DecisionRow = DecisionRow(item: Id, choice: Choice, applied: Option<Version>)

  datatype Reply = Created(item: Id) | Decision(item: Id, choice: Choice, applied: Option<Version>)

  datatype Scope = Creations | Decisions(item: Id)

  datatype Tables = Tables(
    snapshots: set<Version>, current: Version, items: map<Id, Item>, decisions: seq<DecisionRow>,
    replies: map<(Scope, Key), Reply>)

  /** `edited`: an edited payload, and the version it names if it names one. */
  datatype DecideInput = DecideInput(item: Id, choice: Choice, edited: Option<Option<Version>>, key: Option<Key>)

  function Earlier(t: Tables, scope: Scope, key: Option<Key>): Option<Reply> {
    if key.Some? && (scope, key.value) in t.replies then Some(t.replies[(scope, key.value)]) else None
  }

  function Remember(replies: map<(Scope, Key), Reply>, scope: Scope, key: Option<Key>, reply: Reply)
    : map<(Scope, Key), Reply>
  {
    if key.Some? then replies[(scope, key.value) := reply] else replies
  }

  function Proposed(t: Tables, id: Id, version: Version, key: Option<Key>): (Tables, Result<Reply>) {
    match Earlier(t, Creations, key)
    case Some(reply) => (t, Ok(reply))
    case None =>
      if version !in t.snapshots then (t, Err(NotFound("capability snapshot")))
      else if version == t.current then (t, Err(Conflict("capability snapshot is already active")))
      else if id in t.items then (t, Err(Conflict("insert")))
      else
        (t.(items := t.items[id := Item(Pending, CapabilityRegistry, Some(version), t.current, None)],
            replies := Remember(t.replies, Creations, key, Created(id))),
         Ok(Created(id)))
  }

  /** The version that a decision other than a rejection names. */
  function Chosen(item: Item, input: DecideInput): Option<Version> {
    if input.edited.Some? then input.edited.value else item.proposed
  }

  /** The version the decision applies, if it applies one. An edited payload counts for any decision but a rejection;
      that the proposal was made against another version does not. */
  function Applied(t: Tables, item: Item, input: DecideInput): Result<Option<Version>> {
    if input.choice == Reject then Ok(None)
    else match Chosen(item, input)
      case None => Err(InvalidInput("capability_snapshot_version"))
      case Some(version) =>
        if version in t.snapshots then Ok(Some(version)) else Err(InvalidInput("unknown capability snapshot"))
  }

  function Decided(t: Tables, input: DecideInput): (Tables, Result<Reply>) {
    match Earlier(t, Decisions(input.item), input.key)
    case Some(reply) => (t, Ok(reply))
    case None =>
      if input.item !in t.items then (t, Err(NotFound("review item")))
      else
        var item := t.items[input.item];
        if item.status != Pending then (t, Err(Conflict("review item is not pending")))
        else if item.domain != CapabilityRegistry then (t, Err(Unsupported("review target domain")))
        else if input.choice.OtherChoice? then (t, Err(InvalidInput("decision")))
        else match Applied(t, item, input)
          case Err(e) => (t, Err(e))
          case Ok(applied) =>
            var reply := Decision(input.item, input.choice, applied);
            (t.(current := if applied.Some? then applied.value else t.current,
                items := t.items[input.item := item.(status := Resolved, resolved := applied)],
                decisions := t.decisions + [DecisionRow(input.item, input.choice, applied)],
                replies := Remember(t.replies, Decisions(input.item), input.key, reply)),
             Ok(reply))
  }

  class ReviewQueue {
    var tables: Tables

    constructor (bootstrap: Version)
      ensures tables == Tables({bootstrap}, bootstrap, map[], [], map[])
    {
      tables := Tables({bootstrap}, bootstrap, map[], [], map[]);
    }

    method CreateCapabilityActivationReviewItem(id: Id, version: Version, key: Option<Key>) returns (r: Result<Reply>)
      modifies this
      ensures (tables, r) == Proposed(old(tables), id, version, key)
    {
      if key.Some? && (Creations, key.value) in tables.replies {
        return Ok(tables.replies[(Creations, key.value)]);
      }
      if version !in tables.snapshots {
        return Err(NotFound("capability snapshot"));
      }
      var current := tables.current;
      if version == current {
        return Err(Conflict("capability snapshot is already active"));
      }
      if id in tables.items {
        return Err(Conflict("insert"));
      }
      var tx := tables.(items := tables.items[id := Item(Pending, CapabilityRegistry, Some(version), current, None)]);
      if key.Some? {
        tx := tx.(replies := tx.replies[(Creations, key.value) := Created(id)]);
      }
      tables := tx;
      return Ok(Created(id));
    }

    /** The active version is written before the item is resolved. */
    method DecideReviewItem(input: DecideInput) returns (r: Result<Reply>)
      modifies this
      ensures (tables, r) == Decided(old(tables), input)
    {
      if input.key.Some? && (Decisions(input.item), input.key.value) in tables.replies {
        return Ok(tables.replies[(Decisions(input.item), input.key.value)]);
      }
      var tx := tables;
      if input.item !in tx.items {
        return Err(NotFound("review item"));
      }
      var item := tx.items[input.item];
      if item.status != Pending {
        return Err(Conflict("review item is not pending"));
      }
      if item.domain != CapabilityRegistry {
        return Err(Unsupported("review target domain"));
      }
      if input.choice.OtherChoice? {
        return Err(InvalidInput("decision"));
      }
      var applied: Option<Version> := None;
      if input.choice != Reject {
        var chosen := item.proposed;
        if input.edited.Some? {
          chosen := input.edited.value;
        }
        if chosen.None? {
          return Err(InvalidInput("capability_snapshot_version"));
        }
        if chosen.value !in tx.snapshots {
          return Err(InvalidInput("unknown capability snapshot"));
        }
        tx := tx.(current := chosen.value);
        applied := chosen;
      }
      tx := tx.(items := tx.items[input.item := item.(status := Resolved, resolved := applied)]);
      tx := tx.(decisions := tx.decisions + [DecisionRow(input.item, input.choice, applied)]);
      var response := Decision(input.item, input.choice, applied);
      if input.key.Some? {
        tx := tx.(replies := tx.replies[(Decisions(input.item), input.key.value) := response]);
      }
      tables := tx;
      return Ok(response);
    }
  }

  // ----- One call -----

  predicate NotAnswered(t: Tables, scope: Scope, key: Option<Key>) { key.None? || (scope, key.value) !in t.replies }

  predicate Answered(t: Tables, after: Tables, scope: Scope, key: Option<Key>, answer: Reply) {
    after.replies == match key case None => t.replies case Some(k) => t.replies[(scope, k) := answer]
  }

  /** A version is proposed when it is stored and not active, against the one that is. */
  lemma ProposedExactly(t: Tables, id: Id, version: Version, key: Option<Key>)
    requires NotAnswered(t, Creations, key)
    ensures var (after, r) := Proposed(t, id, version, key);
            && (r.Ok? <==> version in t.snapshots && version != t.current && id !in t.items)
            && (r.Err? ==> after == t)
            && (r.Ok? ==>
                  && r.value == Created(id) && Answered(t, after, Creations, key, r.value) && id in after.items
                  && after.items == t.items[id := after.items[id]]
                  && after.items[id] == Item(Pending, CapabilityRegistry, Some(version), t.current, None)
                  && after.current == t.current && after.decisions == t.decisions && after.snapshots == t.snapshots)
  {
  }

  /** What a decision other than a rejection must come to: the version an edited payload names, or else the proposed one. */
  predicate Names(item: Item, input: DecideInput, version: Version) {
    match input.edited case Some(named) => named == Some(version) case None => item.proposed == Some(version)
  }

  predicate Decidable(t: Tables, input: DecideInput) {
    && input.item in t.items
    && var item := t.items[input.item];
       && item.status == Pending && item.domain == CapabilityRegistry
       && match input.choice
          case Reject => true
          case OtherChoice(_) => false
          case _ => exists version | version in t.snapshots :: Names(item, input, version)
  }

  /** A decision goes through exactly then. It resolves its item and is recorded; a rejection applies nothing, any other
      makes the version it names the active one. */
  lemma DecidedExactly(t: Tables, input: DecideInput)
    requires NotAnswered(t, Decisions(input.item), input.key)
    ensures var (after, r) := Decided(t, input);
            && (r.Ok? <==> Decidable(t, input))
            && (r.Err? ==> after == t)
            && (r.Ok? ==>
                  && r.value.Decision? && r.value.item == input.item && r.value.choice == input.choice
                  && Answered(t, after, Decisions(input.item), input.key, r.value)
                  && (if input.choice == Reject then r.value.applied == None && after.current == t.current
                      else r.value.applied == Some(after.current) && Names(t.items[input.item], input, after.current))
                  && after.decisions == t.decisions + [DecisionRow(input.item, input.choice, r.value.applied)]
                  && after.items == t.items[input.item :=
                       Item(Resolved, CapabilityRegistry, t.items[input.item].proposed, t.items[input.item].base,
                            r.value.applied)]
                  && after.snapshots == t.snapshots)
  {
    if input.item in t.items && Decided(t, input).1.Ok? && input.choice != Reject {
      assert Names(t.items[input.item], input, Decided(t, input).0.current);
    }
  }

  // ----- Runs -----

  datatype Call =
    | Mint(version: Version)
    | Propose(id: Id, version: Version, key: Option<Key>)
    | Decide(input: DecideInput)

  function Next(t: Tables, call: Call): Tables {
    match call
    case Mint(version) => t.(snapshots := t.snapshots + {version})
    case Propose(id, version, key) => Proposed(t, id, version, key).0
    case Decide(input) => Decided(t, input).0
  }

  function Run(calls: seq<Call>, bootstrap: Version): Tables {
    if calls == [] then Tables({bootstrap}, bootstrap, map[], [], map[])
    else Next(Run(calls[..|calls| - 1], bootstrap), calls[|calls| - 1])
  }

  /** The version applied last. */
  function LastApplied(decisions: seq<DecisionRow>, bootstrap: Version): Version {
    if decisions == [] then bootstrap
    else
      var last := decisions[|decisions| - 1];
      if last.applied.Some? then last.applied.value else LastApplied(decisions[..|decisions| - 1], bootstrap)
  }

  ghost predicate HasDecision(decisions: seq<DecisionRow>, id: Id) {
    exists i :: 0 <= i < |decisions| && decisions[i].item == id
  }

  /** What is proposed is stored and was not active then. */
  predicate ItemSound(t: Tables, item: Item) {
    && item.domain == CapabilityRegistry && item.base in t.snapshots
    && item.proposed.Some? && item.proposed.value in t.snapshots && item.proposed.value != item.base
  }

  /** The active version is stored and is the one applied last; an item is resolved exactly when it has a decision, and
      then it has just one. */
  ghost predicate Orderly(t: Tables, bootstrap: Version) {
    && t.current in t.snapshots && t.current == LastApplied(t.decisions, bootstrap)
    && (forall i | 0 <= i < |t.decisions| :: t.decisions[i].item in t.items)
    && (forall i, j | 0 <= i < j < |t.decisions| :: t.decisions[i].item != t.decisions[j].item)
    && forall id | id in t.items ::
         ItemSound(t, t.items[id]) && (t.items[id].status == Resolved <==> HasDecision(t.decisions, id))
  }

  lemma ProposeKeepsOrder(t: Tables, id: Id, version: Version, key: Option<Key>, bootstrap: Version)
    requires Orderly(t, bootstrap)
    ensures Orderly(Proposed(t, id, version, key).0, bootstrap)
  {
    assert id !in t.items ==> !HasDecision(t.decisions, id);
  }

  lemma DecisionIsRecorded(decisions: seq<DecisionRow>, row: DecisionRow, id: Id)
    ensures HasDecision(decisions + [row], id) <==> HasDecision(decisions, id) || row.item == id
  {
    var longer := decisions + [row];
    assert longer[|decisions|] == row;
    assert forall i | 0 <= i < |decisions| :: longer[i] == decisions[i];
  }

  lemma DecideKeepsOrder(t: Tables, input: DecideInput, bootstrap: Version)
    requires Orderly(t, bootstrap)
    ensures Orderly(Decided(t, input).0, bootstrap)
  {
    var (after, r) := Decided(t, input);
    if after != t {
      var row := after.decisions[|t.decisions|];
      assert after.decisions == t.decisions + [row];
      assert !HasDecision(t.decisions, input.item);
      assert after.decisions[..|t.decisions|] == t.decisions;
      forall id ensures HasDecision(after.decisions, id) <==> HasDecision(t.decisions, id) || row.item == id {
        DecisionIsRecorded(t.decisions, row, id);
      }
    }
  }

  lemma {:induction false} AlwaysOrderly(calls: seq<Call>, bootstrap: Version)
    ensures Orderly(Run(calls, bootstrap), bootstrap)
  {
    if calls != [] {
      var t := Run(calls[..|calls| - 1], bootstrap);
      AlwaysOrderly(calls[..|calls| - 1], bootstrap);
      match calls[|calls| - 1]
      case Mint(version) =>
      case Propose(id, version, key) => ProposeKeepsOrder(t, id, version, key, bootstrap);
      case Decide(input) => DecideKeepsOrder(t, input, bootstrap);
    }
  }

  // ----- The version a proposal was made against -----

  function Approval(id: Id): DecideInput { DecideInput(id, Approve, None, None) }

  function Rebased(t: Tables, id: Id, base: Version): Tables
    requires id in t.items
  {
    t.(items := t.items[id := t.items[id].(base := base)])
  }

  /** In every reachable state an approval succeeds exactly when its item is pending, and activates what was proposed;
      the version it was proposed against has no part in that. */
  lemma {:induction false} ApprovedExactly(calls: seq<Call>, bootstrap: Version, id: Id, base: Version)
    ensures var t := Run(calls, bootstrap);
            && (Decided(t, Approval(id)).1.Ok? <==> id in t.items && t.items[id].status == Pending)
            && (Decided(t, Approval(id)).1.Ok? ==> Some(Decided(t, Approval(id)).0.current) == t.items[id].proposed)
            && (id in t.items ==>
                  && Decided(Rebased(t, id, base), Approval(id)).1 == Decided(t, Approval(id)).1
                  && Decided(Rebased(t, id, base), Approval(id)).0.current == Decided(t, Approval(id)).0.current)
  {
    AlwaysOrderly(calls, bootstrap);
  }

  /** Every activation was decided while the version its item was proposed against was active. */
  ghost predicate FollowsBases(t: Tables, bootstrap: Version) {
    forall k | 0 <= k < |t.decisions| && t.decisions[k].applied.Some? ::
      && t.decisions[k].item in t.items
      && t.items[t.decisions[k].item].base == LastApplied(t.decisions[..k], bootstrap)
  }

  /** The decision of a pending item that names a stored version and was not answered before. */
  predicate Activates(t: Tables, call: Call) {
    && call.Decide? && Earlier(t, Decisions(call.input.item), call.input.key).None?
    && call.input.item in t.items
    && var item := t.items[call.input.item];
       && item.status == Pending && item.domain == CapabilityRegistry
       && (call.input.choice == Approve || call.input.choice == Edit)
       && Chosen(item, call.input).Some? && Chosen(item, call.input).value in t.snapshots
  }

  /** Those are the decisions that make a version the active one. */
  lemma ActivatesExactly(t: Tables, call: Call)
    ensures var after := Next(t, call);
            Activates(t, call) <==>
            && |after.decisions| == |t.decisions| + 1 && after.decisions[|t.decisions|].applied.Some?
            && after.decisions[|t.decisions|].applied == Some(after.current)
  {
  }

  /** The check that is not made: an activation finds the version its item was proposed against. */
  predicate BaseIsCurrent(t: Tables, call: Call) {
    Activates(t, call) ==> t.items[call.input.item].base == t.current
  }

  predicate KeepsBases(t: Tables, after: Tables) {
    forall id | id in t.items :: id in after.items && after.items[id].base == t.items[id].base
  }

  /** What one call does to the decisions and to the bases. */
  lemma NextDecides(t: Tables, call: Call)
    ensures var after := Next(t, call);
            && KeepsBases(t, after)
            && if |after.decisions| == |t.decisions| then after.decisions == t.decisions && after.current == t.current
               else call.Decide? && call.input.item in t.items
                    && |after.decisions| == |t.decisions| + 1
                    && after.decisions == t.decisions + [after.decisions[|t.decisions|]]
                    && after.decisions[|t.decisions|].item == call.input.item
  {
  }

  lemma SameDecisionsFollow(t: Tables, after: Tables, bootstrap: Version)
    requires KeepsBases(t, after) && after.decisions == t.decisions
    requires forall i | 0 <= i < |t.decisions| :: t.decisions[i].item in t.items
    ensures FollowsBases(after, bootstrap) <==> FollowsBases(t, bootstrap)
  {
  }

  lemma OneMoreFollows(t: Tables, after: Tables, row: DecisionRow, bootstrap: Version)
    requires KeepsBases(t, after) && after.decisions == t.decisions + [row] && row.item in t.items
    requires forall i | 0 <= i < |t.decisions| :: t.decisions[i].item in t.items
    ensures FollowsBases(after, bootstrap) <==>
            FollowsBases(t, bootstrap)
            && (row.applied.Some? ==> t.items[row.item].base == LastApplied(t.decisions, bootstrap))
  {
    var n := |t.decisions|;
    assert forall k | 0 <= k <= n :: after.decisions[..k] == t.decisions[..k];
    assert t.decisions[..n] == t.decisions && after.decisions[n] == row;
    assert forall k | 0 <= k < n :: after.decisions[k] == t.decisions[k];
  }

  lemma OneMoreActivation(t: Tables, call: Call, bootstrap: Version)
    requires Orderly(t, bootstrap)
    ensures FollowsBases(Next(t, call), bootstrap) <==> FollowsBases(t, bootstrap) && BaseIsCurrent(t, call)
  {
    var after := Next(t, call);
    NextDecides(t, call);
    ActivatesExactly(t, call);
    if |after.decisions| == |t.decisions| {
      SameDecisionsFollow(t, after, bootstrap);
    } else {
      OneMoreFollows(t, after, after.decisions[|t.decisions|], bootstrap);
    }
  }

  ghost predicate AlwaysBaseIsCurrent(calls: seq<Call>, bootstrap: Version) {
    forall k | 0 <= k < |calls| :: BaseIsCurrent(Run(calls[..k], bootstrap), calls[k])
  }

  lemma AlwaysBaseSnoc(calls: seq<Call>, bootstrap: Version)
    requires calls != []
    ensures var n := |calls| - 1;
            AlwaysBaseIsCurrent(calls, bootstrap) <==>
            AlwaysBaseIsCurrent(calls[..n], bootstrap) && BaseIsCurrent(Run(calls[..n], bootstrap), calls[n])
  {
    var before := calls[..|calls| - 1];
    assert forall k | 0 <= k < |before| :: before[..k] == calls[..k] && before[k] == calls[k];
  }

  /** The activations of a run follow the versions they were proposed against exactly when at each of them the item's
      base is the active version. */
  lemma {:induction false} ActivationsFollowBases(calls: seq<Call>, bootstrap: Version)
    ensures FollowsBases(Run(calls, bootstrap), bootstrap) <==> AlwaysBaseIsCurrent(calls, bootstrap)
  {
    if calls != [] {
      var n := |calls| - 1;
      ActivationsFollowBases(calls[..n], bootstrap);
      AlwaysOrderly(calls[..n], bootstrap);
      OneMoreActivation(Run(calls[..n], bootstrap), calls[n], bootstrap);
      AlwaysBaseSnoc(calls, bootstrap);
    }
  }

  lemma RunOne(calls: seq<Call>, call: Call, bootstrap: Version)
    ensures Run(calls + [call], bootstrap) == Next(Run(calls, bootstrap), call)
  {
    assert (calls + [call])[..|calls|] == calls;
  }

  /** After any run: of two pending proposals made against one version, approving both activates the second although its
      base is no longer active. */
  lemma SecondApprovalIsStale(calls: seq<Call>, bootstrap: Version, a: Id, b: Id)
    requires var items := Run(calls, bootstrap).items;
             && a in items && b in items && a != b && items[a].base == items[b].base
             && items[a].status == Pending && items[b].status == Pending
    ensures var first := calls + [Decide(Approval(a))];
            var (t, after) := (Run(first, bootstrap), Run(first + [Decide(Approval(b))], bootstrap));
            && b in t.items && t.items[b].base != t.current
            && Some(after.current) == t.items[b].proposed && !FollowsBases(after, bootstrap)
  {
    var first := calls + [Decide(Approval(a))];
    AlwaysOrderly(calls, bootstrap);
    RunOne(calls, Decide(Approval(a)), bootstrap);
    AlwaysOrderly(first, bootstrap);
    RunOne(first, Decide(Approval(b)), bootstrap);
    OneMoreActivation(Run(first, bootstrap), Decide(Approval(b)), bootstrap);
  }

  /** Such proposals can be made: two versions are minted and proposed one after the other. */
  function TwoProposals(a: Id, b: Id, v: Version, w: Version): seq<Call> {
    [Mint(v)] + [Mint(w)] + [Propose(a, v, None)] + [Propose(b, w, None)]
  }

  lemma TwoProposalsPend(bootstrap: Version, a: Id, b: Id, v: Version, w: Version)
    requires a != b && v != bootstrap && w != bootstrap
    ensures var t := Run(TwoProposals(a, b, v, w), bootstrap);
            && t.current == bootstrap && a in t.items && b in t.items
            && t.items[a] == Item(Pending, CapabilityRegistry, Some(v), bootstrap, None)
            && t.items[b] == Item(Pending, CapabilityRegistry, Some(w), bootstrap, None)
  {
    var mints := [Mint(v)] + [Mint(w)];
    assert [] + [Mint(v)] == [Mint(v)];
    RunOne([], Mint(v), bootstrap);
    RunOne([Mint(v)], Mint(w), bootstrap);
    RunOne(mints, Propose(a, v, None), bootstrap);
    RunOne(mints + [Propose(a, v, None)], Propose(b, w, None), bootstrap);
  }

  /** A run from the start whose last decision finds a version active that its item was not proposed against. */
  lemma StaleProposalIsApplied(bootstrap: Version, a: Id, b: Id, v: Version, w: Version)
    requires a != b && v != bootstrap && w != bootstrap
    ensures var first := TwoProposals(a, b, v, w) + [Decide(Approval(a))];
            var (t, after) := (Run(first, bootstrap), Run(first + [Decide(Approval(b))], bootstrap));
            && t.current == v && b in t.items && t.items[b].base == bootstrap
            && after.current == w && !FollowsBases(after, bootstrap)
  {
    var calls := TwoProposals(a, b, v, w);
    TwoProposalsPend(bootstrap, a, b, v, w);
    SecondApprovalIsStale(calls, bootstrap, a, b);
    RunOne(calls, Decide(Approval(a)), bootstrap);
    AlwaysOrderly(calls, bootstrap);
  }
}
