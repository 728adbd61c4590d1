/** Capability snapshots and the action descriptors read from them, and the schema registry they point into. */
module ActionSchemas {
  import opened Prelude
  import opened Json

  datatype ActionDescriptor = ActionDescriptor(
    toolName: string,
    actionName: string,
    argsSchemaRef: string,
    resultSchemaRef: Option<string>,
    diffSupported: bool,
    executionClass: string,
    defaultApprovalMode: string,
    diffKind: string,
    editablePayloadSchema: Value)

  /** `capability_snapshots`, `schema_registry_entries` and the active snapshot version. */
  datatype Registry = Registry(snapshots: map<string, Value>, schemas: map<string, Value>, current: string)

  // ----- Reading a descriptor -----

  function Descriptor(action: Value, toolName: string, actionName: string): Result<ActionDescriptor> {
    match GetString(action, "args_schema_ref")
    case None => Err(Corruption("args_schema_ref"))
    case Some(argsRef) =>
      match GetBool(action, "diff_supported")
      case None => Err(Corruption("diff_supported"))
      case Some(diffSupported) =>
        match GetString(action, "execution_class")
        case None => Err(Corruption("execution_class"))
        case Some(class_) =>
          match GetString(action, "default_approval_mode")
          case None => Err(Corruption("default_approval_mode"))
          case Some(mode) =>
            match GetString(action, "diff_kind")
            case None => Err(Corruption("diff_kind"))
            case Some(kind) =>
              match Get(action, "editable_payload_schema")
              case None => Err(Corruption("editable_payload_schema"))
              case Some(editable) =>
                Ok(ActionDescriptor(toolName, actionName, argsRef, GetString(action, "result_schema_ref"),
                                    diffSupported, class_, mode, kind, editable))
  }

  /** The first action of that name; an unnamed action before it is an error. */
  function FindAction(actions: seq<Value>, actionName: string): Result<Option<Value>> {
    if actions == [] then Ok(None)
    else match GetString(actions[0], "action_name")
      case None => Err(Corruption("action_name"))
      case Some(name) => if name == actionName then Ok(Some(actions[0])) else FindAction(actions[1..], actionName)
  }

  function FindDescriptor(capabilities: seq<Value>, toolName: string, actionName: string): Result<ActionDescriptor> {
    if capabilities == [] then Err(InvalidInput("unknown tool/action"))
    else match GetString(capabilities[0], "tool_name")
      case None => Err(Corruption("tool_name"))
      case Some(name) =>
        if name != toolName then FindDescriptor(capabilities[1..], toolName, actionName)
        else match GetArray(capabilities[0], "actions")
          case None => Err(Corruption("actions"))
          case Some(actions) =>
            match FindAction(actions, actionName)
            case Err(e) => Err(e)
            case Ok(Some(action)) => Descriptor(action, toolName, actionName)
            case Ok(None) => FindDescriptor(capabilities[1..], toolName, actionName)
  }

  function Resolve(snapshot: Value, toolName: string, actionName: string): Result<ActionDescriptor> {
    match GetArray(snapshot, "capabilities")
    case None => Err(Corruption("capabilities"))
    case Some(capabilities) => FindDescriptor(capabilities, toolName, actionName)
  }

  // ----- What is resolved -----

  /** The scan goes on past an action of another name. */
  predicate OtherAction(action: Value, actionName: string) {
    GetString(action, "action_name").Some? && GetString(action, "action_name").value != actionName
  }

  /** ...and past a capability of another tool, and one of this tool without such an action. */
  predicate OtherCapability(capability: Value, toolName: string, actionName: string) {
    match GetString(capability, "tool_name")
    case None => false
    case Some(name) =>
      name == toolName ==>
        && GetArray(capability, "actions").Some?
        && var actions := GetArray(capability, "actions").value;
           forall k | 0 <= k < |actions| :: OtherAction(actions[k], actionName)
  }

  /** Action `j` of capability `i` is the first one asked for, and nothing before it is malformed. */
  predicate FirstAt(capabilities: seq<Value>, toolName: string, actionName: string, i: nat, j: nat) {
    && i < |capabilities| && (forall k | 0 <= k < i :: OtherCapability(capabilities[k], toolName, actionName))
    && GetString(capabilities[i], "tool_name") == Some(toolName) && GetArray(capabilities[i], "actions").Some?
    && var actions := GetArray(capabilities[i], "actions").value;
       && j < |actions| && (forall k | 0 <= k < j :: OtherAction(actions[k], actionName))
       && GetString(actions[j], "action_name") == Some(actionName)
  }

  predicate Complete(action: Value) {
    && GetString(action, "args_schema_ref").Some? && GetBool(action, "diff_supported").Some?
    && GetString(action, "execution_class").Some? && GetString(action, "default_approval_mode").Some?
    && GetString(action, "diff_kind").Some? && Get(action, "editable_payload_schema").Some?
  }

  /** Each field is the member of its name; only the result schema may be missing. */
  predicate Describes(action: Value, toolName: string, actionName: string, r: Result<ActionDescriptor>) {
    match r
    case Ok(d) =>
      && d.toolName == toolName && d.actionName == actionName
      && GetString(action, "args_schema_ref") == Some(d.argsSchemaRef)
      && GetString(action, "result_schema_ref") == d.resultSchemaRef
      && GetBool(action, "diff_supported") == Some(d.diffSupported)
      && GetString(action, "execution_class") == Some(d.executionClass)
      && GetString(action, "default_approval_mode") == Some(d.defaultApprovalMode)
      && GetString(action, "diff_kind") == Some(d.diffKind)
      && Get(action, "editable_payload_schema") == Some(d.editablePayloadSchema)
    case Err(e) => e.Corruption? && !Complete(action)
  }

  predicate NothingAskedFor(capabilities: seq<Value>, toolName: string, actionName: string) {
    forall k | 0 <= k < |capabilities| :: OtherCapability(capabilities[k], toolName, actionName)
  }

  /** The answer in terms of positions: the first action asked for, read member by member; invalid input exactly when there
      is none in a well-formed list; corruption when a malformed entry comes first. */
  ghost predicate IsResolution(snapshot: Value, toolName: string, actionName: string, r: Result<ActionDescriptor>) {
    match GetArray(snapshot, "capabilities")
    case None => r.Err? && r.error.Corruption?
    case Some(capabilities) =>
      && (forall i: nat, j: nat | FirstAt(capabilities, toolName, actionName, i, j) ::
            Describes(GetArray(capabilities[i], "actions").value[j], toolName, actionName, r))
      && (r.Ok? ==> exists i: nat, j: nat :: FirstAt(capabilities, toolName, actionName, i, j))
      && (r.Err? && r.error.InvalidInput? <==> NothingAskedFor(capabilities, toolName, actionName))
      && (r.Err? ==> r.error.InvalidInput? || r.error.Corruption?)
  }

  lemma {:induction false} FindsFirstAction(actions: seq<Value>, actionName: string, j: nat)
    requires j < |actions| && (forall k | 0 <= k < j :: OtherAction(actions[k], actionName))
    requires GetString(actions[j], "action_name") == Some(actionName)
    ensures FindAction(actions, actionName) == Ok(Some(actions[j]))
  {
    if j > 0 {
      assert OtherAction(actions[0], actionName);
      FindsFirstAction(actions[1..], actionName, j - 1);
    }
  }

  lemma {:induction false} FindsNoAction(actions: seq<Value>, actionName: string)
    requires forall k | 0 <= k < |actions| :: OtherAction(actions[k], actionName)
    ensures FindAction(actions, actionName) == Ok(None)
  {
    if actions != [] {
      assert OtherAction(actions[0], actionName);
      FindsNoAction(actions[1..], actionName);
    }
  }

  /** Where a scan of actions ends: at the action, at the end, or at an unnamed entry. */
  lemma {:induction false} ActionScanEnds(actions: seq<Value>, actionName: string) returns (j: nat)
    ensures match FindAction(actions, actionName)
            case Ok(Some(_)) =>
              && j < |actions| && (forall k | 0 <= k < j :: OtherAction(actions[k], actionName))
              && GetString(actions[j], "action_name") == Some(actionName)
            case Ok(None) => forall k | 0 <= k < |actions| :: OtherAction(actions[k], actionName)
            case Err(e) => e.Corruption?
  {
    j := 0;
    if actions != [] && OtherAction(actions[0], actionName) {
      j := ActionScanEnds(actions[1..], actionName);
      j := j + 1;
    }
  }

  lemma ScanGoesOn(capabilities: seq<Value>, toolName: string, actionName: string)
    requires capabilities != [] && OtherCapability(capabilities[0], toolName, actionName)
    ensures FindDescriptor(capabilities, toolName, actionName) == FindDescriptor(capabilities[1..], toolName, actionName)
  {
    if GetString(capabilities[0], "tool_name").value == toolName {
      FindsNoAction(GetArray(capabilities[0], "actions").value, actionName);
    }
  }

  lemma DescriptorDescribes(action: Value, toolName: string, actionName: string)
    ensures Describes(action, toolName, actionName, Descriptor(action, toolName, actionName))
  {
  }

  lemma {:induction false} FindsFirst(capabilities: seq<Value>, toolName: string, actionName: string, i: nat, j: nat)
    requires FirstAt(capabilities, toolName, actionName, i, j)
    ensures Describes(GetArray(capabilities[i], "actions").value[j], toolName, actionName,
                      FindDescriptor(capabilities, toolName, actionName))
  {
    if i == 0 {
      var actions := GetArray(capabilities[0], "actions").value;
      FindsFirstAction(actions, actionName, j);
      DescriptorDescribes(actions[j], toolName, actionName);
    } else {
      assert OtherCapability(capabilities[0], toolName, actionName);
      ScanGoesOn(capabilities, toolName, actionName);
      FindsFirst(capabilities[1..], toolName, actionName, i - 1, j);
    }
  }

  lemma {:induction false} ScanEnds(capabilities: seq<Value>, toolName: string, actionName: string) returns (i: nat, j: nat)
    ensures var r := FindDescriptor(capabilities, toolName, actionName);
            || FirstAt(capabilities, toolName, actionName, i, j)
            || (NothingAskedFor(capabilities, toolName, actionName) && r.Err? && r.error.InvalidInput?)
            || (!NothingAskedFor(capabilities, toolName, actionName) && r.Err? && r.error.Corruption?)
  {
    i, j := 0, 0;
    if capabilities != [] {
      var first := capabilities[0];
      if GetString(first, "tool_name") == Some(toolName) && GetArray(first, "actions").Some? {
        j := ActionScanEnds(GetArray(first, "actions").value, actionName);
      }
      if OtherCapability(first, toolName, actionName) {
        ScanGoesOn(capabilities, toolName, actionName);
        i, j := ScanEnds(capabilities[1..], toolName, actionName);
        i := i + 1;
      }
    }
  }

  lemma FirstIsAskedFor(capabilities: seq<Value>, toolName: string, actionName: string, i: nat, j: nat)
    requires FirstAt(capabilities, toolName, actionName, i, j)
    ensures !NothingAskedFor(capabilities, toolName, actionName)
  {
    assert !OtherAction(GetArray(capabilities[i], "actions").value[j], actionName);
    assert !OtherCapability(capabilities[i], toolName, actionName);
  }

  lemma ResolvedExactly(snapshot: Value, toolName: string, actionName: string)
    ensures IsResolution(snapshot, toolName, actionName, Resolve(snapshot, toolName, actionName))
  {
    if GetArray(snapshot, "capabilities").Some? {
      var capabilities := GetArray(snapshot, "capabilities").value;
      forall i: nat, j: nat | FirstAt(capabilities, toolName, actionName, i, j)
        ensures Describes(GetArray(capabilities[i], "actions").value[j], toolName, actionName,
                          FindDescriptor(capabilities, toolName, actionName))
      {
        FindsFirst(capabilities, toolName, actionName, i, j);
      }
      var i, j := ScanEnds(capabilities, toolName, actionName);
      if FirstAt(capabilities, toolName, actionName, i, j) {
        FirstIsAskedFor(capabilities, toolName, actionName, i, j);
      }
    }
  }

  method ResolveActionDescriptorFromSnapshot(snapshot: Value, toolName: string, actionName: string)
    returns (r: Result<ActionDescriptor>)
    ensures r == Resolve(snapshot, toolName, actionName)
    ensures IsResolution(snapshot, toolName, actionName, r)
  {
    ResolvedExactly(snapshot, toolName, actionName);
    var found := GetArray(snapshot, "capabilities");
    if found.None? {
      return Err(Corruption("capabilities"));
    }
    var capabilities := found.value;
    for i := 0 to |capabilities|
      invariant Resolve(snapshot, toolName, actionName) == FindDescriptor(capabilities[i..], toolName, actionName)
    {
      var capability := capabilities[i];
      var snapshotToolName := GetString(capability, "tool_name");
      if snapshotToolName.None? {
        return Err(Corruption("tool_name"));
      }
      if snapshotToolName.value != toolName {
        continue;
      }
      var actions := GetArray(capability, "actions");
      if actions.None? {
        return Err(Corruption("actions"));
      }
      for j := 0 to |actions.value|
        invariant FindAction(actions.value, actionName) == FindAction(actions.value[j..], actionName)
      {
        var action := actions.value[j];
        var snapshotActionName := GetString(action, "action_name");
        if snapshotActionName.None? {
          return Err(Corruption("action_name"));
        }
        if snapshotActionName.value != actionName {
          continue;
        }
        return Descriptor(action, snapshotToolName.value, snapshotActionName.value);
      }
    }
    return Err(InvalidInput("unknown tool/action"));
  }

  // ----- What minting checks -----

  predicate ActionKnown(action: Value, schemas: map<string, Value>) {
    && GetString(action, "args_schema_ref").Some?
    && GetString(action, "args_schema_ref").value in schemas
    && (GetString(action, "result_schema_ref").Some? ==> GetString(action, "result_schema_ref").value in schemas)
  }

  predicate CapabilityKnown(capability: Value, schemas: map<string, Value>) {
    && GetArray(capability, "actions").Some?
    && forall action | action in GetArray(capability, "actions").value :: ActionKnown(action, schemas)
  }

  /** Every action of the snapshot names schemas that are registered. */
  predicate SnapshotKnown(snapshot: Value, schemas: map<string, Value>) {
    && GetArray(snapshot, "capabilities").Some?
    && forall capability | capability in GetArray(snapshot, "capabilities").value :: CapabilityKnown(capability, schemas)
  }

  /** The scan `mint_capability_snapshot` makes before it stores anything. */
  method CheckSnapshot(snapshot: Value, schemas: map<string, Value>) returns (error: Option<StorageError>)
    ensures error.None? <==> SnapshotKnown(snapshot, schemas)
    ensures error.Some? ==> error.value.InvalidInput?
  {
    var capabilities := GetArray(snapshot, "capabilities");
    if capabilities.None? {
      return Some(InvalidInput("snapshot_payload missing capabilities array"));
    }
    for i := 0 to |capabilities.value|
      invariant forall k | 0 <= k < i :: CapabilityKnown(capabilities.value[k], schemas)
    {
      var capability := capabilities.value[i];
      assert capability in capabilities.value;
      var actions := GetArray(capability, "actions");
      if actions.None? {
        return Some(InvalidInput("snapshot_payload capability missing actions array"));
      }
      for j := 0 to |actions.value|
        invariant forall k | 0 <= k < j :: ActionKnown(actions.value[k], schemas)
      {
        var action := actions.value[j];
        assert action in actions.value;
        var argsRef := GetString(action, "args_schema_ref");
        if argsRef.None? {
          return Some(InvalidInput("snapshot action missing args_schema_ref"));
        }
        if argsRef.value !in schemas {
          return Some(InvalidInput("unknown args schema_ref"));
        }
        var resultRef := GetString(action, "result_schema_ref");
        if resultRef.Some? && resultRef.value !in schemas {
          return Some(InvalidInput("unknown result schema_ref"));
        }
      }
    }
    return None;
  }

  /** A known snapshot stays known while schemas are only added. */
  lemma KnownIsMonotone(snapshot: Value, schemas: map<string, Value>, more: map<string, Value>)
    requires SnapshotKnown(snapshot, schemas) && schemas.Keys <= more.Keys
    ensures SnapshotKnown(snapshot, more)
  {
    forall capability | capability in GetArray(snapshot, "capabilities").value
      ensures CapabilityKnown(capability, more)
    {
      assert CapabilityKnown(capability, schemas);
      forall action | action in GetArray(capability, "actions").value ensures ActionKnown(action, more) {
        assert ActionKnown(action, schemas);
      }
    }
  }

  lemma CanonicalArray(v: Value, key: string)
    requires WellFormed(v)
    ensures GetArray(Canonical(v), key).Some? <==> GetArray(v, key).Some?
    ensures GetArray(v, key).Some? ==>
              var items := GetArray(v, key).value;
              && Get(v, key) == Some(Array(items)) && WellFormed(Array(items))
              && GetArray(Canonical(v), key).value == Canonical(Array(items)).items
  {
    GetCanonical(v, key);
    if GetArray(v, key).Some? {
      var ms := v.members;
      var i :| 0 <= i < |ms| && ms[i] == Member(key, Get(v, key).value);
      assert WellFormed(ms[i].value);
    }
  }

  /** The stored text is canonical, so the check made on the input must carry over to it. */
  lemma CanonicalStaysKnown(snapshot: Value, schemas: map<string, Value>)
    requires WellFormed(snapshot) && SnapshotKnown(snapshot, schemas)
    ensures SnapshotKnown(Canonical(snapshot), schemas)
  {
    CanonicalArray(snapshot, "capabilities");
    var items := GetArray(snapshot, "capabilities").value;
    var stored := GetArray(Canonical(snapshot), "capabilities").value;
    forall c | c in stored ensures CapabilityKnown(c, schemas) {
      var i :| 0 <= i < |stored| && stored[i] == c;
      assert items[i] in items && CapabilityKnown(items[i], schemas);
      CanonicalCapability(items[i], schemas);
    }
  }

  lemma CanonicalCapability(capability: Value, schemas: map<string, Value>)
    requires WellFormed(capability) && CapabilityKnown(capability, schemas)
    ensures CapabilityKnown(Canonical(capability), schemas)
  {
    CanonicalArray(capability, "actions");
    var items := GetArray(capability, "actions").value;
    var stored := GetArray(Canonical(capability), "actions").value;
    forall a | a in stored ensures ActionKnown(a, schemas) {
      var i :| 0 <= i < |stored| && stored[i] == a;
      assert items[i] in items && WellFormed(items[i]);
      CanonicalAction(items[i], schemas);
    }
  }

  lemma CanonicalAction(action: Value, schemas: map<string, Value>)
    requires WellFormed(action) && ActionKnown(action, schemas)
    ensures ActionKnown(Canonical(action), schemas)
  {
    CanonicalString(action, "args_schema_ref");
    CanonicalString(action, "result_schema_ref");
  }

  lemma CanonicalString(v: Value, key: string)
    requires WellFormed(v)
    ensures GetString(Canonical(v), key) == GetString(v, key)
  {
    GetCanonical(v, key);
  }

  /** A descriptor resolved from a known snapshot names registered schemas. */
  lemma {:induction false} ResolvedFromKnown(
      capabilities: seq<Value>, toolName: string, actionName: string, schemas: map<string, Value>)
    requires forall c | c in capabilities :: CapabilityKnown(c, schemas)
    requires FindDescriptor(capabilities, toolName, actionName).Ok?
    ensures var d := FindDescriptor(capabilities, toolName, actionName).value;
            && d.toolName == toolName && d.actionName == actionName
            && d.argsSchemaRef in schemas
            && (d.resultSchemaRef.Some? ==> d.resultSchemaRef.value in schemas)
  {
    assert CapabilityKnown(capabilities[0], schemas);
    if GetString(capabilities[0], "tool_name").value != toolName {
      ResolvedFromKnown(capabilities[1..], toolName, actionName, schemas);
    } else {
      var actions := GetArray(capabilities[0], "actions").value;
      FoundActionIsListed(actions, actionName);
      match FindAction(actions, actionName)
      case Err(_) =>
      case Ok(Some(action)) => assert ActionKnown(action, schemas);
      case Ok(None) => ResolvedFromKnown(capabilities[1..], toolName, actionName, schemas);
    }
  }

  lemma {:induction false} FoundActionIsListed(actions: seq<Value>, actionName: string)
    ensures match FindAction(actions, actionName) case Ok(Some(action)) => action in actions case _ => true
  {
    if actions != [] {
      FoundActionIsListed(actions[1..], actionName);
    }
  }

  // ----- The approval diff built from a descriptor, and the check made when it is consumed -----

  function DiffPayload(d: ActionDescriptor, proposal: Value): Value {
    Object([
      Member("kind", String(d.diffKind)),
      Member("tool_id", String(d.toolName)),
      Member("action", String(d.actionName)),
      Member("args_schema_ref", String(d.argsSchemaRef)),
      Member("result_schema_ref", match d.resultSchemaRef case None => Null case Some(r) => String(r)),
      Member("before", Null),
      Member("after", proposal),
      Member("current_args", proposal),
      Member("editable_payload_schema", d.editablePayloadSchema)
    ])
  }

  /** The row a consumed approval turns into. */
  datatype Prepared = Prepared(
    toolName: string, actionName: string, argsSchemaRef: string, resultSchemaRef: Option<string>, args: Value)

  /** The checks of `consume_approval_atomic` between reading the pinned version and inserting the syscall.
      `normalized` is what normalising the payload gives, `invalid` the error schema validation raises, if any. */
  function PrepareSyscall(registry: Registry, pinned: string, diff: Value,
                          normalized: Result<Value>, invalid: Option<StorageError>): Result<Prepared> {
    match GetString(diff, "tool_id")
    case None => Err(Corruption("approval diff missing tool_id metadata"))
    case Some(toolName) =>
      match GetString(diff, "action")
      case None => Err(Corruption("approval diff missing action metadata"))
      case Some(actionName) =>
        if pinned !in registry.snapshots then Err(NotFound("capability snapshot"))
        else match Resolve(registry.snapshots[pinned], toolName, actionName)
          case Err(e) => Err(e)
          case Ok(d) =>
            match GetString(diff, "args_schema_ref")
            case None => Err(Corruption("approval diff missing args_schema_ref metadata"))
            case Some(argsRef) =>
              if argsRef != d.argsSchemaRef then Err(Corruption("approval diff args_schema_ref mismatch"))
              else if GetString(diff, "result_schema_ref") != d.resultSchemaRef then
                Err(Corruption("approval diff result_schema_ref mismatch"))
              else match normalized
                case Err(e) => Err(e)
                case Ok(payload) =>
                  if argsRef !in registry.schemas then Err(NotFound("schema entry"))
                  else if invalid.Some? then Err(invalid.value)
                  else Ok(Prepared(toolName, actionName, argsRef, d.resultSchemaRef, payload))
  }

  /** A syscall is prepared exactly when the diff names a tool and an action that the pinned snapshot resolves, agrees with
      the descriptor on both schemas, and its payload normalizes and passes the registered schema. */
  lemma PreparedExactly(registry: Registry, pinned: string, diff: Value, normalized: Result<Value>,
                        invalid: Option<StorageError>, call: Prepared)
    ensures PrepareSyscall(registry, pinned, diff, normalized, invalid) == Ok(call) <==>
            && GetString(diff, "tool_id") == Some(call.toolName) && GetString(diff, "action") == Some(call.actionName)
            && pinned in registry.snapshots && Resolve(registry.snapshots[pinned], call.toolName, call.actionName).Ok?
            && var d := Resolve(registry.snapshots[pinned], call.toolName, call.actionName).value;
               && call.argsSchemaRef == d.argsSchemaRef && call.resultSchemaRef == d.resultSchemaRef
               && GetString(diff, "args_schema_ref") == Some(d.argsSchemaRef)
               && GetString(diff, "result_schema_ref") == d.resultSchemaRef
               && normalized == Ok(call.args) && d.argsSchemaRef in registry.schemas && invalid == None
  {
  }

  lemma DiffPayloadReads(d: ActionDescriptor, proposal: Value)
    ensures var diff := DiffPayload(d, proposal);
            && GetString(diff, "tool_id") == Some(d.toolName)
            && GetString(diff, "action") == Some(d.actionName)
            && GetString(diff, "args_schema_ref") == Some(d.argsSchemaRef)
            && GetString(diff, "result_schema_ref") == d.resultSchemaRef
  {
    DiffMembersRead(DiffPayload(d, proposal).members, d);
  }

  const DIFF_KEYS := ["kind", "tool_id", "action", "args_schema_ref", "result_schema_ref", "before", "after", "current_args",
                      "editable_payload_schema"]

  predicate HasKeys(ms: seq<Member>, keys: seq<string>) {
    |ms| == |keys| && forall i | 0 <= i < |ms| :: ms[i].key == keys[i]
  }

  lemma DiffKeys(d: ActionDescriptor, proposal: Value)
    ensures HasKeys(DiffPayload(d, proposal).members, DIFF_KEYS)
  {
  }

  const DIFF_KEY_LENGTHS := [4, 7, 6, 15, 17, 6, 5, 12, 23]

  lemma DiffKeyLengths()
    ensures |DIFF_KEYS| == 9 && forall i | 0 <= i < 9 :: |DIFF_KEYS[i]| == DIFF_KEY_LENGTHS[i]
  {
  }

  lemma DiffKeysApart(keys: seq<string>, i: nat, k: nat)
    requires keys == DIFF_KEYS && k < i < 9
    ensures keys[k] != keys[i]
  {
    DiffKeyLengths();
    assert DIFF_KEYS[2][0] == 'a' && DIFF_KEYS[5][0] == 'b';
  }

  lemma FoundUnder(ms: seq<Member>, keys: seq<string>, i: nat)
    requires keys == DIFF_KEYS && HasKeys(ms, keys) && i < 9
    ensures Lookup(ms, keys[i]) == Some(ms[i].value)
  {
    forall k | 0 <= k < i ensures ms[k].key != ms[i].key {
      DiffKeysApart(keys, i, k);
    }
    LookupAt(ms, i);
  }

  /** What the approver is shown: the kind of the diff, the action and its schemas, nothing before, the proposal after and
      as it stands, and what of it may be edited. */
  function Shown(d: ActionDescriptor, proposal: Value): seq<Value> {
    [String(d.diffKind), String(d.toolName), String(d.actionName), String(d.argsSchemaRef),
     if d.resultSchemaRef.Some? then String(d.resultSchemaRef.value) else Null,
     Null, proposal, proposal, d.editablePayloadSchema]
  }

  lemma DiffValues(d: ActionDescriptor, proposal: Value)
    ensures forall i | 0 <= i < 9 :: DiffPayload(d, proposal).members[i].value == Shown(d, proposal)[i]
  {
  }

  lemma DiffPayloadShows(d: ActionDescriptor, proposal: Value, keys: seq<string>, i: nat)
    requires keys == DIFF_KEYS && i < 9
    ensures Get(DiffPayload(d, proposal), keys[i]) == Some(Shown(d, proposal)[i])
  {
    DiffKeys(d, proposal);
    DiffValues(d, proposal);
    FoundUnder(DiffPayload(d, proposal).members, keys, i);
  }

  lemma DiffMembersRead(ms: seq<Member>, d: ActionDescriptor)
    requires |ms| >= 5 && ms[0].key == "kind"
    requires ms[1] == Member("tool_id", String(d.toolName)) && ms[2] == Member("action", String(d.actionName))
    requires ms[3] == Member("args_schema_ref", String(d.argsSchemaRef))
    requires ms[4] == Member("result_schema_ref", match d.resultSchemaRef case None => Null case Some(r) => String(r))
    ensures GetString(Object(ms), "tool_id") == Some(d.toolName)
    ensures GetString(Object(ms), "action") == Some(d.actionName)
    ensures GetString(Object(ms), "args_schema_ref") == Some(d.argsSchemaRef)
    ensures GetString(Object(ms), "result_schema_ref") == d.resultSchemaRef
  {
    DiffKeysDiffer(ms, ["kind", "tool_id", "action", "args_schema_ref", "result_schema_ref"]);
    LookupAt(ms, 1);
    LookupAt(ms, 2);
    LookupAt(ms, 3);
    LookupAt(ms, 4);
  }

  lemma DiffKeysDiffer(ms: seq<Member>, keys: seq<string>)
    requires keys == ["kind", "tool_id", "action", "args_schema_ref", "result_schema_ref"]
    requires |keys| <= |ms| && forall i | 0 <= i < |keys| :: ms[i].key == keys[i]
    ensures forall i, j | 0 <= i < j < |keys| :: ms[i].key != ms[j].key
  {
    assert |keys[0]| == 4 && |keys[1]| == 7 && |keys[2]| == 6 && |keys[3]| == 15 && |keys[4]| == 17;
  }

  lemma {:induction false} LookupAt(ms: seq<Member>, i: nat)
    requires i < |ms| && forall k | 0 <= k < i :: ms[k].key != ms[i].key
    ensures Lookup(ms, ms[i].key) == Some(ms[i].value)
  {
    if i > 0 {
      assert ms[1..][i - 1] == ms[i];
      LookupAt(ms[1..], i - 1);
    }
  }
}
