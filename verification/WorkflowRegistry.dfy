/** Workflow specifications, stored once per content hash. */
module WorkflowRegistry {
  import opened Prelude
  import opened Json
  import opened CanonicalJson
  import opened Text

  datatype Digest = Digest(hex: string)

  /** The text `workflow:sha256:` followed by the digest. */
  datatype Ref = Ref(digest: Digest)

  datatype Key = Key(text: string)

  type Time = int

  datatype Spec = Spec(
    createdAt: Time, name: string, description: Option<string>, author: string, tags: seq<string>,
    contentHash: Digest, payloadText: string)

  datatype Response = Response(
    ref: Ref, name: string, description: Option<string>, author: string, tags: seq<string>, contentHash: Digest,
    createdAt: Time, payload: Value)

  datatype Input = Input(name: string, description: Option<string>, tags: seq<string>, payload: Value, key: Option<Key>)

  datatype Tables = Tables(specs: map<Ref, Spec>, replies: map<Key, Response>)

  // ----- What a specification must contain -----

  predicate IsStep(step: Value) {
    && step.Object?
    && (match GetString(step, "step_id") case Some(id) => Trim(id) != "" case None => false)
    && (match GetString(step, "step_type")
        case Some(kind) => kind == "transform" || kind == "model_call" || kind == "syscall" || kind == "subworkflow"
        case None => false)
  }

  predicate IsWorkflow(payload: Value) {
    && payload.Object?
    && Get(payload, "steps").Some? && Get(payload, "edges").Some?
    && Get(payload, "entry_steps").Some? && Get(payload, "exit_steps").Some?
    && GetArray(payload, "steps").Some?
    && forall step | step in GetArray(payload, "steps").value :: IsStep(step)
  }

  method ParseWorkflowSpecSteps(payload: Value) returns (r: Result<seq<(string, string)>>)
    ensures r.Ok? <==> IsWorkflow(payload)
    ensures r.Err? ==> r.error == InvalidInput("workflow spec")
    ensures r.Ok? ==>
              var steps := GetArray(payload, "steps").value;
              && |r.value| == |steps|
              && forall i | 0 <= i < |steps| ::
                   && GetString(steps[i], "step_id") == Some(r.value[i].0)
                   && GetString(steps[i], "step_type") == Some(r.value[i].1)
  {
    if !payload.Object? {
      return Err(InvalidInput("workflow spec"));
    }
    if Get(payload, "steps").None? || Get(payload, "edges").None?
       || Get(payload, "entry_steps").None? || Get(payload, "exit_steps").None? {
      return Err(InvalidInput("workflow spec"));
    }
    var steps := GetArray(payload, "steps");
    if steps.None? {
      return Err(InvalidInput("workflow spec"));
    }
    var parsed: seq<(string, string)> := [];
    for i := 0 to |steps.value|
      invariant |parsed| == i
      invariant forall k | 0 <= k < i ::
                  && IsStep(steps.value[k])
                  && GetString(steps.value[k], "step_id") == Some(parsed[k].0)
                  && GetString(steps.value[k], "step_type") == Some(parsed[k].1)
    {
      var step := steps.value[i];
      assert step in steps.value;
      if !IsStep(step) {
        return Err(InvalidInput("workflow spec"));
      }
      parsed := parsed + [(GetString(step, "step_id").value, GetString(step, "step_type").value)];
    }
    return Ok(parsed);
  }

  // ----- Registration -----

  function Answer(ref: Ref, spec: Spec): Result<Response> {
    match Parse(spec.payloadText)
    case None => Err(Corruption("payload_json"))
    case Some(payload) =>
      Ok(Response(ref, spec.name, spec.description, spec.author, spec.tags, spec.contentHash, spec.createdAt, payload))
  }

  function NewSpec(input: Input, digest: Digest, now: Time): Spec {
    Spec(now, input.name, input.description, "root_owner", input.tags, digest, CanonicalText(input.payload))
  }

  /** An insert under a reference that exists is ignored. */
  function Inserted(specs: map<Ref, Spec>, ref: Ref, spec: Spec): map<Ref, Spec> {
    if ref in specs then specs else specs[ref := spec]
  }

  predicate IsReplay(t: Tables, input: Input) { input.key.Some? && input.key.value in t.replies }

  function Registered(t: Tables, input: Input, hash: string -> Digest, now: Time): (Tables, Result<Response>) {
    if IsReplay(t, input) then (t, Ok(t.replies[input.key.value]))
    else if !IsWorkflow(input.payload) then (t, Err(InvalidInput("workflow spec")))
    else
      var digest := hash(CanonicalText(input.payload));
      var specs := Inserted(t.specs, Ref(digest), NewSpec(input, digest, now));
      match Answer(Ref(digest), specs[Ref(digest)])
      case Err(e) => (t, Err(e))
      case Ok(response) =>
        (Tables(specs, if input.key.Some? then t.replies[input.key.value := response] else t.replies), Ok(response))
  }

  // ----- One registration -----

  /** A step is an object with an id that is not blank and one of four types. */
  predicate StepFits(step: Value) {
    && (match Get(step, "step_id") case Some(String(id)) => Trim(id) != "" case _ => false)
    && match Get(step, "step_type")
       case Some(String(kind)) => kind in ["transform", "model_call", "syscall", "subworkflow"]
       case _ => false
  }

  /** A workflow has steps that fit, and says what its edges, entries and exits are. */
  predicate WorkflowFits(payload: Value) {
    && (forall key | key in ["steps", "edges", "entry_steps", "exit_steps"] :: Get(payload, key).Some?)
    && match Get(payload, "steps")
       case Some(Array(steps)) => forall i | 0 <= i < |steps| :: StepFits(steps[i])
       case _ => false
  }

  lemma StepFitsExactly(step: Value)
    ensures IsStep(step) <==> StepFits(step)
  {
    var kinds := ["transform", "model_call", "syscall", "subworkflow"];
    assert kinds[0] in kinds && kinds[1] in kinds && kinds[2] in kinds && kinds[3] in kinds;
  }

  lemma WorkflowFitsExactly(payload: Value)
    ensures IsWorkflow(payload) <==> WorkflowFits(payload)
  {
    var keys := ["steps", "edges", "entry_steps", "exit_steps"];
    assert keys[0] in keys && keys[1] in keys && keys[2] in keys && keys[3] in keys;
    if GetArray(payload, "steps").Some? {
      var steps := GetArray(payload, "steps").value;
      forall step ensures IsStep(step) <==> StepFits(step) {
        StepFitsExactly(step);
      }
      assert forall i | 0 <= i < |steps| :: steps[i] in steps;
    }
  }

  /** The row that stands under the reference afterwards: the one that stood there, or a new one of this input. */
  predicate StandsUnder(t: Tables, ref: Ref, input: Input, now: Time, row: Spec) {
    if ref in t.specs then row == t.specs[ref]
    else
      && row.createdAt == now && row.name == input.name && row.description == input.description
      && row.tags == input.tags && row.author == "root_owner" && row.contentHash == ref.digest
      && row.payloadText == CanonicalText(input.payload)
  }

  /** A registration that is not a replay succeeds exactly for a workflow whose stored text can be read; it writes one row
      at most, and answers with the row that then stands under the reference. */
  lemma RegisteredExactly(t: Tables, input: Input, hash: string -> Digest, now: Time)
    requires input.key.None? || input.key.value !in t.replies
    ensures var (after, r) := Registered(t, input, hash, now);
            var ref := Ref(hash(CanonicalText(input.payload)));
            var text := if ref in t.specs then t.specs[ref].payloadText else CanonicalText(input.payload);
            && (r.Ok? <==> WorkflowFits(input.payload) && Parse(text).Some?)
            && (r.Err? ==> after == t && (r.error.InvalidInput? <==> !WorkflowFits(input.payload)))
            && (r.Ok? ==>
                  && ref in after.specs && after.specs == t.specs[ref := after.specs[ref]]
                  && StandsUnder(t, ref, input, now, after.specs[ref])
                  && AnswersRow(r.value, ref, after.specs[ref])
                  && after.replies == match input.key case None => t.replies case Some(k) => t.replies[k := r.value])
  {
    WorkflowFitsExactly(input.payload);
    var ref := Ref(hash(CanonicalText(input.payload)));
    if ref in t.specs {
      assert t.specs == t.specs[ref := t.specs[ref]];
    }
  }

  predicate AnswersRow(r: Response, ref: Ref, row: Spec) {
    && r.ref == ref && r.name == row.name && r.description == row.description && r.author == row.author
    && r.tags == row.tags && r.contentHash == row.contentHash && r.createdAt == row.createdAt
    && Parse(row.payloadText) == Some(r.payload)
  }

  class Registry {
    const hash: string -> Digest
    var tables: Tables

    constructor (hash: string -> Digest)
      ensures this.hash == hash && tables == Tables(map[], map[])
    {
      this.hash := hash;
      tables := Tables(map[], map[]);
    }

    method RegisterWorkflowSpec(input: Input, now: Time) returns (r: Result<Response>)
      requires WellFormed(input.payload)
      modifies this
      ensures (tables, r) == Registered(old(tables), input, hash, now)
    {
      var tx := tables;
      if input.key.Some? && input.key.value in tx.replies {
        return Ok(tx.replies[input.key.value]);
      }
      var steps := ParseWorkflowSpecSteps(input.payload);
      if steps.Err? {
        return Err(steps.error);
      }
      var canonicalPayload := CanonicalJsonString(input.payload);
      var contentHash := hash(canonicalPayload);
      var ref := Ref(contentHash);
      if ref !in tx.specs {
        var spec := Spec(now, input.name, input.description, "root_owner", input.tags, contentHash, canonicalPayload);
        tx := tx.(specs := tx.specs[ref := spec]);
      }
      var response := Answer(ref, tx.specs[ref]);
      if response.Err? {
        return Err(response.error);
      }
      if input.key.Some? {
        tx := tx.(replies := tx.replies[input.key.value := response.value]);
      }
      tables := tx;
      return response;
    }
  }

  // ----- What a reference stands for -----

  ghost predicate CollisionFree(hash: string -> Digest) { forall a, b :: hash(a) == hash(b) ==> a == b }

  /** Every row is stored under the hash of its text, and its text is the canonical text of some workflow. */
  ghost predicate ContentAddressed(specs: map<Ref, Spec>, hash: string -> Digest) {
    forall ref | ref in specs :: Addressed(ref, specs[ref], hash)
  }

  ghost predicate Addressed(ref: Ref, spec: Spec, hash: string -> Digest) {
    ref == Ref(hash(spec.payloadText)) && spec.contentHash == ref.digest && HasSource(spec.payloadText)
  }

  ghost predicate HasSource(text: string) { exists v :: IsSource(v, text) }

  ghost predicate IsSource(v: Value, text: string) { WellFormed(v) && IsWorkflow(v) && CanonicalText(v) == text }

  lemma TextAnswers(ref: Ref, spec: Spec, v: Value)
    requires WellFormed(v) && spec.payloadText == CanonicalText(v)
    ensures Answer(ref, spec) == Ok(Response(ref, spec.name, spec.description, spec.author, spec.tags, spec.contentHash,
                                             spec.createdAt, Canonical(v)))
  {
    ParseCanonicalText(v);
  }

  predicate Keeps(specs: map<Ref, Spec>, after: map<Ref, Spec>) {
    forall ref | ref in specs :: ref in after && after[ref] == specs[ref]
  }

  lemma InsertKeepsAddresses(specs: map<Ref, Spec>, input: Input, hash: string -> Digest, now: Time)
    requires ContentAddressed(specs, hash) && WellFormed(input.payload) && IsWorkflow(input.payload)
    ensures var digest := hash(CanonicalText(input.payload));
            var after := Inserted(specs, Ref(digest), NewSpec(input, digest, now));
            ContentAddressed(after, hash) && Keeps(specs, after)
  {
    NewSpecIsAddressed(input, hash, now);
    var digest := hash(CanonicalText(input.payload));
    InsertKeepsAll(specs, Ref(digest), NewSpec(input, digest, now), (r, spec) => Addressed(r, spec, hash));
  }

  lemma NewSpecIsAddressed(input: Input, hash: string -> Digest, now: Time)
    requires WellFormed(input.payload) && IsWorkflow(input.payload)
    ensures var digest := hash(CanonicalText(input.payload));
            Addressed(Ref(digest), NewSpec(input, digest, now), hash)
  {
    assert IsSource(input.payload, CanonicalText(input.payload));
  }

  lemma InsertKeepsAll(specs: map<Ref, Spec>, ref: Ref, spec: Spec, good: (Ref, Spec) -> bool)
    requires (forall r | r in specs :: good(r, specs[r])) && good(ref, spec)
    ensures forall r | r in Inserted(specs, ref, spec) :: good(r, Inserted(specs, ref, spec)[r])
    ensures Keeps(specs, Inserted(specs, ref, spec))
  {
  }

  lemma RegistrationKeepsAddresses(t: Tables, input: Input, hash: string -> Digest, now: Time)
    requires ContentAddressed(t.specs, hash) && WellFormed(input.payload)
    ensures var after := Registered(t, input, hash, now).0;
            ContentAddressed(after.specs, hash) && Keeps(t.specs, after.specs)
  {
    if IsWorkflow(input.payload) {
      InsertKeepsAddresses(t.specs, input, hash, now);
    }
  }

  datatype Call = Call(input: Input, at: Time)

  function Run(calls: seq<Call>, hash: string -> Digest): Tables {
    if calls == [] then Tables(map[], map[])
    else Registered(Run(calls[..|calls| - 1], hash), calls[|calls| - 1].input, hash, calls[|calls| - 1].at).0
  }

  ghost predicate ParsedInputs(calls: seq<Call>) { forall i | 0 <= i < |calls| :: WellFormed(calls[i].input.payload) }

  lemma {:induction false} AlwaysContentAddressed(calls: seq<Call>, hash: string -> Digest)
    requires ParsedInputs(calls)
    ensures ContentAddressed(Run(calls, hash).specs, hash)
  {
    if calls != [] {
      var last := calls[|calls| - 1];
      AlwaysContentAddressed(calls[..|calls| - 1], hash);
      RegistrationKeepsAddresses(Run(calls[..|calls| - 1], hash), last.input, hash, last.at);
    }
  }

  /** Rows are written once: what is stored under a reference after `k` calls is stored there after all of them. */
  lemma {:induction false} SpecsNeverChange(calls: seq<Call>, hash: string -> Digest, k: nat, ref: Ref)
    requires ParsedInputs(calls) && k <= |calls| && ref in Run(calls[..k], hash).specs
    ensures ref in Run(calls, hash).specs && Run(calls, hash).specs[ref] == Run(calls[..k], hash).specs[ref]
  {
    if k == |calls| {
      assert calls[..k] == calls;
    } else {
      var before, last := calls[..|calls| - 1], calls[|calls| - 1];
      assert before[..k] == calls[..k];
      SpecsNeverChange(before, hash, k, ref);
      AlwaysContentAddressed(before, hash);
      RegistrationKeepsAddresses(Run(before, hash), last.input, hash, last.at);
    }
  }

  lemma RegistrationKeepsReplies(t: Tables, input: Input, hash: string -> Digest, now: Time, k: Key)
    ensures var (after, r) := Registered(t, input, hash, now);
            && (k in t.replies ==> k in after.replies && after.replies[k] == t.replies[k])
            && (input.key == Some(k) && r.Ok? ==> k in after.replies && after.replies[k] == r.value)
            && (input.key == Some(k) && k in t.replies ==> after == t && r == Ok(t.replies[k]))
  {
    if input.key.None? || input.key.value !in t.replies {
      RegisteredExactly(t, input, hash, now);
    }
  }

  lemma {:induction false} RepliesStay(calls: seq<Call>, hash: string -> Digest, n: nat, k: Key)
    requires n <= |calls| && k in Run(calls[..n], hash).replies
    ensures k in Run(calls, hash).replies && Run(calls, hash).replies[k] == Run(calls[..n], hash).replies[k]
  {
    if n == |calls| {
      assert calls[..n] == calls;
    } else {
      var before, last := calls[..|calls| - 1], calls[|calls| - 1];
      assert before[..n] == calls[..n];
      RepliesStay(before, hash, n, k);
      RegistrationKeepsReplies(Run(before, hash), last.input, hash, last.at, k);
    }
  }

  /** A key that was answered is answered the same ever after, whatever comes with it, and nothing changes then. */
  lemma RepeatedKeyIsAnsweredAlike(calls: seq<Call>, hash: string -> Digest, n: nat, again: Input, now: Time)
    requires n < |calls| && again.key.Some? && calls[n].input.key == again.key
    requires Registered(Run(calls[..n], hash), calls[n].input, hash, calls[n].at).1.Ok?
    ensures Registered(Run(calls, hash), again, hash, now) ==
            (Run(calls, hash), Registered(Run(calls[..n], hash), calls[n].input, hash, calls[n].at).1)
  {
    assert calls[..n + 1][..n] == calls[..n];
    RegistrationKeepsReplies(Run(calls[..n], hash), calls[n].input, hash, calls[n].at, again.key.value);
    RepliesStay(calls, hash, n + 1, again.key.value);
    RegistrationKeepsReplies(Run(calls, hash), again, hash, now, again.key.value);
  }

  /** Outside the replay path a registration answers with exactly the payload it was given, also when the row was there
      already; the name, description and tags are then those of the first registration. */
  lemma RegisteredPayloadIsReturned(calls: seq<Call>, hash: string -> Digest, input: Input, now: Time)
    requires ParsedInputs(calls) && WellFormed(input.payload) && CollisionFree(hash)
    requires !IsReplay(Run(calls, hash), input)
    ensures var t := Run(calls, hash);
            var r := Registered(t, input, hash, now).1;
            var ref := Ref(hash(CanonicalText(input.payload)));
            && (r.Ok? <==> IsWorkflow(input.payload))
            && (r.Ok? ==>
                  && r.value.ref == ref && r.value.payload == Canonical(input.payload)
                  && Same(r.value.payload, input.payload)
                  && (if ref in t.specs then
                        r.value.name == t.specs[ref].name && r.value.description == t.specs[ref].description
                        && r.value.tags == t.specs[ref].tags && r.value.createdAt == t.specs[ref].createdAt
                      else
                        r.value.name == input.name && r.value.description == input.description
                        && r.value.tags == input.tags && r.value.createdAt == now))
  {
    var t := Run(calls, hash);
    AlwaysContentAddressed(calls, hash);
    if IsWorkflow(input.payload) {
      var digest := hash(CanonicalText(input.payload));
      var stored := Inserted(t.specs, Ref(digest), NewSpec(input, digest, now))[Ref(digest)];
      TextAnswers(Ref(digest), stored, input.payload);
      CanonicalIsSame(input.payload, input.payload);
    }
  }

  /** References identify payloads: two registrations get one reference exactly when they carry the same JSON value. */
  lemma ReferencesIdentifyPayloads(v: Value, w: Value, hash: string -> Digest)
    requires WellFormed(v) && WellFormed(w) && CollisionFree(hash)
    ensures Ref(hash(CanonicalText(v))) == Ref(hash(CanonicalText(w))) <==> Same(v, w)
  {
    CanonicalTextIdentifies(v, w);
  }

  /** Without that assumption: the payload comes back exactly when the stored text is its own. */
  lemma PayloadComesBackExactly(t: Tables, input: Input, hash: string -> Digest, now: Time)
    requires ContentAddressed(t.specs, hash) && WellFormed(input.payload) && IsWorkflow(input.payload) && !IsReplay(t, input)
    ensures var ref := Ref(hash(CanonicalText(input.payload)));
            var r := Registered(t, input, hash, now).1;
            && r.Ok?
            && (Same(r.value.payload, input.payload) <==>
                ref in t.specs ==> t.specs[ref].payloadText == CanonicalText(input.payload))
  {
    var digest := hash(CanonicalText(input.payload));
    var specs := Inserted(t.specs, Ref(digest), NewSpec(input, digest, now));
    InsertKeepsAddresses(t.specs, input, hash, now);
    assert Addressed(Ref(digest), specs[Ref(digest)], hash);
    StoredPayloadComesBack(Ref(digest), specs[Ref(digest)], input.payload);
  }

  lemma StoredPayloadComesBack(ref: Ref, spec: Spec, w: Value)
    requires HasSource(spec.payloadText) && WellFormed(w)
    ensures var r := Answer(ref, spec);
            r.Ok? && (Same(r.value.payload, w) <==> spec.payloadText == CanonicalText(w))
  {
    var v :| IsSource(v, spec.payloadText);
    TextAnswers(ref, spec, v);
    CanonicalTextIdentifies(v, w);
    CanonicalIsSame(v, w);
  }
}
