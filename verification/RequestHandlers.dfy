/** The handlers of submitted requests, one storage call at a time, beside everything else the daemon does. Each
    operation has at most one gate decision, and so at most one handler goes beyond it: what is proved of operations
    submitted by one handler holds of the daemon as it is. */
module RequestHandlers {
  import opened Prelude
  import opened ActionSchemas
  import opened Database
  import opened Execution
  import opened Recovery
  import opened Submissions
  import opened WorkNotLost
  import ExecutionRuns
  import StrandedWork

  /** How far a handler has got: its request was accepted or answered from the key; it read the operation as new; it
      stored the gate decision; it stored an approval item. */
  datatype Progress = Answered | SeenNew | Gated | ItemStored

  datatype Handler = Handler(op: Id, progress: Progress)

  /** `gates`: the operations with a gate decision. The world's own stages are not used here. */
  datatype Daemon = Daemon(world: World, handlers: map<nat, Handler>, gates: set<Id>)

  datatype Act =
    | Receive(hid: nat, origin: Id, op: Id, audit: Id, key: Option<Id>)
    | ReadOperation(hid: nat)
    | PutGateDecision(hid: nat)
    | PutApprovalItem(hid: nat, approval: Id, mode: ApprovalMode, proposal: Json.Value, diff: Json.Value)
    | WriteState(hid: nat, draft: bool, why: string)
    | Abandon(hid: nat)       // the handler crashes, or a call of it that is not modelled fails
    | Others(step: Step)

  datatype Moment = Moment(act: Act, at: Time)

  /** Steps that are not those of a request handler. */
  predicate ByOthers(step: Step) {
    !step.SubmitOpen? && !step.SubmitPropose? && !step.SubmitFinish? && SubmittedOnce(step)
  }

  function At(d: Daemon, hid: nat, progress: Progress): Daemon
    requires hid in d.handlers
  {
    d.(handlers := d.handlers[hid := d.handlers[hid].(progress := progress)])
  }

  function Leave(d: Daemon, hid: nat): Daemon { d.(handlers := d.handlers - {hid}) }

  function WithDb(d: Daemon, db: Db): Daemon { d.(world := d.world.(db := db)) }

  function ReceiveAct(d: Daemon, hid: nat, origin: Id, op: Id, audit: Id, key: Option<Id>, at: Time): Daemon {
    var (db, r) := CreateOperation(d.world.db, origin, op, audit, key, at);
    match r
    case Ok(Accepted(answered, _)) => WithDb(d, db).(handlers := d.handlers[hid := Handler(answered, Answered)])
    case _ => WithDb(d, db)
  }

  function ReadAct(d: Daemon, hid: nat): Daemon
    requires hid in d.handlers
  {
    var op := d.handlers[hid].op;
    if op in d.world.db.operations && d.world.db.operations[op].state == Created then At(d, hid, SeenNew)
    else Leave(d, hid)
  }

  /** The table of gate decisions has one row per operation. */
  function GateAct(d: Daemon, hid: nat): Daemon
    requires hid in d.handlers
  {
    var op := d.handlers[hid].op;
    if op in d.gates then Leave(d, hid) else At(d, hid, Gated).(gates := d.gates + {op})
  }

  function ItemAct(
      d: Daemon, hid: nat, approval: Id, mode: ApprovalMode, proposal: Json.Value, diff: Json.Value): Daemon
    requires hid in d.handlers && d.handlers[hid].op in d.world.db.operations
  {
    var op := d.handlers[hid].op;
    var audit := d.world.db.operations[op].audit;
    var (db, r) := CreateApprovalItem(d.world.db, approval, op, mode, proposal, diff, audit);
    if r.Ok? then At(WithDb(d, db), hid, ItemStored) else Leave(WithDb(d, db), hid)
  }

  function WriteAct(d: Daemon, hid: nat, draft: bool, why: string, at: Time): Daemon
    requires hid in d.handlers && d.handlers[hid].op in d.world.db.operations
  {
    var op := d.handlers[hid].op;
    var (state, reason) :=
      if d.handlers[hid].progress == ItemStored then (AwaitingApproval, ApprovalRequired)
      else if draft then (Completed, DraftReady)
      else (Blocked, Because(why));
    var audit := d.world.db.operations[op].audit;
    Leave(WithDb(d, UpdateOperationState(d.world.db, op, state, Some(reason), audit, at).0), hid)
  }

  predicate Ready(d: Daemon, hid: nat, progress: Progress) { hid in d.handlers && d.handlers[hid].progress == progress }

  predicate Writable(d: Daemon, hid: nat) {
    (Ready(d, hid, Gated) || Ready(d, hid, ItemStored)) && d.handlers[hid].op in d.world.db.operations
  }

  predicate Possible(d: Daemon, act: Act) {
    match act
    case Receive(hid, _, _, _, _) => hid !in d.handlers
    case ReadOperation(hid) => Ready(d, hid, Answered)
    case PutGateDecision(hid) => Ready(d, hid, SeenNew)
    case PutApprovalItem(hid, _, _, _, _) => Ready(d, hid, Gated) && Writable(d, hid)
    case WriteState(hid, _, _) => Writable(d, hid)
    case Abandon(hid) => true
    case Others(step) => ByOthers(step)
  }

  function NextAct(d: Daemon, act: Act, attempts: nat, at: Time): Daemon {
    if !Possible(d, act) then d
    else match act
      case Receive(hid, origin, op, audit, key) => ReceiveAct(d, hid, origin, op, audit, key, at)
      case ReadOperation(hid) => ReadAct(d, hid)
      case PutGateDecision(hid) => GateAct(d, hid)
      case PutApprovalItem(hid, approval, mode, proposal, diff) => ItemAct(d, hid, approval, mode, proposal, diff)
      case WriteState(hid, draft, why) => WriteAct(d, hid, draft, why, at)
      case Abandon(hid) => Leave(d, hid)
      case Others(step) => d.(world := Next(d.world, step, attempts, at))
  }

  function RunDaemon(registry: Registry, acts: seq<Moment>, attempts: nat): Daemon {
    if acts == [] then Daemon(Start(registry), map[], {})
    else
      var last := acts[|acts| - 1];
      NextAct(RunDaemon(registry, acts[..|acts| - 1], attempts), last.act, attempts, last.at)
  }

  // ----- When a handler goes on -----

  /** A handler goes on past reading its operation exactly when that is still new, and past the gate exactly when the
      operation has no gate decision yet; otherwise it ends, and in neither case has it written anything else. */
  lemma GoesOnExactly(d: Daemon, hid: nat, attempts: nat, at: Time)
    requires hid in d.handlers
    ensures var (op, read) := (d.handlers[hid].op, NextAct(d, ReadOperation(hid), attempts, at));
            Ready(d, hid, Answered) ==>
              && read == d.(handlers := read.handlers)
              && if op in d.world.db.operations && d.world.db.operations[op].state == Created then
                   read.handlers == d.handlers[hid := Handler(op, SeenNew)]
                 else read.handlers == d.handlers - {hid}
    ensures var (op, gated) := (d.handlers[hid].op, NextAct(d, PutGateDecision(hid), attempts, at));
            Ready(d, hid, SeenNew) ==>
              if op !in d.gates then
                gated == d.(handlers := d.handlers[hid := Handler(op, Gated)], gates := d.gates + {op})
              else gated == d.(handlers := d.handlers - {hid})
  {
  }

  // ----- How the handlers stand to the stages of the operations -----

  predicate PastGate(h: Handler) { h.progress == Gated || h.progress == ItemStored }

  /** At most one handler of an operation is past its gate decision. */
  predicate OnePastGate(d: Daemon) {
    forall a, b | a in d.handlers && b in d.handlers && PastGate(d.handlers[a]) && PastGate(d.handlers[b])
                  && d.handlers[a].op == d.handlers[b].op :: a == b
  }

  /** The operation of a stored answer to a request was submitted. */
  predicate AnswersSubmitted(db: Db, stages: map<Id, Stage>) {
    forall k | k in db.replies && k.0 == Requests && db.replies[k].Accepted? :: db.replies[k].operation in stages
  }

  predicate HandlerFits(d: Daemon, stages: map<Id, Stage>, h: Handler) {
    && h.op in stages
    && (PastGate(h) ==> h.op in d.gates && stages[h.op] == if h.progress == Gated then Compiling else Proposed)
  }

  predicate Fits(d: Daemon, stages: map<Id, Stage>) {
    && OnePastGate(d) && AnswersSubmitted(d.world.db, stages)
    && (forall op | op in stages :: op in d.world.db.operations && (op !in d.gates ==> stages[op] == Compiling))
    && (forall op | op in d.gates :: op in stages)
    && forall hid | hid in d.handlers :: HandlerFits(d, stages, d.handlers[hid])
  }

  /** The same world, but for the stages. */
  predicate Mirrors(d: Daemon, w: World) { d.world == w.(stages := d.world.stages) && Fits(d, w.stages) }

  // ----- What other calls leave alone -----

  /** Operations stay, and so do the stored answers to requests. */
  predicate KeepsRequests(db: Db, after: Db) {
    && (forall o | o in db.operations :: o in after.operations)
    && forall k: (Scope, Id) | k in after.replies && k.0 == Requests ::
         k in db.replies && after.replies[k] == db.replies[k]
  }

  lemma CancelKeepsRequests(db: Db, op: Id, reason: Reason, key: Option<Id>, at: Time)
    ensures KeepsRequests(db, CancelOperation(db, op, reason, key, at).0)
  {
  }

  lemma ReplayKeepsRequests(db: Db, input: ReplayInput, op: Id, audit: Id, at: Time)
    ensures KeepsRequests(db, CreateReplay(db, input, op, audit, at).0)
  {
  }

  lemma DecisionKeepsRequests(db: Db, input: ConsumeInput, syscall: Id, at: Time)
    ensures KeepsRequests(db, ConsumeApproval(db, input, syscall, at).0)
  {
  }

  lemma StartKeepsRequests(db: Db, approval: Id, challenge: Id, key: Option<Id>, at: Time)
    ensures KeepsRequests(db, StartOobChallenge(db, approval, challenge, key, at).0)
  {
  }

  lemma VerifyKeepsRequests(db: Db, approval: Id, challenge: Id, key: Option<Id>, at: Time)
    ensures KeepsRequests(db, VerifyOobChallenge(db, approval, challenge, key, at).0)
  {
  }

  lemma ApprovalCallKeepsRequests(db: Db, call: ApprovalCall, at: Time)
    ensures KeepsRequests(db, ApplyApproval(db, call, at))
  {
    match call
    case CallConsumeApproval(input, syscall) => DecisionKeepsRequests(db, input, syscall, at);
    case CallStartOobChallenge(approval, challenge, key) => StartKeepsRequests(db, approval, challenge, key, at);
    case CallVerifyOobChallenge(approval, challenge, key) => VerifyKeepsRequests(db, approval, challenge, key, at);
    case _ =>
  }

  lemma RegistryCallKeepsRequests(db: Db, call: RegistryCall)
    ensures KeepsRequests(db, ApplyRegistry(db, call))
  {
    match call
    case CallMintSnapshot(payload, digest, key) => MintKeepsRequests(db, payload, digest, key);
    case CallRegisterSchema(payload, digest, key) => RegisterKeepsRequests(db, payload, digest, key);
    case CallActivateSnapshot(version) =>
  }

  lemma RegisterKeepsRequests(db: Db, payload: Json.Value, digest: string, key: Option<Id>)
    ensures KeepsRequests(db, RegisterSchema(db, payload, digest, key).0)
  {
  }

  lemma MintKeepsRequests(db: Db, payload: Json.Value, digest: string, key: Option<Id>)
    ensures KeepsRequests(db, MintSnapshot(db, payload, digest, key).0)
  {
  }

  lemma CallKeepsRequests(db: Db, call: Call, at: Time)
    requires call.OnOperation? ==> !call.operation.CallCreateOperation?
    ensures KeepsRequests(db, Apply(db, call, at))
  {
    match call
    case OnOperation(CallCancelOperation(op, reason, key)) => CancelKeepsRequests(db, op, reason, key, at);
    case OnOperation(CallCreateReplay(input, op, audit)) => ReplayKeepsRequests(db, input, op, audit, at);
    case OnOperation(c) =>
    case OnApproval(c) => ApprovalCallKeepsRequests(db, c, at);
    case OnLease(c) => LeaseCallOnlyLeases(db, c, at);
    case OnRegistry(c) => RegistryCallKeepsRequests(db, c);
  }

  lemma OthersKeepRequests(w: World, step: Step, attempts: nat, at: Time)
    requires ByOthers(step)
    ensures KeepsRequests(w.db, Next(w, step, attempts, at).db)
  {
    if Enabled(w, step) {
      ExecutionRuns.StepIsCall(w, step, attempts, at);
      if ExecutionRuns.StepCall(w, step).Some? {
        CallKeepsRequests(w.db, ExecutionRuns.StepCall(w, step).value, at);
      }
    }
  }

  /** Other steps neither read nor write the stages. */
  lemma OthersIgnoreStages(w: World, step: Step, attempts: nat, at: Time, stages: map<Id, Stage>)
    requires ByOthers(step)
    ensures Next(w.(stages := stages), step, attempts, at) == Next(w, step, attempts, at).(stages := stages)
  {
    match step
    case Move(pid, outcome) =>
      if Enabled(w, step) {
        MovesIgnoreStages(w, pid, outcome, attempts, at, stages);
      }
    case _ =>
  }

  lemma MovesIgnoreStages(w: World, pid: nat, outcome: ToolOutcome, attempts: nat, at: Time, stages: map<Id, Stage>)
    requires pid in w.execs && HasCurrent(w.execs[pid])
    ensures MoveStep(w.(stages := stages), pid, outcome, attempts, at) ==
            MoveStep(w, pid, outcome, attempts, at).(stages := stages)
  {
    match w.execs[pid].pc
    case Acquire => AcquireIgnoresStages(w, pid, at, stages);
    case Scan => ScanIgnoresStages(w, pid, stages);
    case Claim => ClaimIgnoresStages(w, pid, stages);
    case CallTool(_) => ToolIgnoresStages(w, pid, outcome, attempts, stages);
    case Settle =>
    case RecordFailure =>
    case NoteExecuted => NoteIgnoresStages(w, pid, stages);
    case NoteFailed => NoteIgnoresStages(w, pid, stages);
    case NoteCompleted => NoteIgnoresStages(w, pid, stages);
    case FailOperation =>
    case Inspect =>
    case ListSyscalls =>
    case Complete =>
    case Release =>
  }

  lemma AcquireIgnoresStages(w: World, pid: nat, at: Time, stages: map<Id, Stage>)
    requires pid in w.execs
    ensures AcquireStep(w.(stages := stages), pid, at) == AcquireStep(w, pid, at).(stages := stages)
  {
  }

  lemma ScanIgnoresStages(w: World, pid: nat, stages: map<Id, Stage>)
    requires pid in w.execs
    ensures ScanStep(w.(stages := stages), pid) == ScanStep(w, pid).(stages := stages)
  {
  }

  lemma ClaimIgnoresStages(w: World, pid: nat, stages: map<Id, Stage>)
    requires pid in w.execs && w.execs[pid].next < |w.execs[pid].ids|
    ensures ClaimStep(w.(stages := stages), pid) == ClaimStep(w, pid).(stages := stages)
  {
  }

  lemma ToolIgnoresStages(w: World, pid: nat, outcome: ToolOutcome, attempts: nat, stages: map<Id, Stage>)
    requires pid in w.execs && w.execs[pid].next < |w.execs[pid].ids| && w.execs[pid].pc.CallTool?
    ensures ToolStep(w.(stages := stages), pid, outcome, attempts) ==
            ToolStep(w, pid, outcome, attempts).(stages := stages)
  {
  }

  lemma NoteIgnoresStages(w: World, pid: nat, stages: map<Id, Stage>)
    requires pid in w.execs
    ensures NoteStep(w.(stages := stages), pid) == NoteStep(w, pid).(stages := stages)
  {
  }

  // ----- Each act is a step, or nothing, of the world with stages -----

  /** The step of the world that an act of the daemon is. */
  function StepFor(d: Daemon, act: Act): Option<Step> {
    if !Possible(d, act) then None
    else match act
      case Receive(_, origin, op, audit, key) => Some(SubmitOpen(origin, op, audit, key))
      case PutApprovalItem(hid, approval, mode, proposal, diff) =>
        Some(SubmitPropose(d.handlers[hid].op, approval, mode, proposal, diff))
      case WriteState(hid, draft, why) => Some(SubmitFinish(d.handlers[hid].op, draft, why))
      case Others(step) => Some(step)
      case _ => None
  }

  function Follow(w: World, step: Option<Step>, attempts: nat, at: Time): World {
    if step.Some? then Next(w, step.value, attempts, at) else w
  }

  lemma OpenedDb(db: Db, origin: Id, op: Id, audit: Id, key: Option<Id>, at: Time)
    ensures var (after, r) := CreateOperation(db, origin, op, audit, key, at);
            if Earlier(db, Requests, key).Some? then after == db && r == Ok(Earlier(db, Requests, key).value)
            else if r.Ok? then
              && r.value == Accepted(op, audit) && op !in db.operations && op in after.operations
              && after.operations == db.operations[op := after.operations[op]]
              && after.replies == Remember(db.replies, Requests, key, Accepted(op, audit))
            else after == db
  {
  }

  /** A new operation is at its first stage, and no handler has it yet. */
  lemma NewRequestMirrors(d: Daemon, w: World, hid: nat, op: Id, audit: Id, key: Option<Id>, db: Db)
    requires Mirrors(d, w) && hid !in d.handlers && op !in w.db.operations && op in db.operations
    requires db.operations == w.db.operations[op := db.operations[op]]
    requires db.replies == Remember(w.db.replies, Requests, key, Accepted(op, audit))
    ensures Mirrors(WithDb(d, db).(handlers := d.handlers[hid := Handler(op, Answered)]),
                    w.(db := db, stages := w.stages[op := Compiling]))
  {
  }

  /** A repeat is given an operation that was submitted. */
  lemma AnsweredMirrors(d: Daemon, w: World, hid: nat, key: Option<Id>)
    requires Mirrors(d, w) && hid !in d.handlers && Earlier(w.db, Requests, key).Some?
    requires Earlier(w.db, Requests, key).value.Accepted?
    ensures var op := Earlier(w.db, Requests, key).value.operation;
            Mirrors(d.(handlers := d.handlers[hid := Handler(op, Answered)]), w)
  {
  }

  lemma ReceiveMirrors(d: Daemon, w: World, hid: nat, origin: Id, op: Id, audit: Id, key: Option<Id>, attempts: nat,
                       at: Time)
    requires Mirrors(d, w) && hid !in d.handlers
    ensures Mirrors(ReceiveAct(d, hid, origin, op, audit, key, at),
                    Next(w, SubmitOpen(origin, op, audit, key), attempts, at))
  {
    var (db, r) := CreateOperation(w.db, origin, op, audit, key, at);
    var earlier := Earlier(w.db, Requests, key);
    OpenedDb(w.db, origin, op, audit, key, at);
    if earlier.Some? {
      assert OpenStep(w, origin, op, audit, key, at) == w;
      if earlier.value.Accepted? {
        AnsweredMirrors(d, w, hid, key);
      }
    } else if r.Ok? {
      NewRequestMirrors(d, w, hid, op, audit, key, db);
    }
  }

  lemma StoredItemMirrors(d: Daemon, w: World, hid: nat, db: Db)
    requires Mirrors(d, w) && Ready(d, hid, Gated) && Writable(d, hid)
    requires db == d.world.db.(approvals := db.approvals)
    ensures var stages := w.stages[d.handlers[hid].op := Proposed];
            Mirrors(At(WithDb(d, db), hid, ItemStored), w.(db := db, stages := stages))
  {
  }

  lemma RefusedItemMirrors(d: Daemon, w: World, hid: nat)
    requires Mirrors(d, w) && Ready(d, hid, Gated) && Writable(d, hid)
    ensures Mirrors(Leave(d, hid), w.(stages := w.stages[d.handlers[hid].op := Finished]))
  {
  }

  lemma ItemMirrors(d: Daemon, w: World, hid: nat, approval: Id, mode: ApprovalMode, proposal: Json.Value,
                    diff: Json.Value, attempts: nat, at: Time)
    requires Mirrors(d, w) && Ready(d, hid, Gated) && Writable(d, hid)
    ensures Mirrors(ItemAct(d, hid, approval, mode, proposal, diff),
                    Next(w, SubmitPropose(d.handlers[hid].op, approval, mode, proposal, diff), attempts, at))
  {
    var op := d.handlers[hid].op;
    var (db, r) := CreateApprovalItem(w.db, approval, op, mode, proposal, diff, w.db.operations[op].audit);
    if r.Ok? {
      StoredItemMirrors(d, w, hid, db);
    } else {
      RefusedItemMirrors(d, w, hid);
    }
  }

  lemma WriteMirrors(d: Daemon, w: World, hid: nat, draft: bool, why: string, attempts: nat, at: Time)
    requires Mirrors(d, w) && Writable(d, hid)
    ensures Mirrors(WriteAct(d, hid, draft, why, at),
                    Next(w, SubmitFinish(d.handlers[hid].op, draft, why), attempts, at))
  {
  }

  lemma GateMirrors(d: Daemon, w: World, hid: nat)
    requires Mirrors(d, w) && Ready(d, hid, SeenNew)
    ensures Mirrors(GateAct(d, hid), w)
  {
  }

  lemma OthersMirror(d: Daemon, w: World, step: Step, attempts: nat, at: Time)
    requires Mirrors(d, w) && ByOthers(step)
    ensures Mirrors(d.(world := Next(d.world, step, attempts, at)), Next(w, step, attempts, at))
  {
    OthersIgnoreStages(w, step, attempts, at, d.world.stages);
    OthersIgnoreStages(w, step, attempts, at, w.stages);
    OthersKeepRequests(w, step, attempts, at);
    assert w.(stages := w.stages) == w;
  }

  lemma ActMirrors(d: Daemon, w: World, act: Act, attempts: nat, at: Time)
    requires Mirrors(d, w)
    ensures Mirrors(NextAct(d, act, attempts, at), Follow(w, StepFor(d, act), attempts, at))
  {
    if Possible(d, act) {
      match act
      case Receive(hid, origin, op, audit, key) => ReceiveMirrors(d, w, hid, origin, op, audit, key, attempts, at);
      case ReadOperation(hid) =>
      case PutGateDecision(hid) => GateMirrors(d, w, hid);
      case PutApprovalItem(hid, approval, mode, proposal, diff) =>
        ItemMirrors(d, w, hid, approval, mode, proposal, diff, attempts, at);
      case WriteState(hid, draft, why) => WriteMirrors(d, w, hid, draft, why, attempts, at);
      case Abandon(hid) =>
      case Others(step) => OthersMirror(d, w, step, attempts, at);
    }
  }

  function StepAt(step: Option<Step>, at: Time): seq<Timed> { if step.Some? then [Timed(step.value, at)] else [] }

  /** The run of the world with stages that a run of the daemon is. */
  function StepsOf(registry: Registry, acts: seq<Moment>, attempts: nat): seq<Timed> {
    if acts == [] then []
    else
      var before, last := acts[..|acts| - 1], acts[|acts| - 1];
      StepsOf(registry, before, attempts) + StepAt(StepFor(RunDaemon(registry, before, attempts), last.act), last.at)
  }

  lemma FollowsInRun(w: World, steps: seq<Timed>, step: Option<Step>, attempts: nat, at: Time)
    ensures RunWorld(w, steps + StepAt(step, at), attempts) == Follow(RunWorld(w, steps, attempts), step, attempts, at)
  {
    if step.Some? {
      RunSnoc(w, steps, Timed(step.value, at), attempts);
    } else {
      assert steps + [] == steps;
    }
  }

  lemma ActsSubmitOnce(d: Daemon, act: Act, steps: seq<Timed>, at: Time)
    requires SubmittedOnceRun(steps)
    ensures SubmittedOnceRun(steps + StepAt(StepFor(d, act), at))
  {
  }

  /** However many handlers a request has: the daemon's runs are runs in which each operation is submitted once. */
  lemma {:induction false} DaemonSubmitsOnce(registry: Registry, acts: seq<Moment>, attempts: nat)
    ensures SubmittedOnceRun(StepsOf(registry, acts, attempts))
    ensures Mirrors(RunDaemon(registry, acts, attempts),
                    RunWorld(Start(registry), StepsOf(registry, acts, attempts), attempts))
  {
    if acts != [] {
      var before, last := acts[..|acts| - 1], acts[|acts| - 1];
      var d := RunDaemon(registry, before, attempts);
      var steps := StepsOf(registry, before, attempts);
      DaemonSubmitsOnce(registry, before, attempts);
      ActMirrors(d, RunWorld(Start(registry), steps, attempts), last.act, attempts, last.at);
      ActsSubmitOnce(d, last.act, steps, last.at);
      FollowsInRun(Start(registry), steps, StepFor(d, last.act), attempts, last.at);
    }
  }

  // ----- What follows for the daemon -----

  /** At most one handler of an operation is past its gate decision and can still write the operation's state. */
  lemma OneHandlerPassesTheGate(registry: Registry, acts: seq<Moment>, attempts: nat, a: nat, b: nat)
    requires var d := RunDaemon(registry, acts, attempts);
             && Writable(d, a) && Writable(d, b) && d.handlers[a].op == d.handlers[b].op
    ensures a == b
  {
    DaemonSubmitsOnce(registry, acts, attempts);
  }

  /** No handler ever writes an operation that holds a permitted syscall, and nobody else strands one. */
  lemma DaemonWritesSafely(registry: Registry, acts: seq<Moment>, attempts: nat)
    ensures StrandedWork.AlwaysSafe(Start(registry), StepsOf(registry, acts, attempts), attempts)
    ensures StrandedWork.AllWait(RunDaemon(registry, acts, attempts).world.db)
  {
    var steps := StepsOf(registry, acts, attempts);
    DaemonSubmitsOnce(registry, acts, attempts);
    StrandedWork.OneHandlerIsSafe(registry, steps, attempts);
    StrandedWork.WorkWaitsExactly(registry, steps, attempts);
    assert steps[..|steps|] == steps && StrandedWork.WaitsAfter(Start(registry), steps[..|steps|], attempts);
  }

  /** In every run of the daemon, however often requests are sent and whatever crashes: the operation of a permitted
      syscall is cancelled, or recovery returns it, once, with that syscall. */
  lemma DaemonLosesNoWork(registry: Registry, acts: seq<Moment>, attempts: nat, rows: seq<Row>,
                          grouped: seq<RecoverableOperation>, s: Id)
    requires var db := RunDaemon(registry, acts, attempts).world.db;
             && IsQueryResult(db, rows) && IsGrouping(rows, grouped)
             && s in db.syscalls && db.syscalls[s].status == Permitted
    ensures var db := RunDaemon(registry, acts, attempts).world.db;
            var op := db.syscalls[s].operation;
            && op in db.operations
            && (db.operations[op].state != Cancelled ==>
                  exists g :: 0 <= g < |grouped| && grouped[g].operation == op && s in grouped[g].syscalls
                              && forall h | 0 <= h < |grouped| && grouped[h].operation == op :: h == g)
  {
    DaemonSubmitsOnce(registry, acts, attempts);
    NoApprovedWorkIsLost(registry, StepsOf(registry, acts, attempts), attempts, rows, grouped, s);
  }

  // ----- A request that is sent twice -----

  lemma ActSnoc(registry: Registry, acts: seq<Moment>, last: Moment, attempts: nat)
    ensures RunDaemon(registry, acts + [last], attempts) ==
            NextAct(RunDaemon(registry, acts, attempts), last.act, attempts, last.at)
  {
    assert (acts + [last])[..|acts|] == acts;
  }

  /** The request is sent twice under its key; `op` and `audit` are the ids drawn for it the second time. */
  function BothReceived(x: Submission, op: Id, audit: Id): seq<Moment> {
    [Moment(Receive(0, x.origin, x.op, x.audit, x.key), 0)] + [Moment(Receive(1, x.origin, op, audit, x.key), 0)]
  }

  lemma BothAreAnswered(registry: Registry, x: Submission, op: Id, audit: Id, attempts: nat)
    requires x.key.Some?
    ensures var d := RunDaemon(registry, BothReceived(x, op, audit), attempts);
            && d.world.db == AcceptedDb(registry, x) && d.gates == {}
            && x.op in d.world.db.operations && d.world.db.operations[x.op].state == Created
            && d.handlers == TwoHandlers(x.op, Answered, Answered)
  {
    var first := Moment(Receive(0, x.origin, x.op, x.audit, x.key), 0);
    var db := Fresh(registry);
    FirstIsAccepted(registry, x, attempts);
    OpenedDb(db, x.origin, x.op, x.audit, x.key, 0);
    RepeatIsAnswered(db, x, op, audit, 0, 0);
    ActSnoc(registry, [], first, attempts);
    assert [] + [first] == [first];
    ActSnoc(registry, [first], Moment(Receive(1, x.origin, op, audit, x.key), 0), attempts);
  }

  function TwoHandlers(op: Id, first: Progress, second: Progress): map<nat, Handler> {
    map[0 := Handler(op, first), 1 := Handler(op, second)]
  }

  lemma BothSeeItNew(d: Daemon, op: Id, attempts: nat, at: Time)
    requires op in d.world.db.operations && d.world.db.operations[op].state == Created
    requires d.handlers == TwoHandlers(op, Answered, Answered)
    ensures NextAct(NextAct(d, ReadOperation(0), attempts, at), ReadOperation(1), attempts, at) ==
            d.(handlers := TwoHandlers(op, SeenNew, SeenNew))
  {
    var first := NextAct(d, ReadOperation(0), attempts, at);
    assert first == d.(handlers := TwoHandlers(op, SeenNew, Answered));
  }

  lemma SecondIsRefused(d: Daemon, op: Id, attempts: nat, at: Time)
    requires op !in d.gates && d.handlers == TwoHandlers(op, SeenNew, SeenNew)
    ensures NextAct(NextAct(d, PutGateDecision(0), attempts, at), PutGateDecision(1), attempts, at) ==
            d.(handlers := map[0 := Handler(op, Gated)], gates := d.gates + {op})
  {
    var first := NextAct(d, PutGateDecision(0), attempts, at);
    assert first == d.(handlers := TwoHandlers(op, Gated, SeenNew), gates := d.gates + {op});
    assert TwoHandlers(op, Gated, SeenNew) - {1} == map[0 := Handler(op, Gated)];
  }

  function BothRun(x: Submission, op: Id, audit: Id): seq<Moment> {
    BothReceived(x, op, audit) + [Moment(ReadOperation(0), 0)] + [Moment(ReadOperation(1), 0)]
    + [Moment(PutGateDecision(0), 0)] + [Moment(PutGateDecision(1), 0)]
  }

  /** A request sent twice under its key has two handlers of one operation, both of which see it new; the first goes on,
      and the second ends at the gate decision with nothing written. */
  lemma SecondHandlerEndsAtTheGate(registry: Registry, x: Submission, op: Id, audit: Id, attempts: nat)
    requires x.key.Some?
    ensures var received := RunDaemon(registry, BothReceived(x, op, audit), attempts);
            var d := RunDaemon(registry, BothRun(x, op, audit), attempts);
            && received.handlers == TwoHandlers(x.op, Answered, Answered)
            && d.handlers == map[0 := Handler(x.op, Gated)] && d.gates == {x.op} && d.world == received.world
  {
    var acts := BothReceived(x, op, audit);
    BothAreAnswered(registry, x, op, audit, attempts);
    var d := RunDaemon(registry, acts, attempts);
    BothSeeItNew(d, x.op, attempts, 0);
    SecondIsRefused(d.(handlers := TwoHandlers(x.op, SeenNew, SeenNew)), x.op, attempts, 0);
    ActSnoc(registry, acts, Moment(ReadOperation(0), 0), attempts);
    acts := acts + [Moment(ReadOperation(0), 0)];
    ActSnoc(registry, acts, Moment(ReadOperation(1), 0), attempts);
    acts := acts + [Moment(ReadOperation(1), 0)];
    ActSnoc(registry, acts, Moment(PutGateDecision(0), 0), attempts);
    acts := acts + [Moment(PutGateDecision(0), 0)];
    ActSnoc(registry, acts, Moment(PutGateDecision(1), 0), attempts);
  }
}
