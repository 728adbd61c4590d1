/** What every storage call keeps, whatever calls run and in whatever order: the transition log replays to the
    current state, timelines only grow, and approvals, challenges and syscalls stay in balance. */
module Ledger {
  import opened Prelude
  import opened ActionSchemas
  import opened Database

  // ----- The transition log -----

  function RowsOf(log: seq<Transition>, op: Id): (rows: seq<Transition>)
    ensures forall i | 0 <= i < |rows| :: rows[i].operation == op
  {
    if log == [] then []
    else
      var rest := RowsOf(log[..|log| - 1], op);
      if log[|log| - 1].operation == op then rest + [log[|log| - 1]] else rest
  }

  /** The rows lead from nothing, link by link, to `state`. */
  ghost predicate LeadsTo(rows: seq<Transition>, state: OperationState) {
    && rows != [] && rows[0].from == None && rows[|rows| - 1].to == state
    && forall i | 0 < i < |rows| :: rows[i].from == Some(rows[i - 1].to)
  }

  ghost predicate LogReplays(db: Db) {
    && (forall op | op in db.operations :: LeadsTo(RowsOf(db.transitions, op), db.operations[op].state))
    && forall op | op !in db.operations :: RowsOf(db.transitions, op) == []
  }

  lemma RowsOfSnoc(log: seq<Transition>, row: Transition, op: Id)
    ensures RowsOf(log + [row], op) == RowsOf(log, op) + (if row.operation == op then [row] else [])
  {
    assert (log + [row])[..|log|] == log;
  }

  /** A change of state that is logged with the state it leaves. */
  ghost predicate LoggedChange(db: Db, after: Db, row: Transition) {
    && after.transitions == db.transitions + [row]
    && after.operations.Keys == db.operations.Keys + {row.operation}
    && after.operations[row.operation].state == row.to
    && row.from == (if row.operation in db.operations then Some(db.operations[row.operation].state) else None)
    && forall op | op in db.operations && op != row.operation :: after.operations[op] == db.operations[op]
  }

  lemma LinkedOneMore(rows: seq<Transition>, row: Transition, state: OperationState)
    requires if row.from == None then rows == [] else LeadsTo(rows, state) && row.from == Some(state)
    ensures LeadsTo(rows + [row], row.to)
  {
  }

  lemma ChangedOperationReplays(db: Db, after: Db, row: Transition)
    requires LogReplays(db) && LoggedChange(db, after, row)
    ensures LeadsTo(RowsOf(after.transitions, row.operation), after.operations[row.operation].state)
  {
    var op := row.operation;
    RowsOfSnoc(db.transitions, row, op);
    LinkedOneMore(RowsOf(db.transitions, op), row, if op in db.operations then db.operations[op].state else Created);
  }

  lemma LoggedChangeReplays(db: Db, after: Db, row: Transition)
    requires LogReplays(db) && LoggedChange(db, after, row)
    ensures LogReplays(after)
  {
    ChangedOperationReplays(db, after, row);
    forall o | o != row.operation ensures RowsOf(after.transitions, o) == RowsOf(db.transitions, o) {
      RowsOfSnoc(db.transitions, row, o);
    }
    forall o | o in db.operations && o != row.operation
      ensures LeadsTo(RowsOf(db.transitions, o), after.operations[o].state)
    {
    }
  }

  /** Either the operations and the log are as before, or exactly one logged change was made. */
  ghost predicate ChangeIsLogged(db: Db, after: Db) {
    || (after.operations == db.operations && after.transitions == db.transitions)
    || (|after.transitions| > 0 && LoggedChange(db, after, after.transitions[|after.transitions| - 1]))
  }

  lemma CallLogsItsChange(db: Db, call: Call, now: Time)
    ensures ChangeIsLogged(db, Apply(db, call, now))
  {
    match call
    case OnOperation(c) => OperationCallLogsItsChange(db, c, now);
    case OnApproval(CallConsumeApproval(input, syscall)) => DecisionLogsItsChange(db, input, syscall, now);
    case OnApproval(c) => OtherApprovalCallsKeepOperations(db, c, now);
    case OnLease(c) => LeaseCallOnlyLeases(db, c, now);
    case OnRegistry(c) => RegistryCallOnlyRegistry(db, c);
  }

  lemma CreateLogsItsChange(db: Db, origin: Id, op: Id, audit: Id, key: Option<Id>, now: Time)
    ensures ChangeIsLogged(db, CreateOperation(db, origin, op, audit, key, now).0)
  {
  }

  lemma UpdateLogsItsChange(db: Db, op: Id, state: OperationState, reason: Option<Reason>, audit: Id, now: Time)
    ensures ChangeIsLogged(db, UpdateOperationState(db, op, state, reason, audit, now).0)
  {
  }

  lemma CancelLogsItsChange(db: Db, op: Id, reason: Reason, key: Option<Id>, now: Time)
    ensures ChangeIsLogged(db, CancelOperation(db, op, reason, key, now).0)
  {
  }

  lemma ReplayLogsItsChange(db: Db, input: ReplayInput, op: Id, audit: Id, now: Time)
    ensures ChangeIsLogged(db, CreateReplay(db, input, op, audit, now).0)
  {
  }

  lemma OperationCallLogsItsChange(db: Db, call: OperationCall, now: Time)
    ensures ChangeIsLogged(db, ApplyOperation(db, call, now))
  {
    match call
    case CallCreateOperation(origin, op, audit, key) => CreateLogsItsChange(db, origin, op, audit, key, now);
    case CallUpdateOperationState(op, state, reason, audit) => UpdateLogsItsChange(db, op, state, reason, audit, now);
    case CallCancelOperation(op, reason, key) => CancelLogsItsChange(db, op, reason, key, now);
    case CallCreateReplay(input, op, audit) =>
      ReplayLogsItsChange(db, input, op, audit, now);
    case CallAppendTimelineItem(audit, item) =>
  }

  lemma OtherApprovalCallsKeepOperations(db: Db, call: ApprovalCall, now: Time)
    requires !call.CallConsumeApproval?
    ensures ChangeIsLogged(db, ApplyApproval(db, call, now))
  {
  }

  lemma DecisionLogsItsChange(db: Db, input: ConsumeInput, syscall: Id, now: Time)
    ensures ChangeIsLogged(db, ConsumeApproval(db, input, syscall, now).0)
  {
    if ConsumeProblem(db, input, syscall, now).None? {
      var after := DecidedDb(db, input, syscall, now);
      var row := after.transitions[|after.transitions| - 1];
      assert LoggedChange(db, after, row);
    }
  }

  lemma CallKeepsLog(db: Db, call: Call, now: Time)
    requires LogReplays(db)
    ensures LogReplays(Apply(db, call, now))
  {
    var after := Apply(db, call, now);
    CallLogsItsChange(db, call, now);
    if after.operations == db.operations && after.transitions == db.transitions {
      assert forall op | op in after.operations :: LeadsTo(RowsOf(db.transitions, op), db.operations[op].state);
    } else {
      LoggedChangeReplays(db, after, after.transitions[|after.transitions| - 1]);
    }
  }

  /** In every reachable state each operation's rows replay to its current state. */
  lemma {:induction false} LogAlwaysReplays(registry: Registry, events: seq<Event>)
    ensures LogReplays(Run(Fresh(registry), events))
  {
    if events != [] {
      var last := events[|events| - 1];
      LogAlwaysReplays(registry, events[..|events| - 1]);
      CallKeepsLog(Run(Fresh(registry), events[..|events| - 1]), last.call, last.at);
    }
  }

  // ----- Timelines -----

  /** Nothing logged is ever rewritten: later states extend the log and every timeline. */
  ghost predicate OnlyAppends(db: Db, after: Db) {
    && db.transitions <= after.transitions
    && forall a | a in db.audits ::
         && a in after.audits
         && after.audits[a].operation == db.audits[a].operation
         && db.audits[a].timeline <= after.audits[a].timeline
  }

  lemma CallOnlyAppends(db: Db, call: Call, now: Time)
    ensures OnlyAppends(db, Apply(db, call, now))
  {
    match call
    case OnOperation(CallCreateOperation(origin, op, audit, key)) => CreateOnlyAppends(db, origin, op, audit, key, now);
    case OnOperation(CallUpdateOperationState(op, state, reason, audit)) =>
      UpdateOnlyAppends(db, op, state, reason, audit, now);
    case OnOperation(CallCancelOperation(op, reason, key)) => CancelOnlyAppends(db, op, reason, key, now);
    case OnOperation(CallCreateReplay(input, op, audit)) =>
      ReplayOnlyAppends(db, input, op, audit, now);
    case OnOperation(CallAppendTimelineItem(audit, item)) => AppendOnlyAppends(db, audit, item);
    case OnApproval(CallConsumeApproval(input, syscall)) => DecisionOnlyAppends(db, input, syscall, now);
    case OnApproval(c) => OtherApprovalCallsAppend(db, c, now);
    case OnLease(c) => LeaseCallOnlyLeases(db, c, now);
    case OnRegistry(c) => RegistryCallOnlyRegistry(db, c);
  }

  lemma CreateOnlyAppends(db: Db, origin: Id, op: Id, audit: Id, key: Option<Id>, now: Time)
    ensures OnlyAppends(db, CreateOperation(db, origin, op, audit, key, now).0)
  {
  }

  lemma UpdateOnlyAppends(db: Db, op: Id, state: OperationState, reason: Option<Reason>, audit: Id, now: Time)
    ensures OnlyAppends(db, UpdateOperationState(db, op, state, reason, audit, now).0)
  {
  }

  lemma CancelOnlyAppends(db: Db, op: Id, reason: Reason, key: Option<Id>, now: Time)
    ensures OnlyAppends(db, CancelOperation(db, op, reason, key, now).0)
  {
  }

  lemma ReplayOnlyAppends(db: Db, input: ReplayInput, op: Id, audit: Id, now: Time)
    ensures OnlyAppends(db, CreateReplay(db, input, op, audit, now).0)
  {
  }

  lemma AppendOnlyAppends(db: Db, audit: Id, item: TimelineItem)
    ensures OnlyAppends(db, AppendTimelineItem(db, audit, item).0)
  {
  }

  lemma DecisionOnlyAppends(db: Db, input: ConsumeInput, syscall: Id, now: Time)
    ensures OnlyAppends(db, ConsumeApproval(db, input, syscall, now).0)
  {
  }

  lemma OtherApprovalCallsAppend(db: Db, call: ApprovalCall, now: Time)
    requires !call.CallConsumeApproval?
    ensures OnlyAppends(db, ApplyApproval(db, call, now))
  {
  }

  lemma {:induction false} RunOnlyAppends(db: Db, events: seq<Event>, k: nat)
    requires k <= |events|
    ensures OnlyAppends(Run(db, events[..k]), Run(db, events))
  {
    if k == |events| {
      assert events[..k] == events;
    } else {
      var before := events[..|events| - 1];
      var last := events[|events| - 1];
      RunOnlyAppends(db, before, k);
      assert before[..k] == events[..k];
      CallOnlyAppends(Run(db, before), last.call, last.at);
    }
  }

  // ----- Approvals, challenges and syscalls -----

  ghost function SyscallsFor(db: Db, approval: Id): set<Id> {
    set s | s in db.syscalls && db.syscalls[s].approval == approval
  }

  ghost function ConsumedChallenges(db: Db, approval: Id): set<Id> {
    set c | c in db.challenges && db.challenges[c].approval == approval && db.challenges[c].status == ChallengeConsumed
  }

  ghost predicate SyscallsBalance(db: Db) {
    && (forall s | s in db.syscalls ::
          && db.syscalls[s].approval in db.approvals
          && db.syscalls[s].operation == db.approvals[db.syscalls[s].approval].operation)
    && forall a | a in db.approvals ::
         |SyscallsFor(db, a)| == if db.approvals[a].status == Consumed then 1 else 0
  }

  ghost predicate ChallengesBalance(db: Db) {
    && (forall c | c in db.challenges ::
          && db.challenges[c].approval in db.approvals
          && (db.challenges[c].status == ChallengeConsumed <==> db.challenges[c].consumedAt.Some?))
    && forall a | a in db.approvals ::
         |ConsumedChallenges(db, a)| ==
         if db.approvals[a].status == Consumed && db.approvals[a].mode == OobRequired then 1 else 0
  }

  ghost predicate Balanced(db: Db) { SyscallsBalance(db) && ChallengesBalance(db) }

  ghost predicate SameCounts(db: Db, after: Db) {
    forall a :: SyscallsFor(after, a) == SyscallsFor(db, a) && ConsumedChallenges(after, a) == ConsumedChallenges(db, a)
  }

  lemma NewApprovalBalances(db: Db, id: Id, op: Id, mode: ApprovalMode, proposal: Json.Value, diff: Json.Value, audit: Id)
    requires Balanced(db)
    ensures Balanced(CreateApprovalItem(db, id, op, mode, proposal, diff, audit).0)
  {
    assert SameCounts(db, CreateApprovalItem(db, id, op, mode, proposal, diff, audit).0);
    if id !in db.approvals {
      assert SyscallsFor(db, id) == {} && ConsumedChallenges(db, id) == {};
    }
  }

  lemma StartedChallengeBalances(db: Db, approval: Id, challenge: Id, key: Option<Id>, now: Time)
    requires Balanced(db)
    ensures Balanced(StartOobChallenge(db, approval, challenge, key, now).0)
  {
    var after := StartOobChallenge(db, approval, challenge, key, now).0;
    if after != db {
      NewChallengeBalances(db, challenge, after.challenges[challenge], after.replies);
    }
  }

  lemma NewChallengeBalances(db: Db, challenge: Id, row: Challenge, replies: map<(Scope, Id), Reply>)
    requires Balanced(db) && challenge !in db.challenges && row.approval in db.approvals
    requires row.status == ChallengePending && row.consumedAt == None
    ensures Balanced(db.(challenges := db.challenges[challenge := row], replies := replies))
  {
    var after := db.(challenges := db.challenges[challenge := row], replies := replies);
    assert SameCounts(db, after);
  }

  lemma VerifiedChallengeBalances(db: Db, challenge: Id, replies: map<(Scope, Id), Reply>)
    requires Balanced(db) && challenge in db.challenges && db.challenges[challenge].status == ChallengePending
    ensures Balanced(db.(challenges := db.challenges[challenge := db.challenges[challenge].(status := Verified)],
                         replies := replies))
  {
    var after := db.(challenges := db.challenges[challenge := db.challenges[challenge].(status := Verified)],
                     replies := replies);
    assert SameCounts(db, after);
  }

  lemma SyscallUpdateBalances(db: Db, id: Id, row: Syscall)
    requires Balanced(db) && id in db.syscalls
    requires row.approval == db.syscalls[id].approval && row.operation == db.syscalls[id].operation
    ensures Balanced(db.(syscalls := db.syscalls[id := row]))
  {
    var after := db.(syscalls := db.syscalls[id := row]);
    assert SameCounts(db, after);
  }

  /** What a decision does to the three tables. */
  ghost predicate DecidesOne(db: Db, after: Db, approval: Id, granted: Option<Id>, spent: Option<Id>) {
    && approval in db.approvals && db.approvals[approval].status == Pending
    && after.approvals ==
       db.approvals[approval := db.approvals[approval].(status := if granted.Some? then Consumed else Denied)]
    && (match granted
        case None => after.syscalls == db.syscalls
        case Some(id) =>
          && id !in db.syscalls && id in after.syscalls
          && after.syscalls == db.syscalls[id := after.syscalls[id]]
          && after.syscalls[id].approval == approval
          && after.syscalls[id].operation == db.approvals[approval].operation)
    && (match spent
        case None => after.challenges == db.challenges
        case Some(c) =>
          && c in db.challenges && db.challenges[c].approval == approval && db.challenges[c].status == Verified
          && (exists at ::
                after.challenges ==
                db.challenges[c := db.challenges[c].(status := ChallengeConsumed, consumedAt := Some(at))]))
    && (spent.Some? <==> granted.Some? && db.approvals[approval].mode == OobRequired)
  }

  lemma DecisionDecidesOne(db: Db, input: ConsumeInput, syscall: Id, now: Time)
    requires ConsumeProblem(db, input, syscall, now).None?
    ensures DecidesOne(db, DecidedDb(db, input, syscall, now), input.approval,
                       if input.decision == Approve then Some(syscall) else None,
                       if NeedsChallenge(db, input) then input.challenge else None)
  {
  }

  lemma DecidesOneBalancesSyscalls(db: Db, after: Db, approval: Id, granted: Option<Id>, spent: Option<Id>)
    requires SyscallsBalance(db) && DecidesOne(db, after, approval, granted, spent)
    ensures SyscallsBalance(after)
  {
    match granted
    case None => assert forall a :: SyscallsFor(after, a) == SyscallsFor(db, a);
    case Some(id) => GrantBalances(db, after, approval, id, after.syscalls[id]);
  }

  lemma GrantBalances(db: Db, after: Db, approval: Id, id: Id, row: Syscall)
    requires SyscallsBalance(db) && approval in db.approvals && db.approvals[approval].status == Pending
    requires id !in db.syscalls && after.syscalls == db.syscalls[id := row]
    requires row.approval == approval && row.operation == db.approvals[approval].operation
    requires after.approvals == db.approvals[approval := db.approvals[approval].(status := Consumed)]
    ensures SyscallsBalance(after)
  {
    assert SyscallsFor(db, approval) == {};
    assert SyscallsFor(after, approval) == {id};
    assert forall a | a != approval :: SyscallsFor(after, a) == SyscallsFor(db, a);
  }

  lemma SpentChallenges(db: Db, after: Db, approval: Id, granted: Option<Id>, spent: Option<Id>, a: Id)
    requires ChallengesBalance(db) && DecidesOne(db, after, approval, granted, spent)
    ensures ConsumedChallenges(db, approval) == {}
    ensures ConsumedChallenges(after, a) ==
            if a == approval && spent.Some? then {spent.value} else ConsumedChallenges(db, a)
  {
    assert ConsumedChallenges(db, approval) == {};
  }

  lemma DecidesOneBalancesChallenges(db: Db, after: Db, approval: Id, granted: Option<Id>, spent: Option<Id>)
    requires ChallengesBalance(db) && DecidesOne(db, after, approval, granted, spent)
    ensures ChallengesBalance(after)
  {
    forall a | a in after.approvals
      ensures ConsumedChallenges(db, approval) == {}
      ensures ConsumedChallenges(after, a) ==
              if a == approval && spent.Some? then {spent.value} else ConsumedChallenges(db, a)
    {
      SpentChallenges(db, after, approval, granted, spent, a);
    }
  }

  lemma DecisionBalances(db: Db, input: ConsumeInput, syscall: Id, now: Time)
    requires Balanced(db)
    ensures Balanced(ConsumeApproval(db, input, syscall, now).0)
  {
    if Earlier(db, Decide(input.approval), input.key).None? && ConsumeProblem(db, input, syscall, now).None? {
      var after := DecidedDb(db, input, syscall, now);
      var granted := if input.decision == Approve then Some(syscall) else None;
      var spent := if NeedsChallenge(db, input) then input.challenge else None;
      DecisionDecidesOne(db, input, syscall, now);
      DecidesOneBalancesSyscalls(db, after, input.approval, granted, spent);
      DecidesOneBalancesChallenges(db, after, input.approval, granted, spent);
    }
  }

  lemma CallKeepsBalance(db: Db, call: Call, now: Time)
    requires Balanced(db)
    ensures Balanced(Apply(db, call, now))
  {
    match call
    case OnApproval(c) => ApprovalCallBalances(db, c, now);
    case OnOperation(c) =>
      OperationCallKeepsGrants(db, c, now);
      assert SameCounts(db, Apply(db, call, now));
    case OnLease(c) =>
      LeaseCallOnlyLeases(db, c, now);
      assert SameCounts(db, Apply(db, call, now));
    case OnRegistry(c) =>
      RegistryCallOnlyRegistry(db, c);
      assert SameCounts(db, Apply(db, call, now));
  }

  lemma ApprovalCallBalances(db: Db, call: ApprovalCall, now: Time)
    requires Balanced(db)
    ensures Balanced(ApplyApproval(db, call, now))
  {
    match call
    case CallCreateApprovalItem(id, op, mode, proposal, diff, audit) =>
      NewApprovalBalances(db, id, op, mode, proposal, diff, audit);
    case CallStartOobChallenge(approval, challenge, key) => StartedChallengeBalances(db, approval, challenge, key, now);
    case CallVerifyOobChallenge(approval, challenge, key) =>
      var after := VerifyOobChallenge(db, approval, challenge, key, now).0;
      if after != db {
        VerifiedChallengeBalances(db, challenge, after.replies);
      }
    case CallConsumeApproval(input, syscall) => DecisionBalances(db, input, syscall, now);
    case CallUpdateSyscallStatus(id, status, resultRef) =>
      var after := UpdateSyscallStatus(db, id, status, resultRef).0;
      if after != db {
        SyscallUpdateBalances(db, id, db.syscalls[id].(status := status, resultRef := resultRef));
      }
  }

  /** In every reachable state a consumed approval has exactly one syscall (and, out of band, exactly one consumed
      challenge), and any other approval has none. */
  lemma {:induction false} AlwaysBalanced(registry: Registry, events: seq<Event>)
    ensures Balanced(Run(Fresh(registry), events))
  {
    if events != [] {
      var last := events[|events| - 1];
      AlwaysBalanced(registry, events[..|events| - 1]);
      CallKeepsBalance(Run(Fresh(registry), events[..|events| - 1]), last.call, last.at);
    }
  }

  // ----- One decision per entry to `awaiting_approval` -----

  ghost function Decided(db: Db, op: Id): set<Id> {
    set a | a in db.approvals && db.approvals[a].operation == op && db.approvals[a].status != Pending
  }

  function Entries(log: seq<Transition>, op: Id): nat {
    if log == [] then 0
    else
      var row := log[|log| - 1];
      Entries(log[..|log| - 1], op) + if row.operation == op && row.to == AwaitingApproval then 1 else 0
  }

  ghost predicate WithinBudget(db: Db, op: Id) {
    |Decided(db, op)| + (if op in db.operations && db.operations[op].state == AwaitingApproval then 1 else 0)
      <= Entries(db.transitions, op)
  }

  ghost predicate DecisionsWithinBudget(db: Db) { forall op :: WithinBudget(db, op) }

  lemma ChangeKeepsBudget(db: Db, after: Db, op: Id)
    requires WithinBudget(db, op)
    requires after.approvals == db.approvals || forall o :: Decided(after, o) == Decided(db, o)
    requires ChangeIsLogged(db, after)
    ensures WithinBudget(after, op)
  {
    assert Decided(after, op) == Decided(db, op);
    if after.operations != db.operations || after.transitions != db.transitions {
      assert after.transitions[..|after.transitions| - 1] == db.transitions;
    }
  }

  lemma NewApprovalIsUndecided(db: Db, id: Id, op: Id, mode: ApprovalMode, proposal: Json.Value, diff: Json.Value, audit: Id)
    ensures var after := CreateApprovalItem(db, id, op, mode, proposal, diff, audit).0;
            forall o :: Decided(after, o) == Decided(db, o)
  {
  }

  /** The decided operation leaves `awaiting_approval`, and one more of its approvals is decided. */
  lemma DecisionSpends(db: Db, input: ConsumeInput, syscall: Id, now: Time, op: Id)
    requires ConsumeProblem(db, input, syscall, now).None?
    ensures var after := DecidedDb(db, input, syscall, now);
            var here := db.approvals[input.approval].operation == op;
            && Decided(after, op) == (if here then Decided(db, op) + {input.approval} else Decided(db, op))
            && Entries(after.transitions, op) == Entries(db.transitions, op)
            && (here ==> op in db.operations && db.operations[op].state == AwaitingApproval
                         && after.operations[op].state != AwaitingApproval)
            && (!here ==> (op in db.operations <==> op in after.operations)
                          && (op in db.operations ==> after.operations[op] == db.operations[op]))
  {
    var after := DecidedDb(db, input, syscall, now);
    assert after.transitions[..|after.transitions| - 1] == db.transitions;
  }

  lemma DecisionKeepsBudget(db: Db, input: ConsumeInput, syscall: Id, now: Time, op: Id)
    requires WithinBudget(db, op) && ConsumeProblem(db, input, syscall, now).None?
    ensures WithinBudget(DecidedDb(db, input, syscall, now), op)
  {
    DecisionSpends(db, input, syscall, now, op);
  }

  lemma CallKeepsBudgetFor(db: Db, call: Call, now: Time, op: Id)
    requires WithinBudget(db, op)
    ensures WithinBudget(Apply(db, call, now), op)
  {
    match call
    case OnApproval(CallConsumeApproval(input, syscall)) =>
      if Earlier(db, Decide(input.approval), input.key).None? && ConsumeProblem(db, input, syscall, now).None? {
        DecisionKeepsBudget(db, input, syscall, now, op);
      }
    case OnApproval(CallCreateApprovalItem(id, on, mode, proposal, diff, audit)) =>
      NewApprovalIsUndecided(db, id, on, mode, proposal, diff, audit);
      ChangeKeepsBudget(db, CreateApprovalItem(db, id, on, mode, proposal, diff, audit).0, op);
    case _ =>
      CallLogsItsChange(db, call, now);
      OtherCallsKeepDecisions(db, call, now);
      ChangeKeepsBudget(db, Apply(db, call, now), op);
  }

  lemma OtherCallsKeepDecisions(db: Db, call: Call, now: Time)
    requires call.OnApproval? ==> !call.approval.CallConsumeApproval? && !call.approval.CallCreateApprovalItem?
    ensures Apply(db, call, now).approvals == db.approvals
  {
    match call
    case OnOperation(c) => OperationCallKeepsGrants(db, c, now);
    case OnApproval(c) =>
    case OnLease(c) => LeaseCallOnlyLeases(db, c, now);
    case OnRegistry(c) => RegistryCallOnlyRegistry(db, c);
  }

  lemma CallKeepsBudget(db: Db, call: Call, now: Time)
    requires DecisionsWithinBudget(db)
    ensures DecisionsWithinBudget(Apply(db, call, now))
  {
    var after := Apply(db, call, now);
    forall op ensures WithinBudget(after, op) {
      assert WithinBudget(db, op);
      CallKeepsBudgetFor(db, call, now, op);
    }
  }

  /** Per operation, decided approvals plus one if it is awaiting approval never exceed the logged entries
      to that state. */
  lemma {:induction false} DecisionsNeverExceedEntries(registry: Registry, events: seq<Event>)
    ensures DecisionsWithinBudget(Run(Fresh(registry), events))
  {
    var db := Run(Fresh(registry), events);
    if events == [] {
      forall op ensures WithinBudget(db, op) {
        assert Decided(db, op) == {};
      }
    } else {
      var last := events[|events| - 1];
      DecisionsNeverExceedEntries(registry, events[..|events| - 1]);
      CallKeepsBudget(Run(Fresh(registry), events[..|events| - 1]), last.call, last.at);
    }
  }
}
