/** When a decision on an approval goes through, what it writes, and how an out-of-band challenge comes to be consumed. */
module ApprovalDecisions {
  import opened Prelude
  import opened ActionSchemas
  import opened Database

  const CHALLENGE_LIFETIME: Time := 300_000

  // ----- One decision -----

  /** The request carries no key, or a key that was not answered for this approval. */
  predicate NotAnswered(db: Db, scope: Scope, key: Option<Id>) { key.None? || (scope, key.value) !in db.replies }

  /** The challenge that an out-of-band approval names is its own, verified, unspent and not expired. */
  predicate ChallengeStands(db: Db, approval: Id, challenge: Option<Id>, now: Time) {
    && challenge.Some? && challenge.value in db.challenges
    && var row := db.challenges[challenge.value];
       row.approval == approval && row.status == Verified && row.consumedAt.None? && now <= row.expiresAt
  }

  /** No row has the id, and none has the tool and action for this approval. */
  predicate RoomFor(db: Db, syscall: Id, approval: Id, call: Prepared) {
    && syscall !in db.syscalls
    && forall s | s in db.syscalls && db.syscalls[s].approval == approval ::
         db.syscalls[s].call.toolName != call.toolName || db.syscalls[s].call.actionName != call.actionName
  }

  /** What granting needs besides: a challenge if the approval is out of band, a syscall, and room for it. */
  predicate Grantable(db: Db, input: ConsumeInput, syscall: Id, now: Time)
    requires input.approval in db.approvals && db.approvals[input.approval].operation in db.operations
  {
    var row := db.approvals[input.approval];
    var prepared :=
      PrepareSyscall(db.registry, db.operations[row.operation].pinned, row.diff, input.normalized, input.invalid);
    && (row.mode == OobRequired ==> ChallengeStands(db, input.approval, input.challenge, now))
    && prepared.Ok? && RoomFor(db, syscall, input.approval, prepared.value)
  }

  predicate Decidable(db: Db, input: ConsumeInput, syscall: Id, now: Time) {
    && input.approval in db.approvals
    && var row := db.approvals[input.approval];
       && row.status == Pending && (input.decision == Approve || input.decision == Deny)
       && (input.challenge.Some? ==> row.mode == OobRequired)
       && row.operation in db.operations && db.operations[row.operation].state == AwaitingApproval
       && (input.decision == Approve ==> Grantable(db, input, syscall, now))
       && row.audit in db.audits
  }

  /** A decision that was not answered before goes through exactly then, and otherwise changes nothing. */
  lemma DecidedExactly(db: Db, input: ConsumeInput, syscall: Id, now: Time)
    requires NotAnswered(db, Decide(input.approval), input.key)
    ensures var (after, r) := ConsumeApproval(db, input, syscall, now);
            (r.Ok? <==> Decidable(db, input, syscall, now)) && (r.Err? ==> after == db)
  {
  }

  /** The approval, its operation and the log. */
  predicate WritesOperation(db: Db, after: Db, input: ConsumeInput, now: Time)
    requires input.approval in db.approvals && db.approvals[input.approval].operation in db.operations
  {
    var row := db.approvals[input.approval];
    var (op, approve) := (row.operation, input.decision == Approve);
    var state := if approve then Running else Blocked;
    && after.approvals == db.approvals[input.approval := row.(status := if approve then Consumed else Denied)]
    && after.operations == db.operations[op :=
         Operation(state, Some(if approve then PendingExecution else ApprovalDenied), db.operations[op].pinned,
                   db.operations[op].audit, now)]
    && after.transitions == db.transitions + [
         Transition(op, Some(AwaitingApproval), state, Some(if approve then ApprovalConsumed else ApprovalDenied),
                    row.audit, now)]
  }

  /** The syscall and the spent challenge of a grant; a denial writes neither. */
  predicate WritesGrant(db: Db, after: Db, input: ConsumeInput, syscall: Id, now: Time)
    requires Decidable(db, input, syscall, now)
  {
    var row := db.approvals[input.approval];
    if input.decision == Approve then
      && syscall in after.syscalls && after.syscalls == db.syscalls[syscall := after.syscalls[syscall]]
      && after.syscalls[syscall].operation == row.operation && after.syscalls[syscall].approval == input.approval
      && after.syscalls[syscall].status == Permitted && after.syscalls[syscall].resultRef == None
      && after.syscalls[syscall].createdAt == now && after.syscalls[syscall].audit == row.audit
      && PrepareSyscall(db.registry, db.operations[row.operation].pinned, row.diff, input.normalized, input.invalid) ==
         Ok(after.syscalls[syscall].call)
      && (if row.mode == OobRequired then
            var spent := db.challenges[input.challenge.value];
            after.challenges == db.challenges[input.challenge.value :=
              Challenge(input.approval, spent.expiresAt, ChallengeConsumed, Some(now))]
          else after.challenges == db.challenges)
    else after.syscalls == db.syscalls && after.challenges == db.challenges
  }

  /** The timeline entry, the answer, and the answer stored under the key. */
  predicate WritesAnswer(db: Db, after: Db, input: ConsumeInput, syscall: Id, now: Time, answer: Reply)
    requires Decidable(db, input, syscall, now)
  {
    var row := db.approvals[input.approval];
    var (state, syscalls) := if input.decision == Approve then (Running, [syscall]) else (Blocked, []);
    && answer == Decision(input.approval, row.operation, input.decision,
                          if input.decision == Approve then Consumed else Denied, state, syscalls, row.audit)
    && after.audits == db.audits[row.audit :=
         Audit(db.audits[row.audit].operation,
               db.audits[row.audit].timeline +
               [ApprovalDecision(now, input.approval, input.decision, state, syscalls)])]
    && after.replies ==
       (if input.key.Some? then db.replies[(Decide(input.approval), input.key.value) := answer] else db.replies)
    && after.requests == db.requests && after.leases == db.leases && after.registry == db.registry
  }

  lemma OperationIsWritten(db: Db, input: ConsumeInput, syscall: Id, now: Time)
    requires NotAnswered(db, Decide(input.approval), input.key) && Decidable(db, input, syscall, now)
    ensures WritesOperation(db, ConsumeApproval(db, input, syscall, now).0, input, now)
  {
  }

  lemma GrantIsWritten(db: Db, input: ConsumeInput, syscall: Id, now: Time)
    requires NotAnswered(db, Decide(input.approval), input.key) && Decidable(db, input, syscall, now)
    ensures WritesGrant(db, ConsumeApproval(db, input, syscall, now).0, input, syscall, now)
  {
  }

  lemma AnswerIsWritten(db: Db, input: ConsumeInput, syscall: Id, now: Time)
    requires NotAnswered(db, Decide(input.approval), input.key) && Decidable(db, input, syscall, now)
    ensures var (after, r) := ConsumeApproval(db, input, syscall, now);
            r.Ok? && WritesAnswer(db, after, input, syscall, now, r.value)
  {
  }

  // ----- The story of a challenge -----

  predicate Starts(e: Event, approval: Id, challenge: Id) {
    && e.call.OnApproval? && e.call.approval.CallStartOobChallenge?
    && e.call.approval.approval == approval && e.call.approval.challenge == challenge
  }

  predicate Verifies(e: Event, approval: Id, challenge: Id) {
    && e.call.OnApproval? && e.call.approval.CallVerifyOobChallenge?
    && e.call.approval.approval == approval && e.call.approval.challenge == challenge
  }

  predicate Grants(e: Event, approval: Id, challenge: Id) {
    && e.call.OnApproval? && e.call.approval.CallConsumeApproval?
    && e.call.approval.input.approval == approval && e.call.approval.input.challenge == Some(challenge)
    && e.call.approval.input.decision == Approve
  }

  /** What one call can make of a challenge: start it, verify it in time, or spend it on its approval in time. */
  predicate ChallengeMoves(db: Db, after: Db, e: Event, c: Id) {
    if c !in db.challenges then
      c in after.challenges ==>
        && Starts(e, after.challenges[c].approval, c)
        && after.challenges[c] ==
           Challenge(after.challenges[c].approval, e.at + CHALLENGE_LIFETIME, ChallengePending, None)
    else
      && c in after.challenges
      && var (was, row) := (db.challenges[c], after.challenges[c]);
         || row == was
         || (Verifies(e, was.approval, c) && was.status == ChallengePending && e.at <= was.expiresAt
             && row == was.(status := Verified))
         || (Grants(e, was.approval, c) && was.status == Verified && e.at <= was.expiresAt
             && row == was.(status := ChallengeConsumed, consumedAt := Some(e.at)))
  }

  lemma StartMoves(db: Db, approval: Id, challenge: Id, key: Option<Id>, at: Time, c: Id)
    ensures ChallengeMoves(db, StartOobChallenge(db, approval, challenge, key, at).0,
                           Event(OnApproval(CallStartOobChallenge(approval, challenge, key)), at), c)
  {
  }

  lemma VerifyMoves(db: Db, approval: Id, challenge: Id, key: Option<Id>, at: Time, c: Id)
    ensures ChallengeMoves(db, VerifyOobChallenge(db, approval, challenge, key, at).0,
                           Event(OnApproval(CallVerifyOobChallenge(approval, challenge, key)), at), c)
  {
  }

  lemma DecisionMoves(db: Db, input: ConsumeInput, syscall: Id, at: Time, c: Id)
    ensures ChallengeMoves(db, ConsumeApproval(db, input, syscall, at).0,
                           Event(OnApproval(CallConsumeApproval(input, syscall)), at), c)
  {
    if NotAnswered(db, Decide(input.approval), input.key) {
      DecidedExactly(db, input, syscall, at);
      if Decidable(db, input, syscall, at) {
        GrantIsWritten(db, input, syscall, at);
      }
    }
  }

  lemma OtherCallsKeepChallenges(db: Db, call: Call, at: Time)
    requires call.OnApproval? ==> call.approval.CallCreateApprovalItem? || call.approval.CallUpdateSyscallStatus?
    ensures Apply(db, call, at).challenges == db.challenges
  {
    match call
    case OnOperation(c) => OperationCallKeepsGrants(db, c, at);
    case OnApproval(c) =>
    case OnLease(c) => LeaseCallOnlyLeases(db, c, at);
    case OnRegistry(c) => RegistryCallOnlyRegistry(db, c);
  }

  lemma CallMoves(db: Db, e: Event, c: Id)
    ensures ChallengeMoves(db, Apply(db, e.call, e.at), e, c)
  {
    match e.call
    case OnApproval(CallStartOobChallenge(approval, challenge, key)) => StartMoves(db, approval, challenge, key, e.at, c);
    case OnApproval(CallVerifyOobChallenge(approval, challenge, key)) => VerifyMoves(db, approval, challenge, key, e.at, c);
    case OnApproval(CallConsumeApproval(input, syscall)) => DecisionMoves(db, input, syscall, e.at, c);
    case _ => OtherCallsKeepChallenges(db, e.call, e.at);
  }

  /** `i` started the challenge, `j` verified it and `k` spent it, as far as it has come. */
  predicate IsStory(events: seq<Event>, c: Id, row: Challenge, i: nat, j: nat, k: nat) {
    && i < |events| && Starts(events[i], row.approval, c) && row.expiresAt == events[i].at + CHALLENGE_LIFETIME
    && (row.status == ChallengePending || row.status == Verified ==> row.consumedAt == None)
    && (row.status != ChallengePending ==>
          i < j < |events| && Verifies(events[j], row.approval, c) && events[j].at <= row.expiresAt)
    && (row.status == ChallengeConsumed ==>
          j < k < |events| && Grants(events[k], row.approval, c) && row.consumedAt == Some(events[k].at)
          && events[k].at <= events[i].at + CHALLENGE_LIFETIME)
  }

  lemma StoryGoesOn(events: seq<Event>, last: Event, c: Id, was: Challenge, row: Challenge, i: nat, j: nat, k: nat)
    returns (j': nat, k': nat)
    requires IsStory(events, c, was, i, j, k)
    requires || row == was
             || (Verifies(last, was.approval, c) && was.status == ChallengePending && last.at <= was.expiresAt
                 && row == was.(status := Verified))
             || (Grants(last, was.approval, c) && was.status == Verified && last.at <= was.expiresAt
                 && row == was.(status := ChallengeConsumed, consumedAt := Some(last.at)))
    ensures IsStory(events + [last], c, row, i, j', k')
  {
    j' := if was.status == ChallengePending then |events| else j;
    k' := if was.status == ChallengeConsumed then k else |events|;
  }

  /** In every run each challenge was started for its approval; if it is verified that was done afterwards and in time;
      and if it is consumed that was by approving with it, after its verification and no later than five minutes after
      its start. */
  lemma {:induction false} ChallengeStory(registry: Registry, events: seq<Event>, c: Id) returns (i: nat, j: nat, k: nat)
    requires c in Run(Fresh(registry), events).challenges
    ensures IsStory(events, c, Run(Fresh(registry), events).challenges[c], i, j, k)
  {
    var n := |events| - 1;
    var (before, last) := (events[..n], events[n]);
    var db := Run(Fresh(registry), before);
    assert events == before + [last];
    CallMoves(db, last, c);
    if c in db.challenges {
      i, j, k := ChallengeStory(registry, before, c);
      j, k := StoryGoesOn(before, last, c, db.challenges[c], Run(Fresh(registry), events).challenges[c], i, j, k);
    } else {
      i, j, k := n, 0, 0;
    }
  }

  /** So a challenge consumed at `t` was started at some `t0` with `t <= t0 + 300000`. */
  lemma ConsumedInTime(registry: Registry, events: seq<Event>, c: Id, t: Time)
    requires c in Run(Fresh(registry), events).challenges
    requires Run(Fresh(registry), events).challenges[c].consumedAt == Some(t)
    ensures exists i | 0 <= i < |events| ::
              Starts(events[i], Run(Fresh(registry), events).challenges[c].approval, c) && t <= events[i].at + 300_000
  {
    var i, j, k := ChallengeStory(registry, events, c);
    assert Starts(events[i], Run(Fresh(registry), events).challenges[c].approval, c);
  }
}
