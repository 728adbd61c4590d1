/** Operation leases over whole runs: who may believe to hold one, and what a superseded runner can still do. */
module OperationLeases {
  import opened Prelude
  import opened ActionSchemas
  import opened Database

  /** What runners were told: `granted` maps an operation and a runner to the expiry of its latest grant that it has
      not released; `last` names the latest runner to acquire each operation. */
  datatype Told = Told(granted: map<(Id, Runner), Time>, last: map<Id, Runner>)

  function Hear(told: Told, db: Db, call: Call, now: Time): Told {
    if call.OnLease? then HearLease(told, db, call.lease, now) else told
  }

  function HearLease(told: Told, db: Db, call: LeaseCall, now: Time): Told {
    match call
    case CallTryAcquireLease(op, runner, duration) => HearAcquire(told, db, op, runner, duration, now)
    case CallRenewLease(op, runner, epoch, duration) => HearRenew(told, db, op, runner, epoch, duration, now)
    case CallReleaseLease(op, runner, epoch) => HearRelease(told, db, op, runner, epoch)
  }

  function HearAcquire(told: Told, db: Db, op: Id, runner: Runner, duration: Time, now: Time): Told {
    match TryAcquireLease(db, op, runner, duration, now).1
    case Ok(Acquisition(true, _)) => Told(told.granted[(op, runner) := now + duration], told.last[op := runner])
    case _ => told
  }

  function HearRenew(told: Told, db: Db, op: Id, runner: Runner, epoch: int, duration: Time, now: Time): Told {
    if RenewLease(db, op, runner, epoch, duration, now).1.Ok? then
      told.(granted := told.granted[(op, runner) := now + duration])
    else told
  }

  function HearRelease(told: Told, db: Db, op: Id, runner: Runner, epoch: int): Told {
    if ReleaseLease(db, op, runner, epoch).1.Ok? then told.(granted := told.granted - {(op, runner)}) else told
  }

  function ToldAfter(db: Db, events: seq<Event>): Told {
    if events == [] then Told(map[], map[])
    else
      var before := events[..|events| - 1];
      var e := events[|events| - 1];
      Hear(ToldAfter(db, before), Run(db, before), e.call, e.at)
  }

  ghost predicate ClockMoves(events: seq<Event>) {
    forall i, j | 0 <= i < j < |events| :: events[i].at <= events[j].at
  }

  /** Every unexpired grant is the row. */
  ghost predicate GrantsAreRows(db: Db, told: Told, now: Time) {
    forall op, runner | (op, runner) in told.granted && told.granted[(op, runner)] > now ::
      op in db.leases && db.leases[op].owner == runner && db.leases[op].until == told.granted[(op, runner)]
  }

  /** Every row belongs to the latest runner to acquire the operation. */
  ghost predicate RowsAreLatest(db: Db, told: Told) {
    forall op | op in db.leases :: op in told.last && db.leases[op].owner == told.last[op]
  }

  /** Both facts, for the state a step leads to. */
  ghost predicate Agree(db: Db, told: Told, now: Time) { GrantsAreRows(db, told, now) && RowsAreLatest(db, told) }

  lemma WriteKeepsLeases(db: Db, told: Told, was: Time, now: Time, op: Id, row: Lease)
    requires was <= now && Agree(db, told, was)
    requires op in db.leases ==> db.leases[op].owner == row.owner || db.leases[op].until <= now
    ensures Agree(db.(leases := db.leases[op := row]),
                  Told(told.granted[(op, row.owner) := row.until], told.last[op := row.owner]), now)
  {
  }

  lemma DeleteKeepsLeases(db: Db, told: Told, was: Time, now: Time, op: Id)
    requires was <= now && Agree(db, told, was) && op in db.leases
    ensures Agree(db.(leases := db.leases - {op}), told.(granted := told.granted - {(op, db.leases[op].owner)}), now)
  {
  }

  lemma AcquireKeepsLeases(db: Db, told: Told, op: Id, runner: Runner, duration: Time, was: Time, now: Time)
    requires was <= now && Agree(db, told, was)
    ensures Agree(TryAcquireLease(db, op, runner, duration, now).0, HearAcquire(told, db, op, runner, duration, now), now)
  {
    var (after, r) := TryAcquireLease(db, op, runner, duration, now);
    if r.Ok? && r.value.acquired {
      AcquireWrites(db, op, runner, duration, now);
      WriteKeepsLeases(db, told, was, now, op, Lease(runner, now + duration, r.value.epoch.value));
    } else {
      RefusedChangesNothing(db, op, runner, duration, now);
      LaterAgrees(db, told, was, now);
    }
  }

  lemma RefusedChangesNothing(db: Db, op: Id, runner: Runner, duration: Time, now: Time)
    requires var r := TryAcquireLease(db, op, runner, duration, now).1; !(r.Ok? && r.value.acquired)
    ensures TryAcquireLease(db, op, runner, duration, now).0 == db
  {
  }

  lemma LaterAgrees(db: Db, told: Told, was: Time, now: Time)
    requires was <= now && Agree(db, told, was)
    ensures Agree(db, told, now)
  {
  }

  lemma AcquireWrites(db: Db, op: Id, runner: Runner, duration: Time, now: Time)
    requires var r := TryAcquireLease(db, op, runner, duration, now).1; r.Ok? && r.value.acquired
    ensures var (after, r) := TryAcquireLease(db, op, runner, duration, now);
            && r.value.epoch.Some?
            && after == db.(leases := db.leases[op := Lease(runner, now + duration, r.value.epoch.value)])
    ensures op in db.leases ==> db.leases[op].owner == runner || db.leases[op].until <= now
    ensures op in db.leases ==>
              TryAcquireLease(db, op, runner, duration, now).1.value.epoch.value ==
              if db.leases[op].owner == runner then db.leases[op].epoch else db.leases[op].epoch + 1
  {
  }

  lemma RenewKeepsLeases(db: Db, told: Told, op: Id, runner: Runner, epoch: int, duration: Time, was: Time, now: Time)
    requires was <= now && Agree(db, told, was)
    ensures Agree(RenewLease(db, op, runner, epoch, duration, now).0,
                  HearRenew(told, db, op, runner, epoch, duration, now), now)
  {
    if HoldsLease(db, op, runner, epoch) {
      WriteKeepsLeases(db, told, was, now, op, Lease(runner, now + duration, epoch));
      assert told.last[op := runner] == told.last;
    }
  }

  lemma ReleaseKeepsLeases(db: Db, told: Told, op: Id, runner: Runner, epoch: int, was: Time, now: Time)
    requires was <= now && Agree(db, told, was)
    ensures Agree(ReleaseLease(db, op, runner, epoch).0, HearRelease(told, db, op, runner, epoch), now)
  {
    if HoldsLease(db, op, runner, epoch) {
      DeleteKeepsLeases(db, told, was, now, op);
    }
  }

  lemma StepKeepsLeases(db: Db, told: Told, call: Call, was: Time, now: Time)
    requires was <= now && Agree(db, told, was)
    ensures Agree(Apply(db, call, now), Hear(told, db, call, now), now)
  {
    match call
    case OnLease(CallTryAcquireLease(op, runner, duration)) =>
      AcquireKeepsLeases(db, told, op, runner, duration, was, now);
    case OnLease(CallRenewLease(op, runner, epoch, duration)) =>
      RenewKeepsLeases(db, told, op, runner, epoch, duration, was, now);
    case OnLease(CallReleaseLease(op, runner, epoch)) => ReleaseKeepsLeases(db, told, op, runner, epoch, was, now);
    case _ => LeasesKeptElsewhere(db, call, now);
  }

  lemma {:induction false} RunKeepsLeases(db: Db, events: seq<Event>, now: Time)
    requires db.leases == map[] && ClockMoves(events)
    requires events != [] ==> events[|events| - 1].at <= now
    ensures Agree(Run(db, events), ToldAfter(db, events), now)
  {
    if events != [] {
      var before := events[..|events| - 1];
      var e := events[|events| - 1];
      RunKeepsLeases(db, before, e.at);
      StepKeepsLeases(Run(db, before), ToldAfter(db, before), e.call, e.at, e.at);
    }
  }

  /** Two distinct runners never both hold an unexpired grant they have not released. */
  lemma LeasesExclude(registry: Registry, events: seq<Event>, now: Time, op: Id, a: Runner, b: Runner)
    requires ClockMoves(events) && (events != [] ==> events[|events| - 1].at <= now)
    requires var granted := ToldAfter(Fresh(registry), events).granted;
             && (op, a) in granted && granted[(op, a)] > now
             && (op, b) in granted && granted[(op, b)] > now
    ensures a == b
  {
    RunKeepsLeases(Fresh(registry), events, now);
  }

  /** Once another runner has acquired the operation, renewing and releasing are refused and change nothing,
      whatever epoch the superseded runner presents. */
  lemma SupersededIsRefused(registry: Registry, events: seq<Event>, op: Id, runner: Runner, epoch: int,
                            duration: Time, now: Time)
    requires ClockMoves(events)
    requires var last := ToldAfter(Fresh(registry), events).last; op in last && last[op] != runner
    ensures var db := Run(Fresh(registry), events);
            && RenewLease(db, op, runner, epoch, duration, now) == (db, Err(Conflict("lease renewal rejected")))
            && ReleaseLease(db, op, runner, epoch) == (db, Err(Conflict("lease release rejected")))
  {
    RunKeepsLeases(Fresh(registry), events, if events == [] then now else events[|events| - 1].at);
  }

  /** While the row exists its epoch never falls, and each change of owner raises it by one. */
  ghost predicate EpochFollowsOwner(db: Db, after: Db, op: Id) {
    op in db.leases && op in after.leases ==>
      after.leases[op].epoch == db.leases[op].epoch + if after.leases[op].owner == db.leases[op].owner then 0 else 1
  }

  lemma EpochRisesWithOwner(db: Db, call: Call, now: Time, op: Id)
    ensures EpochFollowsOwner(db, Apply(db, call, now), op)
  {
    match call
    case OnLease(CallTryAcquireLease(on, runner, duration)) => AcquireRaisesEpoch(db, on, runner, duration, now, op);
    case OnLease(CallRenewLease(on, runner, epoch, duration)) => RenewKeepsEpoch(db, on, runner, epoch, duration, now, op);
    case OnLease(CallReleaseLease(on, runner, epoch)) => ReleaseKeepsEpoch(db, on, runner, epoch, op);
    case _ => LeasesKeptElsewhere(db, call, now);
  }

  lemma AcquireRaisesEpoch(db: Db, on: Id, runner: Runner, duration: Time, now: Time, op: Id)
    ensures EpochFollowsOwner(db, TryAcquireLease(db, on, runner, duration, now).0, op)
  {
    var r := TryAcquireLease(db, on, runner, duration, now).1;
    if r.Ok? && r.value.acquired {
      AcquireWrites(db, on, runner, duration, now);
    } else {
      RefusedChangesNothing(db, on, runner, duration, now);
    }
  }

  lemma RenewKeepsEpoch(db: Db, on: Id, runner: Runner, epoch: int, duration: Time, now: Time, op: Id)
    ensures EpochFollowsOwner(db, RenewLease(db, on, runner, epoch, duration, now).0, op)
  {
  }

  lemma ReleaseKeepsEpoch(db: Db, on: Id, runner: Runner, epoch: int, op: Id)
    ensures EpochFollowsOwner(db, ReleaseLease(db, on, runner, epoch).0, op)
  {
  }

  /** How often the row changed hands while `events` ran. */
  function Takeovers(db: Db, events: seq<Event>, op: Id): nat {
    if events == [] then 0
    else
      var before := events[..|events| - 1];
      var from, to := Run(db, before).leases, Run(db, events).leases;
      Takeovers(db, before, op) + if op in from && op in to && from[op].owner != to[op].owner then 1 else 0
  }

  /** The row is there before, between and after the events. */
  ghost predicate Stands(db: Db, events: seq<Event>, op: Id) {
    forall k | 0 <= k <= |events| :: op in Run(db, events[..k]).leases
  }

  predicate OwnedBy(db: Db, op: Id, owner: Runner) { op in db.leases && db.leases[op].owner == owner }

  /** All the time by the same runner. */
  ghost predicate HeldThroughout(db: Db, events: seq<Event>, op: Id, owner: Runner) {
    forall k | 0 <= k <= |events| :: OwnedBy(Run(db, events[..k]), op, owner)
  }

  lemma StandsBefore(db: Db, events: seq<Event>, op: Id)
    requires Stands(db, events, op)
    ensures op in db.leases && op in Run(db, events).leases
    ensures events != [] ==> Stands(db, events[..|events| - 1], op)
  {
    assert events[..|events|] == events && events[..0] == [];
    if events != [] {
      var before := events[..|events| - 1];
      assert forall k | 0 <= k <= |before| :: before[..k] == events[..k];
    }
  }

  lemma HeldBefore(db: Db, events: seq<Event>, op: Id, owner: Runner)
    requires events != []
    ensures HeldThroughout(db, events, op, owner) <==>
            HeldThroughout(db, events[..|events| - 1], op, owner) && OwnedBy(Run(db, events), op, owner)
  {
    var before := events[..|events| - 1];
    assert events[..|events|] == events;
    forall k | 0 <= k <= |before| ensures Run(db, before[..k]) == Run(db, events[..k]) {
      assert before[..k] == events[..k];
    }
    if HeldThroughout(db, events, op, owner) {
      assert OwnedBy(Run(db, events[..|events|]), op, owner);
      forall k | 0 <= k <= |before| ensures OwnedBy(Run(db, before[..k]), op, owner) {
        assert OwnedBy(Run(db, events[..k]), op, owner);
      }
    } else if HeldThroughout(db, before, op, owner) {
      HeldToTheEnd(db, events, op, owner);
    }
  }

  lemma HeldToTheEnd(db: Db, events: seq<Event>, op: Id, owner: Runner)
    requires events != [] && HeldThroughout(db, events[..|events| - 1], op, owner)
    ensures OwnedBy(Run(db, events), op, owner) ==> HeldThroughout(db, events, op, owner)
  {
    var before := events[..|events| - 1];
    if OwnedBy(Run(db, events), op, owner) {
      forall k | 0 <= k <= |events| ensures OwnedBy(Run(db, events[..k]), op, owner) {
        if k == |events| {
          assert events[..k] == events;
        } else {
          assert before[..k] == events[..k];
          assert OwnedBy(Run(db, before[..k]), op, owner);
        }
      }
    }
  }

  /** As long as the row is never deleted its epoch counts the takeovers exactly. */
  lemma {:induction false} EpochCountsTakeovers(db: Db, events: seq<Event>, op: Id)
    requires Stands(db, events, op)
    ensures op in db.leases && op in Run(db, events).leases
    ensures Run(db, events).leases[op].epoch == db.leases[op].epoch + Takeovers(db, events, op)
  {
    StandsBefore(db, events, op);
    if events != [] {
      var before := events[..|events| - 1];
      var e := events[|events| - 1];
      EpochCountsTakeovers(db, before, op);
      EpochRisesWithOwner(Run(db, before), e.call, e.at, op);
    }
  }

  lemma {:induction false} NoTakeoverIsOneOwner(db: Db, events: seq<Event>, op: Id, owner: Runner)
    requires Stands(db, events, op) && OwnedBy(db, op, owner)
    ensures Takeovers(db, events, op) == 0 <==> HeldThroughout(db, events, op, owner)
    ensures Takeovers(db, events, op) == 0 ==> OwnedBy(Run(db, events), op, owner)
  {
    StandsBefore(db, events, op);
    if events != [] {
      NoTakeoverIsOneOwner(db, events[..|events| - 1], op, owner);
      HeldBefore(db, events, op, owner);
    }
  }

  /** As long as the row is never deleted its epoch is a fence: it is the same at two moments exactly when one runner
      held the lease all the time between. */
  lemma EpochFencesUntilReleased(db: Db, events: seq<Event>, op: Id, owner: Runner)
    requires Stands(db, events, op) && OwnedBy(db, op, owner)
    ensures op in Run(db, events).leases
    ensures Run(db, events).leases[op].epoch == db.leases[op].epoch <==> HeldThroughout(db, events, op, owner)
  {
    EpochCountsTakeovers(db, events, op);
    NoTakeoverIsOneOwner(db, events, op, owner);
  }

  /** Releasing deletes the row, so the next epoch is 1 again. */
  lemma EpochRestartsAfterRelease(db: Db, op: Id, runner: Runner, other: Runner, epoch: int, duration: Time, now: Time)
    requires HoldsLease(db, op, runner, epoch) && op in db.operations
    ensures var released := ReleaseLease(db, op, runner, epoch).0;
            TryAcquireLease(released, op, other, duration, now).1 == Ok(Acquisition(true, Some(1)))
  {
  }

  /** `a` acquires and lets its lease lapse; `b` takes over and releases; `a` acquires once more. */
  function ReuseRun(origin: Id, op: Id, audit: Id, a: Runner, b: Runner, duration: Time): seq<Event> {
    [Event(OnOperation(CallCreateOperation(origin, op, audit, None)), 0)]
    + [Event(OnLease(CallTryAcquireLease(op, a, duration)), 0)]
    + [Event(OnLease(CallTryAcquireLease(op, b, duration)), duration)]
    + [Event(OnLease(CallReleaseLease(op, b, 2)), duration)]
    + [Event(OnLease(CallTryAcquireLease(op, a, duration)), duration)]
  }

  lemma RunOne(db: Db, events: seq<Event>, e: Event)
    ensures Run(db, events + [e]) == Apply(Run(db, events), e.call, e.at)
  {
    assert (events + [e])[..|events|] == events;
  }

  /** Across a release the epoch is no fence: the number of the first grant is refused after the takeover, and is good
      again once its runner has acquired anew: whoever still holds it can end the new grant. */
  lemma ReleasedEpochIsValidAgain(
      registry: Registry, origin: Id, op: Id, audit: Id, a: Runner, b: Runner, duration: Time)
    requires a != b
    ensures var run := ReuseRun(origin, op, audit, a, b, duration);
            var (first, taken, again) := (Run(Fresh(registry), run[..2]), Run(Fresh(registry), run[..3]),
                                          Run(Fresh(registry), run));
            && HoldsLease(first, op, a, 1)
            && !HoldsLease(taken, op, a, 1) && HoldsLease(taken, op, b, 2)
            && HoldsLease(again, op, a, 1) && ReleaseLease(again, op, a, 1).1.Ok?
            && op !in ReleaseLease(again, op, a, 1).0.leases
  {
    var run := ReuseRun(origin, op, audit, a, b, duration);
    var start := Fresh(registry);
    assert run[..0] == [] && run[..1] == [] + [run[0]] && run[..2] == run[..1] + [run[1]];
    assert run[..3] == run[..2] + [run[2]] && run[..4] == run[..3] + [run[3]] && run == run[..4] + [run[4]];
    RunOne(start, [], run[0]);
    RunOne(start, run[..1], run[1]);
    RunOne(start, run[..2], run[2]);
    RunOne(start, run[..3], run[3]);
    RunOne(start, run[..4], run[4]);
  }
}
