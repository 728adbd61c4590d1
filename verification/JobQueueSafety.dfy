/** What every run of the job queue keeps: its counters, its fencing epochs, one live job per dedupe key, and the
    bounds of its retry delays. */
module JobQueueSafety {
  import opened Prelude
  import opened Selections
  import opened JobQueue

  /** One call that committed, with what its query answered. */
  datatype Event =
    | Enqueue(input: EnqueueInput, existing: Option<Id>, at: Time)
    | Lease(worker: Worker, limit: nat, duration: Time, jobType: Option<string>, picked: seq<Id>, at: Time)
    | Ack(id: Id, worker: Worker, epoch: int, at: Time)
    | Fail(failure: FailInput, build: Build, at: Time)
    | Cancel(id: Id, at: Time)

  /** A worker was handed the job at this epoch; a worker acknowledged or failed the job at this epoch. */
  datatype Entry = Entry(job: Id, epoch: int, worker: Worker)

  datatype State = State(jobs: Jobs, grants: seq<Entry>, settlements: seq<Entry>)

  const START := State(map[], [], [])

  /** The answers the queries of this call may give. */
  ghost predicate Possible(jobs: Jobs, e: Event) {
    match e
    case Enqueue(input, existing, _) => IsExisting(jobs, input.dedupeKey, existing)
    case Lease(_, limit, _, jobType, picked, at) => IsSelection(jobs, jobType, limit, at, picked)
    case _ => true
  }

  function GrantEntries(jobs: Jobs, picked: seq<Id>, worker: Worker): seq<Entry>
    requires forall i | 0 <= i < |picked| :: picked[i] in jobs
  {
    seq(|picked|, i requires 0 <= i < |picked| => Entry(picked[i], jobs[picked[i]].epoch + 1, worker))
  }

  ghost function Next(s: State, e: Event): State {
    if !Possible(s.jobs, e) then s
    else match e
      case Enqueue(input, existing, at) => s.(jobs := Enqueued(s.jobs, input, existing, at).0)
      case Lease(worker, _, duration, _, picked, at) =>
        s.(jobs := LeaseAll(s.jobs, picked, worker, at + duration, at),
           grants := s.grants + GrantEntries(s.jobs, picked, worker))
      case Ack(id, worker, epoch, at) =>
        var (jobs, r) := Acked(s.jobs, id, worker, epoch, at);
        s.(jobs := jobs, settlements := s.settlements + if r.Ok? then [Entry(id, epoch, worker)] else [])
      case Fail(input, build, at) =>
        var (jobs, r) := Failed(s.jobs, input, build, at);
        s.(jobs := jobs,
           settlements := s.settlements + if r.Ok? then [Entry(input.id, input.epoch, input.worker)] else [])
      case Cancel(id, at) => s.(jobs := Dropped(s.jobs, id, at).0)
  }

  ghost function Run(events: seq<Event>): State {
    if events == [] then START else Next(Run(events[..|events| - 1]), events[|events| - 1])
  }

  // ----- Counters -----

  predicate Counted(job: Job) {
    && 0 <= job.attempts
    && (Live(job) || job.status == Completed ==> job.attempts == 0 || job.attempts < job.maxAttempts)
    && (job.status == Leased <==> job.owner.Some?)
    && match job.status
       case Pending => job.epoch == job.attempts
       case Leased => job.epoch == job.attempts + 1
       case Completed => job.epoch == job.attempts + 1
       case DeadLettered => job.epoch == job.attempts && job.attempts >= job.maxAttempts && LeasesBounded(job)
       case Cancelled => job.attempts <= job.epoch <= job.attempts + 1 && LeasesBounded(job)
  }

  predicate LeasesBounded(job: Job) { job.epoch <= (if job.maxAttempts < 1 then 1 else job.maxAttempts) }

  predicate AllCounted(jobs: Jobs) { forall id | id in jobs :: Counted(jobs[id]) }

  lemma CountedIsBounded(job: Job)
    requires Counted(job)
    ensures 0 <= job.epoch && LeasesBounded(job)
  {
  }

  lemma OneRowCounted(jobs: Jobs, after: Jobs, id: Id)
    requires AllCounted(jobs) && id in after && after == jobs[id := after[id]] && Counted(after[id])
    ensures AllCounted(after)
  {
  }

  lemma FailedCounted(jobs: Jobs, input: FailInput, build: Build, at: Time)
    requires AllCounted(jobs)
    ensures AllCounted(Failed(jobs, input, build, at).0)
  {
    var after := Failed(jobs, input, build, at).0;
    if after != jobs {
      OneRowCounted(jobs, after, input.id);
    }
  }

  lemma NextCounted(s: State, e: Event)
    requires AllCounted(s.jobs)
    ensures AllCounted(Next(s, e).jobs)
  {
    if Possible(s.jobs, e) {
      match e
      case Enqueue(input, existing, at) =>
      case Lease(worker, _, duration, _, picked, at) =>
      case Ack(id, worker, epoch, at) =>
      case Fail(input, build, at) => FailedCounted(s.jobs, input, build, at);
      case Cancel(id, at) =>
    }
  }

  /** Pending: epoch = attempts. Leased or completed: epoch = attempts + 1. No job is leased more than
      max(1, max_attempts) times. */
  lemma {:induction false} CountersAgree(events: seq<Event>)
    ensures AllCounted(Run(events).jobs)
    ensures forall id | id in Run(events).jobs :: LeasesBounded(Run(events).jobs[id])
  {
    if events != [] {
      CountersAgree(events[..|events| - 1]);
      NextCounted(Run(events[..|events| - 1]), events[|events| - 1]);
    }
    forall id | id in Run(events).jobs ensures LeasesBounded(Run(events).jobs[id]) {
      CountedIsBounded(Run(events).jobs[id]);
    }
  }

  // ----- Jobs that have ended -----

  lemma EndedStays(s: State, e: Event, id: Id)
    requires id in s.jobs
    ensures id in Next(s, e).jobs
    ensures Terminal(s.jobs[id]) ==> Next(s, e).jobs[id] == s.jobs[id]
    ensures s.jobs[id].epoch <= Next(s, e).jobs[id].epoch && s.jobs[id].attempts <= Next(s, e).jobs[id].attempts
  {
  }

  /** Once a job has ended its row never changes; until then its counters never fall. */
  lemma {:induction false} EndedForGood(events: seq<Event>, k: nat, id: Id)
    requires k <= |events| && id in Run(events[..k]).jobs
    ensures id in Run(events).jobs
    ensures Terminal(Run(events[..k]).jobs[id]) ==> Run(events).jobs[id] == Run(events[..k]).jobs[id]
    ensures Run(events[..k]).jobs[id].epoch <= Run(events).jobs[id].epoch
    ensures Run(events[..k]).jobs[id].attempts <= Run(events).jobs[id].attempts
  {
    if k == |events| {
      assert events[..k] == events;
    } else {
      var before := events[..|events| - 1];
      assert before[..k] == events[..k];
      EndedForGood(before, k, id);
      EndedStays(Run(before), events[|events| - 1], id);
    }
  }

  // ----- Fencing -----

  predicate SameLease(a: Entry, b: Entry) { a.job == b.job && a.epoch == b.epoch }

  predicate NoneTwice(log: seq<Entry>) { forall i, j | 0 <= i < j < |log| :: !SameLease(log[i], log[j]) }

  function CountOf(log: seq<Entry>, id: Id): nat {
    if log == [] then 0 else CountOf(log[..|log| - 1], id) + if log[|log| - 1].job == id then 1 else 0
  }

  ghost predicate GrantsFenced(s: State) {
    && NoneTwice(s.grants)
    && (forall g | g in s.grants :: g.job in s.jobs && 1 <= g.epoch <= s.jobs[g.job].epoch)
    && forall id | id in s.jobs && s.jobs[id].status == Leased ::
         s.jobs[id].owner.Some? && Entry(id, s.jobs[id].epoch, s.jobs[id].owner.value) in s.grants
  }

  ghost predicate SettlementsFenced(s: State) {
    && NoneTwice(s.settlements)
    && forall t | t in s.settlements ::
         && t in s.grants && t.job in s.jobs
         && t.epoch <= s.jobs[t.job].epoch && (s.jobs[t.job].status == Leased ==> t.epoch < s.jobs[t.job].epoch)
  }

  ghost predicate GrantsCounted(s: State) {
    && (forall id | id in s.jobs :: CountOf(s.grants, id) == s.jobs[id].epoch)
    && forall id | id !in s.jobs :: CountOf(s.grants, id) == 0
  }

  ghost predicate Fenced(s: State) { GrantsFenced(s) && SettlementsFenced(s) && GrantsCounted(s) }

  /** A change of one row that grants nothing. */
  predicate ChangesOne(jobs: Jobs, after: Jobs, id: Id) {
    && id in after && after == jobs[id := after[id]]
    && (after[id].status == Leased ==> id in jobs && after[id] == jobs[id])
    && (id in jobs ==> after[id].epoch == jobs[id].epoch)
    && (id !in jobs ==> after[id].epoch == 0)
  }

  lemma ChangeKeepsFences(s: State, after: Jobs, id: Id)
    requires Fenced(s) && ChangesOne(s.jobs, after, id)
    ensures Fenced(s.(jobs := after))
  {
  }

  lemma SettlementKeepsFences(s: State, after: Jobs, id: Id, worker: Worker, epoch: int)
    requires Fenced(s) && HeldBy(s.jobs, id, worker, epoch) && ChangesOne(s.jobs, after, id) && after[id].status != Leased
    ensures Fenced(s.(jobs := after, settlements := s.settlements + [Entry(id, epoch, worker)]))
  {
    ChangeKeepsFences(s, after, id);
    var t := Entry(id, epoch, worker);
    assert t in s.grants;
    var longer := s.settlements + [t];
    forall i, j | 0 <= i < j < |longer| ensures !SameLease(longer[i], longer[j]) {
      assert longer[i] in s.settlements;
    }
  }

  lemma GrantEntriesCount(jobs: Jobs, picked: seq<Id>, worker: Worker, log: seq<Entry>, id: Id)
    requires Distinct(picked) && forall i | 0 <= i < |picked| :: picked[i] in jobs
    ensures CountOf(log + GrantEntries(jobs, picked, worker), id) == CountOf(log, id) + if id in picked then 1 else 0
    decreases |picked|
  {
    var entries := GrantEntries(jobs, picked, worker);
    if picked == [] {
      assert log + entries == log;
    } else {
      var n := |picked| - 1;
      GrantEntriesCount(jobs, picked[..n], worker, log, id);
      assert log + entries == log + GrantEntries(jobs, picked[..n], worker) + [entries[n]];
      assert (log + entries)[..|log + entries| - 1] == log + GrantEntries(jobs, picked[..n], worker);
      assert picked == picked[..n] + [picked[n]];
    }
  }

  lemma LeaseKeepsGrants(s: State, picked: seq<Id>, worker: Worker, until: Time, at: Time)
    requires GrantsFenced(s) && Distinct(picked) && (forall i | 0 <= i < |picked| :: picked[i] in s.jobs)
    requires AllCounted(s.jobs)
    ensures GrantsFenced(s.(jobs := LeaseAll(s.jobs, picked, worker, until, at),
                            grants := s.grants + GrantEntries(s.jobs, picked, worker)))
  {
    var entries := GrantEntries(s.jobs, picked, worker);
    var longer := s.grants + entries;
    var after := LeaseAll(s.jobs, picked, worker, until, at);
    forall i, j | 0 <= i < j < |longer| ensures !SameLease(longer[i], longer[j]) {
      if i < |s.grants| <= j {
        assert s.grants[i] in s.grants;
      }
    }
    forall id | id in after && after[id].status == Leased
      ensures after[id].owner.Some? && Entry(id, after[id].epoch, after[id].owner.value) in longer
    {
      if id in picked {
        var k :| 0 <= k < |picked| && picked[k] == id;
        assert longer[|s.grants| + k] == Entry(id, after[id].epoch, worker);
      }
    }
    forall g | g in longer ensures g.job in after && 1 <= g.epoch <= after[g.job].epoch {
      if g !in s.grants {
        var k :| 0 <= k < |entries| && entries[k] == g;
        CountedIsBounded(s.jobs[picked[k]]);
      }
    }
  }

  lemma LeaseKeepsFences(s: State, after: State, picked: seq<Id>, worker: Worker, until: Time, at: Time)
    requires Fenced(s) && AllCounted(s.jobs) && Distinct(picked)
    requires forall i | 0 <= i < |picked| :: picked[i] in s.jobs
    requires after == s.(jobs := LeaseAll(s.jobs, picked, worker, until, at),
                         grants := s.grants + GrantEntries(s.jobs, picked, worker))
    ensures Fenced(after)
  {
    LeaseKeepsGrants(s, picked, worker, until, at);
    forall id ensures CountOf(after.grants, id) == CountOf(s.grants, id) + if id in picked then 1 else 0 {
      GrantEntriesCount(s.jobs, picked, worker, s.grants, id);
    }
    forall t | t in s.settlements ensures t in after.grants {
    }
  }

  lemma EnqueueKeepsFences(s: State, input: EnqueueInput, existing: Option<Id>, at: Time)
    requires Fenced(s) && Possible(s.jobs, Enqueue(input, existing, at))
    ensures Fenced(s.(jobs := Enqueued(s.jobs, input, existing, at).0))
  {
    if existing.None? && input.id !in s.jobs {
      ChangeKeepsFences(s, Enqueued(s.jobs, input, existing, at).0, input.id);
    } else {
      assert s.(jobs := s.jobs) == s;
    }
  }

  lemma AckKeepsFences(s: State, id: Id, worker: Worker, epoch: int, at: Time)
    requires Fenced(s)
    ensures Fenced(Next(s, Ack(id, worker, epoch, at)))
  {
    var (after, r) := Acked(s.jobs, id, worker, epoch, at);
    if r.Ok? {
      SettlementKeepsFences(s, after, id, worker, epoch);
    } else {
      assert Next(s, Ack(id, worker, epoch, at)) == s;
    }
  }

  lemma CancelKeepsFences(s: State, id: Id, at: Time)
    requires Fenced(s)
    ensures Fenced(s.(jobs := Dropped(s.jobs, id, at).0))
  {
    if id in s.jobs && Live(s.jobs[id]) {
      ChangeKeepsFences(s, Dropped(s.jobs, id, at).0, id);
    } else {
      assert s.(jobs := s.jobs) == s;
    }
  }

  lemma BatchLeases(s: State, worker: Worker, limit: nat, duration: Time, jobType: Option<string>, picked: seq<Id>, at: Time)
    requires IsSelection(s.jobs, jobType, limit, at, picked)
    ensures Next(s, Lease(worker, limit, duration, jobType, picked, at)) ==
            s.(jobs := LeaseAll(s.jobs, picked, worker, at + duration, at),
               grants := s.grants + GrantEntries(s.jobs, picked, worker))
  {
  }

  lemma BatchKeepsFences(s: State, worker: Worker, limit: nat, duration: Time, jobType: Option<string>, picked: seq<Id>, at: Time)
    requires Fenced(s) && AllCounted(s.jobs) && IsSelection(s.jobs, jobType, limit, at, picked)
    ensures Fenced(Next(s, Lease(worker, limit, duration, jobType, picked, at)))
  {
    BatchLeases(s, worker, limit, duration, jobType, picked, at);
    SelectionIsSound(s.jobs, jobType, limit, at, picked);
    LeaseKeepsFences(s, Next(s, Lease(worker, limit, duration, jobType, picked, at)), picked, worker, at + duration, at);
  }

  lemma SelectionIsSound(jobs: Jobs, jobType: Option<string>, limit: nat, at: Time, picked: seq<Id>)
    requires IsSelection(jobs, jobType, limit, at, picked)
    ensures Distinct(picked) && forall i | 0 <= i < |picked| :: picked[i] in jobs
  {
  }

  lemma NextKeepsFences(s: State, e: Event)
    requires Fenced(s) && AllCounted(s.jobs)
    ensures Fenced(Next(s, e))
  {
    if Possible(s.jobs, e) {
      match e
      case Enqueue(input, existing, at) => EnqueueKeepsFences(s, input, existing, at);
      case Lease(worker, limit, duration, jobType, picked, at) =>
        BatchKeepsFences(s, worker, limit, duration, jobType, picked, at);
      case Ack(id, worker, epoch, at) => AckKeepsFences(s, id, worker, epoch, at);
      case Fail(input, build, at) => FailKeepsFences(s, input, build, at);
      case Cancel(id, at) => CancelKeepsFences(s, id, at);
    }
  }

  lemma FailKeepsFences(s: State, input: FailInput, build: Build, at: Time)
    requires Fenced(s)
    ensures Fenced(Next(s, Fail(input, build, at)))
  {
    var (after, r) := Failed(s.jobs, input, build, at);
    if r.Ok? {
      SettlementKeepsFences(s, after, input.id, input.worker, input.epoch);
    } else {
      assert Next(s, Fail(input, build, at)) == s;
    }
  }

  lemma {:induction false} AlwaysFenced(events: seq<Event>)
    ensures Fenced(Run(events))
  {
    if events != [] {
      AlwaysFenced(events[..|events| - 1]);
      CountersAgree(events[..|events| - 1]);
      NextKeepsFences(Run(events[..|events| - 1]), events[|events| - 1]);
    }
  }

  /** Each (job, epoch) was handed to one worker, settled at most once and only by that worker, and no job was handed
      out more than max(1, max_attempts) times. */
  lemma LeasesAreFenced(events: seq<Event>, i: nat, j: nat, id: Id)
    ensures var s := Run(events);
            && (i < |s.grants| && j < |s.grants| && SameLease(s.grants[i], s.grants[j]) ==> i == j)
            && (i < |s.settlements| && j < |s.settlements| && SameLease(s.settlements[i], s.settlements[j]) ==> i == j)
            && (i < |s.settlements| && j < |s.grants| && SameLease(s.settlements[i], s.grants[j]) ==>
                  s.settlements[i].worker == s.grants[j].worker)
            && (id in s.jobs ==>
                  CountOf(s.grants, id) <= if s.jobs[id].maxAttempts < 1 then 1 else s.jobs[id].maxAttempts)
  {
    var s := Run(events);
    AlwaysFenced(events);
    CountersAgree(events);
    if i < |s.settlements| && j < |s.grants| && SameLease(s.settlements[i], s.grants[j]) {
      assert s.settlements[i] in s.settlements;
      var k :| 0 <= k < |s.grants| && s.grants[k] == s.settlements[i];
      assert k == j;
    }
  }

  // ----- Dedupe -----

  ghost predicate OneLivePerKey(jobs: Jobs) {
    forall key, a, b :: LiveUnder(jobs, key, a) && LiveUnder(jobs, key, b) ==> a == b
  }

  /** No call but an enqueue that found nothing makes a job live. */
  lemma LiveBefore(s: State, e: Event, key: string, id: Id)
    requires Possible(s.jobs, e) && LiveUnder(Next(s, e).jobs, key, id)
    ensures LiveUnder(s.jobs, key, id)
            || (e.Enqueue? && e.existing.None? && id == e.input.id && e.input.dedupeKey == Some(key))
  {
  }

  lemma {:induction false} DedupeKeysAreUnique(events: seq<Event>)
    ensures OneLivePerKey(Run(events).jobs)
  {
    if events != [] {
      var s, e := Run(events[..|events| - 1]), events[|events| - 1];
      DedupeKeysAreUnique(events[..|events| - 1]);
      if Possible(s.jobs, e) {
        forall key, a, b | LiveUnder(Next(s, e).jobs, key, a) && LiveUnder(Next(s, e).jobs, key, b) ensures a == b {
          LiveBefore(s, e, key, a);
          LiveBefore(s, e, key, b);
        }
      }
    }
  }

  // ----- Batches -----

  /** A batch leases exactly min(limit, available) due jobs, each for one more epoch, and leaves no due job pending that
      is strictly older than one it leased. */
  lemma BatchIsExact(jobs: Jobs, jobType: Option<string>, limit: nat, at: Time, picked: seq<Id>, worker: Worker, until: Time)
    requires IsSelection(jobs, jobType, limit, at, picked)
    ensures var after := LeaseAll(jobs, picked, worker, until, at);
            && (forall id | id in jobs ::
                  if id in picked then
                    after[id].status == Leased && after[id].owner == Some(worker) && after[id].epoch == jobs[id].epoch + 1
                  else after[id] == jobs[id])
            && |Due(after, jobType, at)| == |Due(jobs, jobType, at)| - |picked|
            && (|picked| == limit || Due(after, jobType, at) == {})
            && forall left, i | left in Due(after, jobType, at) && 0 <= i < |picked| ::
                 after[picked[i]].createdAt <= after[left].createdAt
  {
    var after := LeaseAll(jobs, picked, worker, until, at);
    var due := Due(jobs, jobType, at);
    var taken := set id | id in picked;
    assert Due(after, jobType, at) == due - taken;
    DistinctCount(picked, taken);
    assert taken <= due;
    assert |due - taken| == |due| - |taken|;
  }

  // ----- Retry delays -----

  lemma {:induction false} Pow2Grows(a: nat, b: nat)
    requires a <= b
    ensures Pow2(a) <= Pow2(b)
  {
    if a < b {
      Pow2Grows(a, b - 1);
    }
  }

  function Backoff(attempt: nat): int
    requires attempt >= 1
  {
    Min(1_000 * Pow2(attempt - 1), 60_000)
  }

  lemma {:induction false} BackoffGrows(a: nat, b: nat)
    requires 1 <= a <= b
    ensures 1_000 <= Backoff(a) <= Backoff(b) <= 60_000
  {
    Pow2Grows(a - 1, b - 1);
    Pow2Grows(0, a - 1);
  }

  lemma {:induction false} SmallPow2(n: nat)
    requires n < 63
    ensures Pow2(n) <= 0x4000_0000_0000_0000
  {
    Pow2Grows(n, 62);
    Pow2At62();
  }

  lemma Pow2At62()
    ensures Pow2(62) == 0x4000_0000_0000_0000
  {
    assert Pow2(8) == 0x100;
    Pow2Adds(8, 8);
    Pow2Adds(16, 16);
    Pow2Adds(32, 16);
    Pow2Adds(48, 8);
    assert Pow2(6) == 0x40;
    Pow2Adds(56, 6);
  }

  lemma {:induction false} Pow2Adds(a: nat, b: nat)
    ensures Pow2(a + b) == Pow2(a) * Pow2(b)
  {
    if b > 0 {
      Pow2Adds(a, b - 1);
    }
  }

  /** The computed delay is the intended backoff up to the 63rd failure. At the 64th the shifted bit is the sign and the
      delay is far in the past. From the 65th on a checked build panics; any other starts over, so that it meets the
      intended delay again only where the cap hides the difference. */
  lemma DelayIsBackoffExactly(attempt: nat)
    requires attempt >= 1
    ensures RetryDelay(attempt, Checked) == Some(Backoff(attempt)) <==> attempt <= 63
    ensures RetryDelay(attempt, Wrapping) == Some(Backoff(attempt)) <==> attempt <= 63 || 7 <= attempt % 64 <= 63
    ensures forall build :: attempt == 64 ==> RetryDelay(attempt, build) == Some(I64_MIN)
    ensures attempt >= 65 ==> RetryDelay(attempt, Checked) == None
    ensures attempt >= 65 ==> RetryDelay(attempt, Wrapping) == RetryDelay(attempt - 64, Wrapping)
  {
    if attempt <= 63 {
      ShortDelay(attempt);
    } else if attempt % 64 == 0 {
      SignBitDelay(attempt);
    } else {
      LateDelay(attempt, attempt % 64);
    }
  }

  /** The shifted bit is the sign. */
  lemma SignBitDelay(attempt: nat)
    requires attempt >= 64 && attempt % 64 == 0
    ensures RetryDelay(attempt, Wrapping) == Some(I64_MIN) != Some(Backoff(attempt))
    ensures RetryDelay(attempt, Checked) == if attempt == 64 then Some(I64_MIN) else None
  {
    CappedFrom(attempt);
    assert (attempt - 1) % 64 == 63;
    assert attempt > 64 ==> (attempt - 64 - 1) % 64 == 63;
  }

  /** After that the distance starts over, which shows until the cap is reached. */
  lemma LateDelay(attempt: nat, again: nat)
    requires attempt >= 65 && again == attempt % 64 && again >= 1
    ensures RetryDelay(attempt, Checked) == None
    ensures RetryDelay(attempt, Wrapping) == RetryDelay(attempt - 64, Wrapping) == Some(Backoff(again))
    ensures Backoff(again) == Backoff(attempt) <==> again >= 7
  {
    assert (attempt - 1) % 64 == again - 1 == (attempt - 64 - 1) % 64;
    ShortDelay(again);
    assert RetryDelay(again, Wrapping) == Some(Backoff(again));
    CappedFrom(attempt);
    if again >= 7 {
      CappedFrom(again);
    } else {
      UncappedBelow(again);
    }
  }

  lemma ShortDelay(attempt: nat)
    requires 1 <= attempt <= 63
    ensures forall build :: RetryDelay(attempt, build) == Some(Backoff(attempt))
  {
    SmallPow2(attempt - 1);
    Pow2Grows(0, attempt - 1);
  }

  lemma CappedFrom(attempt: nat)
    requires attempt >= 7
    ensures Backoff(attempt) == 60_000
  {
    Pow2Grows(6, attempt - 1);
    assert Pow2(6) == 64;
  }

  lemma UncappedBelow(attempt: nat)
    requires 1 <= attempt <= 6
    ensures Backoff(attempt) < 60_000
  {
    Pow2Grows(attempt - 1, 5);
    assert Pow2(5) == 32;
  }

  /** With at most 64 attempts configured, every automatic retry waits the intended backoff, within [1000, 60000]
      milliseconds, and no shorter than the one after an earlier failure of the job. */
  lemma RetriesBackOff(jobs: Jobs, input: FailInput, build: Build, at: Time, earlier: nat)
    requires AllCounted(jobs) && HeldBy(jobs, input.id, input.worker, input.epoch)
    requires jobs[input.id].maxAttempts <= 64 && input.retryAfter.None?
    requires 1 <= earlier <= jobs[input.id].attempts + 1
    ensures var (after, r) := Failed(jobs, input, build, at);
            && r.Ok?
            && if jobs[input.id].attempts + 1 >= jobs[input.id].maxAttempts then r.value.status == DeadLettered
               else
                 && r.value.status == Pending
                 && r.value.runAfter == Some(at + Backoff(jobs[input.id].attempts + 1))
                 && 1_000 <= Backoff(earlier) <= Backoff(jobs[input.id].attempts + 1) <= 60_000
  {
    var attempt := jobs[input.id].attempts + 1;
    if attempt <= 63 {
      ShortDelay(attempt);
    }
    BackoffGrows(earlier, attempt);
  }

  /** With more attempts than 65 a wrapping build shortens the wait again: the 65th failure waits a second after the
      63rd waited a minute. */
  lemma WaitStartsOver(jobs: Jobs, input: FailInput, at: Time)
    requires HeldBy(jobs, input.id, input.worker, input.epoch) && input.retryAfter.None?
    requires jobs[input.id].attempts == 64 && jobs[input.id].maxAttempts > 65
    ensures Failed(jobs, input, Wrapping, at).1.Ok?
    ensures Failed(jobs, input, Wrapping, at).1.value.runAfter == Some(at + 1_000)
    ensures Failed(jobs, input, Checked, at) == (jobs, Err(Unavailable("arithmetic overflow")))
    ensures RetryDelay(63, Wrapping) == Some(60_000)
  {
    ShortDelay(63);
    CappedFrom(63);
    assert RetryDelay(65, Wrapping) == Some(1_000);
  }
}
