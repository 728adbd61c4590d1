/** The job queue: for each call the table it commits and the answer it gives, and the provider that runs it. */
module JobQueue {
  import opened Prelude
  import opened Selections

  datatype Id = Id(text: string)

  datatype Worker = Worker(name: string)

  type Time = int

  datatype JobStatus = Pending | Leased | Completed | DeadLettered | Cancelled

  /** What a job carries and the queue never reads. */
  datatype Body = Body(payload: string, sensitivity: int, taint: int, provenance: string)

  datatype Job = Job(
    createdAt: Time, updatedAt: Time, runAfter: Option<Time>, leasedUntil: Option<Time>, owner: Option<Worker>,
    epoch: int, status: JobStatus, attempts: int, maxAttempts: int, jobType: string, dedupeKey: Option<string>,
    body: Body, lastError: Option<(string, string)>, completedAt: Option<Time>)

  type Jobs = map<Id, Job>

  datatype EnqueueInput = EnqueueInput(
    id: Id, runAfter: Option<Time>, maxAttempts: int, jobType: string, dedupeKey: Option<string>, body: Body)

  datatype FailInput = FailInput(
    id: Id, worker: Worker, epoch: int, retryAfter: Option<Time>, errorCode: string, errorMessage: string)

  predicate Live(job: Job) { job.status == Pending || job.status == Leased }

  predicate Terminal(job: Job) { !Live(job) }

  // ----- Enqueue -----

  predicate LiveUnder(jobs: Jobs, key: string, id: Id) {
    id in jobs && Live(jobs[id]) && jobs[id].dedupeKey == Some(key)
  }

  /** The live job an enqueue under this key answers with: the oldest, if there is one. */
  ghost predicate IsExisting(jobs: Jobs, key: Option<string>, existing: Option<Id>) {
    match existing
    case Some(id) =>
      && key.Some? && LiveUnder(jobs, key.value, id)
      && forall o | LiveUnder(jobs, key.value, o) :: jobs[id].createdAt <= jobs[o].createdAt
    case None => key.Some? ==> forall o :: !LiveUnder(jobs, key.value, o)
  }

  function NewJob(input: EnqueueInput, now: Time): Job {
    Job(now, now, input.runAfter, None, None, 0, Pending, 0, input.maxAttempts, input.jobType, input.dedupeKey,
        input.body, None, None)
  }

  function Enqueued(jobs: Jobs, input: EnqueueInput, existing: Option<Id>, now: Time): (Jobs, Result<Job>)
    requires existing.Some? ==> existing.value in jobs
  {
    if existing.Some? then (jobs, Ok(jobs[existing.value]))
    else if input.id in jobs then (jobs, Err(Conflict("insert")))
    else (jobs[input.id := NewJob(input, now)], Ok(NewJob(input, now)))
  }

  // ----- Lease -----

  predicate IsDue(job: Job, jobType: Option<string>, now: Time) {
    && job.status == Pending
    && (job.runAfter.Some? ==> job.runAfter.value <= now)
    && (jobType.Some? ==> job.jobType == jobType.value)
  }

  function Due(jobs: Jobs, jobType: Option<string>, now: Time): set<Id> {
    set id | id in jobs && IsDue(jobs[id], jobType, now)
  }

  predicate OldestFirst(jobs: Jobs, ids: seq<Id>)
    requires forall i | 0 <= i < |ids| :: ids[i] in jobs
  {
    forall i, j | 0 <= i < j < |ids| :: jobs[ids[i]].createdAt <= jobs[ids[j]].createdAt
  }

  /** What the selecting query may answer: due jobs, oldest first, as many as the limit admits, none passed over for a
      younger one. */
  predicate IsSelection(jobs: Jobs, jobType: Option<string>, limit: nat, now: Time, picked: seq<Id>) {
    var due := Due(jobs, jobType, now);
    && (forall i | 0 <= i < |picked| :: picked[i] in due)
    && Distinct(picked) && OldestFirst(jobs, picked)
    && |picked| == (if limit < |due| then limit else |due|)
    && forall id, i | id in due && id !in picked && 0 <= i < |picked| :: jobs[picked[i]].createdAt <= jobs[id].createdAt
  }

  function Grant(job: Job, worker: Worker, until: Time, now: Time): Job {
    job.(updatedAt := now, leasedUntil := Some(until), owner := Some(worker), epoch := job.epoch + 1, status := Leased)
  }

  function LeaseAll(jobs: Jobs, picked: seq<Id>, worker: Worker, until: Time, now: Time): Jobs {
    map id | id in jobs :: if id in picked then Grant(jobs[id], worker, until, now) else jobs[id]
  }

  // ----- Acknowledge, fail, cancel -----

  predicate HeldBy(jobs: Jobs, id: Id, worker: Worker, epoch: int) {
    id in jobs && jobs[id].status == Leased && jobs[id].owner == Some(worker) && jobs[id].epoch == epoch
  }

  function Acked(jobs: Jobs, id: Id, worker: Worker, epoch: int, now: Time): (Jobs, Result<Job>) {
    if !HeldBy(jobs, id, worker, epoch) then (jobs, Err(Conflict("job is not leased by the worker at the epoch")))
    else
      var next := jobs[id].(updatedAt := now, leasedUntil := None, owner := None, status := Completed, completedAt := Some(now));
      (jobs[id := next], Ok(next))
  }

  const I64_MIN := -0x8000_0000_0000_0000
  const I64_MAX := 0x7fff_ffff_ffff_ffff

  function Pow2(n: nat): nat { if n == 0 then 1 else 2 * Pow2(n - 1) }

  /** How the program was compiled: an overflowing shift panics, or its distance is taken modulo 64. */
  datatype Build = Checked | Wrapping

  /** `1_i64 << n`; bit 63 is the sign. */
  function ShiftedOne(n: int, build: Build): Option<int> {
    if build.Checked? && (n < 0 || n >= 64) then None
    else if n % 64 == 63 then Some(I64_MIN)
    else Some(Pow2(n % 64))
  }

  function SaturatingMul(a: int, b: int): int {
    if a * b > I64_MAX then I64_MAX else if a * b < I64_MIN then I64_MIN else a * b
  }

  function Min(a: int, b: int): int { if a < b then a else b }

  /** The automatic retry delay, unless computing it panics. */
  function RetryDelay(nextAttempt: int, build: Build): Option<int> {
    match ShiftedOne(nextAttempt - 1, build)
    case None => None
    case Some(factor) => Some(Min(SaturatingMul(factor, 1_000), 60_000))
  }

  predicate IsLastAttempt(job: Job) { job.attempts + 1 >= job.maxAttempts }

  function Failed(jobs: Jobs, input: FailInput, build: Build, now: Time): (Jobs, Result<Job>) {
    if input.id !in jobs then (jobs, Err(NotFound("job")))
    else if !HeldBy(jobs, input.id, input.worker, input.epoch) then
      (jobs, Err(Conflict("job is not leased by the worker at the epoch")))
    else
      var job := jobs[input.id];
      var terminal := IsLastAttempt(job);
      if !terminal && input.retryAfter.None? && RetryDelay(job.attempts + 1, build).None? then
        (jobs, Err(Unavailable("arithmetic overflow")))
      else
        var runAfter :=
          if terminal then None
          else if input.retryAfter.Some? then input.retryAfter
          else Some(now + RetryDelay(job.attempts + 1, build).value);
        var next := job.(
          updatedAt := now, leasedUntil := None, owner := None, attempts := job.attempts + 1, runAfter := runAfter,
          status := if terminal then DeadLettered else Pending,
          lastError := Some((input.errorCode, input.errorMessage)),
          completedAt := if terminal then Some(now) else None);
        (jobs[input.id := next], Ok(next))
  }

  /** A job that has ended is answered as it is. */
  function Dropped(jobs: Jobs, id: Id, now: Time): (Jobs, Result<Job>) {
    if id !in jobs then (jobs, Err(NotFound("job")))
    else if Terminal(jobs[id]) then (jobs, Ok(jobs[id]))
    else
      var next := jobs[id].(updatedAt := now, leasedUntil := None, owner := None, status := Cancelled, completedAt := Some(now));
      (jobs[id := next], Ok(next))
  }

  // ----- The queries -----

  /** Stands for the database engine; callers rely on the contract alone. */
  method FindExisting(jobs: Jobs, key: string) returns (existing: Option<Id>)
    ensures IsExisting(jobs, Some(key), existing)
  {
    existing := None;
    var left := jobs.Keys;
    while left != {}
      invariant left <= jobs.Keys
      invariant existing.Some? ==> LiveUnder(jobs, key, existing.value)
      invariant forall o | LiveUnder(jobs, key, o) && o !in left ::
                  existing.Some? && jobs[existing.value].createdAt <= jobs[o].createdAt
      decreases left
    {
      var o :| o in left;
      left := left - {o};
      if LiveUnder(jobs, key, o) && (existing.None? || jobs[o].createdAt < jobs[existing.value].createdAt) {
        existing := Some(o);
      }
    }
  }

  method InsertByAge(jobs: Jobs, ids: seq<Id>, id: Id) returns (r: seq<Id>)
    requires id in jobs && (forall i | 0 <= i < |ids| :: ids[i] in jobs) && id !in ids
    requires Distinct(ids) && OldestFirst(jobs, ids)
    ensures forall x :: x in r <==> x == id || x in ids
    ensures forall i | 0 <= i < |r| :: r[i] in jobs
    ensures Distinct(r) && OldestFirst(jobs, r)
  {
    var k := 0;
    while k < |ids| && jobs[ids[k]].createdAt <= jobs[id].createdAt
      invariant k <= |ids|
      invariant forall i | 0 <= i < k :: jobs[ids[i]].createdAt <= jobs[id].createdAt
    {
      k := k + 1;
    }
    r := InsertedAt(ids, id, k);
    InsertedMembers(ids, id, k);
    InsertedInOrder(jobs, ids, id, k);
  }

  lemma InsertedInOrder(jobs: Jobs, ids: seq<Id>, id: Id, k: nat)
    requires k <= |ids| && id in jobs && (forall i | 0 <= i < |ids| :: ids[i] in jobs) && id !in ids
    requires Distinct(ids) && OldestFirst(jobs, ids)
    requires forall i | 0 <= i < k :: jobs[ids[i]].createdAt <= jobs[id].createdAt
    requires k < |ids| ==> jobs[id].createdAt <= jobs[ids[k]].createdAt
    ensures var r := InsertedAt(ids, id, k);
            (forall i | 0 <= i < |r| :: r[i] in jobs) && Distinct(r) && OldestFirst(jobs, r)
  {
    InsertedDistinct(ids, id, k);
  }

  /** Stands for the database engine; callers rely on the contract alone. */
  method SelectDue(jobs: Jobs, jobType: Option<string>, limit: nat, now: Time) returns (picked: seq<Id>)
    ensures IsSelection(jobs, jobType, limit, now, picked)
  {
    var due := Due(jobs, jobType, now);
    var left := due;
    var sorted: seq<Id> := [];
    while left != {}
      invariant left <= due && forall x :: x in sorted <==> x in due && x !in left
      invariant forall i | 0 <= i < |sorted| :: sorted[i] in jobs
      invariant Distinct(sorted) && OldestFirst(jobs, sorted)
      decreases left
    {
      var id :| id in left;
      sorted := InsertByAge(jobs, sorted, id);
      left := left - {id};
    }
    DistinctCount(sorted, due);
    picked := sorted[..if limit < |sorted| then limit else |sorted|];
    FirstOnesAreOldest(jobs, jobType, limit, now, sorted);
  }

  lemma FirstOnesAreOldest(jobs: Jobs, jobType: Option<string>, limit: nat, now: Time, sorted: seq<Id>)
    requires forall x :: x in sorted <==> x in Due(jobs, jobType, now)
    requires forall i | 0 <= i < |sorted| :: sorted[i] in jobs
    requires Distinct(sorted) && OldestFirst(jobs, sorted) && |sorted| == |Due(jobs, jobType, now)|
    ensures IsSelection(jobs, jobType, limit, now, sorted[..if limit < |sorted| then limit else |sorted|])
  {
    var n := if limit < |sorted| then limit else |sorted|;
    var picked := sorted[..n];
    forall i | 0 <= i < |picked| ensures picked[i] in Due(jobs, jobType, now) {
      assert sorted[i] in sorted;
    }
    forall id, i | id in Due(jobs, jobType, now) && id !in picked && 0 <= i < |picked|
      ensures jobs[picked[i]].createdAt <= jobs[id].createdAt
    {
      assert sorted == picked + sorted[n..];
      var k :| 0 <= k < |sorted[n..]| && sorted[n..][k] == id;
      assert sorted[n + k] == id;
    }
  }

  lemma LeaseOneMore(jobs: Jobs, ids: seq<Id>, k: nat, worker: Worker, until: Time, now: Time)
    requires k < |ids| && Distinct(ids) && ids[k] in jobs
    ensures var before := LeaseAll(jobs, ids[..k], worker, until, now);
            && before[ids[k]] == jobs[ids[k]]
            && LeaseAll(jobs, ids[..k + 1], worker, until, now) ==
               before[ids[k] := Grant(jobs[ids[k]], worker, until, now)]
  {
    assert ids[..k + 1] == ids[..k] + [ids[k]];
  }

  // ----- The provider -----

  class SqliteJobQueue {
    const build: Build
    var jobs: Jobs

    constructor (build: Build)
      ensures jobs == map[] && this.build == build
    {
      this.build := build;
      jobs := map[];
    }

    method EnqueueJob(input: EnqueueInput, now: Time) returns (r: Result<Job>, ghost existing: Option<Id>)
      modifies this
      ensures IsExisting(old(jobs), input.dedupeKey, existing)
      ensures (jobs, r) == Enqueued(old(jobs), input, existing, now)
    {
      existing := None;
      if input.dedupeKey.Some? {
        var found := FindExisting(jobs, input.dedupeKey.value);
        existing := found;
        if found.Some? {
          return Ok(jobs[found.value]), existing;
        }
      }
      if input.id in jobs {
        return Err(Conflict("insert")), existing;
      }
      jobs := jobs[input.id := Job(now, now, input.runAfter, None, None, 0, Pending, 0, input.maxAttempts, input.jobType,
                                   input.dedupeKey, input.body, None, None)];
      return Ok(jobs[input.id]), existing;
    }

    /** The update of one row, and how many rows it touched. */
    method MarkLeased(id: Id, worker: Worker, leasedUntil: Time, now: Time) returns (rows: nat)
      requires id in jobs
      modifies this
      ensures rows == if old(jobs)[id].status == Pending then 1 else 0
      ensures jobs == if rows == 1 then old(jobs)[id := Grant(old(jobs)[id], worker, leasedUntil, now)] else old(jobs)
    {
      rows := 0;
      if jobs[id].status == Pending {
        jobs := jobs[id := jobs[id].(updatedAt := now, leasedUntil := Some(leasedUntil), owner := Some(worker),
                                     epoch := jobs[id].epoch + 1, status := Leased)];
        rows := 1;
      }
    }

    method LeaseJobs(worker: Worker, limit: nat, leaseDuration: Time, jobType: Option<string>, now: Time)
      returns (leased: seq<Job>, ghost picked: seq<Id>)
      modifies this
      ensures IsSelection(old(jobs), jobType, limit, now, picked)
      ensures jobs == LeaseAll(old(jobs), picked, worker, now + leaseDuration, now)
      ensures |leased| == |picked| && forall i | 0 <= i < |picked| :: leased[i] == jobs[picked[i]]
    {
      var leasedUntil := now + leaseDuration;
      var ids := SelectDue(jobs, jobType, limit, now);
      picked := ids;
      leased := [];
      assert LeaseAll(jobs, [], worker, leasedUntil, now) == jobs;
      for k := 0 to |ids|
        invariant jobs == LeaseAll(old(jobs), ids[..k], worker, leasedUntil, now)
        invariant |leased| == k && forall i | 0 <= i < k :: leased[i] == Grant(old(jobs)[ids[i]], worker, leasedUntil, now)
      {
        var id := ids[k];
        LeaseOneMore(old(jobs), ids, k, worker, leasedUntil, now);
        var rows := MarkLeased(id, worker, leasedUntil, now);
        if rows == 0 {
          continue;
        }
        leased := leased + [jobs[id]];
      }
      assert ids[..|ids|] == ids;
    }

    method AckJob(id: Id, worker: Worker, epoch: int, now: Time) returns (r: Result<Job>)
      modifies this
      ensures (jobs, r) == Acked(old(jobs), id, worker, epoch, now)
    {
      var rows := 0;
      if id in jobs && jobs[id].owner == Some(worker) && jobs[id].epoch == epoch && jobs[id].status == Leased {
        jobs := jobs[id := jobs[id].(updatedAt := now, leasedUntil := None, owner := None, status := Completed,
                                     completedAt := Some(now))];
        rows := 1;
      }
      if rows == 0 {
        return Err(Conflict("job is not leased by the worker at the epoch"));
      }
      return Ok(jobs[id]);
    }

    method FailJob(input: FailInput, now: Time) returns (r: Result<Job>)
      modifies this
      ensures (jobs, r) == Failed(old(jobs), input, build, now)
    {
      if input.id !in jobs {
        return Err(NotFound("job"));
      }
      var current := jobs[input.id];
      if current.status != Leased || current.owner != Some(input.worker) || current.epoch != input.epoch {
        return Err(Conflict("job is not leased by the worker at the epoch"));
      }
      var nextAttempt := current.attempts + 1;
      var terminal := nextAttempt >= current.maxAttempts;
      var nextRunAfter: Option<Time> := None;
      if !terminal {
        if input.retryAfter.Some? {
          nextRunAfter := input.retryAfter;
        } else {
          var delay := RetryDelay(nextAttempt, build);
          if delay.None? {
            return Err(Unavailable("arithmetic overflow"));
          }
          nextRunAfter := Some(now + delay.value);
        }
      }
      var status := if terminal then DeadLettered else Pending;
      var completedAt := if terminal then Some(now) else None;
      jobs := jobs[input.id := current.(updatedAt := now, leasedUntil := None, owner := None, status := status,
                                        attempts := nextAttempt, runAfter := nextRunAfter,
                                        lastError := Some((input.errorCode, input.errorMessage)),
                                        completedAt := completedAt)];
      return Ok(jobs[input.id]);
    }

    method CancelJob(id: Id, now: Time) returns (r: Result<Job>)
      modifies this
      ensures (jobs, r) == Dropped(old(jobs), id, now)
    {
      if id in jobs && (jobs[id].status == Pending || jobs[id].status == Leased) {
        jobs := jobs[id := jobs[id].(updatedAt := now, leasedUntil := None, owner := None, status := Cancelled,
                                     completedAt := Some(now))];
      }
      if id !in jobs {
        return Err(NotFound("job"));
      }
      return Ok(jobs[id]);
    }
  }
}
