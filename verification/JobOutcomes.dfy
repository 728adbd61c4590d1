/** What each call makes of a job's row, and what a job's status tells about how it was last settled. */
module JobOutcomes {
  import opened Prelude
  import opened Selections
  import opened JobQueue
  import opened JobQueueSafety

  // ----- One call -----

  /** Every row but one is as before, and that one carries what the queue never writes unchanged. */
  predicate OnlyRow(jobs: Jobs, after: Jobs, id: Id) {
    && id in jobs && id in after && after == jobs[id := after[id]]
    && after[id].createdAt == jobs[id].createdAt && after[id].epoch == jobs[id].epoch
    && after[id].maxAttempts == jobs[id].maxAttempts && after[id].jobType == jobs[id].jobType
    && after[id].dedupeKey == jobs[id].dedupeKey && after[id].body == jobs[id].body
  }

  predicate Held(jobs: Jobs, id: Id, worker: Worker, epoch: int) {
    id in jobs && jobs[id].status == Leased && jobs[id].owner == Some(worker) && jobs[id].epoch == epoch
  }

  /** No longer anybody's. */
  predicate Free(job: Job, now: Time) { job.owner == None && job.leasedUntil == None && job.updatedAt == now }

  /** A worker's acknowledgement completes the job it holds at its epoch; anyone else's is a conflict. */
  lemma AcknowledgedExactly(jobs: Jobs, id: Id, worker: Worker, epoch: int, now: Time)
    ensures var (after, r) := Acked(jobs, id, worker, epoch, now);
            if Held(jobs, id, worker, epoch) then
              && OnlyRow(jobs, after, id) && r == Ok(after[id]) && Free(after[id], now)
              && after[id].status == Completed && after[id].completedAt == Some(now)
              && after[id].attempts == jobs[id].attempts && after[id].runAfter == jobs[id].runAfter
              && after[id].lastError == jobs[id].lastError
            else r.Err? && r.error.Conflict? && after == jobs
  {
  }

  /** Computing the next time does not panic. */
  predicate CanRetry(job: Job, input: FailInput, build: Build) {
    input.retryAfter.Some? || build.Wrapping? || job.attempts < 64
  }

  /** A failure is counted. The last one allowed buries the job; an earlier one puts it back, to run again when the worker
      says or, if it says nothing, after the automatic delay. */
  lemma FailedExactly(jobs: Jobs, input: FailInput, build: Build, now: Time)
    requires input.id in jobs ==> jobs[input.id].attempts >= 0
    ensures var (after, r) := Failed(jobs, input, build, now);
            var id := input.id;
            if Held(jobs, id, input.worker, input.epoch)
               && (jobs[id].attempts + 1 >= jobs[id].maxAttempts || CanRetry(jobs[id], input, build)) then
              && OnlyRow(jobs, after, id) && r == Ok(after[id]) && Free(after[id], now)
              && after[id].attempts == jobs[id].attempts + 1
              && after[id].lastError == Some((input.errorCode, input.errorMessage))
              && if jobs[id].attempts + 1 >= jobs[id].maxAttempts then
                   && after[id].status == DeadLettered && after[id].completedAt == Some(now)
                   && after[id].runAfter == None
                 else
                   && after[id].status == Pending && after[id].completedAt == None
                   && (match input.retryAfter
                       case Some(time) => after[id].runAfter == Some(time)
                       case None =>
                         RetryDelay(after[id].attempts, build).Some?
                         && after[id].runAfter == Some(now + RetryDelay(after[id].attempts, build).value))
            else
              && after == jobs && r.Err?
              && (id !in jobs <==> r.error.NotFound?)
              && (id in jobs && !Held(jobs, id, input.worker, input.epoch) <==> r.error.Conflict?)
  {
  }

  /** A cancellation ends a job that is pending or leased, and leaves one that has ended as it is. */
  lemma CancelledExactly(jobs: Jobs, id: Id, now: Time)
    ensures var (after, r) := Dropped(jobs, id, now);
            if id !in jobs then after == jobs && r.Err? && r.error.NotFound?
            else if jobs[id].status == Pending || jobs[id].status == Leased then
              && OnlyRow(jobs, after, id) && r == Ok(after[id]) && Free(after[id], now)
              && after[id].status == Cancelled && after[id].completedAt == Some(now)
              && after[id].attempts == jobs[id].attempts && after[id].runAfter == jobs[id].runAfter
              && after[id].lastError == jobs[id].lastError
            else after == jobs && r == Ok(jobs[id])
  {
  }

  /** A new job waits, unleased and unattempted; a live job of the same key is answered in its place. */
  lemma EnqueuedExactly(jobs: Jobs, input: EnqueueInput, existing: Option<Id>, now: Time)
    requires existing.Some? ==> existing.value in jobs
    ensures var (after, r) := Enqueued(jobs, input, existing, now);
            match existing
            case Some(id) => after == jobs && r == Ok(jobs[id])
            case None =>
              if input.id in jobs then after == jobs && r.Err? && r.error.Conflict?
              else
                && input.id in after && after == jobs[input.id := after[input.id]] && r == Ok(after[input.id])
                && var job := after[input.id];
                   && Free(job, now) && job.createdAt == now && job.status == Pending
                   && job.epoch == 0 && job.attempts == 0 && job.maxAttempts == input.maxAttempts
                   && job.runAfter == input.runAfter && job.jobType == input.jobType
                   && job.dedupeKey == input.dedupeKey && job.body == input.body
                   && job.lastError == None && job.completedAt == None
  {
  }

  /** The job answered in the place of a new one: pending or leased, of the same key, and the oldest of those. */
  predicate Stands(jobs: Jobs, id: Id, key: string) {
    id in jobs && (jobs[id].status == Pending || jobs[id].status == Leased) && jobs[id].dedupeKey == Some(key)
  }

  lemma ExistingExactly(jobs: Jobs, key: Option<string>, existing: Option<Id>)
    ensures IsExisting(jobs, key, existing) <==>
            if existing.None? then key.None? || forall id | id in jobs :: !Stands(jobs, id, key.value)
            else
              && key.Some? && Stands(jobs, existing.value, key.value)
              && forall id | id in jobs && Stands(jobs, id, key.value) ::
                   jobs[existing.value].createdAt <= jobs[id].createdAt
  {
    if key.Some? {
      forall id ensures LiveUnder(jobs, key.value, id) <==> Stands(jobs, id, key.value) {
      }
    }
  }

  /** A batch hands each of its jobs to the worker for one more epoch. */
  lemma LeasedExactly(jobs: Jobs, picked: seq<Id>, worker: Worker, until: Time, now: Time, id: Id)
    requires id in jobs
    ensures var after := LeaseAll(jobs, picked, worker, until, now);
            && after.Keys == jobs.Keys
            && if id !in picked then after[id] == jobs[id]
               else
                 && after[id].status == Leased && after[id].owner == Some(worker)
                 && after[id].leasedUntil == Some(until) && after[id].updatedAt == now
                 && after[id].epoch == jobs[id].epoch + 1
                 && after[id] == jobs[id].(status := after[id].status, owner := after[id].owner,
                                           leasedUntil := after[id].leasedUntil, updatedAt := now,
                                           epoch := after[id].epoch)
  {
  }

  /** What may be leased: pending, its time come, and of the type asked for. */
  lemma DueExactly(jobs: Jobs, jobType: Option<string>, now: Time, id: Id)
    ensures id in Due(jobs, jobType, now) <==>
            && id in jobs && jobs[id].status == Pending
            && (jobs[id].runAfter == None || jobs[id].runAfter.value <= now)
            && (jobType == None || jobs[id].jobType == jobType.value)
  {
  }

  // ----- Runs -----

  datatype Ending = Acknowledged | Retried | LastFailure | Withdrawn

  /** How an event settles the job, and when: its holder's acknowledgement or failure, or a cancellation that finds it
      live. */
  ghost function Settles(jobs: Jobs, e: Event, id: Id): Option<(Ending, Time)> {
    match e
    case Ack(job, worker, epoch, at) =>
      if job == id && Held(jobs, id, worker, epoch) then Some((Acknowledged, at)) else None
    case Fail(f, build, at) =>
      if f.id != id || !Held(jobs, id, f.worker, f.epoch) then None
      else if jobs[id].attempts + 1 >= jobs[id].maxAttempts then Some((LastFailure, at))
      else if CanRetry(jobs[id], f, build) then Some((Retried, at))
      else None
    case Cancel(job, at) =>
      if job == id && id in jobs && (jobs[id].status == Pending || jobs[id].status == Leased) then Some((Withdrawn, at))
      else None
    case _ => None
  }

  ghost function LastSettled(events: seq<Event>, id: Id): Option<(Ending, Time)> {
    if events == [] then None
    else
      var (before, last) := (events[..|events| - 1], events[|events| - 1]);
      var settled := Settles(Run(before).jobs, last, id);
      if settled.Some? then settled else LastSettled(before, id)
  }

  predicate StatusTells(job: Job, last: Option<(Ending, Time)>) {
    && (job.status == Completed <==> last.Some? && last.value.0 == Acknowledged)
    && (job.status == DeadLettered <==> last.Some? && last.value.0 == LastFailure)
    && (job.status == Cancelled <==> last.Some? && last.value.0 == Withdrawn)
    && job.completedAt == (if last.Some? && last.value.0 != Retried then Some(last.value.1) else None)
  }

  lemma EnqueueTells(jobs: Jobs, input: EnqueueInput, existing: Option<Id>, at: Time, id: Id,
                     last: Option<(Ending, Time)>)
    requires existing.Some? ==> existing.value in jobs
    requires id in Enqueued(jobs, input, existing, at).0
    requires if id in jobs then StatusTells(jobs[id], last) else last == None
    ensures StatusTells(Enqueued(jobs, input, existing, at).0[id], last)
  {
    EnqueuedExactly(jobs, input, existing, at);
  }

  lemma LeaseTells(jobs: Jobs, picked: seq<Id>, worker: Worker, until: Time, at: Time, id: Id,
                   last: Option<(Ending, Time)>)
    requires id in jobs && StatusTells(jobs[id], last) && (id in picked ==> jobs[id].status == Pending)
    ensures var after := LeaseAll(jobs, picked, worker, until, at); id in after && StatusTells(after[id], last)
  {
    LeasedExactly(jobs, picked, worker, until, at, id);
  }

  lemma AckTells(jobs: Jobs, job: Id, worker: Worker, epoch: int, at: Time, id: Id, last: Option<(Ending, Time)>)
    requires id in jobs && StatusTells(jobs[id], last)
    ensures var settled := Settles(jobs, Ack(job, worker, epoch, at), id);
            var after := Acked(jobs, job, worker, epoch, at).0;
            id in after && StatusTells(after[id], if settled.Some? then settled else last)
  {
    AcknowledgedExactly(jobs, job, worker, epoch, at);
  }

  lemma FailTells(jobs: Jobs, f: FailInput, build: Build, at: Time, id: Id, last: Option<(Ending, Time)>)
    requires id in jobs && StatusTells(jobs[id], last) && AllCounted(jobs)
    ensures var settled := Settles(jobs, Fail(f, build, at), id);
            var after := Failed(jobs, f, build, at).0;
            id in after && StatusTells(after[id], if settled.Some? then settled else last)
  {
    FailedExactly(jobs, f, build, at);
  }

  lemma CancelTells(jobs: Jobs, job: Id, at: Time, id: Id, last: Option<(Ending, Time)>)
    requires id in jobs && StatusTells(jobs[id], last)
    ensures var settled := Settles(jobs, Cancel(job, at), id);
            var after := Dropped(jobs, job, at).0;
            id in after && StatusTells(after[id], if settled.Some? then settled else last)
  {
    CancelledExactly(jobs, job, at);
  }

  lemma NextTells(s: State, e: Event, id: Id, last: Option<(Ending, Time)>)
    requires AllCounted(s.jobs) && id in Next(s, e).jobs
    requires if id in s.jobs then StatusTells(s.jobs[id], last) else last == None
    ensures var settled := Settles(s.jobs, e, id);
            StatusTells(Next(s, e).jobs[id], if settled.Some? then settled else last)
  {
    if Possible(s.jobs, e) {
      match e
      case Enqueue(input, existing, at) => EnqueueTells(s.jobs, input, existing, at, id, last);
      case Lease(worker, limit, duration, jobType, picked, at) =>
        PickedArePending(s.jobs, jobType, limit, at, picked);
        LeaseTells(s.jobs, picked, worker, at + duration, at, id, last);
      case Ack(job, worker, epoch, at) => KnownBefore(s, e, id); AckTells(s.jobs, job, worker, epoch, at, id, last);
      case Fail(f, build, at) => KnownBefore(s, e, id); FailTells(s.jobs, f, build, at, id, last);
      case Cancel(job, at) => KnownBefore(s, e, id); CancelTells(s.jobs, job, at, id, last);
    }
  }

  lemma PickedArePending(jobs: Jobs, jobType: Option<string>, limit: nat, at: Time, picked: seq<Id>)
    requires IsSelection(jobs, jobType, limit, at, picked)
    ensures forall id | id in picked :: id in jobs && jobs[id].status == Pending
  {
  }

  lemma KnownBefore(s: State, e: Event, id: Id)
    requires !e.Enqueue? && !e.Lease? && id in Next(s, e).jobs
    ensures id in s.jobs
  {
  }

  lemma {:induction false} UnknownIsUnsettled(events: seq<Event>, id: Id)
    requires id !in Run(events).jobs
    ensures LastSettled(events, id) == None
  {
    if events != [] {
      var before := events[..|events| - 1];
      if id in Run(before).jobs {
        EndedStays(Run(before), events[|events| - 1], id);
      }
      UnknownIsUnsettled(before, id);
    }
  }

  /** In every run: a job is completed exactly when it was last settled by its holder's acknowledgement, dead-lettered
      exactly when that was a last failure, and cancelled exactly when it was a cancellation that found it live; and the
      time it ended is the time of that event. */
  lemma {:induction false} StatusTellsTheEnding(events: seq<Event>, id: Id)
    requires id in Run(events).jobs
    ensures StatusTells(Run(events).jobs[id], LastSettled(events, id))
  {
    var (before, last) := (events[..|events| - 1], events[|events| - 1]);
    CountersAgree(before);
    if id in Run(before).jobs {
      StatusTellsTheEnding(before, id);
    } else {
      UnknownIsUnsettled(before, id);
    }
    NextTells(Run(before), last, id, LastSettled(before, id));
  }
}
