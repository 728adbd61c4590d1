/** The sliding-window rate limiter, and its exactness over whole runs. */
module RateLimiter {

  type Time = int

  const I64_MAX := 0x7fff_ffff_ffff_ffff

  /** A window too wide for a signed 64-bit number counts as none. */
  function Window(seconds: nat): nat { if seconds > I64_MAX then 0 else seconds }

  datatype Key = Key(text: string)

  type Buckets = map<Key, seq<Time>>

  function Bucket(buckets: Buckets, key: Key): seq<Time> { if key in buckets then buckets[key] else [] }

  function Kept(times: seq<Time>, cutoff: Time): seq<Time> {
    if times == [] then []
    else
      var before := Kept(times[..|times| - 1], cutoff);
      if times[|times| - 1] >= cutoff then before + [times[|times| - 1]] else before
  }

  function Allowed(buckets: Buckets, key: Key, maxRequests: nat, windowSeconds: nat, now: Time): (Buckets, bool) {
    var entries := Kept(Bucket(buckets, key), now - Window(windowSeconds));
    if |entries| >= maxRequests then (buckets[key := entries], false)
    else (buckets[key := entries + [now]], true)
  }

  class RateLimiter {
    var buckets: Buckets

    constructor ()
      ensures buckets == map[]
    {
      buckets := map[];
    }

    method Allow(key: Key, maxRequests: nat, windowSeconds: nat, now: Time) returns (ok: bool)
      modifies this
      ensures (buckets, ok) == Allowed(old(buckets), key, maxRequests, windowSeconds, now)
    {
      var cutoff := now - if windowSeconds > I64_MAX then 0 else windowSeconds;
      if key !in buckets {
        buckets := buckets[key := []];
      }
      var all := buckets[key];
      var entries: seq<Time> := [];
      for i := 0 to |all|
        invariant entries == Kept(all[..i], cutoff)
      {
        assert all[..i + 1][..i] == all[..i];
        if all[i] >= cutoff {
          entries := entries + [all[i]];
        }
      }
      assert all[..|all|] == all;
      if |entries| >= maxRequests {
        buckets := buckets[key := entries];
        assert buckets == old(buckets)[key := entries];
        return false;
      }
      entries := entries + [now];
      buckets := buckets[key := entries];
      assert buckets == old(buckets)[key := entries];
      return true;
    }
  }

  // ----- Counting -----

  /** How many of the times lie in the interval. */
  function CountIn(times: seq<Time>, from: Time, to: Time): nat {
    if times == [] then 0
    else
      var last := times[|times| - 1];
      CountIn(times[..|times| - 1], from, to) + if from <= last <= to then 1 else 0
  }

  lemma KeptSnoc(times: seq<Time>, last: Time, cutoff: Time)
    ensures Kept(times + [last], cutoff) == if last >= cutoff then Kept(times, cutoff) + [last] else Kept(times, cutoff)
  {
    assert (times + [last])[..|times|] == times;
  }

  lemma CountSnoc(times: seq<Time>, last: Time, from: Time, to: Time)
    ensures CountIn(times + [last], from, to) == CountIn(times, from, to) + if from <= last <= to then 1 else 0
  {
    assert (times + [last])[..|times|] == times;
  }

  lemma {:induction false} KeptTwice(times: seq<Time>, cutoff: Time, later: Time)
    requires cutoff <= later
    ensures Kept(Kept(times, cutoff), later) == Kept(times, later)
  {
    if times != [] {
      var n := |times| - 1;
      KeptTwice(times[..n], cutoff, later);
      if times[n] >= cutoff {
        KeptSnoc(Kept(times[..n], cutoff), times[n], later);
      }
    }
  }

  lemma {:induction false} KeptIsCounted(times: seq<Time>, from: Time, to: Time)
    requires forall i | 0 <= i < |times| :: times[i] <= to
    ensures |Kept(times, from)| == CountIn(times, from, to)
  {
    if times != [] {
      KeptIsCounted(times[..|times| - 1], from, to);
    }
  }

  lemma {:induction false} NarrowerCountsLess(times: seq<Time>, from: Time, to: Time, wideFrom: Time, wideTo: Time)
    requires wideFrom <= from && forall i | 0 <= i < |times| :: times[i] <= wideTo
    ensures CountIn(times, from, to) <= CountIn(times, wideFrom, wideTo)
  {
    if times != [] {
      NarrowerCountsLess(times[..|times| - 1], from, to, wideFrom, wideTo);
    }
  }

  lemma KeepsAlike(bucket: seq<Time>, all: seq<Time>, cutoff: Time, now: Time, c: Time, admitted: bool)
    requires cutoff <= c && Kept(bucket, c) == Kept(all, c)
    ensures var after := if admitted then Kept(bucket, cutoff) + [now] else Kept(bucket, cutoff);
            Kept(after, c) == Kept(if admitted then all + [now] else all, c)
  {
    KeptTwice(bucket, cutoff, c);
    KeptSnoc(Kept(bucket, cutoff), now, c);
    KeptSnoc(all, now, c);
  }

  lemma AllowTouchesOneKey(buckets: Buckets, key: Key, maxRequests: nat, windowSeconds: nat, now: Time)
    ensures var (after, ok) := Allowed(buckets, key, maxRequests, windowSeconds, now);
            var entries := Kept(Bucket(buckets, key), now - Window(windowSeconds));
            && Bucket(after, key) == (if ok then entries + [now] else entries) && (ok <==> |entries| < maxRequests)
            && forall k | k != key :: Bucket(after, k) == Bucket(buckets, k)
  {
  }

  // ----- Runs with fixed limits -----

  datatype Limits = Limits(maxRequests: nat, windowSeconds: nat)

  datatype Request = Request(key: Key, at: Time)

  /** The limiter, and for each key when its calls were let through. */
  datatype Meter = Meter(buckets: Buckets, admitted: map<Key, seq<Time>>)

  const START := Meter(map[], map[])

  function Admitted(m: Meter, key: Key): seq<Time> { if key in m.admitted then m.admitted[key] else [] }

  predicate Admits(m: Meter, limits: Limits, r: Request) {
    Allowed(m.buckets, r.key, limits.maxRequests, limits.windowSeconds, r.at).1
  }

  function Next(m: Meter, limits: Limits, r: Request): Meter {
    Meter(Allowed(m.buckets, r.key, limits.maxRequests, limits.windowSeconds, r.at).0,
          if Admits(m, limits, r) then m.admitted[r.key := Admitted(m, r.key) + [r.at]] else m.admitted)
  }

  function Run(requests: seq<Request>, limits: Limits): Meter {
    if requests == [] then START
    else Next(Run(requests[..|requests| - 1], limits), limits, requests[|requests| - 1])
  }

  predicate ClockRuns(requests: seq<Request>) { forall i, j | 0 <= i < j < |requests| :: requests[i].at <= requests[j].at }

  /** The calls let through for `key` in the window that ends at `t`; a window of 2^63 seconds or more has no length. */
  function InWindow(m: Meter, key: Key, limits: Limits, t: Time): nat {
    CountIn(Admitted(m, key), if limits.windowSeconds < 0x8000_0000_0000_0000 then t - limits.windowSeconds else t, t)
  }

  /** Nothing admitted lies in the future, for every cutoff not before the last one the bucket keeps what the full
      history would, and no window holds more than the maximum. */
  ghost predicate Exact(m: Meter, key: Key, limits: Limits, now: Time) {
    && (forall i | 0 <= i < |Admitted(m, key)| :: Admitted(m, key)[i] <= now)
    && (forall c | c >= now - Window(limits.windowSeconds) :: Kept(Bucket(m.buckets, key), c) == Kept(Admitted(m, key), c))
    && forall t :: InWindow(m, key, limits, t) <= limits.maxRequests
  }

  lemma AdmitsWhenExact(m: Meter, limits: Limits, r: Request, now: Time)
    requires Exact(m, r.key, limits, now) && now <= r.at
    ensures Admits(m, limits, r) <==> InWindow(m, r.key, limits, r.at) < limits.maxRequests
  {
    KeptIsCounted(Admitted(m, r.key), r.at - Window(limits.windowSeconds), r.at);
  }

  lemma OneMoreFits(m: Meter, limits: Limits, r: Request, now: Time, t: Time)
    requires Exact(m, r.key, limits, now) && now <= r.at && Admits(m, limits, r)
    ensures CountIn(Admitted(m, r.key) + [r.at], t - Window(limits.windowSeconds), t) <= limits.maxRequests
  {
    var w, all := Window(limits.windowSeconds), Admitted(m, r.key);
    AdmitsWhenExact(m, limits, r, now);
    CountSnoc(all, r.at, t - w, t);
    assert InWindow(m, r.key, limits, t) <= limits.maxRequests;
    if r.at <= t {
      NarrowerCountsLess(all, t - w, t, r.at - w, r.at);
    }
  }

  lemma SameKeyStaysExact(m: Meter, limits: Limits, r: Request, now: Time)
    requires Exact(m, r.key, limits, now) && now <= r.at
    ensures Exact(Next(m, limits, r), r.key, limits, r.at)
  {
    var w, all, bucket := Window(limits.windowSeconds), Admitted(m, r.key), Bucket(m.buckets, r.key);
    var after := Next(m, limits, r);
    var admitted := Admits(m, limits, r);
    AllowTouchesOneKey(m.buckets, r.key, limits.maxRequests, limits.windowSeconds, r.at);
    assert Admitted(after, r.key) == if admitted then all + [r.at] else all;
    forall c | c >= r.at - w ensures Kept(Bucket(after.buckets, r.key), c) == Kept(Admitted(after, r.key), c) {
      KeepsAlike(bucket, all, r.at - w, r.at, c, admitted);
    }
    forall t ensures InWindow(after, r.key, limits, t) <= limits.maxRequests {
      assert InWindow(m, r.key, limits, t) <= limits.maxRequests;
      if admitted {
        OneMoreFits(m, limits, r, now, t);
      }
    }
  }

  lemma NextStaysExact(m: Meter, key: Key, limits: Limits, r: Request, now: Time)
    requires Exact(m, key, limits, now) && now <= r.at
    ensures Exact(Next(m, limits, r), key, limits, r.at)
  {
    if r.key == key {
      SameKeyStaysExact(m, limits, r, now);
    } else {
      AllowTouchesOneKey(m.buckets, r.key, limits.maxRequests, limits.windowSeconds, r.at);
      forall t ensures InWindow(Next(m, limits, r), key, limits, t) <= limits.maxRequests {
        assert InWindow(m, key, limits, t) <= limits.maxRequests;
      }
    }
  }

  lemma {:induction false} AlwaysExact(requests: seq<Request>, key: Key, limits: Limits, now: Time)
    requires ClockRuns(requests) && forall i | 0 <= i < |requests| :: requests[i].at <= now
    ensures Exact(Run(requests, limits), key, limits, now)
  {
    if requests != [] {
      var before, last := requests[..|requests| - 1], requests[|requests| - 1];
      AlwaysExact(before, key, limits, last.at);
      NextStaysExact(Run(before, limits), key, limits, last, last.at);
    }
  }

  /** After any run under a clock that never runs back: no window of time, wherever it lies, holds more than the maximum
      of calls admitted for a key; the next call is admitted exactly when its window holds fewer; and a refused call
      finds exactly the maximum. */
  lemma LimiterIsExact(requests: seq<Request>, limits: Limits, next: Request, t: Time)
    requires ClockRuns(requests + [next])
    ensures var m := Run(requests, limits);
            && InWindow(m, next.key, limits, t) <= limits.maxRequests
            && (Admits(m, limits, next) <==> InWindow(m, next.key, limits, next.at) < limits.maxRequests)
            && (!Admits(m, limits, next) ==> InWindow(m, next.key, limits, next.at) == limits.maxRequests)
  {
    var all := requests + [next];
    forall i | 0 <= i < |requests| ensures requests[i].at <= next.at {
      assert all[i] == requests[i] && all[|requests|] == next;
    }
    forall i, j | 0 <= i < j < |requests| ensures requests[i].at <= requests[j].at {
      assert all[i] == requests[i] && all[j] == requests[j];
    }
    var m := Run(requests, limits);
    AlwaysExact(requests, next.key, limits, next.at);
    AdmitsWhenExact(m, limits, next, next.at);
    assert InWindow(m, next.key, limits, next.at) <= limits.maxRequests;
  }
}
