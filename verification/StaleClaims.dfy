/** Without any discipline: exactly when a syscall is claimed twice, and how often its tool can be called. */
module StaleClaims {
  import opened Prelude
  import opened ActionSchemas
  import opened Database
  import opened Execution
  import opened ExecutionSafety

  /** If this step writes `executing`, the row it writes to is not already `executing`. */
  predicate FindsUnclaimed(w: World, step: Step) {
    Enabled(w, step) && step.Move? && w.execs[step.pid].pc == Claim ==>
      var e := w.execs[step.pid];
      e.ids[e.next] in w.db.syscalls ==> w.db.syscalls[e.ids[e.next]].status != Executing
  }

  /** What a step does to the log of claims. */
  lemma ClaimsAfter(w: World, step: Step, attempts: nat, at: Time)
    ensures var after := Next(w, step, attempts, at).claims;
            if Enabled(w, step) && step.Move? && w.execs[step.pid].pc == Claim then
              after == ClaimStep(w, step.pid).claims
            else after == w.claims
  {
    if Enabled(w, step) && step.Move? {
      match w.execs[step.pid].pc
      case Acquire => AcquireOnlyExec(w, step.pid, at);
      case _ =>
    }
  }

  lemma StepDecidesUniqueness(w: World, step: Step, attempts: nat, at: Time)
    requires Sound(w) && ClaimedOnce(w.claims)
    ensures ClaimedOnce(Next(w, step, attempts, at).claims) <==> FindsUnclaimed(w, step)
  {
    ClaimsAfter(w, step, attempts, at);
    if Enabled(w, step) && step.Move? && w.execs[step.pid].pc == Claim {
      var e := w.execs[step.pid];
      var s := e.ids[e.next];
      ClaimWrites(w, step.pid);
      if s in Claimed(w.claims) {
        var row :| row in w.claims && row.syscall == s;
        var i :| 0 <= i < |w.claims| && w.claims[i] == row;
        var after := w.claims + [ClaimRow(s, step.pid)];
        assert after[i].syscall == after[|w.claims|].syscall;
      } else {
        ClaimIsFirst(w.claims, ClaimRow(s, step.pid));
      }
    }
  }

  lemma ClaimsOnlyGrow(w: World, step: Step, attempts: nat, at: Time)
    requires ClaimedOnce(Next(w, step, attempts, at).claims)
    ensures ClaimedOnce(w.claims)
  {
    var after := Next(w, step, attempts, at).claims;
    ClaimsAfter(w, step, attempts, at);
    if Enabled(w, step) && step.Move? && w.execs[step.pid].pc == Claim {
      ClaimWrites(w, step.pid);
    }
    assert |w.claims| <= |after| && forall i | 0 <= i < |w.claims| :: after[i] == w.claims[i];
  }

  ghost predicate AlwaysFindsUnclaimed(w: World, steps: seq<Timed>, attempts: nat) {
    forall k | 0 <= k < |steps| :: FindsUnclaimed(RunWorld(w, steps[..k], attempts), steps[k].step)
  }

  lemma AlwaysFindsSnoc(w: World, steps: seq<Timed>, attempts: nat)
    requires steps != []
    ensures var n := |steps| - 1;
            AlwaysFindsUnclaimed(w, steps, attempts) <==>
            AlwaysFindsUnclaimed(w, steps[..n], attempts)
            && FindsUnclaimed(RunWorld(w, steps[..n], attempts), steps[n].step)
  {
    var before := steps[..|steps| - 1];
    assert forall k | 0 <= k < |before| :: before[..k] == steps[..k] && before[k] == steps[k];
  }

  /** In any run at all, each syscall is claimed at most once exactly when no claim is written over a claim. */
  lemma {:induction false} ClaimedOnceExactly(registry: Registry, steps: seq<Timed>, attempts: nat)
    ensures ClaimedOnce(RunWorld(Start(registry), steps, attempts).claims)
            <==> AlwaysFindsUnclaimed(Start(registry), steps, attempts)
  {
    if steps != [] {
      var n := |steps| - 1;
      var before, last := steps[..n], steps[n];
      var w := RunWorld(Start(registry), before, attempts);
      ClaimedOnceExactly(registry, before, attempts);
      AlwaysSound(registry, before, attempts);
      AlwaysFindsSnoc(Start(registry), steps, attempts);
      if ClaimedOnce(RunWorld(Start(registry), steps, attempts).claims) {
        ClaimsOnlyGrow(w, last.step, attempts, last.at);
      }
      if ClaimedOnce(w.claims) {
        StepDecidesUniqueness(w, last.step, attempts, last.at);
      }
    }
  }

  // ----- Calls follow claims -----

  /** How many claims of a syscall were written. */
  function ClaimCount(claims: seq<ClaimRow>, s: Id): nat {
    if claims == [] then 0
    else ClaimCount(claims[..|claims| - 1], s) + if claims[|claims| - 1].syscall == s then 1 else 0
  }

  lemma ClaimCountSnoc(claims: seq<ClaimRow>, row: ClaimRow, s: Id)
    ensures ClaimCount(claims + [row], s) == ClaimCount(claims, s) + if row.syscall == s then 1 else 0
  {
    assert (claims + [row])[..|claims|] == claims;
  }

  /** The calls an executor may still make for `s`. */
  function OwedBy(e: Exec, s: Id, attempts: nat): nat {
    if e.pc.CallTool? && e.next < |e.ids| && e.ids[e.next] == s && e.pc.attempt <= attempts then
      attempts - e.pc.attempt + 1
    else 0
  }

  /** The same for all executors below `n`. */
  function Owed(execs: map<nat, Exec>, s: Id, attempts: nat, n: nat): nat {
    if n == 0 then 0
    else Owed(execs, s, attempts, n - 1) + if n - 1 in execs then OwedBy(execs[n - 1], s, attempts) else 0
  }

  lemma {:induction false} OwedAfterPut(execs: map<nat, Exec>, pid: nat, e: Exec, s: Id, attempts: nat, n: nat)
    ensures Owed(execs[pid := e], s, attempts, n) ==
            Owed(execs, s, attempts, n) +
            if pid >= n then 0
            else OwedBy(e, s, attempts) - if pid in execs then OwedBy(execs[pid], s, attempts) else 0
  {
    if n > 0 {
      OwedAfterPut(execs, pid, e, s, attempts, n - 1);
    }
  }

  lemma {:induction false} OwedAfterDrop(execs: map<nat, Exec>, pid: nat, s: Id, attempts: nat, n: nat)
    ensures Owed(execs - {pid}, s, attempts, n) <= Owed(execs, s, attempts, n)
  {
    if n > 0 {
      OwedAfterDrop(execs, pid, s, attempts, n - 1);
    }
  }

  lemma {:induction false} OwedByOne(execs: map<nat, Exec>, pid: nat, s: Id, attempts: nat, n: nat)
    requires pid in execs && pid < n
    ensures Owed(execs, s, attempts, n) >= OwedBy(execs[pid], s, attempts)
  {
    if pid < n - 1 {
      OwedByOne(execs, pid, s, attempts, n - 1);
    }
  }

  /** Calls made and calls owed stay within `attempts` for each claim. */
  ghost predicate CallsWithinClaims(w: World, attempts: nat) {
    && (forall s, n: nat :: CallsOf(w.calls, s) + Owed(w.execs, s, attempts, n) <= attempts * ClaimCount(w.claims, s))
    && forall pid | pid in w.execs && w.execs[pid].pc.CallTool? :: 1 <= w.execs[pid].pc.attempt <= attempts
  }

  predicate Idle(e: Exec) { !e.pc.CallTool? }

  /** A step that neither claims nor calls, and leaves no executor calling that was not. */
  lemma QuietStepKeeps(w: World, after: World, pid: nat, attempts: nat)
    requires CallsWithinClaims(w, attempts) && after.calls == w.calls && after.claims == w.claims
    requires || after.execs == w.execs || after.execs == w.execs - {pid}
             || (pid in after.execs && after.execs == w.execs[pid := after.execs[pid]] && Idle(after.execs[pid]))
    ensures CallsWithinClaims(after, attempts)
  {
    forall s, n: nat ensures Owed(after.execs, s, attempts, n) <= Owed(w.execs, s, attempts, n) {
      OwedAfterDrop(w.execs, pid, s, attempts, n);
      if pid in after.execs {
        OwedAfterPut(w.execs, pid, after.execs[pid], s, attempts, n);
      }
    }
  }

  lemma ClaimKeepsWithin(w: World, pid: nat, attempts: nat)
    requires CallsWithinClaims(w, attempts) && attempts >= 1
    requires pid in w.execs && w.execs[pid].pc == Claim && HasCurrent(w.execs[pid])
    ensures CallsWithinClaims(ClaimStep(w, pid), attempts)
  {
    var e, after := w.execs[pid], ClaimStep(w, pid);
    var s := e.ids[e.next];
    ClaimWrites(w, pid);
    if after.claims == w.claims {
      QuietStepKeeps(w, after, pid, attempts);
    } else {
      var row := ClaimRow(s, pid);
      forall t, n: nat
        ensures CallsOf(after.calls, t) + Owed(after.execs, t, attempts, n) <= attempts * ClaimCount(after.claims, t)
      {
        ClaimCountSnoc(w.claims, row, t);
        OwedAfterPut(w.execs, pid, e.(pc := CallTool(1)), t, attempts, n);
        OneMoreClaim(attempts, ClaimCount(w.claims, t));
      }
    }
  }

  lemma OneMoreClaim(attempts: nat, count: nat)
    ensures attempts * (count + 1) == attempts * count + attempts
  {
  }

  lemma ToolKeepsWithin(w: World, pid: nat, outcome: ToolOutcome, attempts: nat)
    requires CallsWithinClaims(w, attempts)
    requires pid in w.execs && w.execs[pid].pc.CallTool? && HasCurrent(w.execs[pid])
    ensures CallsWithinClaims(ToolStep(w, pid, outcome, attempts), attempts)
  {
    var e, after := w.execs[pid], ToolStep(w, pid, outcome, attempts);
    forall t, n: nat
      ensures CallsOf(after.calls, t) + Owed(after.execs, t, attempts, n) <= attempts * ClaimCount(after.claims, t)
    {
      var most := if pid < n then n else pid + 1;
      OwedAfterPut(w.execs, pid, after.execs[pid], t, attempts, most);
      OwedGrows(after.execs, t, attempts, n, most);
    }
  }

  lemma {:induction false} OwedGrows(execs: map<nat, Exec>, s: Id, attempts: nat, n: nat, m: nat)
    requires n <= m
    ensures Owed(execs, s, attempts, n) <= Owed(execs, s, attempts, m)
  {
    if n < m {
      OwedGrows(execs, s, attempts, n, m - 1);
    }
  }

  lemma MoveKeepsWithin(w: World, pid: nat, outcome: ToolOutcome, attempts: nat, at: Time)
    requires Sound(w) && CallsWithinClaims(w, attempts) && attempts >= 1 && pid in w.execs
    ensures CallsWithinClaims(MoveStep(w, pid, outcome, attempts, at), attempts)
  {
    var after := MoveStep(w, pid, outcome, attempts, at);
    match w.execs[pid].pc
    case Claim => ClaimKeepsWithin(w, pid, attempts);
    case CallTool(_) => ToolKeepsWithin(w, pid, outcome, attempts);
    case Acquire =>
      AcquireOnlyExec(w, pid, at);
      AcquireKeepsCalls(w, pid, at);
      QuietStepKeeps(w, after, pid, attempts);
    case _ => QuietStepKeeps(w, after, pid, attempts);
  }

  lemma AcquireKeepsCalls(w: World, pid: nat, at: Time)
    requires pid in w.execs
    ensures AcquireStep(w, pid, at).calls == w.calls
  {
  }

  lemma StepKeepsWithin(w: World, step: Step, attempts: nat, at: Time)
    requires Sound(w) && CallsWithinClaims(w, attempts) && attempts >= 1
    ensures CallsWithinClaims(Next(w, step, attempts, at), attempts)
  {
    if Enabled(w, step) {
      match step
      case Move(pid, outcome) => MoveKeepsWithin(w, pid, outcome, attempts, at);
      case DecideApproval(_, _, pid, _) => QuietStepKeeps(w, Next(w, step, attempts, at), pid, attempts);
      case Recover(pid, _, _) => QuietStepKeeps(w, Next(w, step, attempts, at), pid, attempts);
      case Crash(pid) => QuietStepKeeps(w, Next(w, step, attempts, at), pid, attempts);
      case _ => QuietStepKeeps(w, Next(w, step, attempts, at), 0, attempts);
    }
  }

  lemma {:induction false} NoneOwed(s: Id, attempts: nat, n: nat)
    ensures Owed(map[], s, attempts, n) == 0
  {
    if n > 0 {
      NoneOwed(s, attempts, n - 1);
    }
  }

  lemma {:induction false} AlwaysWithinClaims(registry: Registry, steps: seq<Timed>, attempts: nat)
    requires attempts >= 1
    ensures CallsWithinClaims(RunWorld(Start(registry), steps, attempts), attempts)
  {
    if steps == [] {
      forall s, n: nat ensures Owed(map[], s, attempts, n) == 0 {
        NoneOwed(s, attempts, n);
      }
    } else {
      var before, last := steps[..|steps| - 1], steps[|steps| - 1];
      AlwaysWithinClaims(registry, before, attempts);
      AlwaysSound(registry, before, attempts);
      StepKeepsWithin(RunWorld(Start(registry), before, attempts), last.step, attempts, last.at);
    }
  }

  /** In any run at all a syscall's tool is called at most max(1, configured attempts) times for each claim of it. */
  lemma CallsFollowClaims(registry: Registry, steps: seq<Timed>, configured: nat, s: Id)
    ensures var attempts := if configured < 1 then 1 else configured;
            var w := RunWorld(Start(registry), steps, attempts);
            CallsOf(w.calls, s) <= attempts * ClaimCount(w.claims, s)
  {
    var attempts := if configured < 1 then 1 else configured;
    AlwaysWithinClaims(registry, steps, attempts);
    var w := RunWorld(Start(registry), steps, attempts);
    assert CallsOf(w.calls, s) + Owed(w.execs, s, attempts, 0) <= attempts * ClaimCount(w.claims, s);
  }

  lemma {:induction false} ClaimedOnceCount(claims: seq<ClaimRow>, s: Id)
    requires ClaimedOnce(claims)
    ensures ClaimCount(claims, s) <= 1
    ensures ClaimCount(claims, s) == 1 ==> exists i :: 0 <= i < |claims| && claims[i].syscall == s
  {
    if claims != [] {
      var n := |claims| - 1;
      ClaimedOnceCount(claims[..n], s);
      if ClaimCount(claims[..n], s) == 1 {
        var i :| 0 <= i < n && claims[..n][i].syscall == s;
        assert claims[i].syscall == s && claims[i].syscall != claims[n].syscall;
      }
    }
  }

  /** The bound on the calls, with no lease, clock or runner looked at: it holds in every run in which no claim is
      written over a claim. */
  lemma CalledWithinAttempts(registry: Registry, steps: seq<Timed>, configured: nat, s: Id)
    requires var attempts := if configured < 1 then 1 else configured;
             AlwaysFindsUnclaimed(Start(registry), steps, attempts)
    ensures var attempts := if configured < 1 then 1 else configured;
            CallsOf(RunWorld(Start(registry), steps, attempts).calls, s) <= attempts
  {
    var attempts := if configured < 1 then 1 else configured;
    ClaimedOnceExactly(registry, steps, attempts);
    ClaimedOnceCount(RunWorld(Start(registry), steps, attempts).claims, s);
    CallsFollowClaims(registry, steps, configured, s);
    var count := ClaimCount(RunWorld(Start(registry), steps, attempts).claims, s);
    assert count == 0 || count == 1;
  }
}
