/** The cognition layer's writes to the memory-claim store. */
module Cognition {
  import opened Prelude
  import opened MemoryClaims

  const CLAIM_LIMIT := 100
  const WORKSPACE_LIMIT := 500

  method MergeEvidence(existing: Option<map<EvidenceRef, Evidence>>, newItems: seq<EvidenceItem>)
    returns (byRef: map<EvidenceRef, Evidence>)
    ensures byRef == Merged(if existing.Some? then existing.value else map[], newItems)
  {
    byRef := if existing.Some? then existing.value else map[];
    ghost var start := byRef;
    for i := 0 to |newItems|
      invariant byRef == Merged(start, newItems[..i])
    {
      assert newItems[..i + 1][..i] == newItems[..i];
      byRef := byRef[newItems[i].ref := newItems[i].evidence];
    }
    assert newItems[..|newItems|] == newItems;
  }

  method DistinctWorkspaceScopeCount(store: MemoryStore, key: Key, rules: Rules)
    returns (count: nat, listed: seq<Id>)
    ensures IsListing(store.claims, Some(Workspace), None, WORKSPACE_LIMIT, listed)
    ensures count == |WorkspacesWith(RecordsOf(store.claims, listed, Preference, {Candidate, Accepted}), key, rules)|
  {
    var records;
    records, listed := store.ListMemoryClaims(Some(Workspace), None, Preference, {Candidate, Accepted}, WORKSPACE_LIMIT);
    count := |WorkspacesWith(records, key, rules)|;
  }

  /** Splits the listed claims into the last one of the same key and those in conflict. */
  method Examine(existing: seq<Record>, s: Statement, rules: Rules)
    returns (aligned: Option<Record>, conflicting: seq<Record>)
    ensures aligned == Aligned(existing, s.text, rules) && conflicting == Conflicting(existing, s, rules)
  {
    aligned, conflicting := None, [];
    var statementKey := rules.key(s.text);
    for i := 0 to |existing|
      invariant aligned == Aligned(existing[..i], s.text, rules)
      invariant conflicting == Conflicting(existing[..i], s, rules)
    {
      assert existing[..i + 1][..i] == existing[..i];
      var claim := existing[i].claim;
      var existingKey := rules.key(claim.statement);
      if existingKey == statementKey {
        aligned := Some(existing[i]);
        continue;
      }
      if claim.scope == s.scope && rules.conflict(existingKey, statementKey) {
        conflicting := conflicting + [existing[i]];
      }
    }
    assert existing[..|existing|] == existing;
  }

  /** The strength contest. */
  method SettleConflicts(conflicting: seq<Record>, incomingStrength: int, status0: Status, confidence0: real)
    returns (status: Status, confidence: real, superseded: seq<Record>, unresolved: seq<Id>)
    ensures Contest(status, confidence, superseded, unresolved) ==
            Contested(conflicting, incomingStrength, status0, confidence0)
  {
    status, confidence, superseded, unresolved := status0, confidence0, [], [];
    for i := 0 to |conflicting|
      invariant Contest(status, confidence, superseded, unresolved) ==
                Contested(conflicting[..i], incomingStrength, status0, confidence0)
    {
      assert conflicting[..i + 1][..i] == conflicting[..i];
      var existingStrength := Strength(conflicting[i].claim);
      if status == Accepted
         && (conflicting[i].claim.status != Accepted || incomingStrength >= existingStrength) {
        superseded := superseded + [conflicting[i]];
      } else {
        status := Candidate;
        confidence := MinReal(confidence, 0.67);
        unresolved := unresolved + [conflicting[i].id];
      }
    }
    assert conflicting[..|conflicting|] == conflicting;
  }

  method SupersedeClaim(store: MemoryStore, record: Record, successor: string, now: Time)
    modifies store
    ensures store.claims == Written(old(store.claims), record.id, SupersededClaim(record.claim, successor, now))
  {
    var quality := record.claim.quality.(supersededBy := Some(successor));
    var claim := record.claim.(status := Superseded, confidence := MinReal(record.claim.confidence, 0.7),
                               quality := quality, updatedAt := now);
    var _ := store.UpsertMemoryClaim(record.id, claim);
  }

  method SupersedeEach(store: MemoryStore, records: seq<Record>, successor: string, clock: nat -> Time)
    modifies store
    ensures store.claims == SupersedeAll(old(store.claims), records, successor, clock)
  {
    for i := 0 to |records|
      invariant store.claims == SupersedeAll(old(store.claims), records[..i], successor, clock)
    {
      assert records[..i + 1][..i] == records[..i];
      SupersedeClaim(store, records[i], successor, clock(i));
    }
    assert records[..|records|] == records;
  }

  method AssessStatement(existing: seq<Record>, s: Statement, workspaceCount: nat, rules: Rules)
    returns (a: Assessment)
    ensures a == Assess(existing, s, workspaceCount, rules)
  {
    var aligned, conflicting := Examine(existing, s, rules);
    var newSignals := (if aligned.Some? then aligned.value.claim.quality.signals else 0) + 1;
    var supporting, deterministic := HasSupporting(s.evidence), HasStrong(s.evidence);
    var evidence := MergeEvidence(if aligned.Some? then Some(aligned.value.claim.evidence) else None, s.evidence);
    var (status0, confidence0) :=
      DetermineState(s.kind, s.scope.kind, s.explicitSignal, newSignals, supporting, deterministic, workspaceCount);
    var incomingStrength := StrengthOf(status0, s.explicitSignal, supporting, deterministic, newSignals);
    var status, confidence, superseded, unresolved :=
      SettleConflicts(conflicting, incomingStrength, status0, confidence0);
    a := Assessment(aligned, newSignals, supporting, deterministic, evidence,
                    Contest(status, confidence, superseded, unresolved));
  }

  method UpsertMemoryStatement(store: MemoryStore, rules: Rules, s: Statement, newId: Id, start: Time, clock: nat -> Time)
    returns (stored: Record, ghost listed: seq<Id>, ghost workspaces: seq<Id>)
    modifies store
    ensures IsListing(old(store.claims), Some(s.scope.kind), Some(s.scope.key), 100, listed)
    ensures s.kind == Preference && s.scope.kind == UserGlobal ==>
              IsListing(old(store.claims), Some(Workspace), None, 500, workspaces)
    ensures forall i | 0 <= i < |workspaces| :: workspaces[i] in old(store.claims)
    ensures var outcome := UpsertStatement(old(store.claims), RecordsOf(old(store.claims), listed, s.kind, ALL_STATUSES), s,
                                           WorkspaceCount(old(store.claims), s, workspaces, rules), newId, start, clock, rules);
            store.claims == outcome.claims && stored.id == outcome.id
  {
    var existing;
    existing, listed := store.ListMemoryClaims(Some(s.scope.kind), Some(s.scope.key), s.kind, ALL_STATUSES, CLAIM_LIMIT);
    var workspaceCount := 1;
    workspaces := [];
    if s.kind == Preference && s.scope.kind == UserGlobal {
      workspaceCount, workspaces := DistinctWorkspaceScopeCount(store, rules.key(s.text), rules);
    }
    var a := AssessStatement(existing, s, workspaceCount, rules);
    var claim := ClaimFrom(s, a, workspaceCount, rules, start, start);
    stored := store.UpsertMemoryClaim(if a.aligned.Some? then a.aligned.value.id else newId, claim);
    SupersedeEach(store, a.contest.superseded, stored.id.text, clock);
  }

  /** The listed open loops that no current item repeats and that look resolved. */
  function Stale(records: seq<Record>, current: seq<string>, looksResolved: string -> bool, rules: Rules): (stale: seq<Record>)
    ensures forall r | r in stale :: r in records
  {
    if records == [] then []
    else
      var last := records[|records| - 1];
      var before := Stale(records[..|records| - 1], current, looksResolved, rules);
      if !Repeated(last, current, rules) && looksResolved(last.claim.statement) then before + [last] else before
  }

  predicate Repeated(record: Record, current: seq<string>, rules: Rules) {
    exists i :: 0 <= i < |current| && rules.overlap(rules.key(current[i]), rules.key(record.claim.statement))
  }

  method ResolveStaleOpenLoops(store: MemoryStore, rules: Rules, scope: Scope, hasResolutionLanguage: bool,
                               current: seq<string>, looksResolved: string -> bool, event: string, clock: nat -> Time)
    returns (ghost listed: seq<Id>)
    modifies store
    ensures !hasResolutionLanguage ==> store.claims == old(store.claims)
    ensures hasResolutionLanguage ==>
              && IsListing(old(store.claims), Some(scope.kind), Some(scope.key), 100, listed)
              && store.claims ==
                 SupersedeAll(old(store.claims),
                              Stale(RecordsOf(old(store.claims), listed, OpenLoop, {Candidate, Accepted}), current,
                                    looksResolved, rules),
                              event, clock)
  {
    listed := [];
    if !hasResolutionLanguage {
      return;
    }
    var claims;
    claims, listed := store.ListMemoryClaims(Some(scope.kind), Some(scope.key), OpenLoop, {Candidate, Accepted}, CLAIM_LIMIT);
    ghost var done: seq<Record> := [];
    var count := 0;
    for i := 0 to |claims|
      invariant done == Stale(claims[..i], current, looksResolved, rules) && count == |done|
      invariant store.claims == SupersedeAll(old(store.claims), done, event, clock)
    {
      assert claims[..i + 1][..i] == claims[..i];
      if Repeated(claims[i], current, rules) {
        continue;
      }
      if looksResolved(claims[i].claim.statement) {
        SupersedeClaim(store, claims[i], event, clock(count));
        assert (done + [claims[i]])[..|done|] == done;
        done := done + [claims[i]];
        count := count + 1;
      }
    }
    assert claims[..|claims|] == claims;
  }

  /** The evidence of a claim, as it is passed on. */
  method EvidenceItems(evidence: map<EvidenceRef, Evidence>) returns (items: seq<EvidenceItem>)
    ensures forall item :: item in items <==> item.ref in evidence && item.evidence == evidence[item.ref]
  {
    items := [];
    var left := evidence.Keys;
    while left != {}
      invariant left <= evidence.Keys
      invariant forall item :: item in items <==>
                  item.ref in evidence && item.evidence == evidence[item.ref] && item.ref !in left
      decreases left
    {
      var ref :| ref in left;
      left := left - {ref};
      items := items + [EvidenceItem(ref, evidence[ref])];
    }
  }

  const ROOT_OWNER := Scope(UserGlobal, ScopeKey("user:root_owner"))

  /** A preference held in two workspaces or more is stored for the user. */
  method PromoteUserGlobalPreference(store: MemoryStore, rules: Rules, claim: Claim, newId: Id, start: Time, clock: nat -> Time)
    returns (ghost promoted: Option<Statement>, ghost listed: seq<Id>, ghost workspaces: seq<Id>)
    modifies store
    ensures IsListing(old(store.claims), Some(Workspace), None, 500, workspaces)
    ensures promoted.Some? <==>
            |WorkspacesWith(RecordsOf(old(store.claims), workspaces, Preference, {Candidate, Accepted}),
                            rules.key(claim.statement), rules)| >= 2
    ensures promoted.None? ==> store.claims == old(store.claims)
    ensures promoted.Some? ==>
              && promoted.value.kind == Preference && promoted.value.scope == ROOT_OWNER
              && promoted.value.text == claim.statement && promoted.value.detail == claim.detail
              && promoted.value.explicitSignal
              && (forall item | item in promoted.value.evidence ::
                    item.ref in claim.evidence && item.evidence == claim.evidence[item.ref])
              && RefsOf(promoted.value.evidence) == claim.evidence.Keys
              && IsListing(old(store.claims), Some(UserGlobal), Some(ROOT_OWNER.key), CLAIM_LIMIT, listed)
              && exists again :: WasStored(old(store.claims), store.claims, promoted.value, listed, again, newId, start, clock, rules)
  {
    var count;
    count, workspaces := DistinctWorkspaceScopeCount(store, rules.key(claim.statement), rules);
    promoted, listed := None, [];
    if count < 2 {
      return;
    }
    var items := EvidenceItems(claim.evidence);
    var s := Statement(Preference, ROOT_OWNER, claim.statement, claim.detail, items, true);
    promoted := Some(s);
    ghost var before := store.claims;
    var stored;
    ghost var again;
    stored, listed, again := UpsertMemoryStatement(store, rules, s, newId, start, clock);
    assert WasStored(before, store.claims, s, listed, again, newId, start, clock, rules);
    forall ref ensures ref in RefsOf(items) <==> ref in claim.evidence {
      assert ref in claim.evidence ==> EvidenceItem(ref, claim.evidence[ref]) in items;
    }
  }

  ghost predicate WasStored(claims: Claims, after: Claims, s: Statement, listed: seq<Id>, workspaces: seq<Id>, newId: Id,
                            start: Time, clock: nat -> Time, rules: Rules)
  {
    && (forall i | 0 <= i < |listed| :: listed[i] in claims)
    && IsListing(claims, Some(Workspace), None, WORKSPACE_LIMIT, workspaces)
    && after == UpsertStatement(claims, RecordsOf(claims, listed, s.kind, ALL_STATUSES), s,
                                WorkspaceCount(claims, s, workspaces, rules), newId, start, clock, rules).claims
  }
}
