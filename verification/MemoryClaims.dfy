/** The memory-claim store, and how a stored statement is aligned, contested and written. */
module MemoryClaims {
  import opened Prelude
  import opened Selections

  datatype Id = Id(text: string)

  /** A normalized statement. */
  datatype Key = Key(text: string)

  datatype ScopeKey = ScopeKey(text: string)

  datatype EvidenceRef = EvidenceRef(text: string)

  type Time = int

  datatype ClaimType = Decision | OpenLoop | Preference | Risk | OtherType(name: string)

  datatype ScopeKind = Workspace | UserGlobal | OtherKind(name: string)

  datatype Scope = Scope(kind: ScopeKind, key: ScopeKey)

  datatype Status = Candidate | Accepted | Superseded

  datatype Evidence = Evidence(kind: string, locator: Option<string>)

  datatype EvidenceItem = EvidenceItem(ref: EvidenceRef, evidence: Evidence)

  datatype Quality = Quality(
    signals: nat, explicitSignal: bool, supporting: bool, deterministic: bool, workspaces: nat, unresolved: seq<Id>,
    supersededBy: Option<string>)

  datatype Claim = Claim(
    kind: ClaimType, scope: Scope, subject: string, status: Status, confidence: real, statement: string, detail: string,
    quality: Quality, evidence: map<EvidenceRef, Evidence>, createdAt: Time, updatedAt: Time)

  type Claims = map<Id, Claim>

  datatype Record = Record(id: Id, claim: Claim)

  /** How statements are compared. The store relies on nothing else about their text. */
  datatype Rules = Rules(
    key: string -> Key, conflict: (Key, Key) -> bool, overlap: (Key, Key) -> bool,
    subject: (ClaimType, string) -> string)

  ghost predicate Lawful(rules: Rules) {
    (forall a, b :: rules.conflict(a, b) <==> rules.conflict(b, a)) && forall a :: !rules.conflict(a, a)
  }

  // ----- Listing -----

  predicate InScope(claim: Claim, kind: Option<ScopeKind>, key: Option<ScopeKey>) {
    (kind.Some? ==> claim.scope.kind == kind.value) && (key.Some? ==> claim.scope.key == key.value)
  }

  function Matching(claims: Claims, kind: Option<ScopeKind>, key: Option<ScopeKey>): set<Id> {
    set id | id in claims && InScope(claims[id], kind, key)
  }

  predicate MoreRecent(a: Claim, b: Claim) {
    a.updatedAt > b.updatedAt || (a.updatedAt == b.updatedAt && a.createdAt > b.createdAt)
  }

  predicate MostRecentFirst(claims: Claims, ids: seq<Id>)
    requires forall i | 0 <= i < |ids| :: ids[i] in claims
  {
    forall i, j | 0 <= i < j < |ids| :: !MoreRecent(claims[ids[j]], claims[ids[i]])
  }

  /** What the selecting query may answer: the limit is applied before statuses and types are filtered. */
  predicate IsListing(claims: Claims, kind: Option<ScopeKind>, key: Option<ScopeKey>, limit: nat, listed: seq<Id>) {
    var matching := Matching(claims, kind, key);
    && (forall i | 0 <= i < |listed| :: listed[i] in matching)
    && Distinct(listed) && MostRecentFirst(claims, listed)
    && |listed| == (if limit < |matching| then limit else |matching|)
    && forall id, i | id in matching && id !in listed && 0 <= i < |listed| :: !MoreRecent(claims[id], claims[listed[i]])
  }

  function RecordsOf(claims: Claims, listed: seq<Id>, kind: ClaimType, statuses: set<Status>): (records: seq<Record>)
    requires forall i | 0 <= i < |listed| :: listed[i] in claims
    ensures forall r :: r in records <==>
              r.id in listed && r.claim == claims[r.id] && r.claim.kind == kind && r.claim.status in statuses
  {
    if listed == [] then []
    else
      var last := listed[|listed| - 1];
      var before := RecordsOf(claims, listed[..|listed| - 1], kind, statuses);
      assert forall id :: id in listed <==> id == last || id in listed[..|listed| - 1];
      if claims[last].kind == kind && claims[last].status in statuses then before + [Record(last, claims[last])]
      else before
  }

  // ----- Evidence -----

  function StartsWith(text: string, prefix: string): bool { prefix <= text }

  predicate IsSupporting(item: EvidenceItem) { item.evidence.kind == "artifact" || !StartsWith(item.ref.text, "event:") }

  predicate IsStrong(item: EvidenceItem) {
    || StartsWith(item.ref.text, "doc:") || StartsWith(item.ref.text, "issue:")
    || StartsWith(item.ref.text, "test:") || StartsWith(item.ref.text, "diff:")
  }

  predicate HasSupporting(items: seq<EvidenceItem>) { exists i :: 0 <= i < |items| && IsSupporting(items[i]) }

  predicate HasStrong(items: seq<EvidenceItem>) { exists i :: 0 <= i < |items| && IsStrong(items[i]) }

  function RefsOf(items: seq<EvidenceItem>): set<EvidenceRef> { set item | item in items :: item.ref }

  /** A later item replaces an earlier one of the same reference. */
  function Merged(existing: map<EvidenceRef, Evidence>, items: seq<EvidenceItem>): (merged: map<EvidenceRef, Evidence>)
    ensures merged.Keys == existing.Keys + RefsOf(items)
  {
    if items == [] then existing
    else
      var last := items[|items| - 1];
      assert forall item :: item in items <==> item == last || item in items[..|items| - 1];
      assert RefsOf(items) == RefsOf(items[..|items| - 1]) + {last.ref};
      Merged(existing, items[..|items| - 1])[last.ref := last.evidence]
  }

  // ----- What a statement earns -----

  function DetermineState(kind: ClaimType, scope: ScopeKind, explicitSignal: bool, signals: nat, supporting: bool,
                          deterministic: bool, workspaces: nat): (Status, real)
  {
    match kind
    case Decision =>
      if signals >= 2 || (explicitSignal && supporting) then (Accepted, 0.9) else (Candidate, 0.68)
    case OpenLoop =>
      if signals >= 2 then (Accepted, 0.94)
      else if explicitSignal && supporting then (Accepted, 0.86)
      else (Candidate, 0.72)
    case Preference =>
      if scope == UserGlobal then
        if workspaces >= 2 then (Accepted, 0.84) else (Candidate, 0.58)
      else if signals >= 2 then (Accepted, 0.9)
      else if explicitSignal && supporting then (Accepted, 0.82)
      else (Candidate, 0.64)
    case Risk =>
      if signals >= 2 || (explicitSignal && deterministic) then (Accepted, if signals > 1 then 0.9 else 0.84)
      else (Candidate, 0.6)
    case OtherType(_) => (Candidate, 0.45)
  }

  function StrengthOf(status: Status, explicitSignal: bool, supporting: bool, deterministic: bool, signals: nat): int {
    (if status == Accepted then 100 else 0) + (if explicitSignal then 12 else 0) + (if supporting then 10 else 0)
    + (if deterministic then 10 else 0) + 8 * (if signals < 4 then signals else 4)
  }

  function Strength(claim: Claim): int {
    StrengthOf(claim.status, claim.quality.explicitSignal, claim.quality.supporting, claim.quality.deterministic,
               claim.quality.signals)
  }

  // ----- Storing a statement -----

  datatype Statement = Statement(
    kind: ClaimType, scope: Scope, text: string, detail: string, evidence: seq<EvidenceItem>, explicitSignal: bool)

  /** The last listed claim of the same key. */
  function Aligned(existing: seq<Record>, text: string, rules: Rules): (found: Option<Record>)
    ensures found.Some? ==> found.value in existing && rules.key(found.value.claim.statement) == rules.key(text)
    ensures found.None? ==> forall r | r in existing :: rules.key(r.claim.statement) != rules.key(text)
  {
    if existing == [] then None
    else
      var last := existing[|existing| - 1];
      if rules.key(last.claim.statement) == rules.key(text) then Some(last)
      else Aligned(existing[..|existing| - 1], text, rules)
  }

  predicate IsRival(claim: Claim, s: Statement, rules: Rules) {
    && rules.key(claim.statement) != rules.key(s.text)
    && claim.scope == s.scope && rules.conflict(rules.key(claim.statement), rules.key(s.text))
  }

  function Conflicting(existing: seq<Record>, s: Statement, rules: Rules): (records: seq<Record>)
    ensures forall r :: r in records <==> r in existing && IsRival(r.claim, s, rules)
  {
    if existing == [] then []
    else
      var last := existing[|existing| - 1];
      var before := Conflicting(existing[..|existing| - 1], s, rules);
      if IsRival(last.claim, s, rules) then before + [last] else before
  }

  datatype Contest = Contest(status: Status, confidence: real, superseded: seq<Record>, unresolved: seq<Id>)

  function MinReal(a: real, b: real): real { if a < b then a else b }

  /** One more conflicting claim: it is to be superseded, or it demotes the incoming one. */
  function Meet(c: Contest, rival: Record, strength: int): Contest {
    if c.status == Accepted && (rival.claim.status != Accepted || strength >= Strength(rival.claim)) then
      c.(superseded := c.superseded + [rival])
    else
      c.(status := Candidate, confidence := MinReal(c.confidence, 0.67), unresolved := c.unresolved + [rival.id])
  }

  function Contested(rivals: seq<Record>, strength: int, status: Status, confidence: real): Contest {
    if rivals == [] then Contest(status, confidence, [], [])
    else Meet(Contested(rivals[..|rivals| - 1], strength, status, confidence), rivals[|rivals| - 1], strength)
  }

  datatype Assessment = Assessment(
    aligned: Option<Record>, signals: nat, supporting: bool, deterministic: bool,
    evidence: map<EvidenceRef, Evidence>, contest: Contest)

  function Assess(existing: seq<Record>, s: Statement, workspaces: nat, rules: Rules): Assessment {
    var aligned := Aligned(existing, s.text, rules);
    var signals := (if aligned.Some? then aligned.value.claim.quality.signals else 0) + 1;
    var (supporting, deterministic) := (HasSupporting(s.evidence), HasStrong(s.evidence));
    var (status, confidence) :=
      DetermineState(s.kind, s.scope.kind, s.explicitSignal, signals, supporting, deterministic, workspaces);
    var strength := StrengthOf(status, s.explicitSignal, supporting, deterministic, signals);
    Assessment(aligned, signals, supporting, deterministic,
               Merged(if aligned.Some? then aligned.value.claim.evidence else map[], s.evidence),
               Contested(Conflicting(existing, s, rules), strength, status, confidence))
  }

  function ClaimFrom(s: Statement, a: Assessment, workspaces: nat, rules: Rules, createdAt: Time, now: Time): Claim {
    Claim(s.kind, s.scope, rules.subject(s.kind, s.text), a.contest.status, a.contest.confidence, s.text, s.detail,
          Quality(a.signals, s.explicitSignal, a.supporting, a.deterministic, workspaces, a.contest.unresolved, None),
          a.evidence, createdAt, now)
  }

  /** Insert, or update keeping the creation time. */
  function Written(claims: Claims, id: Id, claim: Claim): Claims {
    claims[id := if id in claims then claim.(createdAt := claims[id].createdAt) else claim]
  }

  function SupersededClaim(claim: Claim, successor: string, now: Time): Claim {
    claim.(status := Superseded, confidence := MinReal(claim.confidence, 0.7),
           quality := claim.quality.(supersededBy := Some(successor)), updatedAt := now)
  }

  /** Superseding writes back the record as it was listed. */
  function SupersedeAll(claims: Claims, records: seq<Record>, successor: string, clock: nat -> Time): Claims {
    if records == [] then claims
    else
      var n := |records| - 1;
      Written(SupersedeAll(claims, records[..n], successor, clock), records[n].id,
              SupersededClaim(records[n].claim, successor, clock(n)))
  }

  datatype Outcome = Outcome(claims: Claims, id: Id, assessment: Assessment)

  /** `start` is the reading at the first write, `clock(i)` the one at the `i`-th supersession. */
  function UpsertStatement(claims: Claims, existing: seq<Record>, s: Statement, workspaces: nat, newId: Id, start: Time,
                           clock: nat -> Time, rules: Rules): Outcome
  {
    var a := Assess(existing, s, workspaces, rules);
    var id := if a.aligned.Some? then a.aligned.value.id else newId;
    var claim := ClaimFrom(s, a, workspaces, rules, start, start);
    Outcome(SupersedeAll(Written(claims, id, claim), a.contest.superseded, id.text, clock), id, a)
  }

  /** In how many workspaces a preference of this key is listed. */
  function WorkspacesWith(existing: seq<Record>, key: Key, rules: Rules): set<ScopeKey> {
    set r | r in existing && rules.key(r.claim.statement) == key :: r.claim.scope.key
  }

  function WorkspaceCount(claims: Claims, s: Statement, listed: seq<Id>, rules: Rules): nat
    requires forall i | 0 <= i < |listed| :: listed[i] in claims
  {
    if s.kind == Preference && s.scope.kind == UserGlobal then
      |WorkspacesWith(RecordsOf(claims, listed, Preference, {Candidate, Accepted}), rules.key(s.text), rules)|
    else 1
  }

  const ALL_STATUSES: set<Status> := {Candidate, Accepted, Superseded}

  // ----- The store -----

  class MemoryStore {
    var claims: Claims

    constructor ()
      ensures claims == map[]
    {
      claims := map[];
    }

    /** Stands for the database engine; callers rely on the contract alone. */
    method SelectRecent(kind: Option<ScopeKind>, key: Option<ScopeKey>, limit: nat) returns (listed: seq<Id>)
      ensures IsListing(claims, kind, key, limit, listed)
    {
      var matching := Matching(claims, kind, key);
      var left := matching;
      var sorted: seq<Id> := [];
      while left != {}
        invariant left <= matching && forall x :: x in sorted <==> x in matching && x !in left
        invariant forall i | 0 <= i < |sorted| :: sorted[i] in claims
        invariant Distinct(sorted) && MostRecentFirst(claims, sorted)
        decreases left
      {
        var id :| id in left;
        sorted := InsertRecent(claims, sorted, id);
        left := left - {id};
      }
      DistinctCount(sorted, matching);
      listed := sorted[..if limit < |sorted| then limit else |sorted|];
      FirstOnesAreRecent(claims, kind, key, limit, sorted);
    }

    method ListMemoryClaims(scopeKind: Option<ScopeKind>, key: Option<ScopeKey>, kind: ClaimType, statuses: set<Status>,
                            limit: nat)
      returns (records: seq<Record>, listed: seq<Id>)
      ensures IsListing(claims, scopeKind, key, limit, listed)
      ensures records == RecordsOf(claims, listed, kind, statuses)
    {
      var rows := SelectRecent(scopeKind, key, limit);
      listed := rows;
      records := [];
      for i := 0 to |rows|
        invariant records == RecordsOf(claims, rows[..i], kind, statuses)
      {
        assert rows[..i + 1][..i] == rows[..i];
        var claim := claims[rows[i]];
        if claim.status !in statuses {
          continue;
        }
        if claim.kind != kind {
          continue;
        }
        records := records + [Record(rows[i], claim)];
      }
      assert rows[..|rows|] == rows;
    }

    method UpsertMemoryClaim(id: Id, claim: Claim) returns (stored: Record)
      modifies this
      ensures claims == Written(old(claims), id, claim)
      ensures stored == Record(id, claims[id])
    {
      if id in claims {
        claims := claims[id := claim.(createdAt := claims[id].createdAt)];
      } else {
        claims := claims[id := claim];
      }
      stored := Record(id, claims[id]);
    }
  }

  method InsertRecent(claims: Claims, ids: seq<Id>, id: Id) returns (r: seq<Id>)
    requires id in claims && (forall i | 0 <= i < |ids| :: ids[i] in claims) && id !in ids
    requires Distinct(ids) && MostRecentFirst(claims, ids)
    ensures forall x :: x in r <==> x == id || x in ids
    ensures forall i | 0 <= i < |r| :: r[i] in claims
    ensures Distinct(r) && MostRecentFirst(claims, r)
  {
    var k := 0;
    while k < |ids| && !MoreRecent(claims[id], claims[ids[k]])
      invariant k <= |ids|
      invariant forall i | 0 <= i < k :: !MoreRecent(claims[id], claims[ids[i]])
    {
      k := k + 1;
    }
    r := InsertedAt(ids, id, k);
    InsertedMembers(ids, id, k);
    InsertedInOrder(claims, ids, id, k);
  }

  lemma InsertedInOrder(claims: Claims, ids: seq<Id>, id: Id, k: nat)
    requires k <= |ids| && id in claims && (forall i | 0 <= i < |ids| :: ids[i] in claims) && id !in ids
    requires Distinct(ids) && MostRecentFirst(claims, ids)
    requires forall i | 0 <= i < k :: !MoreRecent(claims[id], claims[ids[i]])
    requires k < |ids| ==> MoreRecent(claims[id], claims[ids[k]])
    ensures var r := InsertedAt(ids, id, k);
            (forall i | 0 <= i < |r| :: r[i] in claims) && Distinct(r) && MostRecentFirst(claims, r)
  {
    InsertedDistinct(ids, id, k);
  }

  lemma FirstOnesAreRecent(claims: Claims, kind: Option<ScopeKind>, key: Option<ScopeKey>, limit: nat, sorted: seq<Id>)
    requires forall x :: x in sorted <==> x in Matching(claims, kind, key)
    requires forall i | 0 <= i < |sorted| :: sorted[i] in claims
    requires Distinct(sorted) && MostRecentFirst(claims, sorted) && |sorted| == |Matching(claims, kind, key)|
    ensures IsListing(claims, kind, key, limit, sorted[..if limit < |sorted| then limit else |sorted|])
  {
    var n := if limit < |sorted| then limit else |sorted|;
    var listed := sorted[..n];
    forall i | 0 <= i < |listed| ensures listed[i] in Matching(claims, kind, key) {
      assert sorted[i] in sorted;
    }
    forall id, i | id in Matching(claims, kind, key) && id !in listed && 0 <= i < |listed|
      ensures !MoreRecent(claims[id], claims[listed[i]])
    {
      assert sorted == listed + sorted[n..];
      var k :| 0 <= k < |sorted[n..]| && sorted[n..][k] == id;
      assert sorted[n + k] == id;
    }
  }
}
