/** What storing, superseding and resolving keep while no scope holds more claims than one listing shows. */
module MemoryConsistency {
  import opened Prelude
  import opened Selections
  import opened MemoryClaims
  import opened Cognition

  // ----- Listings of small scopes are complete -----

  function ScopeClaims(claims: Claims, scope: Scope): set<Id> { Matching(claims, Some(scope.kind), Some(scope.key)) }

  lemma {:induction false} DistinctSubsetIsAll(ids: seq<Id>, all: set<Id>)
    requires Distinct(ids) && (forall i | 0 <= i < |ids| :: ids[i] in all) && |ids| >= |all|
    ensures forall id | id in all :: id in ids
  {
    if ids != [] {
      var n := |ids| - 1;
      assert ids[n] in all;
      forall i | 0 <= i < n ensures ids[..n][i] in all - {ids[n]} {
        assert ids[i] != ids[n];
      }
      DistinctSubsetIsAll(ids[..n], all - {ids[n]});
      forall id | id in all ensures id in ids {
        if id != ids[n] {
          assert id in ids[..n];
        }
      }
    }
  }

  lemma SmallScopeIsListed(claims: Claims, scope: Scope, listed: seq<Id>)
    requires IsListing(claims, Some(scope.kind), Some(scope.key), CLAIM_LIMIT, listed)
    requires |ScopeClaims(claims, scope)| <= CLAIM_LIMIT
    ensures forall id :: id in listed <==> id in claims && claims[id].scope == scope
  {
    var all := ScopeClaims(claims, scope);
    DistinctSubsetIsAll(listed, all);
    forall id ensures id in listed <==> id in all {
      if id in listed {
        var i :| 0 <= i < |listed| && listed[i] == id;
      }
    }
  }

  // ----- What the writes change -----

  predicate Listed(claims: Claims, records: seq<Record>) {
    forall r | r in records :: r.id in claims && claims[r.id] == r.claim
  }

  predicate Named(records: seq<Record>, id: Id) { exists i :: 0 <= i < |records| && records[i].id == id }

  /** Superseding touches the named claims only, and of those the status and what goes with it. */
  predicate SupersedesOnly(claims: Claims, after: Claims, records: seq<Record>) {
    && after.Keys == claims.Keys
    && forall id | id in claims ::
         if Named(records, id) then
           after[id].status == Superseded && SameSubstance(claims[id], after[id])
         else after[id] == claims[id]
  }

  /** Everything but status, confidence, the note of what superseded it and the time of the change. */
  predicate SameSubstance(a: Claim, b: Claim) {
    && b.kind == a.kind && b.scope == a.scope && b.statement == a.statement && b.evidence == a.evidence
    && b.subject == a.subject && b.detail == a.detail && b.createdAt == a.createdAt
    && b.quality == a.quality.(supersededBy := b.quality.supersededBy)
  }

  lemma {:induction false} SupersedeAllTouchesNamed(claims: Claims, records: seq<Record>, successor: string, clock: nat -> Time)
    requires Listed(claims, records)
    ensures SupersedesOnly(claims, SupersedeAll(claims, records, successor, clock), records)
  {
    if records != [] {
      var n := |records| - 1;
      var before := SupersedeAll(claims, records[..n], successor, clock);
      assert records[n] in records && forall r | r in records[..n] :: r in records;
      SupersedeAllTouchesNamed(claims, records[..n], successor, clock);
      forall id ensures Named(records, id) <==> Named(records[..n], id) || records[n].id == id {
        NamedSnoc(records[..n], records[n], id);
        assert records[..n] + [records[n]] == records;
      }
      OneMoreSuperseded(claims, before, records, successor, clock(n));
    }
  }

  lemma NamedSnoc(records: seq<Record>, last: Record, id: Id)
    ensures Named(records + [last], id) <==> Named(records, id) || last.id == id
  {
    var longer := records + [last];
    assert longer[|records|] == last;
    assert forall i | 0 <= i < |records| :: longer[i] == records[i];
  }

  lemma OneMoreSuperseded(claims: Claims, before: Claims, records: seq<Record>, successor: string, now: Time)
    requires Listed(claims, records) && records != []
    requires SupersedesOnly(claims, before, records[..|records| - 1])
    requires forall id :: Named(records, id) <==> Named(records[..|records| - 1], id) || records[|records| - 1].id == id
    ensures var last := records[|records| - 1];
            SupersedesOnly(claims, Written(before, last.id, SupersededClaim(last.claim, successor, now)), records)
  {
    assert records[|records| - 1] in records;
  }

  // ----- The contest -----

  /** Every rival was either superseded or left unresolved; the incoming claim stays accepted just when none is left. */
  predicate Decides(c: Contest, rivals: seq<Record>, strength: int, status: Status) {
    && (c.status == Accepted ==> status == Accepted && c.unresolved == [] && c.superseded == rivals)
    && (status == Accepted && c.unresolved == [] ==> c.status == Accepted)
    && (forall r | r in c.superseded :: r in rivals && (r.claim.status == Accepted ==> strength >= Strength(r.claim)))
    && |c.superseded| + |c.unresolved| == |rivals|
  }

  lemma MeetDecides(c: Contest, rivals: seq<Record>, rival: Record, strength: int, status: Status)
    requires Decides(c, rivals, strength, status)
    ensures Decides(Meet(c, rival, strength), rivals + [rival], strength, status)
  {
  }

  lemma {:induction false} ContestDecides(rivals: seq<Record>, strength: int, status: Status, confidence: real)
    ensures Decides(Contested(rivals, strength, status, confidence), rivals, strength, status)
  {
    if rivals != [] {
      var n := |rivals| - 1;
      ContestDecides(rivals[..n], strength, status, confidence);
      MeetDecides(Contested(rivals[..n], strength, status, confidence), rivals[..n], rivals[n], strength, status);
      assert rivals == rivals[..n] + [rivals[n]];
    }
  }

  predicate Unbeaten(rivals: seq<Record>, strength: int) {
    forall r | r in rivals && r.claim.status == Accepted :: strength >= Strength(r.claim)
  }

  /** The contest leaves the incoming claim accepted exactly when it entered accepted and no rival beats it. */
  lemma {:induction false} ContestWonExactly(rivals: seq<Record>, strength: int, status: Status, confidence: real)
    ensures Contested(rivals, strength, status, confidence).status == Accepted <==>
            status == Accepted && Unbeaten(rivals, strength)
  {
    if rivals != [] {
      var n := |rivals| - 1;
      ContestWonExactly(rivals[..n], strength, status, confidence);
      assert forall r :: r in rivals <==> r in rivals[..n] || r == rivals[n];
    }
  }

  // ----- Consistency -----

  predicate Comparable(a: Claim, b: Claim) { a.kind == b.kind && a.scope == b.scope }

  predicate Clash(a: Claim, b: Claim, rules: Rules) {
    && a.status == Accepted && b.status == Accepted && Comparable(a, b)
    && rules.conflict(rules.key(a.statement), rules.key(b.statement))
  }

  /** No two accepted claims of one type and scope conflict. */
  ghost predicate Consistent(claims: Claims, rules: Rules) {
    forall a, b | a in claims && b in claims :: !Clash(claims[a], claims[b], rules)
  }

  lemma SupersedingKeepsConsistent(claims: Claims, after: Claims, records: seq<Record>, rules: Rules)
    requires Consistent(claims, rules) && SupersedesOnly(claims, after, records)
    ensures Consistent(after, rules)
  {
    forall a, b | a in after && b in after ensures !Clash(after[a], after[b], rules) {
      assert !Clash(claims[a], claims[b], rules);
    }
  }

  /** An accepted claim of the statement's type and scope that contradicts it. */
  predicate Contradicts(claim: Claim, s: Statement, rules: Rules) {
    && claim.kind == s.kind && claim.scope == s.scope && claim.status == Accepted
    && rules.conflict(rules.key(claim.statement), rules.key(s.text))
  }

  ghost predicate AllListed(claims: Claims, listed: seq<Id>, s: Statement, rules: Rules) {
    forall id | id in claims && Contradicts(claims[id], s, rules) :: id in listed
  }

  /** One call of `upsert_memory_statement`, with what its queries answered. */
  datatype Call = Call(
    s: Statement, listed: seq<Id>, workspaces: seq<Id>, newId: Id, start: Time, clock: nat -> Time)

  /** New claims get new ids; the listing is one the store may give. */
  predicate Possible(claims: Claims, call: Call) {
    && IsListing(claims, Some(call.s.scope.kind), Some(call.s.scope.key), CLAIM_LIMIT, call.listed)
    && (call.s.kind == Preference && call.s.scope.kind == UserGlobal ==>
          IsListing(claims, Some(Workspace), None, WORKSPACE_LIMIT, call.workspaces))
    && (forall i | 0 <= i < |call.workspaces| :: call.workspaces[i] in claims)
    && call.newId !in claims
  }

  function Stored(claims: Claims, call: Call, rules: Rules): Outcome
    requires Possible(claims, call)
  {
    UpsertStatement(claims, RecordsOf(claims, call.listed, call.s.kind, ALL_STATUSES), call.s,
                    WorkspaceCount(claims, call.s, call.workspaces, rules), call.newId, call.start, call.clock, rules)
  }

  /** The stored claim, and every other claim as it was or superseded by the contest. */
  predicate StoresOne(claims: Claims, s: Statement, o: Outcome, rules: Rules) {
    var written := o.claims;
    && o.id in written && written.Keys == claims.Keys + {o.id}
    && written[o.id].kind == s.kind && written[o.id].scope == s.scope && written[o.id].statement == s.text
    && written[o.id].status == o.assessment.contest.status && written[o.id].quality.signals == o.assessment.signals
    && written[o.id].evidence == o.assessment.evidence
    && forall id | id in claims && id != o.id ::
         if Named(o.assessment.contest.superseded, id) then
           written[id].status == Superseded && SameSubstance(claims[id], written[id])
         else written[id] == claims[id]
  }

  /** How often the statement will have been stored, by what the listing shows. */
  function Signals(claims: Claims, call: Call, rules: Rules): nat
    requires Possible(claims, call)
  {
    var aligned := Aligned(RecordsOf(claims, call.listed, call.s.kind, ALL_STATUSES), call.s.text, rules);
    (if aligned.Some? then aligned.value.claim.quality.signals else 0) + 1
  }

  /** What the statement would be before any conflict is looked at, and its strength. */
  function Earned(claims: Claims, call: Call, rules: Rules): (Status, real)
    requires Possible(claims, call)
  {
    DetermineState(call.s.kind, call.s.scope.kind, call.s.explicitSignal, Signals(claims, call, rules),
                   HasSupporting(call.s.evidence), HasStrong(call.s.evidence),
                   WorkspaceCount(claims, call.s, call.workspaces, rules))
  }

  function IncomingStrength(claims: Claims, call: Call, rules: Rules): int
    requires Possible(claims, call)
  {
    StrengthOf(Earned(claims, call, rules).0, call.s.explicitSignal, HasSupporting(call.s.evidence),
               HasStrong(call.s.evidence), Signals(claims, call, rules))
  }

  /** The incoming claim is accepted: it has earned that, and no accepted claim shown to it is both in conflict with it
      and stronger. All of this is known before anything is written. */
  ghost predicate Wins(claims: Claims, call: Call, rules: Rules)
    requires Possible(claims, call)
  {
    Earned(claims, call, rules).0 == Accepted && Unbeaten(Rivals(claims, call, rules), IncomingStrength(claims, call, rules))
  }

  lemma EveryStatusListed()
    ensures forall status: Status :: status in ALL_STATUSES
  {
    forall status: Status ensures status in ALL_STATUSES {
      assert status == Candidate || status == Accepted || status == Superseded;
    }
  }

  function Rivals(claims: Claims, call: Call, rules: Rules): (records: seq<Record>)
    requires Possible(claims, call)
    ensures forall r :: r in records <==>
              && r.id in call.listed && r.claim == claims[r.id] && r.claim.kind == call.s.kind
              && IsRival(r.claim, call.s, rules)
  {
    EveryStatusListed();
    Conflicting(RecordsOf(claims, call.listed, call.s.kind, ALL_STATUSES), call.s, rules)
  }

  lemma ContestOf(claims: Claims, call: Call, rules: Rules)
    requires Possible(claims, call)
    ensures Stored(claims, call, rules).assessment.contest ==
            Contested(Rivals(claims, call, rules), IncomingStrength(claims, call, rules), Earned(claims, call, rules).0,
                      Earned(claims, call, rules).1)
  {
  }

  lemma ContestOutcome(claims: Claims, call: Call, rules: Rules)
    requires Possible(claims, call)
    ensures var o := Stored(claims, call, rules);
            var c := o.assessment.contest;
            && (c.status == Accepted <==> Earned(claims, call, rules).0 == Accepted && c.unresolved == [])
            && (c.status == Accepted ==> c.superseded == Rivals(claims, call, rules))
            && forall r | r in c.superseded ::
                 && r in Rivals(claims, call, rules) && r.id != o.id
                 && (r.claim.status == Accepted ==> IncomingStrength(claims, call, rules) >= Strength(r.claim))
  {
    ContestOf(claims, call, rules);
    ContestDecides(Rivals(claims, call, rules), IncomingStrength(claims, call, rules), Earned(claims, call, rules).0,
                   Earned(claims, call, rules).1);
  }

  lemma StoreWritesOne(claims: Claims, call: Call, rules: Rules)
    requires Possible(claims, call)
    ensures StoresOne(claims, call.s, Stored(claims, call, rules), rules)
  {
    var o := Stored(claims, call, rules);
    var a := o.assessment;
    var written := Written(claims, o.id, ClaimFrom(call.s, a, WorkspaceCount(claims, call.s, call.workspaces, rules), rules,
                                                   call.start, call.start));
    ContestOutcome(claims, call, rules);
    assert Listed(written, a.contest.superseded);
    SupersedeAllTouchesNamed(written, a.contest.superseded, o.id.text, call.clock);
    assert !Named(a.contest.superseded, o.id);
  }

  lemma NamedRecord(records: seq<Record>, id: Id) returns (r: Record)
    requires Named(records, id)
    ensures r in records && r.id == id
  {
    var i :| 0 <= i < |records| && records[i].id == id;
    r := records[i];
  }

  /** A claim other than the stored one that is still accepted afterwards was accepted before and is unchanged. */
  lemma StillAccepted(claims: Claims, call: Call, rules: Rules, id: Id)
    requires Possible(claims, call)
    requires var o := Stored(claims, call, rules); id in o.claims && id != o.id && o.claims[id].status == Accepted
    ensures id in claims && claims[id] == Stored(claims, call, rules).claims[id]
    ensures !Named(Stored(claims, call, rules).assessment.contest.superseded, id)
  {
    StoreWritesOne(claims, call, rules);
  }

  lemma ListedRivalIsNamed(claims: Claims, call: Call, rules: Rules, id: Id)
    requires Possible(claims, call) && Lawful(rules)
    requires id in call.listed && id in claims && Contradicts(claims[id], call.s, rules)
    requires Stored(claims, call, rules).assessment.contest.status == Accepted
    ensures Named(Stored(claims, call, rules).assessment.contest.superseded, id)
  {
    var rivals := Rivals(claims, call, rules);
    ContestOutcome(claims, call, rules);
    assert Record(id, claims[id]) in rivals;
    var i :| 0 <= i < |rivals| && rivals[i] == Record(id, claims[id]);
  }

  lemma NamedIsListed(claims: Claims, call: Call, rules: Rules, id: Id)
    requires Possible(claims, call)
    requires Named(Stored(claims, call, rules).assessment.contest.superseded, id)
    ensures id in call.listed && id != Stored(claims, call, rules).id
  {
    ContestOutcome(claims, call, rules);
    var r := NamedRecord(Stored(claims, call, rules).assessment.contest.superseded, id);
  }

  /** After an accepting store no accepted listed claim contradicts the statement. */
  lemma AcceptedHasNoListedRival(claims: Claims, call: Call, rules: Rules, id: Id)
    requires Possible(claims, call) && Lawful(rules)
    requires var o := Stored(claims, call, rules);
             && o.id in o.claims && o.claims[o.id].status == Accepted
             && id in o.claims && id != o.id && Contradicts(o.claims[id], call.s, rules)
    ensures id in claims && Contradicts(claims[id], call.s, rules) && id !in call.listed
  {
    StillAccepted(claims, call, rules, id);
    StoreWritesOne(claims, call, rules);
    ContestOutcome(claims, call, rules);
    if id in call.listed {
      ListedRivalIsNamed(claims, call, rules, id);
    }
  }

  lemma ClashWithStored(claims: Claims, call: Call, rules: Rules, id: Id)
    requires Possible(claims, call) && Lawful(rules)
    requires var o := Stored(claims, call, rules); o.id in o.claims && id in o.claims
    ensures var o := Stored(claims, call, rules);
            (Clash(o.claims[o.id], o.claims[id], rules) || Clash(o.claims[id], o.claims[o.id], rules)) <==>
            o.claims[o.id].status == Accepted && id != o.id && Contradicts(o.claims[id], call.s, rules)
  {
    StoreWritesOne(claims, call, rules);
  }

  lemma ClashesInvolveStored(claims: Claims, call: Call, rules: Rules, a: Id, b: Id)
    requires Possible(claims, call) && Consistent(claims, rules)
    requires var o := Stored(claims, call, rules);
             a in o.claims && b in o.claims && a != o.id && b != o.id
    ensures !Clash(Stored(claims, call, rules).claims[a], Stored(claims, call, rules).claims[b], rules)
  {
    var o := Stored(claims, call, rules);
    if o.claims[a].status == Accepted && o.claims[b].status == Accepted {
      StillAccepted(claims, call, rules, a);
      StillAccepted(claims, call, rules, b);
      assert !Clash(claims[a], claims[b], rules);
    }
  }

  lemma StoredAcceptedExactly(claims: Claims, call: Call, rules: Rules)
    requires Possible(claims, call)
    ensures var o := Stored(claims, call, rules);
            o.id in o.claims && (o.claims[o.id].status == Accepted <==> Wins(claims, call, rules))
  {
    StoredStatus(claims, call, rules);
    ContestOf(claims, call, rules);
    ContestWonExactly(Rivals(claims, call, rules), IncomingStrength(claims, call, rules), Earned(claims, call, rules).0,
                      Earned(claims, call, rules).1);
  }

  /** Exactly when a store leaves the claims consistent, in terms of what stood before it: a statement that wins must
      have been shown every accepted claim it contradicts. */
  lemma StoreConsistentExactly(claims: Claims, call: Call, rules: Rules)
    requires Possible(claims, call) && Lawful(rules) && Consistent(claims, rules)
    ensures Consistent(Stored(claims, call, rules).claims, rules) <==>
            (Wins(claims, call, rules) ==> AllListed(claims, call.listed, call.s, rules))
  {
    var o := Stored(claims, call, rules);
    StoreWritesOne(claims, call, rules);
    StoredAcceptedExactly(claims, call, rules);
    if o.claims[o.id].status == Accepted && !AllListed(claims, call.listed, call.s, rules) {
      var id :| id in claims && Contradicts(claims[id], call.s, rules) && id !in call.listed;
      UnlistedStays(claims, call, rules, id);
      ClashWithStored(claims, call, rules, id);
    } else {
      forall a, b | a in o.claims && b in o.claims ensures !Clash(o.claims[a], o.claims[b], rules) {
        NoClashAfter(claims, call, rules, a, b);
      }
    }
  }

  lemma UnlistedStays(claims: Claims, call: Call, rules: Rules, id: Id)
    requires Possible(claims, call) && Lawful(rules)
    requires id in claims && id !in call.listed
    ensures var o := Stored(claims, call, rules); id != o.id && id in o.claims && o.claims[id] == claims[id]
  {
    var o := Stored(claims, call, rules);
    StoreWritesOne(claims, call, rules);
    ContestOutcome(claims, call, rules);
    if Named(o.assessment.contest.superseded, id) {
      NamedIsListed(claims, call, rules, id);
    }
  }

  lemma NoClashAfter(claims: Claims, call: Call, rules: Rules, a: Id, b: Id)
    requires Possible(claims, call) && Lawful(rules) && Consistent(claims, rules)
    requires var o := Stored(claims, call, rules);
             && a in o.claims && b in o.claims && o.id in o.claims
             && (o.claims[o.id].status == Accepted ==> AllListed(claims, call.listed, call.s, rules))
    ensures !Clash(Stored(claims, call, rules).claims[a], Stored(claims, call, rules).claims[b], rules)
  {
    var o := Stored(claims, call, rules);
    if a != o.id && b != o.id {
      ClashesInvolveStored(claims, call, rules, a, b);
    } else {
      var other := if a == o.id then b else a;
      ClashWithStored(claims, call, rules, other);
      if o.claims[o.id].status == Accepted && other != o.id && Contradicts(o.claims[other], call.s, rules) {
        AcceptedHasNoListedRival(claims, call, rules, other);
      }
    }
  }

  /** An accepted claim is displaced by another store only if it contradicts it and is no stronger. */
  lemma DisplacedOnlyByStrength(claims: Claims, call: Call, rules: Rules, id: Id)
    requires Possible(claims, call) && id in claims && claims[id].status == Accepted
    requires var o := Stored(claims, call, rules);
             id != o.id && (id !in o.claims || o.claims[id].status != Accepted)
    ensures Contradicts(claims[id], call.s, rules) && Earned(claims, call, rules).0 == Accepted
            && IncomingStrength(claims, call, rules) >= Strength(claims[id])
  {
    var o := Stored(claims, call, rules);
    StoreWritesOne(claims, call, rules);
    ContestOutcome(claims, call, rules);
    var r := NamedRecord(o.assessment.contest.superseded, id);
    assert r in Rivals(claims, call, rules);
    SupersedingNeedsAccepted(Rivals(claims, call, rules), IncomingStrength(claims, call, rules),
                             Earned(claims, call, rules).0, Earned(claims, call, rules).1);
    ContestOf(claims, call, rules);
  }

  lemma {:induction false} SupersedingNeedsAccepted(rivals: seq<Record>, strength: int, status: Status, confidence: real)
    ensures var c := Contested(rivals, strength, status, confidence);
            (c.superseded != [] ==> status == Accepted) && (c.status == Accepted ==> status == Accepted)
  {
    if rivals != [] {
      SupersedingNeedsAccepted(rivals[..|rivals| - 1], strength, status, confidence);
    }
  }

  // ----- History -----

  predicate IsFor(claim: Claim, kind: ClaimType, scope: Scope, key: Key, rules: Rules) {
    claim.kind == kind && claim.scope == scope && rules.key(claim.statement) == key
  }

  predicate Tells(s: Statement, kind: ClaimType, scope: Scope, key: Key, rules: Rules) {
    s.kind == kind && s.scope == scope && rules.key(s.text) == key
  }

  /** How often a statement was stored, and the evidence supplied with it. */
  function TimesStored(history: seq<Statement>, kind: ClaimType, scope: Scope, key: Key, rules: Rules): nat {
    if history == [] then 0
    else
      TimesStored(history[..|history| - 1], kind, scope, key, rules) +
      if Tells(history[|history| - 1], kind, scope, key, rules) then 1 else 0
  }

  function Supplied(history: seq<Statement>, kind: ClaimType, scope: Scope, key: Key, rules: Rules): set<EvidenceRef> {
    if history == [] then {}
    else
      Supplied(history[..|history| - 1], kind, scope, key, rules) +
      if Tells(history[|history| - 1], kind, scope, key, rules) then RefsOf(history[|history| - 1].evidence) else {}
  }

  ghost predicate OneClaimPerKey(claims: Claims, rules: Rules) {
    forall a, b | a in claims && b in claims && Comparable(claims[a], claims[b])
                  && rules.key(claims[a].statement) == rules.key(claims[b].statement) :: a == b
  }

  predicate Accounts(claim: Claim, history: seq<Statement>, rules: Rules) {
    var key := rules.key(claim.statement);
    && claim.quality.signals == TimesStored(history, claim.kind, claim.scope, key, rules)
    && claim.quality.signals >= 1
    && claim.evidence.Keys == Supplied(history, claim.kind, claim.scope, key, rules)
  }

  ghost predicate HasClaim(claims: Claims, s: Statement, rules: Rules) {
    exists id :: id in claims && IsFor(claims[id], s.kind, s.scope, rules.key(s.text), rules)
  }

  /** One claim per type, scope and key; its signals are the number of stores; its evidence is all that was supplied. */
  ghost predicate Conserved(claims: Claims, history: seq<Statement>, rules: Rules) {
    && OneClaimPerKey(claims, rules)
    && (forall id | id in claims :: Accounts(claims[id], history, rules))
    && forall i | 0 <= i < |history| :: HasClaim(claims, history[i], rules)
  }

  lemma HistorySnoc(history: seq<Statement>, s: Statement, kind: ClaimType, scope: Scope, key: Key, rules: Rules)
    ensures TimesStored(history + [s], kind, scope, key, rules) ==
            TimesStored(history, kind, scope, key, rules) + if Tells(s, kind, scope, key, rules) then 1 else 0
    ensures Supplied(history + [s], kind, scope, key, rules) ==
            Supplied(history, kind, scope, key, rules) + if Tells(s, kind, scope, key, rules) then RefsOf(s.evidence) else {}
  {
    assert (history + [s])[..|history|] == history;
  }

  lemma {:induction false} NeverStored(history: seq<Statement>, kind: ClaimType, scope: Scope, key: Key, rules: Rules)
    requires forall i | 0 <= i < |history| :: !Tells(history[i], kind, scope, key, rules)
    ensures TimesStored(history, kind, scope, key, rules) == 0 && Supplied(history, kind, scope, key, rules) == {}
  {
    if history != [] {
      NeverStored(history[..|history| - 1], kind, scope, key, rules);
    }
  }

  /** In a small scope the listing shows the claim of the statement's key, if there is one. */
  lemma AlignsExactly(claims: Claims, call: Call, rules: Rules)
    requires Possible(claims, call) && OneClaimPerKey(claims, rules)
    requires |ScopeClaims(claims, call.s.scope)| <= CLAIM_LIMIT
    ensures var o := Stored(claims, call, rules);
            if HasClaim(claims, call.s, rules) then
              && o.id in claims && IsFor(claims[o.id], call.s.kind, call.s.scope, rules.key(call.s.text), rules)
              && o.assessment.signals == claims[o.id].quality.signals + 1
              && o.assessment.evidence.Keys == claims[o.id].evidence.Keys + RefsOf(call.s.evidence)
            else
              && o.id == call.newId && o.assessment.signals == 1
              && o.assessment.evidence.Keys == RefsOf(call.s.evidence)
  {
    SmallScopeIsListed(claims, call.s.scope, call.listed);
    EveryStatusListed();
    var existing := RecordsOf(claims, call.listed, call.s.kind, ALL_STATUSES);
    var aligned := Aligned(existing, call.s.text, rules);
    if HasClaim(claims, call.s, rules) {
      var id :| id in claims && IsFor(claims[id], call.s.kind, call.s.scope, rules.key(call.s.text), rules);
      assert Record(id, claims[id]) in existing;
    } else if aligned.Some? {
      assert IsFor(claims[aligned.value.id], call.s.kind, call.s.scope, rules.key(call.s.text), rules);
    }
  }

  lemma OtherAccounts(claim: Claim, after: Claim, history: seq<Statement>, s: Statement, rules: Rules)
    requires Accounts(claim, history, rules) && SameSubstance(claim, after)
    requires !Tells(s, claim.kind, claim.scope, rules.key(claim.statement), rules)
    ensures Accounts(after, history + [s], rules)
  {
    HistorySnoc(history, s, claim.kind, claim.scope, rules.key(claim.statement), rules);
  }

  /** Every claim but the stored one keeps all that identifies it and its history. */
  lemma OthersKeepSubstance(claims: Claims, call: Call, rules: Rules, id: Id)
    requires Possible(claims, call)
    requires var o := Stored(claims, call, rules); id in o.claims && id != o.id
    ensures id in claims && SameSubstance(claims[id], Stored(claims, call, rules).claims[id])
  {
    StoreWritesOne(claims, call, rules);
  }

  lemma FirstOfItsKey(claims: Claims, s: Statement, history: seq<Statement>, rules: Rules)
    requires Conserved(claims, history, rules) && !HasClaim(claims, s, rules)
    ensures TimesStored(history, s.kind, s.scope, rules.key(s.text), rules) == 0
    ensures Supplied(history, s.kind, s.scope, rules.key(s.text), rules) == {}
  {
    var key := rules.key(s.text);
    forall i | 0 <= i < |history| ensures !Tells(history[i], s.kind, s.scope, key, rules) {
      assert HasClaim(claims, history[i], rules);
    }
    NeverStored(history, s.kind, s.scope, key, rules);
  }

  lemma AssessmentAccounts(claims: Claims, call: Call, history: seq<Statement>, rules: Rules)
    requires Possible(claims, call) && Conserved(claims, history, rules)
    requires |ScopeClaims(claims, call.s.scope)| <= CLAIM_LIMIT
    ensures var a := Stored(claims, call, rules).assessment;
            var key := rules.key(call.s.text);
            && a.signals == TimesStored(history, call.s.kind, call.s.scope, key, rules) + 1
            && a.evidence.Keys == Supplied(history, call.s.kind, call.s.scope, key, rules) + RefsOf(call.s.evidence)
  {
    AlignsExactly(claims, call, rules);
    if HasClaim(claims, call.s, rules) {
      assert Accounts(claims[Stored(claims, call, rules).id], history, rules);
    } else {
      FirstOfItsKey(claims, call.s, history, rules);
    }
  }

  lemma StoredAccounts(claims: Claims, call: Call, history: seq<Statement>, rules: Rules)
    requires Possible(claims, call) && Conserved(claims, history, rules)
    requires |ScopeClaims(claims, call.s.scope)| <= CLAIM_LIMIT
    ensures var o := Stored(claims, call, rules);
            o.id in o.claims && Accounts(o.claims[o.id], history + [call.s], rules)
  {
    AssessmentAccounts(claims, call, history, rules);
    StoreWritesOne(claims, call, rules);
    HistorySnoc(history, call.s, call.s.kind, call.s.scope, rules.key(call.s.text), rules);
  }

  lemma KeysStayApart(claims: Claims, call: Call, rules: Rules, id: Id)
    requires Possible(claims, call) && OneClaimPerKey(claims, rules)
    requires |ScopeClaims(claims, call.s.scope)| <= CLAIM_LIMIT
    requires id in claims && id != Stored(claims, call, rules).id
    ensures !IsFor(claims[id], call.s.kind, call.s.scope, rules.key(call.s.text), rules)
  {
    AlignsExactly(claims, call, rules);
    if IsFor(claims[id], call.s.kind, call.s.scope, rules.key(call.s.text), rules) {
      assert HasClaim(claims, call.s, rules);
    }
  }

  lemma StoreKeepsOnePerKey(claims: Claims, call: Call, rules: Rules)
    requires Possible(claims, call) && OneClaimPerKey(claims, rules)
    requires |ScopeClaims(claims, call.s.scope)| <= CLAIM_LIMIT
    ensures OneClaimPerKey(Stored(claims, call, rules).claims, rules)
  {
    var o := Stored(claims, call, rules);
    StoreWritesOne(claims, call, rules);
    forall a, b | a in o.claims && b in o.claims && Comparable(o.claims[a], o.claims[b])
                  && rules.key(o.claims[a].statement) == rules.key(o.claims[b].statement)
      ensures a == b
    {
      if a != o.id {
        OthersKeepSubstance(claims, call, rules, a);
        KeysStayApart(claims, call, rules, a);
      }
      if b != o.id {
        OthersKeepSubstance(claims, call, rules, b);
        KeysStayApart(claims, call, rules, b);
      }
    }
  }

  lemma StoreConserves(claims: Claims, call: Call, history: seq<Statement>, rules: Rules)
    requires Possible(claims, call) && Conserved(claims, history, rules)
    requires |ScopeClaims(claims, call.s.scope)| <= CLAIM_LIMIT
    ensures Conserved(Stored(claims, call, rules).claims, history + [call.s], rules)
  {
    var o := Stored(claims, call, rules);
    StoreKeepsOnePerKey(claims, call, rules);
    StoredAccounts(claims, call, history, rules);
    forall id | id in o.claims ensures Accounts(o.claims[id], history + [call.s], rules) {
      if id != o.id {
        OthersKeepSubstance(claims, call, rules, id);
        KeysStayApart(claims, call, rules, id);
        OtherAccounts(claims[id], o.claims[id], history, call.s, rules);
      }
    }
    forall i | 0 <= i < |history + [call.s]| ensures HasClaim(o.claims, (history + [call.s])[i], rules) {
      if i < |history| {
        ClaimsStay(claims, call, history[i], rules);
      } else {
        StoreWritesOne(claims, call, rules);
        assert IsFor(o.claims[o.id], call.s.kind, call.s.scope, rules.key(call.s.text), rules);
      }
    }
  }

  lemma ClaimsStay(claims: Claims, call: Call, told: Statement, rules: Rules)
    requires Possible(claims, call) && OneClaimPerKey(claims, rules) && HasClaim(claims, told, rules)
    requires |ScopeClaims(claims, call.s.scope)| <= CLAIM_LIMIT
    ensures HasClaim(Stored(claims, call, rules).claims, told, rules)
  {
    var o := Stored(claims, call, rules);
    var id :| id in claims && IsFor(claims[id], told.kind, told.scope, rules.key(told.text), rules);
    StoreWritesOne(claims, call, rules);
    AlignsExactly(claims, call, rules);
    if id == o.id {
      assert IsFor(o.claims[id], told.kind, told.scope, rules.key(told.text), rules);
    } else {
      OthersKeepSubstance(claims, call, rules, id);
      assert IsFor(o.claims[id], told.kind, told.scope, rules.key(told.text), rules);
    }
  }

  /** An accepted claim of a known type that is stored again stays accepted exactly when no accepted claim in conflict
      with it is stronger and it is not a user-global preference held in fewer than two workspaces. */
  lemma StoredAgainStaysAcceptedExactly(claims: Claims, call: Call, history: seq<Statement>, rules: Rules, id: Id)
    requires Possible(claims, call) && Conserved(claims, history, rules)
    requires |ScopeClaims(claims, call.s.scope)| <= CLAIM_LIMIT
    requires id in claims && IsFor(claims[id], call.s.kind, call.s.scope, rules.key(call.s.text), rules)
    requires claims[id].status == Accepted && !call.s.kind.OtherType?
    ensures var o := Stored(claims, call, rules);
            && o.id == id && id in o.claims
            && (o.claims[id].status == Accepted <==>
                && (forall other | other in claims && IsRival(claims[other], call.s, rules)
                                   && claims[other].kind == call.s.kind && claims[other].status == Accepted ::
                      Strength(claims[other]) <= IncomingStrength(claims, call, rules))
                && !(call.s.kind == Preference && call.s.scope.kind == UserGlobal
                     && WorkspaceCount(claims, call.s, call.workspaces, rules) < 2))
  {
    assert HasClaim(claims, call.s, rules);
    AlignsExactly(claims, call, rules);
    StoredAcceptedExactly(claims, call, rules);
    assert Accounts(claims[id], history, rules);
    EarnedWhenStoredAgain(claims, call, rules);
    RivalsOfSmallScope(claims, call, rules);
  }

  /** In a small scope the rivals are all the claims of the type in conflict with the statement. */
  lemma RivalsOfSmallScope(claims: Claims, call: Call, rules: Rules)
    requires Possible(claims, call) && |ScopeClaims(claims, call.s.scope)| <= CLAIM_LIMIT
    ensures Unbeaten(Rivals(claims, call, rules), IncomingStrength(claims, call, rules)) <==>
            forall other | other in claims && IsRival(claims[other], call.s, rules)
                           && claims[other].kind == call.s.kind && claims[other].status == Accepted ::
              Strength(claims[other]) <= IncomingStrength(claims, call, rules)
  {
    SmallScopeIsListed(claims, call.s.scope, call.listed);
    forall other | other in claims && IsRival(claims[other], call.s, rules) && claims[other].kind == call.s.kind
      ensures Record(other, claims[other]) in Rivals(claims, call, rules)
    {
    }
  }

  lemma StoredStatus(claims: Claims, call: Call, rules: Rules)
    requires Possible(claims, call)
    ensures var o := Stored(claims, call, rules);
            o.id in o.claims && o.claims[o.id].status == o.assessment.contest.status
  {
    StoreWritesOne(claims, call, rules);
  }

  lemma EarnedWhenStoredAgain(claims: Claims, call: Call, rules: Rules)
    requires Possible(claims, call) && !call.s.kind.OtherType?
    requires Stored(claims, call, rules).assessment.signals >= 2
    ensures Earned(claims, call, rules).0 == Accepted <==>
            !(call.s.kind == Preference && call.s.scope.kind == UserGlobal
              && WorkspaceCount(claims, call.s, call.workspaces, rules) < 2)
  {
  }

  // ----- Runs -----

  /** A store, or a supersession of claims as they stand (a resolved open loop, or `supersede_claim` on its own). */
  datatype Event =
    | Store(call: Call)
    | Supersede(records: seq<Record>, successor: string, clock: nat -> Time)

  datatype Memory = Memory(claims: Claims, history: seq<Statement>)

  const START := Memory(map[], [])

  ghost predicate CanHappen(claims: Claims, e: Event) {
    match e
    case Store(call) => Possible(claims, call)
    case Supersede(records, _, _) => Listed(claims, records)
  }

  ghost function Next(m: Memory, e: Event, rules: Rules): Memory {
    if !CanHappen(m.claims, e) then m
    else match e
      case Store(call) => Memory(Stored(m.claims, call, rules).claims, m.history + [call.s])
      case Supersede(records, successor, clock) => m.(claims := SupersedeAll(m.claims, records, successor, clock))
  }

  ghost function Run(events: seq<Event>, rules: Rules): Memory {
    if events == [] then START else Next(Run(events[..|events| - 1], rules), events[|events| - 1], rules)
  }

  /** No statement was stored into a scope that already held more claims than one listing shows. */
  ghost predicate SmallScopes(events: seq<Event>, rules: Rules) {
    forall k | 0 <= k < |events| && events[k].Store? ::
      |ScopeClaims(Run(events[..k], rules).claims, events[k].call.s.scope)| <= 100
  }

  lemma SupersedingConserves(claims: Claims, after: Claims, records: seq<Record>, history: seq<Statement>, rules: Rules)
    requires Conserved(claims, history, rules) && SupersedesOnly(claims, after, records)
    ensures Conserved(after, history, rules)
  {
    forall id | id in after ensures SameSubstance(claims[id], after[id]) && Accounts(after[id], history, rules) {
      assert Accounts(claims[id], history, rules);
    }
    forall i | 0 <= i < |history| ensures HasClaim(after, history[i], rules) {
      var s := history[i];
      assert HasClaim(claims, s, rules);
      var id :| id in claims && IsFor(claims[id], s.kind, s.scope, rules.key(s.text), rules);
      assert IsFor(after[id], s.kind, s.scope, rules.key(s.text), rules);
    }
  }

  lemma SmallScopeShowsAll(claims: Claims, call: Call, rules: Rules)
    requires Possible(claims, call) && |ScopeClaims(claims, call.s.scope)| <= CLAIM_LIMIT
    ensures AllListed(claims, call.listed, call.s, rules)
  {
    SmallScopeIsListed(claims, call.s.scope, call.listed);
  }

  lemma NextKeeps(m: Memory, e: Event, rules: Rules)
    requires Lawful(rules) && Consistent(m.claims, rules) && Conserved(m.claims, m.history, rules)
    requires e.Store? ==> |ScopeClaims(m.claims, e.call.s.scope)| <= CLAIM_LIMIT
    ensures Consistent(Next(m, e, rules).claims, rules)
    ensures Conserved(Next(m, e, rules).claims, Next(m, e, rules).history, rules)
  {
    if CanHappen(m.claims, e) {
      match e
      case Store(call) =>
        SmallScopeShowsAll(m.claims, call, rules);
        StoreConsistentExactly(m.claims, call, rules);
        StoreConserves(m.claims, call, m.history, rules);
      case Supersede(records, successor, clock) =>
        SupersedeAllTouchesNamed(m.claims, records, successor, clock);
        var after := SupersedeAll(m.claims, records, successor, clock);
        SupersedingKeepsConsistent(m.claims, after, records, rules);
        SupersedingConserves(m.claims, after, records, m.history, rules);
    }
  }

  lemma SmallScopesBefore(events: seq<Event>, rules: Rules)
    requires SmallScopes(events, rules) && events != []
    ensures var (before, last) := (events[..|events| - 1], events[|events| - 1]);
            && SmallScopes(before, rules)
            && (last.Store? ==> |ScopeClaims(Run(before, rules).claims, last.call.s.scope)| <= CLAIM_LIMIT)
  {
    var before := events[..|events| - 1];
    forall k | 0 <= k < |before| ensures before[..k] == events[..k] && before[k] == events[k] {
    }
  }

  /** After every serial run over small scopes: no two accepted claims of one type and scope conflict, and every claim
      accounts for exactly the stores of its statement. */
  lemma {:induction false} MemoryStaysConsistent(events: seq<Event>, rules: Rules)
    requires Lawful(rules) && SmallScopes(events, rules)
    ensures Consistent(Run(events, rules).claims, rules)
    ensures Conserved(Run(events, rules).claims, Run(events, rules).history, rules)
  {
    if events != [] {
      var before, last := events[..|events| - 1], events[|events| - 1];
      SmallScopesBefore(events, rules);
      MemoryStaysConsistent(before, rules);
      NextKeeps(Run(before, rules), last, rules);
    }
  }
}
