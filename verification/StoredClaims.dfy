/** The row that a stored statement leaves, the rows it supersedes, and what a statement earns. */
module StoredClaims {
  import opened Prelude
  import opened Selections
  import opened MemoryClaims
  import opened Cognition
  import opened MemoryConsistency

  // ----- What a listing shows, in its order -----

  predicate Known(claims: Claims, ids: seq<Id>) { forall i | 0 <= i < |ids| :: ids[i] in claims }

  /** The record of a claim, if it is of the type and has one of the statuses. */
  function RecordIf(claims: Claims, id: Id, kind: ClaimType, statuses: set<Status>): seq<Record>
    requires id in claims
  {
    if claims[id].kind == kind && claims[id].status in statuses then [Record(id, claims[id])] else []
  }

  lemma RecordsSnoc(claims: Claims, ids: seq<Id>, id: Id, kind: ClaimType, statuses: set<Status>)
    requires Known(claims, ids) && id in claims
    ensures Known(claims, ids + [id])
    ensures RecordsOf(claims, ids + [id], kind, statuses) ==
            RecordsOf(claims, ids, kind, statuses) + RecordIf(claims, id, kind, statuses)
  {
    assert (ids + [id])[..|ids|] == ids;
  }

  /** Records stand in the order of the listing. */
  lemma {:induction false} RecordsJoin(claims: Claims, a: seq<Id>, b: seq<Id>, kind: ClaimType, statuses: set<Status>)
    requires Known(claims, a) && Known(claims, b)
    ensures Known(claims, a + b)
    ensures RecordsOf(claims, a + b, kind, statuses) ==
            RecordsOf(claims, a, kind, statuses) + RecordsOf(claims, b, kind, statuses)
  {
    if b == [] {
      assert a + b == a;
    } else {
      var n := |b| - 1;
      RecordsJoin(claims, a, b[..n], kind, statuses);
      RecordsSnoc(claims, a + b[..n], b[n], kind, statuses);
      RecordsSnoc(claims, b[..n], b[n], kind, statuses);
      assert b == b[..n] + [b[n]] && a + b == a + b[..n] + [b[n]];
    }
  }

  /** Claims in conflict stand in the order in which they are listed. */
  lemma {:induction false} ConflictingJoin(a: seq<Record>, b: seq<Record>, s: Statement, rules: Rules)
    ensures Conflicting(a + b, s, rules) == Conflicting(a, s, rules) + Conflicting(b, s, rules)
  {
    if b == [] {
      assert a + b == a;
    } else {
      var n := |b| - 1;
      assert (a + b)[..|a + b| - 1] == a + b[..n];
      ConflictingJoin(a, b[..n], s, rules);
    }
  }

  /** A listed claim is in conflict when it has another key, the same scope, and its key is in conflict. */
  lemma ConflictingOne(r: Record, s: Statement, rules: Rules)
    ensures Conflicting([r], s, rules) ==
            if rules.key(r.claim.statement) != rules.key(s.text) && r.claim.scope == s.scope
               && rules.conflict(rules.key(r.claim.statement), rules.key(s.text)) then [r]
            else []
  {
    assert [r][..0] == [];
  }

  // ----- The contest -----

  function IdsOf(records: seq<Record>): (ids: seq<Id>)
    ensures |ids| == |records| && forall i | 0 <= i < |records| :: ids[i] == records[i].id
  {
    seq(|records|, i requires 0 <= i < |records| => records[i].id)
  }

  /** The rival is accepted and stronger. */
  predicate Beats(rival: Record, strength: int) { rival.claim.status == Accepted && strength < Strength(rival.claim) }

  /** Everything before position `k` was superseded. There stands the first rival that beats the statement, or the end; a
      statement that has not earned acceptance stops at once. What is left is unresolved and costs it its status. */
  predicate SplitAt(c: Contest, rivals: seq<Record>, k: nat, strength: int, status: Status, confidence: real) {
    && k <= |rivals| && (forall j | 0 <= j < k :: !Beats(rivals[j], strength))
    && (k < |rivals| ==> if status == Accepted then Beats(rivals[k], strength) else k == 0)
    && (k > 0 ==> status == Accepted)
    && c.superseded == rivals[..k] && c.unresolved == IdsOf(rivals[k..])
    && c.status == (if k < |rivals| then Candidate else status)
    && c.confidence == if k < |rivals| && confidence > 0.67 then 0.67 else confidence
  }

  lemma MeetSplits(c: Contest, before: seq<Record>, rival: Record, k: nat, strength: int, status: Status,
                   confidence: real)
    requires SplitAt(c, before, k, strength, status, confidence) && status != Superseded
    ensures var rivals := before + [rival];
            exists k' :: SplitAt(Meet(c, rival, strength), rivals, k', strength, status, confidence)
  {
    var rivals := before + [rival];
    var after := Meet(c, rival, strength);
    if k < |before| || status != Accepted || Beats(rival, strength) {
      assert rivals[..k] == before[..k] && rivals[k..] == before[k..] + [rival];
      assert IdsOf(rivals[k..]) == IdsOf(before[k..]) + [rival.id];
      assert SplitAt(after, rivals, k, strength, status, confidence);
    } else {
      assert rivals[..k + 1] == before[..k] + [rival] && rivals[k + 1..] == [];
      assert SplitAt(after, rivals, k + 1, strength, status, confidence);
    }
  }

  /** The contest, told by the first rival that is accepted and stronger. */
  lemma {:induction false} ContestSplits(rivals: seq<Record>, strength: int, status: Status, confidence: real)
    returns (k: nat)
    requires status != Superseded
    ensures SplitAt(Contested(rivals, strength, status, confidence), rivals, k, strength, status, confidence)
  {
    if rivals == [] {
      k := 0;
    } else {
      var n := |rivals| - 1;
      var m := ContestSplits(rivals[..n], strength, status, confidence);
      MeetSplits(Contested(rivals[..n], strength, status, confidence), rivals[..n], rivals[n], m, strength, status,
                 confidence);
      assert rivals == rivals[..n] + [rivals[n]];
      k :| SplitAt(Contested(rivals, strength, status, confidence), rivals, k, strength, status, confidence);
    }
  }

  // ----- What a statement earns -----

  /** When a statement is accepted before any rival is met. */
  predicate EarnsAcceptance(kind: ClaimType, scope: ScopeKind, explicitSignal: bool, signals: nat, supporting: bool,
                            deterministic: bool, workspaces: nat)
  {
    if kind.OtherType? then false
    else if kind == Preference && scope == UserGlobal then workspaces >= 2
    else signals >= 2 || (explicitSignal && if kind == Risk then deterministic else supporting)
  }

  /** How sure the store is of a statement, by its type, by whether it was accepted, and by whether it was repeated. */
  function ConfidenceIn(kind: ClaimType, scope: ScopeKind, accepted: bool, repeated: bool): real {
    match kind
    case Decision => if accepted then 0.9 else 0.68
    case OpenLoop => if !accepted then 0.72 else if repeated then 0.94 else 0.86
    case Preference =>
      if scope == UserGlobal then (if accepted then 0.84 else 0.58)
      else if !accepted then 0.64 else if repeated then 0.9 else 0.82
    case Risk => if !accepted then 0.6 else if repeated then 0.9 else 0.84
    case OtherType(_) => 0.45
  }

  lemma EarnedExactly(kind: ClaimType, scope: ScopeKind, explicitSignal: bool, signals: nat, supporting: bool,
                      deterministic: bool, workspaces: nat)
    ensures var (status, confidence) :=
              DetermineState(kind, scope, explicitSignal, signals, supporting, deterministic, workspaces);
            var accepted := EarnsAcceptance(kind, scope, explicitSignal, signals, supporting, deterministic, workspaces);
            && status == (if accepted then Accepted else Candidate)
            && confidence == ConfidenceIn(kind, scope, accepted, signals >= 2)
  {
  }

  /** What each part adds to a strength: acceptance more than all the others together, and at most four signals count. */
  lemma StrengthAdds(explicitSignal: bool, supporting: bool, deterministic: bool, signals: nat, status: Status)
    ensures StrengthOf(Candidate, false, false, false, 0) == 0
    ensures StrengthOf(Accepted, explicitSignal, supporting, deterministic, signals) ==
            StrengthOf(Candidate, explicitSignal, supporting, deterministic, signals) + 100
    ensures StrengthOf(Superseded, explicitSignal, supporting, deterministic, signals) ==
            StrengthOf(Candidate, explicitSignal, supporting, deterministic, signals)
    ensures StrengthOf(status, true, supporting, deterministic, signals) ==
            StrengthOf(status, false, supporting, deterministic, signals) + 12
    ensures StrengthOf(status, explicitSignal, true, deterministic, signals) ==
            StrengthOf(status, explicitSignal, false, deterministic, signals) + 10
    ensures StrengthOf(status, explicitSignal, supporting, true, signals) ==
            StrengthOf(status, explicitSignal, supporting, false, signals) + 10
    ensures StrengthOf(status, explicitSignal, supporting, deterministic, signals + 1) ==
            StrengthOf(status, explicitSignal, supporting, deterministic, signals) + if signals < 4 then 8 else 0
    ensures 0 <= StrengthOf(Candidate, explicitSignal, supporting, deterministic, signals) <= 64
  {
  }

  /** Evidence supports when it is an artifact or refers to something other than an event; it is strong when it refers to a
      document, an issue, a test or a diff. */
  lemma EvidenceCountsExactly(items: seq<EvidenceItem>)
    ensures HasSupporting(items) <==>
            exists i :: 0 <= i < |items| && (items[i].evidence.kind == "artifact" || !("event:" <= items[i].ref.text))
    ensures HasStrong(items) <==>
            exists i :: 0 <= i < |items|
                        && exists prefix | prefix in ["doc:", "issue:", "test:", "diff:"] :: prefix <= items[i].ref.text
  {
    forall i | 0 <= i < |items|
      ensures IsSupporting(items[i]) <==> items[i].evidence.kind == "artifact" || !("event:" <= items[i].ref.text)
      ensures IsStrong(items[i]) <==>
              exists prefix | prefix in ["doc:", "issue:", "test:", "diff:"] :: prefix <= items[i].ref.text
    {
      StrongExactly(items[i]);
    }
  }

  lemma StrongExactly(item: EvidenceItem)
    ensures IsStrong(item) <==> exists prefix | prefix in ["doc:", "issue:", "test:", "diff:"] :: prefix <= item.ref.text
  {
    var prefixes := ["doc:", "issue:", "test:", "diff:"];
    assert prefixes[0] in prefixes && prefixes[1] in prefixes && prefixes[2] in prefixes && prefixes[3] in prefixes;
  }

  lemma MergedOneMore(existing: map<EvidenceRef, Evidence>, items: seq<EvidenceItem>, last: EvidenceItem)
    ensures Merged(existing, items + [last]) == Merged(existing, items)[last.ref := last.evidence]
  {
    assert (items + [last])[..|items|] == items;
  }

  /** Of two entries under one reference the last stands. */
  lemma {:induction false} LastEvidenceStands(existing: map<EvidenceRef, Evidence>, items: seq<EvidenceItem>, i: nat)
    requires i < |items| && forall j | i < j < |items| :: items[j].ref != items[i].ref
    ensures items[i].ref in Merged(existing, items) && Merged(existing, items)[items[i].ref] == items[i].evidence
  {
    var n := |items| - 1;
    MergedOneMore(existing, items[..n], items[n]);
    assert items == items[..n] + [items[n]];
    if i < n {
      LastEvidenceStands(existing, items[..n], i);
    }
  }

  lemma {:induction false} OldEvidenceStays(existing: map<EvidenceRef, Evidence>, items: seq<EvidenceItem>,
                                            ref: EvidenceRef)
    requires ref in existing && forall j | 0 <= j < |items| :: items[j].ref != ref
    ensures ref in Merged(existing, items) && Merged(existing, items)[ref] == existing[ref]
  {
    if items != [] {
      var n := |items| - 1;
      MergedOneMore(existing, items[..n], items[n]);
      assert items == items[..n] + [items[n]];
      OldEvidenceStays(existing, items[..n], ref);
    }
  }

  /** Of several listed claims of the key the last is taken. */
  lemma {:induction false} LastIsAligned(existing: seq<Record>, text: string, rules: Rules, i: nat)
    requires i < |existing| && rules.key(existing[i].claim.statement) == rules.key(text)
    requires forall j | i < j < |existing| :: rules.key(existing[j].claim.statement) != rules.key(text)
    ensures Aligned(existing, text, rules) == Some(existing[i])
  {
    if i < |existing| - 1 {
      LastIsAligned(existing[..|existing| - 1], text, rules, i);
    }
  }

  // ----- The rows -----

  /** What the row of the statement says, in terms of the statement and of what stood before: `rivals` are the listed
      claims in conflict with it, of which the first `k` are superseded. */
  ghost predicate TellsStatement(claims: Claims, row: Claim, call: Call, rules: Rules, id: Id, k: nat)
    requires Possible(claims, call)
  {
    var (s, rivals) := (call.s, Rivals(claims, call, rules));
    var (status, confidence) := Earned(claims, call, rules);
    && row.kind == s.kind && row.scope == s.scope && row.statement == s.text && row.detail == s.detail
    && row.subject == rules.subject(s.kind, s.text)
    && k <= |rivals| && row.status == (if k < |rivals| then Candidate else status)
    && row.confidence == (if k < |rivals| && confidence > 0.67 then 0.67 else confidence)
    && row.quality.signals == Signals(claims, call, rules)
    && row.quality.explicitSignal == s.explicitSignal
    && row.quality.supporting == HasSupporting(s.evidence) && row.quality.deterministic == HasStrong(s.evidence)
    && row.quality.workspaces == WorkspaceCount(claims, s, call.workspaces, rules)
    && row.quality.unresolved == IdsOf(rivals[k..]) && row.quality.supersededBy == None
    && row.createdAt == (if id in claims then claims[id].createdAt else call.start) && row.updatedAt == call.start
  }

  lemma WrittenRow(claims: Claims, call: Call, rules: Rules)
    requires Possible(claims, call)
    ensures var o := Stored(claims, call, rules);
            && o.id in o.claims
            && o.claims[o.id] == Written(claims, o.id, ClaimFrom(call.s, o.assessment,
                 WorkspaceCount(claims, call.s, call.workspaces, rules), rules, call.start, call.start))[o.id]
  {
    var o := Stored(claims, call, rules);
    var a := o.assessment;
    var written := Written(claims, o.id, ClaimFrom(call.s, a, WorkspaceCount(claims, call.s, call.workspaces, rules), rules,
                                                   call.start, call.start));
    ContestOutcome(claims, call, rules);
    assert Listed(written, a.contest.superseded);
    SupersedeAllTouchesNamed(written, a.contest.superseded, o.id.text, call.clock);
    assert !Named(a.contest.superseded, o.id);
  }

  /** The stored row itself: nothing about the statement is lost, and later contests are decided by its own signals. */
  lemma StoredRowExactly(claims: Claims, call: Call, rules: Rules) returns (k: nat)
    requires Possible(claims, call)
    ensures var o := Stored(claims, call, rules);
            && o.id in o.claims && TellsStatement(claims, o.claims[o.id], call, rules, o.id, k)
            && SplitAt(o.assessment.contest, Rivals(claims, call, rules), k, IncomingStrength(claims, call, rules),
                       Earned(claims, call, rules).0, Earned(claims, call, rules).1)
            && Strength(o.claims[o.id]) ==
               StrengthOf(o.claims[o.id].status, call.s.explicitSignal, HasSupporting(call.s.evidence),
                          HasStrong(call.s.evidence), Signals(claims, call, rules))
  {
    WrittenRow(claims, call, rules);
    ContestOf(claims, call, rules);
    k := ContestSplits(Rivals(claims, call, rules), IncomingStrength(claims, call, rules), Earned(claims, call, rules).0,
                       Earned(claims, call, rules).1);
  }

  /** A superseded row: what it was superseded by and when, its confidence capped, all else as it was. */
  predicate SupersededRow(was: Claim, row: Claim, successor: string, at: Time) {
    && row.status == Superseded && SameSubstance(was, row)
    && row.quality.supersededBy == Some(successor) && row.updatedAt == at
    && row.confidence == if was.confidence < 0.7 then was.confidence else 0.7
  }

  lemma {:induction false} SupersededRowsExactly(claims: Claims, records: seq<Record>, successor: string,
                                                 clock: nat -> Time, i: nat)
    requires Listed(claims, records) && i < |records| && forall j | i < j < |records| :: records[j].id != records[i].id
    ensures var after := SupersedeAll(claims, records, successor, clock);
            records[i].id in after && SupersededRow(records[i].claim, after[records[i].id], successor, clock(i))
  {
    var n := |records| - 1;
    var before := SupersedeAll(claims, records[..n], successor, clock);
    assert records[n] in records && forall r | r in records[..n] :: r in records;
    if i < n {
      SupersededRowsExactly(claims, records[..n], successor, clock, i);
    } else {
      SupersedeAllTouchesNamed(claims, records[..n], successor, clock);
    }
  }

  /** A user-global preference counts the workspaces that hold it, accepted or not yet; anything else counts one. */
  lemma WorkspacesExactly(claims: Claims, s: Statement, listed: seq<Id>, rules: Rules)
    requires forall i | 0 <= i < |listed| :: listed[i] in claims
    ensures WorkspaceCount(claims, s, listed, rules) ==
            if s.kind == Preference && s.scope.kind == UserGlobal then
              |set id | id in listed && claims[id].kind == Preference && claims[id].status != Superseded
                        && rules.key(claims[id].statement) == rules.key(s.text) :: claims[id].scope.key|
            else 1
  {
    if s.kind == Preference && s.scope.kind == UserGlobal {
      var records := RecordsOf(claims, listed, Preference, {Candidate, Accepted});
      var ids := set id | id in listed && claims[id].kind == Preference && claims[id].status != Superseded
                          && rules.key(claims[id].statement) == rules.key(s.text) :: claims[id].scope.key;
      forall key ensures key in WorkspacesWith(records, rules.key(s.text), rules) <==> key in ids {
        if key in ids {
          var id :| id in listed && claims[id].kind == Preference && claims[id].status != Superseded
                    && rules.key(claims[id].statement) == rules.key(s.text) && claims[id].scope.key == key;
          assert Record(id, claims[id]) in records;
        }
      }
      assert WorkspacesWith(records, rules.key(s.text), rules) == ids;
    }
  }

  /** An open loop is resolved exactly when it looks so and overlaps no current item. */
  lemma {:induction false} StaleExactly(records: seq<Record>, current: seq<string>, looksResolved: string -> bool,
                                        rules: Rules, r: Record)
    ensures r in Stale(records, current, looksResolved, rules) <==>
            && r in records && looksResolved(r.claim.statement)
            && forall i | 0 <= i < |current| :: !rules.overlap(rules.key(current[i]), rules.key(r.claim.statement))
  {
    if records != [] {
      var n := |records| - 1;
      StaleExactly(records[..n], current, looksResolved, rules, r);
      assert records == records[..n] + [records[n]];
    }
  }
}
