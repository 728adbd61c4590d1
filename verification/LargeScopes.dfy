/** Scopes with more claims than one listing shows: which claims it leaves out, and a run that ends with two accepted
    claims in conflict. */
module LargeScopes {
  import opened Prelude
  import opened Selections
  import opened MemoryClaims
  import opened Cognition
  import opened MemoryConsistency
  import CognitionRules
  import Statements

  // ----- What a listing leaves out -----

  /** The claims of the same scope that were changed later. */
  function MoreRecentThan(claims: Claims, scope: Scope, id: Id): set<Id>
    requires id in claims
  {
    set other | other in ScopeClaims(claims, scope) && MoreRecent(claims[other], claims[id])
  }

  /** The other claims of the scope that a listing may show in its place. */
  function NotLessRecentThan(claims: Claims, scope: Scope, id: Id): set<Id>
    requires id in claims
  {
    set other | other in ScopeClaims(claims, scope) && other != id && !MoreRecent(claims[id], claims[other])
  }

  lemma ListedIds(listed: seq<Id>)
    requires Distinct(listed)
    ensures |(set id | id in listed)| == |listed|
  {
    DistinctCount(listed, set id | id in listed);
  }

  lemma Smaller(a: set<Id>, b: set<Id>)
    requires a <= b
    ensures |a| <= |b|
  {
    if a != {} {
      var x :| x in a;
      Smaller(a - {x}, b - {x});
    }
  }

  /** A claim of the scope is left out whenever as many claims as a listing holds were changed after it, and shown
      whenever fewer than that could take its place. */
  lemma ListedByRecency(claims: Claims, scope: Scope, limit: nat, listed: seq<Id>, id: Id)
    requires IsListing(claims, Some(scope.kind), Some(scope.key), limit, listed)
    requires id in ScopeClaims(claims, scope)
    ensures |MoreRecentThan(claims, scope, id)| >= limit ==> id !in listed
    ensures |NotLessRecentThan(claims, scope, id)| < limit ==> id in listed
  {
    var shown := set x | x in listed;
    ListedIds(listed);
    if id in listed {
      var i :| 0 <= i < |listed| && listed[i] == id;
      var more := MoreRecentThan(claims, scope, id);
      assert more + {id} <= shown;
      Smaller(more + {id}, shown);
    } else {
      var others := NotLessRecentThan(claims, scope, id);
      forall x | x in shown ensures x in others {
        var i :| 0 <= i < |listed| && listed[i] == x;
      }
      Smaller(shown, others);
      Smaller(shown + {id}, ScopeClaims(claims, scope));
    }
  }

  /** An accepted claim that a statement contradicts is left standing beside it when the scope holds a full listing of
      claims changed later and nothing else the listing shows beats the statement. */
  lemma BuriedClaimIsMissed(claims: Claims, call: Call, rules: Rules, id: Id)
    requires Possible(claims, call) && Lawful(rules) && Consistent(claims, rules)
    requires id in claims && Contradicts(claims[id], call.s, rules)
    requires |MoreRecentThan(claims, call.s.scope, id)| >= 100 && Wins(claims, call, rules)
    ensures !Consistent(Stored(claims, call, rules).claims, rules)
  {
    ListedByRecency(claims, call.s.scope, CLAIM_LIMIT, call.listed, id);
    StoreConsistentExactly(claims, call, rules);
  }

  // ----- A run -----

  const SCOPE := Scope(Workspace, ScopeKey("workspace"))

  const FIRST := Id("first")

  const LAST := Id("last")

  const PROOF := [EvidenceItem(EvidenceRef("doc:1"), Evidence("document", None))]

  function Clock(i: nat): Time { 0 }

  function FillerId(k: nat): Id { Id(seq(k, _ => 'x')) }

  function DecisionOf(text: string): Statement { Statement(Decision, SCOPE, text, "", PROOF, true) }

  function FillerOf(text: string): Statement { Statement(OpenLoop, SCOPE, text, "", [], false) }

  /** The scope's ids, the latest first: `k` fillers and the first decision. */
  function Ids(k: nat): (ids: seq<Id>)
    ensures |ids| == k + 1
  {
    if k == 0 then [FIRST] else [FillerId(k - 1)] + Ids(k - 1)
  }

  function Shown(ids: seq<Id>): seq<Id> { ids[..if |ids| < CLAIM_LIMIT then |ids| else CLAIM_LIMIT] }

  function StoreFirst(text: string): Call { Call(DecisionOf(text), [], [], FIRST, 0, Clock) }

  function StoreFiller(filler: nat -> string, k: nat): Call {
    Call(FillerOf(filler(k)), Shown(Ids(k)), [], FillerId(k), k + 1, Clock)
  }

  function StoreLast(against: string, k: nat): Call { Call(DecisionOf(against), Shown(Ids(k)), [], LAST, k + 1, Clock) }

  /** A decision, then one open loop after the other. */
  function Filled(text: string, filler: nat -> string, k: nat): (events: seq<Event>)
    ensures |events| == k + 1
  {
    if k == 0 then [Store(StoreFirst(text))] else Filled(text, filler, k - 1) + [Store(StoreFiller(filler, k - 1))]
  }

  /** What each claim is, from the latest to the first. */
  predicate IsEntry(claim: Claim, age: nat, text: string, filler: nat -> string) {
    && claim.scope == SCOPE && claim.updatedAt == age
    && if age == 0 then claim.kind == Decision && claim.status == Accepted && claim.statement == text
       else claim.kind == OpenLoop && claim.statement == filler(age - 1)
  }

  ghost predicate Stacked(claims: Claims, ids: seq<Id>, text: string, filler: nat -> string) {
    && Distinct(ids) && (forall id :: id in claims <==> id in ids)
    && forall i | 0 <= i < |ids| :: ids[i] in claims && IsEntry(claims[ids[i]], |ids| - 1 - i, text, filler)
  }

  lemma {:induction false} IdsAreNamed(k: nat, id: Id)
    requires id in Ids(k)
    ensures id == FIRST || exists j: nat :: j < k && id == FillerId(j)
  {
    if k > 0 && id != FillerId(k - 1) {
      IdsAreNamed(k - 1, id);
    }
  }

  lemma NewIdsAreNew(k: nat)
    ensures FillerId(k) !in Ids(k) && LAST !in Ids(k)
  {
    forall id | id in Ids(k) ensures id != FillerId(k) && id != LAST {
      IdsAreNamed(k, id);
      FillersDiffer(k, id);
    }
  }

  lemma FillersDiffer(k: nat, id: Id)
    requires id == FIRST || exists j: nat :: j < k && id == FillerId(j)
    ensures id != FillerId(k) && id != LAST
  {
    if id != FIRST {
      var j: nat :| j < k && id == FillerId(j);
      assert |FillerId(j).text| == j && |FillerId(k).text| == k;
      assert j > 0 ==> FillerId(j).text[0] == 'x';
    } else {
      assert k > 0 ==> FillerId(k).text[0] == 'x';
    }
  }

  lemma StackedMatches(claims: Claims, ids: seq<Id>, text: string, filler: nat -> string)
    requires Stacked(claims, ids, text, filler)
    ensures forall id :: id in ids <==> id in Matching(claims, Some(SCOPE.kind), Some(SCOPE.key))
    ensures |Matching(claims, Some(SCOPE.kind), Some(SCOPE.key))| == |ids|
  {
    var matching := Matching(claims, Some(SCOPE.kind), Some(SCOPE.key));
    forall id ensures id in ids <==> id in matching {
      if id in ids {
        var i :| 0 <= i < |ids| && ids[i] == id;
        assert IsEntry(claims[ids[i]], |ids| - 1 - i, text, filler);
      }
    }
    DistinctCount(ids, matching);
  }

  lemma StackedIsSorted(claims: Claims, ids: seq<Id>, text: string, filler: nat -> string)
    requires Stacked(claims, ids, text, filler)
    ensures MostRecentFirst(claims, ids)
  {
    forall i, j | 0 <= i < j < |ids| ensures !MoreRecent(claims[ids[j]], claims[ids[i]]) {
      assert IsEntry(claims[ids[i]], |ids| - 1 - i, text, filler);
      assert IsEntry(claims[ids[j]], |ids| - 1 - j, text, filler);
    }
  }

  lemma ShownIsListing(claims: Claims, ids: seq<Id>, text: string, filler: nat -> string)
    requires Stacked(claims, ids, text, filler)
    ensures IsListing(claims, Some(SCOPE.kind), Some(SCOPE.key), CLAIM_LIMIT, Shown(ids))
  {
    StackedMatches(claims, ids, text, filler);
    StackedIsSorted(claims, ids, text, filler);
    FirstOnesAreRecent(claims, Some(SCOPE.kind), Some(SCOPE.key), CLAIM_LIMIT, ids);
    assert Shown(ids) == ids[..if CLAIM_LIMIT < |ids| then CLAIM_LIMIT else |ids|];
  }

  ghost predicate DistinctKeys(filler: nat -> string, rules: Rules) {
    forall i: nat, j: nat | i < j :: rules.key(filler(i)) != rules.key(filler(j))
  }

  lemma ProofSupports()
    ensures HasSupporting(PROOF)
  {
    assert !("event:" <= "doc:1") by {
      assert "event:"[0] != "doc:1"[0];
    }
    assert IsSupporting(PROOF[0]);
  }

  /** An explicit and supported decision that nothing shown contradicts is accepted. */
  lemma DecisionWins(claims: Claims, call: Call, rules: Rules)
    requires Possible(claims, call) && call.s.kind == Decision && call.s.explicitSignal && call.s.evidence == PROOF
    requires Rivals(claims, call, rules) == []
    ensures Wins(claims, call, rules)
  {
    ProofSupports();
  }

  /** A statement that supersedes nothing and has no claim yet is written under its new id, stamped with the start. */
  lemma StoredFresh(claims: Claims, call: Call, rules: Rules)
    requires Possible(claims, call)
    requires Aligned(RecordsOf(claims, call.listed, call.s.kind, ALL_STATUSES), call.s.text, rules).None?
    requires Rivals(claims, call, rules) == [] || Earned(claims, call, rules).0 != Accepted
    ensures var o := Stored(claims, call, rules);
            && o.id == call.newId && o.id in o.claims && o.claims == claims[o.id := o.claims[o.id]]
            && o.claims[o.id].updatedAt == call.start && o.claims[o.id].kind == call.s.kind
            && o.claims[o.id].scope == call.s.scope && o.claims[o.id].statement == call.s.text
  {
    ContestOf(claims, call, rules);
    SupersedingNeedsAccepted(Rivals(claims, call, rules), IncomingStrength(claims, call, rules),
                             Earned(claims, call, rules).0, Earned(claims, call, rules).1);
    StoreWritesOne(claims, call, rules);
  }

  lemma FirstIsHeld(text: string, filler: nat -> string, rules: Rules)
    ensures Possible(map[], StoreFirst(text))
    ensures Stacked(Stored(map[], StoreFirst(text), rules).claims, Ids(0), text, filler)
  {
    var call := StoreFirst(text);
    assert Matching(map[], Some(SCOPE.kind), Some(SCOPE.key)) == {};
    DecisionWins(map[], call, rules);
    StoredAcceptedExactly(map[], call, rules);
    StoredFresh(map[], call, rules);
  }

  lemma FillerIsNew(claims: Claims, ids: seq<Id>, text: string, filler: nat -> string, call: Call, rules: Rules)
    requires Stacked(claims, ids, text, filler) && ids != [] && DistinctKeys(filler, rules)
    requires Possible(claims, call) && call.s == FillerOf(filler(|ids| - 1))
    ensures Aligned(RecordsOf(claims, call.listed, OpenLoop, ALL_STATUSES), call.s.text, rules).None?
  {
    forall r | r in RecordsOf(claims, call.listed, OpenLoop, ALL_STATUSES)
      ensures rules.key(r.claim.statement) != rules.key(call.s.text)
    {
      var i :| 0 <= i < |ids| && ids[i] == r.id;
      assert IsEntry(claims[ids[i]], |ids| - 1 - i, text, filler);
    }
  }

  lemma StackOne(claims: Claims, ids: seq<Id>, text: string, filler: nat -> string, id: Id, claim: Claim)
    requires Stacked(claims, ids, text, filler) && id !in ids && IsEntry(claim, |ids|, text, filler)
    ensures Stacked(claims[id := claim], [id] + ids, text, filler)
  {
    var after, longer := claims[id := claim], [id] + ids;
    forall i | 0 <= i < |longer|
      ensures longer[i] in after && IsEntry(after[longer[i]], |longer| - 1 - i, text, filler)
    {
      assert i > 0 ==> longer[i] == ids[i - 1] && ids[i - 1] in ids;
    }
  }

  lemma FillerIsHeld(claims: Claims, text: string, filler: nat -> string, k: nat, rules: Rules)
    requires Stacked(claims, Ids(k), text, filler) && DistinctKeys(filler, rules)
    ensures Possible(claims, StoreFiller(filler, k))
    ensures Stacked(Stored(claims, StoreFiller(filler, k), rules).claims, Ids(k + 1), text, filler)
  {
    var call := StoreFiller(filler, k);
    ShownIsListing(claims, Ids(k), text, filler);
    NewIdsAreNew(k);
    FillerIsNew(claims, Ids(k), text, filler, call, rules);
    StoredFresh(claims, call, rules);
    var o := Stored(claims, call, rules);
    StackOne(claims, Ids(k), text, filler, o.id, o.claims[o.id]);
  }

  lemma RunOne(before: seq<Event>, call: Call, rules: Rules)
    requires Possible(Run(before, rules).claims, call)
    ensures Run(before + [Store(call)], rules).claims == Stored(Run(before, rules).claims, call, rules).claims
  {
    assert (before + [Store(call)])[..|before|] == before;
  }

  lemma OneMoreFiller(before: seq<Event>, text: string, filler: nat -> string, k: nat, rules: Rules)
    requires DistinctKeys(filler, rules) && Stacked(Run(before, rules).claims, Ids(k), text, filler)
    ensures Stacked(Run(before + [Store(StoreFiller(filler, k))], rules).claims, Ids(k + 1), text, filler)
  {
    FillerIsHeld(Run(before, rules).claims, text, filler, k, rules);
    RunOne(before, StoreFiller(filler, k), rules);
  }

  lemma {:induction false} FilledIsStacked(text: string, filler: nat -> string, k: nat, rules: Rules)
    requires DistinctKeys(filler, rules)
    ensures Stacked(Run(Filled(text, filler, k), rules).claims, Ids(k), text, filler)
  {
    if k == 0 {
      FirstIsHeld(text, filler, rules);
      RunOne([], StoreFirst(text), rules);
      assert Filled(text, filler, 0) == [] + [Store(StoreFirst(text))];
    } else {
      FilledIsStacked(text, filler, k - 1, rules);
      OneMoreFiller(Filled(text, filler, k - 1), text, filler, k - 1, rules);
    }
  }

  lemma {:induction false} FirstIsLast(k: nat)
    ensures Ids(k)[k] == FIRST
  {
    if k > 0 {
      FirstIsLast(k - 1);
    }
  }

  lemma FirstIsBuried(claims: Claims, text: string, filler: nat -> string, k: nat)
    requires Stacked(claims, Ids(k), text, filler)
    ensures FIRST in claims && |MoreRecentThan(claims, SCOPE, FIRST)| >= k
  {
    FirstIsLast(k);
    OldestIsBuried(claims, Ids(k), text, filler);
  }

  lemma OldestIsBuried(claims: Claims, ids: seq<Id>, text: string, filler: nat -> string)
    requires Stacked(claims, ids, text, filler) && ids != []
    ensures ids[|ids| - 1] in claims && |MoreRecentThan(claims, SCOPE, ids[|ids| - 1])| >= |ids| - 1
  {
    var n := |ids| - 1;
    var others := ids[..n];
    var later := set id | id in others;
    DistinctCount(others, later);
    assert IsEntry(claims[ids[n]], 0, text, filler);
    forall i | 0 <= i < n ensures others[i] in MoreRecentThan(claims, SCOPE, ids[n]) {
      assert IsEntry(claims[ids[i]], n - i, text, filler);
    }
    Smaller(later, MoreRecentThan(claims, SCOPE, ids[n]));
  }

  /** Nothing but the first claim is a decision. */
  lemma OthersAreOpenLoops(claims: Claims, ids: seq<Id>, text: string, filler: nat -> string)
    requires Stacked(claims, ids, text, filler) && ids != []
    ensures forall id | id in claims && id != ids[|ids| - 1] :: claims[id].kind == OpenLoop
  {
    forall id | id in claims && id != ids[|ids| - 1] ensures claims[id].kind == OpenLoop {
      var i :| 0 <= i < |ids| && ids[i] == id;
      assert IsEntry(claims[ids[i]], |ids| - 1 - i, text, filler);
    }
  }

  lemma NothingShownIsDecision(claims: Claims, listed: seq<Id>)
    requires forall i | 0 <= i < |listed| :: listed[i] in claims
    requires forall id | id in claims && id != FIRST :: claims[id].kind == OpenLoop
    requires FIRST !in listed
    ensures RecordsOf(claims, listed, Decision, ALL_STATUSES) == []
  {
    EmptyOrNot(RecordsOf(claims, listed, Decision, ALL_STATUSES));
  }

  lemma EmptyOrNot(records: seq<Record>)
    ensures records == [] || exists r :: r in records
  {
    assert records != [] ==> records[0] in records;
  }

  lemma AcceptedBesideBuried(claims: Claims, text: string, against: string, filler: nat -> string, k: nat, rules: Rules)
    requires Stacked(claims, Ids(k), text, filler) && k >= CLAIM_LIMIT && Lawful(rules)
    ensures Possible(claims, StoreLast(against, k))
    ensures var after := Stored(claims, StoreLast(against, k), rules).claims;
            && FIRST in after && after[FIRST].kind == Decision && after[FIRST].scope == SCOPE
            && after[FIRST].status == Accepted && after[FIRST].statement == text
            && LAST in after && after[LAST].kind == Decision && after[LAST].scope == SCOPE
            && after[LAST].status == Accepted && after[LAST].statement == against
  {
    var call := StoreLast(against, k);
    ShownIsListing(claims, Ids(k), text, filler);
    NewIdsAreNew(k);
    FirstIsBuried(claims, text, filler, k);
    FirstIsLast(k);
    assert IsEntry(claims[Ids(k)[k]], 0, text, filler);
    ListedByRecency(claims, SCOPE, CLAIM_LIMIT, call.listed, FIRST);
    OthersAreOpenLoops(claims, Ids(k), text, filler);
    NothingShownIsDecision(claims, call.listed);
    DecisionWins(claims, call, rules);
    StoredAcceptedExactly(claims, call, rules);
    StoredFresh(claims, call, rules);
  }

  /** A first decision, as many open loops as a listing shows, and a decision against the first. */
  function Contradicted(text: string, against: string, filler: nat -> string, k: nat): seq<Event> {
    Filled(text, filler, k) + [Store(StoreLast(against, k))]
  }

  /** After such a run two accepted decisions of one scope contradict each other. */
  lemma LargeScopeTurnsInconsistent(text: string, against: string, filler: nat -> string, k: nat, rules: Rules)
    requires Lawful(rules) && DistinctKeys(filler, rules) && rules.conflict(rules.key(text), rules.key(against))
    requires k >= CLAIM_LIMIT
    ensures var claims := Run(Contradicted(text, against, filler, k), rules).claims;
            && FIRST in claims && LAST in claims && claims[FIRST].statement == text && claims[LAST].statement == against
            && Clash(claims[FIRST], claims[LAST], rules)
  {
    var before := Filled(text, filler, k);
    FilledIsStacked(text, filler, k, rules);
    AcceptedBesideBuried(Run(before, rules).claims, text, against, filler, k, rules);
    RunOne(before, StoreLast(against, k), rules);
  }

  // ----- The same with the comparisons the program makes -----

  function Letters(n: nat): string { seq(n + 1, _ => 'a') }

  lemma LettersAreKeys(n: nat)
    ensures Statements.NormalizedKey(Letters(n)) == Letters(n)
  {
    KeysStay(Letters(n));
  }

  lemma KeysStay(key: string)
    requires Statements.IsKey(key)
    ensures Statements.NormalizedKey(key) == key
  {
    Statements.KeyIsSeparated(key, false);
  }

  lemma UseIsPositive()
    ensures Statements.PolarityOf("use") == Statements.Positive
  {
    assert Statements.POSITIVE_WORDS[2] == "use" && Statements.OccursAt("use", "use", 0);
    forall i | 0 <= i < |Statements.NEGATIVE_WORDS| ensures !Statements.Contains("use", Statements.NEGATIVE_WORDS[i]) {
      assert |Statements.NEGATIVE_WORDS[i]| > 3 || Statements.NEGATIVE_WORDS[i] == "not";
      assert "use"[0] != "not"[0];
    }
  }

  lemma NotUseIsNegative()
    ensures Statements.PolarityOf("not_use") == Statements.Negative
  {
    assert Statements.NEGATIVE_WORDS[2] == "not" && Statements.OccursAt("not_use", "not", 0);
    assert Statements.Contains("not_use", Statements.NEGATIVE_WORDS[2]);
  }

  lemma NotUseContainsUse()
    ensures Statements.Contains("not_use", "use") && Statements.IsKey("use") && Statements.IsKey("not_use")
  {
    assert "not_use"[4..7] == "use";
    assert Statements.OccursAt("not_use", "use", 4);
  }

  lemma OpposedAndContainedConflict(left: string, right: string)
    requires Statements.PolarityOf(left).Positive? && Statements.PolarityOf(right).Negative?
    requires Statements.Contains(right, left)
    ensures Statements.KeysConflict(left, right)
  {
  }

  lemma SomeKeysConflict() returns (left: string, right: string)
    ensures Statements.IsKey(left) && Statements.IsKey(right) && Statements.KeysConflict(left, right)
  {
    left, right := "use", "not_use";
    UseIsPositive();
    NotUseIsNegative();
    NotUseContainsUse();
    OpposedAndContainedConflict(left, right);
  }

  lemma LettersDiffer()
    ensures DistinctKeys(Letters, CognitionRules.RULES)
  {
    forall i: nat, j: nat | i < j
      ensures CognitionRules.RULES.key(Letters(i)) != CognitionRules.RULES.key(Letters(j))
    {
      LettersAreKeys(i);
      LettersAreKeys(j);
      assert |Letters(i)| != |Letters(j)|;
    }
  }

  lemma KeysInConflict(left: string, right: string)
    requires Statements.IsKey(left) && Statements.IsKey(right) && Statements.KeysConflict(left, right)
    ensures CognitionRules.RULES.conflict(CognitionRules.RULES.key(left), CognitionRules.RULES.key(right))
    ensures Statements.StatementsConflict(left, right)
  {
    KeysStay(left);
    KeysStay(right);
    Statements.ComparisonsFollowKeys(left, right, left, right);
  }

  /** Over the program's own comparisons: any two keys in conflict end up accepted side by side when as many open loops
      as a listing shows, or more, were stored between them. */
  lemma ConflictingKeysAreBothAccepted(left: string, right: string, k: nat)
    requires Statements.IsKey(left) && Statements.IsKey(right) && Statements.KeysConflict(left, right)
    requires k >= CLAIM_LIMIT
    ensures var claims := Run(Contradicted(left, right, Letters, k), CognitionRules.RULES).claims;
            && FIRST in claims && LAST in claims
            && claims[FIRST].kind == claims[LAST].kind && claims[FIRST].scope == claims[LAST].scope
            && claims[FIRST].status == Accepted && claims[LAST].status == Accepted
            && Statements.StatementsConflict(claims[FIRST].statement, claims[LAST].statement)
  {
    CognitionRules.RulesAreLawful();
    KeysInConflict(left, right);
    LettersDiffer();
    LargeScopeTurnsInconsistent(left, right, Letters, k, CognitionRules.RULES);
  }

  /** Such keys exist, so there is a run of the program's own that ends inconsistent. */
  lemma SomeRunEndsInconsistent() returns (events: seq<Event>)
    ensures !Consistent(Run(events, CognitionRules.RULES).claims, CognitionRules.RULES)
  {
    var left, right := SomeKeysConflict();
    var k: nat := CLAIM_LIMIT;
    CognitionRules.RulesAreLawful();
    KeysInConflict(left, right);
    LettersDiffer();
    LargeScopeTurnsInconsistent(left, right, Letters, k, CognitionRules.RULES);
    events := Contradicted(left, right, Letters, k);
  }
}
