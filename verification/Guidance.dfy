/** Which remembered claims are surfaced: a greedy, non-redundant choice of at most three. */
module Guidance {
  import opened Prelude
  import opened MemoryClaims
  import Statements

  const MAX_GUIDANCE_ITEMS := 3

  /** How claims are compared with claims, and statements with claims' statements. */
  datatype Comparisons = Comparisons(redundant: (Claim, Claim) -> bool, clashes: (string, string) -> bool)

  predicate IsSuppressed(selected: seq<Claim>, candidate: Claim, suppressed: seq<string>, c: Comparisons) {
    || (exists i :: 0 <= i < |suppressed| && c.clashes(suppressed[i], candidate.statement))
    || exists i :: 0 <= i < |selected| && c.redundant(selected[i], candidate)
  }

  /** Goes through the ranking from position `i`, stopping when enough are chosen. */
  function Scan(selected: seq<Claim>, ranked: seq<Claim>, i: nat, maxItems: nat, suppressed: seq<string>, c: Comparisons)
    : seq<Claim>
    requires i <= |ranked|
    decreases |ranked| - i
  {
    if i == |ranked| then selected
    else if IsSuppressed(selected, ranked[i], suppressed, c) then Scan(selected, ranked, i + 1, maxItems, suppressed, c)
    else
      var longer := selected + [ranked[i]];
      if |longer| >= maxItems then longer else Scan(longer, ranked, i + 1, maxItems, suppressed, c)
  }

  method ClaimIsSuppressed(selected: seq<Claim>, candidate: Claim, suppressed: seq<string>, c: Comparisons)
    returns (hit: bool)
    ensures hit == IsSuppressed(selected, candidate, suppressed, c)
  {
    for i := 0 to |suppressed|
      invariant forall k | 0 <= k < i :: !c.clashes(suppressed[k], candidate.statement)
    {
      if c.clashes(suppressed[i], candidate.statement) {
        return true;
      }
    }
    for i := 0 to |selected|
      invariant forall k | 0 <= k < i :: !c.redundant(selected[k], candidate)
    {
      if c.redundant(selected[i], candidate) {
        return true;
      }
    }
    return false;
  }

  method SelectRankedClaims(ranked: seq<Claim>, maxItems: nat, suppressed: seq<string>, c: Comparisons)
    returns (selected: seq<Claim>)
    ensures selected == Scan([], ranked, 0, maxItems, suppressed, c)
  {
    selected := [];
    for i := 0 to |ranked|
      invariant Scan([], ranked, 0, maxItems, suppressed, c) == Scan(selected, ranked, i, maxItems, suppressed, c)
    {
      var skip := ClaimIsSuppressed(selected, ranked[i], suppressed, c);
      if skip {
        continue;
      }
      selected := selected + [ranked[i]];
      if |selected| >= maxItems {
        return;
      }
    }
  }

  function Filled(accepted: seq<Claim>, candidates: seq<Claim>, maxItems: nat, suppressed: seq<string>, c: Comparisons)
    : seq<Claim>
  {
    if |accepted| >= maxItems then accepted else Scan(accepted, candidates, 0, maxItems, suppressed, c)
  }

  method FillWithCandidateClaims(accepted: seq<Claim>, candidates: seq<Claim>, maxItems: nat, suppressed: seq<string>,
                                 c: Comparisons)
    returns (filled: seq<Claim>)
    ensures filled == Filled(accepted, candidates, maxItems, suppressed, c)
  {
    filled := accepted;
    if |filled| >= maxItems {
      return;
    }
    for i := 0 to |candidates|
      invariant Scan(accepted, candidates, 0, maxItems, suppressed, c) == Scan(filled, candidates, i, maxItems, suppressed, c)
    {
      var skip := ClaimIsSuppressed(filled, candidates[i], suppressed, c);
      if skip {
        continue;
      }
      filled := filled + [candidates[i]];
      if |filled| >= maxItems {
        return;
      }
    }
  }

  // ----- What a greedy choice is -----

  function Picked(ranked: seq<Claim>, picks: seq<nat>): (claims: seq<Claim>)
    requires forall k | 0 <= k < |picks| :: picks[k] < |ranked|
    ensures |claims| == |picks| && forall k | 0 <= k < |picks| :: claims[k] == ranked[picks[k]]
  {
    seq(|picks|, k requires 0 <= k < |picks| => ranked[picks[k]])
  }

  predicate Rising(picks: seq<nat>, bound: nat) {
    && (forall k | 0 <= k < |picks| :: picks[k] < bound)
    && forall j, k | 0 <= j < k < |picks| :: picks[j] < picks[k]
  }

  /** How many of the picks lie before position `j`. */
  function PicksBefore(picks: seq<nat>, j: nat): (n: nat)
    ensures n <= |picks|
  {
    if picks == [] then 0
    else if picks[|picks| - 1] < j then |picks|
    else PicksBefore(picks[..|picks| - 1], j)
  }

  /** What a choice is made from: the claims chosen already, and a ranking to add from. */
  datatype Offer = Offer(start: seq<Claim>, ranked: seq<Claim>, suppressed: seq<string>, c: Comparisons)

  function ChosenBy(o: Offer, picks: seq<nat>): seq<Claim>
    requires forall k | 0 <= k < |picks| :: picks[k] < |o.ranked|
  {
    o.start + Picked(o.ranked, picks)
  }

  /** The pick was neither suppressed nor redundant with what was chosen before it. */
  predicate PickedFairly(o: Offer, picks: seq<nat>, k: nat)
    requires k < |picks| && Rising(picks, |o.ranked|)
  {
    !IsSuppressed(ChosenBy(o, picks[..k]), o.ranked[picks[k]], o.suppressed, o.c)
  }

  /** The position was suppressed or redundant with what was chosen before it. */
  predicate PassedOverFairly(o: Offer, picks: seq<nat>, j: nat)
    requires j < |o.ranked| && Rising(picks, |o.ranked|)
  {
    IsSuppressed(ChosenBy(o, picks[..PicksBefore(picks, j)]), o.ranked[j], o.suppressed, o.c)
  }

  /** Positions are picked in order and fairly, and so were all others passed over, save those that come after the last
      pick when there was no more room. */
  ghost predicate IsGreedy(o: Offer, picks: seq<nat>, maxItems: nat) {
    && Rising(picks, |o.ranked|)
    && (forall k | 0 <= k < |picks| :: PickedFairly(o, picks, k))
    && forall j: nat | j < |o.ranked| && j !in picks
                       && (PicksBefore(picks, j) < |picks| || |o.start| + |picks| < maxItems) ::
         PassedOverFairly(o, picks, j)
  }

  /** A choice among the first `i` positions. */
  ghost predicate GreedySoFar(o: Offer, picks: seq<nat>, i: nat) {
    && i <= |o.ranked| && Rising(picks, i)
    && (forall k | 0 <= k < |picks| :: PickedFairly(o, picks, k))
    && forall j: nat | j < i && j !in picks :: PassedOverFairly(o, picks, j)
  }

  lemma {:induction false} PicksBeforeAll(picks: seq<nat>, j: nat)
    requires forall k | 0 <= k < |picks| :: picks[k] < j
    ensures PicksBefore(picks, j) == |picks|
  {
  }

  lemma {:induction false} PicksBeforeSnoc(picks: seq<nat>, next: nat, j: nat)
    requires j <= next
    ensures PicksBefore(picks + [next], j) == PicksBefore(picks, j)
  {
    assert (picks + [next])[..|picks|] == picks;
  }

  lemma SkipStaysGreedy(o: Offer, picks: seq<nat>, i: nat)
    requires i < |o.ranked| && GreedySoFar(o, picks, i)
    requires IsSuppressed(ChosenBy(o, picks), o.ranked[i], o.suppressed, o.c)
    ensures GreedySoFar(o, picks, i + 1)
  {
    PicksBeforeAll(picks, i);
    assert picks[..|picks|] == picks;
    assert PassedOverFairly(o, picks, i);
  }

  lemma EarlierPickStays(o: Offer, picks: seq<nat>, i: nat, k: nat)
    requires i < |o.ranked| && Rising(picks, i) && k < |picks| && PickedFairly(o, picks, k)
    ensures Rising(picks + [i], i + 1) && PickedFairly(o, picks + [i], k)
  {
    assert (picks + [i])[..k] == picks[..k];
  }

  lemma EarlierPassStays(o: Offer, picks: seq<nat>, i: nat, j: nat)
    requires i < |o.ranked| && Rising(picks, i) && j < i && PassedOverFairly(o, picks, j)
    ensures Rising(picks + [i], i + 1) && PassedOverFairly(o, picks + [i], j)
  {
    PicksBeforeSnoc(picks, i, j);
    assert (picks + [i])[..PicksBefore(picks, j)] == picks[..PicksBefore(picks, j)];
  }

  lemma PickStaysGreedy(o: Offer, picks: seq<nat>, i: nat)
    requires i < |o.ranked| && GreedySoFar(o, picks, i)
    requires !IsSuppressed(ChosenBy(o, picks), o.ranked[i], o.suppressed, o.c)
    ensures GreedySoFar(o, picks + [i], i + 1)
  {
    var longer := picks + [i];
    assert longer[..|picks|] == picks && PickedFairly(o, longer, |picks|);
    forall k | 0 <= k < |picks| ensures PickedFairly(o, longer, k) {
      EarlierPickStays(o, picks, i, k);
    }
    forall j: nat | j < i + 1 && j !in longer ensures PassedOverFairly(o, longer, j) {
      assert longer[|picks|] == i;
      assert forall k | 0 <= k < |picks| :: longer[k] == picks[k];
      EarlierPassStays(o, picks, i, j);
    }
  }

  lemma {:induction false} ScanPicks(o: Offer, picks: seq<nat>, i: nat, maxItems: nat) returns (all: seq<nat>)
    requires GreedySoFar(o, picks, i) && |o.start| + |picks| < maxItems
    ensures IsGreedy(o, all, maxItems) && |o.start| + |all| <= maxItems
    ensures Scan(ChosenBy(o, picks), o.ranked, i, maxItems, o.suppressed, o.c) == ChosenBy(o, all)
    decreases |o.ranked| - i
  {
    var selected := ChosenBy(o, picks);
    if i == |o.ranked| {
      all := picks;
    } else if IsSuppressed(selected, o.ranked[i], o.suppressed, o.c) {
      SkipStaysGreedy(o, picks, i);
      all := ScanPicks(o, picks, i + 1, maxItems);
    } else {
      all := ScanPicksOne(o, picks, i, maxItems);
    }
  }

  lemma ScanPicksOne(o: Offer, picks: seq<nat>, i: nat, maxItems: nat) returns (all: seq<nat>)
    requires GreedySoFar(o, picks, i) && |o.start| + |picks| < maxItems && i < |o.ranked|
    requires !IsSuppressed(ChosenBy(o, picks), o.ranked[i], o.suppressed, o.c)
    ensures IsGreedy(o, all, maxItems) && |o.start| + |all| <= maxItems
    ensures Scan(ChosenBy(o, picks), o.ranked, i, maxItems, o.suppressed, o.c) == ChosenBy(o, all)
    decreases |o.ranked| - i, 0
  {
    var selected := ChosenBy(o, picks);
    all := picks + [i];
    PickStaysGreedy(o, picks, i);
    assert ChosenBy(o, all) == selected + [o.ranked[i]];
    if |selected| + 1 >= maxItems {
      CapIsGreedy(o, all, i, maxItems);
    } else {
      all := ScanPicks(o, all, i + 1, maxItems);
    }
  }

  lemma {:induction false} PicksBeforeLast(picks: seq<nat>, j: nat)
    requires picks != [] && j > picks[|picks| - 1]
    ensures PicksBefore(picks, j) == |picks|
  {
  }

  lemma CapIsGreedy(o: Offer, picks: seq<nat>, i: nat, maxItems: nat)
    requires i < |o.ranked| && GreedySoFar(o, picks, i + 1)
    requires picks != [] && picks[|picks| - 1] == i && |o.start| + |picks| >= maxItems
    ensures IsGreedy(o, picks, maxItems)
  {
    forall j: nat | j < |o.ranked| && j !in picks && PicksBefore(picks, j) < |picks| ensures j < i + 1 {
      if j > i {
        PicksBeforeLast(picks, j);
      }
    }
  }

  /** Selecting and filling make greedy choices, and end with at most `maxItems` claims. */
  lemma FillIsGreedy(ranked: seq<Claim>, candidates: seq<Claim>, maxItems: nat, suppressed: seq<string>, c: Comparisons)
    returns (picks: seq<nat>, morePicks: seq<nat>)
    requires maxItems >= 1
    ensures IsGreedy(Offer([], ranked, suppressed, c), picks, maxItems)
    ensures IsGreedy(Offer(Picked(ranked, picks), candidates, suppressed, c), morePicks, maxItems)
    ensures Filled(Scan([], ranked, 0, maxItems, suppressed, c), candidates, maxItems, suppressed, c) ==
            Picked(ranked, picks) + Picked(candidates, morePicks)
    ensures |picks| + |morePicks| <= maxItems
  {
    var first := Offer([], ranked, suppressed, c);
    assert ChosenBy(first, []) == [];
    picks := ScanPicks(first, [], 0, maxItems);
    var accepted := Picked(ranked, picks);
    assert ChosenBy(first, picks) == accepted;
    var second := Offer(accepted, candidates, suppressed, c);
    assert ChosenBy(second, []) == accepted;
    if |accepted| >= maxItems {
      morePicks := [];
    } else {
      morePicks := ScanPicks(second, [], 0, maxItems);
    }
  }

  /** No chosen claim is suppressed, and none is redundant with an earlier one. */
  ghost predicate Presentable(claims: seq<Claim>, suppressed: seq<string>, c: Comparisons) {
    && (forall i, k | 0 <= i < |suppressed| && 0 <= k < |claims| :: !c.clashes(suppressed[i], claims[k].statement))
    && forall j, k | 0 <= j < k < |claims| :: !c.redundant(claims[j], claims[k])
  }

  lemma GreedyIsPresentable(o: Offer, picks: seq<nat>, maxItems: nat)
    requires IsGreedy(o, picks, maxItems) && Presentable(o.start, o.suppressed, o.c)
    ensures Presentable(ChosenBy(o, picks), o.suppressed, o.c)
  {
    var claims := ChosenBy(o, picks);
    forall j, k | 0 <= j < k < |claims| ensures !o.c.redundant(claims[j], claims[k]) {
      if k >= |o.start| {
        var p := k - |o.start|;
        assert PickedFairly(o, picks, p);
        assert ChosenBy(o, picks[..p])[j] == claims[j];
      }
    }
    forall i, k | 0 <= i < |o.suppressed| && 0 <= k < |claims|
      ensures !o.c.clashes(o.suppressed[i], claims[k].statement)
    {
      if k >= |o.start| {
        assert PickedFairly(o, picks, k - |o.start|);
      }
    }
  }

  function StatementsOf(claims: seq<Claim>): seq<string> { seq(|claims|, i requires 0 <= i < |claims| => claims[i].statement) }

  /** What is surfaced of the decisions, and of the preferences given the decisions. */
  function Surfaced(ranked: seq<Claim>, candidates: seq<Claim>, suppressed: seq<string>, c: Comparisons): seq<Claim> {
    Filled(Scan([], ranked, 0, MAX_GUIDANCE_ITEMS, suppressed, c), candidates, MAX_GUIDANCE_ITEMS, suppressed, c)
  }

  lemma SurfacedIsPresentable(ranked: seq<Claim>, candidates: seq<Claim>, suppressed: seq<string>, c: Comparisons)
    ensures var shown := Surfaced(ranked, candidates, suppressed, c);
            && |shown| <= MAX_GUIDANCE_ITEMS && Presentable(shown, suppressed, c)
            && forall claim | claim in shown :: claim in ranked || claim in candidates
  {
    var picks, morePicks := FillIsGreedy(ranked, candidates, MAX_GUIDANCE_ITEMS, suppressed, c);
    var first := Offer([], ranked, suppressed, c);
    GreedyIsPresentable(first, picks, MAX_GUIDANCE_ITEMS);
    assert ChosenBy(first, picks) == Picked(ranked, picks);
    GreedyIsPresentable(Offer(Picked(ranked, picks), candidates, suppressed, c), morePicks, MAX_GUIDANCE_ITEMS);
  }

  /** Greedy-maximal: while there is room, every claim that is not surfaced clashes with a suppressed statement or is
      redundant with one that is. */
  lemma SurfacedIsMaximal(ranked: seq<Claim>, candidates: seq<Claim>, suppressed: seq<string>, c: Comparisons, claim: Claim)
    requires claim in ranked || claim in candidates
    ensures var shown := Surfaced(ranked, candidates, suppressed, c);
            |shown| < 3 && claim !in shown ==> IsSuppressed(shown, claim, suppressed, c)
  {
    var picks, morePicks := FillIsGreedy(ranked, candidates, MAX_GUIDANCE_ITEMS, suppressed, c);
    var first := Offer([], ranked, suppressed, c);
    var second := Offer(Picked(ranked, picks), candidates, suppressed, c);
    var shown := ChosenBy(second, morePicks);
    assert ChosenBy(first, picks) == Picked(ranked, picks);
    if |shown| < MAX_GUIDANCE_ITEMS && claim !in shown {
      if claim in ranked {
        NotChosenIsSuppressed(first, picks, MAX_GUIDANCE_ITEMS, claim);
        MoreSuppressed(ChosenBy(first, picks), shown, claim, suppressed, c);
      } else {
        NotChosenIsSuppressed(second, morePicks, MAX_GUIDANCE_ITEMS, claim);
      }
    }
  }

  lemma NotPicked(o: Offer, picks: seq<nat>, j: nat)
    requires Rising(picks, |o.ranked|) && j < |o.ranked| && o.ranked[j] !in ChosenBy(o, picks)
    ensures j !in picks
  {
    var chosen, added := ChosenBy(o, picks), Picked(o.ranked, picks);
    forall k | 0 <= k < |picks| ensures picks[k] != j {
      assert chosen[|o.start| + k] == added[k] == o.ranked[picks[k]];
    }
  }

  lemma NotChosenIsSuppressed(o: Offer, picks: seq<nat>, maxItems: nat, claim: Claim)
    requires IsGreedy(o, picks, maxItems) && |o.start| + |picks| < maxItems
    requires claim in o.ranked && claim !in ChosenBy(o, picks)
    ensures IsSuppressed(ChosenBy(o, picks), claim, o.suppressed, o.c)
  {
    var j: nat :| j < |o.ranked| && o.ranked[j] == claim;
    NotPicked(o, picks, j);
    assert PassedOverFairly(o, picks, j);
    MoreSuppressed(ChosenBy(o, picks[..PicksBefore(picks, j)]), ChosenBy(o, picks), claim, o.suppressed, o.c);
  }

  lemma MoreSuppressed(some: seq<Claim>, more: seq<Claim>, claim: Claim, suppressed: seq<string>, c: Comparisons)
    requires some <= more && IsSuppressed(some, claim, suppressed, c)
    ensures IsSuppressed(more, claim, suppressed, c)
  {
    if exists i :: 0 <= i < |some| && c.redundant(some[i], claim) {
      var i :| 0 <= i < |some| && c.redundant(some[i], claim);
      assert c.redundant(more[i], claim);
    }
  }

  // ----- The comparisons the cognition layer makes -----

  predicate ShareEvidence(left: Claim, right: Claim) { exists ref :: ref in right.evidence && ref in left.evidence }

  predicate ClaimsRedundant(left: Claim, right: Claim) {
    || Statements.StatementsConflict(left.statement, right.statement)
    || (&& left.kind == right.kind
        && (|| left.subject == right.subject
            || Statements.StatementsMateriallyOverlap(left.statement, right.statement)
            || (Statements.CoreOverlapAtLeast(left.statement, right.statement, 1, 2) && ShareEvidence(left, right))
            || Statements.CoreOverlapAtLeast(left.statement, right.statement, 3, 4)))
  }

  predicate StatementsClash(left: string, right: string) {
    Statements.StatementsMateriallyOverlap(left, right) || Statements.StatementsConflict(left, right)
  }

  const COMPARISONS := Comparisons(ClaimsRedundant, StatementsClash)

  lemma RedundancyIsSymmetric(left: Claim, right: Claim)
    ensures ClaimsRedundant(left, right) <==> ClaimsRedundant(right, left)
  {
    Statements.ComparisonsFollowKeys(left.statement, right.statement, left.statement, right.statement);
    Statements.CoreOverlapIsSymmetric(left.statement, right.statement, 1, 2);
    Statements.CoreOverlapIsSymmetric(left.statement, right.statement, 3, 4);
  }

  /** Neither says again what the other says, nor contradicts it: the statements are not in conflict; and two claims of
      one type have different subjects, do not overlap, and share less than three quarters of their core words, or less
      than half if they also share evidence. */
  predicate Apart(a: Claim, b: Claim) {
    var (x, y) := (Statements.CoreWords(a.statement), Statements.CoreWords(b.statement));
    && !Statements.StatementsConflict(a.statement, b.statement)
    && (a.kind == b.kind ==>
          && a.subject != b.subject && !Statements.StatementsMateriallyOverlap(a.statement, b.statement)
          && (x != {} && y != {} ==>
                && (4 * |x * y| < 3 * |x| || 4 * |x * y| < 3 * |y|)
                && (a.evidence.Keys * b.evidence.Keys != {} ==> 2 * |x * y| < |x| || 2 * |x * y| < |y|)))
  }

  lemma SharesExactly(x: set<string>, y: set<string>)
    ensures Statements.ShareAtLeast(x, y, 3, 4) <==> x != {} && y != {} && 4 * |x * y| >= 3 * |x| && 4 * |x * y| >= 3 * |y|
    ensures Statements.ShareAtLeast(x, y, 1, 2) <==> x != {} && y != {} && 2 * |x * y| >= |x| && 2 * |x * y| >= |y|
  {
  }

  lemma EvidenceSharedExactly(a: Claim, b: Claim)
    ensures ShareEvidence(a, b) <==> a.evidence.Keys * b.evidence.Keys != {}
  {
    if ShareEvidence(a, b) {
      var ref :| ref in b.evidence && ref in a.evidence;
      assert ref in a.evidence.Keys * b.evidence.Keys;
    }
    if ref :| ref in a.evidence.Keys * b.evidence.Keys {
      assert ref in b.evidence && ref in a.evidence;
    }
  }

  lemma ApartExactly(a: Claim, b: Claim)
    ensures !ClaimsRedundant(a, b) <==> Apart(a, b)
  {
    EvidenceSharedExactly(a, b);
    SharesExactly(Statements.CoreWords(a.statement), Statements.CoreWords(b.statement));
  }

  /** The surfaced decisions and preferences: at most three of each, any two of either apart, and no preference
      overlapping or contradicting a decision. */
  lemma GuidanceIsConsistent(decisions: seq<Claim>, candidateDecisions: seq<Claim>, preferences: seq<Claim>,
                             candidatePreferences: seq<Claim>)
    ensures var shown := Surfaced(decisions, candidateDecisions, [], COMPARISONS);
            var liked := Surfaced(preferences, candidatePreferences, StatementsOf(shown), COMPARISONS);
            && |shown| <= 3 && |liked| <= 3
            && (forall j, k | 0 <= j < |shown| && 0 <= k < |shown| && j != k :: Apart(shown[j], shown[k]))
            && (forall j, k | 0 <= j < |liked| && 0 <= k < |liked| && j != k :: Apart(liked[j], liked[k]))
            && forall j, k | 0 <= j < |shown| && 0 <= k < |liked| ::
                 && !Statements.StatementsMateriallyOverlap(shown[j].statement, liked[k].statement)
                 && !Statements.StatementsConflict(shown[j].statement, liked[k].statement)
  {
    var shown := Surfaced(decisions, candidateDecisions, [], COMPARISONS);
    var liked := Surfaced(preferences, candidatePreferences, StatementsOf(shown), COMPARISONS);
    SurfacedIsPresentable(decisions, candidateDecisions, [], COMPARISONS);
    SurfacedIsPresentable(preferences, candidatePreferences, StatementsOf(shown), COMPARISONS);
    PairwiseApart(shown, []);
    PairwiseApart(liked, StatementsOf(shown));
    forall j, k | 0 <= j < |shown| && 0 <= k < |liked|
      ensures !StatementsClash(shown[j].statement, liked[k].statement)
    {
      assert !COMPARISONS.clashes(StatementsOf(shown)[j], liked[k].statement);
    }
  }

  lemma PairwiseApart(claims: seq<Claim>, suppressed: seq<string>)
    requires Presentable(claims, suppressed, COMPARISONS)
    ensures forall j, k | 0 <= j < |claims| && 0 <= k < |claims| && j != k :: Apart(claims[j], claims[k])
  {
    forall j, k | 0 <= j < |claims| && 0 <= k < |claims| && j != k ensures Apart(claims[j], claims[k]) {
      RedundancyIsSymmetric(claims[j], claims[k]);
      ApartExactly(claims[j], claims[k]);
      assert j < k ==> !COMPARISONS.redundant(claims[j], claims[k]);
      assert k < j ==> !COMPARISONS.redundant(claims[k], claims[j]);
    }
  }
}
