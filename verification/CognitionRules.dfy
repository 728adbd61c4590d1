/** The comparisons the cognition layer really makes, and what the memory results say for them. */
module CognitionRules {
  import opened Prelude
  import opened MemoryClaims
  import MemoryConsistency
  import Statements

  function TypeName(kind: ClaimType): string {
    match kind
    case Decision => "decision"
    case OpenLoop => "open_loop"
    case Preference => "preference"
    case Risk => "risk"
    case OtherType(name) => name
  }

  function NormalKey(statement: string): Key { Key(Statements.NormalizedKey(statement)) }

  predicate Conflict(a: Key, b: Key) { Statements.KeysConflict(a.text, b.text) }

  predicate Overlap(a: Key, b: Key) { Statements.KeysOverlap(a.text, b.text) }

  function Subject(kind: ClaimType, statement: string): string { Statements.SubjectOf(TypeName(kind), statement) }

  const RULES := Rules(NormalKey, Conflict, Overlap, Subject)

  /** The store compares statements as `statements_conflict` and `statements_materially_overlap` do. */
  lemma RulesExactly(left: string, right: string)
    ensures RULES.conflict(RULES.key(left), RULES.key(right)) <==> Statements.StatementsConflict(left, right)
    ensures RULES.overlap(RULES.key(left), RULES.key(right)) <==> Statements.StatementsMateriallyOverlap(left, right)
    ensures RULES.key(left) == RULES.key(right) <==> Statements.NormalizedKey(left) == Statements.NormalizedKey(right)
  {
    Statements.ComparisonsFollowKeys(left, right, left, right);
  }

  /** Subjects stand under the type's name. */
  lemma SubjectsByType(kind: ClaimType, statement: string, name: string)
    requires match kind
             case Decision => name == "decision"
             case OpenLoop => name == "open_loop"
             case Preference => name == "preference"
             case Risk => name == "risk"
             case OtherType(other) => name == other
    ensures RULES.subject(kind, statement) == Statements.SubjectOf(name, statement)
  {
  }

  lemma RulesAreLawful()
    ensures Lawful(RULES)
  {
    forall a, b: Key ensures RULES.conflict(a, b) <==> RULES.conflict(b, a) {
      Statements.KeysCompareBothWays(a.text, b.text);
    }
    forall a: Key ensures !RULES.conflict(a, a) {
      Statements.KeysCompareBothWays(a.text, a.text);
    }
  }

  /** After every serial run over small scopes, no two accepted claims of one type and scope make statements that
      `statements_conflict` sets against each other, and no two claims of one type and scope share a normalized
      statement. */
  lemma AcceptedStatementsNeverConflict(events: seq<MemoryConsistency.Event>, a: Id, b: Id)
    requires MemoryConsistency.SmallScopes(events, RULES)
    requires var claims := MemoryConsistency.Run(events, RULES).claims;
             && a in claims && b in claims
             && claims[a].kind == claims[b].kind && claims[a].scope == claims[b].scope
    ensures var claims := MemoryConsistency.Run(events, RULES).claims;
            && (claims[a].status == Accepted && claims[b].status == Accepted ==>
                  !Statements.StatementsConflict(claims[a].statement, claims[b].statement))
            && (Statements.NormalizedKey(claims[a].statement) == Statements.NormalizedKey(claims[b].statement) ==> a == b)
  {
    var claims := MemoryConsistency.Run(events, RULES).claims;
    RulesAreLawful();
    MemoryConsistency.MemoryStaysConsistent(events, RULES);
    assert !MemoryConsistency.Clash(claims[a], claims[b], RULES);
    Statements.ComparisonsFollowKeys(claims[a].statement, claims[b].statement, claims[a].statement, claims[b].statement);
  }
}
