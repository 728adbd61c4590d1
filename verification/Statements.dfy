/** How the cognition layer compares statements: every comparison goes through the normalized key. */
module Statements {
  // ----- Keys -----

  predicate IsAlnum(c: char) { 'a' <= c <= 'z' || 'A' <= c <= 'Z' || '0' <= c <= '9' }

  /** `char::to_lowercase`, as far as ASCII letters and digits come of it: apart from the ASCII capitals only the Kelvin
      sign and the dotted capital I do; every other character is left as it is, for none of what it becomes is one. */
  function Lower(c: char): string {
    if 'A' <= c <= 'Z' then [('a' as int + (c as int - 'A' as int)) as char]
    else if c == '\U{212A}' then "k"
    else if c == '\U{130}' then "i\U{307}"
    else [c]
  }

  function LowerAll(s: string): string { if s == "" then "" else Lower(s[0]) + LowerAll(s[1..]) }

  /** Runs of anything else become one underscore; `lastWasSep`: one was just written. */
  function Separated(s: string, lastWasSep: bool): string {
    if s == "" then ""
    else if IsAlnum(s[0]) then [s[0]] + Separated(s[1..], false)
    else if !lastWasSep then "_" + Separated(s[1..], true)
    else Separated(s[1..], true)
  }

  function TrimLeft(s: string): string { if s != "" && s[0] == '_' then TrimLeft(s[1..]) else s }

  function TrimRight(s: string): string { if s != "" && s[|s| - 1] == '_' then TrimRight(s[..|s| - 1]) else s }

  function NormalizedKey(s: string): string { TrimRight(TrimLeft(Separated(LowerAll(s), false))) }

  /** What `normalized` and the flag will have become once `rest` is read. */
  function Continued(normalized: string, rest: string, lastWasSep: bool): string { normalized + Separated(rest, lastWasSep) }

  lemma ContinueOne(normalized: string, ch: char, rest: string, lastWasSep: bool)
    ensures Continued(normalized, [ch] + rest, lastWasSep) ==
            if IsAlnum(ch) then Continued(normalized + [ch], rest, false)
            else if !lastWasSep then Continued(normalized + "_", rest, true)
            else Continued(normalized, rest, true)
  {
    assert ([ch] + rest)[1..] == rest;
    assert normalized + ([ch] + Separated(rest, false)) == normalized + [ch] + Separated(rest, false);
    assert normalized + ("_" + Separated(rest, true)) == normalized + "_" + Separated(rest, true);
  }

  method AppendLowered(normalized0: string, lowered: string, lastWasSep0: bool, ghost rest: string)
    returns (normalized: string, lastWasSep: bool)
    ensures Continued(normalized, rest, lastWasSep) == Continued(normalized0, lowered + rest, lastWasSep0)
  {
    normalized, lastWasSep := normalized0, lastWasSep0;
    assert lowered[0..] == lowered;
    for j := 0 to |lowered|
      invariant Continued(normalized, lowered[j..] + rest, lastWasSep) == Continued(normalized0, lowered + rest, lastWasSep0)
    {
      var ch := lowered[j];
      assert lowered[j..] + rest == [ch] + (lowered[j + 1..] + rest);
      ContinueOne(normalized, ch, lowered[j + 1..] + rest, lastWasSep);
      if IsAlnum(ch) {
        normalized := normalized + [ch];
        lastWasSep := false;
      } else if !lastWasSep {
        normalized := normalized + "_";
        lastWasSep := true;
      }
    }
    assert lowered[|lowered|..] + rest == rest;
  }

  method NormalizeKey(input: string) returns (key: string)
    ensures key == NormalizedKey(input)
  {
    var normalized, lastWasSep := "", false;
    assert input[0..] == input && Continued("", LowerAll(input), false) == Separated(LowerAll(input), false);
    for i := 0 to |input|
      invariant Continued(normalized, LowerAll(input[i..]), lastWasSep) == Separated(LowerAll(input), false)
    {
      assert input[i..][1..] == input[i + 1..];
      normalized, lastWasSep := AppendLowered(normalized, Lower(input[i]), lastWasSep, LowerAll(input[i + 1..]));
    }
    assert normalized + "" == normalized;
    key := TrimRight(TrimLeft(normalized));
  }

  predicate KeyChars(k: string) {
    forall i | 0 <= i < |k| :: k[i] == '_' || (IsAlnum(k[i]) && Lower(k[i]) == [k[i]])
  }

  predicate NoDoubles(k: string) { forall i | 0 <= i < |k| - 1 :: k[i] == '_' ==> k[i + 1] != '_' }

  /** Lower-case words joined by single underscores. */
  predicate IsKey(k: string) {
    KeyChars(k) && NoDoubles(k) && (k != "" ==> k[0] != '_' && k[|k| - 1] != '_')
  }

  lemma LowerIsLower(c: char)
    ensures forall i | 0 <= i < |Lower(c)| :: IsAlnum(Lower(c)[i]) ==> Lower(Lower(c)[i]) == [Lower(c)[i]]
  {
  }

  lemma {:induction false} LowerAllIsLower(s: string)
    ensures forall i | 0 <= i < |LowerAll(s)| :: IsAlnum(LowerAll(s)[i]) ==> Lower(LowerAll(s)[i]) == [LowerAll(s)[i]]
  {
    if s != "" {
      LowerIsLower(s[0]);
      LowerAllIsLower(s[1..]);
    }
  }

  lemma {:induction false} SeparatedShape(s: string, lastWasSep: bool)
    requires forall i | 0 <= i < |s| :: IsAlnum(s[i]) ==> Lower(s[i]) == [s[i]]
    ensures var k := Separated(s, lastWasSep);
            KeyChars(k) && NoDoubles(k) && (lastWasSep && k != "" ==> k[0] != '_')
  {
    if s != "" {
      SeparatedShape(s[1..], false);
      SeparatedShape(s[1..], true);
    }
  }

  lemma {:induction false} TrimLeftShape(k: string)
    requires KeyChars(k) && NoDoubles(k)
    ensures var t := TrimLeft(k); KeyChars(t) && NoDoubles(t) && (t != "" ==> t[0] != '_')
  {
    if k != "" && k[0] == '_' {
      TrimLeftShape(k[1..]);
    }
  }

  lemma {:induction false} TrimRightShape(k: string)
    requires KeyChars(k) && NoDoubles(k) && (k != "" ==> k[0] != '_')
    ensures IsKey(TrimRight(k))
  {
    if k != "" && k[|k| - 1] == '_' {
      TrimRightShape(k[..|k| - 1]);
    }
  }

  lemma NormalizedIsKey(s: string)
    ensures IsKey(NormalizedKey(s))
  {
    LowerAllIsLower(s);
    SeparatedShape(LowerAll(s), false);
    TrimLeftShape(Separated(LowerAll(s), false));
    TrimRightShape(TrimLeft(Separated(LowerAll(s), false)));
  }

  lemma {:induction false} KeyIsSeparated(k: string, lastWasSep: bool)
    requires KeyChars(k) && NoDoubles(k) && (lastWasSep && k != "" ==> k[0] != '_')
    ensures LowerAll(k) == k && Separated(k, lastWasSep) == k
  {
    if k != "" {
      KeyIsSeparated(k[1..], k[0] == '_');
      assert k == [k[0]] + k[1..];
    }
  }

  /** Normalizing gives a key, and leaves keys alone: so normalizing twice is normalizing once. */
  lemma NormalizingIsIdempotent(s: string)
    ensures IsKey(NormalizedKey(s)) && NormalizedKey(NormalizedKey(s)) == NormalizedKey(s)
  {
    NormalizedIsKey(s);
    KeyIsSeparated(NormalizedKey(s), false);
  }

  // ----- Words -----

  function Split(k: string): (words: seq<string>)
    ensures words != []
  {
    if k == "" then [""]
    else
      var rest := Split(k[1..]);
      if k[0] == '_' then [""] + rest else [[k[0]] + rest[0]] + rest[1..]
  }

  function Words(k: string): set<string> { set w | w in Split(k) && |w| >= 3 }

  predicate OccursAt(text: string, part: string, i: nat) { i + |part| <= |text| && text[i..i + |part|] == part }

  predicate Contains(text: string, part: string) { exists i: nat :: i <= |text| && OccursAt(text, part, i) }

  predicate ContainsAny(text: string, parts: seq<string>) { exists i :: 0 <= i < |parts| && Contains(text, parts[i]) }

  function Max(a: nat, b: nat): nat { if a < b then b else a }

  /** The words both sets have make up at least `num / den` of the larger one. */
  predicate ShareAtLeast(a: set<string>, b: set<string>, num: nat, den: nat) {
    a != {} && b != {} && den * |a * b| >= num * Max(|a|, |b|)
  }

  // ----- Overlap and conflict -----

  datatype Polarity = Positive | Negative | Neutral

  const NEGATIVE_WORDS := ["avoid", "without", "not", "never", "remove", "removed", "deprecated", "deprecate"]
  const POSITIVE_WORDS := ["prefer", "keep", "use", "include", "lead", "add", "added"]

  function PolarityOf(key: string): Polarity {
    if ContainsAny(key, NEGATIVE_WORDS) then Negative
    else if ContainsAny(key, POSITIVE_WORDS) then Positive
    else Neutral
  }

  predicate Opposed(a: Polarity, b: Polarity) { (a.Positive? && b.Negative?) || (a.Negative? && b.Positive?) }

  predicate KeysOverlap(a: string, b: string) {
    a == b || Contains(a, b) || Contains(b, a) || ShareAtLeast(Words(a), Words(b), 3, 5)
  }

  predicate KeysConflict(a: string, b: string) {
    Opposed(PolarityOf(a), PolarityOf(b)) && (KeysOverlap(a, b) || |Words(a) * Words(b)| >= 3)
  }

  predicate StatementsMateriallyOverlap(left: string, right: string) { KeysOverlap(NormalizedKey(left), NormalizedKey(right)) }

  predicate StatementsConflict(left: string, right: string) {
    && Opposed(PolarityOf(NormalizedKey(left)), PolarityOf(NormalizedKey(right)))
    && (StatementsMateriallyOverlap(left, right)
        || |Words(NormalizedKey(left)) * Words(NormalizedKey(right))| >= 3)
  }

  const FILLER := [
    "the", "and", "still", "after", "before", "with", "without", "into", "from", "this", "that", "path", "flow", "work",
    "item", "issue", "logic", "code", "test", "tests", "fails", "failing", "missing", "needs", "need", "added",
    "explicit", "kept", "keep", "moved", "using", "uses", "use"]

  function CoreWords(statement: string): set<string> { set w | w in Words(NormalizedKey(statement)) && w !in FILLER }

  /** `core_statement_overlap(left, right) >= num / den`, for a positive threshold. */
  predicate CoreOverlapAtLeast(left: string, right: string, num: nat, den: nat) {
    ShareAtLeast(CoreWords(left), CoreWords(right), num, den)
  }

  lemma SharingIsSymmetric(a: set<string>, b: set<string>, num: nat, den: nat)
    ensures a * b == b * a
    ensures ShareAtLeast(a, b, num, den) <==> ShareAtLeast(b, a, num, den)
  {
    assert a * b == b * a;
  }

  lemma KeysCompareBothWays(a: string, b: string)
    ensures KeysOverlap(a, b) <==> KeysOverlap(b, a)
    ensures KeysConflict(a, b) <==> KeysConflict(b, a)
    ensures !KeysConflict(a, a)
  {
    SharingIsSymmetric(Words(a), Words(b), 3, 5);
  }

  /** Overlap and conflict are symmetric, depend on the normalized keys alone, and no statement conflicts with one of the
      same key. */
  lemma ComparisonsFollowKeys(left: string, right: string, left': string, right': string)
    requires NormalizedKey(left) == NormalizedKey(left') && NormalizedKey(right) == NormalizedKey(right')
    ensures StatementsConflict(left, right) <==> StatementsConflict(right', left')
    ensures StatementsMateriallyOverlap(left, right) <==> StatementsMateriallyOverlap(right', left')
    ensures StatementsConflict(left, right) <==> KeysConflict(NormalizedKey(left), NormalizedKey(right))
    ensures NormalizedKey(left) == NormalizedKey(right) ==> !StatementsConflict(left, right)
  {
    KeysCompareBothWays(NormalizedKey(left), NormalizedKey(right));
  }

  lemma CoreOverlapIsSymmetric(left: string, right: string, num: nat, den: nat)
    ensures CoreOverlapAtLeast(left, right, num, den) <==> CoreOverlapAtLeast(right, left, num, den)
  {
    SharingIsSymmetric(CoreWords(left), CoreWords(right), num, den);
  }

  // ----- Subjects -----

  const NOT_SUBJECT := [
    "prefer", "keep", "avoid", "use", "with", "without", "not", "include", "requires", "should", "still", "need", "needs",
    "must", "added", "add", "remove", "removed"]

  function Filtered(words: seq<string>): seq<string> {
    if words == [] then []
    else if words[0] in NOT_SUBJECT then Filtered(words[1..])
    else [words[0]] + Filtered(words[1..])
  }

  function Join(words: seq<string>): string {
    if words == [] then "" else if |words| == 1 then words[0] else words[0] + "_" + Join(words[1..])
  }

  function SubjectOf(claimType: string, statement: string): string {
    var normalized := NormalizedKey(statement);
    var filtered := Filtered(Split(normalized));
    claimType + ":" + if filtered == [] then normalized else Join(filtered)
  }
}
