/** What the normalized key of a statement is, told without the loop that computes it, and the comparisons of keys spelled
    out. */
module Keys {
  import opened Statements

  // ----- Runs of letters and digits -----

  /** How many letters and digits `s` starts with. */
  function RunLength(s: string): (k: nat)
    ensures k <= |s| && (forall i | 0 <= i < k :: IsAlnum(s[i])) && (k < |s| ==> !IsAlnum(s[k]))
  {
    if s == "" || !IsAlnum(s[0]) then 0
    else
      var k := 1 + RunLength(s[1..]);
      assert forall i | 0 < i < k :: s[i] == s[1..][i - 1];
      k
  }

  /** The maximal runs of letters and digits, in order. */
  function Runs(s: string): (runs: seq<string>)
    ensures forall i | 0 <= i < |runs| :: runs[i] != "" && forall j | 0 <= j < |runs[i]| :: IsAlnum(runs[i][j])
  {
    if s == "" then []
    else if !IsAlnum(s[0]) then Runs(s[1..])
    else [s[..RunLength(s)]] + Runs(s[RunLength(s)..])
  }

  lemma {:induction false} NoRunsNoWords(s: string)
    requires Runs(s) == []
    ensures forall i | 0 <= i < |s| :: !IsAlnum(s[i])
  {
    if s != "" {
      NoRunsNoWords(s[1..]);
      assert forall i | 0 < i < |s| :: s[i] == s[1..][i - 1];
    }
  }

  lemma {:induction false} RunIsCopied(s: string, lastWasSep: bool, k: nat)
    requires 0 < k <= |s| && forall i | 0 <= i < k :: IsAlnum(s[i])
    ensures Separated(s, lastWasSep) == s[..k] + Separated(s[k..], false)
  {
    if k == 1 {
      assert s[..1] == [s[0]];
    } else {
      RunIsCopied(s[1..], false, k - 1);
      assert s[..k] == [s[0]] + s[1..][..k - 1] && s[1..][k - 1..] == s[k..];
      assert [s[0]] + (s[1..][..k - 1] + Separated(s[k..], false)) == s[..k] + Separated(s[k..], false);
    }
  }

  /** A separator is still written after the last run when something follows it. */
  function Tail(s: string): string { if Runs(s) != [] && !IsAlnum(s[|s| - 1]) then "_" else "" }

  lemma {:induction false} SeparatedIsJoined(s: string)
    ensures Separated(s, true) == Join(Runs(s)) + Tail(s)
    decreases |s|
  {
    if s == "" {
    } else if !IsAlnum(s[0]) {
      SeparatedIsJoined(s[1..]);
      assert s[1..] != "" ==> s[1..][|s[1..]| - 1] == s[|s| - 1];
    } else {
      var k := RunLength(s);
      RunIsCopied(s, true, k);
      if k == |s| {
        assert s[..k] == s && s[k..] == "";
      } else {
        SeparatedIsJoined(s[k..]);
        SeparatorThenRest(s, k);
      }
    }
  }

  lemma SeparatorFirst(rest: string)
    requires rest != "" && !IsAlnum(rest[0])
    ensures Separated(rest, false) == "_" + Separated(rest, true)
  {
  }

  lemma JoinCons(first: string, others: seq<string>)
    ensures Join([first] + others) == if others == [] then first else first + "_" + Join(others)
  {
    assert ([first] + others)[1..] == others;
  }

  lemma RunsCons(s: string, k: nat)
    requires 0 < k < |s| && k == RunLength(s)
    ensures Runs(s) == [s[..k]] + Runs(s[k..])
  {
  }

  lemma TailOf(s: string, k: nat, others: seq<string>)
    requires 0 < k < |s| && k == RunLength(s) && others == Runs(s[k..])
    ensures Tail(s) == if others == [] then "_" else Tail(s[k..])
  {
    RunsCons(s, k);
    assert s[k..][|s[k..]| - 1] == s[|s| - 1];
    if others == [] {
      NoRunsNoWords(s[k..]);
    }
  }

  lemma Regroup(a: string, b: string, c: string, d: string)
    ensures a + (b + (c + d)) == a + b + c + d
  {
  }

  lemma SeparatorThenRest(s: string, k: nat)
    requires 0 < k < |s| && k == RunLength(s)
    requires Separated(s[k..], true) == Join(Runs(s[k..])) + Tail(s[k..])
    requires Separated(s, true) == s[..k] + Separated(s[k..], false)
    ensures Separated(s, true) == Join(Runs(s)) + Tail(s)
  {
    SeparatorFirst(s[k..]);
    RunsCons(s, k);
    TailOf(s, k, Runs(s[k..]));
    JoinCons(s[..k], Runs(s[k..]));
    Regroup(s[..k], "_", Join(Runs(s[k..])), Tail(s[k..]));
    assert s[..k] + ("_" + "") == s[..k] + "_";
  }

  lemma {:induction false} JoinShape(runs: seq<string>)
    requires runs != []
    requires forall i | 0 <= i < |runs| :: runs[i] != "" && forall j | 0 <= j < |runs[i]| :: IsAlnum(runs[i][j])
    ensures Join(runs) != "" && IsAlnum(Join(runs)[0]) && IsAlnum(Join(runs)[|Join(runs)| - 1])
  {
    if |runs| > 1 {
      JoinShape(runs[1..]);
      assert Join(runs) == runs[0] + "_" + Join(runs[1..]);
    }
  }

  lemma TrimsToJoined(key: string)
    requires key != "" && key[0] != '_' && key[|key| - 1] != '_'
    ensures TrimRight(TrimLeft(key)) == key && TrimRight(TrimLeft("_" + key)) == key
    ensures TrimRight(TrimLeft(key + "_")) == key && TrimRight(TrimLeft("_" + (key + "_"))) == key
  {
    assert ("_" + key)[1..] == key && (key + "_")[..|key|] == key;
    assert ("_" + (key + "_"))[1..] == key + "_";
    assert TrimLeft(key + "_") == key + "_";
  }

  /** The key is the runs of letters and digits of the lower-cased statement, joined by underscores. */
  lemma KeyExactly(statement: string)
    ensures NormalizedKey(statement) == Join(Runs(LowerAll(statement)))
  {
    var s := LowerAll(statement);
    SeparatedIsJoined(s);
    assert Separated(s, false) == (if s != "" && !IsAlnum(s[0]) then "_" else "") + Separated(s, true);
    if Runs(s) == [] {
      assert Separated(s, true) == "";
    } else {
      JoinShape(Runs(s));
      TrimsToJoined(Join(Runs(s)));
      assert Join(Runs(s)) + "" == Join(Runs(s));
      assert "" + Separated(s, true) == Separated(s, true);
    }
  }

  // ----- Words -----

  predicate NoSeparator(word: string) { forall i | 0 <= i < |word| :: word[i] != '_' }

  lemma {:induction false} SplitWord(word: string, rest: string)
    requires NoSeparator(word)
    ensures Split(word + "_" + rest) == [word] + Split(rest)
    ensures Split(word) == [word]
  {
    if word == "" {
      assert word + "_" + rest == "_" + rest && ("_" + rest)[1..] == rest;
    } else {
      SplitWord(word[1..], rest);
      assert (word + "_" + rest)[1..] == word[1..] + "_" + rest;
      assert [word[0]] + word[1..] == word;
    }
  }

  lemma {:induction false} SplitJoined(words: seq<string>)
    requires words != [] && forall i | 0 <= i < |words| :: NoSeparator(words[i])
    ensures Split(Join(words)) == words
  {
    if |words| == 1 {
      SplitWord(words[0], "");
    } else {
      SplitJoined(words[1..]);
      SplitWord(words[0], Join(words[1..]));
      assert words == [words[0]] + words[1..];
    }
  }

  /** The words that statements are compared by: the runs of at least three characters. */
  lemma WordsExactly(statement: string)
    ensures Words(NormalizedKey(statement)) == set run | run in Runs(LowerAll(statement)) && |run| >= 3
  {
    var runs := Runs(LowerAll(statement));
    KeyExactly(statement);
    forall i | 0 <= i < |runs| ensures NoSeparator(runs[i]) {
      assert forall j | 0 <= j < |runs[i]| :: IsAlnum(runs[i][j]);
    }
    if runs != [] {
      SplitJoined(runs);
    }
  }

  /** The core words leave out a fixed list of fillers. */
  lemma CoreWordsExactly(statement: string, word: string)
    ensures word in CoreWords(statement) <==>
            && word in Runs(LowerAll(statement)) && |word| >= 3
            && word !in [
                 "the", "and", "still", "after", "before", "with", "without", "into", "from", "this", "that", "path",
                 "flow", "work", "item", "issue", "logic", "code", "test", "tests", "fails", "failing", "missing", "needs",
                 "need", "added", "explicit", "kept", "keep", "moved", "using", "uses", "use"]
  {
    WordsExactly(statement);
  }

  // ----- Subjects -----

  /** A word that says something about the statement's attitude and not about its subject. */
  predicate IsAttitude(word: string) {
    word in ["prefer", "keep", "avoid", "use", "with", "without", "not", "include", "requires", "should", "still", "need",
             "needs", "must", "added", "add", "remove", "removed"]
  }

  lemma FilteredOne(word: string)
    ensures Filtered([word]) == if IsAttitude(word) then [] else [word]
  {
    assert [word][1..] == [];
  }

  /** Filtering goes word by word. */
  lemma {:induction false} FilteredJoins(a: seq<string>, b: seq<string>)
    ensures Filtered(a + b) == Filtered(a) + Filtered(b)
  {
    if a == [] {
      assert a + b == b;
    } else {
      assert (a + b)[1..] == a[1..] + b;
      FilteredJoins(a[1..], b);
    }
  }

  /** The subject of a statement: its type, and its words without those of attitude, or all of them if nothing is left. */
  lemma SubjectExactly(claimType: string, statement: string)
    requires Runs(LowerAll(statement)) != []
    ensures var words := Runs(LowerAll(statement));
            SubjectOf(claimType, statement) ==
            claimType + ":" + Join(if Filtered(words) == [] then words else Filtered(words))
  {
    var words := Runs(LowerAll(statement));
    KeyExactly(statement);
    forall i | 0 <= i < |words| ensures NoSeparator(words[i]) {
      assert forall j | 0 <= j < |words[i]| :: IsAlnum(words[i][j]);
    }
    SplitJoined(words);
  }

  // ----- Comparisons -----

  ghost predicate Within(part: string, text: string) { exists before, after :: text == before + part + after }

  lemma ContainsExactly(text: string, part: string)
    ensures Contains(text, part) <==> Within(part, text)
  {
    if i: nat :| i <= |text| && OccursAt(text, part, i) {
      assert text == text[..i] + part + text[i + |part|..];
    }
    if before, after :| text == before + part + after {
      assert OccursAt(text, part, |before|);
    }
  }

  /** Three fifths of the words of the one with more. */
  predicate SharesMost(a: set<string>, b: set<string>) {
    a != {} && b != {} && 5 * |a * b| >= 3 * |a| && 5 * |a * b| >= 3 * |b|
  }

  lemma OverlapExactly(a: string, b: string)
    ensures KeysOverlap(a, b) <==> Within(a, b) || Within(b, a) || SharesMost(Words(a), Words(b))
  {
    ContainsExactly(a, b);
    ContainsExactly(b, a);
    assert a == b ==> b == "" + a + "";
  }

  ghost predicate Mentions(key: string, words: seq<string>) { exists i :: 0 <= i < |words| && Within(words[i], key) }

  lemma MentionsExactly(key: string, words: seq<string>)
    ensures ContainsAny(key, words) <==> Mentions(key, words)
  {
    forall i | 0 <= i < |words| ensures Contains(key, words[i]) <==> Within(words[i], key) {
      ContainsExactly(key, words[i]);
    }
  }

  /** It mentions a word of refusal; or none of those and a word of assent. */
  ghost predicate Refuses(key: string) {
    Mentions(key, ["avoid", "without", "not", "never", "remove", "removed", "deprecated", "deprecate"])
  }

  ghost predicate Assents(key: string) {
    !Refuses(key) && Mentions(key, ["prefer", "keep", "use", "include", "lead", "add", "added"])
  }

  lemma PolarityExactly(key: string)
    ensures PolarityOf(key).Negative? <==> Refuses(key)
    ensures PolarityOf(key).Positive? <==> Assents(key)
  {
    MentionsExactly(key, NEGATIVE_WORDS);
    MentionsExactly(key, POSITIVE_WORDS);
  }

  /** Two keys are in conflict when one refuses, the other assents, and they overlap or share three words. */
  lemma ConflictExactly(a: string, b: string)
    ensures KeysConflict(a, b) <==>
            && ((Refuses(a) && Assents(b)) || (Assents(a) && Refuses(b)))
            && (Within(a, b) || Within(b, a) || SharesMost(Words(a), Words(b)) || |Words(a) * Words(b)| >= 3)
  {
    PolarityExactly(a);
    PolarityExactly(b);
    OverlapExactly(a, b);
  }

  /** Capitals become the small letter 32 places on; small letters and digits stay. */
  lemma LowerExactly(c: char)
    ensures 'A' <= c <= 'Z' ==> |Lower(c)| == 1 && Lower(c)[0] as int == c as int + 32
    ensures 'a' <= c <= 'z' || '0' <= c <= '9' ==> Lower(c) == [c]
    ensures c as int < 128 && !IsAlnum(c) ==> Lower(c) == [c]
  {
  }
}
