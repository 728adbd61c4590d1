/** White space as `str::trim` sees it. */
module Text {

  /** Unicode white space. */
  predicate IsWhite(c: char) {
    var n := c as int;
    || 0x9 <= n <= 0xD || n == 0x20 || n == 0x85 || n == 0xA0 || n == 0x1680 || 0x2000 <= n <= 0x200A
    || n == 0x2028 || n == 0x2029 || n == 0x202F || n == 0x205F || n == 0x3000
  }

  function TrimStart(s: string): string { if s != "" && IsWhite(s[0]) then TrimStart(s[1..]) else s }

  function TrimEnd(s: string): string { if s != "" && IsWhite(s[|s| - 1]) then TrimEnd(s[..|s| - 1]) else s }

  function Trim(s: string): string { TrimEnd(TrimStart(s)) }

  lemma {:induction false} TrimEndKeeps(s: string, i: nat)
    requires i < |s| && !IsWhite(s[i])
    ensures TrimEnd(s) <= s && i < |TrimEnd(s)|
  {
    if IsWhite(s[|s| - 1]) {
      TrimEndKeeps(s[..|s| - 1], i);
    }
  }

  lemma {:induction false} TrimEndDrops(core: string, white: string)
    requires core != "" && !IsWhite(core[|core| - 1])
    requires forall i | 0 <= i < |white| :: IsWhite(white[i])
    ensures TrimEnd(core + white) == core
  {
    var s := core + white;
    if white == "" {
      assert s == core;
    } else {
      assert s[..|s| - 1] == core + white[..|white| - 1];
      TrimEndDrops(core, white[..|white| - 1]);
    }
  }

  lemma {:induction false} TrimIsShorter(s: string)
    ensures |TrimStart(s)| <= |s| && |TrimEnd(s)| <= |s|
  {
    if s != "" {
      TrimIsShorter(s[1..]);
      TrimIsShorter(s[..|s| - 1]);
    }
  }

  lemma {:induction false} TrimStartShape(s: string)
    ensures TrimStart(s) == "" || !IsWhite(TrimStart(s)[0])
  {
    if s != "" && IsWhite(s[0]) {
      TrimStartShape(s[1..]);
    }
  }

  lemma {:induction false} TrimEndShape(s: string)
    requires s == "" || !IsWhite(s[0])
    ensures var t := TrimEnd(s); t == "" || (!IsWhite(t[0]) && !IsWhite(t[|t| - 1]))
  {
    if s != "" && IsWhite(s[|s| - 1]) {
      TrimEndShape(s[..|s| - 1]);
    }
  }

  predicate AllWhite(s: string) { forall i | 0 <= i < |s| :: IsWhite(s[i]) }

  /** Nothing left to trim. */
  predicate Trimmed(t: string) { t == "" || (!IsWhite(t[0]) && !IsWhite(t[|t| - 1])) }

  lemma {:induction false} TrimStartDrops(white: string, s: string)
    requires AllWhite(white)
    ensures TrimStart(white + s) == TrimStart(s)
  {
    if white == "" {
      assert white + s == s;
    } else {
      assert (white + s)[1..] == white[1..] + s;
      TrimStartDrops(white[1..], s);
    }
  }

  lemma {:induction false} TrimStartSplits(s: string) returns (white: string)
    ensures AllWhite(white) && s == white + TrimStart(s)
  {
    white := "";
    if s != "" && IsWhite(s[0]) {
      white := TrimStartSplits(s[1..]);
      assert s == [s[0]] + (white + TrimStart(s[1..])) == ([s[0]] + white) + TrimStart(s[1..]);
      white := [s[0]] + white;
    }
  }

  lemma {:induction false} TrimEndSplits(s: string) returns (white: string)
    ensures AllWhite(white) && s == TrimEnd(s) + white
  {
    white := "";
    if s != "" && IsWhite(s[|s| - 1]) {
      var n := |s| - 1;
      white := TrimEndSplits(s[..n]);
      assert s == (TrimEnd(s[..n]) + white) + [s[n]] == TrimEnd(s[..n]) + (white + [s[n]]);
      white := white + [s[n]];
    }
  }

  lemma TrimLeaves(before: string, t: string, after: string)
    requires AllWhite(before) && AllWhite(after) && Trimmed(t)
    ensures Trim(before + t + after) == t
  {
    assert before + t + after == before + (t + after);
    TrimStartDrops(before, t + after);
    if t == "" {
      assert t + after == after == after + "";
      TrimStartDrops(after, "");
    } else {
      assert (t + after)[0] == t[0];
      TrimEndDrops(t, after);
    }
  }

  predicate IsTrimming(s: string, before: string, t: string, after: string) {
    s == before + t + after && AllWhite(before) && AllWhite(after) && Trimmed(t)
  }

  lemma TrimSplits(s: string) returns (before: string, after: string)
    ensures IsTrimming(s, before, Trim(s), after)
  {
    before := TrimStartSplits(s);
    after := TrimEndSplits(TrimStart(s));
    TrimStartShape(s);
    TrimEndShape(TrimStart(s));
    assert before + (Trim(s) + after) == before + Trim(s) + after;
  }

  /** Trimming takes the white space off both ends and nothing else. */
  lemma TrimExactly(s: string, t: string)
    ensures Trim(s) == t <==> exists before, after :: IsTrimming(s, before, t, after)
  {
    if before, after :| IsTrimming(s, before, t, after) {
      TrimLeaves(before, t, after);
    }
    if Trim(s) == t {
      var before, after := TrimSplits(s);
      assert IsTrimming(s, before, t, after);
    }
  }

  /** The 25 white-space characters of Unicode. */
  lemma WhiteExactly(c: char)
    ensures IsWhite(c) <==>
            c as int in {9, 10, 11, 12, 13, 32, 133, 160, 5760, 8192, 8193, 8194, 8195, 8196, 8197, 8198, 8199, 8200, 8201,
                         8202, 8232, 8233, 8239, 8287, 12288}
  {
  }

  lemma TrimTwice(s: string)
    ensures Trim(Trim(s)) == Trim(s)
  {
    TrimStartShape(s);
    TrimEndShape(TrimStart(s));
  }
}
