/** The text the storage layer hashes to name a payload: members in key order, no white space,
    `serde_json` string escapes. `Parse` is the reference inverse that shows the text loses nothing. */
module CanonicalJson {
  import opened Prelude
  import opened Decimal
  import opened Json

  // ----- Strings -----

  const BACKSPACE := '\U{0008}'
  const FORM_FEED := '\U{000C}'

  const QUOTATION: char := '\U{0022}'
  const BACKSLASH: char := '\U{005C}'
  const BRACKET: char := '\U{005B}'
  const BRACKET_END: char := '\U{005D}'
  const BRACE: char := '\U{007B}'
  const BRACE_END: char := '\U{007D}'

  function HexDigit(d: nat): char
    requires d < 16
  {
    if d < 10 then '0' + d as char else 'a' + (d - 10) as char
  }

  function Escape(c: char): (e: string)
    ensures e != "" && e[0] != QUOTATION
  {
    if c == QUOTATION then "\\\""
    else if c == BACKSLASH then "\\\\"
    else if c == BACKSPACE then "\\b"
    else if c == FORM_FEED then "\\f"
    else if c == '\n' then "\\n"
    else if c == '\r' then "\\r"
    else if c == '\t' then "\\t"
    else if c < ' ' then "\\u00" + [HexDigit(c as nat / 16), HexDigit(c as nat % 16)]
    else [c]
  }

  predicate IsLowerHex(c: char) { '0' <= c <= '9' || 'a' <= c <= 'f' }

  /** Quotation mark, backslash and the five named controls take two characters, every other control six, in lower-case
      hexadecimal, and nothing else is escaped. */
  lemma EscapedExactly(c: char)
    ensures |Escape(c)| ==
            if c in [QUOTATION, BACKSLASH, BACKSPACE, FORM_FEED, '\n', '\r', '\t'] then 2 else if c < ' ' then 6 else 1
    ensures |Escape(c)| == 1 ==> Escape(c) == [c]
    ensures |Escape(c)| > 1 ==> Escape(c)[0] == BACKSLASH
    ensures |Escape(c)| == 6 ==> Escape(c)[..4] == "\\u00" && IsLowerHex(Escape(c)[4]) && IsLowerHex(Escape(c)[5])
  {
  }

  function EscapeAll(s: string): string {
    if s == "" then "" else Escape(s[0]) + EscapeAll(s[1..])
  }

  function Quote(s: string): string { "\"" + EscapeAll(s) + "\"" }

  function HexValue(c: char): Option<nat> {
    if '0' <= c <= '9' then Some((c - '0') as nat)
    else if 'a' <= c <= 'f' then Some((c - 'a') as nat + 10)
    else None
  }

  /** One possibly escaped character at the front of `s`. */
  function ParseChar(s: string): (r: Option<(char, string)>)
    ensures r.Some? ==> |r.value.1| < |s|
  {
    if s == "" || s[0] < ' ' || s[0] == QUOTATION then None
    else if s[0] != BACKSLASH then Some((s[0], s[1..]))
    else if |s| < 2 then None
    else if s[1] == QUOTATION || s[1] == BACKSLASH then Some((s[1], s[2..]))
    else if s[1] == 'b' then Some((BACKSPACE, s[2..]))
    else if s[1] == 'f' then Some((FORM_FEED, s[2..]))
    else if s[1] == 'n' then Some(('\n', s[2..]))
    else if s[1] == 'r' then Some(('\r', s[2..]))
    else if s[1] == 't' then Some(('\t', s[2..]))
    else if |s| >= 6 && s[1..4] == "u00" && HexValue(s[4]).Some? && HexValue(s[5]).Some? then
      Some(((16 * HexValue(s[4]).value + HexValue(s[5]).value) as char, s[6..]))
    else None
  }

  /** The rest of a string after its opening quote. */
  function ParseString(s: string): (r: Option<(string, string)>)
    ensures r.Some? ==> |r.value.1| < |s|
    decreases |s|
  {
    if s == "" then None
    else if s[0] == QUOTATION then Some(("", s[1..]))
    else match ParseChar(s)
      case None => None
      case Some((c, more)) =>
        match ParseString(more)
        case None => None
        case Some((text, rest)) => Some(([c] + text, rest))
  }

  lemma ParseEscaped(c: char, more: string)
    ensures ParseChar(Escape(c) + more) == Some((c, more))
  {
    var e := Escape(c);
    var s := e + more;
    assert s[|e|..] == more;
    assert forall i | 0 <= i < |e| :: s[i] == e[i];
    if |e| == 6 {
      assert s[1..4] == e[1..4] == "u00";
    }
  }

  lemma {:induction false} ParseQuoted(t: string, rest: string)
    ensures ParseString(EscapeAll(t) + "\"" + rest) == Some((t, rest))
  {
    if t == "" {
      assert EscapeAll(t) + "\"" + rest == "\"" + rest;
    } else {
      var more := EscapeAll(t[1..]) + "\"" + rest;
      assert EscapeAll(t) + "\"" + rest == Escape(t[0]) + more;
      ParseEscaped(t[0], more);
      ParseQuoted(t[1..], rest);
      assert (Escape(t[0]) + more)[0] == Escape(t[0])[0];
      assert [t[0]] + t[1..] == t;
    }
  }

  // ----- Values -----

  function Integer(n: int): string { if n < 0 then "-" + Digits(-n) else Digits(n) }

  /** The text of `v` with members in the order they stand. */
  function Render(v: Value): (s: string)
    ensures s != "" && s[0] != BRACKET_END
    decreases v, 1
  {
    match v
    case Null => "null"
    case Bool(b) => if b then "true" else "false"
    case Number(n) => Integer(n)
    case String(t) => Quote(t)
    case Array(items) => "[" + RenderItems(items) + "]"
    case Object(ms) => "{" + RenderMembers(ms) + "}"
  }

  function RenderItems(items: seq<Value>): string
    decreases items, 0
  {
    if items == [] then ""
    else if |items| == 1 then Render(items[0])
    else Render(items[0]) + "," + RenderItems(items[1..])
  }

  function RenderMembers(ms: seq<Member>): string
    decreases ms, 0
  {
    if ms == [] then ""
    else
      var first := RenderMember(ms[0]);
      if |ms| == 1 then first else first + "," + RenderMembers(ms[1..])
  }

  function RenderMember(m: Member): string
    decreases m, 0
  {
    Quote(m.key) + ":" + Render(m.value)
  }

  /** The first character decides what follows. */
  function ParseValue(s: string): (r: Option<(Value, string)>)
    ensures r.Some? ==> |r.value.1| < |s|
    decreases |s|, 2
  {
    if s == "" then None
    else if s[0] == QUOTATION then
      match ParseString(s[1..]) case None => None case Some((t, rest)) => Some((String(t), rest))
    else if s[0] == BRACKET then ParseArray(s[1..])
    else if s[0] == BRACE then ParseObject(s[1..])
    else if s[0] == '-' || IsDigit(s[0]) then ParseNumber(s)
    else ParseWord(s)
  }

  function ParseWord(s: string): (r: Option<(Value, string)>)
    ensures r.Some? ==> |r.value.1| < |s|
  {
    if "null" <= s then Some((Null, s[4..]))
    else if "true" <= s then Some((Bool(true), s[4..]))
    else if "false" <= s then Some((Bool(false), s[5..]))
    else None
  }

  /** After `[`. */
  function ParseArray(s: string): (r: Option<(Value, string)>)
    ensures r.Some? ==> |r.value.1| < |s|
    decreases |s|, 4
  {
    if s != "" && s[0] == BRACKET_END then Some((Array([]), s[1..]))
    else match ParseItems(s) case None => None case Some((items, rest)) => Some((Array(items), rest))
  }

  /** After `{`. */
  function ParseObject(s: string): (r: Option<(Value, string)>)
    ensures r.Some? ==> |r.value.1| < |s|
    decreases |s|, 4
  {
    if s != "" && s[0] == BRACE_END then Some((Object([]), s[1..]))
    else match ParseMembers(s) case None => None case Some((ms, rest)) => Some((Object(ms), rest))
  }

  function ParseNumber(s: string): (r: Option<(Value, string)>)
    requires s != ""
    ensures r.Some? ==> |r.value.1| < |s|
  {
    if s[0] == '-' then
      var k := DigitRun(s[1..]);
      if k == 0 then None
      else
        var n: int := NumberOf(s[1..][..k]);
        Some((Number(-n), s[1..][k..]))
    else
      var k := DigitRun(s);
      if k == 0 then None else Some((Number(NumberOf(s[..k])), s[k..]))
  }

  /** Items after `[` up to and including `]`. */
  function ParseItems(s: string): (r: Option<(seq<Value>, string)>)
    ensures r.Some? ==> |r.value.1| < |s|
    decreases |s|, 3
  {
    match ParseValue(s)
    case None => None
    case Some((v, more)) =>
      if more == "" then None
      else if more[0] == BRACKET_END then Some(([v], more[1..]))
      else if more[0] != ',' then None
      else match ParseItems(more[1..])
        case None => None
        case Some((vs, rest)) => Some(([v] + vs, rest))
  }

  /** Members after `{` up to and including `}`. */
  function ParseMembers(s: string): (r: Option<(seq<Member>, string)>)
    ensures r.Some? ==> |r.value.1| < |s|
    decreases |s|, 3
  {
    if s == "" || s[0] != QUOTATION then None
    else match ParseString(s[1..])
      case None => None
      case Some((key, afterKey)) =>
        if afterKey == "" || afterKey[0] != ':' then None
        else match ParseValue(afterKey[1..])
          case None => None
          case Some((v, more)) =>
            if more == "" then None
            else if more[0] == BRACE_END then Some(([Member(key, v)], more[1..]))
            else if more[0] != ',' then None
            else match ParseMembers(more[1..])
              case None => None
              case Some((ms, rest)) => Some(([Member(key, v)] + ms, rest))
  }

  predicate NoDigitFirst(s: string) { s == "" || !IsDigit(s[0]) }

  /** Parsing undoes rendering and leaves what follows untouched. */
  lemma {:induction false} ParseRendered(v: Value, rest: string)
    requires NoDigitFirst(rest)
    ensures ParseValue(Render(v) + rest) == Some((v, rest))
    decreases v, 1
  {
    match v
    case Null => WordsParse(rest);
    case Bool(b) => WordsParse(rest);
    case Number(n) => ParseRenderedNumber(n, rest);
    case String(t) => ParseRenderedString(t, rest);
    case Array(items) => ParseRenderedArray(items, rest);
    case Object(ms) => ParseRenderedObject(ms, rest);
  }

  lemma ParseRenderedString(t: string, rest: string)
    ensures ParseValue(Quote(t) + rest) == Some((String(t), rest))
  {
    var body := EscapeAll(t) + "\"" + rest;
    ParseQuoted(t, rest);
    assert Quote(t) + rest == "\"" + body && ("\"" + body)[1..] == body;
  }

  lemma ParseRenderedArray(items: seq<Value>, rest: string)
    ensures ParseValue(Render(Array(items)) + rest) == Some((Array(items), rest))
    decreases items, 1
  {
    if items == [] {
      EmptiesParse(rest);
    } else {
      var body := RenderItems(items) + ("]" + rest);
      ParseRenderedItems(items, rest);
      BracketedItems(items, rest);
      ArrayStart(body);
    }
  }

  lemma ParseRenderedObject(ms: seq<Member>, rest: string)
    ensures ParseValue(Render(Object(ms)) + rest) == Some((Object(ms), rest))
    decreases ms, 1
  {
    if ms == [] {
      EmptiesParse(rest);
    } else {
      var body := RenderMembers(ms) + ("}" + rest);
      ParseRenderedMembers(ms, rest);
      BracedMembers(ms, rest);
      ObjectStart(body);
    }
  }

  lemma WordsParse(rest: string)
    ensures ParseValue("null" + rest) == Some((Null, rest))
    ensures ParseValue("true" + rest) == Some((Bool(true), rest))
    ensures ParseValue("false" + rest) == Some((Bool(false), rest))
  {
    var (n, t, f) := ("null" + rest, "true" + rest, "false" + rest);
    assert n[0] == 'n' && t[0] == 't' && f[0] == 'f';
    assert n[4..] == rest && t[4..] == rest && f[5..] == rest;
    assert "null" <= n && "true" <= t && "false" <= f;
  }

  lemma EmptiesParse(rest: string)
    ensures ParseValue("[]" + rest) == Some((Array([]), rest))
    ensures ParseValue("{}" + rest) == Some((Object([]), rest))
  {
    assert ("[]" + rest)[1..] == "]" + rest && ("]" + rest)[1..] == rest;
    assert ("{}" + rest)[1..] == "}" + rest && ("}" + rest)[1..] == rest;
  }

  lemma ArrayStart(body: string)
    requires body != "" && body[0] != BRACKET_END
    ensures ParseValue("[" + body) ==
            match ParseItems(body) case None => None case Some((items, rest)) => Some((Array(items), rest))
  {
    assert ("[" + body)[1..] == body;
  }

  lemma ObjectStart(body: string)
    requires body != "" && body[0] != BRACE_END
    ensures ParseValue("{" + body) ==
            match ParseMembers(body) case None => None case Some((ms, rest)) => Some((Object(ms), rest))
  {
    assert ("{" + body)[1..] == body;
  }

  lemma Around(left: string, body: string, right: string, rest: string)
    ensures (left + body + right) + rest == left + (body + (right + rest))
  {
  }

  lemma BracketedItems(items: seq<Value>, rest: string)
    requires items != []
    ensures Render(Array(items)) + rest == "[" + (RenderItems(items) + ("]" + rest))
    ensures RenderItems(items) != "" && RenderItems(items)[0] != BRACKET_END
  {
    Around("[", RenderItems(items), "]", rest);
    HeadOfItems(items);
  }

  lemma HeadOfItems(items: seq<Value>)
    requires items != []
    ensures RenderItems(items) != "" && RenderItems(items)[0] != BRACKET_END
  {
    var tail := if |items| == 1 then "" else "," + RenderItems(items[1..]);
    assert RenderItems(items) == Render(items[0]) + tail;
  }

  lemma BracedMembers(ms: seq<Member>, rest: string)
    requires ms != []
    ensures Render(Object(ms)) + rest == "{" + (RenderMembers(ms) + ("}" + rest))
    ensures RenderMembers(ms) != "" && RenderMembers(ms)[0] == QUOTATION
  {
    Around("{", RenderMembers(ms), "}", rest);
    HeadOfMembers(ms);
  }

  lemma HeadOfMembers(ms: seq<Member>)
    requires ms != []
    ensures RenderMembers(ms) != "" && RenderMembers(ms)[0] == QUOTATION
  {
    assert RenderMember(ms[0])[0] == QUOTATION;
  }

  lemma ParseNegative(digits: string, rest: string)
    requires digits != "" && AllDigits(digits) && NoDigitFirst(rest)
    ensures ParseNumber("-" + digits + rest) == Some((Number(-(NumberOf(digits) as int)), rest))
  {
    var s := "-" + digits + rest;
    assert s[1..] == digits + rest;
    DigitRunOf(digits, rest);
    assert (digits + rest)[..|digits|] == digits && (digits + rest)[|digits|..] == rest;
  }

  lemma ParseNatural(digits: string, rest: string)
    requires digits != "" && AllDigits(digits) && NoDigitFirst(rest)
    ensures ParseNumber(digits + rest) == Some((Number(NumberOf(digits)), rest))
  {
    var s := digits + rest;
    assert s[0] == digits[0] && IsDigit(s[0]);
    DigitRunOf(digits, rest);
    assert s[..|digits|] == digits && s[|digits|..] == rest;
  }

  lemma ParseRenderedNumber(n: int, rest: string)
    requires NoDigitFirst(rest)
    ensures ParseValue(Integer(n) + rest) == Some((Number(n), rest))
  {
    NumberOfDigits(if n < 0 then -n else n);
    var digits := Digits(if n < 0 then -n else n);
    assert IsDigit(digits[0]);
    assert (Integer(n) + rest)[0] == Integer(n)[0];
    if n < 0 {
      ParseNegative(digits, rest);
    } else {
      ParseNatural(digits, rest);
    }
  }

  lemma LastItemParses(v: Value, rest: string)
    ensures ParseItems(Render(v) + ("]" + rest)) == Some(([v], rest))
    decreases v, 2
  {
    var tail := "]" + rest;
    ParseRendered(v, tail);
    ItemsStep(v, tail);
    assert tail[1..] == rest;
  }

  lemma ItemParses(v: Value, more: string)
    ensures ParseItems(Render(v) + ("," + more)) ==
            match ParseItems(more) case None => None case Some((vs, rest)) => Some(([v] + vs, rest))
    decreases v, 2
  {
    var tail := "," + more;
    ParseRendered(v, tail);
    ItemsStep(v, tail);
    assert tail[1..] == more;
  }

  lemma {:induction false} ParseRenderedItems(items: seq<Value>, rest: string)
    requires items != []
    ensures ParseItems(RenderItems(items) + ("]" + rest)) == Some((items, rest))
    decreases items, 0
  {
    ItemsText(items, rest);
    if |items| == 1 {
      LastItemParses(items[0], rest);
      assert [items[0]] == items;
    } else {
      ItemParses(items[0], RenderItems(items[1..]) + ("]" + rest));
      ParseRenderedItems(items[1..], rest);
      assert [items[0]] + items[1..] == items;
    }
  }

  lemma ItemsText(items: seq<Value>, rest: string)
    requires items != []
    ensures RenderItems(items) + ("]" + rest) ==
            Render(items[0]) + if |items| == 1 then "]" + rest else "," + (RenderItems(items[1..]) + ("]" + rest))
  {
    Around(Render(items[0]), ",", RenderItems(items[1..]), "]" + rest);
  }

  lemma ItemsStep(v: Value, tail: string)
    requires ParseValue(Render(v) + tail) == Some((v, tail)) && tail != ""
    ensures ParseItems(Render(v) + tail) ==
            if tail[0] == BRACKET_END then Some(([v], tail[1..]))
            else if tail[0] != ',' then None
            else match ParseItems(tail[1..]) case None => None case Some((vs, rest)) => Some(([v] + vs, rest))
  {
  }

  lemma MembersStep(s: string, key: string, v: Value, tail: string)
    requires s != "" && s[0] == QUOTATION && tail != ""
    requires var parsed := ParseString(s[1..]);
             && parsed.Some? && parsed.value.0 == key && parsed.value.1 != "" && parsed.value.1[0] == ':'
             && ParseValue(parsed.value.1[1..]) == Some((v, tail))
    ensures ParseMembers(s) ==
            if tail[0] == BRACE_END then Some(([Member(key, v)], tail[1..]))
            else if tail[0] != ',' then None
            else match ParseMembers(tail[1..])
              case None => None
              case Some((ms, rest)) => Some(([Member(key, v)] + ms, rest))
  {
  }

  lemma LastMemberParses(m: Member, rest: string)
    ensures ParseMembers(RenderMember(m) + ("}" + rest)) == Some(([m], rest))
    decreases m, 1
  {
    var tail := "}" + rest;
    ParseRenderedMember(m, tail);
    MembersStep(RenderMember(m) + tail, m.key, m.value, tail);
    assert tail[1..] == rest;
  }

  lemma MemberParses(m: Member, more: string)
    ensures ParseMembers(RenderMember(m) + ("," + more)) ==
            match ParseMembers(more) case None => None case Some((ms, rest)) => Some(([m] + ms, rest))
    decreases m, 1
  {
    var tail := "," + more;
    ParseRenderedMember(m, tail);
    MembersStep(RenderMember(m) + tail, m.key, m.value, tail);
    assert tail[1..] == more;
  }

  lemma {:induction false} ParseRenderedMembers(ms: seq<Member>, rest: string)
    requires ms != []
    ensures ParseMembers(RenderMembers(ms) + ("}" + rest)) == Some((ms, rest))
    decreases ms, 0
  {
    MembersText(ms, rest);
    if |ms| == 1 {
      LastMemberParses(ms[0], rest);
      assert [ms[0]] == ms;
    } else {
      MemberParses(ms[0], RenderMembers(ms[1..]) + ("}" + rest));
      ParseRenderedMembers(ms[1..], rest);
      assert [ms[0]] + ms[1..] == ms;
    }
  }

  lemma MembersText(ms: seq<Member>, rest: string)
    requires ms != []
    ensures RenderMembers(ms) + ("}" + rest) ==
            RenderMember(ms[0]) + if |ms| == 1 then "}" + rest else "," + (RenderMembers(ms[1..]) + ("}" + rest))
  {
    Around(RenderMember(ms[0]), ",", RenderMembers(ms[1..]), "}" + rest);
  }

  lemma ParseRenderedMember(m: Member, tail: string)
    requires NoDigitFirst(tail)
    ensures var s := RenderMember(m) + tail;
            var afterKey := ":" + (Render(m.value) + tail);
            && s[0] == QUOTATION
            && ParseString(s[1..]) == Some((m.key, afterKey))
            && afterKey[0] == ':' && ParseValue(afterKey[1..]) == Some((m.value, tail))
    decreases m, 0
  {
    var afterKey := ":" + (Render(m.value) + tail);
    var s := RenderMember(m) + tail;
    assert s == "\"" + (EscapeAll(m.key) + "\"" + afterKey);
    assert s[1..] == EscapeAll(m.key) + "\"" + afterKey;
    ParseQuoted(m.key, afterKey);
    assert afterKey[1..] == Render(m.value) + tail;
    ParseRendered(m.value, tail);
  }

  // ----- The canonical text -----

  function CanonicalText(v: Value): string { Render(Canonical(v)) }

  /** Stored text read back whole: nothing may follow the value. */
  function Parse(s: string): Option<Value> {
    match ParseValue(s)
    case Some((v, "")) => Some(v)
    case _ => None
  }

  lemma ParseCanonicalText(v: Value)
    ensures Parse(CanonicalText(v)) == Some(Canonical(v))
  {
    ParseRendered(Canonical(v), "");
    assert CanonicalText(v) + "" == CanonicalText(v);
  }

  /** Two payloads share a text exactly when they are the same JSON value. */
  lemma CanonicalTextIdentifies(v: Value, w: Value)
    requires WellFormed(v) && WellFormed(w)
    ensures CanonicalText(v) == CanonicalText(w) <==> Same(v, w)
  {
    CanonicalIffSame(v, w);
    ParseCanonicalText(v);
    ParseCanonicalText(w);
  }

  /** Members stand in ascending order of their keys, by code point. */
  lemma KeysAscend(ms: seq<Member>, i: nat, j: nat)
    requires DistinctKeys(ms) && i < j < |ms|
    ensures exists k: nat :: DiffersAt(Canonical(Object(ms)).members[i].key, Canonical(Object(ms)).members[j].key, k)
  {
    var sorted := Canonical(Object(ms)).members;
    SortSorts(CanonicalMembers(ms));
    BeforeExactly(sorted[i].key, sorted[j].key);
  }

  // ----- The printer as the storage layer runs it -----

  function Joined(parts: seq<string>): string {
    if parts == [] then ""
    else if |parts| == 1 then parts[0]
    else parts[0] + "," + Joined(parts[1..])
  }

  lemma {:induction false} JoinedSnoc(parts: seq<string>, i: nat)
    requires i < |parts|
    ensures Joined(parts[..i + 1]) == Joined(parts[..i]) + (if i > 0 then "," else "") + parts[i]
  {
    if i == 0 {
      assert parts[..1] == [parts[0]];
    } else {
      JoinedSnoc(parts[1..], i - 1);
      assert parts[..i + 1][1..] == parts[1..][..i] && parts[..i][1..] == parts[1..][..i - 1];
    }
  }

  lemma {:induction false} ItemsJoined(items: seq<Value>, parts: seq<string>)
    requires |parts| == |items| && forall i | 0 <= i < |items| :: parts[i] == Render(items[i])
    ensures RenderItems(items) == Joined(parts)
  {
    if |items| > 1 {
      ItemsJoined(items[1..], parts[1..]);
    }
  }

  lemma {:induction false} MembersJoined(ms: seq<Member>, parts: seq<string>)
    requires |parts| == |ms| && forall i | 0 <= i < |ms| :: parts[i] == RenderMember(ms[i])
    ensures RenderMembers(ms) == Joined(parts)
  {
    if |ms| > 1 {
      MembersJoined(ms[1..], parts[1..]);
    }
  }

  lemma {:induction false} CanonicalInsert(m: Member, ms: seq<Member>)
    ensures CanonicalMembers(InsertByKey(m, ms)) ==
            InsertByKey(Member(m.key, Canonical(m.value)), CanonicalMembers(ms))
    decreases |ms|
  {
    var cs := CanonicalMembers(ms);
    if ms != [] && Before(ms[0].key, m.key) {
      CanonicalInsert(m, ms[1..]);
      assert cs[1..] == CanonicalMembers(ms[1..]);
    }
  }

  /** Sorting first or making the values canonical first comes to the same. */
  lemma {:induction false} CanonicalSort(ms: seq<Member>)
    ensures CanonicalMembers(SortByKey(ms)) == SortByKey(CanonicalMembers(ms))
    decreases |ms|
  {
    if ms != [] {
      CanonicalSort(ms[1..]);
      CanonicalInsert(ms[0], SortByKey(ms[1..]));
      assert CanonicalMembers(ms)[1..] == CanonicalMembers(ms[1..]);
    }
  }

  /** The keys of an object after `keys.sort()`. */
  function SortedKeys(ms: seq<Member>): (keys: seq<string>)
    ensures |keys| == |ms|
  {
    var sorted := SortByKey(ms);
    seq(|ms|, i requires 0 <= i < |ms| => sorted[i].key)
  }

  lemma SortedKeyLooksUp(ms: seq<Member>, i: nat) returns (j: nat)
    requires i < |ms| && DistinctKeys(ms)
    ensures j < |ms| && ms[j] == SortByKey(ms)[i]
    ensures Lookup(ms, SortedKeys(ms)[i]) == Some(ms[j].value)
  {
    assert SortByKey(ms)[i] in ms;
    j :| 0 <= j < |ms| && ms[j] == SortByKey(ms)[i];
    LookupFinds(ms, j);
  }

  ghost function MemberText(m: Member): string { Quote(m.key) + ":" + CanonicalText(m.value) }

  method CanonicalJsonString(v: Value) returns (rendered: string)
    requires WellFormed(v)
    ensures rendered == CanonicalText(v)
    decreases v, 1
  {
    match v
    case Null => rendered := "null";
    case Bool(b) => rendered := if b then "true" else "false";
    case Number(n) => rendered := Integer(n);
    case String(t) => rendered := Quote(t);
    case Array(items) => rendered := CanonicalArrayString(items);
    case Object(ms) => rendered := CanonicalObjectString(ms);
  }

  method CanonicalArrayString(items: seq<Value>) returns (rendered: string)
    requires WellFormed(Array(items))
    ensures rendered == CanonicalText(Array(items))
    decreases items, 0
  {
    ghost var parts := seq(|items|, i requires 0 <= i < |items| => CanonicalText(items[i]));
    rendered := "[";
    for idx := 0 to |items|
      invariant rendered == "[" + Joined(parts[..idx])
    {
      JoinedSnoc(parts, idx);
      if idx > 0 {
        rendered := rendered + ",";
      }
      var item := CanonicalJsonString(items[idx]);
      rendered := rendered + item;
    }
    rendered := rendered + "]";
    ItemsJoined(Canonical(Array(items)).items, parts);
    assert parts[..|items|] == parts;
  }

  lemma ObjectText(ms: seq<Member>, parts: seq<string>)
    requires |parts| == |ms| && forall i | 0 <= i < |ms| :: parts[i] == MemberText(SortByKey(ms)[i])
    ensures CanonicalText(Object(ms)) == "{" + Joined(parts) + "}"
  {
    var cs := CanonicalMembers(SortByKey(ms));
    CanonicalSort(ms);
    forall i | 0 <= i < |ms| ensures parts[i] == RenderMember(cs[i]) {
      assert cs[i] == Member(SortByKey(ms)[i].key, Canonical(SortByKey(ms)[i].value));
    }
    MembersJoined(cs, parts);
  }

  /** The buffer once the first `idx` keys are written. */
  ghost function ObjectBuffer(ms: seq<Member>, idx: nat): string
    requires idx <= |ms|
  {
    "{" + Joined(MemberTexts(ms, idx))
  }

  /** The texts of the first `idx` members in key order. */
  ghost function MemberTexts(ms: seq<Member>, idx: nat): (parts: seq<string>)
    requires idx <= |ms|
    ensures |parts| == idx && forall i | 0 <= i < idx :: parts[i] == MemberText(SortByKey(ms)[i])
  {
    seq(idx, i requires 0 <= i < idx => MemberText(SortByKey(ms)[i]))
  }

  lemma ObjectBufferStep(ms: seq<Member>, idx: nat) returns (j: nat)
    requires idx < |ms| && DistinctKeys(ms)
    ensures j < |ms| && Lookup(ms, SortedKeys(ms)[idx]) == Some(ms[j].value)
    ensures ObjectBuffer(ms, idx + 1) ==
            ObjectBuffer(ms, idx) + (if idx > 0 then "," else "") + Quote(SortedKeys(ms)[idx]) + ":"
              + CanonicalText(ms[j].value)
  {
    j := SortedKeyLooksUp(ms, idx);
    var parts := MemberTexts(ms, idx + 1);
    JoinedSnoc(parts, idx);
    assert parts[..idx] == MemberTexts(ms, idx) && parts[..idx + 1] == parts;
    Regroup("{", Joined(MemberTexts(ms, idx)), if idx > 0 then "," else "", Quote(SortedKeys(ms)[idx]), ":",
            CanonicalText(ms[j].value));
  }

  lemma Regroup(a: string, b: string, c: string, d: string, e: string, f: string)
    ensures a + (b + c + (d + e + f)) == a + b + c + d + e + f
  {
  }

  method CanonicalObjectString(ms: seq<Member>) returns (rendered: string)
    requires WellFormed(Object(ms))
    ensures rendered == CanonicalText(Object(ms))
    decreases ms, 0
  {
    var keys := SortedKeys(ms);
    rendered := "{";
    for idx := 0 to |keys|
      invariant rendered == ObjectBuffer(ms, idx)
    {
      ghost var j := ObjectBufferStep(ms, idx);
      if idx > 0 {
        rendered := rendered + ",";
      }
      rendered := rendered + Quote(keys[idx]);
      rendered := rendered + ":";
      var item := CanonicalJsonString(Lookup(ms, keys[idx]).value);
      rendered := rendered + item;
    }
    rendered := rendered + "}";
    ObjectText(ms, MemberTexts(ms, |ms|));
  }
}
