/** Normalising the arguments of `email.send`. Lower-casing is the library's: it enters as a function. */
module EmailPayload {
  import opened Prelude
  import opened Json
  import opened ActionSchemas
  import opened Database
  import opened SchemaValidation
  import PinnedCapabilities
  import Text

  const BAD_PAYLOAD := InvalidInput("modified_payload")

  function Clean(text: string, lower: string -> string): string { lower(Text.Trim(text)) }

  // ----- Recipients -----

  /** Cleaned, each once, in the order of first occurrence; none when an entry is not a non-empty string. */
  function Recipients(items: seq<Value>, lower: string -> string): Option<seq<string>> {
    if items == [] then Some([])
    else match (Recipients(items[..|items| - 1], lower), items[|items| - 1])
      case (Some(before), String(text)) =>
        var cleaned := Clean(text, lower);
        if cleaned == "" then None else if cleaned in before then Some(before) else Some(before + [cleaned])
      case _ => None
  }

  function Strings(texts: seq<string>): (values: seq<Value>)
    ensures |values| == |texts| && forall i | 0 <= i < |texts| :: values[i] == String(texts[i])
  {
    seq(|texts|, i requires 0 <= i < |texts| => String(texts[i]))
  }

  lemma {:induction false} RecipientsStop(items: seq<Value>, n: nat, lower: string -> string)
    requires n <= |items| && Recipients(items[..n], lower).None?
    ensures Recipients(items, lower).None?
  {
    if n == |items| {
      assert items[..n] == items;
    } else {
      assert items[..|items| - 1][..n] == items[..n];
      RecipientsStop(items[..|items| - 1], n, lower);
    }
  }

  method DedupeRecipients(items: seq<Value>, lower: string -> string) returns (r: Option<seq<string>>)
    ensures r == Recipients(items, lower)
  {
    var deduped: seq<string> := [];
    for i := 0 to |items|
      invariant Recipients(items[..i], lower) == Some(deduped)
    {
      assert items[..i + 1][..i] == items[..i];
      if !items[i].String? || Clean(items[i].text, lower) == "" {
        RecipientsStop(items, i + 1, lower);
        return None;
      }
      var cleaned := Clean(items[i].text, lower);
      if cleaned !in deduped {
        deduped := deduped + [cleaned];
      }
    }
    assert items[..|items|] == items;
    return Some(deduped);
  }

  predicate IsCleaned(item: Value, text: string, lower: string -> string) {
    item.String? && Clean(item.text, lower) == text
  }

  ghost predicate ComesFrom(text: string, items: seq<Value>, lower: string -> string) {
    exists j :: 0 <= j < |items| && IsCleaned(items[j], text, lower)
  }

  predicate AllDistinct(texts: seq<string>) { forall i, j | 0 <= i < j < |texts| :: texts[i] != texts[j] }

  predicate IsListed(item: Value, texts: seq<string>, lower: string -> string) {
    item.String? && Clean(item.text, lower) in texts
  }

  ghost predicate AllListed(items: seq<Value>, texts: seq<string>, lower: string -> string) {
    forall i | 0 <= i < |items| :: IsListed(items[i], texts, lower)
  }

  ghost predicate AllComeFrom(texts: seq<string>, items: seq<Value>, lower: string -> string) {
    forall i | 0 <= i < |texts| :: texts[i] != "" && ComesFrom(texts[i], items, lower)
  }

  /** Every cleaned entry exactly once, and nothing else. */
  ghost predicate Lists(texts: seq<string>, items: seq<Value>, lower: string -> string) {
    AllListed(items, texts, lower) && AllComeFrom(texts, items, lower) && AllDistinct(texts)
  }

  lemma OneMoreComesFrom(text: string, items: seq<Value>, last: Value, lower: string -> string)
    ensures ComesFrom(text, items, lower) ==> ComesFrom(text, items + [last], lower)
    ensures IsCleaned(last, text, lower) ==> ComesFrom(text, items + [last], lower)
  {
    var longer := items + [last];
    assert longer[|items|] == last;
    if ComesFrom(text, items, lower) {
      var j :| 0 <= j < |items| && IsCleaned(items[j], text, lower);
      assert longer[j] == items[j];
    }
  }

  /** The list after one more entry. */
  function WithOne(texts: seq<string>, text: string): (longer: seq<string>)
    ensures text in longer && forall t | t in texts :: t in longer
  {
    if text in texts then texts else texts + [text]
  }

  lemma OneMoreIsListed(texts: seq<string>, items: seq<Value>, last: Value, lower: string -> string)
    requires AllListed(items, texts, lower) && last.String?
    ensures AllListed(items + [last], WithOne(texts, Clean(last.text, lower)), lower)
  {
    var longer, all := WithOne(texts, Clean(last.text, lower)), items + [last];
    forall i | 0 <= i < |all| ensures IsListed(all[i], longer, lower) {
      assert i < |items| ==> IsListed(items[i], texts, lower);
    }
  }

  lemma OneMoreHasSource(texts: seq<string>, items: seq<Value>, last: Value, lower: string -> string)
    requires AllComeFrom(texts, items, lower) && last.String? && Clean(last.text, lower) != ""
    ensures AllComeFrom(WithOne(texts, Clean(last.text, lower)), items + [last], lower)
  {
    var longer := WithOne(texts, Clean(last.text, lower));
    forall i | 0 <= i < |longer| ensures longer[i] != "" && ComesFrom(longer[i], items + [last], lower) {
      OneMoreComesFrom(longer[i], items, last, lower);
      assert i < |texts| ==> longer[i] == texts[i];
    }
  }

  lemma OneMoreStaysDistinct(texts: seq<string>, text: string)
    requires AllDistinct(texts)
    ensures AllDistinct(WithOne(texts, text))
  {
  }

  lemma RecipientsStep(items: seq<Value>, lower: string -> string)
    requires items != [] && Recipients(items, lower).Some?
    ensures var (before, last) := (items[..|items| - 1], items[|items| - 1]);
            && Recipients(before, lower).Some? && last.String? && Clean(last.text, lower) != ""
            && Recipients(items, lower).value == WithOne(Recipients(before, lower).value, Clean(last.text, lower))
  {
  }

  lemma {:induction false} RecipientsAreExact(items: seq<Value>, lower: string -> string)
    requires Recipients(items, lower).Some?
    ensures Lists(Recipients(items, lower).value, items, lower)
  {
    if items != [] {
      var before, last := items[..|items| - 1], items[|items| - 1];
      RecipientsStep(items, lower);
      RecipientsAreExact(before, lower);
      var texts := Recipients(before, lower).value;
      OneMoreIsListed(texts, before, last, lower);
      OneMoreHasSource(texts, before, last, lower);
      OneMoreStaysDistinct(texts, Clean(last.text, lower));
      assert items == before + [last];
    }
  }

  /** Cleaning twice is cleaning once. */
  ghost predicate Settles(lower: string -> string) { forall text :: Clean(Clean(text, lower), lower) == Clean(text, lower) }

  lemma {:induction false} CleanListStays(texts: seq<string>, lower: string -> string)
    requires forall i | 0 <= i < |texts| :: texts[i] != "" && Clean(texts[i], lower) == texts[i]
    requires AllDistinct(texts)
    ensures Recipients(Strings(texts), lower) == Some(texts)
  {
    if texts != [] {
      var n := |texts| - 1;
      assert Strings(texts)[..n] == Strings(texts[..n]);
      CleanListStays(texts[..n], lower);
      assert texts == texts[..n] + [texts[n]];
    }
  }

  lemma RecipientsTwice(items: seq<Value>, lower: string -> string)
    requires Settles(lower) && Recipients(items, lower).Some?
    ensures Recipients(Strings(Recipients(items, lower).value), lower) == Recipients(items, lower)
  {
    var r := Recipients(items, lower).value;
    RecipientsAreExact(items, lower);
    forall i | 0 <= i < |r| ensures Clean(r[i], lower) == r[i] {
      assert ComesFrom(r[i], items, lower);
      var j :| 0 <= j < |items| && IsCleaned(items[j], r[i], lower);
    }
    CleanListStays(r, lower);
  }

  // ----- The payload -----

  datatype Email = Email(to: seq<string>, cc: seq<string>, bcc: seq<string>, subject: string, body: string)

  function RecipientField(payload: Value, field: string, lower: string -> string): Option<seq<string>> {
    match GetArray(payload, field) case None => None case Some(items) => Recipients(items, lower)
  }

  function TextField(payload: Value, field: string): Option<string> {
    match GetString(payload, field)
    case None => None
    case Some(text) => if Text.Trim(text) == "" then None else Some(Text.Trim(text))
  }

  function ReadEmail(payload: Value, lower: string -> string): Option<Email> {
    match (RecipientField(payload, "to", lower), RecipientField(payload, "cc", lower), RecipientField(payload, "bcc", lower),
           TextField(payload, "subject"), TextField(payload, "body"))
    case (Some(to), Some(cc), Some(bcc), Some(subject), Some(body)) =>
      if to == [] then None else Some(Email(to, cc, bcc, subject, body))
    case _ => None
  }

  function PayloadOf(e: Email): Value {
    Object([Member("to", Array(Strings(e.to))), Member("cc", Array(Strings(e.cc))), Member("bcc", Array(Strings(e.bcc))),
            Member("subject", String(e.subject)), Member("body", String(e.body))])
  }

  function Normalized(payload: Value, lower: string -> string): Result<Value> {
    match ReadEmail(payload, lower) case None => Err(BAD_PAYLOAD) case Some(e) => Ok(PayloadOf(e))
  }

  method NormalizeEmailSendPayload(payload: Value, lower: string -> string) returns (r: Result<Value>)
    ensures r == Normalized(payload, lower)
  {
    if !payload.Object? {
      return Err(BAD_PAYLOAD);
    }
    var fields := ["to", "cc", "bcc"];
    var lists: seq<seq<string>> := [];
    for i := 0 to 3
      invariant |lists| == i
      invariant forall k | 0 <= k < i :: RecipientField(payload, fields[k], lower) == Some(lists[k])
      invariant i > 0 ==> lists[0] != []
    {
      var items := GetArray(payload, fields[i]);
      if items.None? {
        return Err(BAD_PAYLOAD);
      }
      var deduped := DedupeRecipients(items.value, lower);
      if deduped.None? {
        return Err(BAD_PAYLOAD);
      }
      if i == 0 && deduped.value == [] {
        return Err(BAD_PAYLOAD);
      }
      lists := lists + [deduped.value];
    }
    var subject := TextField(payload, "subject");
    if subject.None? {
      return Err(BAD_PAYLOAD);
    }
    var body := TextField(payload, "body");
    if body.None? {
      return Err(BAD_PAYLOAD);
    }
    return Ok(PayloadOf(Email(lists[0], lists[1], lists[2], subject.value, body.value)));
  }

  // ----- What is normalized, and to what -----

  /** An array of strings, none of which is blank. */
  predicate IsRecipientList(v: Option<Value>, lower: string -> string) {
    && v.Some? && v.value.Array?
    && forall i | 0 <= i < |v.value.items| :: v.value.items[i].String? && lower(Text.Trim(v.value.items[i].text)) != ""
  }

  predicate IsText(v: Option<Value>) { v.Some? && v.value.String? && Text.Trim(v.value.text) != "" }

  lemma {:induction false} RecipientsFit(items: seq<Value>, lower: string -> string)
    ensures Recipients(items, lower).Some? <==> IsRecipientList(Some(Array(items)), lower)
    ensures Recipients(items, lower).Some? ==> (Recipients(items, lower).value == [] <==> items == [])
  {
    if items != [] {
      RecipientsFit(items[..|items| - 1], lower);
    }
  }

  predicate Occurs(items: seq<Value>, text: string, before: nat, lower: string -> string)
    requires before <= |items|
  {
    exists q :: 0 <= q < before && IsCleaned(items[q], text, lower)
  }

  /** Position `p` is the first that is cleaned to this text, and all the earlier texts occur before it. */
  predicate FirstAfter(items: seq<Value>, texts: seq<string>, i: nat, p: nat, lower: string -> string)
    requires i < |texts|
  {
    && p < |items| && IsCleaned(items[p], texts[i], lower) && !Occurs(items, texts[i], p, lower)
    && forall j | 0 <= j < i :: Occurs(items, texts[j], p, lower)
  }

  lemma OccursInLonger(items: seq<Value>, last: Value, text: string, before: nat, lower: string -> string)
    requires before <= |items|
    ensures Occurs(items + [last], text, before, lower) <==> Occurs(items, text, before, lower)
  {
    assert forall q | 0 <= q < before :: (items + [last])[q] == items[q];
  }

  lemma FirstInLonger(items: seq<Value>, last: Value, texts: seq<string>, text: string, i: nat, p: nat, lower: string -> string)
    requires i < |texts| && FirstAfter(items, texts, i, p, lower)
    ensures FirstAfter(items + [last], WithOne(texts, text), i, p, lower)
  {
    forall t ensures Occurs(items + [last], t, p, lower) <==> Occurs(items, t, p, lower) {
      OccursInLonger(items, last, t, p, lower);
    }
    assert (items + [last])[p] == items[p];
    assert forall j | 0 <= j <= i :: WithOne(texts, text)[j] == texts[j];
  }

  lemma NewIsFirst(items: seq<Value>, last: Value, texts: seq<string>, lower: string -> string)
    requires Lists(texts, items, lower) && last.String? && Clean(last.text, lower) !in texts
    ensures FirstAfter(items + [last], texts + [Clean(last.text, lower)], |texts|, |items|, lower)
  {
    var (all, text) := (items + [last], Clean(last.text, lower));
    forall t ensures Occurs(all, t, |items|, lower) <==> Occurs(items, t, |items|, lower) {
      OccursInLonger(items, last, t, |items|, lower);
    }
    forall q | 0 <= q < |items| ensures !IsCleaned(items[q], text, lower) {
      assert IsListed(items[q], texts, lower);
    }
    forall j | 0 <= j < |texts| ensures Occurs(items, texts[j], |items|, lower) {
      assert ComesFrom(texts[j], items, lower);
      var q :| 0 <= q < |items| && IsCleaned(items[q], texts[j], lower);
      assert IsCleaned(items[q], texts[j], lower);
    }
    assert all[|items|] == last;
  }

  /** Recipients stand in the order in which they first occur. */
  lemma {:induction false} RecipientsInOrder(items: seq<Value>, lower: string -> string, i: nat) returns (p: nat)
    requires Recipients(items, lower).Some? && i < |Recipients(items, lower).value|
    ensures FirstAfter(items, Recipients(items, lower).value, i, p, lower)
  {
    var (before, last) := (items[..|items| - 1], items[|items| - 1]);
    RecipientsStep(items, lower);
    var texts := Recipients(before, lower).value;
    assert items == before + [last];
    if i < |texts| {
      p := RecipientsInOrder(before, lower, i);
      FirstInLonger(before, last, texts, Clean(last.text, lower), i, p, lower);
    } else {
      p := |before|;
      RecipientsAreExact(before, lower);
      NewIsFirst(before, last, texts, lower);
    }
  }

  /** The list under `field` holds every cleaned entry of the payload's list once. */
  ghost predicate CleansList(payload: Value, again: Value, field: string, lower: string -> string) {
    exists texts :: Get(again, field) == Some(Array(Strings(texts))) && ListsField(payload, field, texts, lower)
  }

  ghost predicate ListsField(payload: Value, field: string, texts: seq<string>, lower: string -> string) {
    Get(payload, field).Some? && Get(payload, field).value.Array? && Lists(texts, Get(payload, field).value.items, lower)
  }

  predicate TrimsText(payload: Value, again: Value, field: string) {
    && Get(payload, field).Some? && Get(payload, field).value.String?
    && Get(again, field) == Some(String(Text.Trim(Get(payload, field).value.text)))
  }

  /** A payload is normalized exactly when it has the three recipient lists, the first not empty, and a subject and a body
      that are not blank. */
  lemma NormalizedExactly(payload: Value, lower: string -> string)
    ensures Normalized(payload, lower).Ok? <==>
            && IsRecipientList(Get(payload, "to"), lower) && Get(payload, "to").value.items != []
            && IsRecipientList(Get(payload, "cc"), lower) && IsRecipientList(Get(payload, "bcc"), lower)
            && IsText(Get(payload, "subject")) && IsText(Get(payload, "body"))
    ensures Normalized(payload, lower).Err? ==> Normalized(payload, lower).error.InvalidInput?
  {
    FieldFits(payload, "to", lower);
    FieldFits(payload, "cc", lower);
    FieldFits(payload, "bcc", lower);
  }

  /** Then each list is cleaned under its own name, the texts are trimmed, and nothing else is kept. */
  lemma NormalizedKeepsFields(payload: Value, lower: string -> string)
    requires Normalized(payload, lower).Ok?
    ensures var again := Normalized(payload, lower).value;
            && again.Object? && |again.members| == 5
            && CleansList(payload, again, "to", lower) && CleansList(payload, again, "cc", lower)
            && CleansList(payload, again, "bcc", lower)
            && TrimsText(payload, again, "subject") && TrimsText(payload, again, "body")
  {
    var e := ReadEmail(payload, lower).value;
    NormalizedFields(e);
    FieldFits(payload, "to", lower);
    FieldFits(payload, "cc", lower);
    FieldFits(payload, "bcc", lower);
    assert ListsField(payload, "to", e.to, lower) && ListsField(payload, "cc", e.cc, lower);
    assert ListsField(payload, "bcc", e.bcc, lower);
  }

  lemma FieldFits(payload: Value, field: string, lower: string -> string)
    ensures RecipientField(payload, field, lower).Some? <==> IsRecipientList(Get(payload, field), lower)
    ensures RecipientField(payload, field, lower).Some? ==>
              ListsField(payload, field, RecipientField(payload, field, lower).value, lower)
              && (RecipientField(payload, field, lower).value == [] <==> Get(payload, field).value.items == [])
  {
    if GetArray(payload, field).Some? {
      RecipientsFit(GetArray(payload, field).value, lower);
      if RecipientField(payload, field, lower).Some? {
        RecipientsAreExact(GetArray(payload, field).value, lower);
      }
    }
  }

  // ----- Reading a normalized payload -----

  /** The payload's fields in the order they are inserted. */
  predicate InFieldOrder(ms: seq<Member>) {
    |ms| == 5 && ms[0].key == "to" && ms[1].key == "cc" && ms[2].key == "bcc" && ms[3].key == "subject" && ms[4].key == "body"
  }

  lemma FieldsAreDistinct(ms: seq<Member>)
    requires InFieldOrder(ms)
    ensures DistinctKeys(ms)
  {
    assert ms[0].key[0] == 't' && ms[1].key[0] == 'c';
    assert |ms[0].key| == 2 && |ms[1].key| == 2 && |ms[2].key| == 3 && |ms[3].key| == 7 && |ms[4].key| == 4;
  }

  lemma FieldsAreFound(ms: seq<Member>, i: nat)
    requires InFieldOrder(ms) && i < 5
    ensures Lookup(ms, ms[i].key) == Some(ms[i].value)
  {
    FieldsAreDistinct(ms);
    LookupFinds(ms, i);
  }

  lemma NormalizedFields(e: Email)
    ensures Get(PayloadOf(e), "to") == Some(Array(Strings(e.to)))
    ensures Get(PayloadOf(e), "cc") == Some(Array(Strings(e.cc)))
    ensures Get(PayloadOf(e), "bcc") == Some(Array(Strings(e.bcc)))
    ensures Get(PayloadOf(e), "subject") == Some(String(e.subject))
    ensures Get(PayloadOf(e), "body") == Some(String(e.body))
  {
    var ms := PayloadOf(e).members;
    FieldsAreFound(ms, 0);
    FieldsAreFound(ms, 1);
    FieldsAreFound(ms, 2);
    FieldsAreFound(ms, 3);
    FieldsAreFound(ms, 4);
  }

  lemma FieldTwice(payload: Value, again: Value, field: string, lower: string -> string)
    requires Settles(lower) && RecipientField(payload, field, lower).Some?
    requires Get(again, field) == Some(Array(Strings(RecipientField(payload, field, lower).value)))
    ensures RecipientField(again, field, lower) == RecipientField(payload, field, lower)
  {
    RecipientsTwice(GetArray(payload, field).value, lower);
  }

  lemma TextTwice(payload: Value, again: Value, field: string)
    requires TextField(payload, field).Some? && Get(again, field) == Some(String(TextField(payload, field).value))
    ensures TextField(again, field) == TextField(payload, field)
  {
    Text.TrimTwice(GetString(payload, field).value);
  }

  /** A normalized payload normalizes to itself. */
  lemma NormalizingTwice(payload: Value, lower: string -> string)
    requires Settles(lower) && Normalized(payload, lower).Ok?
    ensures Normalized(Normalized(payload, lower).value, lower) == Normalized(payload, lower)
  {
    var e := ReadEmail(payload, lower).value;
    var again := PayloadOf(e);
    NormalizedFields(e);
    FieldTwice(payload, again, "to", lower);
    FieldTwice(payload, again, "cc", lower);
    FieldTwice(payload, again, "bcc", lower);
    TextTwice(payload, again, "subject");
    TextTwice(payload, again, "body");
  }

  // ----- The bootstrap schema of the arguments -----

  const TEXT_SCHEMA := Object([Member("type", String("string"))])
  const LIST_SCHEMA := Object([Member("type", String("array")), Member("items", TEXT_SCHEMA)])
  const FIELD_SCHEMAS := [
    Member("to", LIST_SCHEMA), Member("cc", LIST_SCHEMA), Member("bcc", LIST_SCHEMA), Member("subject", TEXT_SCHEMA),
    Member("body", TEXT_SCHEMA)]
  const FIELD_NAMES := [String("to"), String("cc"), String("bcc"), String("subject"), String("body")]
  const EMAIL_SCHEMA := Object([
    Member("type", String("object")), Member("required", Array(FIELD_NAMES)), Member("additionalProperties", Bool(false)),
    Member("properties", Object(FIELD_SCHEMAS))])

  predicate KeywordKeys(ms: seq<Member>, keys: seq<string>) {
    |ms| == |keys| && forall i | 0 <= i < |ms| :: ms[i].key == keys[i]
  }

  lemma KeywordIsFound(ms: seq<Member>, i: nat)
    requires i < |ms| && forall j, k | 0 <= j < k < |ms| :: |ms[j].key| != |ms[k].key|
    ensures Lookup(ms, ms[i].key) == Some(ms[i].value)
  {
    LookupFinds(ms, i);
  }

  lemma KeywordIsAbsent(ms: seq<Member>, key: string)
    requires forall j | 0 <= j < |ms| :: |ms[j].key| != |key|
    ensures Lookup(ms, key) == None
  {
  }

  lemma TextSchemaReads()
    ensures Get(TEXT_SCHEMA, "type") == Some(String("string"))
    ensures Get(TEXT_SCHEMA, "required").None? && Get(TEXT_SCHEMA, "properties").None? && Get(TEXT_SCHEMA, "items").None?
  {
    var ms := TEXT_SCHEMA.members;
    assert |ms[0].key| == 4;
    KeywordIsFound(ms, 0);
    KeywordIsAbsent(ms, "required");
    KeywordIsAbsent(ms, "properties");
    KeywordIsAbsent(ms, "items");
  }

  lemma TextConforms(text: string)
    ensures Conforms(TEXT_SCHEMA, String(text))
  {
    TextSchemaReads();
    assert "string" in AllowedTypes(String("string")).value && MatchesType("string", String(text));
  }

  lemma ListSchemaReads()
    ensures Get(LIST_SCHEMA, "type") == Some(String("array")) && Get(LIST_SCHEMA, "items") == Some(TEXT_SCHEMA)
    ensures Get(LIST_SCHEMA, "required").None? && Get(LIST_SCHEMA, "properties").None?
  {
    var ms := LIST_SCHEMA.members;
    assert |ms[0].key| == 4 && |ms[1].key| == 5;
    KeywordIsFound(ms, 0);
    KeywordIsFound(ms, 1);
    KeywordIsAbsent(ms, "required");
    KeywordIsAbsent(ms, "properties");
  }

  lemma ListConforms(texts: seq<string>)
    ensures Conforms(LIST_SCHEMA, Array(Strings(texts)))
  {
    ListSchemaReads();
    assert "array" in AllowedTypes(String("array")).value && MatchesType("array", Array(Strings(texts)));
    forall i | 0 <= i < |texts| ensures Conforms(TEXT_SCHEMA, Strings(texts)[i]) {
      TextConforms(texts[i]);
    }
  }

  lemma EmailSchemaKeywords()
    ensures var ms := EMAIL_SCHEMA.members;
            && |ms| == 4 && ms[0].key == "type" && ms[1].key == "required" && ms[2].key == "additionalProperties"
            && ms[3].key == "properties"
            && |ms[0].key| == 4 && |ms[1].key| == 8 && |ms[2].key| == 20 && |ms[3].key| == 10
  {
  }

  lemma EmailSchemaKeywordIsFound(i: nat)
    requires i < 4
    ensures Get(EMAIL_SCHEMA, EMAIL_SCHEMA.members[i].key) == Some(EMAIL_SCHEMA.members[i].value)
  {
    EmailSchemaKeywords();
    KeywordIsFound(EMAIL_SCHEMA.members, i);
  }

  lemma EmailSchemaReads()
    ensures Get(EMAIL_SCHEMA, "type") == Some(String("object"))
    ensures GetArray(EMAIL_SCHEMA, "required") == Some(FIELD_NAMES)
    ensures GetBool(EMAIL_SCHEMA, "additionalProperties") == Some(false)
    ensures Get(EMAIL_SCHEMA, "properties") == Some(Object(FIELD_SCHEMAS))
    ensures Get(EMAIL_SCHEMA, "items").None?
  {
    EmailSchemaKeywordIsFound(0);
    EmailSchemaKeywordIsFound(1);
    EmailSchemaKeywordIsFound(2);
    EmailSchemaKeywordIsFound(3);
    EmailSchemaKeywords();
    KeywordIsAbsent(EMAIL_SCHEMA.members, "items");
  }

  lemma FieldsAreKnown(e: Email)
    ensures !HasUnknown(PayloadOf(e).members, FIELD_SCHEMAS)
  {
    var ms := PayloadOf(e).members;
    forall i | 0 <= i < |ms| ensures Lookup(FIELD_SCHEMAS, ms[i].key).Some? {
      FieldsAreFound(FIELD_SCHEMAS, i);
      assert FIELD_SCHEMAS[i].key == ms[i].key;
    }
  }

  lemma FieldConforms(e: Email, i: nat)
    requires i < 5
    ensures Get(PayloadOf(e), FIELD_SCHEMAS[i].key).Some?
    ensures Conforms(FIELD_SCHEMAS[i].value, Get(PayloadOf(e), FIELD_SCHEMAS[i].key).value)
  {
    var ms := PayloadOf(e).members;
    FieldsAreFound(ms, i);
    assert FIELD_SCHEMAS[i].key == ms[i].key;
    ListConforms(e.to);
    ListConforms(e.cc);
    ListConforms(e.bcc);
    TextConforms(e.subject);
    TextConforms(e.body);
  }

  lemma NamesArePresent(payload: Value, names: seq<Value>)
    requires |names| == 5 && names[0] == String("to") && names[1] == String("cc") && names[2] == String("bcc")
    requires names[3] == String("subject") && names[4] == String("body")
    requires Get(payload, "to").Some? && Get(payload, "cc").Some? && Get(payload, "bcc").Some?
    requires Get(payload, "subject").Some? && Get(payload, "body").Some?
    ensures forall name | name in names :: IsPresent(name, payload)
  {
    forall i | 0 <= i < |names| ensures IsPresent(names[i], payload) {
      assert i == 0 || i == 1 || i == 2 || i == 3 || i == 4;
    }
  }

  lemma RequiredArePresent(e: Email)
    ensures HasRequired(EMAIL_SCHEMA, PayloadOf(e))
  {
    EmailSchemaReads();
    NormalizedFields(e);
    NamesArePresent(PayloadOf(e), FIELD_NAMES);
  }

  lemma PayloadConforms(e: Email)
    ensures Conforms(EMAIL_SCHEMA, PayloadOf(e))
  {
    EmailSchemaReads();
    RequiredArePresent(e);
    FieldsAreKnown(e);
    forall i | 0 <= i < |FIELD_SCHEMAS|
      ensures Get(PayloadOf(e), FIELD_SCHEMAS[i].key).Some?
      ensures Conforms(FIELD_SCHEMAS[i].value, Get(PayloadOf(e), FIELD_SCHEMAS[i].key).value)
    {
      FieldConforms(e, i);
    }
    ObjectByParts(EMAIL_SCHEMA, PayloadOf(e), FIELD_SCHEMAS);
    assert "object" in AllowedTypes(String("object")).value && MatchesType("object", PayloadOf(e));
  }

  lemma PayloadIsWellFormed(e: Email)
    ensures WellFormed(PayloadOf(e))
  {
    FieldsAreDistinct(PayloadOf(e).members);
  }

  lemma EmailSchemaIsWellFormed()
    ensures WellFormed(EMAIL_SCHEMA)
  {
    FieldsAreDistinct(FIELD_SCHEMAS);
    assert WellFormed(TEXT_SCHEMA);
    var ls := LIST_SCHEMA.members;
    assert |ls[0].key| == 4 && |ls[1].key| == 5;
    assert WellFormed(LIST_SCHEMA);
    assert WellFormed(Object(FIELD_SCHEMAS));
    assert WellFormed(Array(FIELD_NAMES));
    var ms := EMAIL_SCHEMA.members;
    assert |ms[0].key| == 4 && |ms[1].key| == 8 && |ms[2].key| == 20 && |ms[3].key| == 10;
  }

  /** What normalising lets through passes the schema check, in whatever member order the schema is stored. */
  lemma NormalizedPassesSchema(payload: Value, lower: string -> string, stored: Value, kind: ErrorKind)
    requires Normalized(payload, lower).Ok? && WellFormed(stored) && Same(EMAIL_SCHEMA, stored)
    ensures Problem(stored, Normalized(payload, lower).value, kind) == None
  {
    var e := ReadEmail(payload, lower).value;
    PayloadConforms(e);
    PayloadIsWellFormed(e);
    EmailSchemaIsWellFormed();
    CheckDecidesConformance(EMAIL_SCHEMA, PayloadOf(e), kind);
    CanonicalIffSame(PayloadOf(e), PayloadOf(e));
    SameSchemasPassTheSame(EMAIL_SCHEMA, stored, PayloadOf(e), PayloadOf(e), kind);
  }

  /** The verdict the schema check hands to the consuming transaction. */
  function Verdict(schema: Value, normalized: Result<Value>): Option<StorageError> {
    match normalized case Err(_) => None case Ok(args) => Problem(schema, args, ForInput)
  }

  lemma VerdictPasses(payload: Value, lower: string -> string, stored: Value)
    requires WellFormed(stored) && Same(EMAIL_SCHEMA, stored)
    ensures Verdict(stored, Normalized(payload, lower)) == None
  {
    if Normalized(payload, lower).Ok? {
      NormalizedPassesSchema(payload, lower, stored, ForInput);
    }
  }

  lemma SchemaStays(registry: Registry, events: seq<Event>, k: nat, ref: string)
    requires PinnedCapabilities.RegistryKnown(registry) && PinnedCapabilities.ParsedPayloads(events) && k <= |events|
    requires ref in Run(Fresh(registry), events[..k]).registry.schemas
    ensures var (before, after) := (Run(Fresh(registry), events[..k]).registry, Run(Fresh(registry), events).registry);
            ref in after.schemas && after.schemas[ref] == before.schemas[ref]
  {
    PinnedCapabilities.RunsKeepPins(registry, events, k);
  }

  /** From proposal to consumption of an email approval: normalising is the only check left that can stop it. */
  lemma ApprovedEmailIsPrepared(
      registry: Registry, events: seq<Event>, i: nat, j: nat, approval: Id, op: Id, d: ActionDescriptor, proposal: Value,
      payload: Value, lower: string -> string)
    requires PinnedCapabilities.RegistryKnown(registry) && PinnedCapabilities.ParsedPayloads(events) && i <= j <= |events|
    requires PinnedCapabilities.ResolvedFor(Run(Fresh(registry), events[..i]), op, d)
    requires PinnedCapabilities.ProposedWith(Run(Fresh(registry), events[..j]), approval, op, d, proposal)
    requires var schemas := Run(Fresh(registry), events[..i]).registry.schemas;
             d.argsSchemaRef in schemas && WellFormed(schemas[d.argsSchemaRef])
             && Same(EMAIL_SCHEMA, schemas[d.argsSchemaRef])
    ensures var db := Run(Fresh(registry), events);
            var normalized := Normalized(payload, lower);
            && approval in db.approvals && op in db.operations && d.argsSchemaRef in db.registry.schemas
            && PrepareSyscall(db.registry, db.operations[op].pinned, db.approvals[approval].diff, normalized,
                              Verdict(db.registry.schemas[d.argsSchemaRef], normalized))
               == PinnedCapabilities.PayloadDecides(d, normalized, None)
  {
    var db := Run(Fresh(registry), events);
    var normalized := Normalized(payload, lower);
    SchemaStays(registry, events, i, d.argsSchemaRef);
    var stored := db.registry.schemas[d.argsSchemaRef];
    VerdictPasses(payload, lower, stored);
    PinnedCapabilities.PinnedCapabilityIsEnforced(registry, events, i, j, approval, op, d, proposal, normalized,
                                                  Verdict(stored, normalized));
  }
}
