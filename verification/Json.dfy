/** JSON values, the canonical text the storage layer hashes, and a parser that undoes that text.
    String escapes follow section 7 of RFC 8259 in the form `serde_json` emits; numbers are integers. */
module Json {
  import opened Prelude
  import opened Decimal

  datatype Value =
    | Null
    | Bool(flag: bool)
    | Number(n: int)
    | String(text: string)
    | Array(items: seq<Value>)
    | Object(members: seq<Member>)

  /** One entry of an object. The order of entries carries no meaning. */
  datatype Member = Member(key: string, value: Value)

  ghost predicate DistinctKeys(ms: seq<Member>) {
    forall i, j | 0 <= i < j < |ms| :: ms[i].key != ms[j].key
  }

  /** Every object at every depth has distinct keys, as a map has. */
  ghost predicate WellFormed(v: Value) {
    match v
    case Array(items) => forall i | 0 <= i < |items| :: WellFormed(items[i])
    case Object(ms) => DistinctKeys(ms) && forall i | 0 <= i < |ms| :: WellFormed(ms[i].value)
    case _ => true
  }

  /** The member called `key`, as `Value::get` finds it: none when `v` is not an object. */
  function Get(v: Value, key: string): Option<Value> {
    match v
    case Object(ms) => Lookup(ms, key)
    case _ => None
  }

  function Lookup(ms: seq<Member>, key: string): (r: Option<Value>)
    ensures r.None? <==> forall i | 0 <= i < |ms| :: ms[i].key != key
    ensures r.Some? ==> Member(key, r.value) in ms
  {
    if ms == [] then None
    else if ms[0].key == key then Some(ms[0].value)
    else
      var r := Lookup(ms[1..], key);
      assert forall i | 0 < i < |ms| :: ms[i] == ms[1..][i - 1];
      r
  }

  lemma LookupFinds(ms: seq<Member>, i: nat)
    requires i < |ms| && DistinctKeys(ms)
    ensures Lookup(ms, ms[i].key) == Some(ms[i].value)
  {
    var r := Lookup(ms, ms[i].key);
    var j :| 0 <= j < |ms| && ms[j] == Member(ms[i].key, r.value);
  }

  function GetString(v: Value, key: string): Option<string> {
    match Get(v, key)
    case Some(String(s)) => Some(s)
    case _ => None
  }

  function GetBool(v: Value, key: string): Option<bool> {
    match Get(v, key)
    case Some(Bool(b)) => Some(b)
    case _ => None
  }

  function GetArray(v: Value, key: string): Option<seq<Value>> {
    match Get(v, key)
    case Some(Array(items)) => Some(items)
    case _ => None
  }

  // ----- Two values are the same JSON value when they differ only in member order -----

  ghost function KeySet(ms: seq<Member>): set<string> { set m | m in ms :: m.key }

  ghost predicate Same(v: Value, w: Value) {
    match (v, w)
    case (Array(a), Array(b)) => |a| == |b| && forall i | 0 <= i < |a| :: Same(a[i], b[i])
    case (Object(a), Object(b)) =>
      && KeySet(a) == KeySet(b)
      && forall i, j | 0 <= i < |a| && 0 <= j < |b| && a[i].key == b[j].key :: Same(a[i].value, b[j].value)
    case _ => v == w
  }

  // ----- Key order -----

  /** Strict lexicographic order by code point: the order `String` keys sort in. */
  predicate Before(a: string, b: string) {
    b != "" && (a == "" || a[0] < b[0] || (a[0] == b[0] && Before(a[1..], b[1..])))
  }

  lemma {:induction false} BeforeIsTotal(a: string, b: string)
    ensures Before(a, b) || a == b || Before(b, a)
    ensures !(Before(a, b) && (a == b || Before(b, a)))
  {
    if a != "" && b != "" && a[0] == b[0] {
      BeforeIsTotal(a[1..], b[1..]);
      assert a[1..] == b[1..] ==> a == [a[0]] + a[1..] == [b[0]] + b[1..] == b;
    }
  }

  lemma {:induction false} BeforeIsTransitive(a: string, b: string, c: string)
    requires Before(a, b) && Before(b, c)
    ensures Before(a, c)
  {
    if a != "" && a[0] == b[0] == c[0] {
      BeforeIsTransitive(a[1..], b[1..], c[1..]);
    }
  }

  /** `k` is the first position at which the texts differ, and there `a` has ended or is smaller. */
  predicate DiffersAt(a: string, b: string, k: nat) {
    k <= |a| && k < |b| && a[..k] == b[..k] && (k == |a| || a[k] < b[k])
  }

  lemma {:induction false} BeforeExactly(a: string, b: string)
    ensures Before(a, b) <==> exists k: nat :: DiffersAt(a, b, k)
  {
    if b == "" || a == "" || a[0] < b[0] {
      assert b != "" ==> DiffersAt(a, b, 0);
    } else if a[0] == b[0] {
      BeforeExactly(a[1..], b[1..]);
      if k: nat :| DiffersAt(a[1..], b[1..], k) {
        assert a[..k + 1] == [a[0]] + a[1..][..k] && b[..k + 1] == [b[0]] + b[1..][..k];
        assert DiffersAt(a, b, k + 1);
      }
      if k: nat :| DiffersAt(a, b, k) {
        assert k > 0 && a[1..][..k - 1] == a[..k][1..] && b[1..][..k - 1] == b[..k][1..];
        assert DiffersAt(a[1..], b[1..], k - 1);
      }
    }
  }

  ghost predicate SortedByKey(ms: seq<Member>) {
    forall i, j | 0 <= i < j < |ms| :: Before(ms[i].key, ms[j].key)
  }

  function InsertByKey(m: Member, ms: seq<Member>): (r: seq<Member>)
    ensures |r| == |ms| + 1 && forall x :: x in r <==> x == m || x in ms
    decreases |ms|
  {
    if ms == [] || !Before(ms[0].key, m.key) then [m] + ms
    else
      assert ms == [ms[0]] + ms[1..];
      [ms[0]] + InsertByKey(m, ms[1..])
  }

  function SortByKey(ms: seq<Member>): (r: seq<Member>)
    ensures |r| == |ms| && forall x :: x in r <==> x in ms
    decreases |ms|
  {
    if ms == [] then []
    else
      assert ms == [ms[0]] + ms[1..];
      InsertByKey(ms[0], SortByKey(ms[1..]))
  }

  lemma {:induction false} InsertKeepsSorted(m: Member, ms: seq<Member>)
    requires SortedByKey(ms) && forall i | 0 <= i < |ms| :: ms[i].key != m.key
    ensures SortedByKey(InsertByKey(m, ms))
    decreases |ms|
  {
    if ms == [] {
    } else if Before(ms[0].key, m.key) {
      var tail := InsertByKey(m, ms[1..]);
      InsertKeepsSorted(m, ms[1..]);
      forall x | x in tail ensures Before(ms[0].key, x.key) {
        if x != m {
          var j :| 0 <= j < |ms[1..]| && ms[1..][j] == x;
          assert ms[j + 1] == x;
        }
      }
      ConsKeepsSorted(ms[0], tail);
    } else {
      BeforeIsTotal(ms[0].key, m.key);
      forall x | x in ms ensures Before(m.key, x.key) {
        var j :| 0 <= j < |ms| && ms[j] == x;
        if j > 0 {
          BeforeIsTransitive(m.key, ms[0].key, ms[j].key);
        }
      }
      ConsKeepsSorted(m, ms);
    }
  }

  lemma ConsKeepsSorted(m: Member, ms: seq<Member>)
    requires SortedByKey(ms) && forall x | x in ms :: Before(m.key, x.key)
    ensures SortedByKey([m] + ms)
  {
    var r := [m] + ms;
    forall i, j | 0 <= i < j < |r| ensures Before(r[i].key, r[j].key) {
      assert r[j] == ms[j - 1] && ms[j - 1] in ms;
    }
  }

  lemma {:induction false} SortSorts(ms: seq<Member>)
    requires DistinctKeys(ms)
    ensures SortedByKey(SortByKey(ms))
    decreases |ms|
  {
    if ms != [] {
      SortSorts(ms[1..]);
      var tail := SortByKey(ms[1..]);
      forall i | 0 <= i < |tail| ensures tail[i].key != ms[0].key {
        assert tail[i] in tail;
        var j :| 0 <= j < |ms[1..]| && ms[1..][j] == tail[i];
        assert ms[j + 1] == tail[i];
      }
      InsertKeepsSorted(ms[0], tail);
    }
  }

  /** A strictly sorted sequence is determined by the set of its elements. */
  lemma {:induction false} SortedIsUnique(a: seq<Member>, b: seq<Member>)
    requires SortedByKey(a) && SortedByKey(b)
    requires forall m :: m in a <==> m in b
    ensures a == b
  {
    if a == [] {
      assert forall i | 0 <= i < |b| :: b[i] in a;
    } else {
      assert a[0] in b && b[0] in a;
      BeforeIsTotal(a[0].key, b[0].key);
      assert a[0] == b[0];
      forall m ensures m in a[1..] <==> m in b[1..] {
        BeforeIsTotal(a[0].key, a[0].key);
        assert m in a[1..] ==> m in a && m != a[0];
        assert m in b[1..] ==> m in b && m != b[0];
      }
      SortedIsUnique(a[1..], b[1..]);
    }
  }

  // ----- Canonical form -----

  /** Members sorted by key at every depth. */
  function Canonical(v: Value): Value {
    match v
    case Array(items) => Array(seq(|items|, i requires 0 <= i < |items| => Canonical(items[i])))
    case Object(ms) => Object(SortByKey(CanonicalMembers(ms)))
    case _ => v
  }

  function CanonicalMembers(ms: seq<Member>): (r: seq<Member>)
    ensures |r| == |ms|
    ensures forall i | 0 <= i < |ms| :: r[i] == Member(ms[i].key, Canonical(ms[i].value))
  {
    seq(|ms|, i requires 0 <= i < |ms| => Member(ms[i].key, Canonical(ms[i].value)))
  }

  lemma {:induction false} CanonicalIffSame(v: Value, w: Value)
    requires WellFormed(v) && WellFormed(w)
    ensures Canonical(v) == Canonical(w) <==> Same(v, w)
    decreases v, 1
  {
    match (v, w)
    case (Array(a), Array(b)) => CanonicalIffSameItems(a, b);
    case (Object(a), Object(b)) => CanonicalIffSameMembers(v, w);
    case _ =>
  }

  lemma CanonicalIffSameItems(a: seq<Value>, b: seq<Value>)
    requires WellFormed(Array(a)) && WellFormed(Array(b))
    ensures Canonical(Array(a)) == Canonical(Array(b)) <==> Same(Array(a), Array(b))
    decreases a, 0
  {
    var ca, cb := Canonical(Array(a)).items, Canonical(Array(b)).items;
    if |a| == |b| {
      forall i | 0 <= i < |a| ensures ca[i] == cb[i] <==> Same(a[i], b[i]) {
        CanonicalIffSame(a[i], b[i]);
      }
      assert ca == cb <==> forall i | 0 <= i < |a| :: ca[i] == cb[i];
    } else {
      assert |ca| != |cb|;
    }
  }

  lemma CanonicalIffSameMembers(v: Value, w: Value)
    requires v.Object? && w.Object? && WellFormed(v) && WellFormed(w)
    ensures Canonical(v) == Canonical(w) <==> Same(v, w)
    decreases v, 0
  {
    var a, b := v.members, w.members;
    var ca, cb := CanonicalMembers(a), CanonicalMembers(b);
    forall i, j | 0 <= i < |a| && 0 <= j < |b| && a[i].key == b[j].key
      ensures ca[i] == cb[j] <==> Same(a[i].value, b[j].value)
    {
      CanonicalIffSame(a[i].value, b[j].value);
    }
    if SortByKey(ca) == SortByKey(cb) {
      SameElements(ca, cb);
      SubsetGivesSame(a, b, ca, cb);
    }
    if Same(v, w) {
      SameGivesSubset(a, b, ca, cb);
      SameGivesSubset(b, a, cb, ca);
      SortSorts(ca);
      SortSorts(cb);
      SortedIsUnique(SortByKey(ca), SortByKey(cb));
    }
  }

  lemma SameElements(a: seq<Member>, b: seq<Member>)
    requires SortByKey(a) == SortByKey(b)
    ensures forall m :: m in a <==> m in b
  {
    forall m ensures m in a <==> m in b {
      assert m in a <==> m in SortByKey(a);
      assert m in b <==> m in SortByKey(b);
    }
  }

  /** Equal member sets force equal keys and, per key, equal canonical values. */
  lemma SubsetGivesSame(a: seq<Member>, b: seq<Member>, ca: seq<Member>, cb: seq<Member>)
    requires DistinctKeys(a) && DistinctKeys(b) && |ca| == |a| && |cb| == |b|
    requires forall i | 0 <= i < |a| :: ca[i].key == a[i].key
    requires forall i | 0 <= i < |b| :: cb[i].key == b[i].key
    requires forall m :: m in ca <==> m in cb
    requires forall i, j | 0 <= i < |a| && 0 <= j < |b| && a[i].key == b[j].key ::
               ca[i] == cb[j] <==> Same(a[i].value, b[j].value)
    ensures Same(Object(a), Object(b))
  {
    KeysFromMembers(a, b, ca, cb);
    KeysFromMembers(b, a, cb, ca);
    forall i, j | 0 <= i < |a| && 0 <= j < |b| && a[i].key == b[j].key
      ensures Same(a[i].value, b[j].value)
    {
      assert ca[i] in cb;
      var k :| 0 <= k < |b| && cb[k] == ca[i];
      assert b[k].key == a[i].key && k == j;
    }
  }

  lemma KeysFromMembers(a: seq<Member>, b: seq<Member>, ca: seq<Member>, cb: seq<Member>)
    requires |ca| == |a| && |cb| == |b|
    requires forall i | 0 <= i < |a| :: ca[i].key == a[i].key
    requires forall i | 0 <= i < |b| :: cb[i].key == b[i].key
    requires forall m | m in ca :: m in cb
    ensures KeySet(a) <= KeySet(b)
  {
    forall k | k in KeySet(a) ensures k in KeySet(b) {
      var m :| m in a && m.key == k;
      var i :| 0 <= i < |a| && a[i] == m;
      assert ca[i] in cb;
      var j :| 0 <= j < |b| && cb[j] == ca[i];
      assert b[j] in b;
    }
  }

  lemma SameGivesSubset(a: seq<Member>, b: seq<Member>, ca: seq<Member>, cb: seq<Member>)
    requires |ca| == |a| && |cb| == |b| && KeySet(a) <= KeySet(b)
    requires forall i, j | 0 <= i < |a| && 0 <= j < |b| && a[i].key == b[j].key :: ca[i] == cb[j]
    ensures forall m | m in ca :: m in cb
  {
    forall m | m in ca ensures m in cb {
      var i :| 0 <= i < |ca| && ca[i] == m;
      assert a[i] in a;
      assert a[i].key in KeySet(b);
      var n :| n in b && n.key == a[i].key;
      var j :| 0 <= j < |b| && b[j] == n;
      assert cb[j] == m;
    }
  }

  /** Reading a member commutes with making the value canonical. */
  lemma GetCanonical(v: Value, key: string)
    requires WellFormed(v)
    ensures Get(Canonical(v), key) ==
            match Get(v, key) case None => None case Some(x) => Some(Canonical(x))
  {
    if v.Object? {
      var ms := v.members;
      var cs := CanonicalMembers(ms);
      var sorted := SortByKey(cs);
      SortSorts(cs);
      SortedHasDistinctKeys(sorted);
      match Lookup(ms, key)
      case Some(x) =>
        var i :| 0 <= i < |ms| && ms[i] == Member(key, x);
        assert cs[i] in sorted;
        var j :| 0 <= j < |sorted| && sorted[j] == cs[i];
        LookupFinds(sorted, j);
      case None =>
        forall j | 0 <= j < |sorted| ensures sorted[j].key != key {
          assert sorted[j] in cs;
          var i :| 0 <= i < |cs| && cs[i] == sorted[j];
        }
    }
  }

  lemma SortedHasDistinctKeys(ms: seq<Member>)
    requires SortedByKey(ms)
    ensures DistinctKeys(ms)
  {
    forall i, j | 0 <= i < j < |ms| ensures ms[i].key != ms[j].key {
      BeforeIsTotal(ms[i].key, ms[j].key);
    }
  }

  /** Making a value canonical twice changes nothing more. */
  lemma {:induction false} CanonicalTwice(v: Value)
    requires WellFormed(v)
    ensures WellFormed(Canonical(v)) && Canonical(Canonical(v)) == Canonical(v)
    decreases v
  {
    match v
    case Array(items) =>
      var cs := Canonical(v).items;
      forall i | 0 <= i < |items| ensures WellFormed(cs[i]) && Canonical(cs[i]) == cs[i] {
        CanonicalTwice(items[i]);
      }
      assert Canonical(Canonical(v)).items == cs;
    case Object(ms) =>
      var cs := CanonicalMembers(ms);
      var sorted := SortByKey(cs);
      SortSorts(cs);
      SortedHasDistinctKeys(sorted);
      forall j | 0 <= j < |sorted| ensures WellFormed(sorted[j].value) && Canonical(sorted[j].value) == sorted[j].value {
        assert sorted[j] in cs;
        var i :| 0 <= i < |cs| && cs[i] == sorted[j];
        CanonicalTwice(ms[i].value);
      }
      assert CanonicalMembers(sorted) == sorted;
      SortSorts(sorted);
      SortedIsUnique(SortByKey(sorted), sorted);
    case _ =>
  }

  /** The canonical form is the same JSON value, and compares with others as the value itself does. */
  lemma CanonicalIsSame(v: Value, w: Value)
    requires WellFormed(v) && WellFormed(w)
    ensures Same(Canonical(v), v)
    ensures Same(Canonical(v), w) <==> Same(v, w)
  {
    CanonicalTwice(v);
    CanonicalIffSame(Canonical(v), v);
    CanonicalIffSame(Canonical(v), w);
    CanonicalIffSame(v, w);
  }
}
