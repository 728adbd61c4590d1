/** The schema check of `validate_instance_against_schema`, and what it decides. */
module SchemaValidation {
  import opened Prelude
  import opened Json

  /** Which error class blames the instance; a malformed schema is always corruption. */
  datatype ErrorKind = ForInput | ForCorruption

  function Blame(kind: ErrorKind): StorageError {
    match kind
    case ForInput => InvalidInput("instance does not match its schema")
    case ForCorruption => Corruption("instance does not match its schema")
  }

  const BAD_SCHEMA := Corruption("malformed schema")

  lemma MembersAreSmaller(v: Value, key: string)
    ensures Get(v, key).Some? ==> Get(v, key).value < v
  {
    if Get(v, key).Some? {
      var i :| 0 <= i < |v.members| && v.members[i] == Member(key, Get(v, key).value);
      assert v.members[i].value < v;
    }
  }

  // ----- Types -----

  function TypeNames(names: seq<Value>): Option<seq<string>> {
    if names == [] then Some([])
    else match names[0]
      case String(name) =>
        (match TypeNames(names[1..]) case None => None case Some(rest) => Some([name] + rest))
      case _ => None
  }

  function AllowedTypes(schemaType: Value): Option<seq<string>> {
    match schemaType
    case String(name) => Some([name])
    case Array(names) => TypeNames(names)
    case _ => None
  }

  predicate MatchesType(expected: string, instance: Value) {
    match instance
    case Object(_) => expected == "object"
    case Array(_) => expected == "array"
    case String(_) => expected == "string"
    case Number(n) => expected == "integer" && -0x8000_0000_0000_0000 <= n < 0x1_0000_0000_0000_0000
    case Bool(_) => expected == "boolean"
    case Null => expected == "null"
  }

  /** The six type names; a number is an integer when it fits one of the 64-bit types. */
  lemma TypesExactly(name: string, instance: Value)
    ensures MatchesType(name, instance) <==>
            || (name == "object" && instance.Object?) || (name == "array" && instance.Array?)
            || (name == "string" && instance.String?) || (name == "boolean" && instance.Bool?)
            || (name == "null" && instance.Null?)
            || (name == "integer" && instance.Number? && -0x8000_0000_0000_0000 <= instance.n <= 0xFFFF_FFFF_FFFF_FFFF)
  {
  }

  /** A type keyword is a name, or a list of names. */
  lemma {:induction false} TypeNamesExactly(names: seq<Value>)
    ensures TypeNames(names).Some? <==> forall i | 0 <= i < |names| :: names[i].String?
    ensures TypeNames(names).Some? ==>
              |TypeNames(names).value| == |names|
              && forall i | 0 <= i < |names| :: names[i] == String(TypeNames(names).value[i])
  {
    if names != [] {
      TypeNamesExactly(names[1..]);
      assert forall i | 0 < i < |names| :: names[i] == names[1..][i - 1];
    }
  }

  function TypeProblem(schemaType: Value, instance: Value, kind: ErrorKind): Option<StorageError> {
    match AllowedTypes(schemaType)
    case None => Some(BAD_SCHEMA)
    case Some(names) =>
      if exists i :: 0 <= i < |names| && MatchesType(names[i], instance) then None else Some(Blame(kind))
  }

  // ----- The check, in the order it is made -----

  function RequiredProblem(required: seq<Value>, instance: Value, kind: ErrorKind): Option<StorageError> {
    if required == [] then None
    else match required[0]
      case String(name) =>
        if Get(instance, name).None? then Some(Blame(kind)) else RequiredProblem(required[1..], instance, kind)
      case _ => Some(BAD_SCHEMA)
  }

  predicate HasUnknown(members: seq<Member>, properties: seq<Member>) {
    exists i :: 0 <= i < |members| && Lookup(properties, members[i].key).None?
  }

  function PropertiesProblem(properties: seq<Member>, instance: Value, kind: ErrorKind): Option<StorageError>
    decreases properties
  {
    if properties == [] then None
    else
      var last := properties[|properties| - 1];
      var before := PropertiesProblem(properties[..|properties| - 1], instance, kind);
      if before.Some? then before
      else match Get(instance, last.key)
        case None => None
        case Some(value) => Problem(last.value, value, kind)
  }

  function ItemsProblem(schema: Value, items: seq<Value>, kind: ErrorKind): Option<StorageError>
    decreases schema, 2, |items|
  {
    if items == [] then None
    else
      var before := ItemsProblem(schema, items[..|items| - 1], kind);
      if before.Some? then before else Problem(schema, items[|items| - 1], kind)
  }

  function First(a: Option<StorageError>, b: Option<StorageError>): Option<StorageError> { if a.Some? then a else b }

  function KeywordsProblem(schema: Value, instance: Value, kind: ErrorKind): Option<StorageError> {
    First(
      match Get(schema, "type") case None => None case Some(schemaType) => TypeProblem(schemaType, instance, kind),
      match GetArray(schema, "required")
      case None => None
      case Some(required) => if !instance.Object? then Some(Blame(kind)) else RequiredProblem(required, instance, kind))
  }

  predicate AllowsUnknown(schema: Value) {
    match GetBool(schema, "additionalProperties") case None => true case Some(allowed) => allowed
  }

  function ObjectProblem(schema: Value, instance: Value, kind: ErrorKind): Option<StorageError>
    decreases schema, 0
  {
    match Get(schema, "properties")
    case Some(Object(properties)) =>
      MembersAreSmaller(schema, "properties");
      if !instance.Object? then Some(Blame(kind))
      else if !AllowsUnknown(schema) && HasUnknown(instance.members, properties) then Some(Blame(kind))
      else PropertiesProblem(properties, instance, kind)
    case _ => None
  }

  function ArrayProblem(schema: Value, instance: Value, kind: ErrorKind): Option<StorageError>
    decreases schema, 0
  {
    match Get(schema, "items")
    case Some(itemSchema) =>
      MembersAreSmaller(schema, "items");
      if !instance.Array? then Some(Blame(kind)) else ItemsProblem(itemSchema, instance.items, kind)
    case None => None
  }

  /** The first error, if any. */
  function Problem(schema: Value, instance: Value, kind: ErrorKind): Option<StorageError>
    decreases schema, 1
  {
    First(KeywordsProblem(schema, instance, kind),
          First(ObjectProblem(schema, instance, kind), ArrayProblem(schema, instance, kind)))
  }

  // ----- What it means to conform -----

  ghost predicate ConformsToType(schema: Value, instance: Value) {
    match Get(schema, "type")
    case None => true
    case Some(schemaType) =>
      AllowedTypes(schemaType).Some? && exists name :: name in AllowedTypes(schemaType).value && MatchesType(name, instance)
  }

  ghost predicate HasRequired(schema: Value, instance: Value) {
    match GetArray(schema, "required")
    case None => true
    case Some(required) =>
      instance.Object? && forall name | name in required :: IsPresent(name, instance)
  }

  predicate IsPresent(name: Value, instance: Value) { name.String? && Get(instance, name.text).Some? }

  ghost predicate ConformsAsObject(schema: Value, instance: Value)
    decreases schema, 0
  {
    match Get(schema, "properties")
    case Some(Object(properties)) =>
      MembersAreSmaller(schema, "properties");
      && instance.Object?
      && (!AllowsUnknown(schema) ==> !HasUnknown(instance.members, properties))
      && forall i | 0 <= i < |properties| && Get(instance, properties[i].key).Some? ::
           Conforms(properties[i].value, Get(instance, properties[i].key).value)
    case _ => true
  }

  ghost predicate ConformsAsArray(schema: Value, instance: Value)
    decreases schema, 0
  {
    match Get(schema, "items")
    case Some(itemSchema) =>
      MembersAreSmaller(schema, "items");
      instance.Array? && forall i | 0 <= i < |instance.items| :: Conforms(itemSchema, instance.items[i])
    case None => true
  }

  /** Each keyword of the schema holds of the instance, whatever order its members stand in. */
  ghost predicate Conforms(schema: Value, instance: Value)
    decreases schema, 1
  {
    && ConformsToType(schema, instance) && HasRequired(schema, instance)
    && ConformsAsObject(schema, instance) && ConformsAsArray(schema, instance)
  }

  lemma TypeIsChecked(schema: Value, instance: Value, kind: ErrorKind)
    ensures (match Get(schema, "type") case None => true case Some(t) => TypeProblem(t, instance, kind).None?)
            <==> ConformsToType(schema, instance)
  {
  }

  lemma {:induction false} RequiredIsChecked(required: seq<Value>, instance: Value, kind: ErrorKind)
    ensures RequiredProblem(required, instance, kind).None? <==>
            forall name | name in required :: IsPresent(name, instance)
  {
    if required != [] {
      RequiredIsChecked(required[1..], instance, kind);
      assert required == [required[0]] + required[1..];
      assert forall name :: name in required <==> name == required[0] || name in required[1..];
      assert IsPresent(required[0], instance) || !IsPresent(required[0], instance);
    }
  }

  ghost predicate PropertiesConform(properties: seq<Member>, instance: Value) {
    forall i | 0 <= i < |properties| && Get(instance, properties[i].key).Some? ::
      Conforms(properties[i].value, Get(instance, properties[i].key).value)
  }

  lemma {:induction false} PropertiesAreChecked(properties: seq<Member>, instance: Value, kind: ErrorKind)
    ensures PropertiesProblem(properties, instance, kind).None? <==> PropertiesConform(properties, instance)
    decreases properties
  {
    if properties != [] {
      var n := |properties| - 1;
      var last := properties[n];
      PropertiesAreChecked(properties[..n], instance, kind);
      if Get(instance, last.key).Some? {
        CheckDecidesConformance(last.value, Get(instance, last.key).value, kind);
      }
      assert PropertiesConform(properties, instance) <==>
             PropertiesConform(properties[..n], instance)
             && (Get(instance, last.key).Some? ==> Conforms(last.value, Get(instance, last.key).value));
    }
  }

  lemma {:induction false} ItemsAreChecked(schema: Value, items: seq<Value>, kind: ErrorKind)
    ensures ItemsProblem(schema, items, kind).None? <==> forall i | 0 <= i < |items| :: Conforms(schema, items[i])
    decreases schema, 2, |items|
  {
    if items != [] {
      ItemsAreChecked(schema, items[..|items| - 1], kind);
      CheckDecidesConformance(schema, items[|items| - 1], kind);
    }
  }

  lemma ObjectIsChecked(schema: Value, instance: Value, kind: ErrorKind)
    ensures ObjectProblem(schema, instance, kind).None? <==> ConformsAsObject(schema, instance)
    decreases schema, 0
  {
    match Get(schema, "properties")
    case Some(Object(properties)) =>
      MembersAreSmaller(schema, "properties");
      PropertiesAreChecked(properties, instance, kind);
    case _ =>
  }

  lemma ArrayIsChecked(schema: Value, instance: Value, kind: ErrorKind)
    ensures ArrayProblem(schema, instance, kind).None? <==> ConformsAsArray(schema, instance)
    decreases schema, 0
  {
    match Get(schema, "items")
    case Some(itemSchema) =>
      MembersAreSmaller(schema, "items");
      if instance.Array? {
        ItemsAreChecked(itemSchema, instance.items, kind);
      }
    case None =>
  }

  /** The check passes exactly the instances that conform. */
  lemma CheckDecidesConformance(schema: Value, instance: Value, kind: ErrorKind)
    ensures Problem(schema, instance, kind).None? <==> Conforms(schema, instance)
    decreases schema, 1
  {
    TypeIsChecked(schema, instance, kind);
    match GetArray(schema, "required") {
      case Some(required) => RequiredIsChecked(required, instance, kind);
      case None =>
    }
    ObjectIsChecked(schema, instance, kind);
    ArrayIsChecked(schema, instance, kind);
  }

  predicate IsNamed(properties: seq<Member>, key: string) { exists j :: 0 <= j < |properties| && properties[j].key == key }

  lemma NamedExactly(properties: seq<Member>, key: string)
    ensures Lookup(properties, key).Some? <==> IsNamed(properties, key)
  {
  }

  /** Members that no property names are refused exactly where the schema says `false` to them. */
  lemma UnknownMembersExactly(schema: Value, properties: seq<Member>, instance: Value)
    requires Get(schema, "properties") == Some(Object(properties)) && instance.Object?
    requires PropertiesConform(properties, instance)
    ensures ConformsAsObject(schema, instance) <==>
            (Get(schema, "additionalProperties") == Some(Bool(false)) ==>
               forall i | 0 <= i < |instance.members| :: IsNamed(properties, instance.members[i].key))
  {
    forall key ensures Lookup(properties, key).Some? <==> IsNamed(properties, key) {
      NamedExactly(properties, key);
    }
  }

  /** The error blames the instance in the class asked for, or the schema for being malformed. */
  predicate BlamedFor(problem: Option<StorageError>, kind: ErrorKind) {
    problem.Some? ==>
      problem.value == BAD_SCHEMA || if kind == ForInput then problem.value.InvalidInput? else problem.value.Corruption?
  }

  lemma {:induction false} BlamesExactly(schema: Value, instance: Value, kind: ErrorKind)
    ensures BlamedFor(Problem(schema, instance, kind), kind)
    decreases schema, 1
  {
    KeywordsBlame(schema, instance, kind);
    ObjectBlames(schema, instance, kind);
    ArrayBlames(schema, instance, kind);
  }

  lemma KeywordsBlame(schema: Value, instance: Value, kind: ErrorKind)
    ensures BlamedFor(KeywordsProblem(schema, instance, kind), kind)
  {
    if GetArray(schema, "required").Some? {
      RequiredBlames(GetArray(schema, "required").value, instance, kind);
    }
  }

  lemma ObjectBlames(schema: Value, instance: Value, kind: ErrorKind)
    ensures BlamedFor(ObjectProblem(schema, instance, kind), kind)
    decreases schema, 0
  {
    match Get(schema, "properties")
    case Some(Object(properties)) =>
      MembersAreSmaller(schema, "properties");
      PropertiesBlame(properties, instance, kind);
    case _ =>
  }

  lemma ArrayBlames(schema: Value, instance: Value, kind: ErrorKind)
    ensures BlamedFor(ArrayProblem(schema, instance, kind), kind)
    decreases schema, 0
  {
    if Get(schema, "items").Some? && instance.Array? {
      MembersAreSmaller(schema, "items");
      ItemsBlame(Get(schema, "items").value, instance.items, kind);
    }
  }

  lemma {:induction false} RequiredBlames(required: seq<Value>, instance: Value, kind: ErrorKind)
    ensures BlamedFor(RequiredProblem(required, instance, kind), kind)
  {
    if required != [] {
      RequiredBlames(required[1..], instance, kind);
    }
  }

  lemma {:induction false} PropertiesBlame(properties: seq<Member>, instance: Value, kind: ErrorKind)
    ensures BlamedFor(PropertiesProblem(properties, instance, kind), kind)
    decreases properties
  {
    if properties != [] {
      var n := |properties| - 1;
      PropertiesBlame(properties[..n], instance, kind);
      if Get(instance, properties[n].key).Some? {
        BlamesExactly(properties[n].value, Get(instance, properties[n].key).value, kind);
      }
    }
  }

  lemma {:induction false} ItemsBlame(schema: Value, items: seq<Value>, kind: ErrorKind)
    ensures BlamedFor(ItemsProblem(schema, items, kind), kind)
    decreases schema, 2, |items|
  {
    if items != [] {
      ItemsBlame(schema, items[..|items| - 1], kind);
      BlamesExactly(schema, items[|items| - 1], kind);
    }
  }

  // ----- Member order carries no meaning -----

  lemma CanonicalArrays(v: Value, key: string)
    requires WellFormed(v)
    ensures GetArray(Canonical(v), key).Some? <==> GetArray(v, key).Some?
    ensures GetBool(Canonical(v), key) == GetBool(v, key)
  {
    GetCanonical(v, key);
  }

  lemma {:induction false} CanonicalTypeNames(names: seq<Value>)
    ensures TypeNames(Canonical(Array(names)).items) == TypeNames(names)
  {
    if names != [] {
      var cs := Canonical(Array(names)).items;
      assert cs[1..] == Canonical(Array(names[1..])).items;
      CanonicalTypeNames(names[1..]);
    }
  }

  lemma CanonicalTypes(schemaType: Value)
    ensures AllowedTypes(Canonical(schemaType)) == AllowedTypes(schemaType)
  {
    if schemaType.Array? {
      CanonicalTypeNames(schemaType.items);
    }
  }

  lemma TypeIgnoresOrder(schema: Value, instance: Value)
    requires WellFormed(schema) && WellFormed(instance)
    ensures ConformsToType(Canonical(schema), Canonical(instance)) <==> ConformsToType(schema, instance)
  {
    GetCanonical(schema, "type");
    if Get(schema, "type").Some? {
      CanonicalTypes(Get(schema, "type").value);
      assert forall name :: MatchesType(name, Canonical(instance)) <==> MatchesType(name, instance);
    }
  }

  lemma RequiredIgnoresOrder(schema: Value, instance: Value)
    requires WellFormed(schema) && WellFormed(instance)
    ensures HasRequired(Canonical(schema), Canonical(instance)) <==> HasRequired(schema, instance)
  {
    GetCanonical(schema, "required");
    if GetArray(schema, "required").Some? {
      var required := GetArray(schema, "required").value;
      var cs := GetArray(Canonical(schema), "required").value;
      assert |cs| == |required| && forall i | 0 <= i < |cs| :: cs[i] == Canonical(required[i]);
      forall i | 0 <= i < |cs| ensures IsPresent(cs[i], Canonical(instance)) <==> IsPresent(required[i], instance) {
        if required[i].String? {
          GetCanonical(instance, required[i].text);
        }
      }
    }
  }

  /** Looking a key up in sorted, canonical members finds the canonical value. */
  lemma LookupCanonical(members: seq<Member>, key: string)
    requires WellFormed(Object(members))
    ensures Lookup(SortByKey(CanonicalMembers(members)), key) ==
            match Lookup(members, key) case None => None case Some(v) => Some(Canonical(v))
  {
    GetCanonical(Object(members), key);
  }

  /** Whether there is an unknown member depends only on which keys there are and which are known. */
  lemma UnknownByKeys(members: seq<Member>, properties: seq<Member>, others: seq<Member>, known: seq<Member>)
    requires forall m | m in members :: exists o :: o in others && o.key == m.key
    requires forall key :: Lookup(properties, key).None? ==> Lookup(known, key).None?
    ensures HasUnknown(members, properties) ==> HasUnknown(others, known)
  {
    if i :| 0 <= i < |members| && Lookup(properties, members[i].key).None? {
      assert members[i] in members;
      var o :| o in others && o.key == members[i].key;
      var j :| 0 <= j < |others| && others[j] == o;
      assert Lookup(known, others[j].key).None?;
    }
  }

  lemma UnknownIgnoresOrder(members: seq<Member>, properties: seq<Member>)
    requires WellFormed(Object(members)) && WellFormed(Object(properties))
    ensures HasUnknown(SortByKey(CanonicalMembers(members)), SortByKey(CanonicalMembers(properties))) <==>
            HasUnknown(members, properties)
  {
    var ms, ps := SortByKey(CanonicalMembers(members)), SortByKey(CanonicalMembers(properties));
    forall key ensures Lookup(ps, key).None? <==> Lookup(properties, key).None? {
      LookupCanonical(properties, key);
    }
    forall m | m in members ensures exists o :: o in ms && o.key == m.key {
      var i :| 0 <= i < |members| && members[i] == m;
      assert CanonicalMembers(members)[i] in ms;
    }
    forall o | o in ms ensures exists m :: m in members && m.key == o.key {
      var i :| 0 <= i < |members| && CanonicalMembers(members)[i] == o;
      assert members[i] in members;
    }
    UnknownByKeys(members, properties, ms, ps);
    UnknownByKeys(ms, ps, members, properties);
  }

  lemma GetIsWellFormed(v: Value, key: string)
    requires WellFormed(v) && Get(v, key).Some?
    ensures WellFormed(Get(v, key).value)
  {
    var i :| 0 <= i < |v.members| && v.members[i] == Member(key, Get(v, key).value);
    assert WellFormed(v.members[i].value);
  }

  ghost predicate PropertyConforms(property: Member, instance: Value) {
    Get(instance, property.key).Some? ==> Conforms(property.value, Get(instance, property.key).value)
  }

  lemma PropertyIgnoresOrder(property: Member, instance: Value)
    requires WellFormed(property.value) && WellFormed(instance)
    ensures PropertyConforms(Member(property.key, Canonical(property.value)), Canonical(instance)) <==>
            PropertyConforms(property, instance)
    decreases property.value, 2
  {
    GetCanonical(instance, property.key);
    if Get(instance, property.key).Some? {
      GetIsWellFormed(instance, property.key);
      ConformanceIgnoresOrder(property.value, Get(instance, property.key).value);
    }
  }

  lemma PropertiesIgnoreOrder(properties: seq<Member>, instance: Value)
    requires WellFormed(Object(properties)) && WellFormed(instance)
    ensures PropertiesConform(SortByKey(CanonicalMembers(properties)), Canonical(instance)) <==>
            PropertiesConform(properties, instance)
    decreases properties
  {
    var cs := CanonicalMembers(properties);
    var sorted := SortByKey(cs);
    forall i | 0 <= i < |properties|
      ensures PropertyConforms(cs[i], Canonical(instance)) <==> PropertyConforms(properties[i], instance)
    {
      PropertyIgnoresOrder(properties[i], instance);
    }
    PropertiesByMember(properties, instance);
    PropertiesByMember(cs, Canonical(instance));
    PropertiesByMember(sorted, Canonical(instance));
    SameMembersConform(cs, sorted, Canonical(instance));
  }

  lemma PropertiesByMember(properties: seq<Member>, instance: Value)
    ensures PropertiesConform(properties, instance) <==>
            forall i | 0 <= i < |properties| :: PropertyConforms(properties[i], instance)
  {
  }

  lemma SameMembersConform(a: seq<Member>, b: seq<Member>, instance: Value)
    requires forall m :: m in a <==> m in b
    ensures (forall i | 0 <= i < |a| :: PropertyConforms(a[i], instance)) <==>
            (forall i | 0 <= i < |b| :: PropertyConforms(b[i], instance))
  {
    assert forall i | 0 <= i < |a| :: a[i] in b;
    assert forall i | 0 <= i < |b| :: b[i] in a;
    assert (forall i | 0 <= i < |a| :: PropertyConforms(a[i], instance)) <==> (forall m | m in a :: PropertyConforms(m, instance));
    assert (forall i | 0 <= i < |b| :: PropertyConforms(b[i], instance)) <==> (forall m | m in b :: PropertyConforms(m, instance));
  }

  lemma ObjectIgnoresOrder(schema: Value, instance: Value)
    requires WellFormed(schema) && WellFormed(instance)
    ensures ConformsAsObject(Canonical(schema), Canonical(instance)) <==> ConformsAsObject(schema, instance)
    decreases schema, 0
  {
    GetCanonical(schema, "properties");
    CanonicalArrays(schema, "additionalProperties");
    match Get(schema, "properties")
    case Some(Object(properties)) =>
      MembersAreSmaller(schema, "properties");
      GetIsWellFormed(schema, "properties");
      if instance.Object? {
        UnknownIgnoresOrder(instance.members, properties);
        PropertiesIgnoreOrder(properties, instance);
        ObjectByParts(schema, instance, properties);
        ObjectByParts(Canonical(schema), Canonical(instance), SortByKey(CanonicalMembers(properties)));
      }
    case _ =>
  }

  lemma ObjectByParts(schema: Value, instance: Value, properties: seq<Member>)
    requires Get(schema, "properties") == Some(Object(properties)) && instance.Object?
    ensures ConformsAsObject(schema, instance) <==>
            (!AllowsUnknown(schema) ==> !HasUnknown(instance.members, properties)) && PropertiesConform(properties, instance)
  {
    MembersAreSmaller(schema, "properties");
  }

  lemma ArrayIgnoresOrder(schema: Value, instance: Value)
    requires WellFormed(schema) && WellFormed(instance)
    ensures ConformsAsArray(Canonical(schema), Canonical(instance)) <==> ConformsAsArray(schema, instance)
    decreases schema, 0
  {
    GetCanonical(schema, "items");
    match Get(schema, "items")
    case Some(itemSchema) =>
      MembersAreSmaller(schema, "items");
      GetIsWellFormed(schema, "items");
      if instance.Array? {
        forall i | 0 <= i < |instance.items|
          ensures Conforms(Canonical(itemSchema), Canonical(instance).items[i]) <==> Conforms(itemSchema, instance.items[i])
        {
          ConformanceIgnoresOrder(itemSchema, instance.items[i]);
        }
      }
    case None =>
  }

  /** The schema is stored as canonical text and read back: it accepts exactly what the schema that was registered does. */
  lemma {:induction false} ConformanceIgnoresOrder(schema: Value, instance: Value)
    requires WellFormed(schema) && WellFormed(instance)
    ensures Conforms(Canonical(schema), Canonical(instance)) <==> Conforms(schema, instance)
    decreases schema, 1
  {
    TypeIgnoresOrder(schema, instance);
    RequiredIgnoresOrder(schema, instance);
    ObjectIgnoresOrder(schema, instance);
    ArrayIgnoresOrder(schema, instance);
  }

  /** Two schemas that are the same JSON value pass the same instances, and an instance passes in every member order. */
  lemma SameSchemasPassTheSame(schema: Value, schema': Value, instance: Value, instance': Value, kind: ErrorKind)
    requires WellFormed(schema) && WellFormed(schema') && WellFormed(instance) && WellFormed(instance')
    requires Same(schema, schema') && Same(instance, instance')
    ensures Problem(schema, instance, kind).None? <==> Problem(schema', instance', kind).None?
  {
    CanonicalIffSame(schema, schema');
    CanonicalIffSame(instance, instance');
    ConformanceIgnoresOrder(schema, instance);
    ConformanceIgnoresOrder(schema', instance');
    CheckDecidesConformance(schema, instance, kind);
    CheckDecidesConformance(schema', instance', kind);
  }
}
