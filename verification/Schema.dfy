/**
 The hand-written JSON Schema interpreter, against the meaning JSON Schema 2020-12 gives the same
 keywords (Core sections 10.2.1, 10.2.2 and 10.3; Validation section 6).
 */
module Schema {
  import opened Options
  import opened Json

  datatype TypeName = NullType | StringType | IntegerType | ArrayType | ObjectType | OtherType(name: string)

  datatype Types = Untyped | One(name: TypeName) | Many(names: seq<TypeName>)

  datatype Property = Property(name: string, schema: Schema)

  datatype Properties = NoProperties | Properties(list: seq<Property>)

  datatype Branches = NoBranches | Branches(list: seq<Schema>)

  /** Every keyword but `$ref` and `type`. `closed` is `additionalProperties: false`. */
  datatype Keywords = Keywords(
    constant: Option<Json>, choices: Option<seq<Json>>,
    pattern: Option<string>, minLength: Option<nat>, maxLength: Option<nat>,
    minimum: Option<int>, maximum: Option<int>,
    required: Option<seq<string>>, properties: Properties, closed: bool,
    items: Option<Schema>, maxItems: Option<nat>,
    allOf: Branches, anyOf: Branches, oneOf: Branches,
    condition: Option<Schema>, consequent: Option<Schema>, alternative: Option<Schema>)

  datatype Schema = Ref(name: string) | Inline(types: Types, keywords: Keywords)

  datatype Definition = Definition(name: string, schema: Schema)

  /**
   The schema table in an order in which every `$ref` points backwards, which exists exactly when the
   references are acyclic; the pattern engine; and whether this copy implements `oneOf`.
   */
  datatype Env = Env(matches: (string, string) -> bool, table: seq<Definition>, oneOfImplemented: bool)

  /** The position of a name among the first `n` definitions, or `n`. */
  function Resolve(table: seq<Definition>, n: nat, name: string): (i: nat)
    requires n <= |table|
    ensures i <= n
    ensures i < n ==> table[i].name == name
  {
    if n == 0 then 0
    else
      var i := Resolve(table, n - 1, name);
      if i < n - 1 then i else if table[n - 1].name == name then n - 1 else n
  }

  function Lookup(list: seq<Property>, key: string): (i: nat)
    ensures i <= |list|
    ensures i < |list| ==> list[i].name == key
  {
    if list == [] then 0 else if list[0].name == key then 0 else 1 + Lookup(list[1..], key)
  }

  // ----- the interpreter

  /** JavaScript's `===` between a parsed value and a schema constant. */
  predicate Identical(v: Json, c: Json) {
    v == c && !v.JArray? && !v.JObject?
  }

  predicate PassesConstants(v: Json, k: Keywords) {
    && (k.constant.Some? ==> Identical(v, k.constant.value))
    && (k.choices.Some? ==> exists i | 0 <= i < |k.choices.value| :: Identical(v, k.choices.value[i]))
  }

  predicate LengthFits(n: nat, least: Option<nat>, most: Option<nat>) {
    (least.Some? ==> least.value <= n) && (most.Some? ==> n <= most.value)
  }

  /** The `length` of a JavaScript string: UTF-16 code units, two for a character outside the basic plane. */
  function Units(s: string): nat {
    if s == "" then 0 else (if s[0] as int >= 0x10000 then 2 else 1) + Units(s[1..])
  }

  /** The interpreter's check of a string, which counts code units. */
  predicate TextPasses(env: Env, s: string, k: Keywords) {
    LengthFits(Units(s), k.minLength, k.maxLength) && (k.pattern.Some? ==> env.matches(k.pattern.value, s))
  }

  predicate NumberFits(x: real, k: Keywords) {
    (k.minimum.Some? ==> k.minimum.value as real <= x) && (k.maximum.Some? ==> x <= k.maximum.value as real)
  }

  predicate RequiredPresent(fields: map<string, Json>, k: Keywords) {
    k.required.Some? ==> forall i | 0 <= i < |k.required.value| :: k.required.value[i] in fields
  }

  function PropertyList(k: Keywords): seq<Property> {
    if k.properties.Properties? then k.properties.list else []
  }

  predicate Valid(env: Env, n: nat, v: Json, s: Schema)
    requires n <= |env.table|
    decreases n, s, 0
  {
    match s
    case Ref(name) =>
      var i := Resolve(env.table, n, name);
      i < n && Valid(env, i, v, env.table[i].schema)
    case Inline(types, k) => ValidInline(env, n, v, types, k)
  }

  predicate ValidInline(env: Env, n: nat, v: Json, types: Types, k: Keywords)
    requires n <= |env.table|
    decreases n, k, if types.Many? then 3 else 2
  {
    if !PassesShared(env, n, v, k) then false
    else match types
      case Many(names) => exists i | 0 <= i < |names| :: ValidInline(env, n, v, One(names[i]), k)
      case One(name) => PassesType(env, n, v, Some(name), k)
      case Untyped => PassesType(env, n, v, None, k)
  }

  /** The keywords checked before `type` is looked at. */
  predicate PassesShared(env: Env, n: nat, v: Json, k: Keywords)
    requires n <= |env.table|
    decreases n, k, 1
  {
    && AllPass(env, n, v, k.allOf)
    && AnyPasses(env, n, v, k.anyOf)
    && (env.oneOfImplemented && k.oneOf.Branches? ==> CountValid(env, n, v, k.oneOf.list) == 1)
    && ConditionPasses(env, n, v, k)
    && PassesConstants(v, k)
  }

  predicate AllPass(env: Env, n: nat, v: Json, b: Branches)
    requires n <= |env.table|
    decreases n, b, 0
  {
    b.Branches? ==> forall i | 0 <= i < |b.list| :: Valid(env, n, v, b.list[i])
  }

  predicate AnyPasses(env: Env, n: nat, v: Json, b: Branches)
    requires n <= |env.table|
    decreases n, b, 0
  {
    b.Branches? ==> exists i | 0 <= i < |b.list| :: Valid(env, n, v, b.list[i])
  }

  predicate ConditionPasses(env: Env, n: nat, v: Json, k: Keywords)
    requires n <= |env.table|
    decreases n, k, 0
  {
    k.condition.Some? ==>
      if Valid(env, n, v, k.condition.value) then k.consequent.Some? ==> Valid(env, n, v, k.consequent.value)
      else k.alternative.Some? ==> Valid(env, n, v, k.alternative.value)
  }

  /** The check for one type name, or for none. */
  predicate PassesType(env: Env, n: nat, v: Json, t: Option<TypeName>, k: Keywords)
    requires n <= |env.table|
    decreases n, k, 1
  {
    if t == Some(NullType) then v.JNull?
    else if t == Some(StringType) then v.JString? && TextPasses(env, v.text, k)
    else if t == Some(IntegerType) then v.JNumber? && IsSafeInteger(v.number) && NumberFits(v.number, k)
    else if t == Some(ArrayType) then
      && v.JArray? && LengthFits(|v.items|, None, k.maxItems)
      && forall i | 0 <= i < |v.items| :: ItemPasses(env, n, v.items[i], k)
    else if t == Some(ObjectType) || k.properties.Properties? || k.required.Some? then
      && v.JObject?
      && RequiredPresent(v.fields, k)
      && forall key | key in v.fields :: FieldPasses(env, n, v.fields[key], key, k)
    else true
  }

  /** Without `items`, no element passes. */
  predicate ItemPasses(env: Env, n: nat, x: Json, k: Keywords)
    requires n <= |env.table|
    decreases n, k, 0
  {
    k.items.Some? && Valid(env, n, x, k.items.value)
  }

  predicate FieldPasses(env: Env, n: nat, x: Json, key: string, k: Keywords)
    requires n <= |env.table|
    decreases n, k, 0
  {
    var i := Lookup(PropertyList(k), key);
    if i < |PropertyList(k)| then Valid(env, n, x, PropertyList(k)[i].schema) else !k.closed
  }

  function CountValid(env: Env, n: nat, v: Json, list: seq<Schema>): nat
    requires n <= |env.table|
    decreases n, list, 1
  {
    if list == [] then 0 else (if Valid(env, n, v, list[0]) then 1 else 0) + CountValid(env, n, v, list[1..])
  }

  // ----- the meaning of the keywords

  predicate HasType(v: Json, t: TypeName) {
    match t
    case NullType => v.JNull?
    case StringType => v.JString?
    case IntegerType => v.JNumber? && IsInteger(v.number)
    case ArrayType => v.JArray?
    case ObjectType => v.JObject?
    case OtherType(name) => (name == "number" && v.JNumber?) || (name == "boolean" && v.JBool?)
  }

  /** The meaning of the string keywords, which count characters (Validation sections 6.3.1 to 6.3.3). */
  predicate TextAccepts(env: Env, s: string, k: Keywords) {
    LengthFits(|s|, k.minLength, k.maxLength) && (k.pattern.Some? ==> env.matches(k.pattern.value, s))
  }

  predicate TypeAccepts(v: Json, types: Types) {
    match types
    case Untyped => true
    case One(t) => HasType(v, t)
    case Many(ts) => exists i | 0 <= i < |ts| :: HasType(v, ts[i])
  }

  predicate ConstantsAccept(v: Json, k: Keywords) {
    && (k.constant.Some? ==> v == k.constant.value)
    && (k.choices.Some? ==> exists i | 0 <= i < |k.choices.value| :: v == k.choices.value[i])
  }

  predicate Accepts(env: Env, n: nat, v: Json, s: Schema)
    requires n <= |env.table|
    decreases n, s, 0
  {
    match s
    case Ref(name) =>
      var i := Resolve(env.table, n, name);
      i < n && Accepts(env, i, v, env.table[i].schema)
    case Inline(types, k) => TypeAccepts(v, types) && KeywordsAccept(env, n, v, k)
  }

  /** Each keyword constrains only the instances it speaks about; together they must all hold. */
  predicate KeywordsAccept(env: Env, n: nat, v: Json, k: Keywords)
    requires n <= |env.table|
    decreases n, k, 2
  {
    ApplicatorsAccept(env, n, v, k) && InstanceAccepts(env, n, v, k)
  }

  /** `allOf`, `anyOf`, `oneOf`, `if`/`then`/`else`, `const` and `enum`. */
  predicate ApplicatorsAccept(env: Env, n: nat, v: Json, k: Keywords)
    requires n <= |env.table|
    decreases n, k, 1
  {
    && AllAccept(env, n, v, k.allOf)
    && AnyAccepts(env, n, v, k.anyOf)
    && OneAccepts(env, n, v, k.oneOf)
    && ConditionAccepts(env, n, v, k)
    && ConstantsAccept(v, k)
  }

  predicate AllAccept(env: Env, n: nat, v: Json, b: Branches)
    requires n <= |env.table|
    decreases n, b, 0
  {
    b.Branches? ==> forall i | 0 <= i < |b.list| :: Accepts(env, n, v, b.list[i])
  }

  predicate AnyAccepts(env: Env, n: nat, v: Json, b: Branches)
    requires n <= |env.table|
    decreases n, b, 0
  {
    b.Branches? ==> exists i | 0 <= i < |b.list| :: Accepts(env, n, v, b.list[i])
  }

  predicate OneAccepts(env: Env, n: nat, v: Json, b: Branches)
    requires n <= |env.table|
    decreases n, b, 1
  {
    b.Branches? ==> exists i | 0 <= i < |b.list| :: OnlyAccepts(env, n, v, b, i)
  }

  predicate OnlyAccepts(env: Env, n: nat, v: Json, b: Branches, i: nat)
    requires n <= |env.table| && b.Branches? && i < |b.list|
    decreases n, b, 0
  {
    Accepts(env, n, v, b.list[i]) && forall j | 0 <= j < |b.list| && j != i :: !Accepts(env, n, v, b.list[j])
  }

  predicate ConditionAccepts(env: Env, n: nat, v: Json, k: Keywords)
    requires n <= |env.table|
    decreases n, k, 0
  {
    k.condition.Some? ==>
      if Accepts(env, n, v, k.condition.value) then k.consequent.Some? ==> Accepts(env, n, v, k.consequent.value)
      else k.alternative.Some? ==> Accepts(env, n, v, k.alternative.value)
  }

  /** The keywords for strings, numbers, arrays and objects. */
  predicate InstanceAccepts(env: Env, n: nat, v: Json, k: Keywords)
    requires n <= |env.table|
    decreases n, k, 1
  {
    && (v.JString? ==> TextAccepts(env, v.text, k))
    && (v.JNumber? ==> NumberFits(v.number, k))
    && (v.JArray? ==>
          && LengthFits(|v.items|, None, k.maxItems)
          && (k.items.Some? ==> forall i | 0 <= i < |v.items| :: Accepts(env, n, v.items[i], k.items.value)))
    && (v.JObject? ==>
          && RequiredPresent(v.fields, k)
          && forall key | key in v.fields :: FieldAccepts(env, n, v.fields[key], key, k))
  }

  predicate FieldAccepts(env: Env, n: nat, x: Json, key: string, k: Keywords)
    requires n <= |env.table|
    decreases n, k, 0
  {
    var i := Lookup(PropertyList(k), key);
    if i < |PropertyList(k)| then Accepts(env, n, x, PropertyList(k)[i].schema) else !k.closed
  }

  // ----- a type list

  /** Without a list, the schema is the shared check and the one type check. */
  lemma SingleTypeIsSharedCheck(env: Env, n: nat, v: Json, types: Types, k: Keywords)
    requires n <= |env.table| && !types.Many?
    ensures ValidInline(env, n, v, types, k) <==>
            PassesShared(env, n, v, k) && PassesType(env, n, v, if types.One? then Some(types.name) else None, k)
  {
  }

  /** Re-interpreting the whole schema once per type name is one shared check and some type check. */
  lemma TypeListIsSharedCheck(env: Env, n: nat, v: Json, names: seq<TypeName>, k: Keywords)
    requires n <= |env.table|
    ensures ValidInline(env, n, v, Many(names), k) <==>
            PassesShared(env, n, v, k) && exists i | 0 <= i < |names| :: PassesType(env, n, v, Some(names[i]), k)
  {
    forall i | 0 <= i < |names|
      ensures ValidInline(env, n, v, One(names[i]), k) <==>
                PassesShared(env, n, v, k) && PassesType(env, n, v, Some(names[i]), k)
    {
    }
  }
}
