/**
 Where the interpreter agrees with JSON Schema 2020-12, and where it only errs by refusing: the
 schemas with acyclic references, scalar constants, and conditionals on values known to be objects.
 */
module SchemaSoundness {
  import opened Options
  import opened Json
  import opened Schema

  // ----- the fragment

  predicate Scalar(v: Json) {
    !v.JArray? && !v.JObject?
  }

  predicate ScalarConstants(k: Keywords) {
    && (k.constant.Some? ==> Scalar(k.constant.value))
    && (k.choices.Some? ==> forall i | 0 <= i < |k.choices.value| :: Scalar(k.choices.value[i]))
  }

  /** Bounds that leave no integer outside the range JavaScript calls safe. */
  predicate SafeBounds(k: Keywords) {
    k.minimum.Some? && k.maximum.Some? && -MAX_SAFE_INTEGER <= k.minimum.value && k.maximum.value <= MAX_SAFE_INTEGER
  }

  /** A schema without `type` may carry only the keywords the interpreter still looks at. */
  predicate NoInstanceKeywords(k: Keywords) {
    && k.pattern.None? && k.minLength.None? && k.maxLength.None? && k.minimum.None? && k.maximum.None?
    && k.items.None? && k.maxItems.None?
  }

  /**
   Length bounds on which counting code units can do no harm: no lower bound above one, since a character may count for
   two; and, to be decided exactly, no upper bound.
   */
  predicate LengthsFragment(k: Keywords, exact: bool) {
    (k.minLength.Some? ==> k.minLength.value <= 1) && (exact ==> k.maxLength.None?)
  }

  lemma {:induction false} UnitsBound(s: string)
    ensures |s| <= Units(s) <= 2 * |s|
  {
    if s != "" {
      UnitsBound(s[1..]);
    }
  }

  predicate TypeFragment(t: Option<TypeName>, k: Keywords, isObject: bool, exact: bool) {
    match t
    case None =>
      if k.properties.Properties? || k.required.Some? then exact ==> isObject
      else NoInstanceKeywords(k) && !k.closed
    case Some(NullType) => true
    case Some(StringType) => LengthsFragment(k, exact)
    case Some(IntegerType) => exact ==> SafeBounds(k)
    case Some(ArrayType) => exact ==> k.items.Some?
    case Some(ObjectType) => true
    case Some(OtherType(_)) => false
  }

  predicate TypesFragment(types: Types, k: Keywords, isObject: bool, exact: bool) {
    match types
    case Untyped => TypeFragment(None, k, isObject, exact)
    case One(t) => TypeFragment(Some(t), k, isObject, exact)
    case Many(ts) => forall i | 0 <= i < |ts| :: TypeFragment(Some(ts[i]), k, isObject, exact)
  }

  /** With `exact`, the interpreter decides the schema; without it, the interpreter may also refuse too much. */
  predicate Fragment(env: Env, n: nat, s: Schema, isObject: bool, exact: bool)
    requires n <= |env.table|
    decreases n, s, 0
  {
    match s
    case Ref(name) =>
      var i := Resolve(env.table, n, name);
      i < n && Fragment(env, i, env.table[i].schema, isObject, exact)
    case Inline(types, k) =>
      && ScalarConstants(k)
      && TypesFragment(types, k, isObject || types == One(ObjectType), exact)
      && KeywordsFragment(env, n, k, isObject || types == One(ObjectType), exact)
  }

  predicate BranchesFragment(env: Env, n: nat, b: Branches, isObject: bool, exact: bool)
    requires n <= |env.table|
    decreases n, b, 0
  {
    b.Branches? ==> forall i | 0 <= i < |b.list| :: Fragment(env, n, b.list[i], isObject, exact)
  }

  /** The branches of `oneOf` and the condition of `if` must be decided exactly. */
  predicate KeywordsFragment(env: Env, n: nat, k: Keywords, isObject: bool, exact: bool)
    requires n <= |env.table|
    decreases n, k, 0
  {
    && BranchesFragment(env, n, k.allOf, isObject, exact)
    && BranchesFragment(env, n, k.anyOf, isObject, exact)
    && BranchesFragment(env, n, k.oneOf, isObject, true)
    && (k.condition.Some? ==> Fragment(env, n, k.condition.value, isObject, true))
    && (k.consequent.Some? ==> Fragment(env, n, k.consequent.value, isObject, exact))
    && (k.alternative.Some? ==> Fragment(env, n, k.alternative.value, isObject, exact))
    && (k.items.Some? ==> Fragment(env, n, k.items.value, false, exact))
    && (forall i | 0 <= i < |PropertyList(k)| :: Fragment(env, n, PropertyList(k)[i].schema, false, exact))
  }

  // ----- exactly one

  function CountTrue(bs: seq<bool>): nat {
    if bs == [] then 0 else (if bs[0] then 1 else 0) + CountTrue(bs[1..])
  }

  predicate ExactlyOne(bs: seq<bool>) {
    exists i | 0 <= i < |bs| :: OnlyTrue(bs, i)
  }

  predicate OnlyTrue(bs: seq<bool>, i: nat)
    requires i < |bs|
  {
    bs[i] && forall j | 0 <= j < |bs| && j != i :: !bs[j]
  }

  lemma {:induction false} CountTrueIsZero(bs: seq<bool>)
    ensures CountTrue(bs) == 0 <==> forall i | 0 <= i < |bs| :: !bs[i]
  {
    if bs != [] {
      CountTrueIsZero(bs[1..]);
      assert forall i | 1 <= i < |bs| :: bs[i] == bs[1..][i - 1];
    }
  }

  lemma {:induction false} CountTrueIsOne(bs: seq<bool>)
    ensures CountTrue(bs) == 1 <==> ExactlyOne(bs)
  {
    if bs != [] {
      var rest := bs[1..];
      CountTrueIsZero(rest);
      CountTrueIsOne(rest);
      assert forall j | 0 <= j < |rest| :: rest[j] == bs[j + 1];
      if ExactlyOne(rest) && !bs[0] {
        var i :| 0 <= i < |rest| && OnlyTrue(rest, i);
        assert OnlyTrue(bs, i + 1);
      }
      if ExactlyOne(bs) && !bs[0] {
        var i :| 0 <= i < |bs| && OnlyTrue(bs, i);
        assert OnlyTrue(rest, i - 1);
      }
      if bs[0] {
        assert CountTrue(rest) == 0 <==> OnlyTrue(bs, 0);
      }
    }
  }

  lemma {:induction false} CountValidIsCountTrue(env: Env, n: nat, v: Json, list: seq<Schema>, bs: seq<bool>)
    requires n <= |env.table| && |bs| == |list| && forall i | 0 <= i < |list| :: bs[i] == Valid(env, n, v, list[i])
    ensures CountValid(env, n, v, list) == CountTrue(bs)
    decreases |list|
  {
    hide Valid;
    if list != [] {
      CountValidIsCountTrue(env, n, v, list[1..], bs[1..]);
    }
  }

  /** The filtered length is one exactly when one branch holds and no other does. */
  lemma CountIsOne(env: Env, n: nat, v: Json, b: Branches)
    requires n <= |env.table| && b.Branches? && forall i | 0 <= i < |b.list| :: Agrees(env, n, v, b.list[i], true)
    ensures CountValid(env, n, v, b.list) == 1 <==> OneAccepts(env, n, v, b)
  {
    hide Valid, Accepts;
    var bs := seq(|b.list|, i requires 0 <= i < |b.list| => Accepts(env, n, v, b.list[i]));
    assert forall i | 0 <= i < |b.list| :: Agrees(env, n, v, b.list[i], true) && bs[i] == Valid(env, n, v, b.list[i]);
    CountValidIsCountTrue(env, n, v, b.list, bs);
    CountTrueIsOne(bs);
    OneAcceptsIsExactlyOne(env, n, v, b, bs);
  }

  lemma OneAcceptsIsExactlyOne(env: Env, n: nat, v: Json, b: Branches, bs: seq<bool>)
    requires n <= |env.table| && b.Branches? && |bs| == |b.list| && forall i | 0 <= i < |bs| ::
              bs[i] == Accepts(env, n, v, b.list[i])
    ensures OneAccepts(env, n, v, b) <==> ExactlyOne(bs)
  {
    hide Accepts;
    assert forall i | 0 <= i < |bs| :: OnlyAccepts(env, n, v, b, i) <==> OnlyTrue(bs, i);
  }

  // ----- the interpreter against the meaning

  /** What is to be shown of one value and one schema. */
  predicate Agrees(env: Env, n: nat, v: Json, s: Schema, exact: bool)
    requires n <= |env.table|
  {
    && (Valid(env, n, v, s) ==> Accepts(env, n, v, s))
    && (exact ==> (Accepts(env, n, v, s) ==> Valid(env, n, v, s)))
  }

  lemma {:induction false} Interprets(env: Env, n: nat, v: Json, s: Schema, isObject: bool, exact: bool)
    requires n <= |env.table| && env.oneOfImplemented
    requires Fragment(env, n, s, isObject, exact) && (isObject ==> v.JObject?)
    ensures Agrees(env, n, v, s, exact)
    decreases n, s, 2
  {
    hide PassesShared, PassesType, ApplicatorsAccept, InstanceAccepts, TypesFragment, KeywordsFragment, ScalarConstants;
    match s
    case Ref(name) =>
      var i := Resolve(env.table, n, name);
      Interprets(env, i, v, env.table[i].schema, isObject, exact);
    case Inline(types, k) =>
      var known := isObject || types == One(ObjectType);
      if types == One(ObjectType) && !v.JObject? {
        NotAnObject(env, n, v, k);
      } else {
        Applicators(env, n, v, k, known, exact);
        TypesAgree(env, n, v, types, k, known, exact);
      }
  }

  lemma NotAnObject(env: Env, n: nat, v: Json, k: Keywords)
    requires n <= |env.table| && !v.JObject?
    ensures !ValidInline(env, n, v, One(ObjectType), k)
  {
  }

  lemma {:induction false} BranchesAgree(env: Env, n: nat, v: Json, b: Branches, isObject: bool, exact: bool)
    requires n <= |env.table| && env.oneOfImplemented && (isObject ==> v.JObject?)
    requires BranchesFragment(env, n, b, isObject, exact)
    ensures b.Branches? ==> forall i | 0 <= i < |b.list| :: Agrees(env, n, v, b.list[i], exact)
    ensures AllPass(env, n, v, b) ==> AllAccept(env, n, v, b)
    ensures AnyPasses(env, n, v, b) ==> AnyAccepts(env, n, v, b)
    ensures exact ==> (AllAccept(env, n, v, b) ==> AllPass(env, n, v, b)) && (AnyAccepts(env, n, v, b) ==>
              AnyPasses(env, n, v, b))
    decreases n, b, 0
  {
    hide Valid, Accepts, Fragment;
    if b.Branches? {
      forall i | 0 <= i < |b.list|
        ensures Agrees(env, n, v, b.list[i], exact)
      {
        Interprets(env, n, v, b.list[i], isObject, exact);
      }
    }
  }

  lemma {:induction false} ConditionAgrees(env: Env, n: nat, v: Json, k: Keywords, isObject: bool, exact: bool)
    requires n <= |env.table| && env.oneOfImplemented
    requires KeywordsFragment(env, n, k, isObject, exact) && (isObject ==> v.JObject?)
    ensures ConditionPasses(env, n, v, k) ==> ConditionAccepts(env, n, v, k)
    ensures exact && ConditionAccepts(env, n, v, k) ==> ConditionPasses(env, n, v, k)
    decreases n, k, 0
  {
    hide Valid, Accepts, Fragment;
    if k.condition.Some? {
      Interprets(env, n, v, k.condition.value, isObject, true);
      if k.consequent.Some? {
        Interprets(env, n, v, k.consequent.value, isObject, exact);
      }
      if k.alternative.Some? {
        Interprets(env, n, v, k.alternative.value, isObject, exact);
      }
    }
  }

  lemma {:induction false} Applicators(env: Env, n: nat, v: Json, k: Keywords, isObject: bool, exact: bool)
    requires n <= |env.table| && env.oneOfImplemented && ScalarConstants(k)
    requires KeywordsFragment(env, n, k, isObject, exact) && (isObject ==> v.JObject?)
    ensures PassesShared(env, n, v, k) ==> ApplicatorsAccept(env, n, v, k)
    ensures exact && ApplicatorsAccept(env, n, v, k) ==> PassesShared(env, n, v, k)
    decreases n, k, 1
  {
    hide AllPass, AllAccept, AnyPasses, AnyAccepts, OneAccepts, ConditionPasses, ConditionAccepts, CountValid, Fragment,
         BranchesFragment;
    BranchesAgree(env, n, v, k.allOf, isObject, exact);
    BranchesAgree(env, n, v, k.anyOf, isObject, exact);
    BranchesAgree(env, n, v, k.oneOf, isObject, true);
    if k.oneOf.Branches? {
      CountIsOne(env, n, v, k.oneOf);
    } else {
      NoOneOf(env, n, v, k.oneOf);
    }
    ConditionAgrees(env, n, v, k, isObject, exact);
    ConstantsAgree(v, k);
  }

  lemma NoOneOf(env: Env, n: nat, v: Json, b: Branches)
    requires n <= |env.table| && b.NoBranches?
    ensures OneAccepts(env, n, v, b)
  {
  }

  lemma ConstantsAgree(v: Json, k: Keywords)
    requires ScalarConstants(k)
    ensures PassesConstants(v, k) <==> ConstantsAccept(v, k)
  {
  }

  lemma {:induction false} TypesAgree(env: Env, n: nat, v: Json, types: Types, k: Keywords, isObject: bool, exact: bool)
    requires n <= |env.table| && env.oneOfImplemented && ScalarConstants(k)
    requires TypesFragment(types, k, isObject, exact) && KeywordsFragment(env, n, k, isObject, exact)
    requires (isObject ==> v.JObject?)
    requires PassesShared(env, n, v, k) ==> ApplicatorsAccept(env, n, v, k)
    requires exact && ApplicatorsAccept(env, n, v, k) ==> PassesShared(env, n, v, k)
    ensures ValidInline(env, n, v, types, k) ==> TypeAccepts(v, types) && KeywordsAccept(env, n, v, k)
    ensures exact && TypeAccepts(v, types) && KeywordsAccept(env, n, v, k) ==> ValidInline(env, n, v, types, k)
    decreases n, k, 1
  {
    hide PassesShared, PassesType, ApplicatorsAccept, InstanceAccepts, KeywordsFragment, TypeFragment;
    match types
    case Untyped => TypeAgrees(env, n, v, None, k, isObject, exact);
    case One(t) => TypeAgrees(env, n, v, Some(t), k, isObject, exact);
    case Many(ts) =>
      forall i | 0 <= i < |ts|
        ensures PassesType(env, n, v, Some(ts[i]), k) ==> HasType(v, ts[i]) && InstanceAccepts(env, n, v, k)
        ensures exact && HasType(v, ts[i]) && InstanceAccepts(env, n, v, k) ==> PassesType(env, n, v, Some(ts[i]), k)
      {
        TypeAgrees(env, n, v, Some(ts[i]), k, isObject, exact);
      }
      TypeListIsSharedCheck(env, n, v, ts, k);
  }

  lemma {:induction false} TypeAgrees(env: Env, n: nat, v: Json, t: Option<TypeName>, k: Keywords, isObject: bool,
                                      exact: bool)
    requires n <= |env.table| && env.oneOfImplemented
    requires TypeFragment(t, k, isObject, exact) && KeywordsFragment(env, n, k, isObject, exact)
    requires (isObject ==> v.JObject?)
    ensures PassesType(env, n, v, t, k) ==> (t.Some? ==> HasType(v, t.value)) && InstanceAccepts(env, n, v, k)
    ensures exact && (t.Some? ==> HasType(v, t.value)) && InstanceAccepts(env, n, v, k) ==> PassesType(env, n, v, t, k)
    decreases n, k, 0
  {
    hide Valid, Accepts, Fragment;
    if v.JString? {
      UnitsBound(v.text);
    }
    if v.JArray? && k.items.Some? {
      forall i | 0 <= i < |v.items|
        ensures ItemPasses(env, n, v.items[i], k) ==> Accepts(env, n, v.items[i], k.items.value)
        ensures exact && Accepts(env, n, v.items[i], k.items.value) ==> ItemPasses(env, n, v.items[i], k)
      {
        Interprets(env, n, v.items[i], k.items.value, false, exact);
      }
    }
    if v.JObject? {
      forall key | key in v.fields
        ensures FieldPasses(env, n, v.fields[key], key, k) ==> FieldAccepts(env, n, v.fields[key], key, k)
        ensures exact && FieldAccepts(env, n, v.fields[key], key, k) ==> FieldPasses(env, n, v.fields[key], key, k)
      {
        var i := Lookup(PropertyList(k), key);
        if i < |PropertyList(k)| {
          Interprets(env, n, v.fields[key], PropertyList(k)[i].schema, false, exact);
        }
      }
    }
  }

  /** On its fragment the interpreter accepts only what JSON Schema accepts. */
  lemma InterpreterIsSound(env: Env, n: nat, v: Json, s: Schema)
    requires n <= |env.table| && env.oneOfImplemented && Fragment(env, n, s, false, false)
    ensures Valid(env, n, v, s) ==> Accepts(env, n, v, s)
  {
    Interprets(env, n, v, s, false, false);
  }

  /** On the exact fragment it decides the schema. */
  lemma InterpreterIsExact(env: Env, n: nat, v: Json, s: Schema)
    requires n <= |env.table| && env.oneOfImplemented && Fragment(env, n, s, false, true)
    ensures Valid(env, n, v, s) <==> Accepts(env, n, v, s)
  {
    Interprets(env, n, v, s, false, true);
  }

  /** A lower bound above one cannot be in the fragment: one character outside the basic plane passes for two. */
  lemma LowerBoundIsUnsound(env: Env, k: Keywords)
    requires k == Keywords(None, None, None, Some(2), None, None, None, None, NoProperties, false, None, None,
                           NoBranches, NoBranches, NoBranches, None, None, None)
    ensures var v, s := JString("\U{1F600}"), Inline(One(StringType), k);
            Valid(env, |env.table|, v, s) && !Accepts(env, |env.table|, v, s)
  {
    var n, v := |env.table|, JString("\U{1F600}");
    assert Units(v.text) == 2 by {
      assert v.text[1..] == "";
    }
    assert AllPass(env, n, v, k.allOf) && AnyPasses(env, n, v, k.anyOf) && ConditionPasses(env, n, v, k);
    SingleTypeIsSharedCheck(env, n, v, One(StringType), k);
    assert PassesType(env, n, v, Some(StringType), k);
    assert !InstanceAccepts(env, n, v, k) && !KeywordsAccept(env, n, v, k);
  }

  /**
   What the interpreter does where the fragment ends: a structured constant matches nothing, an array without `items`
   must be empty, an integer must be a safe one, `properties` or `required` without a type demand an object, and a type
   name it does not know is not checked.
   */
  lemma OutsideTheFragment(env: Env, n: nat, v: Json, types: Types, k: Keywords)
    requires n <= |env.table|
    ensures k.constant.Some? && (k.constant.value.JArray? || k.constant.value.JObject?) ==>
              !Valid(env, n, v, Inline(types, k))
    ensures types == One(ArrayType) && k.items.None? && v != JArray([]) ==> !Valid(env, n, v, Inline(types, k))
    ensures types == One(IntegerType) && !(v.JNumber? && IsSafeInteger(v.number)) ==>
              !Valid(env, n, v, Inline(types, k))
    ensures types == Untyped && (k.properties.Properties? || k.required.Some?) && !v.JObject? ==>
              !Valid(env, n, v, Inline(types, k))
    ensures types.One? && types.name.OtherType? && k.properties.NoProperties? && k.required.None? ==>
              (Valid(env, n, v, Inline(types, k)) <==> PassesShared(env, n, v, k))
  {
    hide AllPass, AnyPasses, ConditionPasses, CountValid;
    if types == One(ArrayType) && k.items.None? && v.JArray? && v.items != [] {
      assert !ItemPasses(env, n, v.items[0], k);
    }
    if types.Many? {
      TypeListIsSharedCheck(env, n, v, types.names, k);
    } else {
      SingleTypeIsSharedCheck(env, n, v, types, k);
    }
  }

  // ----- the observer's copy

  /** No `oneOf` anywhere, references included. */
  predicate WithoutOneOf(env: Env, n: nat, s: Schema)
    requires n <= |env.table|
    decreases n, s, 0
  {
    match s
    case Ref(name) =>
      var i := Resolve(env.table, n, name);
      i < n && WithoutOneOf(env, i, env.table[i].schema)
    case Inline(_, k) => KeywordsWithoutOneOf(env, n, k)
  }

  predicate KeywordsWithoutOneOf(env: Env, n: nat, k: Keywords)
    requires n <= |env.table|
    decreases n, k, 0
  {
    && k.oneOf.NoBranches?
    && (k.allOf.Branches? ==> forall i | 0 <= i < |k.allOf.list| :: WithoutOneOf(env, n, k.allOf.list[i]))
    && (k.anyOf.Branches? ==> forall i | 0 <= i < |k.anyOf.list| :: WithoutOneOf(env, n, k.anyOf.list[i]))
    && (k.condition.Some? ==> WithoutOneOf(env, n, k.condition.value))
    && (k.consequent.Some? ==> WithoutOneOf(env, n, k.consequent.value))
    && (k.alternative.Some? ==> WithoutOneOf(env, n, k.alternative.value))
    && (k.items.Some? ==> WithoutOneOf(env, n, k.items.value))
    && (forall i | 0 <= i < |PropertyList(k)| :: WithoutOneOf(env, n, PropertyList(k)[i].schema))
  }

  /** The observer's copy of the interpreter leaves `oneOf` out and is otherwise the same. */
  function ObserverCopy(env: Env): Env {
    env.(oneOfImplemented := false)
  }

  lemma {:induction false} CopiesAgree(env: Env, n: nat, v: Json, s: Schema)
    requires n <= |env.table| && WithoutOneOf(env, n, s)
    ensures Valid(ObserverCopy(env), n, v, s) <==> Valid(env, n, v, s)
    decreases n, s, 2
  {
    hide PassesShared, PassesType, KeywordsWithoutOneOf;
    match s
    case Ref(name) =>
      var i := Resolve(env.table, n, name);
      CopiesAgree(env, i, v, env.table[i].schema);
    case Inline(types, k) =>
      var other := ObserverCopy(env);
      CopiesAgreeShared(env, n, v, k);
      if types.Many? {
        forall i | 0 <= i < |types.names|
          ensures PassesType(other, n, v, Some(types.names[i]), k) <==> PassesType(env, n, v, Some(types.names[i]), k)
        {
          CopiesAgreeOnType(env, n, v, Some(types.names[i]), k);
        }
        TypeListIsSharedCheck(env, n, v, types.names, k);
        TypeListIsSharedCheck(other, n, v, types.names, k);
      } else {
        CopiesAgreeOnType(env, n, v, if types.One? then Some(types.name) else None, k);
        SingleTypeIsSharedCheck(env, n, v, types, k);
        SingleTypeIsSharedCheck(other, n, v, types, k);
      }
  }

  lemma {:induction false} CopiesAgreeShared(env: Env, n: nat, v: Json, k: Keywords)
    requires n <= |env.table| && KeywordsWithoutOneOf(env, n, k)
    ensures PassesShared(ObserverCopy(env), n, v, k) <==> PassesShared(env, n, v, k)
    decreases n, k, 1
  {
    hide Valid, WithoutOneOf;
    var other := ObserverCopy(env);
    if k.allOf.Branches? {
      forall i | 0 <= i < |k.allOf.list| ensures Valid(other, n, v, k.allOf.list[i]) <==>
          Valid(env, n, v, k.allOf.list[i]) {
        CopiesAgree(env, n, v, k.allOf.list[i]);
      }
    }
    if k.anyOf.Branches? {
      forall i | 0 <= i < |k.anyOf.list| ensures Valid(other, n, v, k.anyOf.list[i]) <==>
          Valid(env, n, v, k.anyOf.list[i]) {
        CopiesAgree(env, n, v, k.anyOf.list[i]);
      }
    }
    if k.condition.Some? {
      CopiesAgree(env, n, v, k.condition.value);
      if k.consequent.Some? {
        CopiesAgree(env, n, v, k.consequent.value);
      }
      if k.alternative.Some? {
        CopiesAgree(env, n, v, k.alternative.value);
      }
    }
  }

  lemma {:induction false} CopiesAgreeOnType(env: Env, n: nat, v: Json, t: Option<TypeName>, k: Keywords)
    requires n <= |env.table| && KeywordsWithoutOneOf(env, n, k)
    ensures PassesType(ObserverCopy(env), n, v, t, k) <==> PassesType(env, n, v, t, k)
    decreases n, k, 1
  {
    hide Valid, WithoutOneOf;
    var other := ObserverCopy(env);
    if v.JArray? && k.items.Some? {
      forall i | 0 <= i < |v.items| ensures ItemPasses(other, n, v.items[i], k) <==> ItemPasses(env, n, v.items[i], k) {
        CopiesAgree(env, n, v.items[i], k.items.value);
      }
    }
    if v.JObject? {
      forall key | key in v.fields
        ensures FieldPasses(other, n, v.fields[key], key, k) <==> FieldPasses(env, n, v.fields[key], key, k)
      {
        var i := Lookup(PropertyList(k), key);
        if i < |PropertyList(k)| {
          CopiesAgree(env, n, v.fields[key], PropertyList(k)[i].schema);
        }
      }
    }
  }
}
