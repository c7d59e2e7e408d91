/**
 The owner schemas themselves, in an order in which every reference points backwards, and the proof
 that the interpreter decides each of them exactly, but for one bound on a length.
 */
module SchemaTable {
  import opened Options
  import opened Json
  import opened Schema
  import opened SchemaSoundness

  const BARE := Keywords(None, None, None, None, None, None, None, None, NoProperties, false, None, None,
                         NoBranches, NoBranches, NoBranches, None, None, None)

  // ----- the shapes the table is built from

  function Text(pattern: string): Schema {
    Inline(One(StringType), BARE.(pattern := Some(pattern)))
  }

  function Nullable(pattern: Option<string>, maxLength: Option<nat>): Schema {
    Inline(Many([StringType, NullType]), BARE.(pattern := pattern, maxLength := maxLength))
  }

  function Exactly(text: string): Schema {
    Inline(Untyped, BARE.(constant := Some(JString(text))))
  }

  function ExactText(text: string): Schema {
    Inline(One(StringType), BARE.(constant := Some(JString(text))))
  }

  function Words(texts: seq<string>): seq<Json> {
    seq(|texts|, i requires 0 <= i < |texts| => JString(texts[i]))
  }

  function OneOfWords(texts: seq<string>): Schema {
    Inline(Untyped, BARE.(choices := Some(Words(texts))))
  }

  function TextOneOf(texts: seq<string>): Schema {
    Inline(One(StringType), BARE.(choices := Some(Words(texts))))
  }

  function Whole(least: int, most: int): Schema {
    Inline(One(IntegerType), BARE.(minimum := Some(least), maximum := Some(most)))
  }

  const NOTHING := Inline(One(NullType), BARE)

  function ListOf(item: Schema, most: nat): Schema {
    Inline(One(ArrayType), BARE.(items := Some(item), maxItems := Some(most)))
  }

  /** An object with exactly these properties allowed and these required. */
  function Closed(required: seq<string>, list: seq<Property>): Schema {
    Inline(One(ObjectType), BARE.(required := Some(required), properties := Properties(list), closed := true))
  }

  function AnyOf(list: seq<Schema>): Schema {
    Inline(Untyped, BARE.(anyOf := Branches(list)))
  }

  function OneOf(list: seq<Schema>): Schema {
    Inline(Untyped, BARE.(oneOf := Branches(list)))
  }

  /** A bare `properties`, as the conditionals use it. */
  function Having(name: string, schema: Schema): Schema {
    Inline(Untyped, BARE.(properties := Properties([Property(name, schema)])))
  }

  // ----- they stay in the fragment

  /** No subschema anywhere. */
  predicate Childless(k: Keywords) {
    && k.allOf.NoBranches? && k.anyOf.NoBranches? && k.oneOf.NoBranches? && k.properties.NoProperties?
    && k.items.None? && k.condition.None? && k.consequent.None? && k.alternative.None?
  }

  lemma LeafIsExact(env: Env, n: nat, types: Types, k: Keywords, o: bool)
    requires n <= |env.table| && Childless(k) && ScalarConstants(k)
    requires TypesFragment(types, k, o || types == One(ObjectType), true)
    ensures Fragment(env, n, Inline(types, k), o, true)
  {
    var known := o || types == One(ObjectType);
    assert BranchesFragment(env, n, NoBranches, known, true);
    assert KeywordsFragment(env, n, k, known, true);
  }

  lemma LeavesAreExact(env: Env, n: nat)
    requires n <= |env.table|
    ensures forall p, o :: Fragment(env, n, Text(p), o, true)
    ensures forall p, o :: Fragment(env, n, Nullable(p, None), o, true)
    ensures forall t, o :: Fragment(env, n, Exactly(t), o, true)
    ensures forall t, o :: Fragment(env, n, ExactText(t), o, true)
    ensures forall ts, o :: Fragment(env, n, OneOfWords(ts), o, true)
    ensures forall ts, o :: Fragment(env, n, TextOneOf(ts), o, true)
    ensures forall a, b, o | 0 <= a && b <= MAX_SAFE_INTEGER :: Fragment(env, n, Whole(a, b), o, true)
    ensures forall o :: Fragment(env, n, NOTHING, o, true)
  {
    hide Fragment;
    forall p, o ensures Fragment(env, n, Text(p), o, true) {
      LeafIsExact(env, n, Text(p).types, Text(p).keywords, o);
    }
    forall p, o ensures Fragment(env, n, Nullable(p, None), o, true) {
      LeafIsExact(env, n, Nullable(p, None).types, Nullable(p, None).keywords, o);
    }
    forall t, o ensures Fragment(env, n, Exactly(t), o, true) {
      LeafIsExact(env, n, Exactly(t).types, Exactly(t).keywords, o);
    }
    forall t, o ensures Fragment(env, n, ExactText(t), o, true) {
      LeafIsExact(env, n, ExactText(t).types, ExactText(t).keywords, o);
    }
    forall ts, o ensures Fragment(env, n, OneOfWords(ts), o, true) {
      LeafIsExact(env, n, OneOfWords(ts).types, OneOfWords(ts).keywords, o);
    }
    forall ts, o ensures Fragment(env, n, TextOneOf(ts), o, true) {
      LeafIsExact(env, n, TextOneOf(ts).types, TextOneOf(ts).keywords, o);
    }
    forall a, b, o | 0 <= a && b <= MAX_SAFE_INTEGER ensures Fragment(env, n, Whole(a, b), o, true) {
      LeafIsExact(env, n, Whole(a, b).types, Whole(a, b).keywords, o);
    }
    forall o ensures Fragment(env, n, NOTHING, o, true) {
      LeafIsExact(env, n, NOTHING.types, NOTHING.keywords, o);
    }
  }

  /** Every property of the list is decided exactly. */
  predicate ExactList(env: Env, n: nat, list: seq<Property>)
    requires n <= |env.table|
  {
    forall i | 0 <= i < |list| :: Fragment(env, n, list[i].schema, false, true)
  }

  lemma ClosedIsExact(env: Env, n: nat, required: seq<string>, list: seq<Property>)
    requires n <= |env.table| && ExactList(env, n, list)
    ensures Fragment(env, n, Closed(required, list), false, true)
  {
    var k := Closed(required, list).keywords;
    assert PropertyList(k) == list;
    assert BranchesFragment(env, n, NoBranches, true, true);
    assert KeywordsFragment(env, n, k, true, true);
  }

  lemma ListIsExact(env: Env, n: nat, item: Schema, most: nat)
    requires n <= |env.table| && Fragment(env, n, item, false, true)
    ensures Fragment(env, n, ListOf(item, most), false, true)
  {
  }

  lemma AnyOfIsExact(env: Env, n: nat, list: seq<Schema>)
    requires n <= |env.table| && forall i | 0 <= i < |list| :: Fragment(env, n, list[i], false, true)
    ensures Fragment(env, n, AnyOf(list), false, true) && Fragment(env, n, OneOf(list), false, true)
  {
  }

  // ----- the table

  const UUID := "^[0-9a-f]{8}-[0-9a-f]{4}-[0-9a-f]{4}-[0-9a-f]{4}-[0-9a-f]{12}$"
  const UUID4 := "^[0-9a-f]{8}-[0-9a-f]{4}-4[0-9a-f]{3}-[89ab][0-9a-f]{3}-[0-9a-f]{12}$"
  const POSITIVE :=
    "[1-9][0-9]{0,18}|1[0-7][0-9]{18}|18[0-3][0-9]{17}|184[0-3][0-9]{16}|1844[0-5][0-9]{15}|" +
    "18446[0-6][0-9]{14}|184467[0-3][0-9]{13}|1844674[0-3][0-9]{12}|184467440[0-6][0-9]{10}|" +
    "1844674407[0-2][0-9]{9}|18446744073[0-6][0-9]{8}|1844674407370[0-8][0-9]{6}|" +
    "18446744073709[0-4][0-9]{5}|184467440737095[0-4][0-9]{4}|18446744073709550[0-9]{3}|" +
    "18446744073709551[0-5][0-9]{2}|1844674407370955160[0-9]{1}|1844674407370955161[0-4]|" +
    "18446744073709551615"
  const U64 := "^(?:0|" + POSITIVE + ")$"
  const POSITIVE_U64 := "^(?:" + POSITIVE + ")$"
  const START_IDENTITY := "^[1-9][0-9]{0,31}$"
  const REVISION := "^[1-9][0-9]{0,15}$"
  const LAST_INSTANT: int := 253402300799999

  const LIST_REQUEST := Closed(["version"], [
    Property("version", ExactText("2")),
    Property("after_principal_id", Nullable(Some(UUID), None)),
    Property("limit", Whole(1, 100))])

  const MEMBER := Closed(["principal_id", "membership_revision", "recipient_email"], [
    Property("principal_id", Text(UUID)),
    Property("membership_revision", Whole(1, MAX_SAFE_INTEGER)),
    Property("recipient_email", Nullable(None, Some(254)))])

  const MEMBERS := Closed(["version", "kind", "project_id", "authority_epoch", "items", "next_after_principal_id"], [
    Property("version", ExactText("2")),
    Property("kind", ExactText("project_observers")),
    Property("project_id", Text(UUID)),
    Property("authority_epoch", Whole(1, MAX_SAFE_INTEGER)),
    Property("items", ListOf(MEMBER, 100)),
    Property("next_after_principal_id", Nullable(Some(UUID), None))])

  const CREATE_REQUIRED := [
    "version", "operation_id", "subject_principal_id", "expected_membership_revision", "expires_at_ms"]

  const CREATE_REQUEST := Closed(CREATE_REQUIRED, [
    Property("version", ExactText("2")),
    Property("operation_id", Text(UUID4)),
    Property("subject_principal_id", Text(UUID)),
    Property("expected_membership_revision", Whole(1, MAX_SAFE_INTEGER)),
    Property("expires_at_ms", Whole(0, LAST_INSTANT))])

  const INSPECT_REQUEST := Closed(["version"], [Property("version", ExactText("2"))])

  const REVOKE_REQUEST := Closed(["version", "operation_id", "expected_revision"], [
    Property("version", ExactText("2")),
    Property("operation_id", Text(UUID4)),
    Property("expected_revision", Whole(1, MAX_SAFE_INTEGER))])

  const GRANT_PROPERTIES := [
    Property("version", ExactText("2")),
    Property("kind", ExactText("session_observe_grant")),
    Property("grant_id", Text(UUID4)),
    Property("revision", Whole(1, MAX_SAFE_INTEGER)),
    Property("owner_principal_id", Text(UUID)),
    Property("subject_principal_id", Text(UUID)),
    Property("agent_session_id", Text(UUID)),
    Property("session_incarnation", Text(UUID4)),
    Property("project_id", Text(UUID)),
    Property("authority_epoch", Whole(1, MAX_SAFE_INTEGER)),
    Property("membership_revision", Whole(1, MAX_SAFE_INTEGER)),
    Property("state", TextOneOf(["active", "revoking", "revoked", "expired"])),
    Property("expires_at", Whole(0, LAST_INSTANT)),
    Property("revocation_state", Inline(
      Many([StringType, NullType]),
      BARE.(choices := Some([JString("effective_pending"), JString("effective"), JNull]))))]

  /** Active grants have no revocation state, all others have one. */
  const REVOCATION_RULE := Inline(Untyped, BARE.(
    condition := Some(Having("state", Exactly("active"))),
    consequent := Some(Having("revocation_state", NOTHING)),
    alternative := Some(Having("revocation_state", TextOneOf(["effective_pending", "effective"])))))

  const GRANT := Inline(One(ObjectType), BARE.(
    required := Some(["version", "kind", "grant_id", "revision", "owner_principal_id", "subject_principal_id",
                      "agent_session_id", "session_incarnation", "project_id", "authority_epoch",
                      "membership_revision", "state", "expires_at", "revocation_state"]),
    properties := Properties(GRANT_PROPERTIES), closed := true, allOf := Branches([REVOCATION_RULE])))

  const PREPARE_REQUEST := Closed(["version", "operation_id", "action"], [
    Property("version", Exactly("2")),
    Property("operation_id", Text(UUID4)),
    Property("action", OneOfWords(["publish", "private"]))])

  const RESPONSE_REQUIRED := [
    "type", "version", "request_id", "action", "agent_session_id", "session_incarnation", "process_epoch",
    "runtime_lease_id", "logical_terminal_id", "process_start_identity", "expected_generation", "result"]

  /** The envelope every audience response shares, around its action and result. */
  function Response(action: Schema, result: Schema): Schema {
    Closed(RESPONSE_REQUIRED, [
      Property("type", Exactly("session_audience_response_v2")),
      Property("version", Exactly("2")),
      Property("request_id", Text(UUID4)),
      Property("action", action),
      Property("agent_session_id", Text(UUID)),
      Property("session_incarnation", Text(UUID4)),
      Property("process_epoch", Text(UUID4)),
      Property("runtime_lease_id", Text(UUID4)),
      Property("logical_terminal_id", Text(UUID)),
      Property("process_start_identity", Text(START_IDENTITY)),
      Property("expected_generation", Text(U64)),
      Property("result", result)])
  }

  const MADE_PUBLIC := Closed(["status", "state", "stream_id", "generation", "first_sequence"], [
    Property("status", Exactly("observed")),
    Property("state", Exactly("public")),
    Property("stream_id", Text(UUID4)),
    Property("generation", Text(U64)),
    Property("first_sequence", Exactly("1"))])

  const IS_PUBLIC := Closed(["status", "state", "stream_id", "generation"], [
    Property("status", Exactly("observed")),
    Property("state", Exactly("public")),
    Property("stream_id", Text(UUID4)),
    Property("generation", Text(POSITIVE_U64))])

  const IS_PRIVATE := Closed(["status", "state", "generation"], [
    Property("status", Exactly("observed")),
    Property("state", Exactly("private")),
    Property("generation", Text(U64))])

  const UNAVAILABLE := Closed(["status", "reason"], [
    Property("status", Exactly("unavailable")),
    Property("reason", OneOfWords([
      "session_unavailable", "audience_stale", "deadline_expired", "runtime_unavailable"]))])

  const OBSERVED_RESPONSE := Response(OneOfWords(["publish", "private"]), AnyOf([MADE_PUBLIC, IS_PRIVATE]))

  const PREPARE_RECEIPT := Closed(["state", "response"], [
    Property("state", Exactly("observed")),
    Property("response", Ref("ObservedSessionAudienceResponseV2"))])

  const READ_REQUEST := Closed(["version", "operation_id"], [
    Property("version", Exactly("2")),
    Property("operation_id", Text(UUID4)),
    Property("reconcile_operation_id", Text(UUID4))])

  const OBSERVED_STATE := Response(Exactly("observe"), AnyOf([IS_PUBLIC, IS_PRIVATE]))

  const REFUSED_RESPONSE := Response(OneOfWords(["publish", "private", "observe"]), UNAVAILABLE)

  const UNKNOWN_OPERATION := Closed(["version", "kind", "operation_id", "status"], [
    Property("version", Exactly("2")),
    Property("kind", Exactly("session_audience_operation")),
    Property("operation_id", Text(UUID4)),
    Property("status", Exactly("unknown"))])

  const OPERATION_REQUIRED := ["version", "kind", "operation_id", "status", "agent_session_id", "action",
                               "request_revision", "issued_at_ms", "deadline_ms", "response"]

  function KnownOperation(status: Schema, response: Schema): Schema {
    Closed(OPERATION_REQUIRED, [
      Property("version", Exactly("2")),
      Property("kind", Exactly("session_audience_operation")),
      Property("operation_id", Text(UUID4)),
      Property("status", status),
      Property("agent_session_id", Text(UUID)),
      Property("action", OneOfWords(["publish", "private", "observe"])),
      Property("request_revision", Text(REVISION)),
      Property("issued_at_ms", Whole(0, MAX_SAFE_INTEGER)),
      Property("deadline_ms", Whole(0, MAX_SAFE_INTEGER)),
      Property("response", response)])
  }

  const RECORDED_RESPONSE := OneOf([
    Ref("ObservedSessionAudienceResponseV2"), Ref("ObservedSessionAudienceStateV2"),
    Ref("RefusedSessionAudienceResponseV2")])

  const OPERATION := OneOf([
    UNKNOWN_OPERATION,
    KnownOperation(Exactly("recorded"), RECORDED_RESPONSE),
    KnownOperation(OneOfWords(["pending", "expired_unrecorded"]), NOTHING)])

  const STATE_RECEIPT := Closed(["state", "current"], [
    Property("state", Exactly("reconciled")),
    Property("current", Ref("ObservedSessionAudienceStateV2")),
    Property("operation", Ref("SessionAudienceOperationV2"))])

  const OWNER_TABLE: seq<Definition> := [
    Definition("ListProjectObserversV2Request", LIST_REQUEST),
    Definition("ProjectObserversV2Receipt", MEMBERS),
    Definition("CreateSessionObserveGrantV2Request", CREATE_REQUEST),
    Definition("InspectSessionObserveGrantV2Request", INSPECT_REQUEST),
    Definition("RevokeSessionObserveGrantV2Request", REVOKE_REQUEST),
    Definition("SessionObserveGrantV2Receipt", GRANT),
    Definition("PrepareSessionAudienceV2Request", PREPARE_REQUEST),
    Definition("ObservedSessionAudienceResponseV2", OBSERVED_RESPONSE),
    Definition("PrepareSessionAudienceV2Receipt", PREPARE_RECEIPT),
    Definition("ReadSessionAudienceStateV2Request", READ_REQUEST),
    Definition("ObservedSessionAudienceStateV2", OBSERVED_STATE),
    Definition("RefusedSessionAudienceResponseV2", REFUSED_RESPONSE),
    Definition("SessionAudienceOperationV2", OPERATION),
    Definition("SessionAudienceStateV2Receipt", STATE_RECEIPT)]

  /** The one definition with a length bound. */
  const MEMBER_PAGE := 1

  // ----- every other definition is decided exactly

  lemma MembersAreExact(env: Env, n: nat)
    requires n <= |env.table|
    ensures Fragment(env, n, LIST_REQUEST, false, true)
    ensures Fragment(env, n, CREATE_REQUEST, false, true) && Fragment(env, n, INSPECT_REQUEST, false, true)
    ensures Fragment(env, n, REVOKE_REQUEST, false, true)
  {
    hide Fragment;
    LeavesAreExact(env, n);
    ClosedIsExact(env, n, LIST_REQUEST.keywords.required.value, LIST_REQUEST.keywords.properties.list);
    ClosedIsExact(env, n, CREATE_REQUEST.keywords.required.value, CREATE_REQUEST.keywords.properties.list);
    ClosedIsExact(env, n, INSPECT_REQUEST.keywords.required.value, INSPECT_REQUEST.keywords.properties.list);
    ClosedIsExact(env, n, REVOKE_REQUEST.keywords.required.value, REVOKE_REQUEST.keywords.properties.list);
  }

  lemma GrantPropertiesAreExact(env: Env, n: nat)
    requires n <= |env.table|
    ensures ExactList(env, n, GRANT_PROPERTIES)
  {
    hide Fragment;
    LeavesAreExact(env, n);
    var last := GRANT_PROPERTIES[13].schema;
    LeafIsExact(env, n, last.types, last.keywords, false);
  }

  lemma RevocationRuleIsExact(env: Env, n: nat)
    requires n <= |env.table|
    ensures Fragment(env, n, REVOCATION_RULE, true, true)
  {
    hide Fragment;
    LeavesAreExact(env, n);
    HavingIsExact(env, n, "state", Exactly("active"));
    HavingIsExact(env, n, "revocation_state", NOTHING);
    HavingIsExact(env, n, "revocation_state", TextOneOf(["effective_pending", "effective"]));
    RuleIsExact(env, n, REVOCATION_RULE.keywords);
  }

  lemma GrantIsExact(env: Env, n: nat)
    requires n <= |env.table|
    ensures Fragment(env, n, GRANT, false, true)
  {
    hide Fragment;
    GrantPropertiesAreExact(env, n);
    RevocationRuleIsExact(env, n);
    GuardedIsExact(env, n, GRANT.keywords);
  }

  /** A bare `properties` is exact once the value is known to be an object. */
  lemma HavingIsExact(env: Env, n: nat, name: string, schema: Schema)
    requires n <= |env.table| && Fragment(env, n, schema, false, true)
    ensures Fragment(env, n, Having(name, schema), true, true)
  {
    var k := Having(name, schema).keywords;
    assert PropertyList(k) == [Property(name, schema)];
    assert BranchesFragment(env, n, NoBranches, true, true);
    assert KeywordsFragment(env, n, k, true, true);
  }

  lemma RuleIsExact(env: Env, n: nat, k: Keywords)
    requires n <= |env.table| && k.condition.Some? && k.consequent.Some? && k.alternative.Some?
    requires k == BARE.(condition := k.condition, consequent := k.consequent, alternative := k.alternative)
    requires Fragment(env, n, k.condition.value, true, true)
    requires Fragment(env, n, k.consequent.value, true, true) && Fragment(env, n, k.alternative.value, true, true)
    ensures Fragment(env, n, Inline(Untyped, k), true, true)
  {
    assert BranchesFragment(env, n, NoBranches, true, true);
    assert KeywordsFragment(env, n, k, true, true);
  }

  /** A closed object with further conditions on it. */
  lemma GuardedIsExact(env: Env, n: nat, k: Keywords)
    requires n <= |env.table| && k.allOf.Branches? && k.properties.Properties?
    requires k == BARE.(required := k.required, properties := k.properties, closed := true, allOf := k.allOf)
    requires ExactList(env, n, k.properties.list) && forall i | 0 <= i < |k.allOf.list| ::
              Fragment(env, n, k.allOf.list[i], true, true)
    ensures Fragment(env, n, Inline(One(ObjectType), k), false, true)
  {
    assert BranchesFragment(env, n, NoBranches, true, true);
    assert BranchesFragment(env, n, k.allOf, true, true);
    assert KeywordsFragment(env, n, k, true, true);
  }

  lemma ResponseIsExact(env: Env, n: nat, action: Schema, result: Schema)
    requires n <= |env.table| && Fragment(env, n, action, false, true) && Fragment(env, n, result, false, true)
    ensures Fragment(env, n, Response(action, result), false, true)
  {
    hide Fragment;
    LeavesAreExact(env, n);
    ClosedIsExact(env, n, RESPONSE_REQUIRED, Response(action, result).keywords.properties.list);
  }

  lemma PublicResultsAreExact(env: Env, n: nat)
    requires n <= |env.table|
    ensures Fragment(env, n, MADE_PUBLIC, false, true) && Fragment(env, n, IS_PUBLIC, false, true)
  {
    hide Fragment;
    LeavesAreExact(env, n);
    ClosedIsExact(env, n, MADE_PUBLIC.keywords.required.value, MADE_PUBLIC.keywords.properties.list);
    ClosedIsExact(env, n, IS_PUBLIC.keywords.required.value, IS_PUBLIC.keywords.properties.list);
  }

  lemma PrivateResultIsExact(env: Env, n: nat)
    requires n <= |env.table|
    ensures Fragment(env, n, IS_PRIVATE, false, true)
  {
    hide Fragment;
    LeavesAreExact(env, n);
    ClosedIsExact(env, n, IS_PRIVATE.keywords.required.value, IS_PRIVATE.keywords.properties.list);
  }

  lemma UnavailableResultIsExact(env: Env, n: nat)
    requires n <= |env.table|
    ensures Fragment(env, n, UNAVAILABLE, false, true)
  {
    hide Fragment;
    LeavesAreExact(env, n);
    ClosedIsExact(env, n, UNAVAILABLE.keywords.required.value, UNAVAILABLE.keywords.properties.list);
  }

  lemma ResponsesAreExact(env: Env, n: nat)
    requires n <= |env.table|
    ensures Fragment(env, n, OBSERVED_RESPONSE, false, true) && Fragment(env, n, OBSERVED_STATE, false, true)
    ensures Fragment(env, n, REFUSED_RESPONSE, false, true)
  {
    hide Fragment;
    LeavesAreExact(env, n);
    PublicResultsAreExact(env, n);
    PrivateResultIsExact(env, n);
    UnavailableResultIsExact(env, n);
    AnyOfIsExact(env, n, [MADE_PUBLIC, IS_PRIVATE]);
    AnyOfIsExact(env, n, [IS_PUBLIC, IS_PRIVATE]);
    ResponseIsExact(env, n, OneOfWords(["publish", "private"]), AnyOf([MADE_PUBLIC, IS_PRIVATE]));
    ResponseIsExact(env, n, Exactly("observe"), AnyOf([IS_PUBLIC, IS_PRIVATE]));
    ResponseIsExact(env, n, OneOfWords(["publish", "private", "observe"]), UNAVAILABLE);
  }

  lemma RequestsAreExact(env: Env, n: nat)
    requires n <= |env.table|
    ensures Fragment(env, n, PREPARE_REQUEST, false, true) && Fragment(env, n, READ_REQUEST, false, true)
  {
    hide Fragment;
    LeavesAreExact(env, n);
    ClosedIsExact(env, n, PREPARE_REQUEST.keywords.required.value, PREPARE_REQUEST.keywords.properties.list);
    ClosedIsExact(env, n, READ_REQUEST.keywords.required.value, READ_REQUEST.keywords.properties.list);
  }

  /** A reference is exact when the definition it finds is. */
  lemma RefIsExact(env: Env, n: nat, name: string, i: nat)
    requires n <= |env.table| && i < n && Resolve(env.table, n, name) == i
    requires Fragment(env, i, env.table[i].schema, false, true)
    ensures Fragment(env, n, Ref(name), false, true)
  {
  }

  /** The first definition of a name is the one found. */
  lemma {:induction false} ResolvesTo(table: seq<Definition>, n: nat, i: nat)
    requires i < n <= |table| && forall j | 0 <= j < i :: table[j].name != table[i].name
    ensures Resolve(table, n, table[i].name) == i
    decreases n
  {
    if i < n - 1 {
      ResolvesTo(table, n - 1, i);
    } else {
      var j := Resolve(table, n - 1, table[i].name);
    }
  }

  lemma PrepareReceiptIsExact(env: Env)
    requires env.table == OWNER_TABLE
    ensures Fragment(env, 8, PREPARE_RECEIPT, false, true)
  {
    hide Fragment, Resolve;
    LeavesAreExact(env, 8);
    ResponsesAreExact(env, 7);
    DistinctNames(7);
    ResolvesTo(OWNER_TABLE, 8, 7);
    RefIsExact(env, 8, "ObservedSessionAudienceResponseV2", 7);
    ClosedIsExact(env, 8, PREPARE_RECEIPT.keywords.required.value, PREPARE_RECEIPT.keywords.properties.list);
  }

  /** The names of the table are told apart by their lengths and a few letters. */
  lemma DistinctNames(i: nat)
    requires i in {7, 10, 11, 12}
    ensures forall j | 0 <= j < i :: OWNER_TABLE[j].name != OWNER_TABLE[i].name
  {
    assert |OWNER_TABLE[5].name| == 28 && |OWNER_TABLE[6].name| == 31 && |OWNER_TABLE[8].name| == 31;
  }

  lemma RecordedResponseIsExact(env: Env)
    requires env.table == OWNER_TABLE
    ensures Fragment(env, 12, RECORDED_RESPONSE, false, true)
  {
    hide Fragment, Resolve;
    ResponsesAreExact(env, 7);
    ResponsesAreExact(env, 10);
    ResponsesAreExact(env, 11);
    DistinctNames(7);
    DistinctNames(10);
    DistinctNames(11);
    ResolvesTo(OWNER_TABLE, 12, 7);
    ResolvesTo(OWNER_TABLE, 12, 10);
    ResolvesTo(OWNER_TABLE, 12, 11);
    RefIsExact(env, 12, "ObservedSessionAudienceResponseV2", 7);
    RefIsExact(env, 12, "ObservedSessionAudienceStateV2", 10);
    RefIsExact(env, 12, "RefusedSessionAudienceResponseV2", 11);
    AnyOfIsExact(env, 12, RECORDED_RESPONSE.keywords.oneOf.list);
  }

  lemma KnownOperationIsExact(env: Env, n: nat, status: Schema, response: Schema)
    requires n <= |env.table| && Fragment(env, n, status, false, true) && Fragment(env, n, response, false, true)
    ensures Fragment(env, n, KnownOperation(status, response), false, true)
  {
    hide Fragment;
    LeavesAreExact(env, n);
    ClosedIsExact(env, n, OPERATION_REQUIRED, KnownOperation(status, response).keywords.properties.list);
  }

  lemma OperationIsExact(env: Env)
    requires env.table == OWNER_TABLE
    ensures Fragment(env, 12, OPERATION, false, true)
  {
    hide Fragment;
    LeavesAreExact(env, 12);
    RecordedResponseIsExact(env);
    ClosedIsExact(env, 12, UNKNOWN_OPERATION.keywords.required.value, UNKNOWN_OPERATION.keywords.properties.list);
    KnownOperationIsExact(env, 12, Exactly("recorded"), RECORDED_RESPONSE);
    KnownOperationIsExact(env, 12, OneOfWords(["pending", "expired_unrecorded"]), NOTHING);
    AnyOfIsExact(env, 12, OPERATION.keywords.oneOf.list);
  }

  lemma StateReceiptIsExact(env: Env)
    requires env.table == OWNER_TABLE
    ensures Fragment(env, 13, STATE_RECEIPT, false, true)
  {
    hide Fragment, Resolve;
    LeavesAreExact(env, 13);
    ResponsesAreExact(env, 10);
    OperationIsExact(env);
    DistinctNames(10);
    DistinctNames(12);
    ResolvesTo(OWNER_TABLE, 13, 10);
    ResolvesTo(OWNER_TABLE, 13, 12);
    RefIsExact(env, 13, "ObservedSessionAudienceStateV2", 10);
    RefIsExact(env, 13, "SessionAudienceOperationV2", 12);
    ClosedIsExact(env, 13, STATE_RECEIPT.keywords.required.value, STATE_RECEIPT.keywords.properties.list);
  }

  lemma DefinitionsAreExact(env: Env, i: nat)
    requires env.table == OWNER_TABLE && i < |OWNER_TABLE| && i != MEMBER_PAGE
    ensures Fragment(env, i, OWNER_TABLE[i].schema, false, true)
  {
    hide Fragment;
    if i <= 4 {
      MembersAreExact(env, i);
    } else if i == 5 {
      GrantIsExact(env, i);
    } else if i == 6 || i == 9 {
      RequestsAreExact(env, i);
    } else if i == 7 || i == 10 || i == 11 {
      ResponsesAreExact(env, i);
    } else if i == 8 {
      PrepareReceiptIsExact(env);
    } else if i == 12 {
      OperationIsExact(env);
    } else {
      StateReceiptIsExact(env);
    }
  }

  // ----- the member page, whose addresses have a length bound

  /** The member's address, if it is a text, has at most 254 code units. */
  predicate EmailFits(m: Json) {
    m.JObject? && "recipient_email" in m.fields && m.fields["recipient_email"].JString? ==>
        Units(m.fields["recipient_email"].text) <= 254
  }

  predicate EmailsFit(page: Json) {
    page.JObject? && "items" in page.fields && page.fields["items"].JArray? ==>
      forall i | 0 <= i < |page.fields["items"].items| :: EmailFits(page.fields["items"].items[i])
  }

  /** Without applicators and constants the shared checks pass. */
  lemma NothingShared(env: Env, n: nat, v: Json, k: Keywords)
    requires n <= |env.table| && k.allOf.NoBranches? && k.anyOf.NoBranches? && k.oneOf.NoBranches? && k.condition.None?
    requires k.constant.None? && k.choices.None?
    ensures PassesShared(env, n, v, k) && ApplicatorsAccept(env, n, v, k)
  {
    assert AllPass(env, n, v, k.allOf) && AnyPasses(env, n, v, k.anyOf) && ConditionPasses(env, n, v, k);
    assert AllAccept(env, n, v, k.allOf) && AnyAccepts(env, n, v, k.anyOf) && OneAccepts(env, n, v, k.oneOf);
    assert ConditionAccepts(env, n, v, k);
  }

  /** So such a schema is its type check, and its meaning its type and what it says of the instance. */
  lemma InlineMeans(env: Env, n: nat, v: Json, types: Types, k: Keywords)
    requires n <= |env.table| && k.allOf.NoBranches? && k.anyOf.NoBranches? && k.oneOf.NoBranches? && k.condition.None?
    requires k.constant.None? && k.choices.None?
    ensures types.One? ==> (Valid(env, n, v, Inline(types, k)) <==> PassesType(env, n, v, Some(types.name), k))
    ensures types.Many? ==>
              (Valid(env, n, v, Inline(types, k)) <==>
               exists i | 0 <= i < |types.names| :: PassesType(env, n, v, Some(types.names[i]), k))
    ensures Accepts(env, n, v, Inline(types, k)) <==> TypeAccepts(v, types) && InstanceAccepts(env, n, v, k)
  {
    NothingShared(env, n, v, k);
    hide PassesShared, PassesType, ApplicatorsAccept, InstanceAccepts;
    if types.Many? {
      TypeListIsSharedCheck(env, n, v, types.names, k);
    } else {
      SingleTypeIsSharedCheck(env, n, v, types, k);
    }
  }

  lemma ClosedPasses(env: Env, n: nat, v: Json, required: seq<string>, list: seq<Property>)
    requires n <= |env.table|
    ensures Valid(env, n, v, Closed(required, list)) <==>
            && v.JObject? && (forall i | 0 <= i < |required| :: required[i] in v.fields)
            && forall key | key in v.fields ::
                 Lookup(list, key) < |list| && Valid(env, n, v.fields[key], list[Lookup(list, key)].schema)
  {
    var k := Closed(required, list).keywords;
    assert PropertyList(k) == list;
    InlineMeans(env, n, v, One(ObjectType), k);
    hide Valid, Accepts, InstanceAccepts;
    if v.JObject? {
      assert forall key | key in v.fields ::
               FieldPasses(env, n, v.fields[key], key, k) <==>
               Lookup(list, key) < |list| && Valid(env, n, v.fields[key], list[Lookup(list, key)].schema);
    }
  }

  lemma ClosedAccepts(env: Env, n: nat, v: Json, required: seq<string>, list: seq<Property>)
    requires n <= |env.table|
    ensures Accepts(env, n, v, Closed(required, list)) <==>
            && v.JObject? && (forall i | 0 <= i < |required| :: required[i] in v.fields)
            && forall key | key in v.fields ::
                 Lookup(list, key) < |list| && Accepts(env, n, v.fields[key], list[Lookup(list, key)].schema)
  {
    var k := Closed(required, list).keywords;
    assert PropertyList(k) == list;
    InlineMeans(env, n, v, One(ObjectType), k);
    hide Valid, Accepts, PassesType;
    if v.JObject? {
      assert forall key | key in v.fields ::
               FieldAccepts(env, n, v.fields[key], key, k) <==>
               Lookup(list, key) < |list| && Accepts(env, n, v.fields[key], list[Lookup(list, key)].schema);
    }
  }

  lemma ListMeans(env: Env, n: nat, v: Json, item: Schema, most: nat)
    requires n <= |env.table|
    ensures Valid(env, n, v, ListOf(item, most)) <==>
            v.JArray? && |v.items| <= most && forall i | 0 <= i < |v.items| :: Valid(env, n, v.items[i], item)
    ensures Accepts(env, n, v, ListOf(item, most)) <==>
            v.JArray? && |v.items| <= most && forall i | 0 <= i < |v.items| :: Accepts(env, n, v.items[i], item)
  {
    var k := ListOf(item, most).keywords;
    InlineMeans(env, n, v, One(ArrayType), k);
    hide Valid, Accepts;
    if v.JArray? {
      assert forall i | 0 <= i < |v.items| :: ItemPasses(env, n, v.items[i], k) <==> Valid(env, n, v.items[i], item);
    }
  }

  lemma BoundedTextMeans(env: Env, n: nat, v: Json, most: nat)
    requires n <= |env.table|
    ensures Valid(env, n, v, Nullable(None, Some(most))) <==> v.JNull? || (v.JString? && Units(v.text) <= most)
    ensures Accepts(env, n, v, Nullable(None, Some(most))) <==> v.JNull? || (v.JString? && |v.text| <= most)
  {
    var k := Nullable(None, Some(most)).keywords;
    var names := [StringType, NullType];
    InlineMeans(env, n, v, Many(names), k);
    hide Valid, Accepts;
    assert names[0] == StringType && names[1] == NullType;
    assert PassesType(env, n, v, Some(names[0]), k) <==> v.JString? && Units(v.text) <= most;
    assert PassesType(env, n, v, Some(names[1]), k) <==> v.JNull?;
    assert HasType(v, names[0]) <==> v.JString?;
    assert HasType(v, names[1]) <==> v.JNull?;
  }

  /** The schema at which a key is looked up, by position. */
  lemma FoundAt(list: seq<Property>, i: nat)
    requires i < |list| && forall j | 0 <= j < i :: list[j].name != list[i].name
    ensures Lookup(list, list[i].name) == i
  {
    if i > 0 {
      FoundAt(list[1..], i - 1);
    }
  }

  lemma MemberLookups()
    ensures var list := MEMBER.keywords.properties.list;
            && Lookup(list, "principal_id") == 0 && Lookup(list, "membership_revision") == 1
            && Lookup(list, "recipient_email") == 2
  {
    var list := MEMBER.keywords.properties.list;
    assert "recipient_email"[0] == 'r' && "principal_id"[0] == 'p' && "membership_revision"[0] == 'm';
    FoundAt(list, 0);
    FoundAt(list, 1);
    FoundAt(list, 2);
  }

  lemma PageLookups()
    ensures var list := MEMBERS.keywords.properties.list;
            && Lookup(list, "version") == 0 && Lookup(list, "kind") == 1 && Lookup(list, "project_id") == 2
            && Lookup(list, "authority_epoch") == 3 && Lookup(list, "items") == 4
            && Lookup(list, "next_after_principal_id") == 5
  {
    var list := MEMBERS.keywords.properties.list;
    assert |"items"| == 5 && |"version"| == 7 && |"kind"| == 4 && |"project_id"| == 10 && |"authority_epoch"| == 15;
    FoundAt(list, 0);
    FoundAt(list, 1);
    FoundAt(list, 2);
    FoundAt(list, 3);
    FoundAt(list, 4);
    FoundAt(list, 5);
  }

  /** Every listed schema but the one at `odd` is decided exactly, and that one under its own condition. */
  lemma ClosedDiffersAt(env: Env, n: nat, v: Json, required: seq<string>, list: seq<Property>, odd: nat, fits: bool)
    requires n <= |env.table| && env.oneOfImplemented && odd < |list|
    requires forall i | 0 <= i < |list| && i != odd :: Fragment(env, n, list[i].schema, false, true)
    requires Lookup(list, list[odd].name) == odd
    requires v.JObject? && list[odd].name in v.fields ==>
               var x := v.fields[list[odd].name];
               Valid(env, n, x, list[odd].schema) <==> Accepts(env, n, x, list[odd].schema) && fits
    requires !(v.JObject? && list[odd].name in v.fields) ==> fits
    ensures Valid(env, n, v, Closed(required, list)) <==> Accepts(env, n, v, Closed(required, list)) && fits
  {
    hide Valid, Accepts, Fragment;
    ClosedPasses(env, n, v, required, list);
    ClosedAccepts(env, n, v, required, list);
    if v.JObject? {
      forall key | key in v.fields && Lookup(list, key) < |list| && Lookup(list, key) != odd
        ensures var s := list[Lookup(list, key)].schema; Valid(env, n, v.fields[key], s) <==>
                  Accepts(env, n, v.fields[key], s)
      {
        InterpreterIsExact(env, n, v.fields[key], list[Lookup(list, key)].schema);
      }
    }
  }

  lemma MemberIsDecided(env: Env, n: nat, m: Json)
    requires n <= |env.table| && env.oneOfImplemented
    ensures Valid(env, n, m, MEMBER) <==> Accepts(env, n, m, MEMBER) && EmailFits(m)
  {
    hide Valid, Accepts, Fragment;
    LeavesAreExact(env, n);
    var list := MEMBER.keywords.properties.list;
    MemberLookups();
    if m.JObject? && "recipient_email" in m.fields {
      var x := m.fields["recipient_email"];
      BoundedTextMeans(env, n, x, 254);
      if x.JString? {
        UnitsBound(x.text);
      }
    }
    ClosedDiffersAt(env, n, m, MEMBER.keywords.required.value, list, 2, EmailFits(m));
  }

  lemma MemberListIsDecided(env: Env, n: nat, v: Json)
    requires n <= |env.table| && env.oneOfImplemented
    ensures Valid(env, n, v, ListOf(MEMBER, 100)) <==>
            Accepts(env, n, v, ListOf(MEMBER, 100)) && (v.JArray? ==>
                                                        forall i | 0 <= i < |v.items| :: EmailFits(v.items[i]))
  {
    hide Valid, Accepts, EmailFits;
    ListMeans(env, n, v, MEMBER, 100);
    if v.JArray? {
      forall i | 0 <= i < |v.items|
        ensures Valid(env, n, v.items[i], MEMBER) <==> Accepts(env, n, v.items[i], MEMBER) && EmailFits(v.items[i])
      {
        MemberIsDecided(env, n, v.items[i]);
      }
    }
  }

  /** The member page: accepted exactly when JSON Schema accepts it and every address fits in 254 code units. */
  lemma MemberPageIsDecided(env: Env, n: nat, v: Json)
    requires n <= |env.table| && env.oneOfImplemented
    ensures Valid(env, n, v, MEMBERS) <==> Accepts(env, n, v, MEMBERS) && EmailsFit(v)
  {
    hide Valid, Accepts, Fragment, EmailFits;
    LeavesAreExact(env, n);
    var list := MEMBERS.keywords.properties.list;
    PageLookups();
    if v.JObject? && "items" in v.fields {
      MemberListIsDecided(env, n, v.fields["items"]);
    }
    ClosedDiffersAt(env, n, v, MEMBERS.keywords.required.value, list, 4, EmailsFit(v));
  }

  /**
   Under every schema of the owner table the interpreter accepts exactly what JSON Schema 2020-12 accepts, whatever the
   pattern engine answers; except that it refuses a member page with an address of more than 254 code units.
   */
  lemma OwnerTableIsDecided(matches: (string, string) -> bool, i: nat, v: Json)
    requires i < |OWNER_TABLE|
    ensures var env := Env(matches, OWNER_TABLE, true);
            Valid(env, i, v, OWNER_TABLE[i].schema) <==>
            Accepts(env, i, v, OWNER_TABLE[i].schema) && (i == MEMBER_PAGE ==> EmailsFit(v))
  {
    hide Fragment, Valid, Accepts, EmailsFit;
    var env := Env(matches, OWNER_TABLE, true);
    if i == MEMBER_PAGE {
      MemberPageIsDecided(env, i, v);
    } else {
      DefinitionsAreExact(env, i);
      InterpreterIsExact(env, i, v, OWNER_TABLE[i].schema);
    }
  }

  /** An address of 128 characters outside the basic plane: within JSON Schema's bound of 254, and 256 code units. */
  const ASTRAL_EMAIL := seq(128, _ => '\U{1F600}')

  const PROJECT_ID := "5f0c6a0e-3b1d-4c58-9e27-8a4b7d21c693"
  const MEMBER_ID := "a1d94e72-60bf-4f3a-8c15-2e7b90d348af"

  const ASTRAL_MEMBER := JObject(map[
    "principal_id" := JString(MEMBER_ID), "membership_revision" := JNumber(1.0),
    "recipient_email" := JString(ASTRAL_EMAIL)])

  const ASTRAL_PAGE: Json := JObject(map[
    "version" := JString("2"), "kind" := JString("project_observers"), "project_id" := JString(PROJECT_ID),
    "authority_epoch" := JNumber(1.0), "items" := JArray([ASTRAL_MEMBER]), "next_after_principal_id" := JNull])

  lemma {:induction false} AstralUnits(n: nat)
    ensures Units(seq(n, _ => '\U{1F600}')) == 2 * n
  {
    if n > 0 {
      var s := seq(n, _ => '\U{1F600}');
      assert s[1..] == seq(n - 1, _ => '\U{1F600}');
      AstralUnits(n - 1);
    }
  }

  /**
   The exception is real: with every pattern engine that recognises the two identifiers, JSON Schema accepts this page
   and the interpreter refuses it.
   */
  lemma AstralEmailIsRefused(matches: (string, string) -> bool)
    requires matches(UUID, PROJECT_ID) && matches(UUID, MEMBER_ID)
    ensures var env := Env(matches, OWNER_TABLE, true);
            Accepts(env, MEMBER_PAGE, ASTRAL_PAGE, MEMBERS) && !Valid(env, MEMBER_PAGE, ASTRAL_PAGE, MEMBERS)
  {
    hide Accepts, Valid, MEMBERS;
    var env := Env(matches, OWNER_TABLE, true);
    AstralUnits(128);
    assert !EmailFits(ASTRAL_PAGE.fields["items"].items[0]);
    MemberPageIsDecided(env, MEMBER_PAGE, ASTRAL_PAGE);
    AstralPageIsAccepted(env, MEMBER_PAGE);
  }

  lemma LeavesAccept(env: Env, n: nat)
    requires n <= |env.table|
    ensures forall p, t | env.matches(p, t) :: Accepts(env, n, JString(t), Text(p))
    ensures forall t :: Accepts(env, n, JString(t), ExactText(t))
    ensures forall most | 1 <= most :: Accepts(env, n, JNumber(1.0), Whole(1, most))
    ensures forall p :: Accepts(env, n, JNull, Nullable(p, None))
  {
    hide Accepts;
    forall p, t | env.matches(p, t) ensures Accepts(env, n, JString(t), Text(p)) {
      LeafAccepts(env, n, JString(t), Text(p));
    }
    forall t ensures Accepts(env, n, JString(t), ExactText(t)) {
      LeafAccepts(env, n, JString(t), ExactText(t));
    }
    forall most | 1 <= most ensures Accepts(env, n, JNumber(1.0), Whole(1, most)) {
      LeafAccepts(env, n, JNumber(1.0), Whole(1, most));
    }
    forall p ensures Accepts(env, n, JNull, Nullable(p, None)) {
      var names := Nullable(p, None).types.names;
      assert HasType(JNull, names[1]);
      LeafAccepts(env, n, JNull, Nullable(p, None));
    }
  }

  lemma LeafAccepts(env: Env, n: nat, v: Json, s: Schema)
    requires n <= |env.table| && s.Inline? && Childless(s.keywords) && Scalar(v) && TypeAccepts(v, s.types)
    requires ConstantsAccept(v, s.keywords)
    requires (v.JString? ==> TextAccepts(env, v.text, s.keywords)) && (v.JNumber? ==> NumberFits(v.number, s.keywords))
    ensures Accepts(env, n, v, s)
  {
    var k := s.keywords;
    assert AllAccept(env, n, v, k.allOf) && AnyAccepts(env, n, v, k.anyOf) && OneAccepts(env, n, v, k.oneOf);
    assert ConditionAccepts(env, n, v, k);
    assert InstanceAccepts(env, n, v, k);
  }

  lemma AstralMemberIsAccepted(env: Env, n: nat)
    requires n <= |env.table| && env.matches(UUID, MEMBER_ID)
    ensures Accepts(env, n, ASTRAL_MEMBER, MEMBER)
  {
    hide Accepts;
    var list := MEMBER.keywords.properties.list;
    LeavesAccept(env, n);
    BoundedTextMeans(env, n, JString(ASTRAL_EMAIL), 254);
    MemberLookups();
    ClosedAccepts(env, n, ASTRAL_MEMBER, MEMBER.keywords.required.value, list);
  }

  lemma AstralPageIsAccepted(env: Env, n: nat)
    requires n <= |env.table| && env.matches(UUID, PROJECT_ID) && env.matches(UUID, MEMBER_ID)
    ensures Accepts(env, n, ASTRAL_PAGE, MEMBERS)
  {
    hide Accepts, ASTRAL_MEMBER;
    var list := MEMBERS.keywords.properties.list;
    LeavesAccept(env, n);
    AstralMemberIsAccepted(env, n);
    ListMeans(env, n, JArray([ASTRAL_MEMBER]), MEMBER, 100);
    PageLookups();
    ClosedAccepts(env, n, ASTRAL_PAGE, MEMBERS.keywords.required.value, list);
  }
}
