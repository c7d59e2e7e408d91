/**
 The stored sign-in session: what `encodeStored` writes into the protected envelope and what
 `decodeStored` accepts back. Property names are constructors of `Key`; values are JSON values.
 */
module StoredSession {
  import opened Options
  import opened Json

  // ----- the session

  datatype Access = Access(token: string, expiresAt: string, observedAt: string)

  datatype Identity = UnknownIdentity | SignupRequired | VerificationRequired | ActiveIdentity | DisabledIdentity

  datatype Admission = NotRequested | Waitlisted | Admitted

  datatype Workspace = Workspace(isAssigned: bool, id: Option<string>)

  datatype Context = Context(termsVersion: string, identity: Identity, admission: Admission, workspace: Workspace,
                             waitlistPosition: Option<int>)

  datatype Intent =
    | Signup | Login | AccountRead | MachinesRead | MachinesCreate | AgentSessionsRead | AgentSessionsCreate

  datatype Session = Session(
    access: Option<Access>, baseUrl: string, profile: string, clientInstanceId: string, sessionId: string,
    loginCode: string, loginCodeExpiresAt: string, continuationId: string, state: string, codeVerifier: string,
    redirectUri: string, context: Context, intent: Intent)

  datatype Config = Config(baseUrl: string, profile: string)

  /** The string grammars the checks call on; the instant an ISO string denotes, and how an instant is written. */
  datatype Syntax = Syntax(
    isAccessToken: string -> bool, isLoginCode: string -> bool, isUuid: string -> bool, isProfile: string -> bool,
    isTermsVersion: string -> bool, isInstant: string -> bool, instant: string -> int, iso: int -> string)

  // ----- the wire

  datatype Key =
    | VersionKey | BaseUrlKey | ProfileKey | ClientInstanceIdKey | SessionIdKey | LoginCodeKey | LoginCodeExpiresAtKey
    | ContinuationIdKey | StateKey | CodeVerifierKey | RedirectUriKey | ContextKey | IntentClassKey
    | AccessTokenKey | AccessExpiresAtKey | AccessObservedAtKey
    | RequiredTermsVersionKey | IdentityKey | AdmissionKey | WorkspaceKey | WaitlistPositionKey | IdKey
    | OtherKey(name: string)

  type Wire = Value<Key>

  const SESSION_KEYS: set<Key> := {
    VersionKey, BaseUrlKey, ProfileKey, ClientInstanceIdKey, SessionIdKey, LoginCodeKey, LoginCodeExpiresAtKey,
    ContinuationIdKey, StateKey, CodeVerifierKey, RedirectUriKey, ContextKey, IntentClassKey
  }

  const ACCESS_KEYS: set<Key> := {AccessTokenKey, AccessExpiresAtKey, AccessObservedAtKey}

  function IdentityText(i: Identity): string {
    match i
    case UnknownIdentity => "unknown"
    case SignupRequired => "signup_required"
    case VerificationRequired => "verification_required"
    case ActiveIdentity => "active"
    case DisabledIdentity => "disabled"
  }

  function IdentityOf(w: Wire): Option<Identity> {
    if w == JString("unknown") then Some(UnknownIdentity)
    else if w == JString("signup_required") then Some(SignupRequired)
    else if w == JString("verification_required") then Some(VerificationRequired)
    else if w == JString("active") then Some(ActiveIdentity)
    else if w == JString("disabled") then Some(DisabledIdentity)
    else None
  }

  lemma IdentityRoundTrip(i: Identity, w: Wire)
    ensures IdentityOf(JString(IdentityText(i))) == Some(i)
    ensures IdentityOf(w) == Some(i) ==> w == JString(IdentityText(i))
  {
  }

  function AdmissionText(a: Admission): string {
    match a
    case NotRequested => "not_requested"
    case Waitlisted => "waitlisted"
    case Admitted => "admitted"
  }

  function AdmissionOf(w: Wire): Option<Admission> {
    if w == JString("not_requested") then Some(NotRequested)
    else if w == JString("waitlisted") then Some(Waitlisted)
    else if w == JString("admitted") then Some(Admitted)
    else None
  }

  lemma AdmissionRoundTrip(a: Admission, w: Wire)
    ensures AdmissionOf(JString(AdmissionText(a))) == Some(a)
    ensures AdmissionOf(w) == Some(a) ==> w == JString(AdmissionText(a))
  {
  }

  function IntentText(i: Intent): string {
    match i
    case Signup => "signup"
    case Login => "login"
    case AccountRead => "account.read"
    case MachinesRead => "machines.read"
    case MachinesCreate => "machines.create"
    case AgentSessionsRead => "agent_sessions.read"
    case AgentSessionsCreate => "agent_sessions.create"
  }

  function IntentOf(w: Wire): Option<Intent> {
    if w == JString("signup") then Some(Signup)
    else if w == JString("login") then Some(Login)
    else if w == JString("account.read") then Some(AccountRead)
    else if w == JString("machines.read") then Some(MachinesRead)
    else if w == JString("machines.create") then Some(MachinesCreate)
    else if w == JString("agent_sessions.read") then Some(AgentSessionsRead)
    else if w == JString("agent_sessions.create") then Some(AgentSessionsCreate)
    else None
  }

  lemma IntentRoundTrip(i: Intent, w: Wire)
    ensures IntentOf(JString(IntentText(i))) == Some(i)
    ensures IntentOf(w) == Some(i) ==> w == JString(IntentText(i))
  {
    assert |IntentText(AccountRead)| == 12 && |IntentText(MachinesRead)| == 13 && |IntentText(MachinesCreate)| == 15;
    assert |IntentText(AgentSessionsRead)| == 19 && |IntentText(AgentSessionsCreate)| == 21;
  }

  // ----- the identity context

  function EncodeWorkspace(w: Workspace): Wire {
    var state := map[StateKey := JString(if w.isAssigned then "assigned" else "unavailable")];
    JObject(if w.id.Some? then state[IdKey := JString(w.id.value)] else state)
  }

  function DecodeWorkspace(x: Syntax, w: Wire): Option<Workspace> {
    if !w.JObject? || StateKey !in w.fields || !(w.fields.Keys <= {StateKey, IdKey}) then None
    else if w.fields[StateKey] != JString("assigned") && w.fields[StateKey] != JString("unavailable") then None
    else if IdKey in w.fields && !(w.fields[IdKey].JString? && x.isUuid(w.fields[IdKey].text)) then None
    else if (w.fields[StateKey] == JString("assigned")) != (IdKey in w.fields) then None
    else Some(Workspace(w.fields[StateKey] == JString("assigned"),
                        if IdKey in w.fields then Some(w.fields[IdKey].text) else None))
  }

  predicate ValidWorkspace(x: Syntax, w: Workspace) {
    w.isAssigned == w.id.Some? && (w.id.Some? ==> x.isUuid(w.id.value))
  }

  lemma WorkspaceRoundTrip(x: Syntax, w: Workspace, j: Wire)
    ensures ValidWorkspace(x, w) ==> DecodeWorkspace(x, EncodeWorkspace(w)) == Some(w)
    ensures DecodeWorkspace(x, j) == Some(w) ==> ValidWorkspace(x, w) && EncodeWorkspace(w) == j
  {
    assert "assigned" != "unavailable" by {
      assert |"assigned"| != |"unavailable"|;
    }
    if DecodeWorkspace(x, j) == Some(w) {
      assert EncodeWorkspace(w).fields == j.fields;
    }
  }

  function EncodeContext(c: Context): Wire {
    var four := map[
      RequiredTermsVersionKey := JString(c.termsVersion), IdentityKey := JString(IdentityText(c.identity)),
      AdmissionKey := JString(AdmissionText(c.admission)), WorkspaceKey := EncodeWorkspace(c.workspace)];
    JObject(
      if c.waitlistPosition.Some? then four[WaitlistPositionKey := JNumber(c.waitlistPosition.value as real)]
      else four)
  }

  /** What stands on the wire of a context: each value under its own key, and the optional ones exactly when present. */
  lemma ContextFieldValues(c: Context)
    ensures var f := EncodeContext(c).fields;
            && f.Keys == CONTEXT_KEYS + (if c.waitlistPosition.Some? then {WaitlistPositionKey} else {})
            && f[RequiredTermsVersionKey] == JString(c.termsVersion)
            && (f[IdentityKey] == JString("active") <==> c.identity == ActiveIdentity)
            && (f[AdmissionKey] == JString("admitted") <==> c.admission == Admitted)
            && (f[AdmissionKey] == JString("waitlisted") <==> c.admission == Waitlisted)
            && (c.waitlistPosition.Some? ==> f[WaitlistPositionKey] == JNumber(c.waitlistPosition.value as real))
            && f[WorkspaceKey].JObject?
            && var w := f[WorkspaceKey].fields;
               && (StateKey in w && w[StateKey] == JString("assigned") <==> c.workspace.isAssigned)
               && (IdKey in w <==> c.workspace.id.Some?)
               && (c.workspace.id.Some? ==> w[IdKey] == JString(c.workspace.id.value))
  {
    assert |"assigned"| != |"unavailable"|;
    IdentityRoundTrip(c.identity, JString("active"));
    AdmissionRoundTrip(c.admission, JString("admitted"));
    AdmissionRoundTrip(c.admission, JString("waitlisted"));
  }

  const CONTEXT_KEYS: set<Key> := {RequiredTermsVersionKey, IdentityKey, AdmissionKey, WorkspaceKey}

  predicate IsPosition(w: Wire) {
    w.JNumber? && w.number.Floor as real == w.number && 0 <= w.number.Floor <= MAX_SAFE_INTEGER
  }

  function DecodeContext(x: Syntax, w: Wire): Option<Context> {
    if !w.JObject? || !(CONTEXT_KEYS <= w.fields.Keys <= CONTEXT_KEYS + {WaitlistPositionKey}) then None
    else
      var f := w.fields;
      var identity, admission := IdentityOf(f[IdentityKey]), AdmissionOf(f[AdmissionKey]);
      var workspace := DecodeWorkspace(x, f[WorkspaceKey]);
      if identity.None? || admission.None? || workspace.None? then None
      else if WaitlistPositionKey in f && !IsPosition(f[WaitlistPositionKey]) then None
      else if !(f[RequiredTermsVersionKey].JString? && x.isTermsVersion(f[RequiredTermsVersionKey].text)) then None
      else Some(Context(f[RequiredTermsVersionKey].text, identity.value, admission.value, workspace.value,
                        if WaitlistPositionKey in f then Some(f[WaitlistPositionKey].number.Floor) else None))
  }

  predicate ValidContext(x: Syntax, c: Context) {
    && x.isTermsVersion(c.termsVersion) && ValidWorkspace(x, c.workspace)
    && (c.waitlistPosition.Some? ==> 0 <= c.waitlistPosition.value <= MAX_SAFE_INTEGER)
  }

  lemma ContextRoundTrip(x: Syntax, c: Context, j: Wire)
    ensures ValidContext(x, c) ==> DecodeContext(x, EncodeContext(c)) == Some(c)
    ensures DecodeContext(x, j) == Some(c) ==> ValidContext(x, c) && EncodeContext(c) == j
  {
    hide EncodeWorkspace, DecodeWorkspace, ValidWorkspace, IdentityText, IdentityOf, AdmissionText, AdmissionOf;
    IdentityRoundTrip(c.identity, EncodeContext(c));
    AdmissionRoundTrip(c.admission, EncodeContext(c));
    WorkspaceRoundTrip(x, c.workspace, EncodeContext(c));
    if DecodeContext(x, j) == Some(c) {
      IdentityRoundTrip(c.identity, j.fields[IdentityKey]);
      AdmissionRoundTrip(c.admission, j.fields[AdmissionKey]);
      WorkspaceRoundTrip(x, c.workspace, j.fields[WorkspaceKey]);
      assert EncodeContext(c).fields == j.fields;
    }
  }

  // ----- the whole record

  function SessionFields(s: Session): map<Key, Wire> {
    map[
      VersionKey := JNumber(3.0), BaseUrlKey := JString(s.baseUrl), ProfileKey := JString(s.profile),
      ClientInstanceIdKey := JString(s.clientInstanceId), SessionIdKey := JString(s.sessionId),
      LoginCodeKey := JString(s.loginCode),
      LoginCodeExpiresAtKey := JString(s.loginCodeExpiresAt), ContinuationIdKey := JString(s.continuationId),
      StateKey := JString(s.state), CodeVerifierKey := JString(s.codeVerifier),
      RedirectUriKey := JString(s.redirectUri),
      ContextKey := EncodeContext(s.context), IntentClassKey := JString(IntentText(s.intent))]
  }

  function AccessFields(a: Access): map<Key, Wire> {
    map[
      AccessTokenKey := JString(a.token), AccessExpiresAtKey := JString(a.expiresAt),
      AccessObservedAtKey := JString(a.observedAt)]
  }

  function EncodeStored(s: Session): Wire {
    JObject(if s.access.Some? then SessionFields(s) + AccessFields(s.access.value) else SessionFields(s))
  }

  predicate TextAt(f: map<Key, Wire>, k: Key) {
    k in f && f[k].JString?
  }

  predicate InstantAt(x: Syntax, f: map<Key, Wire>, k: Key) {
    TextAt(f, k) && x.isInstant(f[k].text)
  }

  predicate AccessOk(x: Syntax, f: map<Key, Wire>) {
    && TextAt(f, AccessTokenKey) && x.isAccessToken(f[AccessTokenKey].text)
    && InstantAt(x, f, AccessExpiresAtKey) && InstantAt(x, f, AccessObservedAtKey)
  }

  /** Everything `decodeStored` checks outside the bearer triple. */
  predicate FieldsOk(x: Syntax, f: map<Key, Wire>, c: Config) {
    && VersionKey in f && f[VersionKey] == JNumber(3.0)
    && BaseUrlKey in f && f[BaseUrlKey] == JString(c.baseUrl) && ProfileKey in f && f[ProfileKey] == JString(c.profile)
    && TextAt(f, LoginCodeKey) && x.isLoginCode(f[LoginCodeKey].text) && InstantAt(x, f, LoginCodeExpiresAtKey)
    && TextAt(f, ClientInstanceIdKey) && x.isUuid(f[ClientInstanceIdKey].text)
    && TextAt(f, SessionIdKey) && x.isUuid(f[SessionIdKey].text)
    && TextAt(f, ContinuationIdKey) && x.isUuid(f[ContinuationIdKey].text)
    && TextAt(f, StateKey) && TextAt(f, CodeVerifierKey) && TextAt(f, RedirectUriKey)
    && IntentClassKey in f && IntentOf(f[IntentClassKey]).Some?
    && ContextKey in f && DecodeContext(x, f[ContextKey]).Some?
    && x.isProfile(c.profile)
  }

  function DecodeStored(x: Syntax, w: Wire, c: Config): Option<Session> {
    if !w.JObject? then None
    else
      var f := w.fields;
      var carriesAccess := f.Keys == SESSION_KEYS + ACCESS_KEYS;
      if !carriesAccess && f.Keys != SESSION_KEYS then None
      else if carriesAccess && !AccessOk(x, f) then None
      else if !FieldsOk(x, f, c) then None
      else Some(Session(
        if carriesAccess then
          Some(Access(f[AccessTokenKey].text, f[AccessExpiresAtKey].text, f[AccessObservedAtKey].text))
        else None,
        c.baseUrl, c.profile, f[ClientInstanceIdKey].text, f[SessionIdKey].text,
        f[LoginCodeKey].text, f[LoginCodeExpiresAtKey].text,
        f[ContinuationIdKey].text, f[StateKey].text, f[CodeVerifierKey].text, f[RedirectUriKey].text,
        DecodeContext(x, f[ContextKey]).value, IntentOf(f[IntentClassKey]).value))
  }

  predicate ValidAccess(x: Syntax, a: Access) {
    x.isAccessToken(a.token) && x.isInstant(a.expiresAt) && x.isInstant(a.observedAt)
  }

  /** The sessions this configuration can hold. */
  predicate ValidSession(x: Syntax, s: Session, c: Config) {
    && s.baseUrl == c.baseUrl && s.profile == c.profile && x.isProfile(c.profile)
    && x.isLoginCode(s.loginCode) && x.isInstant(s.loginCodeExpiresAt)
    && x.isUuid(s.clientInstanceId) && x.isUuid(s.sessionId) && x.isUuid(s.continuationId)
    && ValidContext(x, s.context)
    && (s.access.Some? ==> ValidAccess(x, s.access.value))
  }

  lemma KeysOfEncoding(s: Session)
    ensures SessionFields(s).Keys == SESSION_KEYS
    ensures s.access.Some? ==> AccessFields(s.access.value).Keys == ACCESS_KEYS
    ensures SESSION_KEYS !! ACCESS_KEYS && SESSION_KEYS != SESSION_KEYS + ACCESS_KEYS
  {
    assert AccessTokenKey !in SESSION_KEYS && AccessTokenKey in SESSION_KEYS + ACCESS_KEYS;
  }

  lemma SessionFieldValues(s: Session)
    ensures var f := SessionFields(s);
            && f.Keys == SESSION_KEYS
            && f[VersionKey] == JNumber(3.0) && f[BaseUrlKey] == JString(s.baseUrl)
            && f[ProfileKey] == JString(s.profile)
            && f[ClientInstanceIdKey] == JString(s.clientInstanceId) && f[SessionIdKey] == JString(s.sessionId)
            && f[LoginCodeKey] == JString(s.loginCode) && f[LoginCodeExpiresAtKey] == JString(s.loginCodeExpiresAt)
            && f[ContinuationIdKey] == JString(s.continuationId) && f[StateKey] == JString(s.state)
            && f[CodeVerifierKey] == JString(s.codeVerifier) && f[RedirectUriKey] == JString(s.redirectUri)
            && f[ContextKey] == EncodeContext(s.context) && f[IntentClassKey] == JString(IntentText(s.intent))
  {
    hide EncodeContext, IntentText;
    KeysOfEncoding(s);
  }

  lemma EncodedFields(x: Syntax, s: Session, c: Config)
    requires ValidSession(x, s, c)
    ensures EncodeStored(s).JObject?
    ensures EncodeStored(s).fields.Keys == if s.access.Some? then SESSION_KEYS + ACCESS_KEYS else SESSION_KEYS
    ensures s.access.Some? ==> var f := EncodeStored(s).fields;
              && AccessOk(x, f)
              && s.access.value ==
                 Access(f[AccessTokenKey].text, f[AccessExpiresAtKey].text, f[AccessObservedAtKey].text)
    ensures forall k | k in SessionFields(s) ::
              k in EncodeStored(s).fields && EncodeStored(s).fields[k] == SessionFields(s)[k]
  {
    hide EncodeContext, ValidContext, IntentText, SESSION_KEYS, ACCESS_KEYS;
    KeysOfEncoding(s);
  }

  /** Decoding what was encoded gives the session back, with or without a cached bearer. */
  lemma StoredRoundTrip(x: Syntax, s: Session, c: Config)
    requires ValidSession(x, s, c)
    ensures DecodeStored(x, EncodeStored(s), c) == Some(s)
  {
    hide EncodeContext, DecodeContext, ValidContext, IntentText, IntentOf, EncodeStored, SessionFields;
    KeysOfEncoding(s);
    SessionFieldValues(s);
    ContextRoundTrip(x, s.context, EncodeContext(s.context));
    IntentRoundTrip(s.intent, JNull);
    EncodedFields(x, s, c);
    assert FieldsOk(x, EncodeStored(s).fields, c);
  }

  lemma DecodedIsValid(x: Syntax, w: Wire, c: Config)
    requires DecodeStored(x, w, c).Some?
    ensures ValidSession(x, DecodeStored(x, w, c).value, c)
  {
    hide EncodeContext, DecodeContext, ValidContext, IntentText, IntentOf;
    var s := DecodeStored(x, w, c).value;
    ContextRoundTrip(x, s.context, w.fields[ContextKey]);
  }

  lemma DecodedFields(x: Syntax, w: Wire, c: Config, k: Key)
    requires DecodeStored(x, w, c).Some? && k in SESSION_KEYS
    ensures var s := DecodeStored(x, w, c).value;
            k in SessionFields(s) && k in w.fields && SessionFields(s)[k] == w.fields[k]
  {
    hide EncodeContext, DecodeContext, ValidContext, IntentText, IntentOf;
    var s := DecodeStored(x, w, c).value;
    ContextRoundTrip(x, s.context, w.fields[ContextKey]);
    IntentRoundTrip(s.intent, w.fields[IntentClassKey]);
  }

  lemma DecodedAccessFields(x: Syntax, w: Wire, c: Config, k: Key)
    requires DecodeStored(x, w, c).Some? && DecodeStored(x, w, c).value.access.Some? && k in ACCESS_KEYS
    ensures var a := DecodeStored(x, w, c).value.access.value;
            k in AccessFields(a) && k in w.fields && AccessFields(a)[k] == w.fields[k]
  {
    hide FieldsOk, DecodeContext, IntentOf;
  }

  lemma DecodedKeys(x: Syntax, w: Wire, c: Config)
    requires DecodeStored(x, w, c).Some?
    ensures w.fields.Keys ==
            if DecodeStored(x, w, c).value.access.Some? then SESSION_KEYS + ACCESS_KEYS else SESSION_KEYS
  {
    hide FieldsOk, AccessOk, DecodeContext, IntentOf;
  }

  /** And everything that decodes is the encoding of the valid session it decodes to. */
  lemma DecodedIsEncoding(x: Syntax, w: Wire, c: Config)
    requires DecodeStored(x, w, c).Some?
    ensures ValidSession(x, DecodeStored(x, w, c).value, c) && EncodeStored(DecodeStored(x, w, c).value) == w
  {
    hide DecodeStored, SessionFields, AccessFields, ValidSession;
    DecodedIsValid(x, w, c);
    var s := DecodeStored(x, w, c).value;
    KeysOfEncoding(s);
    WireObject(x, w, c);
    DecodedKeys(x, w, c);
    forall k | k in SESSION_KEYS ensures SessionFields(s)[k] == w.fields[k] {
      DecodedFields(x, w, c, k);
    }
    if s.access.Some? {
      forall k | k in ACCESS_KEYS ensures AccessFields(s.access.value)[k] == w.fields[k] {
        DecodedAccessFields(x, w, c, k);
      }
    }
    assert EncodeStored(s).fields == w.fields;
  }

  lemma WireObject(x: Syntax, w: Wire, c: Config)
    requires DecodeStored(x, w, c).Some?
    ensures w.JObject?
  {
  }

  /** A record carrying one or two keys of the bearer triple is refused, whatever else it holds. */
  lemma PartialBearerIsRefused(x: Syntax, w: Wire, c: Config)
    requires w.JObject? && w.fields.Keys * ACCESS_KEYS != {} && !(ACCESS_KEYS <= w.fields.Keys)
    ensures DecodeStored(x, w, c) == None
  {
    var k :| k in w.fields.Keys * ACCESS_KEYS;
    assert k !in SESSION_KEYS;
  }
}
