/**
 The durable sign-in session as values: the protected record, what the server, the storage, the clock and other
 processes may answer, the reasons a change of the record can have, and which answers license which change.
 */
module SessionWorld {
  import opened Options
  import opened Json
  import opened StoredSession

  const ACCESS_REUSE_MARGIN_MS: int := 120_000
  const ACCESS_FLOOR_MS: int := 30_000

  // ----- what the outside answers

  /** One protected envelope. Two envelopes with the same digest are the same envelope. */
  datatype Envelope = Envelope(revision: nat, storedAt: int, expiresAt: Option<int>, payload: Wire)

  datatype Exchange = Exchange(
    accessToken: string, accessExpiresAt: string, loginCodeExpiresAt: string, sessionId: string, context: Context)

  /** An exchange or logout that failed: whether the error is the CLI's own kind, its status and its reason. */
  datatype ServerFailure = ServerFailure(typed: bool, status: Option<int>, reason: Option<string>)

  datatype ExchangeOutcome = Exchanged(exchange: Exchange) | ExchangeFailed(failure: ServerFailure)

  datatype LogoutAnswer = Revoked | LogoutFailed(failure: ServerFailure)

  /** What other processes did to the record while this one waited. */
  datatype Others = Quiet | Wrote(record: Option<Envelope>)

  /** The record once the other processes had their turn. */
  function Settled(o: Others, record: Option<Envelope>): Option<Envelope> {
    if o.Wrote? then o.record else record
  }

  /**
   How the storage behaved: as asked, or with an error before the effect, or with one after it, when others may write
   and the record may be unreadable before it is read back.
   */
  datatype Backend = Works | FailsBefore | FailsAfter(next: Others, readable: bool)

  /** The record after writes made one after the other. */
  function LastOf(writes: seq<Option<Envelope>>, record: Option<Envelope>): Option<Envelope> {
    if writes == [] then record else writes[|writes| - 1]
  }

  /** The server-defined terminal pairs. */
  predicate AuthoritativePair(f: ServerFailure) {
    && f.typed && f.status == Some(401)
    && (f.reason == Some("cli_auth_rejected") || f.reason == Some("cli_session_revoked"))
  }

  /** There are two of them. */
  lemma TerminalPairs(f: ServerFailure)
    ensures AuthoritativePair(f) <==>
            f in {ServerFailure(true, Some(401), Some("cli_auth_rejected")),
                  ServerFailure(true, Some(401), Some("cli_session_revoked"))}
  {
  }

  predicate Definitive(a: LogoutAnswer) {
    a.Revoked? || AuthoritativePair(a.failure)
  }

  /** What the exchange decoder guarantees of an answer. */
  predicate DecodedExchange(x: Syntax, e: Exchange) {
    && x.isAccessToken(e.accessToken) && x.isInstant(e.accessExpiresAt) && x.isInstant(e.loginCodeExpiresAt)
    && x.isUuid(e.sessionId) && ValidContext(x, e.context)
  }

  /** The last instant a date can denote. */
  const LAST_DATE: int := 8_640_000_000_000_000

  /**
   Dates as JavaScript has them: an instant in range prints to a text that denotes one, and no text denotes a later one.
   */
  ghost predicate WellTimed(x: Syntax) {
    && (forall t | 0 <= t <= LAST_DATE :: x.isInstant(x.iso(t)))
    && (forall s | x.isInstant(s) :: x.instant(s) <= LAST_DATE)
  }

  /** A clock reading the service accepts after the last one it accepted. */
  predicate Trusted(last: Option<int>, observed: int) {
    0 <= observed <= MAX_SAFE_INTEGER && (last.Some? ==> last.value <= observed)
  }

  /** A reading of the clock between two ticks, in the accepted range. */
  predicate ReadIn(clock: nat -> int, from: nat, to: nat, t: int) {
    0 <= t <= MAX_SAFE_INTEGER && exists k | from <= k < to :: clock(k) == t
  }

  // ----- the checks on stored and exchanged sessions

  /** A stored bearer is reused only with real life left, and never when it is the one just refused. */
  function UsableStoredAccess(x: Syntax, s: Session, now: int, rejected: Option<string>): Option<Access> {
    if s.access.None? then None
    else if rejected == Some(s.access.value.token) then None
    else if x.instant(s.access.value.expiresAt) - now <= ACCESS_REUSE_MARGIN_MS then None
    else s.access
  }

  /** The session stores a bearer other than the refused one, with more than two minutes left. */
  predicate Reusable(x: Syntax, s: Session, now: int, rejected: Option<string>) {
    && s.access.Some? && rejected != Some(s.access.value.token)
    && now + 2 * 60_000 < x.instant(s.access.value.expiresAt)
  }

  predicate OnboardingReady(c: Context) {
    c.identity == ActiveIdentity && c.admission == Admitted && c.workspace.isAssigned
  }

  predicate SignupContext(c: Context, allowAdmitted: bool) {
    || (c.identity == ActiveIdentity && c.admission == Waitlisted && !c.workspace.isAssigned)
    || (&& allowAdmitted && c.identity == ActiveIdentity && c.admission == Admitted
        && c.workspace.isAssigned && c.workspace.id.Some?)
  }

  predicate SignupTransition(a: Context, b: Context) {
    && a.termsVersion == b.termsVersion && a.identity == ActiveIdentity && b.identity == ActiveIdentity
    && (if a.admission == Waitlisted then
          || (b.admission == Waitlisted && !a.workspace.isAssigned && !b.workspace.isAssigned)
          || (b.admission == Admitted && !a.workspace.isAssigned && b.workspace.isAssigned && b.workspace.id.Some?)
        else
          && a.admission == Admitted && b.admission == Admitted && a.workspace.isAssigned && b.workspace.isAssigned
          && a.workspace.id.Some? && a.workspace.id == b.workspace.id)
  }

  /** The answer to a re-exchange does not continue the session it was asked for. */
  predicate Mismatch(x: Syntax, s: Session, e: Exchange, now: int) {
    || e.sessionId != s.sessionId
    || e.loginCodeExpiresAt != s.loginCodeExpiresAt
    || (if s.intent == Signup then !SignupTransition(s.context, e.context)
        else EncodeContext(e.context) != EncodeContext(s.context))
    || x.instant(e.loginCodeExpiresAt) <= now
    || x.instant(e.accessExpiresAt) <= now
    || (if s.intent == Signup then !SignupContext(e.context, true) else !OnboardingReady(e.context))
  }

  /** A sign-up that stays on the waitlist, is admitted, or stays admitted to the same workspace. */
  predicate AdvancesSignup(was: Context, got: Context) {
    && got.termsVersion == was.termsVersion && was.identity == ActiveIdentity && got.identity == ActiveIdentity
    && (|| (&& was.admission == Waitlisted && !was.workspace.isAssigned
            && got.admission == Waitlisted && !got.workspace.isAssigned)
        || (&& was.admission == Waitlisted && !was.workspace.isAssigned
            && got.admission == Admitted && got.workspace.isAssigned && got.workspace.id.Some?)
        || (&& was.admission == Admitted && was.workspace.isAssigned && was.workspace.id.Some?
            && got.admission == Admitted && got.workspace.isAssigned && got.workspace.id == was.workspace.id))
  }

  /**
   The answer continues the session: the same session under the same login code, its context unchanged and admitted, or
   for a sign-up advanced, and neither expiry reached.
   */
  predicate Continues(x: Syntax, s: Session, e: Exchange, now: int) {
    && e.sessionId == s.sessionId && e.loginCodeExpiresAt == s.loginCodeExpiresAt
    && now < x.instant(e.loginCodeExpiresAt) && now < x.instant(e.accessExpiresAt)
    && if s.intent == Signup then AdvancesSignup(s.context, e.context)
       else
         && e.context == s.context && e.context.identity == ActiveIdentity && e.context.admission == Admitted
         && e.context.workspace.isAssigned
  }

  /** The code's checks, made on the wire form of the contexts, refuse exactly what does not continue the session. */
  lemma MismatchIffNotContinuing(x: Syntax, s: Session, e: Exchange, now: int)
    requires ValidContext(x, s.context) && ValidContext(x, e.context)
    ensures Mismatch(x, s, e, now) <==> !Continues(x, s, e, now)
  {
    hide EncodeContext, DecodeContext, ValidContext;
    ContextRoundTrip(x, s.context, EncodeContext(s.context));
    ContextRoundTrip(x, e.context, EncodeContext(e.context));
  }

  /** Stored and exchanged contexts are both valid, so the checks are exact on every readable record. */
  lemma ReadableMismatch(x: Syntax, c: Config, r: Option<Envelope>, e: Exchange, now: int)
    requires SessionIn(x, c, r).Some? && DecodedExchange(x, e)
    ensures Mismatch(x, SessionIn(x, c, r).value, e, now) <==> !Continues(x, SessionIn(x, c, r).value, e, now)
  {
    hide DecodeStored, Mismatch, Continues, ValidContext;
    DecodedIsValid(x, r.value.payload, c);
    MismatchIffNotContinuing(x, SessionIn(x, c, r).value, e, now);
  }

  // ----- the history of the record

  datatype Cause =
    | Elsewhere
    | RemoteRejection(failure: ServerFailure)
    | LocalExpiry(now: int)
    | IntegrityMismatch(exchange: Exchange, now: int)
    | ConfirmedLogout(answer: LogoutAnswer, revision: nat)
    | FailedLogin(revision: nat)
    | Reexchanged(exchange: Exchange, now: int)
    | Forgotten
    | LoggedIn

  datatype Change = Change(before: Option<Envelope>, after: Option<Envelope>, cause: Cause)

  function SessionIn(x: Syntax, c: Config, r: Option<Envelope>): Option<Session> {
    if r.None? then None else DecodeStored(x, r.value.payload, c)
  }

  /** `after` holds the same session with another bearer, one revision on, under the login code's own expiry. */
  predicate RewritesBearer(x: Syntax, c: Config, before: Option<Envelope>, after: Option<Envelope>,
                           access: Option<Access>) {
    && before.Some? && after.Some? && SessionIn(x, c, before).Some?
    && var s := SessionIn(x, c, before).value;
       && SessionIn(x, c, after) == Some(s.(access := access))
       && after.value.expiresAt == Some(x.instant(s.loginCodeExpiresAt))
       && after.value.revision == before.value.revision + 1
  }

  /** What must hold of the record and the evidence for this process to make the change. */
  predicate Justified(x: Syntax, c: Config, ch: Change) {
    match ch.cause
    case Elsewhere => true
    case RemoteRejection(f) => ch.before.Some? && ch.after.None? && AuthoritativePair(f)
    case LocalExpiry(now) =>
      && ch.after.None? && SessionIn(x, c, ch.before).Some?
      && x.instant(SessionIn(x, c, ch.before).value.loginCodeExpiresAt) <= now
    case IntegrityMismatch(e, now) =>
      ch.after.None? && SessionIn(x, c, ch.before).Some? && !Continues(x, SessionIn(x, c, ch.before).value, e, now)
    case ConfirmedLogout(a, revision) =>
      ch.after.None? && ch.before.Some? && ch.before.value.revision == revision && Definitive(a)
    case FailedLogin(revision) => ch.after.None? && ch.before.Some? && ch.before.value.revision == revision
    case Reexchanged(e, now) =>
      && SessionIn(x, c, ch.before).Some? && Continues(x, SessionIn(x, c, ch.before).value, e, now)
      && RewritesBearer(x, c, ch.before, ch.after, Some(Access(e.accessToken, e.accessExpiresAt, x.iso(now))))
    case Forgotten => RewritesBearer(x, c, ch.before, ch.after, None)
    case LoggedIn =>
      && ch.after.Some? && SessionIn(x, c, ch.after).Some?
      && ch.after.value.expiresAt == Some(x.instant(SessionIn(x, c, ch.after).value.loginCodeExpiresAt))
      && ch.after.value.revision == NextRevision(ch.before)
  }

  function NextRevision(r: Option<Envelope>): nat {
    if r.Some? then r.value.revision + 1 else 1
  }

  /** The record after the first `n` changes. */
  function RecordAt(first: Option<Envelope>, log: seq<Change>, n: nat): Option<Envelope>
    requires n <= |log|
  {
    if n == 0 then first else log[n - 1].after
  }

  /**
   A history from a first record to the present one: every change justified and starting from what the last one left.
   */
  predicate History(x: Syntax, c: Config, first: Option<Envelope>, log: seq<Change>, record: Option<Envelope>) {
    && (forall i | 0 <= i < |log| :: Justified(x, c, log[i]) && log[i].before == RecordAt(first, log, i))
    && record == RecordAt(first, log, |log|)
  }

  lemma HistoryGrows(x: Syntax, c: Config, first: Option<Envelope>, log: seq<Change>, record: Option<Envelope>,
                     ch: Change)
    requires History(x, c, first, log, record) && Justified(x, c, ch) && ch.before == record
    ensures History(x, c, first, log + [ch], ch.after)
  {
    hide Justified;
    var grown := log + [ch];
    forall i | 0 <= i < |grown|
      ensures Justified(x, c, grown[i]) && grown[i].before == RecordAt(first, grown, i)
    {
      assert i < |log| ==> Justified(x, c, log[i]) && log[i].before == RecordAt(first, log, i);
      assert i > 0 ==> grown[i - 1] == log[i - 1];
    }
  }

  /** The envelope was the record at some time. */
  predicate Occurred(first: Option<Envelope>, log: seq<Change>, e: Envelope) {
    exists n | 0 <= n <= |log| :: RecordAt(first, log, n) == Some(e)
  }

  lemma OccurredStays(first: Option<Envelope>, log: seq<Change>, longer: seq<Change>, e: Envelope)
    requires log <= longer && Occurred(first, log, e)
    ensures Occurred(first, longer, e)
  {
    var n :| 0 <= n <= |log| && RecordAt(first, log, n) == Some(e);
    assert RecordAt(first, longer, n) == Some(e);
  }

  lemma RecordOccurred(x: Syntax, c: Config, first: Option<Envelope>, log: seq<Change>, record: Option<Envelope>)
    requires History(x, c, first, log, record) && record.Some?
    ensures Occurred(first, log, record.value)
  {
    hide Justified;
    assert RecordAt(first, log, |log|) == Some(record.value);
  }

  /** There was no record at some time. */
  predicate WasAbsent(first: Option<Envelope>, log: seq<Change>) {
    exists n | 0 <= n <= |log| :: RecordAt(first, log, n).None?
  }

  lemma AbsenceStays(first: Option<Envelope>, log: seq<Change>, longer: seq<Change>)
    requires log <= longer && WasAbsent(first, log)
    ensures WasAbsent(first, longer)
  {
    var n :| 0 <= n <= |log| && RecordAt(first, log, n).None?;
    assert RecordAt(first, longer, n).None?;
  }

  // ----- bearers

  datatype Bearer = Bearer(token: string, expiresAt: int, sessionId: string, revision: nat)

  datatype Captured = Captured(token: string, expiresAt: int, sessionId: string)

  function RevisionOf(b: Option<Bearer>): Option<nat> {
    if b.Some? then Some(b.value.revision) else None
  }

  function BearerOf(c: Captured, revision: nat): Bearer {
    Bearer(c.token, c.expiresAt, c.sessionId, revision)
  }

  /** The bearer is the one stored in this envelope: its token, its expiry, its session and its revision. */
  predicate Supplies(x: Syntax, c: Config, e: Envelope, b: Bearer) {
    var s := SessionIn(x, c, Some(e));
    && s.Some? && s.value.access.Some?
    && b == Bearer(s.value.access.value.token, x.instant(s.value.access.value.expiresAt), s.value.sessionId, e.revision)
  }

  predicate SuppliesNow(x: Syntax, c: Config, r: Option<Envelope>, b: Bearer) {
    r.Some? && Supplies(x, c, r.value, b)
  }

  /** Some envelope that was the record at some time stored this bearer. */
  predicate Supplied(x: Syntax, c: Config, first: Option<Envelope>, log: seq<Change>, b: Bearer) {
    exists n | 0 <= n <= |log| :: SuppliesNow(x, c, RecordAt(first, log, n), b)
  }

  lemma SuppliedStays(x: Syntax, c: Config, first: Option<Envelope>, log: seq<Change>, longer: seq<Change>, b: Bearer)
    requires log <= longer && Supplied(x, c, first, log, b)
    ensures Supplied(x, c, first, longer, b)
  {
    hide Supplies;
    var n :| 0 <= n <= |log| && SuppliesNow(x, c, RecordAt(first, log, n), b);
    assert SuppliesNow(x, c, RecordAt(first, longer, n), b);
  }

  lemma OccurredSupplies(x: Syntax, c: Config, first: Option<Envelope>, log: seq<Change>, e: Envelope, b: Bearer)
    requires Occurred(first, log, e) && Supplies(x, c, e, b)
    ensures Supplied(x, c, first, log, b)
  {
    hide Supplies;
    var n :| 0 <= n <= |log| && RecordAt(first, log, n) == Some(e);
    assert SuppliesNow(x, c, RecordAt(first, log, n), b);
  }

  /** The record carried this token, with more than the floor left of the expiry stored with it. */
  predicate CarriesLive(x: Syntax, c: Config, r: Option<Envelope>, token: string, now: int) {
    var s := SessionIn(x, c, r);
    && s.Some? && s.value.access.Some? && s.value.access.value.token == token
    && x.instant(s.value.access.value.expiresAt) - now > ACCESS_FLOOR_MS
  }

  lemma SuppliedIsCarried(x: Syntax, c: Config, first: Option<Envelope>, log: seq<Change>, b: Bearer,
                          now: int) returns (n: nat)
    requires Supplied(x, c, first, log, b) && b.expiresAt - now > ACCESS_FLOOR_MS
    ensures n <= |log| && CarriesLive(x, c, RecordAt(first, log, n), b.token, now)
  {
    hide DecodeStored;
    n :| 0 <= n <= |log| && SuppliesNow(x, c, RecordAt(first, log, n), b);
  }

  // ----- rewriting the record

  /** The rewrite is justified whenever the envelope happens to be stored. */
  ghost predicate RotationJustified(x: Syntax, c: Config, current: Option<Envelope>, payload: Wire, expiresAt: int,
                                    cause: Cause) {
    forall t: int ::
      Justified(x, c, Change(current, Some(Envelope(NextRevision(current), t, Some(expiresAt), payload)), cause))
  }

  /** ... and the envelope then stores the captured bearer. */
  ghost predicate RotationSupplies(x: Syntax, c: Config, current: Option<Envelope>, payload: Wire, expiresAt: int,
                                   captured: Captured) {
    forall t: int ::
      Supplies(x, c, Envelope(NextRevision(current), t, Some(expiresAt), payload),
               BearerOf(captured, NextRevision(current)))
  }

  lemma RewriteDecodes(x: Syntax, c: Config, current: Envelope, access: Option<Access>)
    requires SessionIn(x, c, Some(current)).Some? && (access.Some? ==> ValidAccess(x, access.value))
    ensures var s := SessionIn(x, c, Some(current)).value;
            DecodeStored(x, EncodeStored(s.(access := access)), c) == Some(s.(access := access))
  {
    hide DecodeStored, EncodeStored;
    var s := SessionIn(x, c, Some(current)).value;
    DecodedIsEncoding(x, current.payload, c);
    StoredRoundTrip(x, s.(access := access), c);
  }

  /** The record a re-exchange writes: the stored session with the bearer just obtained. */
  function WithBearer(x: Syntax, s: Session, e: Exchange, now: int): Session {
    s.(access := Some(Access(e.accessToken, e.accessExpiresAt, x.iso(now))))
  }

  lemma ReexchangeIsJustified(x: Syntax, c: Config, current: Envelope, e: Exchange, now: int)
    requires SessionIn(x, c, Some(current)).Some? && DecodedExchange(x, e) && WellTimed(x) && 0 <= now
    requires Continues(x, SessionIn(x, c, Some(current)).value, e, now)
    ensures var s := SessionIn(x, c, Some(current)).value;
            var payload := EncodeStored(WithBearer(x, s, e, now));
            && RotationJustified(x, c, Some(current), payload, x.instant(s.loginCodeExpiresAt), Reexchanged(e, now))
            && RotationSupplies(x, c, Some(current), payload, x.instant(s.loginCodeExpiresAt),
                                Captured(e.accessToken, x.instant(e.accessExpiresAt), s.sessionId))
  {
    hide DecodeStored, EncodeStored, AdvancesSignup;
    assert x.isInstant(x.iso(now));
    RewriteDecodes(x, c, current, Some(Access(e.accessToken, e.accessExpiresAt, x.iso(now))));
  }

  lemma ForgettingIsJustified(x: Syntax, c: Config, current: Envelope)
    requires SessionIn(x, c, Some(current)).Some?
    ensures var s := SessionIn(x, c, Some(current)).value;
            RotationJustified(x, c, Some(current), EncodeStored(s.(access := None)), x.instant(s.loginCodeExpiresAt),
                              Forgotten)
  {
    hide DecodeStored, EncodeStored;
    RewriteDecodes(x, c, current, None);
  }

  // ----- one vault refresh

  datatype RejectReason = AuthoritativeRemote | LocalExpired | LocalIntegrity

  datatype VaultError =
    | VaultUnavailable | RefreshFailed | CredentialMissing | CredentialRevoked(reason: RejectReason)
    | RevisionConflict | BackendFailure | EnvelopeInvalid

  datatype AuthError =
    | ClockUntrusted | CancelledByCaller | SessionCorrupt | SignInRequired
    | ReauthenticationRequired(durableSessionRemoved: bool)
    | ReexchangeUnknown | Vault(error: VaultError) | Server(failure: ServerFailure) | CleanupFailed | CleanupConflict
    | StoreUnavailable | AlreadySignedIn | TokenExpired | ContextRefused | ContinuationFailed

  /** What the refresh callback decided, with the reason a removal or a rewrite would be recorded under. */
  datatype Decision =
    | Missing | Retain | Threw
    | Reject(reason: RejectReason, because: Cause)
    | Rotate(payload: Wire, expiresAt: int, why: Cause)

  /** Why a vault refresh was asked for; a re-exchange may name the bearer the server has just refused. */
  datatype Purpose = Reexchanging(rejected: Option<string>) | Forgetting

  /** One vault refresh: what it met outside, and the purpose of the flight under way if one was joined. */
  datatype Pass = Pass(
    joined: Option<Purpose>, ready: bool, outcome: ExchangeOutcome, others: Others, storedAt: int, backend: Backend)

  predicate DecodedPass(x: Syntax, p: Pass) {
    p.outcome.Exchanged? ==> DecodedExchange(x, p.outcome.exchange)
  }

  predicate AuthoritativeFailure(p: Pass) {
    p.outcome.ExchangeFailed? && AuthoritativePair(p.outcome.failure)
  }

  /** The server minted the refused token once more. */
  predicate Reminted(p: Pass, rejected: Option<string>) {
    p.outcome.Exchanged? && rejected == Some(p.outcome.exchange.accessToken)
  }

  /** A refresh somebody asked for. */
  datatype Task = Task(purpose: Purpose, pass: Pass)

  /** Whose callback runs: the caller's own, or that of the flight it joined. */
  function Running(t: Task): Purpose {
    if t.pass.joined.Some? then t.pass.joined.value else t.purpose
  }

  /**
   The two vault refreshes a re-exchange may need, what other processes wrote between them, and the refused bearer it
   was started for.
   */
  datatype Flight = Flight(rejected: Option<string>, first: Pass, between: Others, second: Pass)

  predicate DecodedFlight(x: Syntax, f: Flight) {
    DecodedPass(x, f.first) && DecodedPass(x, f.second)
  }

  function FirstTask(f: Flight): Task {
    Task(Reexchanging(f.rejected), f.first)
  }

  function SecondTask(f: Flight): Task {
    Task(Reexchanging(f.rejected), f.second)
  }

  function ToAuthError(e: VaultError): AuthError {
    match e
    case CredentialMissing => SignInRequired
    case CredentialRevoked(reason) => ReauthenticationRequired(reason == AuthoritativeRemote)
    case _ => Vault(e)
  }

  // ----- which answers license which change

  /** Another process wrote this. */
  predicate WrittenBy(o: Others, ch: Change) {
    o.Wrote? && ch.cause.Elsewhere? && ch.after == o.record
  }

  predicate WrittenAmong(writes: seq<Option<Envelope>>, ch: Change) {
    ch.cause.Elsewhere? && ch.after in writes
  }

  predicate WrittenAfter(b: Backend, ch: Change) {
    b.FailsAfter? && WrittenBy(b.next, ch)
  }

  /** The evidence in the cause is the answer the re-exchange got, and its time a reading taken meanwhile. */
  predicate AnswerLicenses(clock: nat -> int, from: nat, to: nat, outcome: ExchangeOutcome, cause: Cause) {
    match cause
    case RemoteRejection(f) => outcome == ExchangeFailed(f)
    case LocalExpiry(now) => ReadIn(clock, from, to, now)
    case IntegrityMismatch(e, now) => outcome == Exchanged(e) && ReadIn(clock, from, to, now)
    case Reexchanged(e, now) => outcome == Exchanged(e) && ReadIn(clock, from, to, now)
    case _ => false
  }

  /** A refresh may record others' writes, what its answer licenses, or, when it forgets, the forgetting. */
  predicate TaskLicenses(clock: nat -> int, from: nat, to: nat, t: Task, ch: Change) {
    && t.pass.ready
    && if ch.cause.Elsewhere? then WrittenBy(t.pass.others, ch) || WrittenAfter(t.pass.backend, ch)
       else if Running(t).Forgetting? then ch.cause == Forgotten
       else AnswerLicenses(clock, from, to, t.pass.outcome, ch.cause)
  }

  predicate FlightLicenses(clock: nat -> int, from: nat, to: nat, f: Flight, ch: Change) {
    || TaskLicenses(clock, from, to, FirstTask(f), ch) || TaskLicenses(clock, from, to, SecondTask(f), ch)
    || WrittenBy(f.between, ch)
  }

  lemma LicenceWidens(clock: nat -> int, from: nat, to: nat, from': nat, to': nat)
    requires from' <= from && to <= to'
    ensures forall t, ch :: TaskLicenses(clock, from, to, t, ch) ==> TaskLicenses(clock, from', to', t, ch)
    ensures forall f, ch :: FlightLicenses(clock, from, to, f, ch) ==> FlightLicenses(clock, from', to', f, ch)
  {
    forall t, ch | TaskLicenses(clock, from, to, t, ch)
      ensures TaskLicenses(clock, from', to', t, ch)
    {
      TaskLicenceWidens(clock, from, to, from', to', t, ch);
    }
    hide TaskLicenses;
  }

  /** A refresh never records a sign-in, its cleanup or a sign-out. */
  lemma RefreshesOnlyRefresh(clock: nat -> int, from: nat, to: nat)
    ensures forall t, ch | TaskLicenses(clock, from, to, t, ch) ::
              !ch.cause.ConfirmedLogout? && !ch.cause.LoggedIn? && !ch.cause.FailedLogin?
    ensures forall f, ch | FlightLicenses(clock, from, to, f, ch) ::
              !ch.cause.ConfirmedLogout? && !ch.cause.LoggedIn? && !ch.cause.FailedLogin?
  {
  }

  lemma TaskLicenceWidens(clock: nat -> int, from: nat, to: nat, from': nat, to': nat, t: Task, ch: Change)
    requires from' <= from && to <= to' && TaskLicenses(clock, from, to, t, ch)
    ensures TaskLicenses(clock, from', to', t, ch)
  {
  }

  // ----- removal by revision

  /** A cleanup that names this revision is justified whichever envelope carries the number. */
  ghost predicate RemovalJustified(x: Syntax, c: Config, revision: nat, cause: Cause) {
    forall e: Envelope | e.revision == revision :: Justified(x, c, Change(Some(e), None, cause))
  }

  lemma LogoutIsJustified(x: Syntax, c: Config, answer: LogoutAnswer, revision: nat)
    requires Definitive(answer)
    ensures RemovalJustified(x, c, revision, ConfirmedLogout(answer, revision))
  {
  }

  lemma CleanupIsJustified(x: Syntax, c: Config, revision: nat)
    ensures RemovalJustified(x, c, revision, FailedLogin(revision))
  {
  }

  datatype DeleteOutcome = Deleted | Absent | Conflict | DeleteFailed

  /**
   How a delete by revision went: whether the vault was there, who wrote between its read and its compare, the storage.
   */
  datatype DeleteWorld = DeleteWorld(ready: bool, between: Others, backend: Backend)

  /** Whether a revision-fenced delete removes the record it finds. */
  predicate Deletes(record: Option<Envelope>, fence: Option<Envelope>, revision: nat) {
    && record.Some?
    && (if fence.Some? && fence.value.revision == revision then record == fence else record.value.revision == revision)
  }

  /** The envelope the delete compares: the fenced observation of that revision, or the record if it has the number. */
  function Compared(record: Option<Envelope>, fence: Option<Envelope>, revision: nat): Option<Envelope> {
    if fence.Some? && fence.value.revision == revision then fence
    else if record.Some? && record.value.revision == revision then record
    else None
  }

  /** Whether the delete takes the record away: what it compared is still there and the storage acts. */
  predicate Takes(record: Option<Envelope>, fence: Option<Envelope>, revision: nat, at: DeleteWorld) {
    var expected := Compared(record, fence, revision);
    && 1 <= revision && at.ready && expected.Some? && Settled(at.between, record) == expected
    && !at.backend.FailsBefore?
  }

  datatype Removal = Removal(outcome: DeleteOutcome, record: Option<Envelope>)

  /** What a delete by revision answers and leaves, whatever the storage and the other processes do. */
  function RemovalOf(record: Option<Envelope>, fence: Option<Envelope>, revision: nat, at: DeleteWorld): Removal {
    var expected := Compared(record, fence, revision);
    if revision < 1 || !at.ready then Removal(DeleteFailed, record)
    else if expected.None? then Removal(if record.None? then Absent else Conflict, record)
    else
      var found := Settled(at.between, record);
      Removal(
        if !at.backend.Works? then DeleteFailed
        else if found.None? then Absent else if found == expected then Deleted else Conflict,
        if found == expected && !at.backend.FailsBefore? then None else found)
  }

  /** A removal only ever takes the record that carries the number, and with a fence only the envelope observed. */
  lemma RemovalOnlyDeletes(record: Option<Envelope>, fence: Option<Envelope>, revision: nat, at: DeleteWorld)
    ensures var removal := RemovalOf(record, fence, revision, at);
            var found := if removal.record == record then record else Settled(at.between, record);
            removal.record != found ==> removal.record.None? && Deletes(found, fence, revision)
    ensures at == DeleteWorld(true, Quiet, Works) && 1 <= revision ==>
              var removal := RemovalOf(record, fence, revision, at);
              && removal.record == (if Deletes(record, fence, revision) then None else record)
              && (removal.outcome.Conflict? <==> removal.record.Some?)
    ensures Takes(record, fence, revision, at) ==>
              && RemovalOf(record, fence, revision, at).record.None?
              && Deletes(Settled(at.between, record), fence, revision)
  {
  }

  // ----- whole calls

  /** What another task of this process did to the cached bearer while this one waited. */
  datatype InProcess = Same | Replaced(access: Option<Bearer>)

  function Landed(m: InProcess, b: Option<Bearer>): Option<Bearer> {
    if m.Replaced? then m.access else b
  }

  /** How a caller waits: cancelled before it starts, gone before the answer, and what other tasks did meanwhile. */
  datatype Wait = Wait(cancelled: bool, abandoned: bool, meanwhile: InProcess)

  /** Everything one sign-out meets, in order; `others` wrote between the acquisition and the vault's next turn. */
  datatype LogoutWorld = LogoutWorld(
    flight: Flight, wait: Wait, handover: InProcess, answer: LogoutAnswer, others: Others, during: InProcess,
    forget: Pass, removal: DeleteWorld)

  /**
   What a sign-out did. `sent` is the bearer whose token the request carried, `supplier` the bearer cached when the
   request left and `cached` the one cached when the answer came; `target` is the revision removed, `found` and `held`
   the record and the fence the removal or the forgetting started from. `landed`: what other tasks put into the cache
   had been supplied by the record.
   */
  datatype SignOutReport = SignOutReport(
    outcome: Result<(), AuthError>, sent: Option<Bearer>, supplier: Option<Bearer>, cached: Option<Bearer>,
    target: Option<nat>, found: Option<Envelope>, held: Option<Envelope>, landed: bool)

  /**
   The bearer whose revision a definitive answer removes: the one cached when it left, or after a refusal the one cached
   then.
   */
  function Spoken(w: LogoutWorld, sent: Bearer): Option<Bearer> {
    var supplier := Landed(w.handover, Some(sent));
    if w.answer.Revoked? then supplier else Landed(w.during, supplier)
  }

  predicate LogoutLicenses(clock: nat -> int, from: nat, to: nat, w: LogoutWorld, ch: Change) {
    || FlightLicenses(clock, from, to, w.flight, ch)
    || TaskLicenses(clock, from, to, Task(Forgetting, w.forget), ch)
    || WrittenBy(w.others, ch) || WrittenBy(w.removal.between, ch)
    || (ch.cause.ConfirmedLogout? && ch.cause.answer == w.answer)
  }

  /** What a part of the sign-out licensed, the whole of it does. */
  lemma LogoutLicenceWidens(clock: nat -> int, from: nat, to: nat, from': nat, to': nat, w: LogoutWorld, ch: Change)
    requires from' <= from && to <= to'
    ensures LogoutLicenses(clock, from, to, w, ch) ==> LogoutLicenses(clock, from', to', w, ch)
    ensures FlightLicenses(clock, from, to, w.flight, ch) ==>
              LogoutLicenses(clock, from', to', w, ch) && !ch.cause.ConfirmedLogout?
    ensures TaskLicenses(clock, from, to, Task(Forgetting, w.forget), ch) ==>
              LogoutLicenses(clock, from', to', w, ch) && !ch.cause.ConfirmedLogout?
    ensures WrittenBy(w.others, ch) ==> LogoutLicenses(clock, from', to', w, ch) && !ch.cause.ConfirmedLogout?
  {
    LicenceWidens(clock, from, to, from', to');
    RefreshesOnlyRefresh(clock, from, to);
    hide TaskLicenses, FlightLicenses;
  }

  lemma LogoutLicences(clock: nat -> int, from: nat, to: nat, w: LogoutWorld, ch: Change)
    ensures TaskLicenses(clock, from, to, Task(Forgetting, w.forget), ch) ==>
              LogoutLicenses(clock, from, to, w, ch) && !ch.cause.ConfirmedLogout?
    ensures WrittenBy(w.others, ch) || WrittenBy(w.removal.between, ch) ==>
              LogoutLicenses(clock, from, to, w, ch) && !ch.cause.ConfirmedLogout?
    ensures ch.cause.ConfirmedLogout? && ch.cause.answer == w.answer ==> LogoutLicenses(clock, from, to, w, ch)
  {
  }

  /** How a plain rotation went. */
  datatype RotateWorld = RotateWorld(ready: bool, between: Others, storedAt: int, backend: Backend)

  /**
   Everything one sign-in meets: the status check, the browser and exchange, the store, and, if it then fails, what
   other processes wrote in turn (`aftermath`) before its cleanup reads the record.
   */
  datatype LoginWorld = LoginWorld(
    cancelled: bool, ready: bool, checkedAt: int, others: Others, exchanged: bool, exchange: Exchange,
    loginCode: string, clientInstanceId: string, continuationId: string, state: string, codeVerifier: string,
    redirectUri: string, intent: Intent, observedAt: int, cancelledAfterExchange: bool, rotation: RotateWorld,
    cancelledAfterStore: bool, aftermath: seq<Option<Envelope>>, removal: DeleteWorld)

  /** The session a sign-in stores. */
  function SignedIn(x: Syntax, c: Config, w: LoginWorld): Session {
    Session(Some(Access(w.exchange.accessToken, w.exchange.accessExpiresAt, x.iso(w.observedAt))), c.baseUrl, c.profile,
            w.clientInstanceId, w.exchange.sessionId, w.loginCode, w.exchange.loginCodeExpiresAt, w.continuationId,
            w.state, w.codeVerifier, w.redirectUri, w.exchange.context, w.intent)
  }

  lemma SignInIsJustified(x: Syntax, c: Config, s: Session)
    requires ValidSession(x, s, c)
    ensures forall current ::
              RotationJustified(x, c, current, EncodeStored(s), x.instant(s.loginCodeExpiresAt), LoggedIn)
  {
    hide DecodeStored, EncodeStored;
    StoredRoundTrip(x, s, c);
  }

  /**
   The status check lets a sign-in go ahead: no record, an expired one, or any at all once this process found it gone.
   */
  predicate FreeToSignIn(record: Option<Envelope>, revoked: bool, checkedAt: int) {
    revoked || record.None? || (record.value.expiresAt.Some? && record.value.expiresAt.value <= checkedAt)
  }

  predicate AdmitsContext(w: LoginWorld) {
    if w.intent == Signup then SignupContext(w.exchange.context, false) else OnboardingReady(w.exchange.context)
  }

  /** A sign-up is stored while it waits for admission, any other sign-in once it is admitted to a workspace. */
  lemma AdmitsIff(w: LoginWorld)
    ensures var c := w.exchange.context;
            AdmitsContext(w) <==>
            && c.identity == ActiveIdentity
            && (w.intent == Signup ==> c.admission == Waitlisted && !c.workspace.isAssigned)
            && (w.intent != Signup ==> c.admission == Admitted && c.workspace.isAssigned)
  {
  }

  /** What a stored sign-in puts on the wire: the exchange's answer and the secrets it was obtained with. */
  lemma SignInOnTheWire(x: Syntax, c: Config, w: LoginWorld)
    ensures var f := EncodeStored(SignedIn(x, c, w)).fields;
            && f.Keys == SESSION_KEYS + ACCESS_KEYS
            && f[SessionIdKey] == JString(w.exchange.sessionId) && f[LoginCodeKey] == JString(w.loginCode)
            && f[LoginCodeExpiresAtKey] == JString(w.exchange.loginCodeExpiresAt)
            && f[ContinuationIdKey] == JString(w.continuationId) && f[StateKey] == JString(w.state)
            && f[CodeVerifierKey] == JString(w.codeVerifier) && f[RedirectUriKey] == JString(w.redirectUri)
            && f[ClientInstanceIdKey] == JString(w.clientInstanceId)
            && f[BaseUrlKey] == JString(c.baseUrl) && f[ProfileKey] == JString(c.profile)
            && f[ContextKey] == EncodeContext(w.exchange.context) && f[IntentClassKey] == JString(IntentText(w.intent))
            && f[AccessTokenKey] == JString(w.exchange.accessToken)
            && f[AccessExpiresAtKey] == JString(w.exchange.accessExpiresAt)
            && f[AccessObservedAtKey] == JString(x.iso(w.observedAt))
  {
    hide EncodeContext, IntentText;
    KeysOfEncoding(SignedIn(x, c, w));
    SessionFieldValues(SignedIn(x, c, w));
    hide SessionFields;
  }

  /** Everything a sign-in needs in order to store its session, the compare-and-swap included. */
  predicate Commits(x: Syntax, record: Option<Envelope>, revoked: bool, last: Option<int>, now: int, w: LoginWorld) {
    && !w.cancelled && w.ready && FreeToSignIn(record, revoked, w.checkedAt)
    && w.exchanged && !w.cancelledAfterExchange && Trusted(last, now) && AdmitsContext(w)
    && now < x.instant(w.exchange.loginCodeExpiresAt) && now < x.instant(w.exchange.accessExpiresAt)
    && w.rotation.ready && w.rotation.storedAt < x.instant(w.exchange.loginCodeExpiresAt)
    && !w.rotation.backend.FailsBefore?
    && var found := Settled(w.others, record); Settled(w.rotation.between, found) == found
  }

  /** Why a sign-in stops before the vault, if it does. */
  function Stops(x: Syntax, at: Start, now: int, w: LoginWorld): Option<AuthError> {
    if w.cancelled then Some(CancelledByCaller)
    else if !w.ready then Some(StoreUnavailable)
    else if !FreeToSignIn(at.record, at.revoked, w.checkedAt) then Some(AlreadySignedIn)
    else if !w.exchanged then Some(ContinuationFailed)
    else StopsAfterExchange(x, at.last, now, w)
  }

  function StopsAfterExchange(x: Syntax, last: Option<int>, now: int, w: LoginWorld): Option<AuthError> {
    if w.cancelledAfterExchange then Some(CancelledByCaller)
    else if !Trusted(last, now) then Some(ClockUntrusted)
    else if x.instant(w.exchange.loginCodeExpiresAt) <= now || x.instant(w.exchange.accessExpiresAt) <= now then
      Some(TokenExpired)
    else if !AdmitsContext(w) then Some(ContextRefused)
    else None
  }

  /** A sign-in stores its session exactly if nothing stops it before the vault and the swap goes through. */
  lemma CommitsIffNotStopped(x: Syntax, at: Start, now: int, w: LoginWorld)
    ensures CommitsFrom(x, at, now, w) <==>
            && Stops(x, at, now, w).None?
            && w.rotation.ready && w.rotation.storedAt < x.instant(w.exchange.loginCodeExpiresAt)
            && !w.rotation.backend.FailsBefore?
            && (w.rotation.between.Wrote? ==> w.rotation.between.record == Settled(w.others, at.record))
  {
  }

  /** The store confirmed the write, or it was read back unchanged after a lost acknowledgement. */
  predicate Acknowledged(b: Backend, written: Option<Envelope>) {
    b.Works? || (b.FailsAfter? && b.readable && Settled(b.next, written) == written)
  }

  /** The sign-in replaces a record that is there. */
  predicate Overwrites(x: Syntax, record: Option<Envelope>, revoked: bool, last: Option<int>, now: int, w: LoginWorld) {
    Commits(x, record, revoked, last, now, w) && Settled(w.others, record).Some?
  }

  /**
   Exactly when a sign-in that stores its session overwrites another: someone stored one after the status check, or the
   status check let it pass over a record because this process had found it gone before or because it had expired.
   */
  lemma OverwritesIff(x: Syntax, record: Option<Envelope>, revoked: bool, last: Option<int>, now: int, w: LoginWorld)
    ensures Overwrites(x, record, revoked, last, now, w) <==>
            && Commits(x, record, revoked, last, now, w)
            && (|| (w.others.Wrote? && w.others.record.Some?)
                || (w.others.Quiet? && record.Some? && revoked)
                || (&& w.others.Quiet? && record.Some?
                    && record.value.expiresAt.Some? && record.value.expiresAt.value <= w.checkedAt))
  {
  }

  /** How a call found the service: the record, whether this process had found it gone, and the time last observed. */
  datatype Start = Start(record: Option<Envelope>, revoked: bool, last: Option<int>)

  predicate CommitsFrom(x: Syntax, at: Start, now: int, w: LoginWorld) {
    Commits(x, at.record, at.revoked, at.last, now, w)
  }

  /** A failed sign-in may only take back a revision stored earlier in the same call. */
  predicate LoginLicenses(x: Syntax, c: Config, now: int, at: Start, w: LoginWorld, log: seq<Change>, lo: nat, i: nat)
    requires lo <= i < |log|
  {
    var ch := log[i];
    || WrittenBy(w.others, ch) || WrittenBy(w.rotation.between, ch) || WrittenAfter(w.rotation.backend, ch)
    || WrittenAmong(w.aftermath, ch) || WrittenBy(w.removal.between, ch)
    || (ch.cause.LoggedIn? && CommitsFrom(x, at, now, w) && StoresSignIn(x, c, w, ch))
    || (ch.cause.FailedLogin? && exists j | lo <= j < i :: StoredAs(log[j], ch.cause.revision))
  }

  predicate StoresSignIn(x: Syntax, c: Config, w: LoginWorld, ch: Change) {
    SessionIn(x, c, ch.after) == Some(SignedIn(x, c, w))
  }

  predicate StoredAs(ch: Change, revision: nat) {
    ch.cause.LoggedIn? && ch.after.Some? && ch.after.value.revision == revision
  }

  // ----- steps

  datatype Step =
    | Acquire(flight: Flight, wait: Wait)
    | Refuse(token: string, refuseFlight: Flight, refuseWait: Wait)
    | SignOut(logout: LogoutWorld)
    | SignIn(login: LoginWorld)
    | Outside(others: Others)

  /** What the decoders guarantee of the answers a step meets. */
  predicate ValidStep(x: Syntax, c: Config, step: Step) {
    match step
    case Acquire(f, _) => DecodedFlight(x, f)
    case Refuse(_, f, _) => DecodedFlight(x, f)
    case SignOut(w) => DecodedFlight(x, w.flight) && DecodedPass(x, w.forget)
    case SignIn(w) => w.exchanged ==> ValidSession(x, SignedIn(x, c, w), c)
    case Outside(_) => true
  }

  /** Change `i` of the log, made since `lo`, is licensed by what the step met. */
  predicate StepLicenses(x: Syntax, c: Config, clock: nat -> int, from: nat, to: nat, at: Start, step: Step,
                         log: seq<Change>, lo: nat, i: nat)
    requires lo <= i < |log|
  {
    match step
    case Acquire(f, _) => FlightLicenses(clock, from, to, f, log[i])
    case Refuse(token, f, _) => FlightLicenses(clock, from, to, f.(rejected := Some(token)), log[i])
    case SignOut(w) => LogoutLicenses(clock, from, to, w, log[i])
    case SignIn(w) => LoginLicenses(x, c, clock(from), at, w, log, lo, i)
    case Outside(o) => WrittenBy(o, log[i])
  }

  /** A licence looks no further than the change it licenses. */
  lemma LicenceStays(
    x: Syntax, c: Config, clock: nat -> int, from: nat, to: nat, at: Start, step: Step, log: seq<Change>,
    longer: seq<Change>, lo: nat, i: nat)
    requires log <= longer && lo <= i < |log| && StepLicenses(x, c, clock, from, to, at, step, log, lo, i)
    ensures StepLicenses(x, c, clock, from, to, at, step, longer, lo, i)
  {
    hide TaskLicenses, FlightLicenses, SessionIn, SignedIn, CommitsFrom;
  }

  /** One step of a run: how it found the service, and which part of the log and which clock readings fall into it. */
  datatype Segment = Segment(at: Start, step: Step, lo: nat, hi: nat, from: nat, to: nat)

  predicate SegmentLicensed(x: Syntax, c: Config, clock: nat -> int, first: Option<Envelope>, log: seq<Change>,
                            g: Segment) {
    && g.lo <= g.hi <= |log| && g.from <= g.to
    && g.at.record == RecordAt(first, log, g.lo) && (g.at.revoked ==> WasAbsent(first, log[..g.lo]))
    && forall i | g.lo <= i < g.hi :: StepLicenses(x, c, clock, g.from, g.to, g.at, g.step, log, g.lo, i)
  }

  /** Where the first `n` segments of a run that starts at `lo` end. */
  function EndOf(lo: nat, run: seq<Segment>, n: nat): nat
    requires n <= |run|
  {
    if n == 0 then lo else run[n - 1].hi
  }

  /**
   The log since `lo` falls into the segments of the run, and each of its changes is licensed by the step that made it.
   */
  predicate RunLicensed(
    x: Syntax, c: Config, clock: nat -> int, first: Option<Envelope>, log: seq<Change>, lo: nat, run: seq<Segment>)
  {
    && (forall s | 0 <= s < |run| :: run[s].lo == EndOf(lo, run, s) && SegmentLicensed(x, c, clock, first, log, run[s]))
    && EndOf(lo, run, |run|) == |log|
  }

  lemma SegmentStays(
    x: Syntax, c: Config, clock: nat -> int, first: Option<Envelope>, log: seq<Change>, longer: seq<Change>, g: Segment)
    requires log <= longer && SegmentLicensed(x, c, clock, first, log, g)
    ensures SegmentLicensed(x, c, clock, first, longer, g)
  {
    hide StepLicenses, WasAbsent;
    assert log[..g.lo] == longer[..g.lo];
    forall i | g.lo <= i < g.hi
      ensures StepLicenses(x, c, clock, g.from, g.to, g.at, g.step, longer, g.lo, i)
    {
      LicenceStays(x, c, clock, g.from, g.to, g.at, g.step, log, longer, g.lo, i);
    }
  }

  /** One more step. */
  lemma RunGrows(
    x: Syntax, c: Config, clock: nat -> int, first: Option<Envelope>, log: seq<Change>, longer: seq<Change>, lo: nat,
    run: seq<Segment>, g: Segment)
    requires log <= longer && RunLicensed(x, c, clock, first, log, lo, run)
    requires g.lo == |log| && g.hi == |longer| && SegmentLicensed(x, c, clock, first, longer, g)
    ensures RunLicensed(x, c, clock, first, longer, lo, run + [g])
  {
    hide SegmentLicensed;
    var grown := run + [g];
    forall s | 0 <= s < |grown|
      ensures grown[s].lo == EndOf(lo, grown, s) && SegmentLicensed(x, c, clock, first, longer, grown[s])
    {
      assert s > 0 ==> grown[s - 1] == run[s - 1];
      if s < |run| {
        assert run[s].lo == EndOf(lo, run, s);
        SegmentStays(x, c, clock, first, log, longer, run[s]);
      }
    }
  }
}
