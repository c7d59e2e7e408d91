/**
 What a call for a bearer answers, as a function of the clock, the record and what the vault, the server and other
 processes bring; and the exact conditions, read off that world, under which it hands out which token.
 */
module Acquisition {
  import opened Options
  import opened Json
  import opened StoredSession
  import opened SessionWorld

  /** The service between two actions: the next tick of its clock, the time it last accepted, and the record. */
  datatype Moment = Moment(tick: nat, last: Option<int>, record: Option<Envelope>)

  // ----- one callback

  datatype Called = Called(decision: Decision, captured: Option<Captured>, tick: nat, last: Option<int>)

  function CapturedFrom(x: Syntax, s: Session): Option<Captured> {
    if s.access.None? then None
    else Some(Captured(s.access.value.token, x.instant(s.access.value.expiresAt), s.sessionId))
  }

  function Exchanging(
    x: Syntax, c: Config, clock: nat -> int, m: Moment, rejected: Option<string>, outcome: ExchangeOutcome): Called
  {
    var s := SessionIn(x, c, m.record);
    var t0, t1, t2 := clock(m.tick), clock(m.tick + 1), clock(m.tick + 2);
    if m.record.None? then Called(Missing, None, m.tick, m.last)
    else if s.None? then Called(Threw, None, m.tick, m.last)
    else if !Trusted(m.last, t0) then Called(Threw, None, m.tick + 1, m.last)
    else if x.instant(s.value.loginCodeExpiresAt) <= t0 then
      Called(Reject(LocalExpired, LocalExpiry(t0)), None, m.tick + 1, Some(t0))
    else if !Trusted(Some(t0), t1) then Called(Threw, None, m.tick + 2, Some(t0))
    else if Reusable(x, s.value, t1, rejected) then
      Called(Retain, CapturedFrom(x, s.value), m.tick + 2, Some(t1))
    else match outcome
      case ExchangeFailed(failure) =>
        var d := if AuthoritativePair(failure) then Reject(AuthoritativeRemote, RemoteRejection(failure)) else Threw;
        Called(d, None, m.tick + 2, Some(t1))
      case Exchanged(e) =>
        if !Trusted(Some(t1), t2) then Called(Threw, None, m.tick + 3, Some(t1))
        else if !Continues(x, s.value, e, t2) then
          Called(Reject(LocalIntegrity, IntegrityMismatch(e, t2)), None, m.tick + 3, Some(t2))
        else
          Called(
            Rotate(EncodeStored(WithBearer(x, s.value, e, t2)), x.instant(s.value.loginCodeExpiresAt),
                   Reexchanged(e, t2)),
            CapturedFrom(x, WithBearer(x, s.value, e, t2)), m.tick + 3, Some(t2))
  }

  function Forget(x: Syntax, c: Config, record: Option<Envelope>): Decision {
    var s := SessionIn(x, c, record);
    if record.None? then Retain
    else if s.None? then Threw
    else if s.value.access.None? then Retain
    else Rotate(EncodeStored(s.value.(access := None)), x.instant(s.value.loginCodeExpiresAt), Forgotten)
  }

  function CalledFor(x: Syntax, c: Config, clock: nat -> int, m: Moment, t: Task): Called {
    match Running(t)
    case Reexchanging(rejected) => Exchanging(x, c, clock, m, rejected, t.pass.outcome)
    case Forgetting => Called(Forget(x, c, m.record), None, m.tick, m.last)
  }

  // ----- when the callback does what

  /** The record is readable and its login code unexpired at the next reading. */
  predicate Unexpired(x: Syntax, c: Config, clock: nat -> int, m: Moment) {
    && SessionIn(x, c, m.record).Some? && Trusted(m.last, clock(m.tick))
    && clock(m.tick) < x.instant(SessionIn(x, c, m.record).value.loginCodeExpiresAt)
  }

  /** ... or it is readable and its login code has expired by then. */
  predicate Expired(x: Syntax, c: Config, clock: nat -> int, m: Moment) {
    && SessionIn(x, c, m.record).Some? && Trusted(m.last, clock(m.tick))
    && x.instant(SessionIn(x, c, m.record).value.loginCodeExpiresAt) <= clock(m.tick)
  }

  /** The stored bearer is reusable at the reading after that. */
  predicate Keeps(x: Syntax, c: Config, clock: nat -> int, m: Moment, rejected: Option<string>) {
    && Unexpired(x, c, clock, m) && Trusted(Some(clock(m.tick)), clock(m.tick + 1))
    && Reusable(x, SessionIn(x, c, m.record).value, clock(m.tick + 1), rejected)
  }

  /** The server is asked: two trusted readings, an unexpired login code, and no bearer to reuse. */
  predicate Asks(x: Syntax, c: Config, clock: nat -> int, m: Moment, rejected: Option<string>) {
    && Unexpired(x, c, clock, m) && Trusted(Some(clock(m.tick)), clock(m.tick + 1))
    && !Reusable(x, SessionIn(x, c, m.record).value, clock(m.tick + 1), rejected)
  }

  /** ... and answers, by a third trusted reading. */
  predicate Answered(
    x: Syntax, c: Config, clock: nat -> int, m: Moment, rejected: Option<string>, outcome: ExchangeOutcome)
  {
    Asks(x, c, clock, m, rejected) && outcome.Exchanged? && Trusted(Some(clock(m.tick + 1)), clock(m.tick + 2))
  }

  predicate Buys(
    x: Syntax, c: Config, clock: nat -> int, m: Moment, rejected: Option<string>, outcome: ExchangeOutcome)
  {
    && Answered(x, c, clock, m, rejected, outcome)
    && Continues(x, SessionIn(x, c, m.record).value, outcome.exchange, clock(m.tick + 2))
  }

  /** Each decision of the re-exchange callback has its exact condition. */
  lemma DecisionIff(
    x: Syntax, c: Config, clock: nat -> int, m: Moment, rejected: Option<string>, outcome: ExchangeOutcome)
    ensures var d := Exchanging(x, c, clock, m, rejected, outcome).decision;
            && (d.Missing? <==> m.record.None?)
            && (d.Reject? && d.reason.LocalExpired? <==> Expired(x, c, clock, m))
            && (d.Retain? <==> Keeps(x, c, clock, m, rejected))
            && (d.Reject? && d.reason.AuthoritativeRemote? <==>
                  Asks(x, c, clock, m, rejected) && outcome.ExchangeFailed? && AuthoritativePair(outcome.failure))
            && (d.Rotate? <==> Buys(x, c, clock, m, rejected, outcome))
            && (d.Reject? && d.reason.LocalIntegrity? <==>
                  && Answered(x, c, clock, m, rejected, outcome)
                  && !Continues(x, SessionIn(x, c, m.record).value, outcome.exchange, clock(m.tick + 2)))
  {
    hide DecodeStored, Reusable, Continues, AuthoritativePair, EncodeStored;
  }

  // ----- what the vault makes of a decision

  datatype Kept = Kept(result: Result<Envelope, VaultError>, record: Option<Envelope>)

  /** The vault acts on the decision about `current` when it finds `found`. */
  function Vaulted(current: Option<Envelope>, d: Decision, found: Option<Envelope>, storedAt: int, b: Backend): Kept {
    match d
    case Threw => Kept(Err(RefreshFailed), found)
    case Missing => Kept(Err(if current.Some? then RefreshFailed else CredentialMissing), found)
    case Reject(reason, _) =>
      if current.None? then Kept(Err(RefreshFailed), found)
      else if b.FailsBefore? then Kept(Err(BackendFailure), found)
      else
        var left := if found == current then None else found;
        Kept(Err(if b.FailsAfter? then BackendFailure else if left.Some? then RevisionConflict
                 else CredentialRevoked(reason)), left)
    case Retain => Kept(if current.Some? then Ok(current.value) else Err(RefreshFailed), found)
    case Rotate(payload, expiresAt, _) =>
      var next := Envelope(NextRevision(current), storedAt, Some(expiresAt), payload);
      if expiresAt <= storedAt then Kept(Err(EnvelopeInvalid), found)
      else if b.FailsBefore? then Kept(Err(BackendFailure), found)
      else if found != current then Kept(Err(RevisionConflict), found)
      else if b.FailsAfter? then
        var read := Settled(b.next, Some(next));
        Kept(if b.readable && read == Some(next) then Ok(next) else Err(BackendFailure), read)
      else Kept(Ok(next), Some(next))
  }

  /** When the vault reports a conflict or a failing store, and what can happen to the record it finds. */
  lemma VaultedIff(current: Option<Envelope>, d: Decision, found: Option<Envelope>, storedAt: int, b: Backend)
    ensures var kept := Vaulted(current, d, found, storedAt, b);
            var removes, writes := d.Reject? && current.Some?, d.Rotate? && storedAt < d.expiresAt;
            && (kept.result == Err(RevisionConflict) <==>
                  || (removes && b.Works? && found.Some? && found != current)
                  || (writes && !b.FailsBefore? && found != current))
            && (kept.result == Err(BackendFailure) <==>
                  || (removes && !b.Works?) || (writes && b.FailsBefore?)
                  || (&& writes && b.FailsAfter? && found == current
                      && !(b.readable && kept.record == Written(d, current, storedAt))))
            && (kept.record != found ==> found == current && !b.FailsBefore? && (removes || writes))
            && (removes && found == current && !b.FailsBefore? ==> kept.record.None?)
            && (writes && found == current && b.Works? ==> kept.record == Written(d, current, storedAt))
  {
  }

  /** The envelope a rotation asks the vault to write. */
  function Written(d: Decision, current: Option<Envelope>, storedAt: int): Option<Envelope>
    requires d.Rotate?
  {
    Some(Envelope(NextRevision(current), storedAt, Some(d.expiresAt), d.payload))
  }

  datatype Refreshed = Refreshed(result: Result<Envelope, VaultError>, captured: Option<Captured>, next: Moment)

  function RefreshOf(x: Syntax, c: Config, clock: nat -> int, m: Moment, t: Task): Refreshed {
    if !t.pass.ready then Refreshed(Err(VaultUnavailable), None, m)
    else
      var called := CalledFor(x, c, clock, m, t);
      var found := Settled(t.pass.others, m.record);
      var kept := Vaulted(m.record, called.decision, found, t.pass.storedAt, t.pass.backend);
      Refreshed(kept.result, if t.pass.joined.Some? then None else called.captured,
                Moment(called.tick, called.last, kept.record))
  }

  /** The store takes the rewrite `next` of `record`: nobody wrote in between, and the write is acknowledged or seen. */
  predicate Writes(p: Pass, record: Option<Envelope>, next: Envelope) {
    && (next.expiresAt.Some? ==> next.storedAt < next.expiresAt.value)
    && Settled(p.others, record) == record && !p.backend.FailsBefore?
    && (p.backend.FailsAfter? ==> p.backend.readable && Settled(p.backend.next, Some(next)) == Some(next))
  }

  /** The rewritten record: one revision on, under the login code's expiry, with this bearer. */
  function Rewritten(x: Syntax, e: Envelope, s: Session, access: Option<Access>, storedAt: int): Envelope {
    Envelope(e.revision + 1, storedAt, Some(x.instant(s.loginCodeExpiresAt)), EncodeStored(s.(access := access)))
  }

  function Exchanges(x: Syntax, e: Exchange, now: int): Access {
    Access(e.accessToken, e.accessExpiresAt, x.iso(now))
  }

  /** Exactly when a refresh that re-exchanges returns a record, and which: the one it kept or the one it wrote. */
  lemma ReexchangeReturnsIff(x: Syntax, c: Config, clock: nat -> int, m: Moment, t: Task, e: Envelope)
    requires Running(t).Reexchanging?
    ensures RefreshOf(x, c, clock, m, t).result == Ok(e) <==>
            && t.pass.ready
            && (|| (Keeps(x, c, clock, m, Running(t).rejected) && m.record == Some(e))
                || (&& Buys(x, c, clock, m, Running(t).rejected, t.pass.outcome)
                    && var s, now := SessionIn(x, c, m.record).value, clock(m.tick + 2);
                       && e == Rewritten(x, m.record.value, s, Some(Exchanges(x, t.pass.outcome.exchange, now)),
                                         t.pass.storedAt)
                       && Writes(t.pass, m.record, e)))
  {
    hide DecodeStored, EncodeStored, Continues, Reusable, AuthoritativePair;
    DecisionIff(x, c, clock, m, Running(t).rejected, t.pass.outcome);
  }

  /** The same for a refresh that forgets the bearer: a record without one is kept, any other rewritten. */
  lemma ForgettingReturnsIff(x: Syntax, c: Config, clock: nat -> int, m: Moment, t: Task, e: Envelope)
    requires Running(t).Forgetting?
    ensures RefreshOf(x, c, clock, m, t).result == Ok(e) <==>
            && t.pass.ready && SessionIn(x, c, m.record).Some?
            && var s := SessionIn(x, c, m.record).value;
               if s.access.None? then m.record == Some(e)
               else e == Rewritten(x, m.record.value, s, None, t.pass.storedAt) && Writes(t.pass, m.record, e)
  {
    hide DecodeStored, EncodeStored;
  }

  /** The store acknowledges the removal of `record`, whose place nobody else took. */
  predicate Removes(p: Pass, record: Option<Envelope>) {
    p.ready && p.backend.Works? && (Settled(p.others, record).None? || Settled(p.others, record) == record)
  }

  /** Why a refresh that re-exchanges fails, and that a revoked record is gone. */
  lemma ReexchangeFailsIff(x: Syntax, c: Config, clock: nat -> int, m: Moment, t: Task)
    requires Running(t).Reexchanging?
    ensures var r, rejected, outcome := RefreshOf(x, c, clock, m, t), Running(t).rejected, t.pass.outcome;
            var removed := Removes(t.pass, m.record);
            && (r.result == Err(VaultUnavailable) <==> !t.pass.ready)
            && (r.result == Err(CredentialMissing) <==> t.pass.ready && m.record.None?)
            && (r.result == Err(CredentialRevoked(LocalExpired)) <==>
                  removed && Expired(x, c, clock, m))
            && (r.result == Err(CredentialRevoked(AuthoritativeRemote)) <==>
                  && removed && Asks(x, c, clock, m, rejected) && outcome.ExchangeFailed?
                  && AuthoritativePair(outcome.failure))
            && (r.result == Err(CredentialRevoked(LocalIntegrity)) <==>
                  && removed && Answered(x, c, clock, m, rejected, outcome)
                  && !Continues(x, SessionIn(x, c, m.record).value, outcome.exchange, clock(m.tick + 2)))
            && (r.result.Err? && r.result.error.CredentialRevoked? ==> r.next.record.None?)
  {
    hide DecodeStored, EncodeStored, Continues, Reusable, AuthoritativePair;
    DecisionIff(x, c, clock, m, Running(t).rejected, t.pass.outcome);
  }

  // ----- one attempt and the whole flight

  datatype Attempted = Attempted(result: Result<Option<Bearer>, AuthError>, next: Moment)

  function AttemptOf(
    x: Syntax, c: Config, clock: nat -> int, m: Moment, rejected: Option<string>, p: Pass): Attempted
  {
    var r := RefreshOf(x, c, clock, m, Task(Reexchanging(rejected), p));
    match r.result
    case Err(e) => Attempted(Err(ToAuthError(e)), r.next)
    case Ok(snapshot) =>
      if r.captured.Some? then Attempted(Holding(r.captured.value, snapshot), r.next)
      else Admitting(x, c, clock, r.next, rejected, snapshot)
  }

  function Holding(captured: Captured, snapshot: Envelope): Result<Option<Bearer>, AuthError> {
    if snapshot.revision < 1 then Err(ReexchangeUnknown) else Ok(Some(BearerOf(captured, snapshot.revision)))
  }

  /** A caller that joined another's flight admits the bearer of the record that flight returned. */
  function Admitting(
    x: Syntax, c: Config, clock: nat -> int, m: Moment, rejected: Option<string>, snapshot: Envelope): Attempted
  {
    var s, t0, t1 := SessionIn(x, c, Some(snapshot)), clock(m.tick), clock(m.tick + 1);
    if s.None? then Attempted(Err(SessionCorrupt), m)
    else if !Trusted(m.last, t0) then Attempted(Err(ClockUntrusted), m.(tick := m.tick + 1))
    else if !Trusted(Some(t0), t1) then Attempted(Err(ClockUntrusted), m.(tick := m.tick + 2, last := Some(t0)))
    else
      var next := m.(tick := m.tick + 2, last := Some(t1));
      if x.instant(s.value.loginCodeExpiresAt) <= t1 || !Reusable(x, s.value, t0, rejected) then
        Attempted(Ok(None), next)
      else Attempted(Holding(CapturedFrom(x, s.value).value, snapshot), next)
  }

  /** What a flight installs or why it fails, how many refreshes it took, and where it leaves the service. */
  datatype Flown = Flown(result: Result<Bearer, AuthError>, passes: nat, next: Moment)

  function Installing(a: Attempted, passes: nat): Flown {
    match a.result
    case Err(e) => Flown(Err(e), passes, a.next)
    case Ok(b) => Flown(if b.Some? then Ok(b.value) else Err(ReexchangeUnknown), passes, a.next)
  }

  function FlightOf(x: Syntax, c: Config, clock: nat -> int, m: Moment, f: Flight): Flown {
    var first := AttemptOf(x, c, clock, m, f.rejected, f.first);
    if first.result == Ok(None) then
      Installing(AttemptOf(x, c, clock, Meantime(first.next, f.between), f.rejected, f.second), 2)
    else Installing(first, 1)
  }

  /** Other processes have their turn. */
  function Meantime(m: Moment, o: Others): Moment {
    m.(record := Settled(o, m.record))
  }

  // ----- the three calls, for a caller that waits and a cache no other task replaces

  /** The token of a bearer with more than the floor left at the next reading. */
  function HandOver(clock: nat -> int, m: Moment, b: Bearer): Result<string, AuthError> {
    if !Trusted(m.last, clock(m.tick)) then Err(ClockUntrusted)
    else if b.expiresAt - clock(m.tick) <= ACCESS_FLOOR_MS then Err(ReexchangeUnknown)
    else Ok(b.token)
  }

  function DeliveryOf(x: Syntax, c: Config, clock: nat -> int, m: Moment, f: Flight): Result<string, AuthError> {
    var flown := FlightOf(x, c, clock, m, f);
    if flown.result.Err? then Err(flown.result.error) else HandOver(clock, flown.next, flown.result.value)
  }

  /** The moment after one more reading, if it was trusted. */
  function Later(clock: nat -> int, m: Moment): Moment {
    m.(tick := m.tick + 1, last := if Trusted(m.last, clock(m.tick)) then Some(clock(m.tick)) else m.last)
  }

  function AcquireOf(
    x: Syntax, c: Config, clock: nat -> int, m: Moment, cached: Option<Bearer>, f: Flight): Result<string, AuthError>
  {
    if cached.None? then DeliveryOf(x, c, clock, m, f)
    else if !Trusted(m.last, clock(m.tick)) then Err(ClockUntrusted)
    else if cached.value.expiresAt - clock(m.tick) > ACCESS_FLOOR_MS then
      HandOver(clock, Later(clock, m), cached.value)
    else DeliveryOf(x, c, clock, Later(clock, m), f)
  }

  function RenewOf(
    x: Syntax, c: Config, clock: nat -> int, m: Moment, cached: Option<Bearer>, rejected: string,
    f: Flight): Result<string, AuthError>
  {
    var flight := f.(rejected := Some(rejected));
    if !x.isAccessToken(rejected) then Err(ReexchangeUnknown)
    else if cached.None? || cached.value.token == rejected then DeliveryOf(x, c, clock, m, flight)
    else if !Trusted(m.last, clock(m.tick)) then Err(ClockUntrusted)
    else if cached.value.expiresAt - clock(m.tick) > ACCESS_FLOOR_MS then Ok(cached.value.token)
    else DeliveryOf(x, c, clock, Later(clock, m), flight)
  }

  // ----- exactly when which token is handed out

  /** More than half a minute is left of the expiry at this reading, which is trusted after the one before. */
  predicate LivesAt(before: Option<int>, now: int, expiresAt: int) {
    Trusted(before, now) && now + 30_000 < expiresAt
  }

  /** The record keeps its bearer, under a revision the service can name. */
  predicate FromStore(x: Syntax, c: Config, clock: nat -> int, m: Moment, rejected: Option<string>, p: Pass) {
    p.ready && Keeps(x, c, clock, m, rejected) && m.record.value.revision >= 1
  }

  function StoredBearer(x: Syntax, c: Config, e: Envelope): Bearer
    requires SessionIn(x, c, Some(e)).Some? && SessionIn(x, c, Some(e)).value.access.Some?
  {
    var s := SessionIn(x, c, Some(e)).value;
    Bearer(s.access.value.token, x.instant(s.access.value.expiresAt), s.sessionId, e.revision)
  }

  /** A new bearer is bought and stored. */
  predicate FromServer(x: Syntax, c: Config, clock: nat -> int, m: Moment, rejected: Option<string>, p: Pass) {
    && p.ready && Buys(x, c, clock, m, rejected, p.outcome)
    && var s, access := SessionIn(x, c, m.record).value, Exchanges(x, p.outcome.exchange, clock(m.tick + 2));
       Writes(p, m.record, Rewritten(x, m.record.value, s, Some(access), p.storedAt))
  }

  function BoughtBearer(x: Syntax, e: Exchange, current: Envelope): Bearer {
    Bearer(e.accessToken, x.instant(e.accessExpiresAt), e.sessionId, current.revision + 1)
  }

  /** The stored bearer is kept, and lives at the reading after the two that kept it. */
  predicate GivesStored(
    x: Syntax, c: Config, clock: nat -> int, m: Moment, rejected: Option<string>, p: Pass, token: string)
  {
    && FromStore(x, c, clock, m, rejected, p)
    && var b := StoredBearer(x, c, m.record.value);
       token == b.token && LivesAt(Some(clock(m.tick + 1)), clock(m.tick + 2), b.expiresAt)
  }

  /** A new bearer is bought and stored, and lives at the reading after the three that bought it. */
  predicate GivesExchanged(
    x: Syntax, c: Config, clock: nat -> int, m: Moment, rejected: Option<string>, p: Pass, token: string)
  {
    && FromServer(x, c, clock, m, rejected, p) && token == p.outcome.exchange.accessToken
    && LivesAt(Some(clock(m.tick + 2)), clock(m.tick + 3), x.instant(p.outcome.exchange.accessExpiresAt))
  }

  /** The record another's flight returned is readable at two more trusted readings. */
  predicate Joins(x: Syntax, c: Config, clock: nat -> int, m: Moment, rejected: Option<string>, p: Pass) {
    var r := RefreshOf(x, c, clock, m, Task(Reexchanging(rejected), p));
    && p.joined.Some? && r.result.Ok? && SessionIn(x, c, Some(r.result.value)).Some?
    && Trusted(r.next.last, clock(r.next.tick)) && Trusted(Some(clock(r.next.tick)), clock(r.next.tick + 1))
  }

  /** ... and its bearer is one this caller may use. */
  predicate JoinsUsable(x: Syntax, c: Config, clock: nat -> int, m: Moment, rejected: Option<string>, p: Pass) {
    && Joins(x, c, clock, m, rejected, p)
    && var r := RefreshOf(x, c, clock, m, Task(Reexchanging(rejected), p));
       var s := SessionIn(x, c, Some(r.result.value)).value;
       Reusable(x, s, clock(r.next.tick), rejected) && clock(r.next.tick + 1) < x.instant(s.loginCodeExpiresAt)
  }

  predicate FromFlight(x: Syntax, c: Config, clock: nat -> int, m: Moment, rejected: Option<string>, p: Pass) {
    && JoinsUsable(x, c, clock, m, rejected, p)
    && RefreshOf(x, c, clock, m, Task(Reexchanging(rejected), p)).result.value.revision >= 1
  }

  predicate GivesJoined(
    x: Syntax, c: Config, clock: nat -> int, m: Moment, rejected: Option<string>, p: Pass, token: string)
  {
    && FromFlight(x, c, clock, m, rejected, p)
    && var r := RefreshOf(x, c, clock, m, Task(Reexchanging(rejected), p));
       var b := StoredBearer(x, c, r.result.value);
       token == b.token && LivesAt(Some(clock(r.next.tick + 1)), clock(r.next.tick + 2), b.expiresAt)
  }

  /** One attempt brings this token. */
  predicate Gives(
    x: Syntax, c: Config, clock: nat -> int, m: Moment, rejected: Option<string>, p: Pass, token: string)
  {
    if p.joined.Some? then GivesJoined(x, c, clock, m, rejected, p, token)
    else GivesStored(x, c, clock, m, rejected, p, token) || GivesExchanged(x, c, clock, m, rejected, p, token)
  }

  /** A joined flight returned a record with nothing this caller may use. */
  predicate BringsNothing(x: Syntax, c: Config, clock: nat -> int, m: Moment, rejected: Option<string>, p: Pass) {
    Joins(x, c, clock, m, rejected, p) && !JoinsUsable(x, c, clock, m, rejected, p)
  }

  /** Where such a flight leaves the service: two readings on. */
  function AfterNothing(x: Syntax, c: Config, clock: nat -> int, m: Moment, rejected: Option<string>, p: Pass): Moment {
    var next := RefreshOf(x, c, clock, m, Task(Reexchanging(rejected), p)).next;
    Moment(next.tick + 2, Some(clock(next.tick + 1)), next.record)
  }

  /** The flight brings this token: at its first attempt, or at the second after a joined first that brought nothing. */
  predicate Delivers(x: Syntax, c: Config, clock: nat -> int, m: Moment, f: Flight, token: string) {
    || Gives(x, c, clock, m, f.rejected, f.first, token)
    || (&& BringsNothing(x, c, clock, m, f.rejected, f.first)
        && Gives(x, c, clock, Meantime(AfterNothing(x, c, clock, m, f.rejected, f.first), f.between), f.rejected,
                 f.second, token))
  }

  /** One attempt of one's own never comes back empty-handed without an error. */
  lemma OwnAttempt(
    x: Syntax, c: Config, clock: nat -> int, m: Moment, rejected: Option<string>, p: Pass, token: string)
    requires p.joined.None?
    ensures var a := AttemptOf(x, c, clock, m, rejected, p);
            && a.result != Ok(None)
            && (DeliversFrom(clock, a, token) <==> Gives(x, c, clock, m, rejected, p, token))
  {
    hide DecodeStored, EncodeStored, Continues, AuthoritativePair, Trusted;
  }

  lemma JoinedAttempt(
    x: Syntax, c: Config, clock: nat -> int, m: Moment, rejected: Option<string>, p: Pass, token: string)
    requires p.joined.Some?
    ensures var a := AttemptOf(x, c, clock, m, rejected, p);
            && (a.result == Ok(None) <==> BringsNothing(x, c, clock, m, rejected, p))
            && (a.result == Ok(None) ==> a.next == AfterNothing(x, c, clock, m, rejected, p))
            && (DeliversFrom(clock, a, token) <==> Gives(x, c, clock, m, rejected, p, token))
  {
    hide DecodeStored, CalledFor, Vaulted, Trusted;
  }

  /** The attempt ended with a bearer that is handed over at the next reading. */
  predicate DeliversFrom(clock: nat -> int, a: Attempted, token: string) {
    a.result.Ok? && a.result.value.Some? && HandOver(clock, a.next, a.result.value.value) == Ok(token)
  }

  /** Exactly when a flight ends with this token in the caller's hands. */
  lemma DeliveredIff(x: Syntax, c: Config, clock: nat -> int, m: Moment, f: Flight, token: string)
    ensures DeliveryOf(x, c, clock, m, f) == Ok(token) <==> Delivers(x, c, clock, m, f, token)
  {
    hide AttemptOf, Gives, BringsNothing, AfterNothing, HandOver;
    AttemptDelivers(x, c, clock, m, f.rejected, f.first, token);
    var next := Meantime(AfterNothing(x, c, clock, m, f.rejected, f.first), f.between);
    AttemptDelivers(x, c, clock, next, f.rejected, f.second, token);
  }

  lemma AttemptDelivers(
    x: Syntax, c: Config, clock: nat -> int, m: Moment, rejected: Option<string>, p: Pass, token: string)
    ensures var a := AttemptOf(x, c, clock, m, rejected, p);
            && (a.result == Ok(None) <==> BringsNothing(x, c, clock, m, rejected, p))
            && (a.result == Ok(None) ==> a.next == AfterNothing(x, c, clock, m, rejected, p))
            && (DeliversFrom(clock, a, token) <==> Gives(x, c, clock, m, rejected, p, token))
  {
    hide AttemptOf, Gives, DeliversFrom, AfterNothing, RefreshOf;
    if p.joined.Some? {
      JoinedAttempt(x, c, clock, m, rejected, p, token);
    } else {
      OwnAttempt(x, c, clock, m, rejected, p, token);
    }
  }

  /** One attempt ends with this bearer: the stored one, the one bought, or that of a joined flight's record. */
  predicate Yields(x: Syntax, c: Config, clock: nat -> int, m: Moment, rejected: Option<string>, p: Pass, b: Bearer) {
    if p.joined.Some? then
      && FromFlight(x, c, clock, m, rejected, p)
      && b == StoredBearer(x, c, RefreshOf(x, c, clock, m, Task(Reexchanging(rejected), p)).result.value)
    else
      || (FromStore(x, c, clock, m, rejected, p) && b == StoredBearer(x, c, m.record.value))
      || (FromServer(x, c, clock, m, rejected, p) && b == BoughtBearer(x, p.outcome.exchange, m.record.value))
  }

  lemma AttemptYields(
    x: Syntax, c: Config, clock: nat -> int, m: Moment, rejected: Option<string>, p: Pass, b: Bearer)
    ensures AttemptOf(x, c, clock, m, rejected, p).result == Ok(Some(b)) <==> Yields(x, c, clock, m, rejected, p, b)
  {
    hide DecodeStored, EncodeStored, Trusted, AdvancesSignup, AuthoritativePair;
    if p.joined.Some? {
      hide CalledFor, Vaulted;
    }
  }

  /** The flight installs this bearer: from its first attempt, or from the second after a joined first in vain. */
  predicate Installs(x: Syntax, c: Config, clock: nat -> int, m: Moment, f: Flight, b: Bearer) {
    || Yields(x, c, clock, m, f.rejected, f.first, b)
    || (&& BringsNothing(x, c, clock, m, f.rejected, f.first)
        && Yields(x, c, clock, Meantime(AfterNothing(x, c, clock, m, f.rejected, f.first), f.between), f.rejected,
                  f.second, b))
  }

  /** Exactly which bearer a flight installs, and that only a joined refresh in vain is followed by another. */
  lemma InstalledIff(x: Syntax, c: Config, clock: nat -> int, m: Moment, f: Flight, b: Bearer)
    ensures var flown := FlightOf(x, c, clock, m, f);
            && (flown.passes == 2 <==> BringsNothing(x, c, clock, m, f.rejected, f.first))
            && (flown.result == Ok(b) <==> Installs(x, c, clock, m, f, b))
  {
    hide AttemptOf, Gives, BringsNothing, AfterNothing, HandOver, Yields;
    AttemptDelivers(x, c, clock, m, f.rejected, f.first, "");
    AttemptYields(x, c, clock, m, f.rejected, f.first, b);
    var next := Meantime(AfterNothing(x, c, clock, m, f.rejected, f.first), f.between);
    AttemptYields(x, c, clock, next, f.rejected, f.second, b);
  }

  /** Why a flight of one's own sends the user to sign in, and that a rejected session is gone then. */
  lemma OwnFlightFails(x: Syntax, c: Config, clock: nat -> int, m: Moment, f: Flight)
    requires f.first.joined.None?
    ensures var flown, outcome := FlightOf(x, c, clock, m, f), f.first.outcome;
            var removed := Removes(f.first, m.record);
            && (flown.result == Err(SignInRequired) <==> f.first.ready && m.record.None?)
            && (flown.result == Err(ReauthenticationRequired(true)) <==>
                  && removed && Asks(x, c, clock, m, f.rejected) && outcome.ExchangeFailed?
                  && AuthoritativePair(outcome.failure))
            && (flown.result == Err(ReauthenticationRequired(false)) <==>
                  && removed
                  && (|| Expired(x, c, clock, m)
                      || (&& Answered(x, c, clock, m, f.rejected, outcome)
                          && !Continues(x, SessionIn(x, c, m.record).value, outcome.exchange, clock(m.tick + 2)))))
            && (flown.result.Err? && flown.result.error.ReauthenticationRequired? ==> flown.next.record.None?)
  {
    hide RefreshOf, Asks, Answered, Continues, AuthoritativePair, Expired, Removes, SessionIn;
    OwnAttempt(x, c, clock, m, f.rejected, f.first, "");
    ReexchangeFailsIff(x, c, clock, m, FirstTask(f));
  }

  // ----- the two calls

  /** The cached token while it lives, or a delivered one. */
  predicate Acquires(
    x: Syntax, c: Config, clock: nat -> int, m: Moment, cached: Option<Bearer>, f: Flight, token: string)
  {
    if cached.None? then Delivers(x, c, clock, m, f, token)
    else if LivesAt(m.last, clock(m.tick), cached.value.expiresAt) then
      token == cached.value.token && LivesAt(Some(clock(m.tick)), clock(m.tick + 1), cached.value.expiresAt)
    else Trusted(m.last, clock(m.tick)) && Delivers(x, c, clock, Later(clock, m), f, token)
  }

  /** Exactly when `acquireAccessToken` answers with this token. */
  lemma AcquiredIff(
    x: Syntax, c: Config, clock: nat -> int, m: Moment, cached: Option<Bearer>, f: Flight, token: string)
    ensures AcquireOf(x, c, clock, m, cached, f) == Ok(token) <==> Acquires(x, c, clock, m, cached, f, token)
  {
    hide DeliveryOf, Delivers;
    DeliveredIff(x, c, clock, m, f, token);
    DeliveredIff(x, c, clock, Later(clock, m), f, token);
  }

  /** Another cached token while it lives, or one delivered by a flight that knows of the refusal. */
  predicate Renews(
    x: Syntax, c: Config, clock: nat -> int, m: Moment, cached: Option<Bearer>, rejected: string, f: Flight,
    token: string)
  {
    var flight := f.(rejected := Some(rejected));
    && x.isAccessToken(rejected)
    && if cached.None? || cached.value.token == rejected then Delivers(x, c, clock, m, flight, token)
       else if LivesAt(m.last, clock(m.tick), cached.value.expiresAt) then token == cached.value.token
       else Trusted(m.last, clock(m.tick)) && Delivers(x, c, clock, Later(clock, m), flight, token)
  }

  /** Exactly when `refreshRejectedAccessToken` answers with this token. */
  lemma RenewedIff(
    x: Syntax, c: Config, clock: nat -> int, m: Moment, cached: Option<Bearer>, rejected: string, f: Flight,
    token: string)
    ensures RenewOf(x, c, clock, m, cached, rejected, f) == Ok(token) <==>
            Renews(x, c, clock, m, cached, rejected, f, token)
  {
    hide DeliveryOf, Delivers;
    DeliveredIff(x, c, clock, m, f.(rejected := Some(rejected)), token);
    DeliveredIff(x, c, clock, Later(clock, m), f.(rejected := Some(rejected)), token);
  }
}
