/**
 Runs of the sign-in service in which a promise of its comments fails: a sign-in that overwrites a live session, and
 sign-outs and a cleanup that remove a session other than their own. Each run is given for every grammar of tokens,
 codes and instants, every clock standing still at a time, and every pair of sign-ins that meet no trouble then.
 */
module SessionWitnesses {
  import opened Options
  import opened Json
  import opened StoredSession
  import opened SessionWorld
  import opened SessionHistory
  import opened Acquisition
  import opened HumanSession

  // ----- the surroundings of every run

  const SMOOTH := DeleteWorld(true, Quiet, Works)
  const IDLE := Pass(None, true, ExchangeFailed(ServerFailure(false, None, None)), Quiet, 0, Works)
  const AT_EASE := Wait(false, false, Same)
  const REFUSED := LogoutFailed(ServerFailure(true, Some(401), Some("cli_session_revoked")))

  /** A sign-in that is valid, admitted and in time, and meets no trouble. */
  predicate Smooth(x: Syntax, c: Config, now: int, w: LoginWorld) {
    && 0 <= now <= MAX_SAFE_INTEGER && ValidSession(x, SignedIn(x, c, w), c) && AdmitsContext(w)
    && !w.cancelled && w.ready && w.others.Quiet? && w.exchanged && !w.cancelledAfterExchange && !w.cancelledAfterStore
    && w.rotation.ready && w.rotation.between.Quiet? && w.rotation.backend.Works?
    && w.rotation.storedAt < x.instant(w.exchange.loginCodeExpiresAt)
    && now < x.instant(w.exchange.loginCodeExpiresAt) && now + ACCESS_FLOOR_MS < x.instant(w.exchange.accessExpiresAt)
  }

  /** The envelope a sign-in leaves. */
  function Left(x: Syntax, c: Config, w: LoginWorld, revision: nat): Envelope {
    Envelope(revision, w.rotation.storedAt, Some(x.instant(w.exchange.loginCodeExpiresAt)),
             EncodeStored(SignedIn(x, c, w)))
  }

  function BearerIn(x: Syntax, w: LoginWorld, revision: nat): Bearer {
    Bearer(w.exchange.accessToken, x.instant(w.exchange.accessExpiresAt), w.exchange.sessionId, revision)
  }

  lemma LeftSupplies(x: Syntax, c: Config, w: LoginWorld, revision: nat)
    requires ValidSession(x, SignedIn(x, c, w), c)
    ensures Supplies(x, c, Left(x, c, w, revision), BearerIn(x, w, revision))
  {
    hide DecodeStored, EncodeStored;
    StoredRoundTrip(x, SignedIn(x, c, w), c);
  }

  function SignOutOn(answer: LogoutAnswer, handover: InProcess, during: InProcess): LogoutWorld {
    LogoutWorld(Flight(None, IDLE, Quiet, IDLE), AT_EASE, handover, answer, Quiet, during, IDLE, SMOOTH)
  }

  /** The conditions can be met: a grammar, a configuration and a sign-in. */
  lemma SomeSignInIsSmooth() returns (x: Syntax, c: Config, w: LoginWorld)
    ensures WellTimed(x) && Smooth(x, c, 0, w)
  {
    x := Syntax(_ => true, _ => true, _ => true, _ => true, _ => true, _ => true, _ => 1_000_000, _ => "then");
    c := Config("https://api", "default");
    var context := Context("v1", ActiveIdentity, Admitted, Workspace(true, Some("w")), None);
    w := LoginWorld(false, true, 0, Quiet, true, Exchange("token", "soon", "later", "session", context), "code",
                    "client", "continuation", "state", "verifier", "uri", Login, 0, false,
                    RotateWorld(true, Quiet, 0, Works), false, [], SMOOTH);
  }

  /** A process that has signed in on an empty record: revision one, and its bearer cached. */
  method SignedInProcess(x: Syntax, c: Config, now: int, ours: LoginWorld) returns (p: HumanAuthService)
    requires WellTimed(x) && Smooth(x, c, now, ours)
    ensures fresh(p) && p.Valid() && p.x == x && p.config == c && forall k :: p.clock(k) == now
    ensures p.access == Some(BearerIn(x, ours, 1)) && p.fence.None? && p.lastObservedNow == Some(now) && !p.revoked
    ensures p.record.Some? && p.record.value.revision == 1
  {
    hide SignedIn, ValidSession, AdmitsContext, SessionIn, History, Supplied, LoginLicenses, WasAbsent, RemovalOf;
    p := new HumanAuthService(x, c, _ => now, None);
    var r, stored, persisted := p.Login(ours);
  }

  // ----- a sign-in over a live session

  /** Someone stores a session between the status check and the rotation. */
  method OverwritesInTheWindow(x: Syntax, c: Config, now: int, ours: LoginWorld, theirs: LoginWorld)
    returns (log: seq<Change>, i: nat)
    requires WellTimed(x) && Smooth(x, c, now, ours) && Smooth(x, c, now, theirs)
    ensures i < |log| && log[i].cause.LoggedIn? && log[i].before == Some(Left(x, c, theirs, 1))
  {
    hide ValidSession, AdmitsContext, SessionIn, History, Supplied, LoginLicenses, WasAbsent, RemovalOf;
    var w := ours.(others := Wrote(Some(Left(x, c, theirs, 1))));
    assert SignedIn(x, c, w) == SignedIn(x, c, ours) && AdmitsContext(w) by {
      assert w.exchange == ours.exchange && w.intent == ours.intent;
      SameSignIn(ours, w.others);
    }
    hide SignedIn;
    var p := new HumanAuthService(x, c, _ => now, None);
    var r, stored, persisted := p.Login(w);
    return p.log, stored.value;
  }

  /** What others write does not change the context a sign-in brought. */
  lemma SameSignIn(w: LoginWorld, others: Others)
    requires AdmitsContext(w)
    ensures AdmitsContext(w.(others := others))
    ensures forall stored, writes ::
              AdmitsContext(w.(cancelledAfterStore := stored, aftermath := writes, removal := SMOOTH))
  {
  }

  /** The record has expired by its header and is replaced although its login code is still there. */
  method OverwritesExpired(x: Syntax, c: Config, now: int, ours: LoginWorld, theirs: LoginWorld)
    returns (log: seq<Change>, i: nat)
    requires WellTimed(x) && Smooth(x, c, now, ours) && Smooth(x, c, now, theirs)
    ensures i < |log| && log[i].cause.LoggedIn?
    ensures log[i].before == Some(Left(x, c, theirs, 1).(expiresAt := Some(ours.checkedAt)))
  {
    hide SignedIn, ValidSession, AdmitsContext, SessionIn, History, Supplied, LoginLicenses, WasAbsent, RemovalOf;
    var p := new HumanAuthService(x, c, _ => now, Some(Left(x, c, theirs, 1).(expiresAt := Some(ours.checkedAt))));
    var r, stored, persisted := p.Login(ours);
    return p.log, stored.value;
  }

  /**
   A process signs in and out; another signs in; the first signs in again. Its status check still answers "revoked", and
   the other's live session is overwritten although nothing was written after the check.
   */
  method OverwritesAfterSignOut(x: Syntax, c: Config, now: int, ours: LoginWorld, theirs: LoginWorld, again: LoginWorld)
    returns (log: seq<Change>, i: nat)
    requires WellTimed(x) && Smooth(x, c, now, ours) && Smooth(x, c, now, theirs) && Smooth(x, c, now, again)
    ensures i < |log| && log[i].cause.LoggedIn? && log[i].before == Some(Left(x, c, theirs, 1))
  {
    hide SignedIn, ValidSession, AdmitsContext, SessionIn, History, Supplied, LoginLicenses, WasAbsent, LogoutLicenses,
         Holds,
         StepGround;
    var p := SignedInProcess(x, c, now, ours);
    var o := p.Logout(SignOutOn(Revoked, Same, Same));
    p.Interfere(Wrote(Some(Left(x, c, theirs, 1))));
    var r, stored, persisted := p.Login(again);
    return p.log, stored.value;
  }

  // ----- a removal of another session

  /**
   Another process signs out and in again: its session carries revision one once more, and the number is all that is
   compared.
   */
  method RemovesNewSignIn(x: Syntax, c: Config, now: int, ours: LoginWorld, theirs: LoginWorld)
    returns (o: SignOutReport, record: Option<Envelope>)
    requires WellTimed(x) && Smooth(x, c, now, ours) && Smooth(x, c, now, theirs)
    ensures o.outcome.Ok? && o.sent == Some(BearerIn(x, ours, 1)) && o.target == Some(1)
    ensures o.found == Some(Left(x, c, theirs, 1)) && record.None?
  {
    hide SignedIn, ValidSession, AdmitsContext, SessionIn, History, Supplied, WasAbsent, LogoutLicenses, Holds,
         StepGround, AcquireOf;
    var p := SignedInProcess(x, c, now, ours);
    p.Interfere(Wrote(None));
    p.Interfere(Wrote(Some(Left(x, c, theirs, 1))));
    o := p.Logout(SignOutOn(Revoked, Same, Same));
    record := p.record;
  }

  /**
   The same in the cleanup of a sign-in cancelled just after its record was stored: the session another process has
   signed in with meanwhile carries the same number and is removed.
   */
  method CleanupRemovesNewSignIn(x: Syntax, c: Config, now: int, ours: LoginWorld, theirs: LoginWorld)
    returns (r: Result<(), AuthError>, log: seq<Change>, record: Option<Envelope>, i: nat)
    requires WellTimed(x) && Smooth(x, c, now, ours) && Smooth(x, c, now, theirs)
    ensures r == Err(CancelledByCaller) && record.None?
    ensures i < |log| && log[i].cause.FailedLogin? && log[i].before == Some(Left(x, c, theirs, 1)) && log[i].after.None?
  {
    hide ValidSession, AdmitsContext, SessionIn, History, Supplied, LoginLicenses, WasAbsent;
    var w := ours.(cancelledAfterStore := true, aftermath := [None, Some(Left(x, c, theirs, 1))], removal := SMOOTH);
    assert SignedIn(x, c, w) == SignedIn(x, c, ours);
    SameSignIn(ours, Quiet);
    hide SignedIn;
    var p := new HumanAuthService(x, c, _ => now, None);
    var stored, persisted;
    r, stored, persisted := p.Login(w);
    log, record := p.log, p.record;
    i :| 0 <= i < |log| && log[i].cause.FailedLogin?;
  }

  /**
   Another task caches a newer bearer before the request leaves: its revision is removed, on the old bearer's
   revocation.
   */
  method RemovesHandedOverRevision(x: Syntax, c: Config, now: int, ours: LoginWorld, theirs: LoginWorld)
    returns (o: SignOutReport, record: Option<Envelope>)
    requires WellTimed(x) && Smooth(x, c, now, ours) && Smooth(x, c, now, theirs)
    ensures o.outcome.Ok? && o.sent == Some(BearerIn(x, ours, 1)) && o.target == Some(2)
    ensures o.found == Some(Left(x, c, theirs, 2)) && record.None?
  {
    hide SignedIn, ValidSession, AdmitsContext, SessionIn, History, WasAbsent, LogoutLicenses, Holds, StepGround,
         AcquireOf, Supplied;
    var p := SignedInProcess(x, c, now, ours);
    p.Interfere(Wrote(Some(Left(x, c, theirs, 2))));
    LeftSupplies(x, c, theirs, 2);
    p.RecordSupplies(BearerIn(x, theirs, 2));
    o := p.Logout(SignOutOn(Revoked, Replaced(Some(BearerIn(x, theirs, 2))), Same));
    record := p.record;
  }

  /** Another task caches a newer bearer while the request is out, and the old bearer is refused for good. */
  method RemovesRevisionCachedMeanwhile(x: Syntax, c: Config, now: int, ours: LoginWorld, theirs: LoginWorld)
    returns (o: SignOutReport, record: Option<Envelope>)
    requires WellTimed(x) && Smooth(x, c, now, ours) && Smooth(x, c, now, theirs)
    ensures o.outcome.Ok? && o.sent == Some(BearerIn(x, ours, 1)) && o.target == Some(2)
    ensures o.found == Some(Left(x, c, theirs, 2)) && record.None?
  {
    hide SignedIn, ValidSession, AdmitsContext, SessionIn, History, WasAbsent, LogoutLicenses, Holds, StepGround,
         AcquireOf, Supplied;
    var p := SignedInProcess(x, c, now, ours);
    p.Interfere(Wrote(Some(Left(x, c, theirs, 2))));
    LeftSupplies(x, c, theirs, 2);
    p.RecordSupplies(BearerIn(x, theirs, 2));
    o := p.Logout(SignOutOn(REFUSED, Same, Replaced(Some(BearerIn(x, theirs, 2)))));
    record := p.record;
  }
}
