/**
 The sign-in service of one CLI process: it reads and rewrites the protected record through the vault, caches a
 short-lived bearer, and keeps the history of every change to the record, its own and other processes'.
 */
module HumanSession {
  import opened Options
  import opened Json
  import opened StoredSession
  import opened SessionWorld
  import opened SessionHistory
  import opened Acquisition

  class HumanAuthService {
    const x: Syntax
    const config: Config
    const clock: nat -> int
    const first: Option<Envelope>
    var ticks: nat
    var lastObservedNow: Option<int>
    var record: Option<Envelope>
    var fence: Option<Envelope>
    var revoked: bool
    var access: Option<Bearer>
    var log: seq<Change>

    constructor (x: Syntax, config: Config, clock: nat -> int, record: Option<Envelope>)
      requires WellTimed(x)
      ensures Valid() && access.None? && log == [] && ticks == 0 && lastObservedNow.None? && fence.None? && !revoked
      ensures this.x == x && this.config == config && this.clock == clock && this.record == record == first
    {
      this.x, this.config, this.clock, this.first, this.record := x, config, clock, record, record;
      ticks, lastObservedNow, fence, revoked, access, log := 0, None, None, false, None, [];
    }

    /**
     The record has the history in the log, the cached bearer is one that history supplied, and the vault's revoked mark
     means that there was no record at some time.
     */
    ghost predicate Valid()
      reads this
    {
      WellTimed(x) && History(x, config, first, log, record) && Known(access) && (revoked ==> WasAbsent(first, log))
    }

    /** How a call that starts now finds the service. */
    function State(): Start
      reads this
    {
      Start(record, revoked, lastObservedNow)
    }

    /** The present moment of the service, as the answers to its calls depend on it. */
    function Here(): Moment
      reads this
    {
      Moment(ticks, lastObservedNow, record)
    }

    /** No bearer, or one that some envelope of the history stored. */
    predicate Known(b: Option<Bearer>)
      reads this
    {
      b.Some? ==> Supplied(x, config, first, log, b.value)
    }

    // ----- the clock

    /** The last reading of the clock was refused. */
    predicate ClockRefused()
      reads this
    {
      0 < ticks && !Trusted(lastObservedNow, clock(ticks - 1))
    }

    /** The observed clock: refused when it runs backwards. */
    method Now() returns (r: Result<int, AuthError>)
      modifies this`ticks, this`lastObservedNow
      ensures ticks == old(ticks) + 1 && (r.Ok? <==> Trusted(old(lastObservedNow), clock(old(ticks))))
      ensures r.Ok? ==> r.value == clock(old(ticks)) && lastObservedNow == Some(r.value)
      ensures r.Err? ==> r.error == ClockUntrusted && lastObservedNow == old(lastObservedNow)
    {
      var observed := clock(ticks);
      ticks := ticks + 1;
      if observed < 0 || observed > MAX_SAFE_INTEGER || (lastObservedNow.Some? && observed < lastObservedNow.value) {
        return Err(ClockUntrusted);
      }
      lastObservedNow := Some(observed);
      return Ok(observed);
    }

    /** Observed time never runs backwards. */
    twostate predicate ClockKept()
      reads this
    {
      && old(ticks) <= ticks
      && (old(lastObservedNow).Some? ==> lastObservedNow.Some? && old(lastObservedNow).value <= lastObservedNow.value)
    }

    // ----- the record

    /** Write the record and remember why. */
    method Commit(after: Option<Envelope>, cause: Cause)
      requires Valid() && Justified(x, config, Change(record, after, cause))
      modifies this`record, this`log
      ensures Valid() && record == after && log == old(log) + [Change(old(record), after, cause)]
    {
      hide Justified;
      var ch := Change(record, after, cause);
      HistoryGrows(x, config, first, log, record, ch);
      if access.Some? {
        SuppliedStays(x, config, first, log, log + [ch], access.value);
      }
      if revoked {
        AbsenceStays(first, log, log + [ch]);
      }
      log := log + [ch];
      record := after;
    }

    /** Other processes write one record after the other. */
    method InterfereInTurn(writes: seq<Option<Envelope>>)
      requires Valid()
      modifies this`record, this`log
      ensures Valid() && record == LastOf(writes, old(record)) && log == old(log) + ChangesOf(old(record), writes)
    {
      hide History, Supplied, WasAbsent;
      for i := 0 to |writes|
        invariant Valid() && record == LastOf(writes[..i], old(record))
        invariant log == old(log) + ChangesOf(old(record), writes)[..i]
      {
        Commit(writes[i], Elsewhere);
      }
    }

    lemma AbsentNow()
      requires Valid() && record.None?
      ensures WasAbsent(first, log)
    {
      hide Justified, Supplied;
      assert RecordAt(first, log, |log|).None?;
    }

    /** Other processes write whatever they like. */
    method Interfere(o: Others)
      requires Valid()
      modifies this`record, this`log
      ensures Valid() && record == Settled(o, old(record))
      ensures log == if o.Quiet? then old(log) else old(log) + [Change(old(record), o.record, Elsewhere)]
    {
      if o.Wrote? {
        Commit(o.record, Elsewhere);
      }
    }

    /** The backend's compare-and-delete: exactly this envelope, or nothing. */
    method CompareAndDelete(expected: Envelope, cause: Cause, backend: Backend) returns (r: DeleteOutcome)
      requires Valid() && Justified(x, config, Change(Some(expected), None, cause))
      modifies this`record, this`log
      ensures Valid()
      ensures var removed := old(record) == Some(expected) && !backend.FailsBefore?;
              && record == (if removed then None else old(record))
              && log == (if removed then old(log) + [Change(Some(expected), None, cause)] else old(log))
      ensures r == if !backend.Works? then DeleteFailed else if old(record).None? then Absent
                   else if old(record) == Some(expected) then Deleted else Conflict
    {
      hide Justified, History;
      if backend.FailsBefore? {
        return DeleteFailed;
      }
      r := if record.None? then Absent else if record.value == expected then Deleted else Conflict;
      if r.Deleted? {
        Commit(None, cause);
      }
      if backend.FailsAfter? {
        return DeleteFailed;
      }
    }

    // ----- one vault refresh

    /**
     The captured bearer is the stored one, of the stored session, with the reuse margin left and not the refused one.
     */
    predicate StillUsable(current: Option<Envelope>, captured: Captured, now: int, rejected: Option<string>) {
      && current.Some? && Supplies(x, config, current.value, BearerOf(captured, current.value.revision))
      && captured.expiresAt - now > ACCESS_REUSE_MARGIN_MS && rejected != Some(captured.token)
    }

    /** The stored bearer is reused on the two readings from tick `at`. */
    predicate ReusesNext(last: Option<int>, at: nat, current: Option<Envelope>, rejected: Option<string>) {
      Keeps(x, config, clock, Moment(at, last, current), rejected)
    }

    /**
     The re-exchange callback: reuse the stored bearer if it has life left, otherwise buy a new one,
     and say whether the record is to be kept, rewritten or removed.
     */
    method ReexchangeCallback(current: Option<Envelope>, rejected: Option<string>, outcome: ExchangeOutcome)
      returns (d: Decision, captured: Option<Captured>)
      requires Valid() && (outcome.Exchanged? ==> DecodedExchange(x, outcome.exchange))
      modifies this`ticks, this`lastObservedNow
      ensures Valid() && ClockKept()
      ensures d.Missing? <==> current.None?
      ensures d.Threw? ==>
                || SessionIn(x, config, current).None? || ClockRefused()
                || (outcome.ExchangeFailed? && !AuthoritativePair(outcome.failure))
      ensures d.Reject? ==> Justified(x, config, Change(current, None, d.because))
      ensures d.Reject? ==> AnswerLicenses(clock, old(ticks), ticks, outcome, d.because) && !d.because.Reexchanged?
      ensures d.Reject? && d.reason.AuthoritativeRemote? ==>
                outcome.ExchangeFailed? && AuthoritativePair(outcome.failure)
      ensures d.Rotate? ==> RotationJustified(x, config, current, d.payload, d.expiresAt, d.why)
      ensures d.Rotate? ==> AnswerLicenses(clock, old(ticks), ticks, outcome, d.why) && d.why.Reexchanged?
      ensures d.Rotate? ==>
                captured.Some? && RotationSupplies(x, config, current, d.payload, d.expiresAt, captured.value)
      ensures d.Rotate? ==> outcome.Exchanged? && captured.value.token == outcome.exchange.accessToken
      ensures d.Retain? ==>
                && captured.Some? && lastObservedNow.Some?
                && StillUsable(current, captured.value, lastObservedNow.value, rejected)
      ensures captured.Some? <==> d.Retain? || d.Rotate?
      ensures d.Retain? <==> ReusesNext(old(lastObservedNow), old(ticks), current, rejected)
      // the condition of each other decision, at the readings the callback takes
      ensures var m := Moment(old(ticks), old(lastObservedNow), current);
              && Called(d, captured, ticks, lastObservedNow) == Exchanging(x, config, clock, m, rejected, outcome)
              && (d.Reject? && d.reason.AuthoritativeRemote? <==>
                  Asks(x, config, clock, m, rejected) && outcome.ExchangeFailed? && AuthoritativePair(outcome.failure))
              && (d.Rotate? <==>
                    && Answered(x, config, clock, m, rejected, outcome)
                    && Continues(x, SessionIn(x, config, current).value, outcome.exchange, clock(old(ticks) + 2)))
              && (d.Reject? && d.reason.LocalIntegrity? <==>
                    && Answered(x, config, clock, m, rejected, outcome)
                    && !Continues(x, SessionIn(x, config, current).value, outcome.exchange, clock(old(ticks) + 2)))
    {
      hide DecodeStored, EncodeStored, Mismatch, Continues, History, Supplied, RotationJustified, RotationSupplies,
           AuthoritativePair, DecodedExchange, WasAbsent;
      captured := None;
      DecisionIff(x, config, clock, Moment(ticks, lastObservedNow, current), rejected, outcome);
      if current.None? {
        return Missing, None;
      }
      var decoded := DecodeStored(x, current.value.payload, config);
      if decoded.None? {
        return Threw, None;
      }
      var stored := decoded.value;
      var now := Now();
      if now.Err? {
        return Threw, None;
      }
      if x.instant(stored.loginCodeExpiresAt) <= now.value {
        return Reject(LocalExpired, LocalExpiry(now.value)), None;
      }
      now := Now();
      if now.Err? {
        return Threw, None;
      }
      var reusable := UsableStoredAccess(x, stored, now.value, rejected);
      if reusable.Some? {
        return Retain, Some(Captured(reusable.value.token, x.instant(reusable.value.expiresAt), stored.sessionId));
      }
      if outcome.ExchangeFailed? {
        if AuthoritativePair(outcome.failure) {
          return Reject(AuthoritativeRemote, RemoteRejection(outcome.failure)), None;
        }
        return Threw, None;
      }
      var e := outcome.exchange;
      now := Now();
      if now.Err? {
        return Threw, None;
      }
      ReadableMismatch(x, config, current, e, now.value);
      if Mismatch(x, stored, e, now.value) {
        return Reject(LocalIntegrity, IntegrityMismatch(e, now.value)), None;
      }
      ReexchangeIsJustified(x, config, current.value, e, now.value);
      captured := Some(Captured(e.accessToken, x.instant(e.accessExpiresAt), stored.sessionId));
      var renewed := WithBearer(x, stored, e, now.value);
      d := Rotate(EncodeStored(renewed), x.instant(stored.loginCodeExpiresAt), Reexchanged(e, now.value));
    }

    /** A readable session without a cached bearer. */
    predicate NoBearer(r: Option<Envelope>) {
      SessionIn(x, config, r).Some? && SessionIn(x, config, r).value.access.None?
    }

    /** Nothing interferes with rewriting a readable session whose login code has not expired. */
    predicate Undisturbed(p: Pass, current: Option<Envelope>) {
      && p.ready && p.joined.None? && p.others.Quiet? && p.backend.Works? && current.Some?
      && SessionIn(x, config, current).Some?
      && p.storedAt < x.instant(SessionIn(x, config, current).value.loginCodeExpiresAt)
    }

    /** The callback that drops the bearer from disk and keeps everything else. */
    method ForgetCallback(current: Option<Envelope>) returns (d: Decision)
      ensures !d.Missing? && !d.Reject?
      ensures d.Rotate? ==> RotationJustified(x, config, current, d.payload, d.expiresAt, d.why) && d.why == Forgotten
      ensures SessionIn(x, config, current).Some? ==>
                var expiry := x.instant(SessionIn(x, config, current).value.loginCodeExpiresAt);
                d.Retain? || (d.Rotate? && d.expiresAt == expiry)
      ensures d.Retain? && current.Some? ==> NoBearer(current)
      ensures d.Rotate? ==> forall t :: NoBearer(Some(Envelope(NextRevision(current), t, Some(d.expiresAt), d.payload)))
      ensures d == Forget(x, config, current)
    {
      hide DecodeStored, EncodeStored, RotationJustified;
      if current.None? {
        return Retain;
      }
      var decoded := DecodeStored(x, current.value.payload, config);
      if decoded.None? {
        return Threw;
      }
      if decoded.value.access.None? {
        return Retain;
      }
      ForgettingIsJustified(x, config, current.value);
      RewriteDecodes(x, config, current.value, None);
      var bare := decoded.value.(access := None);
      return Rotate(EncodeStored(bare), x.instant(bare.loginCodeExpiresAt), Forgotten);
    }

    /** The cause the decision names is licensed by what the refresh met. */
    predicate Grounded(from: nat, to: nat, t: Task, d: Decision) {
      && (d.Reject? ==>
            && !d.because.Elsewhere? && Running(t).Reexchanging?
            && AnswerLicenses(clock, from, to, t.pass.outcome, d.because))
      && (d.Rotate? ==>
            && !d.why.Elsewhere?
            && if Running(t).Forgetting? then d.why == Forgotten
               else AnswerLicenses(clock, from, to, t.pass.outcome, d.why))
    }

    /** Run the callback of the refresh under way. */
    method Decide(t: Task, current: Option<Envelope>) returns (d: Decision, captured: Option<Captured>)
      requires Valid() && DecodedPass(x, t.pass)
      modifies this`ticks, this`lastObservedNow
      ensures Valid() && ClockKept() && Grounded(old(ticks), ticks, t, d)
      ensures d.Reject? ==> current.Some? && Justified(x, config, Change(current, None, d.because))
      ensures d.Reject? && d.reason.AuthoritativeRemote? ==> AuthoritativeFailure(t.pass)
      ensures Running(t).Reexchanging? ==>
                && (d.Retain? ==> captured.Some?)
                && (d.Retain? <==> ReusesNext(old(lastObservedNow), old(ticks), current, Running(t).rejected))
      ensures d.Rotate? ==> RotationJustified(x, config, current, d.payload, d.expiresAt, d.why)
      ensures captured.Some? ==> Running(t).Reexchanging? && (d.Retain? || d.Rotate?) && current.Some?
      ensures captured.Some? && d.Rotate? ==>
                RotationSupplies(x, config, current, d.payload, d.expiresAt, captured.value)
      ensures captured.Some? && d.Retain? ==>
                Supplies(x, config, current.value, BearerOf(captured.value, current.value.revision))
      ensures captured.Some? && Running(t).rejected == Some(captured.value.token) ==>
                Reminted(t.pass, Running(t).rejected)
      ensures Running(t).Forgetting? ==>
                && (d.Retain? && current.Some? ==> NoBearer(current))
                && (d.Rotate? ==> forall t ::
                    NoBearer(Some(Envelope(NextRevision(current), t, Some(d.expiresAt), d.payload))))
                && (SessionIn(x, config, current).Some? ==>
                      var expiry := x.instant(SessionIn(x, config, current).value.loginCodeExpiresAt);
                      d.Retain? || (d.Rotate? && d.expiresAt == expiry))
      ensures Called(d, captured, ticks, lastObservedNow) ==
              CalledFor(x, config, clock, Moment(old(ticks), old(lastObservedNow), current), t)
    {
      hide Justified, RotationJustified, RotationSupplies, DecodedExchange, SessionIn, Supplied, History, ReadIn,
           AuthoritativePair, NoBearer, WasAbsent, Exchanging, Forget, Keeps, Asks, Answered, Continues;
      captured := None;
      if Running(t).Reexchanging? {
        d, captured := ReexchangeCallback(current, Running(t).rejected, t.pass.outcome);
      } else {
        d := ForgetCallback(current);
      }
    }

    /** The change a decision makes to the envelope it was made about. */
    predicate MadeBy(d: Decision, current: Option<Envelope>, storedAt: int, ch: Change) {
      || (d.Reject? && ch == Change(current, None, d.because))
      || (d.Rotate? &&
          ch == Change(current, Some(Envelope(NextRevision(current), storedAt, Some(d.expiresAt), d.payload)), d.why))
    }

    /** The changes appended since the call are the decision's own, or a write after a lost acknowledgement. */
    twostate predicate GrewByDecision(d: Decision, current: Option<Envelope>, storedAt: int, backend: Backend)
      reads this
    {
      && old(log) <= log
      && forall i | |old(log)| <= i < |log| :: MadeBy(d, current, storedAt, log[i]) || WrittenAfter(backend, log[i])
    }

    /** What the vault does with the callback's decision about the envelope it read. */
    method ApplyDecision(current: Option<Envelope>, d: Decision, storedAt: int, backend: Backend)
      returns (r: Result<Envelope, VaultError>)
      requires Valid()
      requires d.Reject? && current.Some? ==> Justified(x, config, Change(current, None, d.because))
      requires d.Rotate? ==> RotationJustified(x, config, current, d.payload, d.expiresAt, d.why)
      modifies this`record, this`log, this`fence, this`revoked
      ensures Valid() && GrewByDecision(d, current, storedAt, backend)
      ensures r.Ok? ==> d.Retain? || d.Rotate?
      ensures d.Retain? ==> log == old(log) && (r == if current.Some? then Ok(current.value) else Err(RefreshFailed))
      ensures !d.Reject? && !d.Rotate? ==> log == old(log) && record == old(record)
      ensures d.Reject? && log != old(log) ==> r == Err(CredentialRevoked(d.reason)) || r == Err(BackendFailure)
      ensures d.Reject? && current.Some? && old(record) == current && backend.Works? ==>
                record.None? && r == Err(CredentialRevoked(d.reason))
      ensures d.Rotate? ==> (|log| > |old(log)| <==>
                             storedAt < d.expiresAt && !backend.FailsBefore? && old(record) == current)
      ensures d.Rotate? && |log| > |old(log)| ==>
                && log[|old(log)|].cause == d.why && log[|old(log)|].before == current
                && forall i | |old(log)| < i < |log| :: log[i].cause.Elsewhere?
      ensures revoked == if r.Ok? && d.Rotate? then false else old(revoked) || (r.Err? && r.error.CredentialRevoked?)
      ensures r.Err? && r.error.CredentialRevoked? ==> record.None?
      ensures fence == if d.Retain? && current.Some? then current else old(fence)
      ensures d.Rotate? && |log| > |old(log)| ==>
                var written := log[|old(log)|].after;
                r.Ok? <==> (backend.FailsAfter? ==> backend.readable && Settled(backend.next, written) == written)
      ensures d.Rotate? && |log| > |old(log)| && r.Err? ==>
                backend.FailsAfter? && record == Settled(backend.next, log[|old(log)|].after)
      ensures r.Ok? && d.Rotate? ==> |log| > |old(log)| && log[|old(log)|].after == record == Some(r.value)
      ensures r.Ok? && d.Rotate? ==> r.value == Envelope(NextRevision(current), storedAt, Some(d.expiresAt), d.payload)
      ensures r == Err(CredentialRevoked(AuthoritativeRemote)) ==>
                d.Reject? && d.reason == AuthoritativeRemote && record.None?
      ensures Kept(r, record) == Vaulted(current, d, old(record), storedAt, backend)
    {
      hide Justified, History, Supplied, WasAbsent;
      match d
      case Threw =>
        return Err(RefreshFailed);
      case Missing =>
        return Err(if current.Some? then RefreshFailed else CredentialMissing);
      case Reject(reason, because) =>
        if current.None? {
          return Err(RefreshFailed);
        }
        var outcome := CompareAndDelete(current.value, because, backend);
        if outcome.DeleteFailed? {
          return Err(BackendFailure);
        }
        if outcome.Conflict? {
          return Err(RevisionConflict);
        }
        AbsentNow();
        revoked := true;
        return Err(CredentialRevoked(reason));
      case Retain =>
        if current.None? {
          return Err(RefreshFailed);
        }
        fence := current;
        return Ok(current.value);
      case Rotate(payload, expiresAt, why) =>
        var next := Envelope(NextRevision(current), storedAt, Some(expiresAt), payload);
        if expiresAt <= storedAt {
          return Err(EnvelopeInvalid);
        }
        if backend.FailsBefore? {
          return Err(BackendFailure);
        }
        if record != current {
          return Err(RevisionConflict);
        }
        Commit(Some(next), why);
        // An acknowledgement lost after the write is settled by reading the record back.
        if backend.FailsAfter? {
          Interfere(backend.next);
          if !backend.readable || record != Some(next) {
            return Err(BackendFailure);
          }
        }
        revoked := false;
        return Ok(next);
    }

    /** Every change appended since the call is licensed by what the refresh met. */
    twostate predicate GrewByTask(t: Task)
      reads this
    {
      && old(log) <= log && old(ticks) <= ticks
      && forall i | |old(log)| <= i < |log| :: TaskLicenses(clock, old(ticks), ticks, t, log[i])
    }

    /** One vault refresh; a caller that joins a flight sees its record and not the bearer it captured. */
    method RefreshPass(purpose: Purpose, p: Pass) returns (r: Result<Envelope, VaultError>, captured: Option<Captured>)
      requires Valid() && DecodedPass(x, p)
      modifies this
      ensures Valid() && ClockKept() && GrewByTask(Task(purpose, p)) && access == old(access)
      ensures forall i | |old(log)| <= i < |log| && !log[i].cause.Elsewhere? && log[i].after.None? ::
                r.Err? && (r.error.CredentialRevoked? || r.error.BackendFailure?)
      ensures r.Ok? ==> Occurred(first, log, r.value)
      ensures if p.ready then fence.Some? ==> r == Ok(fence.value) else fence == old(fence)
      ensures r.Err? && r.error.CredentialRevoked? ==> revoked && record.None?
      ensures (&& purpose.Reexchanging? && p.joined.None? && p.ready
               && ReusesNext(old(lastObservedNow), old(ticks), old(record), purpose.rejected)) ==>
                captured.Some? && old(record) == if r.Ok? then Some(r.value) else None
      ensures captured.Some? ==> purpose.Reexchanging? && p.joined.None?
      ensures r.Ok? && captured.Some? ==> Supplies(x, config, r.value, BearerOf(captured.value, r.value.revision))
      ensures captured.Some? && purpose.rejected == Some(captured.value.token) ==> Reminted(p, purpose.rejected)
      ensures purpose.Forgetting? && p.joined.None? && r.Ok? ==> NoBearer(Some(r.value))
      ensures purpose.Forgetting? && Undisturbed(p, old(record)) ==> NoBearer(record)
      ensures r == Err(CredentialRevoked(AuthoritativeRemote)) ==> AuthoritativeFailure(p) && record.None?
      ensures Refreshed(r, captured, Here()) == RefreshOf(x, config, clock, old(Here()), Task(purpose, p))
    {
      hide Justified, RotationJustified, DecodedPass, SessionIn, Supplied, Supplies, AnswerLicenses, Occurred,
           AuthoritativeFailure, Reminted, History, NoBearer, ReusesNext, WellTimed, WasAbsent, CalledFor, Vaulted;
      captured := None;
      if !p.ready {
        return Err(VaultUnavailable), None;
      }
      fence := None;
      var current := record;
      RecordIsLast();
      var d: Decision;
      d, captured := Decide(Task(purpose, p), current);
      Interfere(p.others);
      ghost var log1 := log;
      r := ApplyDecision(current, d, p.storedAt, p.backend);
      forall i | |old(log)| <= i < |log|
        ensures TaskLicenses(clock, old(ticks), ticks, Task(purpose, p), log[i])
      {
        assert i < |log1| ==> log[i] == log1[i];
      }
      if r.Ok? {
        SnapshotOccurred(old(log), current, r.value);
      }
      if p.joined.Some? {
        captured := None;
      }
    }

    lemma RecordIsLast()
      requires Valid()
      ensures record == RecordAt(first, log, |log|)
    {
      hide Justified, Supplied, WasAbsent;
    }

    /** What the refresh hands back was the record when it began, or is the record now. */
    lemma SnapshotOccurred(prefix: seq<Change>, current: Option<Envelope>, e: Envelope)
      requires Valid() && prefix <= log && current == RecordAt(first, prefix, |prefix|)
      requires current == Some(e) || record == Some(e)
      ensures Occurred(first, log, e)
    {
      hide Justified, Supplied, WasAbsent;
      assert RecordAt(first, log, |prefix|) == current;
      assert RecordAt(first, log, |log|) == record;
    }

    // ----- bearers

    /** One attempt at a bearer: captured by our own callback, or admitted from the record a joined flight returned. */
    method ReexchangeOnce(rejected: Option<string>, p: Pass) returns (r: Result<Option<Bearer>, AuthError>)
      requires Valid() && DecodedPass(x, p)
      modifies this
      ensures Valid() && ClockKept() && GrewByTask(Task(Reexchanging(rejected), p)) && access == old(access)
      ensures r.Ok? ==> Known(r.value)
      ensures p.joined.None? && p.ready && ReusesNext(old(lastObservedNow), old(ticks), old(record), rejected) ==>
                (r.Ok? && r.value.Some? <==> old(record).value.revision >= 1)
      ensures r.Ok? && r.value.Some? && rejected == Some(r.value.value.token) ==> Reminted(p, rejected)
      ensures r == Err(ReauthenticationRequired(true)) ==> AuthoritativeFailure(p) && record.None?
      ensures Attempted(r, Here()) == AttemptOf(x, config, clock, old(Here()), rejected, p)
    {
      hide History, DecodedExchange, DecodeStored, Reminted, AuthoritativeFailure, Supplied, Occurred, TaskLicenses,
           WasAbsent, RefreshOf;
      var snapshot, captured := RefreshPass(Reexchanging(rejected), p);
      ghost var ticks1 := ticks;
      if snapshot.Err? {
        return Err(ToAuthError(snapshot.error));
      }
      if captured.None? {
        var decoded := DecodeStored(x, snapshot.value.payload, config);
        if decoded.None? {
          return Err(SessionCorrupt);
        }
        var now := Now();
        LicenceWidens(clock, old(ticks), ticks1, old(ticks), ticks);
        if now.Err? {
          return Err(now.error);
        }
        var reusable := UsableStoredAccess(x, decoded.value, now.value, rejected);
        now := Now();
        LicenceWidens(clock, old(ticks), ticks1, old(ticks), ticks);
        if now.Err? {
          return Err(now.error);
        }
        if x.instant(decoded.value.loginCodeExpiresAt) <= now.value || reusable.None? {
          return Ok(None);
        }
        captured := Some(Captured(reusable.value.token, x.instant(reusable.value.expiresAt), decoded.value.sessionId));
      }
      if snapshot.value.revision < 1 {
        return Err(ReexchangeUnknown);
      }
      var b := BearerOf(captured.value, snapshot.value.revision);
      OccurredSupplies(x, config, first, log, snapshot.value, b);
      return Ok(Some(b));
    }

    twostate predicate GrewByFlight(f: Flight)
      reads this
    {
      && old(log) <= log && old(ticks) <= ticks
      && forall i | |old(log)| <= i < |log| :: FlightLicenses(clock, old(ticks), ticks, f, log[i])
    }

    /** The flight brought a terminal refusal, and the record is gone. */
    predicate FlightRefused(f: Flight)
      reads this
    {
      (AuthoritativeFailure(f.first) || AuthoritativeFailure(f.second)) && record.None?
    }

    predicate FlightReminted(f: Flight) {
      Reminted(f.first, f.rejected) || Reminted(f.second, f.rejected)
    }

    /** The bearer a flight that went well left in the cache. */
    function Installed(r: Result<(), AuthError>): Result<Bearer, AuthError>
      reads this
      requires r.Ok? ==> access.Some?
    {
      match r
      case Ok(_) => Ok(access.value)
      case Err(e) => Err(e)
    }

    /**
     Install a bearer the record supplied, allowing one fresh attempt after a joined flight that brought nothing usable.
     */
    method Reexchange(f: Flight) returns (r: Result<(), AuthError>, passes: nat)
      requires Valid() && DecodedFlight(x, f)
      modifies this
      ensures Valid() && ClockKept() && GrewByFlight(f) && 1 <= passes <= 2
      ensures r.Err? ==> access == old(access)
      ensures r.Ok? ==> access.Some?
      ensures (&& f.first.joined.None? && f.first.ready
               && ReusesNext(old(lastObservedNow), old(ticks), old(record), f.rejected)
               && old(record).value.revision >= 1) ==>
                r.Ok? && passes == 1
      ensures r.Ok? && f.rejected == Some(access.value.token) ==> FlightReminted(f)
      ensures r == Err(ReauthenticationRequired(true)) ==> FlightRefused(f)
      ensures Flown(Installed(r), passes, Here()) == FlightOf(x, config, clock, old(Here()), f)
      ensures forall b :: Installed(r) == Ok(b) <==> Installs(x, config, clock, old(Here()), f, b)
    {
      hide History, Reminted, AuthoritativeFailure, DecodedPass, Supplied, TaskLicenses, WasAbsent, AttemptOf, Keeps,
           Installs;
      ghost var flown := FlightOf(x, config, clock, Here(), f);
      assert forall b :: flown.result == Ok(b) <==> Installs(x, config, clock, Here(), f, b) by {
        forall b {
          InstalledIff(x, config, clock, Here(), f, b);
        }
      }
      var attempt := ReexchangeOnce(f.rejected, f.first);
      ghost var log1, ticks1 := log, ticks;
      passes := 1;
      if attempt.Ok? && attempt.value.None? {
        Interfere(f.between);
        ghost var log2 := log;
        attempt := ReexchangeOnce(f.rejected, f.second);
        passes := 2;
        LicenceWidens(clock, old(ticks), ticks1, old(ticks), ticks);
        LicenceWidens(clock, ticks1, ticks, old(ticks), ticks);
        assert forall i | 0 <= i < |log1| :: log[i] == log1[i];
        assert forall i | 0 <= i < |log2| :: log[i] == log2[i];
      }
      if attempt.Err? {
        return Err(attempt.error), passes;
      }
      if attempt.value.None? {
        return Err(ReexchangeUnknown), passes;
      }
      access := attempt.value;
      return Ok(()), passes;
    }

    /**
     The token handed out was stored in the record, and the expiry stored beside it is more than the floor away from the
     time just observed.
     */
    predicate HandedOut(token: string)
      reads this
    {
      && lastObservedNow.Some?
      && exists n | 0 <= n <= |log| :: CarriesLive(x, config, RecordAt(first, log, n), token, lastObservedNow.value)
    }

    method CachedAccessToken() returns (r: Result<string, AuthError>)
      requires Valid()
      modifies this`ticks, this`lastObservedNow
      ensures Valid() && ClockKept() && ticks <= old(ticks) + 1
      ensures r.Ok? ==> access.Some? && access.value.token == r.value && HandedOut(r.value)
      ensures r.Ok? ==> ticks == old(ticks) + 1 && lastObservedNow == Some(clock(old(ticks)))
      ensures r.Err? ==> r.error == ClockUntrusted || r.error == ReexchangeUnknown
      ensures (&& access.Some? && Trusted(old(lastObservedNow), clock(old(ticks)))
               && access.value.expiresAt - clock(old(ticks)) > ACCESS_FLOOR_MS) ==> r.Ok?
      ensures r == if access.None? then Err(ReexchangeUnknown) else HandOver(clock, old(Here()), access.value)
    {
      hide History, Supplied, CarriesLive, WasAbsent;
      if access.None? {
        return Err(ReexchangeUnknown);
      }
      var now := Now();
      if now.Err? {
        return Err(now.error);
      }
      if access.value.expiresAt - now.value <= ACCESS_FLOOR_MS {
        return Err(ReexchangeUnknown);
      }
      var n := SuppliedIsCarried(x, config, first, log, access.value, now.value);
      return Ok(access.value.token);
    }

    /** What other tasks of this process did to the cached bearer. They can only cache bearers the record supplied. */
    method Meanwhile(m: InProcess) returns (landed: bool)
      requires Valid()
      modifies this`access
      ensures Valid() && (m.Replaced? ==> landed == Known(m.access)) && (m.Same? ==> landed)
      ensures access == if landed then Landed(m, old(access)) else old(access)
    {
      hide History, Supplied, WasAbsent;
      landed := m.Same? || Known(m.access);
      if m.Replaced? && landed {
        access := m.access;
      }
    }

    /** What the caller of a flight is told, whoever's bearer is cached by then. */
    function Landing(flown: Flown): Result<string, AuthError>
      reads this
    {
      if flown.result.Err? then Err(flown.result.error)
      else if access.None? then Err(ReexchangeUnknown)
      else HandOver(clock, flown.next, access.value)
    }

    /**
     Wait for a re-exchange, our own or the one already under way. A caller that gives up waiting is told so;
     the flight goes on.
     */
    method AwaitReexchange(f: Flight, abandoned: bool, meanwhile: InProcess) returns (r: Result<string, AuthError>)
      requires Valid() && DecodedFlight(x, f)
      modifies this
      ensures Valid() && ClockKept() && GrewByFlight(f)
      ensures r.Ok? ==> access.Some? && access.value.token == r.value && HandedOut(r.value)
      ensures r.Ok? && meanwhile.Same? && f.rejected == Some(r.value) ==> FlightReminted(f)
      ensures meanwhile.Same? && access.Some? && f.rejected == Some(access.value.token) ==>
                access == old(access) || FlightReminted(f)
      ensures r == Err(ReauthenticationRequired(true)) ==> FlightRefused(f)
      ensures abandoned ==> r == Err(CancelledByCaller)
      ensures !abandoned && meanwhile.Same? ==> r == DeliveryOf(x, config, clock, old(Here()), f)
      ensures !abandoned ==> r == Landing(FlightOf(x, config, clock, old(Here()), f))
    {
      hide History, FlightReminted, AuthoritativeFailure, DecodedPass, Supplied, FlightLicenses, HandedOut, WasAbsent,
           FlightOf, ReusesNext, HandOver;
      var outcome, _ := Reexchange(f);
      ghost var ticks1 := ticks;
      var _ := Meanwhile(meanwhile);
      if abandoned {
        return Err(CancelledByCaller);
      }
      if outcome.Err? {
        return Err(outcome.error);
      }
      r := CachedAccessToken();
      LicenceWidens(clock, old(ticks), ticks1, old(ticks), ticks);
    }

    /** The cached bearer has life left at the next two readings, both of which are trusted. */
    predicate CachedLive()
      reads this
    {
      && access.Some? && Trusted(lastObservedNow, clock(ticks)) && Trusted(Some(clock(ticks)), clock(ticks + 1))
      && access.value.expiresAt - clock(ticks + 1) > ACCESS_FLOOR_MS
    }

    /** The caller waits to the end, and no other task replaces the cached bearer meanwhile. */
    predicate Waits(w: Wait) {
      !w.cancelled && !w.abandoned && w.meanwhile.Same?
    }

    /** A cached bearer with life left is handed out without touching the vault. */
    method AcquireAccessToken(f: Flight, w: Wait) returns (r: Result<string, AuthError>)
      requires Valid() && DecodedFlight(x, f)
      modifies this
      ensures Valid() && ClockKept() && GrewByFlight(f)
      ensures r.Ok? ==> access.Some? && access.value.token == r.value && HandedOut(r.value)
      ensures r == Err(ReauthenticationRequired(true)) ==> FlightRefused(f)
      ensures !w.cancelled && old(CachedLive()) ==>
                && r == Ok(old(access).value.token) && access == old(access) && record == old(record) && log == old(log)
                && fence == old(fence) && revoked == old(revoked)
                && ticks == old(ticks) + 2 && lastObservedNow == Some(clock(old(ticks) + 1))
      ensures w.cancelled ==> r == Err(CancelledByCaller) && record == old(record) && access == old(access)
      ensures !w.cancelled && old(access).None? ==>
                r == if w.abandoned then Err(CancelledByCaller)
                     else Landing(FlightOf(x, config, clock, old(Here()), f))
      ensures Waits(w) ==> r == AcquireOf(x, config, clock, old(Here()), old(access), f)
      ensures Waits(w) ==> forall t :: r == Ok(t) <==> Acquires(x, config, clock, old(Here()), old(access), f, t)
    {
      hide History, AuthoritativeFailure, DecodedPass, Supplied, FlightLicenses, HandedOut, WasAbsent, DeliveryOf,
           Acquires, FlightOf, HandOver;
      forall t {
        AcquiredIff(x, config, clock, Here(), access, f, t);
      }
      if w.cancelled {
        return Err(CancelledByCaller);
      }
      if access.Some? {
        var now := Now();
        if now.Err? {
          return Err(now.error);
        }
        if access.value.expiresAt - now.value > ACCESS_FLOOR_MS {
          r := CachedAccessToken();
          return;
        }
      }
      ghost var ticks1 := ticks;
      r := AwaitReexchange(f, w.abandoned, w.meanwhile);
      LicenceWidens(clock, ticks1, ticks, old(ticks), ticks);
    }

    /**
     A fresh bearer after a refusal: never the refused one, unless the server mints it again, and the refused one leaves
     the cache whether or not a fresh one is found.
     */
    method RefreshRejectedAccessToken(rejected: string, f: Flight, w: Wait) returns (r: Result<string, AuthError>)
      requires Valid() && DecodedFlight(x, f)
      modifies this
      ensures Valid() && ClockKept() && GrewByFlight(f.(rejected := Some(rejected)))
      ensures r.Ok? ==> access.Some? && access.value.token == r.value && HandedOut(r.value)
      ensures r.Ok? && w.meanwhile.Same? && r.value == rejected ==> FlightReminted(f.(rejected := Some(rejected)))
      ensures !w.cancelled && x.isAccessToken(rejected) && w.meanwhile.Same? ==>
                access.None? || access.value.token != rejected || FlightReminted(f.(rejected := Some(rejected)))
      ensures w.cancelled ==> r == Err(CancelledByCaller) && record == old(record) && access == old(access)
      ensures Waits(w) ==> r == RenewOf(x, config, clock, old(Here()), old(access), rejected, f)
      ensures Waits(w) ==>
                forall t :: r == Ok(t) <==> Renews(x, config, clock, old(Here()), old(access), rejected, f, t)
    {
      hide History, FlightReminted, AuthoritativeFailure, DecodedPass, Supplied, FlightLicenses, CarriesLive, WasAbsent,
           DeliveryOf, Renews, Landing, FlightOf;
      forall t {
        RenewedIff(x, config, clock, Here(), access, rejected, f, t);
      }
      if w.cancelled {
        return Err(CancelledByCaller);
      }
      if !x.isAccessToken(rejected) {
        return Err(ReexchangeUnknown);
      }
      if access.Some? && access.value.token != rejected {
        var now := Now();
        if now.Err? {
          return Err(now.error);
        }
        if access.value.expiresAt - now.value > ACCESS_FLOOR_MS {
          var n := SuppliedIsCarried(x, config, first, log, access.value, now.value);
          return Ok(access.value.token);
        }
      }
      access := None;
      ghost var ticks1 := ticks;
      r := AwaitReexchange(f.(rejected := Some(rejected)), w.abandoned, w.meanwhile);
      LicenceWidens(clock, ticks1, ticks, old(ticks), ticks);
    }

    // ----- removal by revision

    /** New changes were made by another process between read and compare, or under this cause. */
    twostate predicate GrewByRemoval(cause: Cause, at: DeleteWorld)
      reads this
    {
      old(log) <= log && forall i | |old(log)| <= i < |log| :: WrittenBy(at.between, log[i]) || log[i].cause == cause
    }

    function RevisionAt(e: Option<Envelope>): Option<nat> {
      if e.Some? then Some(e.value.revision) else None
    }

    /** If the delete took a record, the last new change is that; all the others are another process's. */
    twostate predicate TookAway(taken: bool, e: Option<Envelope>, cause: Cause, at: DeleteWorld)
      reads this
    {
      && old(log) <= log
      && (taken ==> |log| > |old(log)| && log[|log| - 1] == Change(e, None, cause))
      && forall i | |old(log)| <= i < (if taken then |log| - 1 else |log|) :: WrittenBy(at.between, log[i])
    }

    /**
     The vault's revision-fenced delete. With an observation of that revision in hand the exact envelope is compared;
     without one, the revision number of the envelope just read.
     */
    method DeleteIfRevision(revision: nat, cause: Cause, at: DeleteWorld) returns (r: DeleteOutcome)
      requires Valid() && RemovalJustified(x, config, revision, cause)
      modifies this`record, this`log, this`fence, this`revoked
      ensures Valid() && GrewByRemoval(cause, at)
      ensures Removal(r, record) == RemovalOf(old(record), old(fence), revision, at)
      ensures revoked == (old(revoked) || r.Deleted? || r.Absent?)
      ensures var used := 1 <= revision && at.ready && RevisionAt(old(fence)) == Some(revision);
              fence == if used then None else old(fence)
      ensures var compared := Compared(old(record), old(fence), revision);
              TookAway(Takes(old(record), old(fence), revision, at), compared, cause, at)
    {
      hide Justified, History, Supplied, WasAbsent;
      if revision < 1 || !at.ready {
        return DeleteFailed;
      }
      var expected: Envelope;
      if fence.Some? && fence.value.revision == revision {
        expected := fence.value;
        fence := None;
      } else {
        if record.None? {
          AbsentNow();
          revoked := true;
          return Absent;
        }
        if record.value.revision != revision {
          return Conflict;
        }
        expected := record.value;
      }
      r := TakeCompared(expected, cause, at);
    }

    /** The compare-and-delete of a delete by revision, after other processes had their turn. */
    method TakeCompared(expected: Envelope, cause: Cause, at: DeleteWorld) returns (r: DeleteOutcome)
      requires Valid() && Justified(x, config, Change(Some(expected), None, cause))
      modifies this`record, this`log, this`revoked
      ensures Valid()
      ensures var found := Settled(at.between, old(record));
              var taken := found == Some(expected) && !at.backend.FailsBefore?;
              && record == (if taken then None else found) && TookAway(taken, Some(expected), cause, at)
              && r == if !at.backend.Works? then DeleteFailed else if found.None? then Absent
                      else if found == Some(expected) then Deleted else Conflict
      ensures revoked == (old(revoked) || r.Deleted? || r.Absent?)
    {
      hide Justified, History, Supplied, WasAbsent;
      Interfere(at.between);
      r := CompareAndDelete(expected, cause, at.backend);
      if r.Deleted? || r.Absent? {
        AbsentNow();
        revoked := true;
      }
    }

    /** Drop the cached bearer, then the one durable revision the logout spoke for. */
    method RemoveConfirmedLocalSession(target: Option<nat>, cause: Cause, at: DeleteWorld)
      returns (r: Result<(), AuthError>)
      requires Valid() && (target.Some? ==> RemovalJustified(x, config, target.value, cause))
      modifies this`record, this`log, this`fence, this`revoked, this`access
      ensures Valid() && GrewByRemoval(cause, at) && access.None?
      ensures target.None? ==> r.Ok? && record == old(record) && log == old(log)
      ensures target.Some? ==>
                var removal := RemovalOf(old(record), old(fence), target.value, at);
                && record == removal.record && r == Confirmation(removal.outcome)
                && revoked == (old(revoked) || r.Ok?)
    {
      hide Justified, History, RemovalJustified, Supplied, RemovalOf, WasAbsent;
      access := None;
      if target.None? {
        return Ok(());
      }
      var outcome := DeleteIfRevision(target.value, cause, at);
      r := Confirmation(outcome);
    }

    /** How a confirmed sign-out reports its removal. */
    function Confirmation(outcome: DeleteOutcome): Result<(), AuthError> {
      match outcome
      case DeleteFailed => Err(CleanupFailed)
      case Conflict => Err(CleanupConflict)
      case _ => Ok(())
    }

    // ----- signing out

    /** What the step met brings no ground to end the session. */
    twostate predicate Spares(step: Step, s: Session)
      reads this
    {
      !StepGround(x, config, clock, old(ticks), ticks, old(State()), step, s)
    }

    /** Without a ground in what the step met, a session the record held is still held. */
    twostate predicate KeepsSessions(step: Step)
      reads this
    {
      forall s | Holds(x, config, old(record), s) :: Spares(step, s) ==> Holds(x, config, record, s)
    }

    /** A forgetting refresh of one's own, undisturbed by other processes. */
    predicate OwnForgetting(p: Pass) {
      (p.joined.Some? ==> p.joined.value.Forgetting?) && p.others.Quiet? && !p.backend.FailsAfter?
    }

    /** The bearer is dropped here and, as far as the store allows, on disk; the login code is not touched. */
    method AbandonBearer(p: Pass)
      requires Valid() && DecodedPass(x, p)
      modifies this
      ensures Valid() && ClockKept() && GrewByTask(Task(Forgetting, p)) && access.None?
      ensures Undisturbed(p, old(record)) ==> NoBearer(record)
      ensures OwnForgetting(p) ==> forall s | Holds(x, config, old(record), s) :: Holds(x, config, record, s)
    {
      hide DecodedPass, NoBearer, Undisturbed, AuthoritativeFailure, Supplied, History, Holds, TaskLicenses, WasAbsent,
           OwnForgetting, Occurred, Supplies, Reminted, ReusesNext;
      access := None;
      var _, _ := RefreshPass(Forgetting, p);
      if OwnForgetting(p) {
        ForgettingKeeps(p);
      }
    }

    twostate lemma ForgettingKeeps(p: Pass)
      requires old(Valid()) && Valid() && GrewByTask(Task(Forgetting, p)) && OwnForgetting(p)
      ensures forall s | Holds(x, config, old(record), s) :: Holds(x, config, record, s)
    {
      hide Supplied, Justified, Holds, DecodeStored, WasAbsent;
      forall s | Holds(x, config, old(record), s)
        ensures Holds(x, config, record, s)
      {
        if !Holds(x, config, record, s) {
          var k := SessionEndsForACause(x, config, first, log, record, |old(log)|, |log|, s);
        }
      }
    }

    twostate predicate GrewByLogout(w: LogoutWorld, target: Option<nat>)
      reads this
    {
      && old(log) <= log && old(ticks) <= ticks
      && forall i | |old(log)| <= i < |log| ::
           && LogoutLicenses(clock, old(ticks), ticks, w, log[i])
           && (log[i].cause.ConfirmedLogout? ==> target == Some(log[i].cause.revision))
    }

    /** What a definitive answer removed, and what it reports. */
    predicate Removed(w: LogoutWorld, o: SignOutReport)
      reads this
    {
      o.target.Some? ==>
        && Definitive(w.answer) && o.supplier.Some?
        && o.target == RevisionOf(SpokenFor(w, o))
        && (w.others.Wrote? ==> o.found == w.others.record)
        && var removal := RemovalOf(o.found, o.held, o.target.value, w.removal);
           record == removal.record && o.outcome == Confirmation(removal.outcome) && (o.outcome.Ok? ==> revoked)
    }

    /** The cached bearer whose revision a definitive answer removes. */
    function SpokenFor(w: LogoutWorld, o: SignOutReport): Option<Bearer> {
      if w.answer.Revoked? then o.supplier else o.cached
    }

    /** Some envelope of the history has this revision and stored this bearer. */
    predicate OfSupplier(b: Option<Bearer>, revision: nat)
      reads this
    {
      exists n | 0 <= n <= |log| :: SuppliedAs(RecordAt(first, log, n), b, revision)
    }

    predicate SuppliedAs(r: Option<Envelope>, b: Option<Bearer>, revision: nat) {
      b.Some? && SuppliesNow(x, config, r, b.value) && r.value.revision == revision
    }

    lemma KnownAs(b: Option<Bearer>)
      requires Known(b) && b.Some?
      ensures OfSupplier(b, b.value.revision)
    {
      hide DecodeStored;
      var n :| 0 <= n <= |log| && SuppliesNow(x, config, RecordAt(first, log, n), b.value);
      assert SuppliedAs(RecordAt(first, log, n), b, b.value.revision);
    }

    /** Remove the revision a definitive answer spoke for. */
    method RemoveSpoken(w: LogoutWorld, target: nat) returns (r: Result<(), AuthError>)
      requires Valid() && Definitive(w.answer)
      modifies this`record, this`log, this`fence, this`revoked, this`access
      ensures Valid() && access.None? && GrewByLogout(w, Some(target))
      ensures var removal := RemovalOf(old(record), old(fence), target, w.removal);
              record == removal.record && r == Confirmation(removal.outcome) && (r.Ok? ==> revoked)
    {
      hide Justified, History, AuthoritativePair, Supplied, TaskLicenses, FlightLicenses, RemovalOf, RemovalJustified,
           Confirmation, WasAbsent;
      LogoutIsJustified(x, config, w.answer, target);
      r := RemoveConfirmedLocalSession(Some(target), ConfirmedLogout(w.answer, target), w.removal);
    }

    /** The request is out: other processes and other tasks have their turn. */
    method AwaitAnswer(w: LogoutWorld, sent: Option<Bearer>) returns (kept: bool)
      requires Valid() && Known(sent)
      modifies this`record, this`log, this`access
      ensures Valid() && record == Settled(w.others, old(record)) && old(log) <= log
      ensures forall i | |old(log)| <= i < |log| :: WrittenBy(w.others, log[i])
      ensures Known(sent) && Known(old(access))
      ensures kept ==> access == Landed(w.during, old(access))
      ensures old(Known(Landed(w.during, None))) ==> kept
    {
      hide Justified, History, Supplied, WasAbsent;
      ghost var supplier := access;
      Interfere(w.others);
      StillKnown(old(log), sent);
      StillKnown(old(log), supplier);
      StillKnown(old(log), Landed(w.during, None));
      kept := Meanwhile(w.during);
    }

    /** Once the request has left: the answer, and what follows from it. */
    method SettleSignOut(w: LogoutWorld, sent: Option<Bearer>, handedOver: bool) returns (o: SignOutReport)
      requires Valid() && access.Some? && Known(sent) && DecodedPass(x, w.forget)
      modifies this
      ensures Valid() && ClockKept() && access.None? && GrewByLogout(w, o.target) && Removed(w, o)
      ensures o.sent == sent && o.supplier == old(access) && Known(o.sent) && Known(o.supplier) && Known(o.cached)
      ensures o.landed ==> handedOver && o.cached == Landed(w.during, o.supplier)
      ensures handedOver && old(Known(Landed(w.during, None))) ==> o.landed
      ensures !Definitive(w.answer) ==> o.target.None? && o.outcome == Err(Server(w.answer.failure))
      ensures !Definitive(w.answer) && Undisturbed(w.forget, o.found) ==> NoBearer(record)
      ensures Definitive(w.answer) ==> (o.target.None? <==> !w.answer.Revoked? && o.cached.None?)
      ensures o.target.None? ==> o.outcome.Err?
      ensures o.target.Some? ==> ticks == old(ticks) && lastObservedNow == old(lastObservedNow)
      ensures o.found == Settled(w.others, old(record)) && o.held == old(fence)
    {
      hide Justified, History, DecodedPass, AuthoritativePair, Supplied, TaskLicenses, FlightLicenses, LogoutLicenses,
           RemovalOf, RemovalJustified, Holds, Undisturbed, OwnForgetting, Confirmation, NoBearer, WasAbsent;
      o := SignOutReport(Ok(()), sent, access, None, None, None, None, handedOver);
      var kept := AwaitAnswer(w, sent);
      o := o.(cached := access, landed := handedOver && kept, found := record, held := fence);
      ghost var log1 := log;
      if w.answer.LogoutFailed? && !AuthoritativePair(w.answer.failure) {
        AbandonBearer(w.forget);
        o := o.(outcome := Err(Server(w.answer.failure)));
      } else if w.answer.LogoutFailed? && access.None? {
        o := o.(outcome := Err(CleanupFailed));
      } else {
        var target := if w.answer.Revoked? then o.supplier.value.revision else access.value.revision;
        o := o.(target := Some(target));
        var done := RemoveSpoken(w, target);
        o := o.(outcome := done);
      }
      StillKnownAll(log1, o);
      forall i | |old(log)| <= i < |log|
        ensures LogoutLicenses(clock, old(ticks), ticks, w, log[i])
        ensures log[i].cause.ConfirmedLogout? ==> o.target == Some(log[i].cause.revision)
      {
        LogoutLicences(clock, old(ticks), ticks, w, log[i]);
        assert i < |log1| ==> log[i] == log1[i];
      }
    }

    /**
     Sign out. Only a definitive answer removes a revision: that of the bearer cached when the request left, or after a
     terminal refusal that of the bearer cached when the answer came. Anything else drops the bearer and keeps the
     session.
     */
    method Logout(w: LogoutWorld) returns (o: SignOutReport)
      requires Valid() && DecodedFlight(x, w.flight) && DecodedPass(x, w.forget)
      modifies this
      ensures Valid() && ClockKept() && access.None? && GrewByLogout(w, o.target) && KeepsSessions(SignOut(w))
      // the three bearers come from envelopes of the history
      ensures o.supplier.Some? ==> o.sent.Some? && Known(o.sent) && Known(o.supplier) && Known(o.cached)
      ensures o.supplier.Some? && o.landed ==>
                o.supplier == Landed(w.handover, o.sent) && o.cached == Landed(w.during, o.supplier)
      ensures old(Known(Landed(w.handover, None))) && old(Known(Landed(w.during, None))) ==> o.landed
      // what is removed, and when that is the revision of the bearer sent
      ensures Removed(w, o) && (o.target.Some? ==> OfSupplier(SpokenFor(w, o), o.target.value))
      ensures o.target.Some? && o.landed ==>
                (o.target.value == o.sent.value.revision <==>
                 RevisionOf(Spoken(w, o.sent.value)) == Some(o.sent.value.revision))
      // what each answer leads to
      ensures o.supplier.Some? && !Definitive(w.answer) ==> o.target.None? && o.outcome == Err(Server(w.answer.failure))
      ensures o.supplier.Some? && Definitive(w.answer) ==> (o.target.None? <==> !w.answer.Revoked? && o.cached.None?)
      ensures (&& o.outcome.Err? && !(o.supplier.Some? && Definitive(w.answer)) && Undisturbed(w.forget, o.found)) ==>
                NoBearer(record)
      ensures o.outcome.Ok? && o.target.None? ==>
                AuthoritativeFailure(w.flight.first) || AuthoritativeFailure(w.flight.second)
      // the request is sent exactly when a bearer is acquired; without one the acquisition's failure is the answer
      ensures Waits(w.wait) ==>
                var acquired := AcquireOf(x, config, clock, old(Here()), old(access), w.flight);
                && (acquired.Ok? ==>
                      && o.sent.Some? && o.sent.value.token == acquired.value
                      && (o.landed ==> (o.supplier.Some? <==> Landed(w.handover, o.sent).Some?))
                      && (o.supplier.None? ==> o.outcome == Err(CleanupFailed)))
                && (acquired.Err? ==> o.sent.None? && o.supplier.None? && o.target.None?)
                && (acquired.Err? && acquired.error == ReauthenticationRequired(true) ==> o.outcome.Ok?)
                && (acquired.Err? && acquired.error != ReauthenticationRequired(true) ==>
                    o.outcome == Err(acquired.error))
      // with a live bearer cached the request is sent on it
      ensures !w.wait.cancelled && old(CachedLive()) ==>
                && o.sent == old(access)
                && (o.landed && Landed(w.handover, o.sent).Some? ==> o.supplier.Some?)
                && (o.supplier.Some? ==> o.found == Settled(w.others, old(record)) && o.held == old(fence))
                && (o.target.Some? ==> lastObservedNow == Some(clock(old(ticks) + 1)))
    {
      hide Justified, History, DecodedPass, AuthoritativeFailure, AuthoritativePair, Supplied, HandedOut, TaskLicenses,
           FlightLicenses, LogoutLicenses, RemovalOf, Holds, StepGround, Undisturbed, OwnForgetting, OfSupplier,
           NoBearer, WasAbsent, AcquireOf, Acquires, Landing, FlightOf;
      o := SignOutReport(Ok(()), None, None, None, None, None, None, true);
      var token := AcquireAccessToken(w.flight, w.wait);
      ghost var log1, ticks1 := log, ticks;
      if token == Err(ReauthenticationRequired(true)) {
        var done := RemoveConfirmedLocalSession(None, Elsewhere, w.removal);
        o := o.(outcome := done);
      } else if token.Err? {
        Interfere(w.others);
        o := o.(outcome := Err(token.error), found := record);
        AbandonBearer(w.forget);
      } else {
        var sent := access;
        StillKnown(old(log), Landed(w.handover, None));
        StillKnown(old(log), Landed(w.during, None));
        var handedOver := Meanwhile(w.handover);
        if access.None? {
          Interfere(w.others);
          o := o.(outcome := Err(CleanupFailed), sent := sent, landed := handedOver, found := record);
          AbandonBearer(w.forget);
        } else {
          o := SettleSignOut(w, sent, handedOver);
        }
      }
      forall i | |old(log)| <= i < |log|
        ensures LogoutLicenses(clock, old(ticks), ticks, w, log[i])
        ensures log[i].cause.ConfirmedLogout? ==> o.target == Some(log[i].cause.revision)
      {
        if i < |log1| {
          LogoutLicenceWidens(clock, old(ticks), ticks1, old(ticks), ticks, w, log1[i]);
        } else {
          LogoutLicenceWidens(clock, ticks1, ticks, old(ticks), ticks, w, log[i]);
        }
      }
      LicensedKeepsSessions(SignOut(w));
      if o.target.Some? {
        KnownAs(SpokenFor(w, o));
      }
    }

    /** A session is kept by changes that are all licensed by a step without a ground. */
    twostate lemma LicensedKeepsSessions(step: Step)
      requires old(Valid()) && Valid() && old(log) <= log && old(ticks) <= ticks
      requires forall i | |old(log)| <= i < |log| ::
                StepLicenses(x, config, clock, old(ticks), ticks, old(State()), step, log, |old(log)|, i)
      ensures KeepsSessions(step)
    {
      hide Justified, Supplied, Holds, StepGround, StepLicenses, WasAbsent;
      var g := Segment(old(State()), step, |old(log)|, |log|, old(ticks), ticks);
      assert log[..|old(log)|] == old(log) && RecordAt(first, log, |old(log)|) == old(record);
      forall s | Holds(x, config, old(record), s) && Spares(step, s)
        ensures Holds(x, config, record, s)
      {
        SegmentKeepsSession(x, config, clock, first, log, record, g, s);
      }
    }

    lemma StillKnownAll(prefix: seq<Change>, o: SignOutReport)
      requires prefix <= log
      requires o.sent.Some? ==> Supplied(x, config, first, prefix, o.sent.value)
      requires o.supplier.Some? ==> Supplied(x, config, first, prefix, o.supplier.value)
      requires o.cached.Some? ==> Supplied(x, config, first, prefix, o.cached.value)
      ensures Known(o.sent) && Known(o.supplier) && Known(o.cached)
    {
      hide Supplied;
      StillKnown(prefix, o.sent);
      StillKnown(prefix, o.supplier);
      StillKnown(prefix, o.cached);
    }

    lemma StillKnown(prefix: seq<Change>, b: Option<Bearer>)
      requires prefix <= log
      ensures (b.Some? ==> Supplied(x, config, first, prefix, b.value)) ==> Known(b)
    {
      hide Supplied, WasAbsent;
      if b.Some? && Supplied(x, config, first, prefix, b.value) {
        SuppliedStays(x, config, first, prefix, log, b.value);
      }
    }

    // ----- signing in

    /** The write of a rotation is entry `at` of the log; every other new entry was written by someone else. */
    twostate predicate RotatedAt(new stored: Option<nat>, payload: Wire, expiresAt: int, at: RotateWorld)
      reads this
    {
      && old(log) <= log
      && (forall i | |old(log)| <= i < |log| && stored != Some(i) ::
          WrittenBy(at.between, log[i]) || WrittenAfter(at.backend, log[i]))
      && (stored.Some? ==>
            && |old(log)| <= stored.value < |log|
            && log[stored.value] ==
               Change(
                 old(record),
                 Some(Envelope(NextRevision(old(record)), at.storedAt, Some(expiresAt), payload)),
                 LoggedIn))
    }

    /** The vault's plain rotation: no expected revision, so whatever record is there is replaced. */
    method RotateStored(payload: Wire, expiresAt: int, at: RotateWorld)
      returns (r: Result<nat, VaultError>, stored: Option<nat>)
      requires Valid() && forall current :: RotationJustified(x, config, current, payload, expiresAt, LoggedIn)
      modifies this`record, this`log, this`fence, this`revoked
      ensures Valid() && RotatedAt(stored, payload, expiresAt, at)
      ensures stored.Some? <==>
                && at.ready && at.storedAt < expiresAt && !at.backend.FailsBefore?
                && Settled(at.between, old(record)) == old(record)
      ensures r.Ok? ==>
                && stored.Some? && record == log[stored.value].after && r.value == NextRevision(old(record))
                && fence.None? && !revoked
      ensures stored.Some? ==> (r.Ok? <==> Acknowledged(at.backend, log[stored.value].after))
      ensures stored.Some? && r.Err? ==>
                at.backend.FailsAfter? && record == Settled(at.backend.next, log[stored.value].after)
      ensures fence == if at.ready then None else old(fence)
    {
      hide Justified, History, Supplied, WasAbsent;
      stored := None;
      if !at.ready {
        return Err(VaultUnavailable), None;
      }
      fence := None;
      var current := record;
      Interfere(at.between);
      ghost var log1 := log;
      var length := |log|;
      var rotated := ApplyDecision(current, Rotate(payload, expiresAt, LoggedIn), at.storedAt, at.backend);
      if length < |log| {
        stored := Some(length);
      }
      assert forall i | 0 <= i < |log1| :: log[i] == log1[i];
      r := if rotated.Err? then Err(rotated.error) else Ok(rotated.value.revision);
    }

    /** Every change appended since the call is licensed by what the sign-in met. */
    twostate predicate GrewByLogin(w: LoginWorld)
      reads this
    {
      && old(log) <= log && old(ticks) <= ticks
      && forall i | |old(log)| <= i < |log| ::
           LoginLicenses(x, config, clock(old(ticks)), old(State()), w, log, |old(log)|, i)
    }

    /** New changes are the sign-in's own write or were made around it by other processes. */
    twostate predicate GrewByStoring(w: LoginWorld, new stored: Option<nat>)
      reads this
    {
      && old(log) <= log && old(ticks) <= ticks
      && forall i | |old(log)| <= i < |log| ::
           if stored == Some(i) then StoresSignIn(x, config, w, log[i])
           else WrittenBy(w.rotation.between, log[i]) || WrittenAfter(w.rotation.backend, log[i])
    }

    /** The sign-in's own write is entry `stored` of the log, made over this record; no other new entry is a sign-in. */
    twostate predicate SignedInAt(new stored: Option<nat>, over: Option<Envelope>)
      reads this
    {
      && old(log) <= log
      && (forall i | |old(log)| <= i < |log| :: log[i].cause.LoggedIn? <==> stored == Some(i))
      && (stored.Some? ==> |old(log)| <= stored.value < |log| && log[stored.value].before == over)
    }

    /** The two readings a sign-in takes are trusted, and the bearer it brought has life left at the second. */
    predicate BringsLife(w: LoginWorld)
      reads this
    {
      && Trusted(lastObservedNow, clock(ticks)) && Trusted(Some(clock(ticks)), clock(ticks + 1))
      && HasLife(w, clock(ticks + 1))
    }

    /** More than the floor is left of the bearer the sign-in brought. */
    predicate HasLife(w: LoginWorld, now: int) {
      x.instant(w.exchange.accessExpiresAt) - now > ACCESS_FLOOR_MS
    }

    function SignInBearer(w: LoginWorld, revision: nat): Bearer {
      Bearer(w.exchange.accessToken, x.instant(w.exchange.accessExpiresAt), w.exchange.sessionId, revision)
    }

    /** The checks a sign-in passes between the exchange and the vault. */
    predicate Admitted(w: LoginWorld)
      reads this
    {
      && !w.cancelledAfterExchange && Trusted(lastObservedNow, clock(ticks)) && AdmitsContext(w)
      && clock(ticks) < x.instant(w.exchange.loginCodeExpiresAt) && clock(ticks) < x.instant(w.exchange.accessExpiresAt)
    }

    /** What storing a sign-in leaves: its write, and a bearer cached only with the envelope that stores it. */
    method StoreSignIn(w: LoginWorld) returns (r: Result<(), AuthError>, persisted: Option<nat>, stored: Option<nat>)
      requires Valid() && w.exchanged && ValidSession(x, SignedIn(x, config, w), config)
      modifies this
      ensures Valid() && ClockKept() && GrewByStoring(w, stored) && SignedInAt(stored, old(record))
      ensures stored.Some? <==>
                && old(Admitted(w)) && w.rotation.ready
                && w.rotation.storedAt < x.instant(w.exchange.loginCodeExpiresAt)
                && !w.rotation.backend.FailsBefore? && Settled(w.rotation.between, old(record)) == old(record)
      ensures r.Ok? ==> persisted.Some? && (access == old(access) || access == Some(SignInBearer(w, persisted.value)))
      ensures r.Err? ==> access == old(access)
      ensures persisted.Some? ==>
                && stored.Some? && StoredAs(log[stored.value], persisted.value) && record == log[stored.value].after
                && SessionIn(x, config, record) == Some(SignedIn(x, config, w))
                && persisted.value == NextRevision(old(record)) && fence.None?
      ensures persisted.Some? <==> stored.Some? && Acknowledged(w.rotation.backend, log[stored.value].after)
      ensures r.Ok? ==>
                access == if HasLife(w, clock(old(ticks) + 1)) then Some(SignInBearer(w, NextRevision(old(record))))
                          else old(access)
      ensures var stop := StopsAfterExchange(x, old(lastObservedNow), clock(old(ticks)), w);
              stop.Some? ==> r == Err(stop.value)
      ensures persisted.Some? && r.Err? <==>
                persisted.Some? && (w.cancelledAfterStore || !Trusted(Some(clock(old(ticks))), clock(old(ticks) + 1)))
      ensures persisted.Some? && r.Err? ==>
                r.error == if w.cancelledAfterStore then CancelledByCaller else ClockUntrusted
      ensures stored.Some? && persisted.None? ==>
                && r.Err? && w.rotation.backend.FailsAfter?
                && record == Settled(w.rotation.backend.next, log[stored.value].after)
      ensures stored.Some? && w.rotation.backend.Works? && !w.cancelledAfterStore && old(BringsLife(w)) ==>
                && r.Ok? && persisted.Some? && access == Some(SignInBearer(w, NextRevision(old(record))))
                && fence.None? && !revoked
                && lastObservedNow == Some(clock(old(ticks) + 1)) && ticks == old(ticks) + 2
    {
      hide History, DecodeStored, EncodeStored, ValidSession, Supplied, Justified, RotationJustified, AdmitsContext,
           WasAbsent;
      var s := SignedIn(x, config, w);
      persisted, stored := None, None;
      if w.cancelledAfterExchange {
        return Err(CancelledByCaller), None, None;
      }
      var now := Now();
      if now.Err? {
        return Err(now.error), None, None;
      }
      if x.instant(s.loginCodeExpiresAt) <= now.value || x.instant(w.exchange.accessExpiresAt) <= now.value {
        return Err(TokenExpired), None, None;
      }
      if !AdmitsContext(w) {
        return Err(ContextRefused), None, None;
      }
      SignInIsJustified(x, config, s);
      StoredRoundTrip(x, s, config);
      var rotated: Result<nat, VaultError>;
      rotated, stored := RotateStored(EncodeStored(s), x.instant(s.loginCodeExpiresAt), w.rotation);
      if rotated.Err? {
        return Err(Vault(rotated.error)), None, stored;
      }
      persisted := Some(rotated.value);
      if w.cancelledAfterStore {
        return Err(CancelledByCaller), persisted, stored;
      }
      now := Now();
      if now.Err? {
        return Err(now.error), persisted, stored;
      }
      if x.instant(w.exchange.accessExpiresAt) - now.value > ACCESS_FLOOR_MS && 1 <= rotated.value {
        var b := SignInBearer(w, rotated.value);
        RecordSupplies(b);
        access := Some(b);
      }
      return Ok(()), persisted, stored;
    }

    /** A bearer stored in the present record is one the history supplied. */
    lemma RecordSupplies(b: Bearer)
      requires Valid() && record.Some? && Supplies(x, config, record.value, b)
      ensures Known(Some(b))
    {
      hide Justified, Supplies;
      assert SuppliesNow(x, config, RecordAt(first, log, |log|), b);
    }

    /** The changes a failed sign-in's cleanup logged: if it took a record, the one it found. */
    twostate predicate CleanedUp(taken: bool, found: Option<Envelope>)
      reads this
    {
      && old(log) <= log
      && (taken <==> exists i :: |old(log)| <= i < |log| && log[i].cause.FailedLogin?)
      && forall i | |old(log)| <= i < |log| && log[i].cause.FailedLogin? :: log[i].before == found && log[i].after.None?
    }

    /**
     Sign in. It stores its session exactly when every check passes and the compare-and-swap finds what was read; that
     write replaces whatever the vault held then. If it fails although the vault has acknowledged the write, it deletes
     by the number it stored.
     */
    method Login(w: LoginWorld) returns (r: Result<(), AuthError>, stored: Option<nat>, persisted: Option<nat>)
      requires Valid() && (w.exchanged ==> ValidSession(x, SignedIn(x, config, w), config))
      modifies this
      ensures Valid() && ClockKept() && GrewByLogin(w)
      // what it stores, and over what
      ensures stored.Some? <==> Commits(x, old(record), old(revoked), old(lastObservedNow), clock(old(ticks)), w)
      ensures SignedInAt(stored, Settled(w.others, old(record)))
      ensures stored.Some? && log[stored.value].before.Some? <==>
                Overwrites(x, old(record), old(revoked), old(lastObservedNow), clock(old(ticks)), w)
      ensures r.Ok? ==>
                persisted.Some? && access == if HasLife(w, clock(old(ticks) + 1))
                                             then Some(SignInBearer(w, persisted.value)) else old(access)
      ensures var stop := Stops(x, old(State()), clock(old(ticks)), w);
              stop.Some? ==> r == Err(stop.value)
      ensures !FreeToSignIn(old(record), old(revoked), w.checkedAt) ==>
                r.Err? && record == old(record) && log == old(log)
      ensures r.Ok? ==> SessionIn(x, config, record) == Some(SignedIn(x, config, w))
      ensures r.Err? ==> access == old(access)
      // what it does when it fails after the store
      ensures persisted.Some? ==> stored.Some? && StoredAs(log[stored.value], persisted.value)
      ensures persisted.Some? ==> persisted.value == NextRevision(Settled(w.others, old(record)))
      ensures persisted.Some? <==> stored.Some? && Acknowledged(w.rotation.backend, log[stored.value].after)
      ensures persisted.Some? ==>
                (r.Err? <==> w.cancelledAfterStore || !Trusted(Some(clock(old(ticks))), clock(old(ticks) + 1)))
      ensures persisted.Some? && r.Err? ==>
                var found := LastOf(w.aftermath, log[stored.value].after);
                var removal := RemovalOf(found, None, persisted.value, w.removal);
                && record == removal.record
                && r.error == (if removal.outcome.DeleteFailed? then CleanupFailed
                               else if w.cancelledAfterStore then CancelledByCaller else ClockUntrusted)
                && CleanedUp(Takes(found, None, persisted.value, w.removal), found)
                && (w.aftermath == [] && w.removal == DeleteWorld(true, Quiet, Works) ==> record.None?)
      ensures !(persisted.Some? && r.Err?) ==> CleanedUp(false, None)
      ensures stored.Some? && persisted.None? ==>
                && r.Err? && w.rotation.backend.FailsAfter?
                && record == Settled(w.rotation.backend.next, log[stored.value].after)
      // and when nothing goes wrong
      ensures stored.Some? && w.rotation.backend.Works? && !w.cancelledAfterStore && old(BringsLife(w)) ==>
                && r.Ok? && record == log[stored.value].after && fence.None? && !revoked
                && record.Some? && record.value.revision == NextRevision(Settled(w.others, old(record)))
                && access == Some(SignInBearer(w, NextRevision(Settled(w.others, old(record)))))
                && lastObservedNow == Some(clock(old(ticks) + 1)) && ticks == old(ticks) + 2
    {
      hide History, ValidSession, SignedIn, SessionIn, Supplied, AdmitsContext, RemovalOf, WasAbsent, Takes,
           LoginLicenses, StoresSignIn;
      stored, persisted := None, None;
      if w.cancelled {
        return Err(CancelledByCaller), None, None;
      }
      if !w.ready {
        return Err(StoreUnavailable), None, None;
      }
      if !FreeToSignIn(record, revoked, w.checkedAt) {
        return Err(AlreadySignedIn), None, None;
      }
      Interfere(w.others);
      ghost var log1 := log;
      if w.exchanged {
        r, stored, persisted := FinishSignIn(w);
      } else {
        r := Err(ContinuationFailed);
      }
      LoginSegments(w, old(State()), clock(old(ticks)), old(log), log1, persisted, stored);
    }

    /** New changes are the sign-in's own write, its cleanup after that, or were made around them by other processes. */
    twostate predicate GrewByFinishing(w: LoginWorld, new stored: Option<nat>, new persisted: Option<nat>)
      reads this
    {
      && old(log) <= log && old(ticks) <= ticks
      && forall i | |old(log)| <= i < |log| :: FinishLicenses(w, log, i, stored, persisted)
    }

    predicate FinishLicenses(w: LoginWorld, log: seq<Change>, i: nat, stored: Option<nat>, persisted: Option<nat>)
      requires i < |log|
    {
      var ch := log[i];
      if stored == Some(i) then ch.cause.LoggedIn? && StoresSignIn(x, config, w, ch)
      else
        || WrittenBy(w.rotation.between, ch) || WrittenAfter(w.rotation.backend, ch)
        || WrittenAmong(w.aftermath, ch) || WrittenBy(w.removal.between, ch)
        || (&& persisted.Some? && ch.cause == FailedLogin(persisted.value)
            && stored.Some? && stored.value < i && StoredAs(log[stored.value], persisted.value))
    }

    /** The rest of a sign-in once the exchange has answered: store, and clean up if that was not the end of it. */
    method FinishSignIn(w: LoginWorld) returns (r: Result<(), AuthError>, stored: Option<nat>, persisted: Option<nat>)
      requires Valid() && w.exchanged && ValidSession(x, SignedIn(x, config, w), config)
      modifies this
      ensures Valid() && ClockKept() && GrewByFinishing(w, stored, persisted) && SignedInAt(stored, old(record))
      ensures stored.Some? <==>
                && old(Admitted(w)) && w.rotation.ready
                && w.rotation.storedAt < x.instant(w.exchange.loginCodeExpiresAt)
                && !w.rotation.backend.FailsBefore? && Settled(w.rotation.between, old(record)) == old(record)
      ensures r.Ok? ==> SessionIn(x, config, record) == Some(SignedIn(x, config, w))
      ensures r.Err? ==> access == old(access)
      ensures persisted.Some? ==> stored.Some? && StoredAs(log[stored.value], persisted.value)
      ensures persisted.Some? ==> persisted.value == NextRevision(old(record))
      ensures persisted.Some? <==> stored.Some? && Acknowledged(w.rotation.backend, log[stored.value].after)
      ensures r.Ok? ==>
                persisted.Some? && access == if HasLife(w, clock(old(ticks) + 1))
                                             then Some(SignInBearer(w, persisted.value)) else old(access)
      ensures var stop := StopsAfterExchange(x, old(lastObservedNow), clock(old(ticks)), w);
              stop.Some? ==> r == Err(stop.value)
      ensures persisted.Some? ==>
                (r.Err? <==> w.cancelledAfterStore || !Trusted(Some(clock(old(ticks))), clock(old(ticks) + 1)))
      ensures persisted.Some? && r.Err? ==>
                var found := LastOf(w.aftermath, log[stored.value].after);
                var removal := RemovalOf(found, None, persisted.value, w.removal);
                && record == removal.record
                && r.error == (if removal.outcome.DeleteFailed? then CleanupFailed
                               else if w.cancelledAfterStore then CancelledByCaller else ClockUntrusted)
                && CleanedUp(Takes(found, None, persisted.value, w.removal), found)
                && (w.aftermath == [] && w.removal == DeleteWorld(true, Quiet, Works) ==> record.None?)
      ensures !(persisted.Some? && r.Err?) ==> CleanedUp(false, None)
      ensures stored.Some? && persisted.None? ==>
                && r.Err? && w.rotation.backend.FailsAfter?
                && record == Settled(w.rotation.backend.next, log[stored.value].after)
      ensures stored.Some? && w.rotation.backend.Works? && !w.cancelledAfterStore && old(BringsLife(w)) ==>
                && r.Ok? && record == log[stored.value].after && fence.None? && !revoked
                && record.Some? && record.value.revision == NextRevision(old(record))
                && access == Some(SignInBearer(w, NextRevision(old(record))))
                && lastObservedNow == Some(clock(old(ticks) + 1)) && ticks == old(ticks) + 2
    {
      hide History, ValidSession, SignedIn, SessionIn, Supplied, AdmitsContext, RemovalOf, WasAbsent, Takes,
           StoresSignIn;
      r, persisted, stored := StoreSignIn(w);
      ghost var log1 := log;
      if r.Err? && persisted.Some? {
        var outcome := CleanUp(w, persisted.value);
        if outcome.DeleteFailed? {
          r := Err(CleanupFailed);
        }
      }
      assert forall i | 0 <= i < |log1| :: log[i] == log1[i];
    }

    /** The cleanup of a failed sign-in: other processes have had their turn before it reads the record. */
    method CleanUp(w: LoginWorld, revision: nat) returns (r: DeleteOutcome)
      requires Valid() && fence.None? && record.Some? && record.value.revision == revision && 1 <= revision
      modifies this`record, this`log, this`fence, this`revoked
      ensures Valid() && old(log) <= log && fence.None?
      ensures var found := LastOf(w.aftermath, old(record));
              && Removal(r, record) == RemovalOf(found, None, revision, w.removal)
              && CleanedUp(Takes(found, None, revision, w.removal), found)
      ensures w.aftermath == [] && w.removal == DeleteWorld(true, Quiet, Works) ==> record.None?
      ensures forall i | |old(log)| <= i < |log| ::
                || WrittenAmong(w.aftermath, log[i]) || WrittenBy(w.removal.between, log[i])
                || log[i].cause == FailedLogin(revision)
    {
      hide History, Justified, Supplied, WasAbsent;
      InterfereInTurn(w.aftermath);
      ghost var log1 := log;
      CleanupIsJustified(x, config, revision);
      r := DeleteIfRevision(revision, FailedLogin(revision), w.removal);
      assert forall i | 0 <= i < |log1| :: log[i] == log1[i];
    }

    /** The two parts of a sign-in: others before it, and the rest. */
    lemma LoginSegments(w: LoginWorld, at: Start, now: int, log0: seq<Change>, log1: seq<Change>,
                        persisted: Option<nat>,
                        stored: Option<nat>)
      requires log0 <= log1 <= log
      requires forall i | |log0| <= i < |log1| :: WrittenBy(w.others, log1[i])
      requires forall i | |log1| <= i < |log| :: FinishLicenses(w, log, i, stored, persisted)
      requires stored.Some? ==> |log1| <= stored.value < |log| && CommitsFrom(x, at, now, w)
      ensures forall i | |log0| <= i < |log| :: LoginLicenses(x, config, now, at, w, log, |log0|, i)
      ensures forall i | |log0| <= i < |log| :: log[i].cause.LoggedIn? <==> stored == Some(i)
    {
      hide StoresSignIn, CommitsFrom;
      forall i | |log0| <= i < |log|
        ensures LoginLicenses(x, config, now, at, w, log, |log0|, i)
        ensures log[i].cause.LoggedIn? <==> stored == Some(i)
      {
        if i < |log1| {
          assert log[i] == log1[i];
        } else {
          assert FinishLicenses(w, log, i, stored, persisted);
        }
      }
    }

    // ----- runs

    /** One call of the service, or one write by another process. */
    method Perform(step: Step)
      requires Valid() && ValidStep(x, config, step)
      modifies this
      ensures Valid() && ClockKept() && old(log) <= log && KeepsSessions(step)
      ensures forall i | |old(log)| <= i < |log| ::
                StepLicenses(x, config, clock, old(ticks), ticks, old(State()), step, log, |old(log)|, i)
    {
      hide History, ValidSession, DecodedPass, Supplied, FlightLicenses, LogoutLicenses, LoginLicenses, Holds,
           StepGround, HandedOut,
           Removed, Commits, Overwrites, WasAbsent;
      match step {
        case Acquire(f, w) =>
          var _ := AcquireAccessToken(f, w);
        case Refuse(token, f, w) =>
          var _ := RefreshRejectedAccessToken(token, f, w);
        case SignOut(w) =>
          var _ := Logout(w);
        case SignIn(w) =>
          var _, _, _ := Login(w);
        case Outside(others) =>
          Interfere(others);
      }
      LicensedKeepsSessions(step);
    }

    /** The steps of the run, one segment each. */
    ghost predicate Performs(run: seq<Segment>, steps: seq<Step>) {
      |run| == |steps| && forall i | 0 <= i < |steps| :: run[i].step == steps[i]
    }

    /**
     Every run, from any record and with any interference: each change is justified and licensed by the step that made
     it, and a session for which no step brings a ground is still in the record.
     */
    method Run(steps: seq<Step>) returns (ghost run: seq<Segment>)
      requires Valid() && forall i | 0 <= i < |steps| :: ValidStep(x, config, steps[i])
      modifies this
      ensures Valid() && ClockKept() && old(log) <= log
      ensures Performs(run, steps) && RunLicensed(x, config, clock, first, log, |old(log)|, run)
      ensures forall s | Holds(x, config, old(record), s) && NoGround(x, config, clock, run, s) ::
                Holds(x, config, record, s)
    {
      hide History, ValidStep, Supplied, StepLicenses, SegmentLicensed, Holds, NoGround, StepGround, WasAbsent;
      run := [];
      for i := 0 to |steps|
        invariant Valid() && ClockKept() && old(log) <= log && |run| == i
        invariant forall k | 0 <= k < i :: run[k].step == steps[k]
        invariant RunLicensed(x, config, clock, first, log, |old(log)|, run)
      {
        ghost var at, log1, ticks1 := State(), log, ticks;
        RecordIsLast();
        Perform(steps[i]);
        ghost var g := Segment(at, steps[i], |log1|, |log|, ticks1, ticks);
        assert log[..|log1|] == log1;
        SegmentOf(g);
        RunGrows(x, config, clock, first, log1, log, |old(log)|, run, g);
        run := run + [g];
      }
      RunKeeps(run);
    }

    lemma SegmentOf(g: Segment)
      requires g.lo <= g.hi <= |log| && g.from <= g.to
      requires g.at.record == RecordAt(first, log, g.lo) && (g.at.revoked ==> WasAbsent(first, log[..g.lo]))
      requires forall i | g.lo <= i < g.hi :: StepLicenses(x, config, clock, g.from, g.to, g.at, g.step, log, g.lo, i)
      ensures SegmentLicensed(x, config, clock, first, log, g)
    {
      hide StepLicenses;
    }

    twostate lemma RunKeeps(run: seq<Segment>)
      requires old(Valid()) && Valid() && old(log) <= log && RunLicensed(x, config, clock, first, log, |old(log)|, run)
      ensures forall s | Holds(x, config, old(record), s) && NoGround(x, config, clock, run, s) ::
                Holds(x, config, record, s)
    {
      hide Justified, Supplied, Holds, NoGround, SegmentLicensed, WasAbsent;
      assert RecordAt(first, log, |old(log)|) == old(record);
      forall s | Holds(x, config, old(record), s) && NoGround(x, config, clock, run, s)
        ensures Holds(x, config, record, s)
      {
        RunKeepsSession(x, config, clock, first, log, record, |old(log)|, run, |run|, s);
      }
    }
  }
}
