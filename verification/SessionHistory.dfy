/**
 What the history of the sign-in record says: which grounds can end a session, and when the revision number alone tells
 a newer record from the one a logout may remove.
 */
module SessionHistory {
  import opened Options
  import opened StoredSession
  import opened SessionWorld

  // ----- the session

  /** Two sessions that differ in nothing but the cached bearer. */
  predicate SameButBearer(s: Session, t: Session) {
    s.(access := None) == t.(access := None)
  }

  /** The record holds this session, login code and all, with whatever bearer. */
  predicate Holds(x: Syntax, c: Config, r: Option<Envelope>, s: Session) {
    SessionIn(x, c, r).Some? && SameButBearer(SessionIn(x, c, r).value, s)
  }

  /** A change that took the session away, with what its cause says of this session. */
  predicate EndsSession(x: Syntax, c: Config, ch: Change, s: Session) {
    && Holds(x, c, ch.before, s) && !Holds(x, c, ch.after, s)
    && match ch.cause
       case Elsewhere => true
       case LoggedIn => true
       case RemoteRejection(f) => ch.after.None? && AuthoritativePair(f)
       case LocalExpiry(now) => ch.after.None? && x.instant(s.loginCodeExpiresAt) <= now
       case IntegrityMismatch(e, now) => ch.after.None? && !Continues(x, s, e, now)
       case ConfirmedLogout(a, revision) => ch.after.None? && Definitive(a)
       case FailedLogin(revision) => ch.after.None?
       case _ => false
  }

  lemma OtherCausesKeepSession(x: Syntax, c: Config, ch: Change, s: Session)
    requires Justified(x, c, ch) && Holds(x, c, ch.before, s) && !Holds(x, c, ch.after, s)
    ensures EndsSession(x, c, ch, s)
  {
    hide DecodeStored, AuthoritativePair;
    if ch.cause.IntegrityMismatch? {
      ContinuingIgnoresBearer(x, SessionIn(x, c, ch.before).value, s, ch.cause.exchange, ch.cause.now);
    }
  }

  lemma ContinuingIgnoresBearer(x: Syntax, s: Session, t: Session, e: Exchange, now: int)
    requires SameButBearer(s, t)
    ensures Continues(x, s, e, now) <==> Continues(x, t, e, now)
  {
    hide AdvancesSignup;
  }

  /** Whenever a session is gone, one of those events took it, between the two observations. */
  lemma {:induction false} SessionEndsForACause(
    x: Syntax, c: Config, first: Option<Envelope>, log: seq<Change>, record: Option<Envelope>, i: nat, j: nat,
    s: Session)
    returns (k: nat)
    requires History(x, c, first, log, record) && i <= j <= |log|
    requires Holds(x, c, RecordAt(first, log, i), s) && !Holds(x, c, RecordAt(first, log, j), s)
    ensures i <= k < j && EndsSession(x, c, log[k], s)
    decreases j - i
  {
    hide Justified, Holds, EndsSession;
    assert Justified(x, c, log[i]) && log[i].before == RecordAt(first, log, i);
    if Holds(x, c, log[i].after, s) {
      k := SessionEndsForACause(x, c, first, log, record, i + 1, j, s);
    } else {
      k := i;
      OtherCausesKeepSession(x, c, log[i], s);
    }
  }

  // ----- the grounds on which a step can end a session

  predicate WritesAway(x: Syntax, c: Config, o: Others, s: Session) {
    o.Wrote? && !Holds(x, c, o.record, s)
  }

  /** At this time the login code has expired, or the answer does not continue the session. */
  predicate BringsDown(x: Syntax, s: Session, outcome: ExchangeOutcome, now: int) {
    x.instant(s.loginCodeExpiresAt) <= now || (outcome.Exchanged? && !Continues(x, s, outcome.exchange, now))
  }

  /**
   The grounds of one vault refresh: another process's write; or, for a re-exchange, an authoritative refusal, the login
   code's expiry at a reading, or an answer that at a reading does not continue the session.
   */
  predicate TaskGround(x: Syntax, c: Config, clock: nat -> int, from: nat, to: nat, t: Task, s: Session) {
    && t.pass.ready
    && (|| WritesAway(x, c, t.pass.others, s)
        || (t.pass.backend.FailsAfter? && WritesAway(x, c, t.pass.backend.next, s))
        || (&& Running(t).Reexchanging?
            && (AuthoritativeFailure(t.pass) || exists k | from <= k < to ::
                BringsDown(x, s, t.pass.outcome, clock(k)))))
  }

  predicate FlightGround(x: Syntax, c: Config, clock: nat -> int, from: nat, to: nat, f: Flight, s: Session) {
    || TaskGround(x, c, clock, from, to, FirstTask(f), s) || TaskGround(x, c, clock, from, to, SecondTask(f), s)
    || WritesAway(x, c, f.between, s)
  }

  /**
   The grounds of a step: those of its refreshes, others' writes, a definitive logout, or a sign-in that is stored.
   */
  predicate StepGround(x: Syntax, c: Config, clock: nat -> int, from: nat, to: nat, at: Start, step: Step, s: Session) {
    match step
    case Acquire(f, _) => FlightGround(x, c, clock, from, to, f, s)
    case Refuse(token, f, _) => FlightGround(x, c, clock, from, to, f.(rejected := Some(token)), s)
    case SignOut(w) =>
      || FlightGround(x, c, clock, from, to, w.flight, s)
      || TaskGround(x, c, clock, from, to, Task(Forgetting, w.forget), s)
      || WritesAway(x, c, w.others, s) || WritesAway(x, c, w.removal.between, s)
      || Definitive(w.answer)
    case SignIn(w) =>
      || WritesAway(x, c, w.others, s) || WritesAway(x, c, w.rotation.between, s)
      || WritesAway(x, c, w.removal.between, s)
      || (exists k | 0 <= k < |w.aftermath| :: !Holds(x, c, w.aftermath[k], s))
      || (w.rotation.backend.FailsAfter? && WritesAway(x, c, w.rotation.backend.next, s))
      || CommitsFrom(x, at, clock(from), w)
    case Outside(o) => WritesAway(x, c, o, s)
  }

  lemma TaskEndsOnAGround(x: Syntax, c: Config, clock: nat -> int, from: nat, to: nat, t: Task, ch: Change, s: Session)
    requires TaskLicenses(clock, from, to, t, ch) && EndsSession(x, c, ch, s)
    ensures TaskGround(x, c, clock, from, to, t, s)
  {
    hide Holds, Continues, AuthoritativePair;
    if ch.cause.LocalExpiry? || ch.cause.IntegrityMismatch? {
      var k :| from <= k < to && clock(k) == ch.cause.now;
      assert BringsDown(x, s, t.pass.outcome, clock(k));
    }
  }

  lemma StepEndsOnAGround(
    x: Syntax, c: Config, clock: nat -> int, from: nat, to: nat, at: Start, step: Step, log: seq<Change>, lo: nat,
    i: nat, s: Session)
    requires lo <= i < |log| && EndsSession(x, c, log[i], s)
    requires StepLicenses(x, c, clock, from, to, at, step, log, lo, i)
    requires step.SignIn? ==> forall j | lo <= j < i :: StepLicenses(x, c, clock, from, to, at, step, log, lo, j)
    ensures StepGround(x, c, clock, from, to, at, step, s)
  {
    hide Holds, Continues, AuthoritativePair, TaskLicenses, TaskGround, SessionIn, SignedIn, CommitsFrom;
    forall t | TaskLicenses(clock, from, to, t, log[i])
      ensures TaskGround(x, c, clock, from, to, t, s)
    {
      TaskEndsOnAGround(x, c, clock, from, to, t, log[i], s);
    }
    if step.SignIn? && log[i].cause.FailedLogin? {
      var j :| lo <= j < i && StoredAs(log[j], log[i].cause.revision);
      assert StepLicenses(x, c, clock, from, to, at, step, log, lo, j);
    }
  }

  /** A segment whose step brings no ground keeps the session. */
  lemma {:induction false} SegmentKeepsSession(
    x: Syntax, c: Config, clock: nat -> int, first: Option<Envelope>, log: seq<Change>, record: Option<Envelope>,
    g: Segment, s: Session)
    requires History(x, c, first, log, record) && SegmentLicensed(x, c, clock, first, log, g)
    requires Holds(x, c, RecordAt(first, log, g.lo), s) && !StepGround(x, c, clock, g.from, g.to, g.at, g.step, s)
    ensures Holds(x, c, RecordAt(first, log, g.hi), s)
  {
    hide Holds, EndsSession, Justified, StepLicenses, StepGround;
    if !Holds(x, c, RecordAt(first, log, g.hi), s) {
      var k := SessionEndsForACause(x, c, first, log, record, g.lo, g.hi, s);
      StepEndsOnAGround(x, c, clock, g.from, g.to, g.at, g.step, log, g.lo, k, s);
    }
  }

  lemma SegmentBounds(
    x: Syntax, c: Config, clock: nat -> int, first: Option<Envelope>, log: seq<Change>, g: Segment)
    requires SegmentLicensed(x, c, clock, first, log, g)
    ensures g.lo <= g.hi <= |log|
  {
    hide StepLicenses, WasAbsent;
  }

  /** No step of the run brings a ground to end this session. */
  predicate NoGround(x: Syntax, c: Config, clock: nat -> int, run: seq<Segment>, s: Session) {
    forall i | 0 <= i < |run| :: !StepGround(x, c, clock, run[i].from, run[i].to, run[i].at, run[i].step, s)
  }

  /** Over every run: a session none of whose steps brings a ground is still in the record, login code and all. */
  lemma {:induction false} RunKeepsSession(
    x: Syntax, c: Config, clock: nat -> int, first: Option<Envelope>, log: seq<Change>, record: Option<Envelope>,
    lo: nat, run: seq<Segment>, n: nat, s: Session)
    requires History(x, c, first, log, record) && lo <= |log| && RunLicensed(x, c, clock, first, log, lo, run)
    requires n <= |run|
    requires Holds(x, c, RecordAt(first, log, lo), s) && NoGround(x, c, clock, run, s)
    ensures EndOf(lo, run, n) <= |log| && Holds(x, c, RecordAt(first, log, EndOf(lo, run, n)), s)
    decreases n
  {
    hide Holds, StepGround, History, SegmentLicensed, RecordAt;
    if n > 0 {
      RunKeepsSession(x, c, clock, first, log, record, lo, run, n - 1, s);
      assert run[n - 1].lo == EndOf(lo, run, n - 1) && SegmentLicensed(x, c, clock, first, log, run[n - 1]);
      SegmentBounds(x, c, clock, first, log, run[n - 1]);
      SegmentKeepsSession(x, c, clock, first, log, record, run[n - 1], s);
    }
  }

  // ----- chains of rewrites

  /** Own rewrites only: re-exchanges and forgettings. */
  predicate OnlyRewrites(log: seq<Change>) {
    forall i | 0 <= i < |log| :: log[i].cause.Reexchanged? || log[i].cause.Forgotten?
  }

  /**
   However many re-exchanges and forgettings follow one another, the session differs only in its bearer triple, the
   envelope expires with the login code, and the revision counts the rewrites.
   */
  lemma {:induction false} RewritesKeepSession(
    x: Syntax, c: Config, first: Option<Envelope>, log: seq<Change>, record: Option<Envelope>, n: nat)
    requires History(x, c, first, log, record) && OnlyRewrites(log) && 0 < n <= |log|
    ensures first.Some? && RecordAt(first, log, n).Some?
    ensures RecordAt(first, log, n).value.revision == first.value.revision + n
    ensures var s := SessionIn(x, c, first);
            && s.Some? && Holds(x, c, RecordAt(first, log, n), s.value)
            && RecordAt(first, log, n).value.expiresAt == Some(x.instant(s.value.loginCodeExpiresAt))
  {
    hide DecodeStored, Justified;
    assert Justified(x, c, log[n - 1]) && log[n - 1].before == RecordAt(first, log, n - 1);
    RewriteKeepsSession(x, c, log[n - 1]);
    if n > 1 {
      RewritesKeepSession(x, c, first, log, record, n - 1);
    }
  }

  lemma RewriteKeepsSession(x: Syntax, c: Config, ch: Change)
    requires Justified(x, c, ch) && (ch.cause.Reexchanged? || ch.cause.Forgotten?)
    ensures ch.before.Some? && ch.after.Some? && ch.after.value.revision == ch.before.value.revision + 1
    ensures var s, t := SessionIn(x, c, ch.before), SessionIn(x, c, ch.after);
            && s.Some? && t.Some? && SameButBearer(s.value, t.value)
            && ch.after.value.expiresAt == Some(x.instant(t.value.loginCodeExpiresAt))
  {
    hide DecodeStored;
  }

  // ----- revisions

  /** Every write numbers its envelope one past the one it replaces, and starts at one where there is none. */
  predicate Numbered(first: Option<Envelope>, log: seq<Change>) {
    && (forall i | 0 <= i < |log| && log[i].after.Some? :: log[i].after.value.revision == NextRevision(log[i].before))
    && (forall i | 0 <= i < |log| :: log[i].before == RecordAt(first, log, i))
  }

  /** This process numbers its writes that way; so a history is numbered when the other processes do. */
  lemma OwnWritesAreNumbered(x: Syntax, c: Config, first: Option<Envelope>, log: seq<Change>, record: Option<Envelope>)
    requires History(x, c, first, log, record)
    requires forall i | 0 <= i < |log| && log[i].cause.Elsewhere? && log[i].after.Some? ::
               log[i].after.value.revision == NextRevision(log[i].before)
    ensures Numbered(first, log)
  {
    hide DecodeStored, Continues;
    forall i | 0 <= i < |log| && log[i].after.Some?
      ensures log[i].after.value.revision == NextRevision(log[i].before)
    {
      assert Justified(x, c, log[i]);
    }
  }

  /** How many of the first `n` changes are writes that follow the last moment without a record. */
  function WritesSinceAbsence(log: seq<Change>, n: nat): nat
    requires n <= |log|
  {
    if n == 0 || log[n - 1].after.None? then 0 else 1 + WritesSinceAbsence(log, n - 1)
  }

  lemma {:induction false} RevisionCountsWrites(start: Envelope, log: seq<Change>, n: nat)
    requires Numbered(Some(start), log) && n <= |log|
    ensures WritesSinceAbsence(log, n) <= n
    ensures var r, k := RecordAt(Some(start), log, n), WritesSinceAbsence(log, n);
            r.Some? ==> r.value.revision == if k == n then start.revision + n else k
  {
    if n > 0 {
      RevisionCountsWrites(start, log, n - 1);
      assert log[n - 1].before == RecordAt(Some(start), log, n - 1);
      assert log[n - 1].after.Some? ==> log[n - 1].after.value.revision == NextRevision(log[n - 1].before);
    }
  }

  /**
   A delete that compares only the revision number of the envelope a bearer came from removes a later record exactly
   when the record was absent in between and has been written that many times since.
   */
  lemma NumberAloneIsReused(start: Envelope, log: seq<Change>)
    requires Numbered(Some(start), log) && log != []
    ensures var record, k := RecordAt(Some(start), log, |log|), WritesSinceAbsence(log, |log|);
            Deletes(record, None, start.revision) <==> record.Some? && k < |log| && k == start.revision
  {
    RevisionCountsWrites(start, log, |log|);
  }

  /** Without an absence in between, every newer record survives the delete, fence or no fence. */
  lemma NewerRecordSurvives(start: Envelope, log: seq<Change>, fence: Option<Envelope>)
    requires Numbered(Some(start), log) && log != [] && forall i | 0 <= i < |log| :: log[i].after.Some?
    requires fence.None? || fence == Some(start)
    ensures !Deletes(RecordAt(Some(start), log, |log|), fence, start.revision)
  {
    AllWrites(log, |log|);
    RevisionCountsWrites(start, log, |log|);
  }

  /** The changes other processes make by writing one record after the other. */
  function ChangesOf(start: Option<Envelope>, writes: seq<Option<Envelope>>): seq<Change> {
    seq(|writes|, i requires 0 <= i < |writes| => Change(if i == 0 then start else writes[i - 1], writes[i], Elsewhere))
  }

  /**
   The cleanup of a failed sign-in compares the number of the envelope it stored. After other processes have written in
   numbered fashion, it takes the record it finds if and only if the record was absent in between and has been written
   exactly that many times since, nobody writes between its read and its compare, and the storage acts.
   */
  lemma CleanupTakesReusedNumber(own: Envelope, writes: seq<Option<Envelope>>, at: DeleteWorld)
    requires 1 <= own.revision && writes != [] && Numbered(Some(own), ChangesOf(Some(own), writes))
    ensures var found := LastOf(writes, Some(own));
            var k := WritesSinceAbsence(ChangesOf(Some(own), writes), |writes|);
            Takes(found, None, own.revision, at) <==>
            && found.Some? && k < |writes| && k == own.revision
            && at.ready && Settled(at.between, found) == found && !at.backend.FailsBefore?
  {
    NumberAloneIsReused(own, ChangesOf(Some(own), writes));
  }

  lemma {:induction false} AllWrites(log: seq<Change>, n: nat)
    requires n <= |log| && forall i | 0 <= i < |log| :: log[i].after.Some?
    ensures WritesSinceAbsence(log, n) == n
  {
    if n > 0 {
      AllWrites(log, n - 1);
    }
  }
}
