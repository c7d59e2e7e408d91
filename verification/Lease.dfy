/**
 The fenced lease store: at most one writer per resource, a new generation for every hold, and
 tokens of earlier generations that stay dead whatever happens later.
 */
module Lease {
  import opened Options

  datatype LeaseError = LeaseConflict | StaleFence | InvalidLease | LeaseExpired

  datatype LeaseState = Active | Expired | Released

  datatype FenceToken = FenceToken(resourceId: string, ownerId: string, generation: int)

  datatype LeaseRecord = LeaseRecord(ownerId: string, generation: nat, acquiredAt: int, expiresAt: int, released: bool)

  datatype Snapshot = Snapshot(resourceId: string, ownerId: string, generation: nat, state: LeaseState, acquiredAt: int,
                               expiresAt: int)

  datatype Store = Store(records: map<string, LeaseRecord>, lastGeneration: map<string, nat>)

  const EMPTY := Store(map[], map[])

  predicate ValidIdentifier(s: string) {
    0 < |s| <= 256 && '\0' !in s
  }

  predicate ValidTtl(ttl: int) {
    100 <= ttl <= 300_000
  }

  function SnapshotOf(resourceId: string, r: LeaseRecord, now: int): Snapshot {
    Snapshot(resourceId, r.ownerId, r.generation,
             if r.released then Released else if r.expiresAt <= now then Expired else Active,
             r.acquiredAt, r.expiresAt)
  }

  predicate Current(s: Store, t: FenceToken) {
    && t.resourceId in s.records
    && var r := s.records[t.resourceId];
       !r.released && r.ownerId == t.ownerId && r.generation == t.generation
  }

  function LastGeneration(s: Store, resourceId: string): nat {
    if resourceId in s.lastGeneration then s.lastGeneration[resourceId] else 0
  }

  // ----- what each call does to the store

  datatype Op =
    | Acquire(resourceId: string, ownerId: string, ttl: int)
    | Renew(token: FenceToken, ttl: int)
    | Release(token: FenceToken)
    | AssertWriter(token: FenceToken)
    | Inspect(resourceId: string)

  datatype Effect = Effect(store: Store, outcome: Result<Option<Snapshot>, LeaseError>)

  function Apply(s: Store, op: Op, now: int): Effect {
    match op
    case Acquire(id, owner, ttl) =>
      if !ValidIdentifier(id) || !ValidIdentifier(owner) || !ValidTtl(ttl) then Effect(s, Err(InvalidLease))
      else if id in s.records && !s.records[id].released && s.records[id].expiresAt > now then
        if s.records[id].ownerId == owner then Effect(s, Ok(Some(SnapshotOf(id, s.records[id], now))))
        else Effect(s, Err(LeaseConflict))
      else
        var next := LeaseRecord(owner, LastGeneration(s, id) + 1, now, now + ttl, false);
        Effect(Store(s.records[id := next], s.lastGeneration[id := next.generation]),
               Ok(Some(SnapshotOf(id, next, now))))
    case Renew(t, ttl) =>
      if !ValidTtl(ttl) then Effect(s, Err(InvalidLease))
      else if !Current(s, t) then Effect(s, Err(StaleFence))
      else if s.records[t.resourceId].expiresAt <= now then Effect(s, Err(LeaseExpired))
      else
        var next := s.records[t.resourceId].(expiresAt := now + ttl);
        Effect(s.(records := s.records[t.resourceId := next]), Ok(Some(SnapshotOf(t.resourceId, next, now))))
    case Release(t) =>
      if !Current(s, t) then Effect(s, Err(StaleFence))
      else if s.records[t.resourceId].expiresAt <= now then Effect(s, Err(LeaseExpired))
      else
        var next := s.records[t.resourceId].(released := true);
        Effect(s.(records := s.records[t.resourceId := next]), Ok(Some(SnapshotOf(t.resourceId, next, now))))
    case AssertWriter(t) =>
      if !Current(s, t) then Effect(s, Err(StaleFence))
      else if s.records[t.resourceId].expiresAt <= now then Effect(s, Err(LeaseExpired))
      else Effect(s, Ok(None))
    case Inspect(id) =>
      if id in s.records then Effect(s, Ok(Some(SnapshotOf(id, s.records[id], now)))) else Effect(s, Ok(None))
  }

  class FencedLeaseStore {
    var records: map<string, LeaseRecord>
    var lastGeneration: map<string, nat>

    constructor ()
      ensures Contents() == EMPTY
    {
      records, lastGeneration := map[], map[];
    }

    ghost function Contents(): Store
      reads this
    {
      Store(records, lastGeneration)
    }

    method Acquire(resourceId: string, ownerId: string, ttl: int, now: int)
      returns (outcome: Result<Option<Snapshot>, LeaseError>)
      modifies this
      ensures Effect(Contents(), outcome) == Apply(old(Contents()), Op.Acquire(resourceId, ownerId, ttl), now)
    {
      if !ValidIdentifier(resourceId) || !ValidIdentifier(ownerId) || !ValidTtl(ttl) {
        return Err(InvalidLease);
      }
      if resourceId in records {
        var current := records[resourceId];
        if !current.released && current.expiresAt > now {
          if current.ownerId == ownerId {
            return Ok(Some(SnapshotOf(resourceId, current, now)));
          }
          return Err(LeaseConflict);
        }
      }
      var generation := (if resourceId in lastGeneration then lastGeneration[resourceId] else 0) + 1;
      var next := LeaseRecord(ownerId, generation, now, now + ttl, false);
      records := records[resourceId := next];
      lastGeneration := lastGeneration[resourceId := generation];
      return Ok(Some(SnapshotOf(resourceId, next, now)));
    }

    method Renew(token: FenceToken, ttl: int, now: int) returns (outcome: Result<Option<Snapshot>, LeaseError>)
      modifies this`records
      ensures Effect(Contents(), outcome) == Apply(old(Contents()), Op.Renew(token, ttl), now)
    {
      if !ValidTtl(ttl) {
        return Err(InvalidLease);
      }
      var current := AssertCurrent(token);
      if current.None? {
        return Err(StaleFence);
      }
      if current.value.expiresAt <= now {
        return Err(LeaseExpired);
      }
      records := records[token.resourceId := current.value.(expiresAt := now + ttl)];
      return Ok(Some(SnapshotOf(token.resourceId, records[token.resourceId], now)));
    }

    method Release(token: FenceToken, now: int) returns (outcome: Result<Option<Snapshot>, LeaseError>)
      modifies this`records
      ensures Effect(Contents(), outcome) == Apply(old(Contents()), Op.Release(token), now)
    {
      var current := AssertCurrent(token);
      if current.None? {
        return Err(StaleFence);
      }
      if current.value.expiresAt <= now {
        return Err(LeaseExpired);
      }
      records := records[token.resourceId := current.value.(released := true)];
      return Ok(Some(SnapshotOf(token.resourceId, records[token.resourceId], now)));
    }

    method AssertWriter(token: FenceToken, now: int) returns (outcome: Result<Option<Snapshot>, LeaseError>)
      ensures Effect(Contents(), outcome) == Apply(Contents(), Op.AssertWriter(token), now)
    {
      var current := AssertCurrent(token);
      if current.None? {
        return Err(StaleFence);
      }
      if current.value.expiresAt <= now {
        return Err(LeaseExpired);
      }
      return Ok(None);
    }

    method AssertCurrent(token: FenceToken) returns (current: Option<LeaseRecord>)
      ensures current.Some? <==> Current(Contents(), token)
      ensures current.Some? ==> current.value == records[token.resourceId]
    {
      if token.resourceId !in records {
        return None;
      }
      var r := records[token.resourceId];
      if r.released || r.ownerId != token.ownerId || r.generation != token.generation {
        return None;
      }
      return Some(r);
    }
  }

  // ----- runs under a clock

  datatype Call = Call(op: Op, at: int)

  function After(calls: seq<Call>, n: nat): Store
    requires n <= |calls|
  {
    if n == 0 then EMPTY else Apply(After(calls, n - 1), calls[n - 1].op, calls[n - 1].at).store
  }

  function Outcome(calls: seq<Call>, i: nat): Result<Option<Snapshot>, LeaseError>
    requires i < |calls|
  {
    Apply(After(calls, i), calls[i].op, calls[i].at).outcome
  }

  predicate ClockNeverFalls(calls: seq<Call>) {
    forall i, j | 0 <= i < j < |calls| :: calls[i].at <= calls[j].at
  }

  /** One hold of a resource, as the callers saw it: who held which generation, from when, until when. */
  datatype Hold = Hold(generation: int, ownerId: string, from: int, until: int)

  /** What one successful outcome adds to the holds of a resource. */
  function Extend(h: seq<Hold>, id: string, op: Op, at: int, s: Snapshot): seq<Hold> {
    if s.resourceId != id || op.Inspect? || op.AssertWriter? then h
    else if op.Acquire? then
      if exists i | 0 <= i < |h| :: h[i].generation == s.generation then h
      else h + [Hold(s.generation, s.ownerId, s.acquiredAt, s.expiresAt)]
    else EndAt(h, op.token.generation, if op.Release? then at else s.expiresAt)
  }

  /** The holds of one resource, read off the successful outcomes alone. */
  function Holds(calls: seq<Call>, n: nat, id: string): seq<Hold>
    requires n <= |calls|
  {
    if n == 0 then []
    else
      match Outcome(calls, n - 1)
      case Ok(Some(s)) => Extend(Holds(calls, n - 1, id), id, calls[n - 1].op, calls[n - 1].at, s)
      case _ => Holds(calls, n - 1, id)
  }

  function EndAt(h: seq<Hold>, generation: int, until: int): (r: seq<Hold>)
    ensures |r| == |h|
    ensures forall i | 0 <= i < |h| :: r[i] == if h[i].generation == generation then h[i].(until := until) else h[i]
  {
    if h == [] then []
    else [if h[0].generation == generation then h[0].(until := until) else h[0]] + EndAt(h[1..], generation, until)
  }

  /** Generations 1, 2, 3, ... and each hold over before the next begins. */
  predicate Fenced(h: seq<Hold>) {
    && (forall i | 0 <= i < |h| :: h[i].generation == i + 1 && h[i].from <= h[i].until)
    && (forall i | 0 <= i < |h| - 1 :: h[i].until <= h[i + 1].from)
  }

  /** How the store stands to the holds seen so far. */
  predicate Agrees(s: Store, id: string, h: seq<Hold>, now: int) {
    && LastGeneration(s, id) == |h|
    && (id in s.records <==> h != [])
    && (id in s.records ==>
          var r, last := s.records[id], h[|h| - 1];
          && r.generation == |h| && last.ownerId == r.ownerId && last.from == r.acquiredAt && r.acquiredAt <= now
          && (if r.released then last.until <= now else last.until == r.expiresAt))
  }

  function Extended(s: Store, h: seq<Hold>, id: string, c: Call): seq<Hold> {
    match Apply(s, c.op, c.at).outcome
    case Ok(Some(shot)) => Extend(h, id, c.op, c.at, shot)
    case _ => h
  }

  lemma AcquireKeepsFence(s: Store, h: seq<Hold>, id: string, c: Call, before: int)
    requires before <= c.at && Fenced(h) && Agrees(s, id, h, before) && c.op.Acquire?
    ensures Fenced(Extended(s, h, id, c)) && Agrees(Apply(s, c.op, c.at).store, id, Extended(s, h, id, c), c.at)
  {
    hide Fenced, ValidIdentifier, EndAt;
    if c.op.resourceId == id {
      FencedGenerations(h);
      var shot := Apply(s, c.op, c.at).outcome;
      if shot.Ok? && shot.value.value.generation == |h| + 1 {
        var s' := shot.value.value;
        AppendKeepsFence(h, Hold(s'.generation, s'.ownerId, s'.acquiredAt, s'.expiresAt));
      }
    }
  }

  lemma FencedGenerations(h: seq<Hold>)
    requires Fenced(h)
    ensures forall i | 0 <= i < |h| :: h[i].generation == i + 1
    ensures forall i | 0 <= i < |h| :: h[i].from <= h[i].until
  {
  }

  lemma AppendKeepsFence(h: seq<Hold>, next: Hold)
    requires Fenced(h) && next.generation == |h| + 1 && next.from <= next.until
    requires h != [] ==> h[|h| - 1].until <= next.from
    ensures Fenced(h + [next])
  {
  }

  lemma EndingTheLast(h: seq<Hold>, until: int)
    requires Fenced(h) && h != [] && h[|h| - 1].from <= until
    ensures EndAt(h, |h|, until) == h[..|h| - 1] + [h[|h| - 1].(until := until)]
    ensures Fenced(EndAt(h, |h|, until))
  {
    var e := EndAt(h, |h|, until);
    assert forall i | 0 <= i < |h| - 1 :: e[i] == h[i];
  }

  lemma UseKeepsFence(s: Store, h: seq<Hold>, id: string, c: Call, before: int)
    requires before <= c.at && Fenced(h) && Agrees(s, id, h, before) && !c.op.Acquire?
    ensures Fenced(Extended(s, h, id, c)) && Agrees(Apply(s, c.op, c.at).store, id, Extended(s, h, id, c), c.at)
  {
    hide EndAt, Fenced;
    match Apply(s, c.op, c.at).outcome
    case Ok(Some(shot)) =>
      if shot.resourceId == id && !c.op.Inspect? && !c.op.AssertWriter? {
        EndingTheLast(h, if c.op.Release? then c.at else shot.expiresAt);
      }
    case _ =>
  }

  lemma StepKeepsFence(s: Store, h: seq<Hold>, id: string, c: Call, before: int)
    requires before <= c.at && Fenced(h) && Agrees(s, id, h, before)
    ensures Fenced(Extended(s, h, id, c)) && Agrees(Apply(s, c.op, c.at).store, id, Extended(s, h, id, c), c.at)
    // an ongoing or finished hold keeps its start, and its end never moves below the present
    ensures |h| <= |Extended(s, h, id, c)|
    ensures forall i | 0 <= i < |h| ::
              var e := Extended(s, h, id, c)[i];
              e.from == h[i].from && (e.until == h[i].until || c.at <= e.until)
    // a call that needs a live token passes only inside the newest hold
    ensures !c.op.Acquire? && !c.op.Inspect? && c.op.token.resourceId == id && Apply(s, c.op, c.at).outcome.Ok? ==>
              var e := Extended(s, h, id, c);
              0 < c.op.token.generation == |h| == |e| && e[|e| - 1].from <= c.at <= e[|e| - 1].until
  {
    if c.op.Acquire? {
      AcquireKeepsFence(s, h, id, c, before);
    } else {
      UseKeepsFence(s, h, id, c, before);
    }
  }

  /** The clock before call `n`; before the first call, any time not after it. */
  function ClockBefore(calls: seq<Call>, n: nat): int
    requires n <= |calls|
  {
    if n > 0 then calls[n - 1].at else if calls == [] then 0 else calls[0].at
  }

  lemma {:induction false} RunKeepsFence(calls: seq<Call>, n: nat, id: string)
    requires n <= |calls| && ClockNeverFalls(calls)
    ensures Fenced(Holds(calls, n, id))
    ensures Agrees(After(calls, n), id, Holds(calls, n, id), ClockBefore(calls, n))
  {
    hide Apply, Extend;
    if n > 0 {
      RunKeepsFence(calls, n - 1, id);
      StepKeepsFence(After(calls, n - 1), Holds(calls, n - 1, id), id, calls[n - 1], ClockBefore(calls, n - 1));
    }
  }

  /**
   Over every run with a non-decreasing clock, the holds of a resource carry generations exactly
   1..n, their intervals are pairwise disjoint in generation order, and the last generation the
   store remembers is their number.
   */
  lemma HoldsAreFenced(calls: seq<Call>, id: string)
    requires ClockNeverFalls(calls)
    ensures var h := Holds(calls, |calls|, id);
            && LastGeneration(After(calls, |calls|), id) == |h|
            && (forall i | 0 <= i < |h| :: h[i].generation == i + 1 && h[i].from <= h[i].until)
            && (forall i, j | 0 <= i < j < |h| :: h[i].until <= h[j].from)
  {
    hide Apply, Extend;
    RunKeepsFence(calls, |calls|, id);
    var h := Holds(calls, |calls|, id);
    forall i, j | 0 <= i < j < |h|
      ensures h[i].until <= h[j].from
    {
      ChainIsOrdered(h, i, j);
    }
  }

  lemma {:induction false} ChainIsOrdered(h: seq<Hold>, i: nat, j: nat)
    requires Fenced(h) && i < j < |h|
    ensures h[i].until <= h[j].from
    decreases j - i
  {
    if i + 1 < j {
      ChainIsOrdered(h, i + 1, j);
    }
  }

  // ----- fences

  /** The calls that need a live token. */
  predicate Uses(op: Op, id: string, generation: int) {
    (op.Renew? || op.Release? || op.AssertWriter?) && op.token.resourceId == id && op.token.generation == generation
  }

  lemma {:induction false} GenerationNeverFalls(calls: seq<Call>, i: nat, j: nat, id: string)
    requires i <= j <= |calls|
    ensures LastGeneration(After(calls, i), id) <= LastGeneration(After(calls, j), id)
  {
    if i < j {
      GenerationNeverFalls(calls, i, j - 1, id);
    }
  }

  lemma {:induction false} RecordIsLastGeneration(calls: seq<Call>, n: nat, id: string)
    requires n <= |calls|
    ensures id in After(calls, n).records ==>
              After(calls, n).records[id].generation == LastGeneration(After(calls, n), id)
  {
    if n > 0 {
      RecordIsLastGeneration(calls, n - 1, id);
    }
  }

  lemma PassingTokenIsNewest(calls: seq<Call>, i: nat, id: string, generation: int)
    requires i < |calls| && Uses(calls[i].op, id, generation) && Outcome(calls, i).Ok?
    ensures LastGeneration(After(calls, i), id) == generation
  {
    RecordIsLastGeneration(calls, i, id);
  }

  /**
   Once a later generation was acquired, a token of an earlier one never passes `renew`, `release`
   or `assertWriter` again. No assumption about the clock is needed.
   */
  lemma StaleFenceStaysDead(calls: seq<Call>, i: nat, j: nat, id: string, generation: int)
    requires i <= j < |calls| && Uses(calls[j].op, id, generation)
    requires generation < LastGeneration(After(calls, i), id)
    ensures Outcome(calls, j).Err?
  {
    GenerationNeverFalls(calls, i, j, id);
    RecordIsLastGeneration(calls, j, id);
  }

  /** Every use that passed lies inside the hold of its generation, as that hold stands at any later time. */
  lemma {:induction false} UseLiesInHold(calls: seq<Call>, i: nat, n: nat, id: string, generation: int)
    requires i < n <= |calls| && ClockNeverFalls(calls)
    requires Uses(calls[i].op, id, generation) && Outcome(calls, i).Ok?
    ensures 0 < generation <= |Holds(calls, n, id)|
    ensures Holds(calls, n, id)[generation - 1].from <= calls[i].at <= Holds(calls, n, id)[generation - 1].until
  {
    hide Apply, Extend, Fenced, Agrees;
    RunKeepsFence(calls, n - 1, id);
    StepKeepsFence(After(calls, n - 1), Holds(calls, n - 1, id), id, calls[n - 1], ClockBefore(calls, n - 1));
    if i + 1 < n {
      UseLiesInHold(calls, i, n - 1, id, generation);
    }
  }

  /**
   Writers of different generations are never interleaved: every use of the older one is over when the newer hold
   begins.
   */
  lemma WritersNeverOverlap(calls: seq<Call>, i: nat, j: nat, id: string, older: int, newer: int)
    requires i < |calls| && j < |calls| && ClockNeverFalls(calls) && older < newer
    requires Uses(calls[i].op, id, older) && Outcome(calls, i).Ok?
    requires Uses(calls[j].op, id, newer) && Outcome(calls, j).Ok?
    ensures i < j
    ensures newer <= |Holds(calls, |calls|, id)|
    ensures calls[i].at <= Holds(calls, |calls|, id)[newer - 1].from <= calls[j].at
  {
    hide Apply, Extend, Holds;
    var h := Holds(calls, |calls|, id);
    UseLiesInHold(calls, i, |calls|, id, older);
    UseLiesInHold(calls, j, |calls|, id, newer);
    HoldsAreFenced(calls, id);
    assert h[older - 1].until <= h[newer - 1].from;
    assert i < j by {
      if j < i {
        PassingTokenIsNewest(calls, j, id, newer);
        StaleFenceStaysDead(calls, j, i, id, older);
      }
    }
  }

  /** A moment no call of the run comes after. */
  predicate NotBefore(calls: seq<Call>, at: int) {
    forall i | 0 <= i < |calls| :: calls[i].at <= at
  }

  /**
   After every run, the one token that passes `assertWriter` is that of the newest hold, and it passes until the hold
   ends.
   */
  lemma WriterIffNewestHold(calls: seq<Call>, t: FenceToken, at: int)
    requires ClockNeverFalls(calls) && NotBefore(calls, at)
    ensures var h := Holds(calls, |calls|, t.resourceId);
            Apply(After(calls, |calls|), AssertWriter(t), at).outcome.Ok? <==>
            h != [] && t.generation == |h| && t.ownerId == h[|h| - 1].ownerId && at < h[|h| - 1].until
  {
    hide Extend, Holds, Fenced;
    RunKeepsFence(calls, |calls|, t.resourceId);
  }

  /**
   After every run, a well-formed acquisition fails exactly while another owner's hold lasts. It opens the next
   generation when the newest hold is over and otherwise returns the owner's own.
   */
  lemma AcquireIffFree(calls: seq<Call>, id: string, owner: string, ttl: int, at: int)
    requires ClockNeverFalls(calls) && NotBefore(calls, at)
    ensures var h := Holds(calls, |calls|, id);
            var outcome := Apply(After(calls, |calls|), Acquire(id, owner, ttl), at).outcome;
            var valid := && 1 <= |id| <= 256 && '\0' !in id && 1 <= |owner| <= 256 && '\0' !in owner
                         && 100 <= ttl <= 5 * 60_000;
            var free := h == [] || h[|h| - 1].until <= at;
            && (outcome == Err(InvalidLease) <==> !valid)
            && (outcome == Err(LeaseConflict) <==> valid && !free && h[|h| - 1].ownerId != owner)
            && (outcome.Ok? <==> valid && (free || h[|h| - 1].ownerId == owner))
            && (outcome.Ok? ==>
                  outcome.value ==
                    Some(if free then Snapshot(id, owner, |h| + 1, Active, at, at + ttl)
                         else Snapshot(id, owner, |h|, Active, h[|h| - 1].from, h[|h| - 1].until)))
  {
    hide Extend, Holds, Fenced;
    RunKeepsFence(calls, |calls|, id);
  }

  // ----- any clock at all

  /** How the store stands to the holds, whatever the clock did. */
  predicate Tracks(s: Store, id: string, h: seq<Hold>) {
    && LastGeneration(s, id) == |h| && (id in s.records <==> h != [])
    && (forall i | 0 <= i < |h| :: h[i].generation == i + 1)
    && (id in s.records ==>
          var r, last := s.records[id], h[|h| - 1];
          && r.generation == |h| && last.ownerId == r.ownerId && last.from == r.acquiredAt
          && (!r.released ==> last.until == r.expiresAt))
  }

  /**
   The call keeps the newest hold's times in order: a hold opened after a release starts no earlier than that release,
   and a renewal or a release does not end its hold before it began.
   */
  predicate Orderly(s: Store, h: seq<Hold>, id: string, c: Call) {
    Apply(s, c.op, c.at).outcome.Ok? && h != [] ==>
      match c.op
      case Acquire(resource, _, _) => resource == id && id in s.records && s.records[id].released ==>
          h[|h| - 1].until <= c.at
      case Renew(t, ttl) => t.resourceId == id ==> h[|h| - 1].from <= c.at + ttl
      case Release(t) => t.resourceId == id ==> h[|h| - 1].from <= c.at
      case _ => true
  }

  lemma EndAtLast(h: seq<Hold>, until: int)
    requires h != [] && forall i | 0 <= i < |h| :: h[i].generation == i + 1
    ensures EndAt(h, |h|, until) == h[..|h| - 1] + [h[|h| - 1].(until := until)]
  {
    var e := EndAt(h, |h|, until);
    assert forall i | 0 <= i < |h| - 1 :: e[i] == h[i];
  }

  lemma AcquireTracks(s: Store, h: seq<Hold>, id: string, c: Call)
    requires Tracks(s, id, h) && c.op.Acquire?
    ensures Tracks(Apply(s, c.op, c.at).store, id, Extended(s, h, id, c))
    ensures Fenced(h) ==> (Fenced(Extended(s, h, id, c)) <==> Orderly(s, h, id, c))
  {
    hide EndAt, ValidIdentifier;
    var e, outcome := Extended(s, h, id, c), Apply(s, c.op, c.at).outcome;
    if c.op.resourceId == id && outcome.Ok? && outcome.value.value.generation == |h| + 1 {
      assert e == h + [e[|h|]] && e[|h|].from == c.at <= e[|h|].until;
      assert Fenced(h) ==> (Fenced(e) <==> (h != [] ==> h[|h| - 1].until <= c.at)) by {
        if Fenced(h) && h != [] && Fenced(e) {
          assert e[|h| - 1].until <= e[|h|].from;
        }
        if Fenced(h) && (h != [] ==> h[|h| - 1].until <= c.at) {
          AppendKeepsFence(h, e[|h|]);
        }
      }
    }
  }

  lemma UseTracks(s: Store, h: seq<Hold>, id: string, c: Call)
    requires Tracks(s, id, h) && !c.op.Acquire?
    ensures Tracks(Apply(s, c.op, c.at).store, id, Extended(s, h, id, c))
    ensures Fenced(h) ==> (Fenced(Extended(s, h, id, c)) <==> Orderly(s, h, id, c))
  {
    hide EndAt, ValidTtl;
    match Apply(s, c.op, c.at).outcome
    case Ok(Some(shot)) =>
      if shot.resourceId == id && !c.op.Inspect? && !c.op.AssertWriter? {
        var until := if c.op.Release? then c.at else shot.expiresAt;
        EndAtLast(h, until);
        var e := Extended(s, h, id, c);
        assert Fenced(e) ==> e[|h| - 1].from <= e[|h| - 1].until;
      }
    case _ =>
  }

  lemma {:induction false} RunTracks(calls: seq<Call>, n: nat, id: string)
    requires n <= |calls|
    ensures Tracks(After(calls, n), id, Holds(calls, n, id))
  {
    hide Apply, Extend, Orderly, Fenced;
    if n > 0 {
      RunTracks(calls, n - 1, id);
      TrackStep(After(calls, n - 1), Holds(calls, n - 1, id), id, calls[n - 1]);
    }
  }

  lemma TrackStep(s: Store, h: seq<Hold>, id: string, c: Call)
    requires Tracks(s, id, h)
    ensures Tracks(Apply(s, c.op, c.at).store, id, Extended(s, h, id, c))
    ensures Fenced(h) ==> (Fenced(Extended(s, h, id, c)) <==> Orderly(s, h, id, c))
  {
    if c.op.Acquire? {
      AcquireTracks(s, h, id, c);
    } else {
      UseTracks(s, h, id, c);
    }
  }

  predicate AlwaysFenced(calls: seq<Call>, n: nat, id: string)
    requires n <= |calls|
  {
    forall k | 0 <= k <= n :: Fenced(Holds(calls, k, id))
  }

  predicate AlwaysOrderly(calls: seq<Call>, n: nat, id: string)
    requires n <= |calls|
  {
    forall k | 0 <= k < n :: Orderly(After(calls, k), Holds(calls, k, id), id, calls[k])
  }

  /**
   The exact condition, for every clock: the holds of a resource are disjoint throughout a run if and only if no call
   opened a hold below the release of the one before, and none ended a hold below its start.
   */
  lemma {:induction false} FencedIffOrderly(calls: seq<Call>, n: nat, id: string)
    requires n <= |calls|
    ensures AlwaysFenced(calls, n, id) <==> AlwaysOrderly(calls, n, id)
  {
    hide Apply, Extend, Orderly, Fenced, Holds, After, Extended, Tracks;
    if n == 0 {
      NoHolds(calls, id);
    } else {
      HoldsStep(calls, n, id);
      FencedIffOrderly(calls, n - 1, id);
      RunTracks(calls, n - 1, id);
      TrackStep(After(calls, n - 1), Holds(calls, n - 1, id), id, calls[n - 1]);
      var fenced := Fenced(Holds(calls, n, id));
      var orderly := Orderly(After(calls, n - 1), Holds(calls, n - 1, id), id, calls[n - 1]);
      assert AlwaysFenced(calls, n, id) <==> AlwaysFenced(calls, n - 1, id) && fenced;
      assert AlwaysOrderly(calls, n, id) <==> AlwaysOrderly(calls, n - 1, id) && orderly;
    }
  }

  lemma HoldsStep(calls: seq<Call>, n: nat, id: string)
    requires 0 < n <= |calls|
    ensures Holds(calls, n, id) == Extended(After(calls, n - 1), Holds(calls, n - 1, id), id, calls[n - 1])
  {
    hide Apply, Extend;
  }

  lemma NoHolds(calls: seq<Call>, id: string)
    ensures Holds(calls, 0, id) == [] && Fenced(Holds(calls, 0, id))
  {
  }

  // ----- what the callers asked for

  /** Call `k` is an acquisition that handed out generation `g` of the resource. */
  predicate HandsOut(calls: seq<Call>, k: nat, id: string, g: int)
    requires k < |calls|
  {
    && calls[k].op.Acquire? && calls[k].op.resourceId == id
    && Outcome(calls, k).Ok? && Outcome(calls, k).value.Some? && Outcome(calls, k).value.value.generation == g
  }

  /** The first acquisition to hand out the generation; an owner asking again while it lasts changes nothing. */
  predicate Opens(calls: seq<Call>, k: nat, id: string, g: int)
    requires k < |calls|
  {
    HandsOut(calls, k, id, g) && forall j | 0 <= j < k :: !HandsOut(calls, j, id, g)
  }

  /** Call `k` decides when the hold of generation `g` ends: it opened, renewed or released it. */
  predicate Decides(calls: seq<Call>, k: nat, id: string, g: int)
    requires k < |calls|
  {
    || Opens(calls, k, id, g)
    || (Uses(calls[k].op, id, g) && !calls[k].op.AssertWriter? && Outcome(calls, k).Ok?)
  }

  /** No call from `k` on decides the end of the hold again. */
  predicate Undisturbed(calls: seq<Call>, k: nat, n: nat, id: string, g: int)
    requires n <= |calls|
  {
    forall j | k <= j < n :: !Decides(calls, j, id, g)
  }

  /** The end a caller asks for: its own moment for a release, the TTL of the call later otherwise. */
  function AskedEnd(c: Call): int
    requires c.op.Acquire? || c.op.Renew? || c.op.Release?
  {
    match c.op
    case Acquire(_, _, ttl) => c.at + ttl
    case Renew(_, ttl) => c.at + ttl
    case Release(_) => c.at
  }

  /** What one call does to the holds, by what was asked and whether it passed. */
  lemma StepAsAsked(s: Store, h: seq<Hold>, id: string, c: Call)
    requires Tracks(s, id, h)
    ensures var e, outcome := Extended(s, h, id, c), Apply(s, c.op, c.at).outcome;
            match c.op
            case Acquire(resource, owner, ttl) =>
              if resource != id || outcome.Err? then e == h
              else
                && outcome.value.Some?
                && var g := outcome.value.value.generation;
                   && (g == |h| + 1 || 0 < g == |h|)
                   && e == if g == |h| then h else h + [Hold(g, owner, c.at, c.at + ttl)]
            case Renew(t, ttl) =>
              if t.resourceId != id || outcome.Err? then e == h
              else 0 < t.generation == |h| && e == h[..|h| - 1] + [h[|h| - 1].(until := c.at + ttl)]
            case Release(t) =>
              if t.resourceId != id || outcome.Err? then e == h
              else 0 < t.generation == |h| && e == h[..|h| - 1] + [h[|h| - 1].(until := c.at)]
            case _ => e == h
  {
    hide EndAt, ValidIdentifier, ValidTtl;
    if (c.op.Renew? || c.op.Release?) && c.op.token.resourceId == id && Apply(s, c.op, c.at).outcome.Ok? {
      EndAtLast(h, AskedEnd(c));
    }
  }

  lemma StepOfRun(calls: seq<Call>, n: nat, id: string)
    requires 0 < n <= |calls|
    ensures Tracks(After(calls, n - 1), id, Holds(calls, n - 1, id))
    ensures Holds(calls, n, id) == Extended(After(calls, n - 1), Holds(calls, n - 1, id), id, calls[n - 1])
    ensures Outcome(calls, n - 1) == Apply(After(calls, n - 1), calls[n - 1].op, calls[n - 1].at).outcome
  {
    hide Apply, Extend, Extended, Tracks;
    HoldsStep(calls, n, id);
    RunTracks(calls, n - 1, id);
  }

  /** The generations handed out by acquisitions are those of the holds. */
  lemma {:induction false} HandedOutIsHeld(calls: seq<Call>, n: nat, id: string, g: int)
    requires n <= |calls|
    ensures (exists k | 0 <= k < n :: HandsOut(calls, k, id, g)) <==> 0 < g <= |Holds(calls, n, id)|
  {
    hide Apply, Extend, Extended, Tracks, Holds, After, Outcome;
    if n > 0 {
      StepOfRun(calls, n, id);
      StepAsAsked(After(calls, n - 1), Holds(calls, n - 1, id), id, calls[n - 1]);
      HandedOutIsHeld(calls, n - 1, id, g);
      var m := n - 1;
      assert (exists k | 0 <= k < n :: HandsOut(calls, k, id, g)) <==>
             HandsOut(calls, m, id, g) || exists k | 0 <= k < m :: HandsOut(calls, k, id, g);
    } else {
      NoHolds(calls, id);
    }
  }

  /** The last call that decides a hold's end gives the end; the one that opened it gives its start and owner. */
  lemma {:induction false} HoldEndsAsAsked(calls: seq<Call>, k: nat, n: nat, id: string, g: int)
    requires k < n <= |calls| && Decides(calls, k, id, g) && Undisturbed(calls, k + 1, n, id, g)
    ensures 0 < g <= |Holds(calls, n, id)|
    ensures Holds(calls, n, id)[g - 1].until == AskedEnd(calls[k])
  {
    hide Apply, Extend, Extended, Tracks, Holds, After, Outcome;
    StepOfRun(calls, n, id);
    StepAsAsked(After(calls, n - 1), Holds(calls, n - 1, id), id, calls[n - 1]);
    HandedOutIsHeld(calls, n - 1, id, g);
    if k + 1 < n {
      HoldEndsAsAsked(calls, k, n - 1, id, g);
      assert !Decides(calls, n - 1, id, g);
    }
  }

  lemma {:induction false} HoldOpensAsAsked(calls: seq<Call>, k: nat, n: nat, id: string, g: int)
    requires k < n <= |calls| && Opens(calls, k, id, g)
    ensures 0 < g <= |Holds(calls, n, id)|
    ensures var h := Holds(calls, n, id)[g - 1];
            h.generation == g && h.from == calls[k].at && h.ownerId == calls[k].op.ownerId
  {
    hide Apply, Extend, Extended, Tracks, Holds, After, Outcome;
    StepOfRun(calls, n, id);
    StepAsAsked(After(calls, n - 1), Holds(calls, n - 1, id), id, calls[n - 1]);
    HandedOutIsHeld(calls, n - 1, id, g);
    if k + 1 < n {
      HoldOpensAsAsked(calls, k, n - 1, id, g);
    }
  }

  lemma {:induction false} LastDecision(calls: seq<Call>, n: nat, id: string, g: int) returns (k: nat)
    requires n <= |calls| && exists j | 0 <= j < n :: Decides(calls, j, id, g)
    ensures k < n && Decides(calls, k, id, g) && Undisturbed(calls, k + 1, n, id, g)
  {
    hide Decides;
    if Decides(calls, n - 1, id, g) {
      k := n - 1;
    } else {
      k := LastDecision(calls, n - 1, id, g);
    }
  }

  lemma {:induction false} FirstHandOut(calls: seq<Call>, n: nat, id: string, g: int) returns (k: nat)
    requires n <= |calls| && exists j | 0 <= j < n :: HandsOut(calls, j, id, g)
    ensures k < n && Opens(calls, k, id, g)
  {
    hide HandsOut;
    if m :| 0 <= m < n - 1 && HandsOut(calls, m, id, g) {
      k := FirstHandOut(calls, n - 1, id, g);
    } else {
      k := n - 1;
    }
  }

  /**
   Over every run and every clock, every hold was opened by one call and ended by one: it starts when an acquisition
   first handed out its generation, for that owner, and ends at its release or else exactly the TTL of its last
   successful acquisition or renewal after that call.
   */
  lemma EveryHoldAsAsked(calls: seq<Call>, n: nat, id: string, i: nat) returns (opener: nat, last: nat)
    requires n <= |calls| && i < |Holds(calls, n, id)|
    ensures opener <= last < n && Opens(calls, opener, id, i + 1)
    ensures Decides(calls, last, id, i + 1) && Undisturbed(calls, last + 1, n, id, i + 1)
    ensures Holds(calls, n, id)[i] ==
            Hold(i + 1, calls[opener].op.ownerId, calls[opener].at, AskedEnd(calls[last]))
  {
    hide Holds, HandsOut, Uses, Outcome;
    HandedOutIsHeld(calls, n, id, i + 1);
    opener := FirstHandOut(calls, n, id, i + 1);
    assert Decides(calls, opener, id, i + 1);
    last := LastDecision(calls, n, id, i + 1);
    HoldOpensAsAsked(calls, opener, n, id, i + 1);
    HoldEndsAsAsked(calls, last, n, id, i + 1);
  }

  /** A renewal that passed was made by the owner of its hold. */
  lemma RenewerIsOwner(calls: seq<Call>, k: nat, t: FenceToken)
    requires k < |calls| && Outcome(calls, k).Ok? && calls[k].op.Renew? && calls[k].op.token == t
    ensures 0 < t.generation <= |Holds(calls, |calls|, t.resourceId)|
    ensures Holds(calls, |calls|, t.resourceId)[t.generation - 1].ownerId == t.ownerId
  {
    hide Holds, HandsOut, Extend;
    RunTracks(calls, k, t.resourceId);
    var opener, last := EveryHoldAsAsked(calls, k, t.resourceId, t.generation - 1);
    HoldOpensAsAsked(calls, opener, |calls|, t.resourceId, t.generation);
  }

  /**
   After an acquisition or renewal with TTL `d` at time `t`, and no later renewal or release, the token passes
   `assertWriter` at any later moment if and only if that moment is before `t + d`.
   */
  lemma TokenLastsItsTtl(calls: seq<Call>, k: nat, t: FenceToken, ttl: int, at: int)
    requires ClockNeverFalls(calls) && NotBefore(calls, at) && k < |calls|
    requires || (Opens(calls, k, t.resourceId, t.generation) && calls[k].op == Acquire(t.resourceId, t.ownerId, ttl))
             || (Outcome(calls, k).Ok? && calls[k].op == Renew(t, ttl))
    requires Undisturbed(calls, k + 1, |calls|, t.resourceId, t.generation)
    ensures Apply(After(calls, |calls|), AssertWriter(t), at).outcome.Ok? <==> at < calls[k].at + ttl
  {
    hide Apply, Extend, Holds, After, HandsOut;
    var id, g := t.resourceId, t.generation;
    var h := Holds(calls, |calls|, id);
    HoldEndsAsAsked(calls, k, |calls|, id, g);
    WriterIffNewestHold(calls, t, at);
    var o, l := EveryHoldAsAsked(calls, |calls|, id, |h| - 1);
    HoldsAreFenced(calls, id);
    if calls[k].op.Acquire? {
      HoldOpensAsAsked(calls, k, |calls|, id, g);
    } else {
      RenewerIsOwner(calls, k, t);
    }
  }

  /** The hold of generation `g` was released among the first `n` calls. */
  predicate ReleasedBy(calls: seq<Call>, n: nat, id: string, g: int)
    requires n <= |calls|
  {
    exists k | 0 <= k < n :: Uses(calls[k].op, id, g) && calls[k].op.Release? && Outcome(calls, k).Ok?
  }

  lemma {:induction false} RecordKnowsRelease(calls: seq<Call>, n: nat, id: string)
    requires n <= |calls|
    ensures var s := After(calls, n);
            && (id in s.records ==> (s.records[id].released <==> ReleasedBy(calls, n, id, s.records[id].generation)))
            && (forall g | LastGeneration(s, id) < g :: !ReleasedBy(calls, n, id, g))
  {
    if n > 0 {
      RecordKnowsRelease(calls, n - 1, id);
      RecordIsLastGeneration(calls, n - 1, id);
      var c := calls[n - 1];
      forall g: int
        ensures ReleasedBy(calls, n, id, g) <==>
                || ReleasedBy(calls, n - 1, id, g)
                || (Uses(c.op, id, g) && c.op.Release? && Outcome(calls, n - 1).Ok?)
      {
      }
    }
  }

  /** After every run, how a renewal, a release or a writer check is answered, by the holds alone. */
  lemma UseIsAnswered(calls: seq<Call>, op: Op, at: int)
    requires ClockNeverFalls(calls) && NotBefore(calls, at) && (op.Renew? || op.Release? || op.AssertWriter?)
    ensures var t := op.token;
            var h := Holds(calls, |calls|, t.resourceId);
            var outcome := Apply(After(calls, |calls|), op, at).outcome;
            var newest := h != [] && t.generation == |h| && t.ownerId == h[|h| - 1].ownerId;
            var malformed := op.Renew? && !(100 <= op.ttl <= 5 * 60_000);
            var released := ReleasedBy(calls, |calls|, t.resourceId, |h|);
            && (outcome == Err(InvalidLease) <==> malformed)
            && (outcome == Err(StaleFence) <==> !malformed && (!newest || released))
            && (outcome == Err(LeaseExpired) <==> !malformed && newest && !released && h[|h| - 1].until <= at)
            && (outcome.Ok? <==> !malformed && newest && at < h[|h| - 1].until)
            && (outcome.Ok? ==>
                  match op
                  case Renew(_, ttl) =>
                    outcome.value ==
                      Some(Snapshot(t.resourceId, t.ownerId, |h|, Active, h[|h| - 1].from, at + ttl))
                  case Release(_) =>
                    outcome.value ==
                      Some(Snapshot(t.resourceId, t.ownerId, |h|, Released, h[|h| - 1].from, h[|h| - 1].until))
                  case _ => outcome.value.None?)
  {
    hide Extend, Holds, Fenced, ReleasedBy;
    RunKeepsFence(calls, |calls|, op.token.resourceId);
    RecordKnowsRelease(calls, |calls|, op.token.resourceId);
  }

  /** After every run, an inspection shows the newest hold, and whether it was released, has run out, or lasts. */
  lemma InspectionShowsNewestHold(calls: seq<Call>, id: string, at: int)
    requires ClockNeverFalls(calls) && NotBefore(calls, at)
    ensures var h := Holds(calls, |calls|, id);
            var outcome := Apply(After(calls, |calls|), Inspect(id), at).outcome;
            && outcome.Ok? && (outcome.value.None? <==> h == [])
            && (h != [] ==>
                  && var s, released := outcome.value.value, ReleasedBy(calls, |calls|, id, |h|);
                     && s.resourceId == id && s.generation == |h| && s.ownerId == h[|h| - 1].ownerId
                     && s.acquiredAt == h[|h| - 1].from && (!released ==> s.expiresAt == h[|h| - 1].until)
                     && (s.state == Released <==> released)
                     && (s.state == Active <==> at < h[|h| - 1].until))
  {
    hide Extend, Holds, Fenced, ReleasedBy;
    RunKeepsFence(calls, |calls|, id);
    RecordKnowsRelease(calls, |calls|, id);
  }

  const STEPPING_BACK := [
    Call(Acquire("r", "a", 100), 1000), Call(Release(FenceToken("r", "a", 1)), 1050), Call(Acquire("r", "b", 100), 900)]

  /** The clock hypothesis is needed for the intervals: a clock stepping back makes two holds overlap. */
  lemma ClockSteppingBackOverlaps()
    ensures var calls := STEPPING_BACK;
            Holds(calls, 3, "r") == [Hold(1, "a", 1000, 1050), Hold(2, "b", 900, 1000)]
  {
    var calls := STEPPING_BACK;
    assert ValidIdentifier("r") && ValidIdentifier("a") && ValidIdentifier("b");
    assert Holds(calls, 1, "r") == [Hold(1, "a", 1000, 1100)];
    assert Holds(calls, 2, "r") == [Hold(1, "a", 1000, 1050)];
  }
}
