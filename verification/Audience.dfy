/**
 The session-audience client of `ownerObserveGrantsApi`: which answers about a session run
 may be shown as the present state, when answers can be lost, replayed, delayed or contradictory.
 */
module Audience {
  import opened Options
  import opened Decimals

  // ----- facts about one session run

  datatype Sharing = Public | Private

  datatype Action = Publish | MakePrivate | Observe

  type Change = a: Action | a != Observe witness Publish

  /** One statement about a run: what it shared at which publication counter. */
  datatype Fact = Fact(state: Sharing, generation: nat)

  /** The producer's order: public@G, then private@G, then public@G+1. */
  function Rank(f: Fact): nat {
    2 * f.generation + (if f.state.Private? then 1 else 0)
  }

  predicate IsOlder(candidate: Fact, held: Fact) {
    Rank(candidate) < Rank(held)
  }

  // ----- identifiers on the wire

  predicate IsHex(c: char) {
    '0' <= c <= '9' || 'a' <= c <= 'f'
  }

  /** A canonical lower-case UUID. */
  predicate IsUuid(s: string) {
    && |s| == 36
    && forall i | 0 <= i < 36 :: if i == 8 || i == 13 || i == 18 || i == 23 then s[i] == '-' else IsHex(s[i])
  }

  predicate IsUuid4(s: string) {
    IsUuid(s) && s[14] == '4' && (s[19] == '8' || s[19] == '9' || s[19] == 'a' || s[19] == 'b')
  }

  type Uuid = s: string | IsUuid(s) witness "00000000-0000-4000-8000-000000000001"

  /** The map key of one run: session, incarnation and process epoch. */
  function KeyOf(session: string, incarnation: string, epoch: string): string {
    session + "/" + incarnation + "/" + epoch
  }

  lemma KeysAreInjective(s: Uuid, i: Uuid, e: Uuid, s': Uuid, i': Uuid, e': Uuid)
    requires KeyOf(s, i, e) == KeyOf(s', i', e')
    ensures s == s' && i == i' && e == e'
  {
    var k := KeyOf(s, i, e);
    assert k[..36] == s && k[37..73] == i && k[74..] == e;
    assert k[..36] == s' && k[37..73] == i' && k[74..] == e';
  }

  // ----- answers

  datatype Observed = ObservedPublic(streamId: string, generation: Counter) | ObservedPrivate(generation: Counter)
  {
    function State(): Sharing {
      if ObservedPublic? then Public else Private
    }

    function Stream(): Option<string> {
      if ObservedPublic? then Some(streamId) else None
    }

    function ToFact(): Fact {
      Fact(State(), Value(generation))
    }
  }

  /** An acknowledged transition that fits its schema; a body that does not is `Undecodable` below. */
  datatype Receipt = Receipt(
    requestId: string, action: Change, session: Uuid, incarnation: Uuid, epoch: Uuid, terminal: string,
    expectedGeneration: Counter, result: Observed)
  {
    function Key(): string {
      KeyOf(session, incarnation, epoch)
    }
  }

  datatype OperationOutcome = Recorded(observed: Option<Observed>) | Pending | ExpiredUnrecorded

  /** What one earlier change is recorded to have done. */
  datatype RawOperation =
    | UnknownOperation(operationId: string)
    | KnownOperation(operationId: string, session: string, action: Action, revision: string, outcome: OperationOutcome)

  datatype Reading = Reading(
    requestId: string, session: Uuid, incarnation: Uuid, epoch: Uuid, terminal: string,
    result: Observed, operation: Option<RawOperation>)
  {
    function Key(): string {
      KeyOf(session, incarnation, epoch)
    }

    /** The pattern of a public reading has no zero alternative. */
    predicate Fits() {
      result.ObservedPublic? ==> Value(result.generation) > 0
    }
  }

  datatype Kind =
    | MalformedReceipt | IdentityMismatch | StaleRevision | OperationConflict | GrantUnavailable
    | Denied | NotFound | Auth | Uncertain | Unavailable | Aborted

  datatype Failure = InvalidUsage | Failure(kind: Kind, effectUnknown: bool)

  /** What the transport brought back: nothing, a body that fails its schema, or a body that fits it. */
  datatype Answer<T> = Lost(kind: Kind, reason: string, effectUnknown: bool) | Undecodable | Received(body: T)

  /** Refusals of a re-raise that say nothing about the attempt being replayed. */
  const REPLAY_UNCERTAIN: set<string> := {
    "audience_invalid_scope", "audience_request_unavailable", "audience_producer_unavailable",
    "audience_request_expired"
  }

  // ----- the client's tables

  datatype Answered = Answered(order: nat, key: string, action: Change, state: Sharing, generation: Counter,
                               streamId: Option<string>)

  datatype Confirmed = Confirmed(order: nat, action: Action, state: Sharing, generation: nat)
  {
    function ToFact(): Fact {
      Fact(state, generation)
    }
  }

  datatype Tables = Tables(answered: map<string, Answered>, confirmed: map<string, Confirmed>, order: nat)

  const EMPTY := Tables(map[], map[], 0)

  datatype SetInput = SetInput(session: string, action: Change, incarnation: Option<string>, replay: bool)

  datatype Reconcile = Reconcile(operationId: string, action: Change)

  datatype ReadInput = ReadInput(session: string, incarnation: Option<string>, reconcile: Option<Reconcile>)

  datatype Decision = Decision(
    action: Change, state: Sharing, session: string, incarnation: string, epoch: string, terminal: string,
    requestId: string, generation: Counter, streamId: Option<string>)

  datatype History =
    | HistoryUnknown(operationId: string)
    | HistoryOpen(operationId: string, action: Action, revision: string, expired: bool)
    | HistoryRecorded(operationId: string, action: Action, revision: string, observed: Option<Observed>)

  datatype AudienceState = AudienceState(
    session: string, incarnation: string, epoch: string, terminal: string, requestId: string,
    state: Sharing, generation: Counter, streamId: Option<string>, operation: Option<History>)

  datatype Verdict = First | Repeat | Superseded | Refuse(kind: Kind)

  function Wanted(a: Change): Sharing {
    if a == Publish then Public else Private
  }

  function Step(a: Change): nat {
    if a == Publish then 1 else 0
  }

  predicate AgreesWith(prior: Answered, r: Receipt) {
    && prior.key == r.Key() && prior.action == r.action && prior.state == r.result.State()
    && prior.generation == r.result.generation && prior.streamId == r.result.Stream()
  }

  /** How one acknowledged transition is judged, in the order the checks are made. */
  function Judge(t: Tables, input: SetInput, r: Receipt): Verdict {
    var generation := Value(r.result.generation);
    if r.session != input.session then Refuse(IdentityMismatch)
    else if input.incarnation.Some? && r.incarnation != input.incarnation.value then Refuse(IdentityMismatch)
    else if r.action != input.action then Refuse(IdentityMismatch)
    else if r.result.State() != Wanted(input.action) then Refuse(MalformedReceipt)
    else if generation != Value(r.expectedGeneration) + Step(input.action) then Refuse(IdentityMismatch)
    else if r.Key() in t.confirmed && generation < t.confirmed[r.Key()].generation then Refuse(StaleRevision)
    else if r.requestId !in t.answered then First
    else if !AgreesWith(t.answered[r.requestId], r) then Refuse(MalformedReceipt)
    else if r.Key() in t.confirmed && t.confirmed[r.Key()].order > t.answered[r.requestId].order then Superseded
    else Repeat
  }

  function DecisionOf(r: Receipt): Decision {
    Decision(r.action, r.result.State(), r.session, r.incarnation, r.epoch, r.terminal,
             r.requestId, r.result.generation, r.result.Stream())
  }

  /** Both tables after a first-time answer. */
  function Record(t: Tables, r: Receipt): Tables {
    var order := t.order + 1;
    Tables(
      t.answered[r.requestId :=
        Answered(order, r.Key(), r.action, r.result.State(), r.result.generation, r.result.Stream())],
      t.confirmed[r.Key() := Confirmed(order, r.action, r.result.State(), Value(r.result.generation))],
      order)
  }

  datatype Applied<T> = Applied(tables: Tables, outcome: Result<T, Failure>)

  /** Why a change is never sent, if it is not. */
  function UnsentChange(input: SetInput, operationId: string): Option<Failure> {
    if !IsUuid(input.session) || !IsUuid(operationId) then Some(InvalidUsage)
    else if !IsUuid4(operationId) then Some(Failure(MalformedReceipt, false))
    else None
  }

  function ApplySet(t: Tables, input: SetInput, operationId: string, answer: Answer<Receipt>): Applied<Decision> {
    var unsent := UnsentChange(input, operationId);
    if unsent.Some? then Applied(t, Err(unsent.value))
    else match answer
      case Lost(kind, reason, effectUnknown) =>
        if input.replay && reason in REPLAY_UNCERTAIN then Applied(t, Err(Failure(Uncertain, true)))
        else Applied(t, Err(Failure(kind, effectUnknown)))
      case Undecodable => Applied(t, Err(Failure(MalformedReceipt, true)))
      case Received(r) =>
        match Judge(t, input, r)
        case Refuse(kind) => Applied(t, Err(Failure(kind, true)))
        case Superseded => Applied(t, Err(Failure(StaleRevision, false)))
        case Repeat => Applied(t, Ok(DecisionOf(r)))
        case First => Applied(Record(t, r), Ok(DecisionOf(r)))
  }

  /** The history half of a reading, or why it is refused. */
  function JudgeHistory(input: ReadInput, raw: Option<RawOperation>): Result<Option<History>, Kind> {
    if raw.Some? != input.reconcile.Some? then Err(MalformedReceipt)
    else if raw.None? then Ok(None)
    else
      var (o, asked) := (raw.value, input.reconcile.value);
      if o.operationId != asked.operationId then Err(IdentityMismatch)
      else if o.UnknownOperation? then Ok(Some(HistoryUnknown(o.operationId)))
      else if o.session != input.session then Err(IdentityMismatch)
      else if o.action != asked.action then Err(IdentityMismatch)
      else match o.outcome
        case Recorded(observed) => Ok(Some(HistoryRecorded(o.operationId, o.action, o.revision, observed)))
        case Pending => Ok(Some(HistoryOpen(o.operationId, o.action, o.revision, false)))
        case ExpiredUnrecorded => Ok(Some(HistoryOpen(o.operationId, o.action, o.revision, true)))
  }

  function JudgeReading(t: Tables, input: ReadInput, c: Reading): Result<Option<History>, Kind> {
    if !c.Fits() then Err(MalformedReceipt)
    else if c.session != input.session then Err(IdentityMismatch)
    else if input.incarnation.Some? && c.incarnation != input.incarnation.value then Err(IdentityMismatch)
    else if c.Key() in t.confirmed && IsOlder(c.result.ToFact(), t.confirmed[c.Key()].ToFact()) then Err(StaleRevision)
    else JudgeHistory(input, c.operation)
  }

  /** Why a question is never sent, if it is not. A question may not name itself as the change it asks about. */
  function UnsentQuestion(input: ReadInput, operationId: string): Option<Failure> {
    if !IsUuid(input.session) || !IsUuid(operationId) then Some(InvalidUsage)
    else if input.reconcile.Some? && !IsUuid(input.reconcile.value.operationId) then Some(InvalidUsage)
    else if input.reconcile.Some? && input.reconcile.value.operationId == operationId then
      Some(Failure(IdentityMismatch, false))
    else if !IsUuid4(operationId) || (input.reconcile.Some? && !IsUuid4(input.reconcile.value.operationId)) then
      Some(Failure(MalformedReceipt, false))
    else None
  }

  function ApplyRead(t: Tables, input: ReadInput, operationId: string,
                     answer: Answer<Reading>): Applied<AudienceState> {
    var unsent := UnsentQuestion(input, operationId);
    if unsent.Some? then Applied(t, Err(unsent.value))
    else match answer
      case Lost(kind, _, effectUnknown) => Applied(t, Err(Failure(kind, effectUnknown)))
      case Undecodable => Applied(t, Err(Failure(MalformedReceipt, false)))
      case Received(c) =>
        match JudgeReading(t, input, c)
        case Err(kind) => Applied(t, Err(Failure(kind, false)))
        case Ok(history) =>
          var order := t.order + 1;
          Applied(
            Tables(
              t.answered,
              t.confirmed[c.Key() := Confirmed(order, Observe, c.result.State(), Value(c.result.generation))],
              order),
            Ok(AudienceState(c.session, c.incarnation, c.epoch, c.terminal, c.requestId,
                             c.result.State(), c.result.generation, c.result.Stream(), history)))
  }

  // ----- the client object

  class AudienceClient {
    var answeredRequest: map<string, Answered>
    var confirmedAudience: map<string, Confirmed>
    var audienceOrder: nat

    constructor ()
      ensures Contents() == EMPTY
    {
      answeredRequest, confirmedAudience, audienceOrder := map[], map[], 0;
    }

    ghost function Contents(): Tables
      reads this
    {
      Tables(answeredRequest, confirmedAudience, audienceOrder)
    }

    method SetAudience(input: SetInput, operationId: string, answer: Answer<Receipt>)
      returns (outcome: Result<Decision, Failure>)
      modifies this
      ensures Applied(Contents(), outcome) == ApplySet(old(Contents()), input, operationId, answer)
    {
      hide UnsentChange;
      var unsent := UnsentChange(input, operationId);
      if unsent.Some? {
        return Err(unsent.value);
      }
      if answer.Lost? {
        if input.replay && answer.reason in REPLAY_UNCERTAIN {
          return Err(Failure(Uncertain, true));
        }
        return Err(Failure(answer.kind, answer.effectUnknown));
      }
      if answer.Undecodable? {
        return Err(Failure(MalformedReceipt, true));
      }
      var r := answer.body;
      if r.session != input.session || (input.incarnation.Some? && r.incarnation != input.incarnation.value) {
        return Err(Failure(IdentityMismatch, true));
      }
      if r.action != input.action {
        return Err(Failure(IdentityMismatch, true));
      }
      if r.result.State() != Wanted(input.action) {
        return Err(Failure(MalformedReceipt, true));
      }
      var generation := Value(r.result.generation);
      if generation != Value(r.expectedGeneration) + Step(input.action) {
        return Err(Failure(IdentityMismatch, true));
      }
      var key := r.Key();
      if key in confirmedAudience && generation < confirmedAudience[key].generation {
        return Err(Failure(StaleRevision, true));
      }
      if r.requestId in answeredRequest {
        var prior := answeredRequest[r.requestId];
        if !AgreesWith(prior, r) {
          return Err(Failure(MalformedReceipt, true));
        }
        if key in confirmedAudience && confirmedAudience[key].order > prior.order {
          return Err(Failure(StaleRevision, false));
        }
        return Ok(DecisionOf(r));
      }
      audienceOrder := audienceOrder + 1;
      answeredRequest := answeredRequest[r.requestId :=
        Answered(audienceOrder, key, r.action, r.result.State(), r.result.generation, r.result.Stream())];
      confirmedAudience := confirmedAudience[key := Confirmed(audienceOrder, r.action, r.result.State(), generation)];
      return Ok(DecisionOf(r));
    }

    method ReadAudience(input: ReadInput, operationId: string, answer: Answer<Reading>)
      returns (outcome: Result<AudienceState, Failure>)
      modifies this
      ensures Applied(Contents(), outcome) == ApplyRead(old(Contents()), input, operationId, answer)
    {
      hide UnsentQuestion, JudgeHistory;
      var unsent := UnsentQuestion(input, operationId);
      if unsent.Some? {
        return Err(unsent.value);
      }
      if answer.Lost? {
        return Err(Failure(answer.kind, answer.effectUnknown));
      }
      if answer.Undecodable? || !answer.body.Fits() {
        return Err(Failure(MalformedReceipt, false));
      }
      var c := answer.body;
      if c.session != input.session || (input.incarnation.Some? && c.incarnation != input.incarnation.value) {
        return Err(Failure(IdentityMismatch, false));
      }
      var key := c.Key();
      if key in confirmedAudience && IsOlder(c.result.ToFact(), confirmedAudience[key].ToFact()) {
        return Err(Failure(StaleRevision, false));
      }
      var history := JudgeHistory(input, c.operation);
      if history.Err? {
        return Err(Failure(history.error, false));
      }
      audienceOrder := audienceOrder + 1;
      confirmedAudience := confirmedAudience[key :=
        Confirmed(audienceOrder, Observe, c.result.State(), Value(c.result.generation))];
      return Ok(AudienceState(c.session, c.incarnation, c.epoch, c.terminal, c.requestId,
                              c.result.State(), c.result.generation, c.result.Stream(), history.value));
    }
  }
}
