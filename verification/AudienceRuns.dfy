/**
 What the two audience tables keep over every run of answers, whatever the transport brings:
 the confirmed fact of a session run, and which facts can be shown after which.
 */
module AudienceRuns {
  import opened Options
  import opened Decimals
  import opened Audience

  // ----- the table invariant

  /** One answered request against the confirmed fact of its run. */
  predicate AnsweredOk(t: Tables, a: Answered) {
    && a.state == Wanted(a.action)
    && a.key in t.confirmed
    && var c := t.confirmed[a.key];
       && a.order <= c.order
       && Value(a.generation) <= c.generation
       && (a.order == c.order ==> c == Confirmed(a.order, a.action, a.state, Value(a.generation)))
  }

  predicate TablesOk(t: Tables) {
    && (forall q | q in t.answered :: AnsweredOk(t, t.answered[q]))
    && (forall k | k in t.confirmed :: t.confirmed[k].order <= t.order)
  }

  /** What an accepted answer changes: one key of the confirmed table, at an order above every other. */
  predicate Confirms(t: Tables, t': Tables, key: string, c: Confirmed) {
    && t'.order == t.order + 1 == c.order
    && t'.confirmed == t.confirmed[key := c]
    && (key in t.confirmed ==> t.confirmed[key].generation <= c.generation)
  }

  lemma RecordKeepsTables(t: Tables, input: SetInput, r: Receipt)
    requires TablesOk(t) && Judge(t, input, r) == First
    ensures var t' := Record(t, r);
            && TablesOk(t')
            && Confirms(t, t', r.Key(), Confirmed(t.order + 1, r.action, r.result.State(), Value(r.result.generation)))
  {
    var t' := Record(t, r);
    forall q | q in t'.answered
      ensures AnsweredOk(t', t'.answered[q])
    {
      if q != r.requestId {
        assert AnsweredOk(t, t.answered[q]);
      }
    }
  }

  /**
   A repeated answer is returned exactly when nothing newer is known about its run, and then it
   is the confirmed fact.
   */
  lemma RepeatIsNewest(t: Tables, input: SetInput, r: Receipt)
    requires TablesOk(t) && r.requestId in t.answered
    requires Judge(t, input, r) in {Repeat, Superseded}
    ensures r.Key() in t.confirmed
    ensures Judge(t, input, r) == Repeat <==> t.confirmed[r.Key()].order == t.answered[r.requestId].order
    ensures Judge(t, input, r) == Repeat ==> t.confirmed[r.Key()].ToFact() == r.result.ToFact()
  {
    assert AnsweredOk(t, t.answered[r.requestId]);
  }

  /** The receipt is about the change that was asked for, and its arithmetic is the producer's. */
  predicate AnswersChange(input: SetInput, r: Receipt) {
    && r.session == input.session && (input.incarnation.Some? ==> r.incarnation == input.incarnation.value)
    && r.action == input.action && (r.result.ObservedPublic? <==> input.action == Publish)
    && Value(r.result.generation) - Value(r.expectedGeneration) == if input.action == Publish then 1 else 0
  }

  /**
   Nothing newer is confirmed about its run: by generation for a first answer, by order for a repeat of the same answer.
   */
  predicate StillStands(t: Tables, r: Receipt) {
    && (r.Key() in t.confirmed ==> t.confirmed[r.Key()].generation <= Value(r.result.generation))
    && (r.requestId in t.answered ==>
          && AgreesWith(t.answered[r.requestId], r)
          && r.Key() in t.confirmed && t.confirmed[r.Key()].order == t.answered[r.requestId].order)
  }

  predicate RepeatsAnswer(t: Tables, r: Receipt) {
    r.requestId in t.answered && AgreesWith(t.answered[r.requestId], r)
  }

  /** A change leaves for the server: its session and its identity are well-formed. */
  predicate LeavesAsChange(input: SetInput, operationId: string) {
    IsUuid(input.session) && IsUuid4(operationId)
  }

  /** What the caller gets of a receipt: its own fields, and a stream exactly for a public screen. */
  predicate ShowsReceipt(d: Decision, r: Receipt) {
    && d.action == r.action && d.session == r.session && d.incarnation == r.incarnation && d.epoch == r.epoch
    && d.terminal == r.terminal && d.requestId == r.requestId && d.generation == r.result.generation
    && (d.state == Public <==> r.result.ObservedPublic?)
    && (d.streamId.Some? <==> r.result.ObservedPublic?)
    && (r.result.ObservedPublic? ==> d.streamId == Some(r.result.streamId))
  }

  /**
   Exactly which answers to a change are returned, and what the caller is told. A receipt that arrived and was refused
   leaves the effect unknown, except the repeat of a settled answer.
   */
  lemma ChangeIsReturnedIff(t: Tables, input: SetInput, operationId: string, answer: Answer<Receipt>)
    requires TablesOk(t)
    ensures var outcome := ApplySet(t, input, operationId, answer).outcome;
            && (outcome.Ok? <==>
                  && LeavesAsChange(input, operationId) && answer.Received?
                  && AnswersChange(input, answer.body) && StillStands(t, answer.body))
            && (outcome.Ok? ==> ShowsReceipt(outcome.value, answer.body))
            && (LeavesAsChange(input, operationId) && answer.Received? && outcome.Err? ==>
                  outcome.error.Failure? && (!outcome.error.effectUnknown ==> RepeatsAnswer(t, answer.body)))
  {
    hide IsUuid, KeyOf, Value;
    if answer.Received? && answer.body.requestId in t.answered {
      assert AnsweredOk(t, t.answered[answer.body.requestId]);
    }
  }

  /** Why a receipt is refused: each kind of refusal has its ground, and only a superseded repeat is settled. */
  lemma RefusalHasGround(t: Tables, input: SetInput, operationId: string, r: Receipt)
    requires TablesOk(t) && LeavesAsChange(input, operationId)
    requires ApplySet(t, input, operationId, Received(r)).outcome.Err?
    ensures var e := ApplySet(t, input, operationId, Received(r)).outcome.error;
            && e.Failure? && e.kind in {IdentityMismatch, MalformedReceipt, StaleRevision}
            && (e.kind == IdentityMismatch ==> !AnswersChange(input, r))
            && (e.kind == MalformedReceipt ==>
                  || (r.result.ObservedPublic? <==> input.action != Publish)
                  || (AnswersChange(input, r) && r.requestId in t.answered && !AgreesWith(t.answered[r.requestId], r)))
            && (e.kind == StaleRevision ==> AnswersChange(input, r) && r.Key() in t.confirmed)
            && (e.kind == StaleRevision && e.effectUnknown ==>
                  Value(r.result.generation) < t.confirmed[r.Key()].generation)
            && (!e.effectUnknown ==> e.kind == StaleRevision)
            && (!e.effectUnknown <==>
                  && AnswersChange(input, r) && RepeatsAnswer(t, r)
                  && t.confirmed[r.Key()].generation <= Value(r.result.generation)
                  && t.answered[r.requestId].order < t.confirmed[r.Key()].order)
  {
    hide IsUuid, KeyOf, Value;
    if r.requestId in t.answered {
      assert AnsweredOk(t, t.answered[r.requestId]);
    }
  }

  /**
   A change that brought no readable receipt changes nothing here. A refusal reports what the transport says of it,
   except that these four, met while repeating an earlier attempt, leave that attempt's effect unknown.
   */
  lemma UnansweredChange(t: Tables, input: SetInput, operationId: string, answer: Answer<Receipt>)
    requires !answer.Received? || !LeavesAsChange(input, operationId)
    ensures var applied := ApplySet(t, input, operationId, answer);
            && applied.tables == t && applied.outcome.Err?
            && (!IsUuid(input.session) || !IsUuid(operationId) <==> applied.outcome.error == InvalidUsage)
            && (IsUuid(input.session) && IsUuid(operationId) && !IsUuid4(operationId) ==>
                  applied.outcome.error == Failure(MalformedReceipt, false))
            && (LeavesAsChange(input, operationId) ==>
                  applied.outcome.error ==
                    match answer
                    case Lost(kind, reason, effectUnknown) =>
                      if input.replay && (|| reason == "audience_invalid_scope"
                                          || reason == "audience_request_unavailable"
                                          || reason == "audience_producer_unavailable"
                                          || reason == "audience_request_expired")
                      then Failure(Uncertain, true) else Failure(kind, effectUnknown)
                    case _ => Failure(MalformedReceipt, true))
  {
    assert IsUuid4(operationId) ==> IsUuid(operationId);
    hide IsUuid, IsUuid4;
  }

  /** The history half of a reading is about the change that was asked about, or absent when none was. */
  predicate AnswersQuestion(input: ReadInput, o: Option<RawOperation>) {
    && (o.Some? <==> input.reconcile.Some?)
    && (o.Some? ==>
          && o.value.operationId == input.reconcile.value.operationId
          && (o.value.KnownOperation? ==>
              o.value.session == input.session && o.value.action == input.reconcile.value.action))
  }

  /** A question leaves for the server: identifiers are well-formed, and it does not name itself. */
  predicate LeavesAsQuestion(input: ReadInput, operationId: string) {
    && IsUuid(input.session) && IsUuid4(operationId)
    && (input.reconcile.Some? ==>
          IsUuid4(input.reconcile.value.operationId) && input.reconcile.value.operationId != operationId)
  }

  /** What the caller gets of a reading about the present, and a stream exactly for a public screen. */
  predicate ShowsReading(a: AudienceState, c: Reading) {
    && a.session == c.session && a.incarnation == c.incarnation && a.epoch == c.epoch && a.terminal == c.terminal
    && a.requestId == c.requestId && a.generation == c.result.generation
    && (a.state == Public <==> c.result.ObservedPublic?)
    && (a.streamId.Some? <==> c.result.ObservedPublic?)
    && (c.result.ObservedPublic? ==> a.streamId == Some(c.result.streamId))
  }

  /** What the caller gets of a reading about an earlier change: exactly what was recorded of it. */
  predicate ShowsHistory(h: Option<History>, o: Option<RawOperation>) {
    && (h.Some? <==> o.Some?)
    && (h.Some? ==>
          && h.value.operationId == o.value.operationId
          && (h.value.HistoryUnknown? <==> o.value.UnknownOperation?)
          && (o.value.KnownOperation? ==>
                && h.value.action == o.value.action && h.value.revision == o.value.revision
                && (h.value.HistoryRecorded? <==> o.value.outcome.Recorded?)
                && (h.value.HistoryRecorded? ==> h.value.observed == o.value.outcome.observed)
                && (h.value.HistoryOpen? ==> (h.value.expired <==> o.value.outcome.ExpiredUnrecorded?))))
  }

  /** Exactly which readings are returned, and that both halves shown are what was read and recorded. */
  lemma ReadingIsReturnedIff(t: Tables, input: ReadInput, operationId: string, answer: Answer<Reading>)
    ensures var applied := ApplyRead(t, input, operationId, answer);
            var outcome := applied.outcome;
            && (outcome.Ok? <==>
                  && LeavesAsQuestion(input, operationId) && answer.Received?
                  && var c := answer.body;
                     && c.session == input.session && (c.result.ObservedPublic? ==> Value(c.result.generation) >= 1)
                     && (input.incarnation.Some? ==> c.incarnation == input.incarnation.value)
                     && (c.Key() in t.confirmed ==> Rank(t.confirmed[c.Key()].ToFact()) <= Rank(c.result.ToFact()))
                     && AnswersQuestion(input, c.operation))
            && (outcome.Ok? ==>
                  && ShowsReading(outcome.value, answer.body)
                  && ShowsHistory(outcome.value.operation, answer.body.operation))
            && (outcome.Err? ==> applied.tables == t)
            && (LeavesAsQuestion(input, operationId) && outcome.Err? ==>
                  && outcome.error.Failure?
                  && (answer.Lost? ==> outcome.error == Failure(answer.kind, answer.effectUnknown))
                  && (!answer.Lost? ==> !outcome.error.effectUnknown))
  {
    assert forall s: string :: IsUuid4(s) ==> IsUuid(s);
    hide IsUuid, IsUuid4, KeyOf, Value;
  }

  /** A publish starting from the last 64-bit counter is never accepted. */
  lemma NoPublishFromMaximum(t: Tables, input: SetInput, operationId: string, r: Receipt)
    requires ApplySet(t, input, operationId, Received(r)).outcome.Ok? && r.action == Publish
    ensures Value(r.expectedGeneration) < U64_MAX
    ensures Value(r.result.generation) == Value(r.expectedGeneration) + 1
  {
  }

  // ----- events and runs

  datatype Event =
    | SetEvent(setInput: SetInput, operationId: string, receipt: Answer<Receipt>)
    | ReadEvent(readInput: ReadInput, operationId: string, reading: Answer<Reading>)

  /** A fact a caller got back, and so may put on a screen. */
  datatype Shown = Shown(key: string, fact: Fact)

  datatype Effect = Effect(tables: Tables, shown: Option<Shown>)

  function ShownDecision(outcome: Result<Decision, Failure>): Option<Shown> {
    match outcome
    case Err(_) => None
    case Ok(d) => Some(Shown(KeyOf(d.session, d.incarnation, d.epoch), Fact(d.state, Value(d.generation))))
  }

  function ShownState(outcome: Result<AudienceState, Failure>): Option<Shown> {
    match outcome
    case Err(_) => None
    case Ok(a) => Some(Shown(KeyOf(a.session, a.incarnation, a.epoch), Fact(a.state, Value(a.generation))))
  }

  function Handle(t: Tables, e: Event): Effect {
    match e
    case SetEvent(input, operationId, answer) =>
      var applied := ApplySet(t, input, operationId, answer);
      Effect(applied.tables, ShownDecision(applied.outcome))
    case ReadEvent(input, operationId, answer) =>
      var applied := ApplyRead(t, input, operationId, answer);
      Effect(applied.tables, ShownState(applied.outcome))
  }

  /** A first-time `public@G` that arrives when `private@G` is already confirmed for its run. */
  predicate LatePublic(t: Tables, e: Event) {
    && e.SetEvent? && e.receipt.Received?
    && ApplySet(t, e.setInput, e.operationId, e.receipt).outcome.Ok?
    && var r := e.receipt.body;
       && r.requestId !in t.answered
       && r.action == Publish
       && r.Key() in t.confirmed
       && t.confirmed[r.Key()].state == Private
       && t.confirmed[r.Key()].generation == Value(r.result.generation)
  }

  /** What the event was about; a reading is an observation. */
  function ActionOf(e: Event): Action {
    if e.SetEvent? && e.receipt.Received? then e.receipt.body.action else Observe
  }

  /** Everything one event does, in one statement. */
  lemma HandleEffect(t: Tables, e: Event)
    requires TablesOk(t)
    ensures TablesOk(Handle(t, e).tables)
    // a refused answer leaves both tables alone
    ensures Handle(t, e).shown.None? ==> Handle(t, e).tables == t
    // a returned answer is the confirmed fact of its run, and touches no other run
    ensures Handle(t, e).shown.Some? ==>
              var t', s := Handle(t, e).tables, Handle(t, e).shown.value;
              && s.key in t'.confirmed && t'.confirmed[s.key].ToFact() == s.fact
              && (forall k | k != s.key :: k in t'.confirmed <==> k in t.confirmed)
              && (forall k | k != s.key && k in t.confirmed :: t'.confirmed[k] == t.confirmed[k])
              && (s.key in t.confirmed ==> t.confirmed[s.key].generation <= s.fact.generation)
              && t'.confirmed[s.key].action == ActionOf(e)
    // and it is older than the confirmed fact it replaces exactly when it is a late `public@G`
    ensures Handle(t, e).shown.Some? ==>
              var s := Handle(t, e).shown.value;
              (s.key in t.confirmed && IsOlder(s.fact, t.confirmed[s.key].ToFact())) <==> LatePublic(t, e)
  {
    hide UnsentChange, UnsentQuestion, JudgeHistory, KeyOf, Value;
    match e
    case SetEvent(input, operationId, answer) =>
      if ApplySet(t, input, operationId, answer).outcome.Ok? {
        var r := answer.body;
        if Judge(t, input, r) == First {
          RecordKeepsTables(t, input, r);
        } else {
          RepeatIsNewest(t, input, r);
        }
      }
    case ReadEvent(input, operationId, answer) =>
      var applied := ApplyRead(t, input, operationId, answer);
      if applied.outcome.Ok? {
        forall q | q in applied.tables.answered
          ensures AnsweredOk(applied.tables, applied.tables.answered[q])
        {
          assert AnsweredOk(t, t.answered[q]);
        }
      }
  }

  function After(events: seq<Event>, n: nat): Tables
    requires n <= |events|
  {
    if n == 0 then EMPTY else Handle(After(events, n - 1), events[n - 1]).tables
  }

  function ShownAt(events: seq<Event>, i: nat): Option<Shown>
    requires i < |events|
  {
    Handle(After(events, i), events[i]).shown
  }

  predicate ShowsFor(events: seq<Event>, i: nat, key: string)
    requires i < |events|
  {
    ShownAt(events, i).Some? && ShownAt(events, i).value.key == key
  }

  lemma {:induction false} RunKeepsTables(events: seq<Event>, n: nat)
    requires n <= |events|
    ensures TablesOk(After(events, n))
  {
    hide Handle;
    if n > 0 {
      RunKeepsTables(events, n - 1);
      HandleEffect(After(events, n - 1), events[n - 1]);
    }
  }

  /** Over every run the confirmed generation of a session run never decreases. */
  lemma {:induction false} ConfirmedGenerationNeverFalls(events: seq<Event>, i: nat, j: nat, key: string)
    requires i <= j <= |events| && key in After(events, i).confirmed
    ensures key in After(events, j).confirmed
    ensures After(events, i).confirmed[key].generation <= After(events, j).confirmed[key].generation
  {
    hide Handle, TablesOk, LatePublic;
    if i < j {
      ConfirmedGenerationNeverFalls(events, i, j - 1, key);
      RunKeepsTables(events, j - 1);
      HandleEffect(After(events, j - 1), events[j - 1]);
    }
  }

  /** Every returned fact is the confirmed fact of its run at that moment. */
  lemma ReturnedIsConfirmed(events: seq<Event>, i: nat)
    requires i < |events| && ShownAt(events, i).Some?
    ensures var s := ShownAt(events, i).value;
            s.key in After(events, i + 1).confirmed && After(events, i + 1).confirmed[s.key].ToFact() == s.fact
  {
    hide Handle, TablesOk, LatePublic;
    RunKeepsTables(events, i);
    HandleEffect(After(events, i), events[i]);
  }

  /** ... and every confirmed fact was returned by some earlier answer. */
  lemma {:induction false} ConfirmedWasReturned(events: seq<Event>, n: nat, key: string) returns (i: nat)
    requires n <= |events| && key in After(events, n).confirmed
    ensures i < n && ShownAt(events, i) == Some(Shown(key, After(events, n).confirmed[key].ToFact()))
    ensures After(events, n).confirmed[key].action == ActionOf(events[i])
  {
    hide Handle, TablesOk, LatePublic;
    RunKeepsTables(events, n - 1);
    HandleEffect(After(events, n - 1), events[n - 1]);
    if ShowsFor(events, n - 1, key) {
      i := n - 1;
    } else {
      i := ConfirmedWasReturned(events, n - 1, key);
    }
  }

  // ----- which facts may follow which

  /** The facts returned for one run never go backwards in the producer's order. */
  predicate NeverBackwards(events: seq<Event>, key: string) {
    forall i, j | 0 <= i < j < |events| && ShowsFor(events, i, key) && ShowsFor(events, j, key) ::
      Rank(ShownAt(events, i).value.fact) <= Rank(ShownAt(events, j).value.fact)
  }

  predicate NoLatePublic(events: seq<Event>, key: string) {
    forall i | 0 <= i < |events| && ShowsFor(events, i, key) :: !LatePublic(After(events, i), events[i])
  }

  lemma {:induction false} ConfirmedRankNeverFalls(events: seq<Event>, i: nat, j: nat, key: string)
    requires NoLatePublic(events, key)
    requires i <= j <= |events| && key in After(events, i).confirmed
    ensures key in After(events, j).confirmed
    ensures Rank(After(events, i).confirmed[key].ToFact()) <= Rank(After(events, j).confirmed[key].ToFact())
  {
    hide Handle, TablesOk, LatePublic;
    if i < j {
      ConfirmedRankNeverFalls(events, i, j - 1, key);
      RunKeepsTables(events, j - 1);
      HandleEffect(After(events, j - 1), events[j - 1]);
      assert ShowsFor(events, j - 1, key) ==> !LatePublic(After(events, j - 1), events[j - 1]);
    }
  }

  lemma OrderedWithoutLatePublic(events: seq<Event>, key: string)
    requires NoLatePublic(events, key)
    ensures NeverBackwards(events, key)
  {
    hide Handle, After, LatePublic;
    forall i, j | 0 <= i < j < |events| && ShowsFor(events, i, key) && ShowsFor(events, j, key)
      ensures Rank(ShownAt(events, i).value.fact) <= Rank(ShownAt(events, j).value.fact)
    {
      ReturnedIsConfirmed(events, i);
      ReturnedIsConfirmed(events, j);
      ConfirmedRankNeverFalls(events, i + 1, j + 1, key);
    }
  }

  lemma LatePublicGoesBackwards(events: seq<Event>, key: string, j: nat)
    requires j < |events| && ShowsFor(events, j, key) && LatePublic(After(events, j), events[j])
    ensures !NeverBackwards(events, key)
  {
    hide Handle, TablesOk, LatePublic;
    RunKeepsTables(events, j);
    HandleEffect(After(events, j), events[j]);
    var i := ConfirmedWasReturned(events, j, key);
    assert ShowsFor(events, i, key);
  }

  /**
   The exact condition: over every run of arbitrary answers, the facts returned for a session
   run stay in the producer's order if and only if no late `public@G` was accepted.
   */
  lemma OrderedIffNoLatePublic(events: seq<Event>, key: string)
    ensures NeverBackwards(events, key) <==> NoLatePublic(events, key)
  {
    hide Handle, After, LatePublic;
    if NoLatePublic(events, key) {
      OrderedWithoutLatePublic(events, key);
    } else {
      var j :| 0 <= j < |events| && ShowsFor(events, j, key) && LatePublic(After(events, j), events[j]);
      LatePublicGoesBackwards(events, key, j);
    }
  }

  /** Readings alone need no assumption about the transport or the producer. */
  lemma ReadingsAreOrdered(events: seq<Event>, key: string)
    requires forall i | 0 <= i < |events| :: events[i].ReadEvent?
    ensures NeverBackwards(events, key)
  {
    OrderedWithoutLatePublic(events, key);
  }

  /** A repeated request can be returned only while it is the newest decision about its run. */
  lemma ReplayIsNewestDecision(events: seq<Event>, i: nat)
    requires i < |events| && events[i].SetEvent? && ShownAt(events, i).Some?
    requires events[i].receipt.body.requestId in After(events, i).answered
    ensures var r, t := events[i].receipt.body, After(events, i);
            && r.Key() in t.confirmed
            && t.confirmed[r.Key()].order == t.answered[r.requestId].order
            && After(events, i + 1) == t
  {
    RunKeepsTables(events, i);
    RepeatIsNewest(After(events, i), events[i].setInput, events[i].receipt.body);
  }

  // ----- one decision per request

  /** Event `i` returned a decision about this request. */
  predicate Decides(events: seq<Event>, i: nat, requestId: string)
    requires i < |events|
  {
    && events[i].SetEvent? && events[i].receipt.Received? && events[i].receipt.body.requestId == requestId
    && ShownAt(events, i).Some?
  }

  /** The two receipts tell of the same transition of the same run. */
  predicate SameDecision(r: Receipt, q: Receipt) {
    && r.Key() == q.Key() && r.action == q.action && r.result.generation == q.result.generation
    && (r.result.ObservedPublic? <==> q.result.ObservedPublic?)
    && (r.result.ObservedPublic? && q.result.ObservedPublic? ==> r.result.streamId == q.result.streamId)
  }

  /** The answered table after one more event: a first decision is entered, and nothing else changes it. */
  lemma AnsweredStep(t: Tables, e: Event)
    ensures var t' := Handle(t, e).tables;
            if e.SetEvent? && e.receipt.Received? && Handle(t, e).shown.Some? then
              && var r := e.receipt.body;
                 && r.requestId in t'.answered && AgreesWith(t'.answered[r.requestId], r)
                 && (forall q | q != r.requestId :: q in t'.answered <==> q in t.answered)
                 && (forall q | q in t.answered :: t'.answered[q] == t.answered[q])
            else t'.answered == t.answered
  {
    hide UnsentChange, UnsentQuestion, JudgeHistory, KeyOf, Value;
  }

  /** A request is in the answered table exactly when some event returned a decision about it, and the entry is that. */
  lemma {:induction false} AnsweredIffDecided(events: seq<Event>, n: nat, requestId: string)
    requires n <= |events|
    ensures requestId in After(events, n).answered <==> exists i | 0 <= i < n :: Decides(events, i, requestId)
    ensures forall i | 0 <= i < n && Decides(events, i, requestId) ::
              && requestId in After(events, n).answered
              && AgreesWith(After(events, n).answered[requestId], events[i].receipt.body)
  {
    hide Handle, AgreesWith;
    if n > 0 {
      AnsweredIffDecided(events, n - 1, requestId);
      AnsweredStep(After(events, n - 1), events[n - 1]);
      var m := n - 1;
      assert (exists i | 0 <= i < n :: Decides(events, i, requestId)) <==>
             Decides(events, m, requestId) || exists i | 0 <= i < m :: Decides(events, i, requestId);
    }
  }

  /**
   Over every run, whatever the transport repeats or contradicts, all decisions returned about one request are the same
   decision, and every one after the first leaves the client as it was.
   */
  lemma OneDecisionPerRequest(events: seq<Event>, i: nat, j: nat, requestId: string)
    requires i < j < |events| && Decides(events, i, requestId) && Decides(events, j, requestId)
    ensures SameDecision(events[i].receipt.body, events[j].receipt.body)
    ensures After(events, j + 1) == After(events, j)
  {
    hide Handle, KeyOf;
    AnsweredIffDecided(events, j, requestId);
    AnsweredIffDecided(events, j + 1, requestId);
    ReplayIsNewestDecision(events, j);
  }

  // ----- the failing family is inhabited

  const SESSION: Uuid := "00000000-0000-4000-8000-000000000001"
  const FIRST_REQUEST := "00000000-0000-4000-8000-000000000002"
  const SECOND_REQUEST := "00000000-0000-4000-8000-000000000003"

  function Acknowledged(requestId: string, result: Observed, action: Change, expected: Counter): Event {
    SetEvent(SetInput(SESSION, action, None, false), requestId,
             Received(Receipt(requestId, action, SESSION, SESSION, SESSION, SESSION, expected, result)))
  }

  /**
   The generation floor is not an order: the acknowledgement of the publish that made generation 1,
   arriving first only after `private@1` was confirmed, is returned as the present state.
   */
  lemma LatePublicIsAccepted()
    ensures var events := [Acknowledged(FIRST_REQUEST, ObservedPrivate("1"), MakePrivate, "1"),
                           Acknowledged(SECOND_REQUEST, ObservedPublic(SESSION, "1"), Publish, "0")];
            var key := KeyOf(SESSION, SESSION, SESSION);
            && ShownAt(events, 0) == Some(Shown(key, Fact(Private, 1)))
            && ShownAt(events, 1) == Some(Shown(key, Fact(Public, 1)))
            && !NeverBackwards(events, key)
  {
    hide IsUuid, IsUuid4, Value;
    OneDigitNumerals();
    var e0 := Acknowledged(FIRST_REQUEST, ObservedPrivate("1"), MakePrivate, "1");
    var e1 := Acknowledged(SECOND_REQUEST, ObservedPublic(SESSION, "1"), Publish, "0");
    var events, key := [e0, e1], KeyOf(SESSION, SESSION, SESSION);
    WitnessIdentifiers();
    assert After(events, 0) == EMPTY;
    assert Judge(EMPTY, e0.setInput, e0.receipt.body) == First;
    var t := Record(EMPTY, e0.receipt.body);
    assert After(events, 1) == t;
    assert Judge(t, e1.setInput, e1.receipt.body) == First;
    assert ShowsFor(events, 0, key) && ShowsFor(events, 1, key);
  }

  lemma WitnessIdentifiers()
    ensures IsUuid4(SESSION) && IsUuid4(FIRST_REQUEST) && IsUuid4(SECOND_REQUEST)
    ensures IsUuid(SESSION) && IsUuid(FIRST_REQUEST) && IsUuid(SECOND_REQUEST) && FIRST_REQUEST != SECOND_REQUEST
  {
    assert SECOND_REQUEST[35] != FIRST_REQUEST[35];
  }

  lemma OneDigitNumerals()
    ensures IsCounter("0") && IsCounter("1") && Value("0") == 0 && Value("1") == 1
  {
    assert Value("0"[..0]) == 0 && Value("1"[..0]) == 0;
  }
}
