/**
 The audience client composed with the runtime that produces the facts. The runtime publishes
 by moving to generation G+1, returns to private at G, journals one result per request, and
 refuses a request issued against another generation. The transport may lose, delay and repeat.
 */
module AudienceSystem {
  import opened Options
  import opened Decimals
  import opened Audience
  import opened AudienceRuns

  // ----- the producer

  datatype Run = Run(session: Uuid, incarnation: Uuid, epoch: Uuid, terminal: string)
  {
    function Key(): string {
      KeyOf(session, incarnation, epoch)
    }
  }

  /** One result the runtime made: a transition, or a reading (`Observe`). */
  datatype Made = Made(requestId: string, action: Action, expected: nat, fact: Fact, streamId: string)

  datatype Producer = Producer(run: Run, current: Fact, streamId: string, journal: map<string, nat>, log: seq<Made>)

  datatype Command = Command(requestId: string, action: Action, expected: nat, freshStream: string)

  function Transition(p: Producer, c: Command): Made {
    match c.action
    case Publish => Made(c.requestId, Publish, c.expected, Fact(Public, p.current.generation + 1), c.freshStream)
    case MakePrivate => Made(c.requestId, MakePrivate, c.expected, Fact(Private, p.current.generation), p.streamId)
    case Observe => Made(c.requestId, Observe, c.expected, p.current, p.streamId)
  }

  function Produce(p: Producer, c: Command): Producer {
    var m := Transition(p, c);
    if c.action == Observe then p.(log := p.log + [m])
    else if c.requestId in p.journal || c.expected != p.current.generation then p
    else p.(current := m.fact, streamId := m.streamId, journal := p.journal[c.requestId := |p.log|], log := p.log + [m])
  }

  /** The log is in the producer's order and never ahead of the present state. */
  predicate ProducerOk(p: Producer) {
    && (forall i, j | 0 <= i < j < |p.log| :: Rank(p.log[i].fact) <= Rank(p.log[j].fact))
    && (forall i | 0 <= i < |p.log| :: Rank(p.log[i].fact) <= Rank(p.current))
    && (forall q | q in p.journal ::
        p.journal[q] < |p.log| && p.log[p.journal[q]].requestId == q && p.log[p.journal[q]].action != Observe)
    && (forall i | 0 <= i < |p.log| && p.log[i].action != Observe ::
        p.log[i].requestId in p.journal && p.journal[p.log[i].requestId] == i)
  }

  lemma ProduceKeepsOrder(p: Producer, c: Command)
    requires ProducerOk(p)
    ensures ProducerOk(Produce(p, c))
    ensures p.log <= Produce(p, c).log && Rank(p.current) <= Rank(Produce(p, c).current)
  {
    var m := Transition(p, c);
    assert Rank(p.current) <= Rank(m.fact);
    hide Rank;
    assert forall i | 0 <= i < |p.log| :: (p.log + [m])[i] == p.log[i];
  }

  /** One journaled result per request: a request is never applied twice. */
  lemma OneResultPerRequest(p: Producer, i: nat, j: nat)
    requires ProducerOk(p) && i < |p.log| && j < |p.log|
    requires p.log[i].action != Observe && p.log[j].action != Observe && p.log[i].requestId == p.log[j].requestId
    ensures i == j
  {
    assert p.journal[p.log[i].requestId] == i && p.journal[p.log[j].requestId] == j;
  }

  // ----- what travels

  /** A counter past 64 bits has no numeral the schema admits. */
  predicate Fits(m: Made) {
    m.expected <= U64_MAX && m.fact.generation <= U64_MAX
  }

  function Numeral(n: nat): Counter
    requires n <= U64_MAX
  {
    ValueOfDecimal(n);
    Decimal(n)
  }

  function ObservedOf(m: Made): Observed
    requires Fits(m)
  {
    if m.fact.state.Public? then ObservedPublic(m.streamId, Numeral(m.fact.generation))
    else ObservedPrivate(Numeral(m.fact.generation))
  }

  function ReceiptOf(run: Run, m: Made): Answer<Receipt>
    requires m.action != Observe
  {
    if !Fits(m) then Undecodable
    else Received(Receipt(m.requestId, m.action, run.session, run.incarnation, run.epoch, run.terminal,
                          Numeral(m.expected), ObservedOf(m)))
  }

  function ReadingOf(run: Run, m: Made, operation: Option<RawOperation>): Answer<Reading> {
    if !Fits(m) then Undecodable
    else Received(Reading(m.requestId, run.session, run.incarnation, run.epoch, run.terminal, ObservedOf(m), operation))
  }

  // ----- the composition

  /** `seen` is one past the newest log entry the client has accepted. */
  datatype System = System(producer: Producer, tables: Tables, seen: nat)

  datatype Move =
    | Make(command: Command)
    | Acknowledge(index: nat, setInput: SetInput, operationId: string)
    | Reply(index: nat, readInput: ReadInput, operationId: string, operation: Option<RawOperation>)
    | Elsewhere(event: Event)

  predicate Concerns(e: Event, key: string) {
    match e
    case SetEvent(_, _, answer) => answer.Received? && answer.body.Key() == key
    case ReadEvent(_, _, answer) => answer.Received? && answer.body.Key() == key
  }

  /** Deliveries carry log entries; anything at all may be delivered about other runs, or be lost. */
  predicate Possible(s: System, m: Move) {
    match m
    case Make(_) => true
    case Acknowledge(i, _, _) => i < |s.producer.log| && s.producer.log[i].action != Observe
    case Reply(i, _, _, _) => i < |s.producer.log| && s.producer.log[i].action == Observe
    case Elsewhere(e) => !Concerns(e, s.producer.run.Key())
  }

  function EventOf(s: System, m: Move): Event
    requires Possible(s, m) && !m.Make?
  {
    match m
    case Acknowledge(i, input, operationId) =>
      SetEvent(input, operationId, ReceiptOf(s.producer.run, s.producer.log[i]))
    case Reply(i, input, operationId, operation) =>
      ReadEvent(input, operationId, ReadingOf(s.producer.run, s.producer.log[i], operation))
    case Elsewhere(e) => e
  }

  /** First-time acknowledgements arrive in the order the runtime made them; repeats may come at any time. */
  predicate InOrder(s: System, m: Move) {
    m.Acknowledge? && Possible(s, m) && s.producer.log[m.index].requestId !in s.tables.answered ==> s.seen <= m.index
  }

  function Max(a: nat, b: nat): nat {
    if a < b then b else a
  }

  function Take(s: System, m: Move): System
    requires Possible(s, m)
  {
    if m.Make? then s.(producer := Produce(s.producer, m.command))
    else
      var effect := Handle(s.tables, EventOf(s, m));
      var seen := if effect.shown.Some? && !m.Elsewhere? then Max(s.seen, m.index + 1) else s.seen;
      s.(tables := effect.tables, seen := seen)
  }

  function ShownBy(s: System, m: Move): Option<Shown>
    requires Possible(s, m)
  {
    if m.Make? then None else Handle(s.tables, EventOf(s, m)).shown
  }

  predicate SystemOk(s: System) {
    && ProducerOk(s.producer)
    && TablesOk(s.tables)
    && s.seen <= |s.producer.log|
    && (s.producer.run.Key() in s.tables.confirmed ==>
          && 0 < s.seen
          && Rank(s.tables.confirmed[s.producer.run.Key()].ToFact()) <= Rank(s.producer.log[s.seen - 1].fact))
  }

  lemma DeliveredFact(m: Made)
    requires Fits(m)
    ensures ObservedOf(m).ToFact() == m.fact
  {
    ValueOfDecimal(m.fact.generation);
  }

  /** What a move shows about the run is what the log entry says. */
  lemma ShownIsLogged(s: System, m: Move)
    requires Possible(s, m) && ShownBy(s, m).Some?
    ensures !m.Elsewhere? ==> ShownBy(s, m) == Some(Shown(s.producer.run.Key(), s.producer.log[m.index].fact))
    ensures m.Elsewhere? ==> ShownBy(s, m).value.key != s.producer.run.Key()
  {
    hide UnsentChange, UnsentQuestion, JudgeHistory;
    if !m.Elsewhere? {
      DeliveredFact(s.producer.log[m.index]);
    }
  }

  lemma AcknowledgeIsNotLate(s: System, m: Move)
    requires SystemOk(s) && Possible(s, m) && InOrder(s, m) && !m.Make?
    requires ShownBy(s, m).Some? && ShownBy(s, m).value.key == s.producer.run.Key()
    ensures !LatePublic(s.tables, EventOf(s, m))
  {
    hide UnsentChange, UnsentQuestion, JudgeHistory, Handle;
    ShownIsLogged(s, m);
    HandleEffect(s.tables, EventOf(s, m));
  }

  lemma TakeKeepsSystem(s: System, m: Move)
    requires SystemOk(s) && Possible(s, m) && InOrder(s, m)
    ensures SystemOk(Take(s, m)) && Take(s, m).producer.run == s.producer.run
    ensures var key := s.producer.run.Key();
            key in s.tables.confirmed ==>
              && key in Take(s, m).tables.confirmed
              && Rank(s.tables.confirmed[key].ToFact()) <= Rank(Take(s, m).tables.confirmed[key].ToFact())
    ensures ShownBy(s, m).Some? && ShownBy(s, m).value.key == s.producer.run.Key() ==>
              var key := s.producer.run.Key();
              && key in Take(s, m).tables.confirmed
              && Take(s, m).tables.confirmed[key].ToFact() == ShownBy(s, m).value.fact
  {
    hide Handle, LatePublic, TablesOk;
    var key := s.producer.run.Key();
    if m.Make? {
      ProduceKeepsOrder(s.producer, m.command);
    } else {
      HandleEffect(s.tables, EventOf(s, m));
      if ShownBy(s, m).Some? {
        ShownIsLogged(s, m);
        if !m.Elsewhere? {
          AcknowledgeIsNotLate(s, m);
        }
      }
    }
  }

  // ----- whole executions

  /** A sequence of moves, each possible and in order when it is taken. */
  predicate Execution(s: System, moves: seq<Move>)
    decreases |moves|
  {
    moves == [] || (Possible(s, moves[0]) && InOrder(s, moves[0]) && Execution(Take(s, moves[0]), moves[1..]))
  }

  function StateAt(s: System, moves: seq<Move>, n: nat): System
    requires Execution(s, moves) && n <= |moves|
    decreases n
  {
    if n == 0 then s else StateAt(Take(s, moves[0]), moves[1..], n - 1)
  }

  lemma {:induction false} StateAtStep(s: System, moves: seq<Move>, n: nat)
    requires Execution(s, moves) && n < |moves|
    ensures Possible(StateAt(s, moves, n), moves[n]) && InOrder(StateAt(s, moves, n), moves[n])
    ensures StateAt(s, moves, n + 1) == Take(StateAt(s, moves, n), moves[n])
    decreases n
  {
    hide Take, Possible, InOrder;
    if n > 0 {
      StateAtStep(Take(s, moves[0]), moves[1..], n - 1);
    }
  }

  lemma {:induction false} ExecutionKeepsSystem(s: System, moves: seq<Move>, n: nat)
    requires SystemOk(s) && Execution(s, moves) && n <= |moves|
    ensures SystemOk(StateAt(s, moves, n)) && StateAt(s, moves, n).producer.run == s.producer.run
  {
    hide Take, Possible, InOrder, TablesOk, ProducerOk;
    if n > 0 {
      ExecutionKeepsSystem(s, moves, n - 1);
      StateAtStep(s, moves, n - 1);
      TakeKeepsSystem(StateAt(s, moves, n - 1), moves[n - 1]);
    }
  }

  lemma {:induction false} ConfirmedOnlyAdvances(s: System, moves: seq<Move>, i: nat, j: nat)
    requires SystemOk(s) && Execution(s, moves) && i <= j <= |moves|
    requires s.producer.run.Key() in StateAt(s, moves, i).tables.confirmed
    ensures var key := s.producer.run.Key();
            && key in StateAt(s, moves, j).tables.confirmed
            && Rank(StateAt(s, moves, i).tables.confirmed[key].ToFact()) <=
               Rank(StateAt(s, moves, j).tables.confirmed[key].ToFact())
  {
    hide Take, Possible, InOrder, SystemOk, Execution;
    if i < j {
      ConfirmedOnlyAdvances(s, moves, i, j - 1);
      ExecutionKeepsSystem(s, moves, j - 1);
      StateAtStep(s, moves, j - 1);
      TakeKeepsSystem(StateAt(s, moves, j - 1), moves[j - 1]);
    }
  }

  /** The fact about the run that move `i` of an execution returned, if it returned one. */
  function ReturnedAt(s: System, moves: seq<Move>, i: nat): Option<Fact>
    requires Execution(s, moves) && i < |moves|
  {
    StateAtStep(s, moves, i);
    var shown := ShownBy(StateAt(s, moves, i), moves[i]);
    if shown.Some? && shown.value.key == s.producer.run.Key() then Some(shown.value.fact) else None
  }

  predicate ReturnsInOrder(s: System, moves: seq<Move>)
    requires Execution(s, moves)
  {
    forall i, j | 0 <= i < j < |moves| && ReturnedAt(s, moves, i).Some? && ReturnedAt(s, moves, j).Some? ::
      Rank(ReturnedAt(s, moves, i).value) <= Rank(ReturnedAt(s, moves, j).value)
  }

  /**
   Composed with the runtime, and with first-time acknowledgements arriving in the order they were
   made, what `setAudience` and `readAudience` return about a run never goes backwards, however
   many answers are repeated, lost, or about other runs.
   */
  lemma NeverBackwardsInOrder(s: System, moves: seq<Move>)
    requires SystemOk(s) && Execution(s, moves)
    ensures ReturnsInOrder(s, moves)
  {
    hide Take, Possible, InOrder, SystemOk, Execution, StateAt, ShownBy;
    forall i, j | 0 <= i < j < |moves| && ReturnedAt(s, moves, i).Some? && ReturnedAt(s, moves, j).Some?
      ensures Rank(ReturnedAt(s, moves, i).value) <= Rank(ReturnedAt(s, moves, j).value)
    {
      StateAtStep(s, moves, i);
      StateAtStep(s, moves, j);
      ExecutionKeepsSystem(s, moves, i);
      ExecutionKeepsSystem(s, moves, j);
      TakeKeepsSystem(StateAt(s, moves, i), moves[i]);
      TakeKeepsSystem(StateAt(s, moves, j), moves[j]);
      ConfirmedOnlyAdvances(s, moves, i + 1, j + 1);
    }
  }

  /** The states the theorem starts from: a runtime that has shared nothing and a fresh client. */
  lemma FreshSystem(run: Run, stream: string)
    ensures SystemOk(System(Producer(run, Fact(Private, 0), stream, map[], []), EMPTY, 0))
  {
  }
}
