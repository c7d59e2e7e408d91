/**
 The process supervisor: one supervised process per AgentSession, identified by its epoch, moving
 through a fixed set of states that only a new registration can leave once it has ended.
 */
module Supervisor {
  import opened Options

  datatype State = Starting | Ready | Running | Terminating | Exited | Failed | Terminated

  datatype Identity = Identity(agentSessionId: string, processEpoch: string)

  datatype Process = Process(
    identity: Identity, state: State, pid: Option<int>, startedAt: int, updatedAt: int,
    exitCode: Option<int>, failureReason: Option<string>)

  datatype SupervisorError = DuplicateProcess | UnknownProcess | InvalidTransition | IdentityMismatch

  type Processes = map<string, Process>

  predicate IsTerminal(s: State) {
    s.Exited? || s.Failed? || s.Terminated?
  }

  function Transitions(s: State): set<State> {
    match s
    case Starting => {Ready, Failed, Terminating}
    case Ready => {Running, Terminating, Exited, Failed}
    case Running => {Terminating, Exited, Failed}
    case Terminating => {Terminated, Failed}
    case _ => {}
  }

  predicate ValidIdentity(i: Identity) {
    0 < |i.agentSessionId| <= 256 && 0 < |i.processEpoch| <= 256
  }

  function Require(ps: Processes, i: Identity): Result<Process, SupervisorError> {
    if i.agentSessionId !in ps then Err(UnknownProcess)
    else if ps[i.agentSessionId].identity.processEpoch != i.processEpoch then Err(IdentityMismatch)
    else Ok(ps[i.agentSessionId])
  }

  function OrElse<T>(next: Option<T>, kept: Option<T>): Option<T> {
    if next.Some? then next else kept
  }

  datatype Op =
    | Register(identity: Identity, pid: Option<int>)
    | Transition(identity: Identity, next: State, exitCode: Option<int>, failureReason: Option<string>)

  datatype Effect = Effect(processes: Processes, outcome: Result<Process, SupervisorError>)

  function Apply(ps: Processes, op: Op, now: int): Effect {
    match op
    case Register(i, pid) =>
      if !ValidIdentity(i) then Effect(ps, Err(IdentityMismatch))
      else if i.agentSessionId in ps && !IsTerminal(ps[i.agentSessionId].state) then Effect(ps, Err(DuplicateProcess))
      else
        var next := Process(i, Starting, pid, now, now, None, None);
        Effect(ps[i.agentSessionId := next], Ok(next))
    case Transition(i, state, exitCode, reason) =>
      match Require(ps, i)
      case Err(e) => Effect(ps, Err(e))
      case Ok(p) =>
        if p.state == state then Effect(ps, Ok(p))
        else if state !in Transitions(p.state) then Effect(ps, Err(InvalidTransition))
        else if (state.Exited? || state.Terminated?) && reason.Some? then Effect(ps, Err(InvalidTransition))
        else if state.Failed? && (reason.None? || reason.value == "") then Effect(ps, Err(InvalidTransition))
        else
          var next := p.(state := state, updatedAt := now, exitCode := OrElse(exitCode, p.exitCode),
                         failureReason := OrElse(reason, p.failureReason));
          Effect(ps[i.agentSessionId := next], Ok(next))
  }

  class ProcessSupervisor {
    var processes: Processes

    constructor ()
      ensures processes == map[]
    {
      processes := map[];
    }

    method Register(identity: Identity, now: int, pid: Option<int>) returns (outcome: Result<Process, SupervisorError>)
      modifies this
      ensures Effect(processes, outcome) == Apply(old(processes), Op.Register(identity, pid), now)
    {
      if !ValidIdentity(identity) {
        return Err(IdentityMismatch);
      }
      if identity.agentSessionId in processes && !IsTerminal(processes[identity.agentSessionId].state) {
        return Err(DuplicateProcess);
      }
      var next := Process(identity, Starting, pid, now, now, None, None);
      processes := processes[identity.agentSessionId := next];
      return Ok(next);
    }

    method Transition(identity: Identity, state: State, now: int, exitCode: Option<int>, failureReason: Option<string>)
      returns (outcome: Result<Process, SupervisorError>)
      modifies this
      ensures Effect(processes, outcome) ==
              Apply(old(processes), Op.Transition(identity, state, exitCode, failureReason), now)
    {
      var current := Require(processes, identity);
      if current.Err? {
        return Err(current.error);
      }
      if current.value.state == state {
        return Ok(current.value);
      }
      if state !in Transitions(current.value.state) {
        return Err(InvalidTransition);
      }
      if (state.Exited? || state.Terminated?) && failureReason.Some? {
        return Err(InvalidTransition);
      }
      if state.Failed? && (failureReason.None? || failureReason.value == "") {
        return Err(InvalidTransition);
      }
      var next := current.value.(state := state, updatedAt := now);
      if exitCode.Some? {
        next := next.(exitCode := exitCode);
      }
      if failureReason.Some? {
        next := next.(failureReason := failureReason);
      }
      processes := processes[identity.agentSessionId := next];
      return Ok(next);
    }
  }

  // ----- runs

  datatype Call = Call(op: Op, now: int)

  function After(calls: seq<Call>, n: nat): Processes
    requires n <= |calls|
  {
    if n == 0 then map[] else Apply(After(calls, n - 1), calls[n - 1].op, calls[n - 1].now).processes
  }

  predicate Supervised(calls: seq<Call>, n: nat, id: string)
    requires n <= |calls|
  {
    id in After(calls, n)
  }

  /** Call `n` registered a new process for the session. */
  predicate Registers(calls: seq<Call>, n: nat, id: string)
    requires n < |calls|
  {
    && calls[n].op.Register? && calls[n].op.identity.agentSessionId == id
    && Apply(After(calls, n), calls[n].op, calls[n].now).outcome.Ok?
  }

  /** Effective state changes of the session's process since it was last registered. */
  function Moves(calls: seq<Call>, n: nat, id: string): nat
    requires n <= |calls|
  {
    if n == 0 || Registers(calls, n - 1, id) then 0
    else
      var moved := && Supervised(calls, n - 1, id) && Supervised(calls, n, id)
                   && After(calls, n - 1)[id].state != After(calls, n)[id].state;
      Moves(calls, n - 1, id) + (if moved then 1 else 0)
  }

  function Rank(s: State): nat {
    match s
    case Starting => 0
    case Ready => 1
    case Running => 2
    case Terminating => 3
    case _ => 4
  }

  /** What one call can do to one session's process. */
  lemma CallEffect(ps: Processes, c: Call, id: string)
    requires id in ps
    ensures Apply(ps, c.op, c.now).outcome.Err? ==> Apply(ps, c.op, c.now).processes == ps
    ensures var ps' := Apply(ps, c.op, c.now).processes;
            && id in ps'
            && (ps'[id] != ps[id] ==>
                c.op.identity.agentSessionId == id && c.op.identity.processEpoch == ps'[id].identity.processEpoch)
            && (ps'[id] != ps[id] ==>
                  || (IsTerminal(ps[id].state) && c.op.Register? && ps'[id].state == Starting)
                  || (Rank(ps[id].state) < Rank(ps'[id].state) && c.op.Transition? && !IsTerminal(ps[id].state)
                      && ps'[id].identity == ps[id].identity && ps'[id].startedAt == ps[id].startedAt))
  {
  }

  /** In every run, the supervised state outranks the number of changes it took: at most four per registration. */
  lemma {:induction false} AtMostFourMoves(calls: seq<Call>, n: nat, id: string)
    requires n <= |calls|
    ensures Supervised(calls, n, id) ==> Moves(calls, n, id) <= Rank(After(calls, n)[id].state)
    ensures !Supervised(calls, n, id) ==> Moves(calls, n, id) == 0
    ensures Moves(calls, n, id) <= 4
  {
    if n > 0 {
      AtMostFourMoves(calls, n - 1, id);
      if Supervised(calls, n - 1, id) {
        CallEffect(After(calls, n - 1), calls[n - 1], id);
      }
    }
  }

  /**
   Between two moments of any run: if the session's epoch differs, some registration in between found
   the process ended; and if it had ended and no registration happened, nothing about it changed.
   */
  lemma {:induction false} EpochChangesOnlyAfterTheEnd(calls: seq<Call>, i: nat, j: nat, id: string)
    requires i <= j <= |calls| && Supervised(calls, i, id)
    ensures Supervised(calls, j, id)
    ensures After(calls, i)[id].identity.processEpoch != After(calls, j)[id].identity.processEpoch ==>
              exists k | i <= k < j ::
                  Supervised(calls, k, id) && IsTerminal(After(calls, k)[id].state) && Registers(calls, k, id)
    ensures IsTerminal(After(calls, i)[id].state) && (forall k | i <= k < j :: !Registers(calls, k, id)) ==>
              After(calls, j)[id] == After(calls, i)[id]
  {
    if i < j {
      EpochChangesOnlyAfterTheEnd(calls, i, j - 1, id);
      CallEffect(After(calls, j - 1), calls[j - 1], id);
      assert After(calls, j) == Apply(After(calls, j - 1), calls[j - 1].op, calls[j - 1].now).processes;
      if After(calls, j)[id] != After(calls, j - 1)[id] && calls[j - 1].op.Register? {
        assert Registers(calls, j - 1, id);
      }
    }
  }

  /** Every failed process carries a non-empty reason, and a process is filed under its own session. */
  lemma {:induction false} FailedHasReason(calls: seq<Call>, n: nat, id: string)
    requires n <= |calls| && Supervised(calls, n, id)
    ensures var p := After(calls, n)[id];
            && p.identity.agentSessionId == id
            && (p.state.Failed? ==> p.failureReason.Some? && p.failureReason.value != "")
  {
    if Supervised(calls, n - 1, id) {
      FailedHasReason(calls, n - 1, id);
    }
  }

  /** Call `k` moved the session's process to another state and gave a reason. */
  predicate GivesReason(calls: seq<Call>, k: nat, id: string)
    requires k < |calls|
  {
    && calls[k].op.Transition? && calls[k].op.failureReason.Some?
    && Supervised(calls, k, id) && After(calls, k)[id] != After(calls, k + 1)[id]
  }

  /** No registration of the session among calls `k` to `n`. */
  predicate Unregistered(calls: seq<Call>, k: nat, n: nat, id: string)
    requires n <= |calls|
  {
    forall i | k <= i < n :: !Registers(calls, i, id)
  }

  /** The reason given at call `k`, the last one before `n`, in the life of the present process. */
  predicate LastReason(calls: seq<Call>, k: nat, n: nat, id: string)
    requires k < n <= |calls|
  {
    GivesReason(calls, k, id) && Unregistered(calls, k, n, id) && forall i | k < i < n :: !GivesReason(calls, i, id)
  }

  lemma ReasonStep(calls: seq<Call>, n: nat, id: string)
    requires 0 < n <= |calls| && Supervised(calls, n, id)
    ensures Registers(calls, n - 1, id) ==> After(calls, n)[id].failureReason.None?
    ensures !Registers(calls, n - 1, id) ==> Supervised(calls, n - 1, id)
    ensures !Registers(calls, n - 1, id) && GivesReason(calls, n - 1, id) ==>
              After(calls, n)[id].failureReason == calls[n - 1].op.failureReason
    ensures !Registers(calls, n - 1, id) && !GivesReason(calls, n - 1, id) ==>
              After(calls, n)[id].failureReason == After(calls, n - 1)[id].failureReason
  {
    var ps := After(calls, n - 1);
    assert After(calls, n) == Apply(ps, calls[n - 1].op, calls[n - 1].now).processes;
  }

  /**
   In every run a process, failed or not, carries a reason if and only if some effective transition since its last
   registration gave one, and it is the last one given.
   */
  lemma {:induction false} ReasonIffGiven(calls: seq<Call>, n: nat, id: string)
    requires n <= |calls| && Supervised(calls, n, id)
    ensures After(calls, n)[id].failureReason.Some? <==> exists k | 0 <= k < n :: LastReason(calls, k, n, id)
    ensures forall k | 0 <= k < n && LastReason(calls, k, n, id) ::
              After(calls, n)[id].failureReason == calls[k].op.failureReason
  {
    hide Apply, After;
    if n == 0 {
      NobodyAtFirst(calls, id);
    } else {
      ReasonStep(calls, n, id);
      if !Registers(calls, n - 1, id) {
        ReasonIffGiven(calls, n - 1, id);
        if GivesReason(calls, n - 1, id) {
          assert LastReason(calls, n - 1, n, id);
        } else {
          assert forall k | 0 <= k < n - 1 :: LastReason(calls, k, n, id) <==> LastReason(calls, k, n - 1, id);
          var m := n - 1;
          if k :| 0 <= k < m && LastReason(calls, k, m, id) {
            assert LastReason(calls, k, n, id);
          }
        }
      }
    }
  }

  /**
   A process that exited or was terminated never got its reason with that step: if it carries one, an earlier
   transition, to a state it did not end in, gave it.
   */
  lemma CleanEndGivesNoReason(calls: seq<Call>, k: nat, n: nat, id: string)
    requires k < n <= |calls| && Supervised(calls, n, id) && LastReason(calls, k, n, id)
    requires After(calls, n)[id].state.Exited? || After(calls, n)[id].state.Terminated?
    ensures !IsTerminal(calls[k].op.next) && Supervised(calls, k + 1, id)
    ensures After(calls, k + 1)[id].state == calls[k].op.next != After(calls, n)[id].state
  {
    assert After(calls, k + 1) == Apply(After(calls, k), calls[k].op, calls[k].now).processes;
    assert !Registers(calls, k, id);
    EpochChangesOnlyAfterTheEnd(calls, k + 1, n, id);
  }

  lemma NobodyAtFirst(calls: seq<Call>, id: string)
    ensures !Supervised(calls, 0, id)
  {
  }

  // ----- which calls are accepted, and what a process shows

  /** The moves a live process may make, by where they lead. */
  predicate Legal(from: State, to: State) {
    match to
    case Starting => false
    case Ready => from == Starting
    case Running => from == Ready
    case Terminating => from == Starting || from == Ready || from == Running
    case Exited => from == Ready || from == Running
    case Failed => from == Starting || from == Ready || from == Running || from == Terminating
    case Terminated => from == Terminating
  }

  /** Failing takes a reason and a clean end takes none; any other move may bring one. */
  predicate ReasonFits(to: State, reason: Option<string>) {
    && (to == Failed ==> reason.Some? && |reason.value| > 0)
    && (to == Exited || to == Terminated ==> reason.None?)
  }

  /** A move is accepted exactly for the epoch under supervision, along a legal edge, with a fitting reason. */
  lemma MoveIsAcceptedIff(
    ps: Processes, i: Identity, to: State, exitCode: Option<int>, reason: Option<string>, now: int)
    ensures var id := i.agentSessionId;
            var e := Apply(ps, Transition(i, to, exitCode, reason), now);
            && (e.outcome == Err(UnknownProcess) <==> id !in ps)
            && (e.outcome == Err(IdentityMismatch) <==> id in ps && ps[id].identity.processEpoch != i.processEpoch)
            && (e.outcome.Ok? <==>
                  && id in ps && ps[id].identity.processEpoch == i.processEpoch
                  && (ps[id].state == to || (Legal(ps[id].state, to) && ReasonFits(to, reason))))
            && (e.outcome.Err? ==> !e.outcome.error.DuplicateProcess?)
            && (e.outcome.Ok? ==>
                id in e.processes && e.processes[id] == e.outcome.value && e.outcome.value.state == to)
            && (forall other | other != id :: other in e.processes <==> other in ps)
            && (forall other | other in ps && other != id :: e.processes[other] == ps[other])
  {
  }

  /** A registration is accepted exactly for a well-formed identity whose session has no live process. */
  lemma RegistrationIsAcceptedIff(ps: Processes, i: Identity, pid: Option<int>, now: int)
    ensures var id := i.agentSessionId;
            var e := Apply(ps, Register(i, pid), now);
            var wellFormed := 1 <= |id| <= 256 && 1 <= |i.processEpoch| <= 256;
            var live := id in ps && ps[id].state in {Starting, Ready, Running, Terminating};
            && (e.outcome == Err(IdentityMismatch) <==> !wellFormed)
            && (e.outcome == Err(DuplicateProcess) <==> wellFormed && live)
            && (e.outcome.Ok? <==> wellFormed && !live)
            && (e.outcome.Ok? ==> id in e.processes && e.processes[id] == e.outcome.value)
            && (forall other | other != id :: other in e.processes <==> other in ps)
            && (forall other | other in ps && other != id :: e.processes[other] == ps[other])
  {
  }

  /** Call `k` moved the session's process to another state. */
  predicate MovesProcess(calls: seq<Call>, k: nat, id: string)
    requires k < |calls|
  {
    && calls[k].op.Transition? && Supervised(calls, k, id) && Supervised(calls, k + 1, id)
    && After(calls, k)[id].state != After(calls, k + 1)[id].state
  }

  /** Neither a registration nor a move among calls `k` to `n`. */
  predicate Still(calls: seq<Call>, k: nat, n: nat, id: string)
    requires n <= |calls|
  {
    forall i | k <= i < n :: !Registers(calls, i, id) && !MovesProcess(calls, i, id)
  }

  /** No move among calls `k` to `n` brought an exit code. */
  predicate NoExitCode(calls: seq<Call>, k: nat, n: nat, id: string)
    requires n <= |calls|
  {
    forall i | k <= i < n :: MovesProcess(calls, i, id) ==> calls[i].op.exitCode.None?
  }

  lemma FieldStep(calls: seq<Call>, n: nat, id: string)
    requires 0 < n <= |calls| && Supervised(calls, n, id)
    ensures var c, p := calls[n - 1], After(calls, n)[id];
            if Registers(calls, n - 1, id) then
              && p.identity == c.op.identity && p.pid == c.op.pid && p.startedAt == c.now && p.updatedAt == c.now
              && p.state == Starting && p.exitCode.None?
            else
              && Supervised(calls, n - 1, id)
              && var q := After(calls, n - 1)[id];
                 && p.identity == q.identity && p.pid == q.pid && p.startedAt == q.startedAt
                 && (!MovesProcess(calls, n - 1, id) ==> p == q)
                 && (MovesProcess(calls, n - 1, id) ==>
                       && p.state == c.op.next && p.updatedAt == c.now
                       && p.exitCode == if c.op.exitCode.Some? then c.op.exitCode else q.exitCode)
  {
    assert After(calls, n) == Apply(After(calls, n - 1), calls[n - 1].op, calls[n - 1].now).processes;
  }

  /**
   In every run a supervised process is what the calls made it: identity, pid and start are those of its last
   registration, and its state and the time of its last update those of the last call that registered or moved it.
   */
  lemma {:induction false} ProcessIsAsCalled(calls: seq<Call>, n: nat, id: string) returns (r: nat, m: nat)
    requires n <= |calls| && Supervised(calls, n, id)
    ensures r <= m < n && Registers(calls, r, id) && Unregistered(calls, r + 1, n, id) && Still(calls, m + 1, n, id)
    ensures m == r || MovesProcess(calls, m, id)
    ensures var p := After(calls, n)[id];
            && p.identity == calls[r].op.identity && p.pid == calls[r].op.pid && p.startedAt == calls[r].now
            && p.updatedAt == calls[m].now && p.state == if m == r then Starting else calls[m].op.next
  {
    hide Apply, After, Registers, MovesProcess;
    NobodyAtFirst(calls, id);
    FieldStep(calls, n, id);
    if Registers(calls, n - 1, id) {
      r, m := n - 1, n - 1;
    } else {
      r, m := ProcessIsAsCalled(calls, n - 1, id);
      if MovesProcess(calls, n - 1, id) {
        m := n - 1;
      }
    }
  }

  /** The exit code is the last one that a move since the registration brought, and there is none if none did. */
  lemma {:induction false} ExitCodeIsLastBrought(calls: seq<Call>, k: nat, n: nat, id: string)
    requires k < n <= |calls| && Supervised(calls, n, id) && Unregistered(calls, k + 1, n, id)
    requires NoExitCode(calls, k + 1, n, id)
    ensures Registers(calls, k, id) ==> After(calls, n)[id].exitCode.None?
    ensures MovesProcess(calls, k, id) && !Registers(calls, k, id) && calls[k].op.exitCode.Some? ==>
              After(calls, n)[id].exitCode == calls[k].op.exitCode
  {
    hide Apply, After, Registers, MovesProcess;
    FieldStep(calls, n, id);
    if k + 1 < n {
      assert !Registers(calls, n - 1, id);
      ExitCodeIsLastBrought(calls, k, n - 1, id);
    }
  }

  // ----- epochs

  function EpochAt(calls: seq<Call>, n: nat, id: string): string
    requires n <= |calls| && Supervised(calls, n, id)
  {
    After(calls, n)[id].identity.processEpoch
  }

  /** Equal epochs mean that no registration happened in between. */
  predicate EpochsProveContinuity(calls: seq<Call>, id: string) {
    forall i, j | 0 <= i <= j <= |calls| && Supervised(calls, i, id) && Supervised(calls, j, id)
                  && EpochAt(calls, i, id) == EpochAt(calls, j, id) :: Unregistered(calls, i, j, id)
  }

  /** No registration names an epoch its session had before. */
  predicate EpochsAreFresh(calls: seq<Call>, id: string) {
    forall i, k | && 0 <= i <= k < |calls| && Supervised(calls, i, id)
                  && Registers(calls, k, id) && Supervised(calls, k + 1, id) ::
      EpochAt(calls, i, id) != EpochAt(calls, k + 1, id)
  }

  lemma {:induction false} EpochStays(calls: seq<Call>, i: nat, j: nat, id: string)
    requires i <= j <= |calls| && Supervised(calls, i, id) && Unregistered(calls, i, j, id)
    ensures Supervised(calls, j, id) && EpochAt(calls, j, id) == EpochAt(calls, i, id)
    decreases j - i
  {
    EpochChangesOnlyAfterTheEnd(calls, i, j, id);
  }

  lemma {:induction false} LastRegistration(calls: seq<Call>, i: nat, j: nat, id: string) returns (k: nat)
    requires i <= j <= |calls| && !Unregistered(calls, i, j, id)
    ensures i <= k < j && Registers(calls, k, id) && Unregistered(calls, k + 1, j, id)
    decreases j - i
  {
    hide Registers;
    if Registers(calls, j - 1, id) {
      k := j - 1;
    } else {
      k := LastRegistration(calls, i, j - 1, id);
    }
  }

  lemma RegisteredIsSupervised(calls: seq<Call>, k: nat, id: string)
    requires k < |calls| && Registers(calls, k, id)
    ensures Supervised(calls, k + 1, id)
  {
  }

  /**
   The exact condition: over a run, equal epochs prove continuity if and only if no registration named an epoch its
   session had had before. The supervisor does not demand it.
   */
  lemma ContinuityIffFresh(calls: seq<Call>, id: string)
    ensures EpochsProveContinuity(calls, id) <==> EpochsAreFresh(calls, id)
  {
    hide Registers, Supervised, EpochAt;
    if EpochsAreFresh(calls, id) {
      forall i, j | 0 <= i <= j <= |calls| && Supervised(calls, i, id) && Supervised(calls, j, id)
                    && EpochAt(calls, i, id) == EpochAt(calls, j, id)
        ensures Unregistered(calls, i, j, id)
      {
        if !Unregistered(calls, i, j, id) {
          var k := LastRegistration(calls, i, j, id);
          RegisteredIsSupervised(calls, k, id);
          EpochStays(calls, k + 1, j, id);
        }
      }
    }
    if EpochsProveContinuity(calls, id) {
      forall i, k | && 0 <= i <= k < |calls| && Supervised(calls, i, id)
                    && Registers(calls, k, id) && Supervised(calls, k + 1, id)
        ensures EpochAt(calls, i, id) != EpochAt(calls, k + 1, id)
      {
      }
    }
  }

  const WITNESS := Identity("s", "e")

  const REUSING := [
    Call(Register(WITNESS, None), 0),
    Call(Transition(WITNESS, Failed, None, Some("lost")), 1),
    Call(Register(WITNESS, None), 2)]

  const INHERITING := [
    Call(Register(WITNESS, None), 0),
    Call(Transition(WITNESS, Ready, None, Some("slow")), 1),
    Call(Transition(WITNESS, Exited, Some(0), None), 2)]

  /** An epoch used again: the second process carries the first one's epoch. */
  lemma EpochCanBeReused()
    ensures var calls := REUSING;
            && Supervised(calls, 1, "s") && Supervised(calls, 3, "s")
            && EpochAt(calls, 1, "s") == EpochAt(calls, 3, "s")
            && Registers(calls, 2, "s") && !EpochsProveContinuity(calls, "s")
  {
    var i, calls := WITNESS, REUSING;
    assert After(calls, 1)["s"] == Process(i, Starting, None, 0, 0, None, None);
    assert After(calls, 2)["s"].state == Failed;
    assert After(calls, 3)["s"] == Process(i, Starting, None, 2, 2, None, None);
    assert Registers(calls, 2, "s") && !Unregistered(calls, 1, 3, "s");
  }

  /** A reason given at an earlier, unfailed step is still on the snapshot of a clean exit. */
  lemma ExitedCanInheritReason()
    ensures var calls := INHERITING;
            && Supervised(calls, 3, "s") && After(calls, 3)["s"].state == Exited
            && After(calls, 3)["s"].failureReason == Some("slow")
  {
    var calls := INHERITING;
    assert After(calls, 1)["s"].state == Starting;
    assert After(calls, 2)["s"].failureReason == Some("slow");
  }
}
