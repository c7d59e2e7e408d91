/**
 One request of the HTTP transport: at most one re-dispatch after a connection that was never
 established, at most one replay after a refused bearer, and what the final error may claim.
 */
module HttpDispatch {
  import opened Options
  import opened TransportPhase

  datatype Verb = Get | Post | Put | Patch | Delete

  datatype Request = Request(verb: Verb, idempotencyKey: Option<string>, namedSecret: bool, automaticRedispatch: bool)

  predicate IsIdempotencyKey(s: string) {
    8 <= |s| <= 128 && forall i | 0 <= i < |s| :: '!' <= s[i] <= '~'
  }

  predicate Keyed(r: Request) {
    r.idempotencyKey.Some? && IsIdempotencyKey(r.idempotencyKey.value)
  }

  /** What one fetch came to: an answer read to its end, an oversized answer, or an exception. */
  datatype Fetch =
    | Answered(status: nat, isJson: bool)
    | Oversized
    | Threw(graph: Graph, error: Value)

  /** A fetch together with whether the request's signal was aborted by the time it settled. */
  datatype Attempt = Attempt(fetch: Fetch, aborted: bool)

  datatype Supplied =
    | Token(valid: bool) | SupplierRefused | SupplierBoundary
    | SupplierThrew(graph: Graph, error: Value)

  /** No credential or a fixed one; or a provider, with what it answers first and after a refusal. */
  datatype Credential = Fixed | Provider(first: Supplied, refreshed: Supplied)

  /**
   Everything outside the machine: the checks before dispatch, the fetches in order, and the abort state at the end.
   */
  datatype World = World(cancelledBefore: bool, wellFormed: bool, credential: Credential, attempt: nat -> Attempt,
                         abortedAtEnd: bool, abortedByCaller: bool)

  datatype Failure =
    | CancelledBeforeDispatch | RefusedRequest | InvalidCredential | CredentialBoundary | SupplierError
    | ApiError(status: nat) | BadResponse | NamedSecretFailure | Cancelled | BudgetElapsed
    | NetworkFailed(phase: Phase, attempts: nat)

  /** An exception on its way out: already typed, or still the raw value that was thrown. */
  datatype Thrown = Typed(failure: Failure) | Raw(graph: Graph, error: Value)

  // ----- one dispatch

  predicate Success(status: nat) {
    200 <= status < 300
  }

  function Dispatch(r: Request, f: Fetch): Result<(), Thrown> {
    match f
    case Threw(g, e) => Err(Raw(g, e))
    case Oversized => Err(Typed(BadResponse))
    case Answered(status, isJson) =>
      if r.namedSecret then
        if (Success(status) || status == 409) && isJson then Ok(()) else Err(Typed(NamedSecretFailure))
      else if !Success(status) then Err(Typed(ApiError(status)))
      else if !isJson then Err(Typed(BadResponse))
      else Ok(())
  }

  /** The failure proves that nothing was sent, as far as the phase walk can tell. */
  predicate NeverConnected(f: Fetch) {
    f.Threw? && PhaseOf(f.graph, f.error) == Connect
  }

  predicate MayRedispatch(r: Request, a: Attempt) {
    !r.namedSecret && !a.aborted && r.automaticRedispatch && NeverConnected(a.fetch)
  }

  /** The fetches made so far, in order. */
  type Fetches = seq<Attempt>

  /** The result of a dispatch with its one connect retry, the fetches made by then, and what the counter says. */
  datatype Exchange = Exchange(result: Result<(), Thrown>, fetches: Fetches, attempts: nat)

  /** The network answers the next fetch. */
  function Fetched(w: World, made: Fetches): Fetches {
    made + [w.attempt(|made|)]
  }

  function ExchangeFrom(r: Request, w: World, made: Fetches, attempts: nat): Exchange {
    var one := Fetched(w, made);
    var first := Dispatch(r, Last(one).fetch);
    if first.Ok? then Exchange(first, one, attempts + 1)
    else if r.namedSecret then Exchange(Err(Typed(NamedSecretFailure)), one, attempts + 1)
    else if MayRedispatch(r, Last(one)) then
      var two := Fetched(w, one);
      Exchange(Dispatch(r, Last(two).fetch), two, attempts + 1 + 1)
    else Exchange(first, one, attempts + 1)
  }

  function Last(fetches: Fetches): Attempt
    requires fetches != []
  {
    fetches[|fetches| - 1]
  }

  predicate MayReplay(r: Request, w: World, e: Thrown) {
    e == Typed(ApiError(401)) && !r.namedSecret && w.credential.Provider? && (r.verb == Get || Keyed(r))
  }

  function SupplyFailure(s: Supplied): Option<Thrown> {
    match s
    case Token(valid) => if valid then None else Some(Typed(InvalidCredential))
    case SupplierRefused => Some(Typed(SupplierError))
    case SupplierBoundary => Some(Typed(CredentialBoundary))
    case SupplierThrew(g, e) => Some(Raw(g, e))
  }

  /** The outermost handler; a network failure quotes the counter. */
  function Settle(r: Request, w: World, e: Thrown, attempts: nat): Failure {
    if r.namedSecret then NamedSecretFailure
    else match e
      case Typed(f) => f
      case Raw(g, error) =>
        if w.abortedAtEnd then (if w.abortedByCaller then Cancelled else BudgetElapsed)
        else NetworkFailed(PhaseOf(g, error), attempts)
  }

  /** How a request ended and the fetches it made. */
  datatype Report = Report(outcome: Result<(), Failure>, fetches: Fetches)

  function Finish(r: Request, w: World, x: Exchange): Report {
    match x.result
    case Ok(_) => Report(Ok(()), x.fetches)
    case Err(e) => Report(Err(Settle(r, w, e, x.attempts)), x.fetches)
  }

  function FinalReport(r: Request, w: World): Report {
    if w.cancelledBefore then Report(Err(CancelledBeforeDispatch), [])
    else if !w.wellFormed then Report(Err(RefusedRequest), [])
    else
      var refused := if w.credential.Provider? then SupplyFailure(w.credential.first) else None;
      if refused.Some? then Finish(r, w, Exchange(Err(refused.value), [], 0))
      else
        var first := ExchangeFrom(r, w, [], 0);
        if first.result.Ok? || !MayReplay(r, w, first.result.error) then Finish(r, w, first)
        else
          var stale := SupplyFailure(w.credential.refreshed);
          if stale.Some? then Finish(r, w, first.(result := Err(stale.value)))
          else Finish(r, w, ExchangeFrom(r, w, first.fetches, first.attempts))
  }

  // ----- the request object, counting its dispatches

  class RequestRun {
    var attempts: nat
    var fetches: Fetches

    constructor ()
      ensures attempts == 0 && fetches == []
    {
      attempts, fetches := 0, [];
    }

    /** One fetch: the network hands over its next answer. The counter is not consulted. */
    method Fetch(w: World) returns (a: Attempt)
      modifies this`fetches
      ensures fetches == Fetched(w, old(fetches)) && a == Last(fetches)
    {
      a := w.attempt(|fetches|);
      fetches := fetches + [a];
    }

    method DispatchWithConnectRetry(r: Request, w: World) returns (result: Result<(), Thrown>)
      modifies this
      ensures Exchange(result, fetches, attempts) == ExchangeFrom(r, w, old(fetches), old(attempts))
    {
      attempts := attempts + 1;
      var a := Fetch(w);
      result := Dispatch(r, a.fetch);
      if result.Ok? {
        return;
      }
      if r.namedSecret {
        return Err(Typed(NamedSecretFailure));
      }
      if result.error.Typed? {
        return;
      }
      if a.aborted {
        return;
      }
      if !r.automaticRedispatch {
        return;
      }
      var phase := TransportFailurePhase(result.error.graph, result.error.error);
      if phase != Connect {
        return;
      }
      attempts := attempts + 1;
      a := Fetch(w);
      result := Dispatch(r, a.fetch);
    }

    /**
     The whole request: its outcome and its fetches are those of `FinalReport`, and the counter counted the fetches.
     */
    method Perform(r: Request, w: World) returns (outcome: Result<(), Failure>)
      requires attempts == 0 && fetches == []
      modifies this
      ensures Report(outcome, fetches) == FinalReport(r, w)
      ensures attempts == |fetches|
    {
      hide PhaseOf, IsIdempotencyKey;
      if w.cancelledBefore {
        return Err(CancelledBeforeDispatch);
      }
      if !w.wellFormed {
        return Err(RefusedRequest);
      }
      if w.credential.Provider? {
        var refused := SupplyFailure(w.credential.first);
        if refused.Some? {
          return Err(Settle(r, w, refused.value, attempts));
        }
      }
      var result := DispatchWithConnectRetry(r, w);
      ExchangeCounts(r, w, [], 0);
      if result.Err? && MayReplay(r, w, result.error) {
        var stale := SupplyFailure(w.credential.refreshed);
        if stale.Some? {
          return Err(Settle(r, w, stale.value, attempts));
        }
        ExchangeCounts(r, w, fetches, attempts);
        result := DispatchWithConnectRetry(r, w);
      }
      if result.Err? {
        return Err(Settle(r, w, result.error, attempts));
      }
      return Ok(());
    }
  }

  // ----- what licenses each further fetch

  /** The fetch failed to connect and nothing forbade one more try. */
  predicate ConnectLicence(r: Request, a: Attempt) {
    && a.fetch.Threw? && PhaseOf(a.fetch.graph, a.fetch.error) == Connect
    && !a.aborted && r.automaticRedispatch && !r.namedSecret
  }

  /** The fetch was answered 401 on a request that may be replayed with a fresh bearer. */
  predicate ReplayLicence(r: Request, w: World, a: Attempt) {
    && a.fetch.Answered? && a.fetch.status == 401 && !r.namedSecret && w.credential.Provider?
    && (r.verb == Get || (r.idempotencyKey.Some? && SafeToRepeat(r.idempotencyKey.value)))
  }

  /** A key the server will know again: 8 to 128 printable characters without a space. */
  predicate SafeToRepeat(key: string) {
    8 <= |key| <= 128 && forall c | c in key :: 0x21 <= c as int <= 0x7e
  }

  lemma KeyedIsSafe(r: Request)
    ensures Keyed(r) <==> r.idempotencyKey.Some? && SafeToRepeat(r.idempotencyKey.value)
  {
    if r.idempotencyKey.Some? {
      var key := r.idempotencyKey.value;
      assert forall i | 0 <= i < |key| :: key[i] in key;
    }
  }

  /** What a fetch must have come to for the machine to make another one. */
  predicate Licenses(r: Request, w: World, a: Attempt) {
    ConnectLicence(r, a) || ReplayLicence(r, w, a)
  }

  /** An answer the caller gets as a result: a JSON success, or for named-secret traffic also a JSON conflict. */
  predicate Served(r: Request, f: Fetch) {
    f.Answered? && f.isJson && (200 <= f.status < 300 || (r.namedSecret && f.status == 409))
  }

  /** The counter and the fetches advance together, and the fetches are the network's answers in order. */
  lemma ExchangeCounts(r: Request, w: World, made: Fetches, attempts: nat)
    ensures var x := ExchangeFrom(r, w, made, attempts);
            && made < x.fetches && x.attempts - attempts == |x.fetches| - |made|
            && forall i | |made| <= i < |x.fetches| :: x.fetches[i] == w.attempt(i)
  {
    hide PhaseOf, Dispatch;
  }

  lemma ExchangeIsLicensed(r: Request, w: World, made: Fetches, attempts: nat)
    ensures var x := ExchangeFrom(r, w, made, attempts);
            && made < x.fetches && |x.fetches| <= |made| + 2
            && (|x.fetches| == |made| + 2 <==> ConnectLicence(r, x.fetches[|made|]))
            && (x.result.Err? && MayReplay(r, w, x.result.error) <==> ReplayLicence(r, w, Last(x.fetches)))
            && (x.result.Ok? <==> Served(r, Last(x.fetches).fetch))
  {
    hide PhaseOf, Keyed, SafeToRepeat;
    KeyedIsSafe(r);
  }

  /**
   For every sequence of fetch outcomes a request makes at most four fetches, and each one after the
   first follows a connect-phase failure or a replayable 401. At most one of them follows a 401.
   */
  lemma FetchesAreLicensed(r: Request, w: World)
    ensures var fetches := FinalReport(r, w).fetches;
            && |fetches| <= 4
            && (forall k | 0 <= k < |fetches| - 1 :: Licenses(r, w, fetches[k]))
            && (forall i, j | 0 <= i < j < |fetches| - 1 ::
                !(ReplayLicence(r, w, fetches[i]) && ReplayLicence(r, w, fetches[j])))
  {
    hide ExchangeFrom, SupplyFailure, Settle, PhaseOf, IsIdempotencyKey;
    ExchangeIsLicensed(r, w, [], 0);
    var x := ExchangeFrom(r, w, [], 0);
    ExchangeIsLicensed(r, w, x.fetches, x.attempts);
  }

  // ----- how many fetches there are, and what the last word on a failure is

  /** The request leaves at all: nothing cancelled or refused it, and a provider's first bearer was good. */
  predicate Sent(w: World) {
    !w.cancelledBefore && w.wellFormed && (w.credential.Provider? ==> w.credential.first == Token(true))
  }

  /** How many fetches an exchange makes that begins with answer `i` of the network. */
  function ExchangeLength(r: Request, w: World, i: nat): nat {
    if ConnectLicence(r, w.attempt(i)) then 2 else 1
  }

  /** The last fetch of the first exchange may be replayed. */
  predicate AsksAgain(r: Request, w: World) {
    Sent(w) && ReplayLicence(r, w, w.attempt(ExchangeLength(r, w, 0) - 1))
  }

  /**
   The exact number of fetches, from the network's answers alone: none unless the request was sent; a second exchange
   exactly when the last fetch of the first has the replay licence and the refreshed bearer is good.
   */
  lemma FetchCountIsExact(r: Request, w: World)
    ensures var n := |FinalReport(r, w).fetches|;
            var first := ExchangeLength(r, w, 0);
            && (n == 0 <==> !Sent(w))
            && (n > first <==> AsksAgain(r, w) && w.credential.refreshed == Token(true))
            && (n > 0 ==> n == first || n == first + ExchangeLength(r, w, first))
    ensures Replayed(r, w) && Sent(w) <==> AsksAgain(r, w)
  {
    hide ExchangeFrom, Settle, PhaseOf, IsIdempotencyKey, MayReplay;
    ExchangeIsLicensed(r, w, [], 0);
    ExchangeCounts(r, w, [], 0);
    var x := ExchangeFrom(r, w, [], 0);
    ExchangeIsLicensed(r, w, x.fetches, x.attempts);
    ExchangeCounts(r, w, x.fetches, x.attempts);
  }

  /** A credential provider that gave no bearer for the fetch that did not happen. */
  function Unsupplied(r: Request, w: World): Option<Supplied> {
    if w.cancelledBefore || !w.wellFormed || !w.credential.Provider? then None
    else if w.credential.first != Token(true) then Some(w.credential.first)
    else if AsksAgain(r, w) && w.credential.refreshed != Token(true) then Some(w.credential.refreshed)
    else None
  }

  /** What a raw exception becomes: the caller's cancellation, the elapsed budget, or a network failure. */
  predicate ReportsThrown(w: World, f: Failure, phase: Phase, attempts: nat) {
    && (f == Cancelled <==> w.abortedAtEnd && w.abortedByCaller)
    && (f == BudgetElapsed <==> w.abortedAtEnd && !w.abortedByCaller)
    && (f == NetworkFailed(phase, attempts) <==> !w.abortedAtEnd)
  }

  /** Which failure is reported, from the credential that was not supplied or else from the last fetch. */
  lemma FailureIsExact(r: Request, w: World)
    requires FinalReport(r, w).outcome.Err?
    ensures var p, u := FinalReport(r, w), Unsupplied(r, w);
            var f := p.outcome.error;
            && (f == CancelledBeforeDispatch <==> w.cancelledBefore)
            && (f == RefusedRequest <==> !w.cancelledBefore && !w.wellFormed)
            && (!w.cancelledBefore && w.wellFormed ==>
                  && (f == NamedSecretFailure <==> r.namedSecret)
                  && (!r.namedSecret ==>
                        && (f == InvalidCredential <==> u == Some(Token(false)))
                        && (f == SupplierError <==> u == Some(SupplierRefused))
                        && (f == CredentialBoundary <==> u == Some(SupplierBoundary))
                        && (u.None? ==> p.fetches != [] && LastWord(f, w, Last(p.fetches).fetch, |p.fetches|))
                        && (forall g, e | u == Some(SupplierThrew(g, e)) ::
                              ReportsThrown(w, f, PhaseOf(g, e), |p.fetches|))))
  {
    hide ExchangeFrom, PhaseOf, Keyed, Served, AsksAgain, ReplayLicence, ConnectLicence;
    FetchCountIsExact(r, w);
    var x := ExchangeFrom(r, w, [], 0);
    ExchangeCounts(r, w, [], 0);
    ExchangeCounts(r, w, x.fetches, x.attempts);
    ExchangeThrowsLast(r, w, [], 0);
    ExchangeThrowsLast(r, w, x.fetches, x.attempts);
  }

  /** The failure reported on account of a last fetch that was not served. */
  predicate LastWord(f: Failure, w: World, last: Fetch, attempts: nat) {
    match last
    case Answered(status, _) => f == if 200 <= status < 300 then BadResponse else ApiError(status)
    case Oversized => f == BadResponse
    case Threw(g, e) => ReportsThrown(w, f, PhaseOf(g, e), attempts)
  }

  /** Outside named-secret traffic an exchange fails as its last fetch did. */
  lemma ExchangeThrowsLast(r: Request, w: World, made: Fetches, attempts: nat)
    ensures var x := ExchangeFrom(r, w, made, attempts);
            x.result.Err? && !r.namedSecret ==>
              match Last(x.fetches).fetch
              case Answered(status, _) =>
                x.result.error == Typed(if 200 <= status < 300 then BadResponse else ApiError(status))
              case Oversized => x.result.error == Typed(BadResponse)
              case Threw(g, e) => x.result.error == Raw(g, e)
  {
    hide PhaseOf, IsIdempotencyKey;
  }

  /**
   However many fetches were made, the last one decides: success is its success, and a status reported is its status.
   */
  lemma LastFetchDecides(r: Request, w: World)
    ensures var p := FinalReport(r, w);
            && (p.outcome.Ok? <==> p.fetches != [] && Served(r, Last(p.fetches).fetch))
            && (p.outcome.Err? && p.outcome.error.ApiError? ==>
                  && p.fetches != [] && Last(p.fetches).fetch.Answered?
                  && Last(p.fetches).fetch.status == p.outcome.error.status)
  {
    hide ExchangeFrom, PhaseOf, IsIdempotencyKey, MayReplay, Served;
    ExchangeIsLicensed(r, w, [], 0);
    ExchangeFailsPlainly(r, w, [], 0);
    var x := ExchangeFrom(r, w, [], 0);
    ExchangeIsLicensed(r, w, x.fetches, x.attempts);
    ExchangeFailsPlainly(r, w, x.fetches, x.attempts);
  }

  // ----- how often a request can reach the server

  /** Whether a fetch may have reached the server, as a number. */
  function Reach(a: Attempt): nat {
    if NeverConnected(a.fetch) then 0 else 1
  }

  /** How many of the fetches are not proved unsent. */
  function Reached(fetches: Fetches): nat {
    if fetches == [] then 0 else Reached(fetches[..|fetches| - 1]) + Reach(Last(fetches))
  }

  lemma {:induction false} ReachedByLicensed(r: Request, w: World, fetches: Fetches)
    requires !(r.verb == Get || Keyed(r)) || !w.credential.Provider? || r.namedSecret
    requires forall k | 0 <= k < |fetches| - 1 :: Licenses(r, w, fetches[k])
    ensures Reached(fetches) <= 1
    ensures fetches != [] ==> Reached(fetches[..|fetches| - 1]) == 0
  {
    hide PhaseOf, Keyed, SafeToRepeat;
    KeyedIsSafe(r);
    if fetches != [] {
      var front := fetches[..|fetches| - 1];
      ReachedByLicensed(r, w, front);
      if front != [] {
        assert Licenses(r, w, fetches[|fetches| - 2]);
      }
    }
  }

  /** A mutation without a valid idempotency key reaches the server at most once. */
  lemma UnkeyedMutationReachesOnce(r: Request, w: World)
    requires r.verb != Get && !Keyed(r)
    ensures Reached(FinalReport(r, w).fetches) <= 1
    ensures !r.automaticRedispatch ==> |FinalReport(r, w).fetches| <= 1
  {
    hide FinalReport, PhaseOf;
    FetchesAreLicensed(r, w);
    ReachedByLicensed(r, w, FinalReport(r, w).fetches);
    assert |FinalReport(r, w).fetches| > 1 ==> Licenses(r, w, FinalReport(r, w).fetches[0]);
  }

  /** Named-secret traffic is never sent twice. */
  lemma NamedSecretIsSentOnce(r: Request, w: World)
    requires r.namedSecret
    ensures |FinalReport(r, w).fetches| <= 1
  {
    hide FinalReport, PhaseOf;
    FetchesAreLicensed(r, w);
    assert |FinalReport(r, w).fetches| > 1 ==> Licenses(r, w, FinalReport(r, w).fetches[0]);
  }

  lemma ReachedOfFour(fetches: Fetches)
    requires |fetches| <= 4
    ensures fetches == [] ==> Reached(fetches) == 0
    ensures |fetches| == 1 ==> Reached(fetches) == Reach(fetches[0])
    ensures |fetches| == 2 ==> Reached(fetches) == Reach(fetches[0]) + Reach(fetches[1])
    ensures |fetches| == 3 ==> Reached(fetches) == Reach(fetches[0]) + Reach(fetches[1]) + Reach(fetches[2])
    ensures |fetches| == 4 ==>
              Reached(fetches) == Reach(fetches[0]) + Reach(fetches[1]) + Reach(fetches[2]) + Reach(fetches[3])
  {
    hide Reach;
    if fetches != [] {
      ReachedOfFour(fetches[..|fetches| - 1]);
    }
  }

  /** No request reaches the server more than twice, and the second time only after a 401 answer. */
  lemma ReachedTwiceOnlyAfter401(r: Request, w: World)
    ensures var fetches := FinalReport(r, w).fetches;
            && Reached(fetches) <= 2
            && (Reached(fetches) == 2 ==> exists k | 0 <= k < |fetches| - 1 :: ReplayLicence(r, w, fetches[k]))
  {
    hide FinalReport, PhaseOf, IsIdempotencyKey, Reached;
    FetchesAreLicensed(r, w);
    var fetches := FinalReport(r, w).fetches;
    assert |fetches| > 1 ==> Licenses(r, w, fetches[0]);
    assert |fetches| > 2 ==> Licenses(r, w, fetches[1]);
    assert |fetches| > 3 ==> Licenses(r, w, fetches[2]);
    ReachedOfFour(fetches);
  }

  // ----- what the final error claims

  /** The count quoted in a network failure is the number of fetches made, each an answer of the network in order. */
  lemma ReportedAttemptsAreFetches(r: Request, w: World)
    ensures var p := FinalReport(r, w);
            && (forall i | 0 <= i < |p.fetches| :: p.fetches[i] == w.attempt(i))
            && (p.outcome.Err? && p.outcome.error.NetworkFailed? ==> p.outcome.error.attempts == |p.fetches|)
  {
    hide ExchangeFrom, PhaseOf, IsIdempotencyKey;
    ExchangeCounts(r, w, [], 0);
    var x := ExchangeFrom(r, w, [], 0);
    ExchangeCounts(r, w, x.fetches, x.attempts);
    ExchangeFailsPlainly(r, w, [], 0);
    ExchangeFailsPlainly(r, w, x.fetches, x.attempts);
  }

  /** What an exchange throws is never the outer handler's own report, and a status is that of its last fetch. */
  lemma ExchangeFailsPlainly(r: Request, w: World, made: Fetches, attempts: nat)
    ensures var x := ExchangeFrom(r, w, made, attempts);
            x.result.Err? && x.result.error.Typed? ==>
              var f := x.result.error.failure;
              && !f.NetworkFailed?
              && (f.ApiError? ==>
                    && x.fetches != [] && Last(x.fetches).fetch.Answered?
                    && Last(x.fetches).fetch.status == f.status)
  {
    hide PhaseOf;
  }

  /** A request replayed after a 401: its first exchange ended in one. */
  predicate Replayed(r: Request, w: World) {
    var first := ExchangeFrom(r, w, [], 0);
    first.result.Err? && MayReplay(r, w, first.result.error)
  }

  /**
   A connect-phase report tells the caller that the request was never sent. That is true exactly when
   the request had not already been answered 401 and replayed.
   */
  lemma NeverSentIsTrueUnlessReplayed(r: Request, w: World)
    requires var p := FinalReport(r, w);
             p.fetches != [] && p.outcome.Err? && p.outcome.error.NetworkFailed? && p.outcome.error.phase == Connect
    ensures Reached(FinalReport(r, w).fetches) == 0 <==> !Replayed(r, w)
  {
    var first, fetches := ExchangeFrom(r, w, [], 0), FinalReport(r, w).fetches;
    ExchangeIsLicensed(r, w, [], 0);
    ExchangeCounts(r, w, first.fetches, first.attempts);
    hide ExchangeFrom, IsIdempotencyKey, PhaseOf, Reached;
    if Replayed(r, w) {
      assert first.fetches <= fetches;
      LastReaches(r, w, first.fetches);
      ReachedGrows(first.fetches, fetches);
    } else {
      assert fetches == first.fetches && Settle(r, w, first.result.error, first.attempts).NetworkFailed?;
      UnreachedExchange(r, w);
    }
  }

  /** A fetch that was answered reached the server. */
  lemma LastReaches(r: Request, w: World, fetches: Fetches)
    requires fetches != [] && ReplayLicence(r, w, Last(fetches))
    ensures Reached(fetches) >= 1
  {
  }

  /** An exchange that ends in a connect-phase failure never reached the server. */
  lemma UnreachedExchange(r: Request, w: World)
    requires var x := ExchangeFrom(r, w, [], 0);
             x.result.Err? && x.result.error.Raw? && PhaseOf(x.result.error.graph, x.result.error.error) == Connect
    ensures Reached(ExchangeFrom(r, w, [], 0).fetches) == 0
  {
    hide PhaseOf, Reached;
    ReachedOfFour(ExchangeFrom(r, w, [], 0).fetches);
  }

  lemma {:induction false} ReachedGrows(made: Fetches, more: Fetches)
    requires made <= more
    ensures Reached(made) <= Reached(more)
    decreases |more|
  {
    if made == more {
    } else {
      ReachedGrows(made, more[..|more| - 1]);
    }
  }

  /** The claim does fail: a refused GET, replayed into a connection that is never established. */
  lemma ReplayedThenUnreachable() returns (w: World)
    ensures var r := Request(Get, None, false, true);
            && FinalReport(r, w).outcome == Err(NetworkFailed(Connect, 3))
            && |FinalReport(r, w).fetches| == 3 && FinalReport(r, w).fetches[0].fetch == Answered(401, true)
  {
    var refused := Node(Some("ECONNREFUSED"), None, [], NotObject);
    var g: Graph := map[0 := refused];
    w := World(false, true, Provider(Token(true), Token(true)),
               k => Attempt(if k == 0 then Answered(401, true) else Threw(g, Object(0)), false), false, false);
    assert Witness(At(g, 0));
    assert PhaseOf(g, Object(0)) == Connect;
  }
}
