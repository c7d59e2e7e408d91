# Cuna CLI: a verified model of its state machines

The Cuna command line client contains several small machines whose correctness is a statement about every run: a client that
decides which answer about a session's audience may be shown as "now"; fenced leases and process supervision in the local
daemon; the HTTP dispatch that may repeat a request only when that is safe; the durable sign-in session shared by all CLI
processes; and a handful of codecs and interpreters. This project models them in Dafny and proves those statements.

`dafny verify dfyconfig.toml` checks everything. Every file is one module:

- `Decimals`: the unsigned 64-bit decimal patterns.
- `Audience`, `AudienceRuns`, `AudienceSystem`: the audience client, its runs under an arbitrary transport, and its
  composition with the runtime that produces the facts.
- `Lease`, `Supervisor`: the daemon's mutable maps, their runs, and what holds over them.
- `TransportPhase`, `HttpDispatch`: the bounded walk over an error graph and the request machine built on it.
- `StoredSession`, `SessionWorld`, `SessionHistory`, `Acquisition`, `HumanSession`, `SessionWitnesses`: the stored record; what
  the server, the storage and other processes may answer and which answers license which change; what a history of changes
  says; which token a call for a bearer hands out, as a function of that world; the service with its vault; and runs in which
  a promise of its comments fails.
- `Json`, `Schema`, `SchemaSoundness`, `SchemaTable`: the schema interpreter, JSON Schema's meaning, and the owner table.
- `Utf8`, `LoginCode`, `Argv`, `ArgvGrammar`, `Framing`, `Pages`: UTF-8 text, the hidden reader, the argv parser and the grammar
  it decides, the digest framing, the cursor pages.
- `Options`: options and results.

Objects the source updates in place are classes whose methods are proved against a step function on values; the properties are
then proved of every sequence of steps. What the network, the storage, the clock and other processes do is an input: each
method takes the answers it will meet, and the theorems hold for all of them. `HumanAuthService` keeps a log of every
change to the stored record with the cause it was made under. Each call's contract says that the causes it logged are
licensed by the answers that call received and the clock readings it took, and `Valid()` that the record is the end of that
log and that the cached bearer was stored in one of its envelopes.

## Where the code and its comments part

- `setAudience` orders first-time answers by a generation floor only, so a late first `public@G` is shown after `private@G`
  (`LatePublicIsAccepted`, `OrderedIffNoLatePublic`). In-order arrival of first answers excludes it (`NeverBackwardsInOrder`).
- The vault numbers a record from one again after a deletion. A logout that holds no fence compares the number alone and can
  remove another process's new sign-in (`RemovesNewSignIn`); `NumberAloneIsReused` is the exact condition. The cleanup of a
  failed sign-in never holds a fence and can do the same (`CleanupRemovesNewSignIn`, `CleanupTakesReusedNumber`).
- `logout` reads the cached bearer once before the request and once more after a terminal refusal, and another task may have
  replaced it either time: the revision removed is then not that of the bearer sent (`RemovesHandedOverRevision`,
  `RemovesRevisionCachedMeanwhile`). `Logout` states exactly when it is.
- A sign-in overwrites a record that is there in three cases: one stored after the status check; any at all when this process
  has found it gone before, since its status check then answers "revoked" without looking; and one whose header has expired
  (`OverwritesInTheWindow`, `OverwritesAfterSignOut`, `OverwritesExpired`). `OverwritesIff` and `Login` say that there is no
  other case.
- The report "the request was never sent" counts only the last exchange (`NeverSentIsTrueUnlessReplayed`).
- A clean exit can carry an earlier failure reason (`ExitedCanInheritReason`); `ReasonIffGiven` says exactly when.
- `register` may reuse an epoch, so equal epochs need not prove continuity (`EpochCanBeReused`); `ContinuityIffFresh` says
  exactly when they do.
- The stars shown for a login code are as many as the bytes submitted only for some input: a byte that is not UTF-8 shows one
  star and is submitted as three bytes (`IllFormedByteShowsOneStar`); `MaskCountsWhatIsSubmitted` is the exact condition.
- The schema interpreter measures strings in code units. It refuses a member page JSON Schema accepts (`AstralEmailIsRefused`);
  `MemberPageIsDecided` is the exact condition.

## Model

| member | source | states |
|---|---|---|
| `Decimals.PositivePatternIsExact` | src/api/owner-observe-grants-v2-schema.ts:580 | The pattern of a public reading's generation accepts exactly the canonical decimals of 1..2^64-1. |
| `Decimals.U64PatternIsExact` | src/api/owner-observe-grants-v2-schema.ts:396 | The hand-expanded alternatives of `expected_generation` accept exactly the canonical decimals of value at most 2^64-1. |
| `Decimals.U64PatternIsDecimal` | src/api/owner-observe-grants-v2-schema.ts:423 | The accepted strings are exactly the numerals of the 64-bit counters, one per counter. |
| `Decimals.EqualityIsNumeric` | src/api/owner-observe-grants-v2.ts:506 | Two generations are the same string if and only if they are the same number, so comparing strings in the contradiction check is sound. |
| `Decimals.DecimalOfValue` | src/api/owner-observe-grants-v2.ts:494 | A canonical numeral is the decimal of its own value: reading and printing a generation lose nothing. |
| `Audience.KeysAreInjective` | src/api/owner-observe-grants-v2.ts:496 | Two session runs never share a table key. |
| `Audience.AudienceClient.constructor` | src/api/owner-observe-grants-v2.ts:386-391 | A new client has answered and confirmed nothing. |
| `Audience.AudienceClient.SetAudience` | src/api/owner-observe-grants-v2.ts:458-530 | One change: outcome and both tables after it are those of `ApplySet`; which receipts are returned, what every returned field says and what order the answers keep are the rows below. |
| `Audience.AudienceClient.ReadAudience` | src/api/owner-observe-grants-v2.ts:560-618 | One reading: outcome and both tables after it are those of `ApplyRead`. |
| `AudienceRuns.ChangeIsReturnedIff` | src/api/owner-observe-grants-v2.ts:482-529 | Exactly which answers to a change are returned, stated without the order of the checks: sent, about this change with the producer's arithmetic, and nothing newer known. Every field the caller gets is the receipt's: action, state, run, terminal, request, generation, and a stream exactly for a public screen. A refused receipt reports an unknown effect unless it repeats a settled answer. |
| `AudienceRuns.RefusalHasGround` | src/api/owner-observe-grants-v2.ts:482-529 | Each kind of refusal of a receipt has its ground, and the effect is reported as known if and only if a settled answer is repeated over which something newer is confirmed. |
| `AudienceRuns.UnansweredChange` | src/api/owner-observe-grants-v2.ts:458-476 | A change without a readable receipt leaves both tables alone; four refusals, met while repeating an earlier attempt, report an unknown effect, and every other one what the transport says of it. |
| `AudienceRuns.ReadingIsReturnedIff` | src/api/owner-observe-grants-v2.ts:579-617 | Exactly which readings are returned, for every answer of the transport; every field of the present state is the one read, and the history is what is recorded of the change asked about, present only when one was asked about. A reading not returned changes nothing and never leaves an effect unknown of its own. |
| `AudienceRuns.HandleEffect` | src/api/owner-observe-grants-v2.ts:496-528 | Any answer whatever keeps the table invariant (a key's confirmed order and generation are at least every answered one); a refused answer leaves both tables unchanged; a returned one is the confirmed fact of its run and touches no other run; it is older than what it replaces exactly when it is a late first `public@G`. |
| `AudienceRuns.RunKeepsTables` | src/api/owner-observe-grants-v2.ts:386-391 | The table invariant holds after every run of answers. |
| `AudienceRuns.ConfirmedGenerationNeverFalls` | src/api/owner-observe-grants-v2.ts:497-498 | Over every run the confirmed generation of a session run never decreases. |
| `AudienceRuns.RepeatIsNewest` | src/api/owner-observe-grants-v2.ts:500-522 | A repeated answer is returned if and only if it is the newest decision about its run, and then it is the confirmed fact. |
| `AudienceRuns.ReplayIsNewestDecision` | src/api/owner-observe-grants-v2.ts:508-522 | In every run, a repeat that is returned has the confirmed order of its key and changes nothing. |
| `AudienceRuns.ReturnedIsConfirmed` | src/api/owner-observe-grants-v2.ts:523-526 | Every fact returned in a run, as the value the caller gets states it, is the confirmed fact of its key at that moment. |
| `AudienceRuns.ConfirmedWasReturned` | src/api/owner-observe-grants-v2.ts:614-617 | Conversely every confirmed fact was returned by an earlier answer, and the action kept with it is the one that answer was about. |
| `AudienceRuns.AnsweredIffDecided` | src/api/owner-observe-grants-v2.ts:500-525 | In every run a request is in the answered table if and only if some answer returned a decision about it, and the entry is that decision. |
| `AudienceRuns.OneDecisionPerRequest` | src/api/owner-observe-grants-v2.ts:500-522 | In every run, whatever is repeated or contradicted, all decisions returned about one request are the same decision, and every one after the first leaves the client unchanged. |
| `AudienceRuns.NoPublishFromMaximum` | src/api/owner-observe-grants-v2.ts:494-495 | No accepted publish receipt starts from 2^64-1. |
| `AudienceRuns.ReadingsAreOrdered` | src/api/owner-observe-grants-v2.ts:582-591 | Readings alone never go backwards in `public@G < private@G < public@G+1`, whatever the transport does. |
| `AudienceRuns.OrderedIffNoLatePublic` | src/api/owner-observe-grants-v2.ts:366-377 | The exact condition: the facts returned about a run by changes and readings together stay in the order if and only if no first-time `public@G` was accepted over a confirmed `private@G`. |
| `AudienceRuns.LatePublicIsAccepted` | src/api/owner-observe-grants-v2.ts:497-498 | A concrete run in which the generation floor admits `public@1` after `private@1`. |
| `AudienceSystem.ProduceKeepsOrder` | src/api/owner-observe-grants-v2.ts:490-495 | The runtime (publish to G+1, private at G, one journaled result per request) makes its results in that order. |
| `AudienceSystem.OneResultPerRequest` | src/api/owner-observe-grants-v2.ts:502-505 | The runtime never applies one request twice. |
| `AudienceSystem.TakeKeepsSystem` | src/api/owner-observe-grants-v2.ts:482-529 | One step of runtime, transport and client keeps the composed invariant and never moves the confirmed fact back, if first-time acknowledgements arrive in order. |
| `AudienceSystem.NeverBackwardsInOrder` | src/runtime/owner-grant-operations.ts:127-141 | Over every execution of the composed system with in-order first acknowledgements and any losses and repeats, the facts `setAudience` and `readAudience` return never go backwards in the runtime's rank. |
| `AudienceSystem.FreshSystem` | src/api/owner-observe-grants-v2.ts:386-391 | A fresh client beside a runtime that has shared nothing satisfies the composed invariant, so the theorem starts somewhere. |
| `Lease.FencedLeaseStore.constructor` | src/daemon/lease.ts:33-40 | A new store holds no lease. |
| `Lease.FencedLeaseStore.Acquire` | src/daemon/lease.ts:42-57 | Outcome and both maps after it are those of the `Apply` step, on every input; that the hold lasts the TTL asked for is `EveryHoldAsAsked` and `TokenLastsItsTtl`. |
| `Lease.FencedLeaseStore.Renew` | src/daemon/lease.ts:59-68 | The same for a renewal, whose TTL the same two rows cover. |
| `Lease.FencedLeaseStore.Release` | src/daemon/lease.ts:70-78 | The same for a release. |
| `Lease.FencedLeaseStore.AssertWriter` | src/daemon/lease.ts:80-85 | The same for a writer check; nothing changes. |
| `Lease.FencedLeaseStore.AssertCurrent` | src/daemon/lease.ts:92-103 | A record is found exactly for a token that names its live owner and generation. |
| `Lease.StepKeepsFence` | src/daemon/lease.ts:42-103 | One call keeps generations consecutive, intervals ordered, starts fixed, and lets a token pass only inside the newest hold. |
| `Lease.HoldsAreFenced` | src/daemon/lease.ts:52-55 | Over every run with a non-decreasing clock the holds of a resource, read off the outcomes alone, carry generations exactly 1..n and pairwise disjoint intervals, through any renewals and releases. |
| `Lease.StaleFenceStaysDead` | src/daemon/lease.ts:92-103 | Once a later generation was acquired, no token of an earlier one ever passes `renew`, `release` or `assertWriter` again, for any clock. |
| `Lease.UseLiesInHold` | src/daemon/lease.ts:80-85 | Every use that passed lies inside the hold of its generation as that hold stands at any later time. |
| `Lease.WritersNeverOverlap` | src/daemon/lease.ts:42-103 | All uses of an older generation come before the newer hold begins, both in the run and on the clock. |
| `Lease.WriterIffNewestHold` | src/daemon/lease.ts:80-85 | After every run a token passes `assertWriter` if and only if it is the newest hold's owner and generation and the hold is not over. |
| `Lease.AcquireIffFree` | src/daemon/lease.ts:46-56 | After every run, and for every identifier and TTL: an acquisition is invalid, conflicts exactly while another owner's hold lasts, opens generation n+1 for exactly the TTL asked when the newest hold is over, and otherwise returns the owner's own hold unchanged. |
| `Lease.UseIsAnswered` | src/daemon/lease.ts:59-85 | After every run, how `renew`, `release` and `assertWriter` are answered by the holds alone: invalid, stale, expired or passed, each as an if-and-only-if, with the whole snapshot returned. |
| `Lease.InspectionShowsNewestHold` | src/daemon/lease.ts:87-90 | After every run `inspect` shows the newest hold, released if and only if a release of it passed, active if and only if it is not over. |
| `Lease.EveryHoldAsAsked` | src/daemon/lease.ts:52-67 | Over every run and every clock, read off the calls: a hold starts when an acquisition first handed out its generation, for that owner, and ends at its release or else exactly the TTL of its last successful acquisition or renewal after that call. |
| `Lease.TokenLastsItsTtl` | src/daemon/lease.ts:53-85 | After an acquisition or renewal at `t` with TTL `d` and no later renewal or release, the token passes `assertWriter` at a later moment `at` if and only if `at < t + d`. |
| `Lease.FencedIffOrderly` | src/daemon/lease.ts:42-78 | The exact condition, for every clock: the holds of a resource are disjoint throughout a run if and only if no call opened a hold below the release of the one before and none ended a hold below its start. |
| `Lease.ClockSteppingBackOverlaps` | src/daemon/lease.ts:46-53 | A run with a clock stepping back whose holds overlap. |
| `Supervisor.ProcessSupervisor.constructor` | src/daemon/supervisor.ts:44-45 | A new supervisor has no process. |
| `Supervisor.ProcessSupervisor.Register` | src/daemon/supervisor.ts:47-62 | Outcome and table after it are those of the `Apply` step. |
| `Supervisor.ProcessSupervisor.Transition` | src/daemon/supervisor.ts:64-90 | The same for a transition. |
| `Supervisor.MoveIsAcceptedIff` | src/daemon/supervisor.ts:34-42 | A move is accepted if and only if it names the epoch under supervision and stays, or follows one of the twelve legal edges with a fitting reason; no other process changes. |
| `Supervisor.RegistrationIsAcceptedIff` | src/daemon/supervisor.ts:47-62 | A registration is accepted if and only if its identity is well-formed and the session has no live process; no other process changes. |
| `Supervisor.ProcessIsAsCalled` | src/daemon/supervisor.ts:53-90 | In every run identity, pid and start of a process are those of its last registration, and state and update time those of the last call that registered or moved it. |
| `Supervisor.ExitCodeIsLastBrought` | src/daemon/supervisor.ts:81-87 | In every run the exit code is the last one a move since the registration brought, and there is none if none did. |
| `Supervisor.CallEffect` | src/daemon/supervisor.ts:34-42 | A refused call changes nothing; a call that changes a process names its session and epoch and either registers over an ended one or strictly raises the rank of a live one, keeping its identity and start. |
| `Supervisor.AtMostFourMoves` | src/daemon/supervisor.ts:34-42 | In every run a registration allows at most four effective state changes, never more than the rank of the present state. |
| `Supervisor.EpochChangesOnlyAfterTheEnd` | src/daemon/supervisor.ts:47-52 | If a session's epoch differs between two moments, some registration in between found the process ended; an ended process that is not registered again never changes. |
| `Supervisor.FailedHasReason` | src/daemon/supervisor.ts:78-80 | In every run a failed process carries a non-empty reason and is filed under its own session. |
| `Supervisor.ReasonIffGiven` | src/daemon/supervisor.ts:75-87 | The exact condition: in every run a process, failed or not, carries a reason if and only if some effective transition since its last registration gave one, and it is the last one given. |
| `Supervisor.CleanEndGivesNoReason` | src/daemon/supervisor.ts:75-77 | In every run, a reason on an exited or terminated process was given by an earlier transition to a state that is not terminal, never by the step that ended it. |
| `Supervisor.ExitedCanInheritReason` | src/daemon/supervisor.ts:75-87 | A run whose exited snapshot carries a reason given at an earlier transition. |
| `Supervisor.ContinuityIffFresh` | src/daemon/supervisor.ts:92-100 | The exact condition: over a run equal epochs prove that no registration happened in between if and only if no registration named an epoch its session had had before. |
| `Supervisor.EpochCanBeReused` | src/daemon/supervisor.ts:47-62 | A run in which a second process carries the epoch of the first. |
| `TransportPhase.TransportFailurePhase` | src/api/http.ts:669-684 | The loop terminates on every graph, cyclic ones included, and computes `PhaseOf`. |
| `TransportPhase.StepKeepsWalk` | src/api/http.ts:672-682 | Inspecting one object keeps every pending object reachable and every link out of an inspected object inspected or pending. |
| `TransportPhase.PhaseIsExact` | src/api/http.ts:669-684 | `connect` is answered only if a reachable object carries a connect witness, and always when one does unless more than sixteen objects are reachable. |
| `TransportPhase.PhaseIffAmongSixteen` | src/api/http.ts:669-684 | On every graph the stack walk answers `connect` if and only if one of the first sixteen objects in depth-first order, causes before aggregated errors, carries a connect witness. |
| `HttpDispatch.RequestRun.constructor` | src/api/http.ts:951-956 | No attempt has been counted and no fetch made. |
| `HttpDispatch.RequestRun.DispatchWithConnectRetry` | src/api/http.ts:957-974 | Result, fetches made and counter are those of `ExchangeFrom`. |
| `HttpDispatch.RequestRun.Perform` | src/api/http.ts:975-1053 | Outcome and fetches of the whole request are those of `FinalReport`, and the counter equals the number of fetches, which are logged without consulting it. How many fetches there are and how they end are `FetchCountIsExact`, `LastFetchDecides` and `FailureIsExact`. |
| `HttpDispatch.ExchangeCounts` | src/api/http.ts:957-972 | Counter and fetch log advance together, and the log is the network's answers in order. |
| `HttpDispatch.ExchangeIsLicensed` | src/api/http.ts:957-974 | One exchange makes a second fetch if and only if the first failed to connect and nothing forbids a retry; it ends in a replay if and only if its last fetch is a replayable 401, and succeeds if and only if that fetch was served. |
| `HttpDispatch.FetchesAreLicensed` | src/api/http.ts:957-1003 | For every sequence of outcomes a request makes at most four fetches; each later one follows a connect-phase failure or a 401 on a GET or validly keyed request with a token provider; at most one follows a 401. |
| `HttpDispatch.FetchCountIsExact` | src/api/http.ts:975-1003 | The exact number of fetches from the network's answers and the licences alone: none if and only if the request was cancelled, refused or given no bearer; a second exchange if and only if the last fetch of the first has the replay licence and the refreshed bearer is good; one retry in each exchange if and only if its first fetch has the connect licence. |
| `HttpDispatch.LastFetchDecides` | src/api/http.ts:975-1006 | However many fetches are made, the request succeeds if and only if the last one was served, and a status reported is the last one's. |
| `HttpDispatch.FailureIsExact` | src/api/http.ts:1004-1053 | Which failure is reported, as an if-and-only-if for each kind: from the checks before dispatch, the bearer that was not supplied, or the last fetch; a thrown one is the caller's cancellation, the elapsed budget or a network failure by how the signal was aborted. |
| `HttpDispatch.UnkeyedMutationReachesOnce` | src/api/http.ts:965-985 | A mutation without a valid key reaches the server at most once, and is fetched at most once when it opted out of redispatch. |
| `HttpDispatch.NamedSecretIsSentOnce` | src/api/http.ts:962 | Named-secret traffic is fetched at most once. |
| `HttpDispatch.ReachedTwiceOnlyAfter401` | src/api/http.ts:998-1002 | No request reaches the server more than twice, the second time only after a 401. |
| `HttpDispatch.ReportedAttemptsAreFetches` | src/api/http.ts:1048-1053 | The `attempts` quoted in a network failure is the length of the fetch log, and the log holds the network's answers one by one. |
| `HttpDispatch.NeverSentIsTrueUnlessReplayed` | src/api/http.ts:693-713 | A connect-phase report's claim that the request was never sent is true if and only if the request had not been answered 401 and replayed. |
| `HttpDispatch.ReplayedThenUnreachable` | src/api/http.ts:1000-1002 | A concrete request whose first fetch was answered 401 and whose report still says it was never sent. |
| `StoredSession.ContextRoundTrip` | src/auth/human-contracts.ts:111-140 | A valid context decodes to itself after encoding, and whatever decodes is valid and is the encoding of what it decodes to. |
| `StoredSession.ContextFieldValues` | src/auth/human-contracts.ts:111-140 | What stands on the wire of a context, key by key, the optional values exactly when present. |
| `StoredSession.StoredRoundTrip` | src/auth/human-session.ts:161-182 | Decoding an encoded valid session gives the session back, with or without a cached bearer. |
| `StoredSession.DecodedIsEncoding` | src/auth/human-session.ts:208-286 | Whatever decodes is the encoding of the valid session it decodes to: one record per session. |
| `StoredSession.PartialBearerIsRefused` | src/auth/human-session.ts:221-234 | A record with one or two keys of the bearer triple is refused, whatever else it holds. |
| `HumanSession.HumanAuthService.constructor` | src/auth/human-session.ts:443-450 | A service starts with no cached bearer and an empty history, whatever record is stored. |
| `HumanSession.HumanAuthService.Now` | src/auth/human-session.ts:452-459 | A reading is accepted if and only if it is a safe non-negative integer not below the last accepted one; a refused one leaves observed time alone. |
| `HumanSession.HumanAuthService.ReexchangeCallback` | src/auth/human-session.ts:766-858 | Each decision has its exact condition at the readings the callback takes: missing without a record; expired at the first; retained if the stored bearer is reusable at the second; rejected for good if the server then answers a terminal pair; rotated if the answer continues the session at the third; and rejected for integrity if it does not. A rotation is justified and supplies the bearer captured, a removal names evidence from this call. |
| `SessionWorld.MismatchIffNotContinuing` | src/auth/human-session.ts:802-822 | The checks on an exchange, made on the wire form of the contexts, refuse exactly what does not continue the session field by field: same session and login-code expiry, the same admitted context or an allowed sign-up transition, both expiries ahead. Every rotation of a history is justified by such an answer. |
| `SessionWorld.TerminalPairs` | src/auth/human-session.ts:321-330 | Exactly two answers of the server are terminal. |
| `HumanSession.HumanAuthService.ForgetCallback` | src/auth/human-session.ts:997-1011 | A readable record is retained or rewritten without its bearer, under the login code's expiry; never rejected. |
| `HumanSession.HumanAuthService.CompareAndDelete` | src/credentials/vault.ts:395-417 | Record, log and answer after a compare-delete, for every behaviour of the storage: exactly the expected envelope or nothing. |
| `HumanSession.HumanAuthService.ApplyDecision` | src/credentials/vault.ts:337-476 | Rotated is a compare-and-swap to the next revision that commits, and is acknowledged, exactly under its stated conditions; retained changes nothing and leaves a fence; rejected is a compare-delete that marks the target revoked; thrown changes nothing. The revoked mark and the fence after it are stated for every decision. |
| `HumanSession.HumanAuthService.RefreshPass` | src/credentials/vault.ts:165-203 | One vault refresh, own or joined: each change it records is licensed by this refresh's own answer and readings or is another process's write; an earlier fence is gone and a new one is the envelope returned; a revocation leaves the mark and no record; what it returns was the record at some time and stores the captured bearer; the bearer is the refused one only if the server minted it again. Result, captured bearer, record and clock after it are those of `RefreshOf`, whose exact conditions are the `Acquisition` rows. |
| `HumanSession.HumanAuthService.ReexchangeOnce` | src/auth/human-session.ts:859-897 | A bearer it yields has the token, expiry, session and revision of an envelope of the history, and is the refused one only if the server minted it again; a reusable stored bearer is always found. |
| `HumanSession.HumanAuthService.Reexchange` | src/auth/human-session.ts:753-912 | At most two vault refreshes; on failure the cached bearer is untouched; the installed bearer is one the history supplied and the refused one only if minted again; a reusable stored bearer is installed on the first refresh. The bearer installed is `b` if and only if `Installs` says so of the world the call met. |
| `HumanSession.HumanAuthService.CachedAccessToken` | src/auth/human-session.ts:474-479 | The token handed out was stored in the record, and the expiry stored beside it is more than 30 000 ms after the time just observed. |
| `HumanSession.HumanAuthService.AcquireAccessToken` | src/auth/human-session.ts:914-927 | The same of every token handed out; observed time never decreases; a cached bearer with life left is handed out without touching the vault. For a caller that waits and a cache no other task replaces, the answer is `Ok(t)` if and only if `Acquires` holds of the world the call met. |
| `HumanSession.HumanAuthService.RefreshRejectedAccessToken` | src/auth/human-session.ts:929-965 | The same, and the answer to a refusal is not the refused token, nor does that stay cached when no answer is found, unless the server minted it again or another task replaced the cache meanwhile. For such a caller the answer is `Ok(t)` if and only if `Renews` holds. |
| `Acquisition.DecisionIff` | src/auth/human-session.ts:766-858 | Each decision of the re-exchange callback, as an if-and-only-if over the clock, the record and the answer. |
| `Acquisition.ReexchangeReturnsIff` | src/credentials/vault.ts:165-203 | A refresh that re-exchanges returns a record if and only if it keeps a reusable one, or buys a continuing bearer and the store takes the rewrite; and exactly which record. |
| `Acquisition.ForgettingReturnsIff` | src/auth/human-session.ts:996-1011 | The same for a refresh that forgets the bearer. |
| `Acquisition.ReexchangeFailsIff` | src/credentials/vault.ts:337-417 | Which failures of a refresh mean a missing, an expired, a rejected or a mismatched session, each as an if-and-only-if; a revoked record is gone. |
| `Acquisition.VaultedIff` | src/credentials/vault.ts:337-476 | When the vault reports a conflict or a failing store, and what can happen to the record it finds. |
| `Acquisition.InstalledIff` | src/auth/human-session.ts:859-912 | Exactly which bearer a flight installs: the stored one, the one bought, or that of a joined flight's record; and a second refresh if and only if a joined first one brought nothing usable. |
| `Acquisition.OwnFlightFails` | src/auth/human-session.ts:877-897 | When a flight of one's own asks the user to sign in, and when it says that the session was rejected and removed. |
| `Acquisition.DeliveredIff` | src/auth/human-session.ts:753-912 | Exactly which token a flight ends with in the caller's hands: (a) the stored bearer kept at two readings and alive at the next; (b) the bearer of a continuing exchange whose rotation committed, alive at the next; (c) after a joined refresh that brought nothing usable, the same of a second one. |
| `Acquisition.AcquiredIff` | src/auth/human-session.ts:914-927 | `acquireAccessToken` answers with a token if and only if it is the cached one while it lives, or a delivered one. |
| `Acquisition.RenewedIff` | src/auth/human-session.ts:929-965 | `refreshRejectedAccessToken` answers with a token if and only if it is another cached one while it lives, or one delivered by a flight that knows of the refusal. |
| `HumanSession.HumanAuthService.DeleteIfRevision` | src/credentials/vault.ts:228-285 | Answer, record, log, revoked mark and fence are stated for every behaviour of storage and other processes: the exact envelope is compared with a fence for the revision, which is then consumed, otherwise the revision number. |
| `SessionWorld.RemovalOnlyDeletes` | src/credentials/vault.ts:245-271 | A removal only ever takes the record that carries the number, and with a fence only the envelope observed; undisturbed, a record that survives is a conflict. |
| `HumanSession.HumanAuthService.RemoveConfirmedLocalSession` | src/auth/human-session.ts:1019-1047 | The cached bearer is dropped, the record is that of `RemovalOf`, and conflict, failure and success are reported exactly accordingly; with no revision named nothing is touched. |
| `HumanSession.HumanAuthService.AbandonBearer` | src/auth/human-session.ts:1066-1077 | The bearer is dropped in memory and, undisturbed, on disk. Each change is licensed by the refresh that ran; when that is a forgetting and no other process writes, the session with its login code is kept. |
| `HumanSession.HumanAuthService.Logout` | src/auth/human-session.ts:1049-1102 | Only a definitive answer removes a revision: that of an envelope of the history which supplied the bearer cached when the request left, or after a terminal refusal when the answer came. This is the revision of the bearer sent if and only if no other task had moved the cache to another revision by then. An ambiguous answer removes nothing and drops the bearer on disk; a session without a ground is kept; another revision written meanwhile survives as a conflict; no bearer stays cached. The request is sent exactly when a bearer is acquired; otherwise the failure of the acquisition is the answer, unless it proves the session removed. |
| `HumanSession.HumanAuthService.StoreSignIn` | src/auth/human-session.ts:677-725 | The session is stored exactly when every check passes and the compare-and-swap commits, under the login code's expiry; a bearer is cached only with the envelope that stores it. |
| `SessionWorld.AdmitsIff` | src/auth/human-session.ts:349-378 | A sign-up is stored while it waits for admission, any other sign-in once it is admitted to a workspace. |
| `SessionWorld.SignInOnTheWire` | src/auth/human-session.ts:288-319 | What a sign-in puts on the wire, key by key: the exchange's answer and the secrets it was obtained with. |
| `SessionWorld.CommitsIffNotStopped` | src/auth/human-session.ts:578-725 | A sign-in stores its session if and only if none of its checks stops it and the swap goes through. |
| `HumanSession.HumanAuthService.Login` | src/auth/human-session.ts:578-751 | It stores its session if and only if `Commits` holds, over exactly the record the vault then held, so it overwrites one if and only if `Overwrites` holds. When it fails after an acknowledged store, record and error are those of a delete by the number it stored, of whatever record other processes have left by then: undisturbed its session is gone from disk, and it takes the record it finds if and only if `Takes` holds. A present record that is neither expired nor preceded by a moment this process found it gone is left alone. The error of a sign-in that stops before the vault is stated for each check, and the bearer is cached exactly when it has life left. |
| `HumanSession.HumanAuthService.CleanUp` | src/auth/human-session.ts:726-739 | The cleanup of a failed sign-in, after any writes of other processes: answer and record are those of `RemovalOf` without a fence, and it logs a removal exactly when `Takes` holds. |
| `SessionHistory.CleanupTakesReusedNumber` | src/credentials/vault.ts:222-227 | The exact condition for the cleanup to take a record other processes have written since: the record was absent in between and has been written exactly as many times since as the number says, nobody writes between read and compare, and the storage acts. |
| `SessionWitnesses.CleanupRemovesNewSignIn` | src/auth/human-session.ts:712-714 | A run: a sign-in is cancelled just after its record is stored, another process signs out and in again, and the cleanup removes the other's new session. |
| `SessionWorld.OverwritesIff` | src/credentials/vault.ts:295-302 | The exact condition under which a sign-in that stores its session overwrites another: one was stored after the status check, or the check passed over a present record because this process had found it gone before or because it had expired. |
| `SessionWitnesses.OverwritesAfterSignOut` | src/credentials/vault.ts:295-302 | A run, for every grammar and all untroubled sign-ins: a process signs in and out, another signs in, the first signs in again and overwrites it, with nothing written after its status check. |
| `SessionWitnesses.OverwritesInTheWindow` | src/auth/human-session.ts:581-706 | A run, likewise, in which a session stored between the status check and the rotation is overwritten. |
| `SessionWitnesses.OverwritesExpired` | src/credentials/vault.ts:604-613 | A run, likewise, in which a record with an expired header is overwritten. |
| `HumanSession.HumanAuthService.Run` | src/auth/human-session.ts:435-1113 | Over every run of calls interleaved with arbitrary writes by other processes: each change is justified, and licensed by the answers and readings of the step that made it; a session for which no step brings a ground is still in the record; observed time never decreases; and the vault's revoked mark means there was no record at some time. |
| `SessionHistory.RunKeepsSession` | src/auth/human-session.ts:321-347 | A session and its login code are in the record after every run whose steps bring none of its grounds: another process's write, an authoritative 401 pair in answer to a re-exchange, expiry of the code at a reading, an answer that does not continue the session, a definitive logout, or a sign-in that meets everything its store demands. |
| `SessionHistory.SessionEndsForACause` | src/auth/human-session.ts:766-858 | In every history, whenever a session is gone, a change between the two observations took it away, for one of those causes and with evidence about this very session. |
| `SessionHistory.RewritesKeepSession` | src/auth/human-session.ts:831-851 | Any chain of re-exchanges and forgettings changes nothing but the bearer triple, keeps the login code's expiry on the envelope, and advances the revision by its length. |
| `SessionHistory.OwnWritesAreNumbered` | src/credentials/vault.ts:144 | Every write of this process numbers its envelope one past the one it replaces. |
| `SessionHistory.RevisionCountsWrites` | src/credentials/vault.ts:445 | The revision after a history is the starting one plus the writes, or the writes since the record was last absent. |
| `SessionHistory.NewerRecordSurvives` | src/auth/human-session.ts:1013-1018 | If the record was never absent in between, every newer record survives a logout's delete, fenced or not. |
| `SessionHistory.NumberAloneIsReused` | src/credentials/vault.ts:264-271 | The exact condition: an unfenced delete removes a later record if and only if the record was absent in between and has been written exactly that many times since. |
| `SessionWitnesses.RemovesNewSignIn` | src/credentials/vault.ts:264-271 | A run, for every grammar and all untroubled sign-ins: this process signs in, another signs out and in again, and this one's sign-out removes the other's new session. |
| `SessionWitnesses.RemovesHandedOverRevision` | src/auth/human-session.ts:1052-1062 | A run, likewise, in which another task caches a newer bearer before the request leaves and the newer revision is removed on the old bearer's revocation. |
| `SessionWitnesses.RemovesRevisionCachedMeanwhile` | src/auth/human-session.ts:1086-1097 | A run, likewise, in which another task caches a newer bearer while the request is out and the newer revision is removed on the old bearer's refusal. |
| `Schema.TypeListIsSharedCheck` | src/api/owner-observe-grants-v2.ts:42 | A `type` list is one shared check plus some member type, although the code interprets the whole schema once per name. |
| `SchemaSoundness.CountIsOne` | src/api/owner-observe-grants-v2.ts:33-39 | Filtering the passing `oneOf` branches and comparing the count with one is exactly "one branch accepts and no other". |
| `SchemaSoundness.InterpreterIsSound` | src/api/owner-observe-grants-v2.ts:30-49 | On schemas with acyclic references, scalar constants, object-guarded conditionals and no lower length bound above one, every accepted value is accepted by JSON Schema 2020-12, although the code counts UTF-16 code units and JSON Schema characters. |
| `SchemaSoundness.InterpreterIsExact` | src/api/owner-observe-grants-v2.ts:30-49 | On the narrower exact fragment, without upper length bounds, the interpreter accepts a value if and only if JSON Schema 2020-12 does. |
| `SchemaSoundness.LowerBoundIsUnsound` | src/api/owner-observe-grants-v2.ts:44 | A lower length bound of two accepts one character outside the basic plane, which JSON Schema refuses. |
| `SchemaSoundness.OutsideTheFragment` | src/api/owner-observe-grants-v2.ts:30-49 | What the interpreter does where the fragment ends: structured constants match nothing, arrays without `items` must be empty, integers must be safe, untyped `properties` demand an object, unknown types are not checked. |
| `SchemaSoundness.CopiesAgree` | src/api/observer-v2.ts:7-18 | The observer copy agrees with the owner copy on every schema without `oneOf`. |
| `SchemaTable.DefinitionsAreExact` | src/api/owner-observe-grants-v2-schema.ts:4-859 | Every schema of the owner table but the member page lies in the exact fragment. |
| `SchemaTable.OwnerTableIsDecided` | src/api/owner-observe-grants-v2-schema.ts:4-859 | Under every schema of the table the interpreter accepts exactly what JSON Schema 2020-12 accepts, whatever the pattern engine answers, except that a member page must also keep every address within 254 code units. |
| `SchemaTable.MemberPageIsDecided` | src/api/owner-observe-grants-v2-schema.ts:31-100 | The exact condition for the member page: accepted if and only if JSON Schema accepts it and every `recipient_email` has at most 254 code units. |
| `SchemaTable.AstralEmailIsRefused` | src/api/owner-observe-grants-v2-schema.ts:81-88 | A page with an address of 128 characters outside the basic plane: with every pattern engine that recognises its two identifiers, accepted by JSON Schema and refused by the code. |
| `LoginCode.MarkersCannotOverlap` | src/cli/run.ts:296-297 | A buffer matching both paste markers holds them side by side. |
| `LoginCode.MaskCountsBytesBetweenMarkers` | src/cli/run.ts:308-314 | The mask counts the bytes between the markers, on every buffer, and the clamp at zero is never used. |
| `LoginCode.SubmissionIsStripped` | src/cli/run.ts:385-394 | Stripping the markers off the decoded text gives the decoded bytes between the markers, whatever ill-formed bytes are around them. |
| `Utf8.ReadsBackIffWellFormed` | src/cli/run.ts:386 | Text decoded from bytes and encoded again is those bytes if and only if they were well-formed. |
| `Utf8.LengthReadsBackIff` | src/cli/run.ts:386 | It is never shorter, and as long if and only if every ill-formed part was three bytes long. |
| `Utf8.WrittenReadsBack` | src/cli/run.ts:386 | Text written as UTF-8 and read again is that text, so the well-formed byte strings are exactly the written texts (`WellFormedIffWritten`). |
| `Utf8.GapIsMaximal` | src/cli/run.ts:386 | The ill-formed part replaced by one character is one byte or begins some character, and nothing longer does. |
| `LoginCode.MaskCountsWhatIsSubmitted` | src/cli/run.ts:308-314 | The exact condition: the bytes of the submitted text are those between the markers if and only if these are well-formed UTF-8; the stars are never more than the submitted bytes, and as many if and only if every ill-formed part is three bytes long. |
| `LoginCode.IllFormedByteShowsOneStar` | src/cli/run.ts:385-394 | One ill-formed byte shows one star and is submitted as three bytes. |
| `LoginCode.RedrawShows` | src/cli/run.ts:362-367 | Whatever is on the line, a redraw leaves exactly the target number of stars. |
| `LoginCode.HiddenReader.RenderMask` | src/cli/run.ts:362-367 | After a render the screen shows as many stars as the mask length of the buffer. |
| `LoginCode.HiddenReader.Finish` | src/cli/run.ts:385-395 | The submitted value is the text of the buffer without its markers, ill-formed parts replaced. |
| `LoginCode.HiddenReader.OnData` | src/cli/run.ts:399-422 | A chunk acts as its bytes one after the other; afterwards the stars on screen are as many as the bytes between the markers, and after a submission no more than the bytes of the text, as many if none was replaced. |
| `LoginCode.ChunkingDoesNotMatter` | src/cli/run.ts:399-422 | Outcome and buffer do not depend on how a byte stream is cut into chunks. |
| `LoginCode.PastedCodeIsSubmitted` | src/cli/run.ts:385-395 | A code pasted between the markers and entered is submitted as the text its bytes spell, an ASCII code character for character. |
| `LoginCode.NeverBeyondLimit` | src/cli/run.ts:416-418 | No more bytes than the limit are ever buffered, and no more characters submitted. |
| `LoginCode.ReadChunks` | src/cli/run.ts:399-422 | A reader fed chunk by chunk ends where the whole stream ends. |
| `LoginCode.ReaderIsExact` | src/cli/run.ts:399-422 | For every byte stream: the buffer is what was typed less what was erased, computed from the end of the stream, and the first interrupt, end, enter or byte without room decides the outcome, a submission being the text between the markers. |
| `Argv.ParseArgv` | src/cli/parser.ts:395-433 | The index loop computes the recursive parse, errors included. |
| `Argv.ParseIsWellFormed` | src/cli/parser.ts:406-425 | Every parsed invocation has known, well-spelled options with the kind of value they take. |
| `Argv.PrintReadsBack` | src/cli/parser.ts:395-433 | Printing any well-formed invocation, options in any order, then `--`, then positionals, parses back to it. |
| `Argv.ParsePrintParse` | src/cli/parser.ts:395-433 | Parsing, printing and parsing again is parsing. |
| `ArgvGrammar.ParsesIffSentence` | src/cli/parser.ts:395-433 | The parser accepts exactly the sentences of a grammar of options in three spellings, operands and a terminator, no option twice, and returns what the sentence means. |
| `ArgvGrammar.RefusedIff` | src/cli/parser.ts:390-426 | A command line is refused with an error if and only if after a sound part it comes to an option with exactly that fault. |
| `Argv.MenuInvocationOptions` | src/cli/run.ts:510-518 | The loop lists the four value options and the colour flag in two-token form. |
| `Argv.MenuReadsBack` | src/cli/run.ts:510-518 | Appended to a command line, those tokens parse to the same five options if and only if no carried value starts with `--`; otherwise the line is refused. |
| `Framing.BuildManifest` | src/build-identity.ts:59-75 | The loop feeds the hash exactly the framed bytes and lists every file with its size and the digest of its content. |
| `Framing.UnframeInverts` | src/build-identity.ts:62-69 | A decoder gives the list of files back from the byte stream, for paths without NUL. |
| `Framing.FramingIsInjective` | src/build-identity.ts:62-69 | Equal byte streams come from equal lists of files. |
| `Framing.NulInPathCollides` | src/build-identity.ts:64-65 | With a NUL in a path two different lists frame alike. |
| `Pages.ObserverPageIsGood` | src/api/observer-v2.ts:24 | A page is accepted if and only if its grants are live and in scope, its ids ascend above the cursor asked for, and its next cursor is above that and below no item. A page in scope that is out of order is refused as such. |
| `Pages.ProjectObserverPageIsGood` | src/api/owner-observe-grants-v2.ts:352-357 | The same for member pages. |
| `Pages.DecodeManagedExecutionPage` | src/api/managed-executions.ts:104-118 | The loop accepts exactly the bounded one-machine pages with ascending ids whose cursor is the last id. Which of its three errors it gives is stated. |
| `Pages.LessIffDiffers` | src/api/managed-executions.ts:111 | The comparison of ids is the lexicographic order. |
| `Pages.ManagedPageIsGood` | src/api/client.ts:820-825 | With the client's check against its question, such a page ascends above the cursor asked for. |
| `Pages.WalkAscends` | src/api/observer-v2.ts:28 | Following cursors through any number of accepted pages gives one strictly ascending list, and strictly ascending cursors. |
| `Pages.WalkHasNoDuplicates` | src/api/owner-observe-grants-v2.ts:355 | No id is delivered twice. |
| `Pages.WalkEnds` | src/api/managed-executions.ts:115-116 | A walk whose cursors come from a finite id set has at most one page more than there are ids. |

## Left out

- Fetching, timers, readline, raw terminal mode, browser hand-off and file reading: only their outcomes enter the model.
- Cryptography: envelopes are values, compared as their digests would compare them; tokens, login codes and identifiers are strings.
- JSON text: stored records and schema instances are JSON values; stringifying and parsing them is not modelled.
- Corrupt envelopes, revision overflow past the safe integers, and backends without compare-and-swap are not modelled.
- Corrupt-record refusal at sign-in, the sign-up capability and the continuation steps before the exchange are one outcome.
- JavaScript object quirks (prototype keys, accessors, non-enumerable properties): objects are maps.
- Keywords beside a `$ref`, values that are not JSON, and strings that are not well-formed UTF-16: the interpreter's handling of them is not modelled.
- String grammars of tokens, login codes, profiles and terms versions, and the instant an ISO text denotes, are parameters of the session model.
- `HumanSession.HumanAuthService.Run`: calls are taken one after the other; what concurrent tasks of the same process do to a waiting call's cached bearer is an input of that call, restricted to bearers the record has stored.
- Response bodies and their size limit, problem metadata, hints, messages, exit codes and labels.
- `list` of the supervisor, `DaemonLifecycle`, onboarding tables, capability verdicts: finite tables that reading settles.
- The flat response decoders, grant create, inspect and revoke receipts beyond their schemas, and the pending-operation files.
- Building cursor query strings into request paths.
