# Verified model of the Spice WebSocket starter

This project models, in Dafny, the code that the starter adds around its WebSocket library: the close
protocol of a connection, the admission and lifecycle of server sessions, the cleanup of client
connections, the observers, the redaction of errors, the normalisation of configuration, and two checkers
of the release gate. `dafny verify dfyconfig.toml` checks all of it.

## How it is built

| file | models |
|---|---|
| `Errors.dfy` | Go error trees, `errors.As` searches, `sanitizeConnectionError`, `serverOutcome` |
| `CloseProtocol.dfy` | `Connection.Close` and `closeNow`: callers, the `sync.Once`, the worker goroutine, `closeDone`, `closeErr`, canceled contexts |
| `Observers.dfy` | `beginObservers` and the closure it returns |
| `ClientCleanup.dfy` | the cleanup closure of `Dial`, a second once layered over the close protocol |
| `Server.dfy` | `ServeHTTP` as steps of interleaved requests, with deferred calls and panics; every session owns a connection of `CloseProtocol` |
| `ServerRuns.dfy` | what `ServeHTTP` does over whole runs |
| `Headers.dfy` | client header names, byte budget and the Authorization value |
| `ServerConfig.dfy` | `normalizeServerConfig`, origins, subprotocols |
| `Environment.dfy` | `mergedEnvironment`, `onlineEnvironment` |
| `Checksums.dfy` | `validateReleaseChecksums` |
| `Text.dfy`, `Basics.dfy` | byte-wise order, sorting, tokens; options, sums over maps |

Concurrent code is a step system over values. An event is one atomic step of one goroutine, of the
library or of the environment; `Step` gives the next state or says that the event cannot happen; a run is
a sequence of events, and `Exec` its last state. Statements about runs therefore hold for every
interleaving, every number of callers or requests, and every moment of cancellation. Results of library
calls and callbacks come with the events, so nothing is assumed about them: in particular nothing about
what `CloseNow` returns. A context is a cause that is set at most once and then stays.

Code that loops is written as methods with loops, and proved against the property it is there for. A map
is visited in an order the method does not choose, as in Go.

Strings are sequences of bytes, one byte to a `char`. `path.Match`, `strings.TrimSpace` and
`strings.ToUpper` are parameters: the results hold whatever these functions do.

## Main results

- **Close protocol.** In every run the once is won by one caller, one handshake starts, its result is
  stored at most once and `closeDone` is closed once, in that order (`SharedStepsHappenOnceInOrder`);
  nobody reads the result or returns from waiting earlier (`ReturnsFollowTheHandshake`). `CloseResults`
  says exactly what each call returns, `CanceledCallsStayOut` that a call canceled at the check never takes
  part in the handshake, `CompletedCallsAgree` that all calls that see the handshake through
  return the same error, `HandshakeCarriesTheWinner` what goes over the wire. `EveryCallReturns` bounds
  the steps of the code in every continuation and shows that it never stops with a caller waiting.
- **Client cleanup.** Over any number of cleanup calls, direct `Close` calls and cancellations, the
  finishers run exactly once, backwards, before any cleanup call returns, with the outcome of the call
  that won the once; that outcome tells how its close went (`FinishersRunBeforeReturn`, `ReportedOutcome`).
- **Server.** Whatever the interleaving, the steps of one request are exactly those of the sequential code
  (`RunsKeepInv`). Capacity, admission, nesting of observers, the meaning of each HTTP answer and of the
  reported outcome follow, for all runs and with panics anywhere the code calls out. `SessionsStayNested`
  and `FinishersLeftBehind` say what observers are still owed at any moment and what a panic costs them;
  `EveryRequestEnds` bounds the steps of every request.
- **Redaction.** Replacing library errors by their redacted form anywhere in a handler's error tree leaves
  the reported outcome and the close status unchanged, except in two exactly described families of trees,
  one for each direction, that need a close error of the handler's own making: a `PeerCloseError` or a
  library `CloseError`. If the handler makes no library `CloseError`, redaction can only turn Normal into
  Failed; if it makes neither, redaction changes nothing. Redacted results do not depend on close reasons.
- **Configuration and release gate.** Acceptance is characterised exactly, results do not depend on the
  order of lists or maps, normal forms are stable, the checksum file has one accepted form.

## Where the code differs from what one might expect

- `sanitizeConnectionError` takes a library CloseError with code -1 for no CloseError at all and lets it
  through. Codes read from the wire are never -1 (`Errors.SanitizeRemovesNatives`).
- A handler that joins a `PeerCloseError` of its own with an earlier, not ordinary peer close is reported
  as failed, while the same tree without redaction would be reported as normal; with a library
  `CloseError` of its own, say of another connection, it is the other way round
  (`Errors.WorseningExample`, `Errors.ImprovingExample`, `Errors.RedactionPreservesOutcome`).
- A panic in an observer or in the session callback gives back slot and count, but the connection is not
  closed and no finisher runs; one in a finisher leaves the finishers that began before it unrun
  (`ServerRuns.PanickedSessions`, `ServerRuns.FinishersLeftBehind`).
- `normalizeHeaders` reports that names must be canonical, but a non-empty name that is not a token, such
  as one with a space, is always accepted, because canonicalisation leaves it alone
  (`Headers.AcceptedNames`, `Headers.NonTokenNameIsAccepted`).
- `mergedEnvironment` is idempotent for upper-case keys only; a lower-case override is added again at every
  merge (`Environment.MergeIsIdempotent`, `Environment.LowerCaseOverridesPileUp`).
- A name with a newline, or an empty list of names, makes `validateReleaseChecksums` refuse every file.

## Model

| member | source | states |
|---|---|---|
| Errors.SearchesReadMarks | connection.go:216-218 | both `errors.As` searches return the first close error of their kind in pre-order of the tree |
| Errors.ContainsReadsParts | connection.go:179 | `errors.Is` finds an error exactly if it is among the parts of the tree, listed in pre-order |
| Errors.SearchesReadCloses | connection.go:208-220 | on every tree a handler returns, what both searches meet before and after redaction is the first close error of certain origins in pre-order: redaction moves the connection's from one search to the other |
| Errors.RedactionPreservesOutcome | server.go:144-165 | for every handler's tree, with close errors of its own of either kind: redaction leaves outcome and close status unchanged if and only if the context is canceled or no ordinary close is hidden in one of two ways; one way turns Normal into Failed, the other Failed into Normal, exactly; a library close error is left exactly if the handler put one there |
| Errors.RedactionOnlyWorsens | server.go:144-165 | if the handler owns no library close error, redaction never turns Failed into Normal, and turns Normal into Failed exactly if one of the connection's closes and the handler's own PeerCloseErrors, not ordinary, hides an ordinary one of the other kind; no library close error is left |
| Errors.RedactionInvisibleToOutcome | connection.go:208-220 | if the handler owns no library close error and no PeerCloseError, redaction never changes outcome or close status |
| Errors.WorseningExample | server.go:154-164 | a concrete tree that redaction turns from Normal into Failed |
| Errors.ImprovingExample | server.go:154-164 | a concrete tree, with a library close error of the handler's own, that redaction turns from Failed into Normal |
| Errors.SanitizeHidesReasons | connection.go:208-220 | library errors that differ only in close reasons are redacted to the same error |
| Errors.SanitizeRemovesNatives | connection.go:208-220 | a library close error gets through exactly if the caller's cause has one or the first one found has code -1; cause, close status and other errors are kept |
| CloseProtocol.StepKeepsInv | connection.go:150-206 | every step of every caller, worker and environment keeps the invariant that ties phases, once, worker, `closeErr` and `closeDone` together |
| CloseProtocol.StepIsMonotone | connection.go:150-206 | causes, calls and returned results never change; `closeErr` changes only where the worker stores its result |
| CloseProtocol.SharedStepsHappenOnceInOrder | connection.go:174-188 | over whole runs: once won, worker spawned, handshake started and returned, result stored, `closeDone` closed, each at most once and in this order |
| CloseProtocol.ReturnsFollowTheHandshake | connection.go:189-205 | `closeErr` is read and waiting callers return only after `closeDone` is closed; nothing writes `closeErr` afterwards |
| CloseProtocol.RefusalsAreErrors | connection.go:155-166 | the argument checks turn down exactly: no context, no connection, a status other than 1000, 1001, 1008, 1011, a reason over 123 bytes or with a NUL, CR or LF; in this order, each with its message |
| CloseProtocol.StoredErrorIsGiven | connection.go:176-185 | what is stored for what the handshake returned: nil exactly for nil or with a closed socket in the tree; else the status of the first close error in it, without the reason; else the error wrapped |
| CloseProtocol.CloseResults | connection.go:155-205 | what Close returns on each way out: a refusal exactly for arguments that are turned down; what the handshake gives, spelled out over the parts and close errors of the library's error; nil only then; a canceled call forced the socket shut and returns its cause joined with the error of the forced close |
| CloseProtocol.ForcedResults | connection.go:222-229 | closeNow returns nil exactly if its one forced close did, else that error wrapped |
| CloseProtocol.OneForce | connection.go:193-204 | a call forces the socket at most once |
| CloseProtocol.NothingIsRuledOut | connection.go:189-205 | both branches of the select are open exactly when ready; library calls may return anything |
| CloseProtocol.CanceledCallsStayOut | connection.go:167-174 | the already-canceled check decides for good: a call whose context was canceled then never reaches the once and returns only with its cause; a call whose context was live then returns only by waiting for the handshake |
| CloseProtocol.CompletedCallsAgree | connection.go:190-191 | all calls that leave through `closeDone` return the same stored error |
| CloseProtocol.CompletedResultsAreRedacted | connection.go:176-185 | what a completed Close returns carries no close reason of the peer |
| CloseProtocol.OneWinner | connection.go:174 | no two different callers win the once in one run |
| CloseProtocol.HandshakeCarriesTheWinner | connection.go:161-191 | the status and reason given to the library are those of the caller that won the once: 1000, 1001, 1008 or 1011, at most 123 bytes without NUL, CR and LF, in a frame body of at most 125 bytes |
| CloseProtocol.NoDeadlock | connection.go:189-205 | while a call has not returned, some step of the code can be taken |
| CloseProtocol.EveryCallReturns | connection.go:150-206 | in every continuation of every run the code takes at most a fixed number of steps plus seven per arriving call, and when it can take none every call has returned |
| Observers.Session.Begin | observer.go:55-60 | observers begin in list order; exactly the non-nil finishers are collected, in that order |
| Observers.Session.Finish | observer.go:61-65 | the finishers run in reverse, each once, with the same result |
| Observers.FinishersAreTheGivers | observer.go:57-59 | the collected finishers are those of the observers that returned one, once each, in list order |
| Observers.SessionsNest | observer.go:50-66 | begin and finish calls of a session nest like brackets and leave none open |
| ClientCleanup.StepKeepsInv | client.go:62-90 | every step keeps the invariant of both onces, the cleanup calls and the connection |
| ClientCleanup.DecideClassifies | client.go:72-78 | the outcome rule agrees with the way the close ended, because cancellation is never taken back |
| ClientCleanup.ConnectionRunsTheProtocol | client.go:67-71 | the connection's part of every run is a run of the close protocol |
| ClientCleanup.FinishersRunAtMostOnce | client.go:79-85 | one call at most wins the once; the finishers called are a beginning of the reversed list, all with the winner's result |
| ClientCleanup.FinishersRunBeforeReturn | client.go:79-90 | before any cleanup call with a context returns, all finishers have run, and they never run again |
| ClientCleanup.ReportedOutcome | client.go:67-85 | the outcome is the winner's: Normal exactly if its Close returned nil, else Canceled exactly if its context was canceled when it decided, as it was whenever cancellation ended the close, else Failed, and then the shared stored error is non-nil |
| ClientCleanup.CleanupResults | client.go:63-90 | cleanup closes with status 1000; it returns nil exactly when its Close did; else an error with all parts of the Close error, the cause of a canceled call among them, in which both searches find the same; never an argument error |
| ClientCleanup.CompletedCleanupsAgree | client.go:67-90 | calls that saw the handshake through return the same: nil, or the stored error wrapped |
| ClientCleanup.NilContextIsRejected | client.go:64-66 | a nil context is an error, closes nothing and never wins the once |
| ClientCleanup.ClientSessionsNest | client.go:60-90 | once a cleanup call has returned, the observers have seen one whole nested session |
| ClientCleanup.EveryCleanupReturns | client.go:63-90 | steps of the code are bounded in every continuation, and where none is possible every cleanup call has returned |
| Server.AcceptedConfigsMakeHandlers | server.go:31-54 | an accepted configuration makes a handler with empty slots, the configured limit or 256, at most 4096, and the configured transport and authentication |
| Server.MoveKeepsRequest | server.go:66-127 | every step of a request keeps its phase, deferred calls, response and connection consistent |
| Server.StepKeepsInv | server.go:85-98 | every step of every request keeps both counters equal to the deferred calls still owed, within the limit |
| Server.NothingIsRuledOut | server.go:79-110 | authentication, upgrade, observers and callback may end either way or panic; a slot is taken exactly if one is free and refused exactly if none is |
| ServerRuns.RunsKeepInv | server.go:66-127 | in every interleaving the steps of each request are exactly those of the sequential code up to where it stands |
| ServerRuns.CapacityIsKept | server.go:85-98 | 0 <= active <= slots held <= limit <= 4096; slots and counter equal the requests between acquire and release, increment and decrement; both zero when all requests are done |
| ServerRuns.RefusedOnlyWhenFull | server.go:85-91 | a request is refused for capacity only when all slots are held |
| ServerRuns.SessionsAreAdmitted | server.go:74-110 | the callback runs at most once per request, only for a request that came over TLS or, where insecure transport is allowed, from this host, and after authentication when configured, slot, upgrade, count and all observers, in that order |
| ServerRuns.ServedSessionsNest | server.go:97-126 | for a request served without a panic the observer calls nest, share one result, and all fall between increment and decrement of the counter |
| ServerRuns.SessionsStayNested | server.go:97-126 | at every moment of every run, panics included, a request's observer calls nest, and open are exactly the finishers returned and not run |
| ServerRuns.FinishersLeftBehind | server.go:97-126 | a request that is done has left no finisher unrun if and only if it was served to its end or no observer had returned one |
| ServerRuns.PanickedSessions | server.go:85-126 | a session ended by a panic gives back slot and count; ServeHTTP has closed its connection if and only if the panic came from a finisher |
| ServerRuns.ResponsesSayWhy | server.go:74-95 | each answer is given exactly for its own reason: 426 exactly for a request without TLS where insecure transport is not allowed or the request is not from this host; authentication, capacity, upgrade, panic, or a served session |
| ServerRuns.ReportedOutcome | server.go:110-126 | Normal exactly if the context was live, the handler ended ordinarily and one of the two closes returned nil; the forced close is made exactly if the first failed; the Close call carries 1001, 1000 or 1011 to match and is never turned down for its arguments |
| ServerRuns.ClosesTellTheirResults | server.go:113-119 | the first close returned nil only if the library saw nil or a closed socket; the second exactly if the forced close did |
| ServerRuns.SessionsRunTheProtocol | server.go:96-120 | what happens to each session's connection is a run of the close protocol |
| ServerRuns.NoRequestIsStuck | server.go:87 | every request that is not done can move; the deferred receive never blocks |
| ServerRuns.EveryRequestEnds | server.go:66-127 | in every run a request makes at most 15 moves and two for each observer, its connection at most 6 steps and seven for each call on it; where no request can move, all are done and no slot is held |
| Headers.NoReservedVariant | config.go:524-535 | no accepted header name is a case variant of one of the eleven forbidden names, which are listed |
| Headers.AcceptedNames | config.go:524-535 | a name of token characters is accepted exactly if each letter has its canonical case and the name is no case variant of a forbidden one; any other non-empty name is always accepted |
| Headers.NonTokenNameIsAccepted | config.go:528-535 | a concrete name with a space in it is accepted |
| Headers.NormalizedHeaderBytes | config.go:558-566 | the recomputed total is the size of the header, in whatever order the map is visited |
| Headers.VerdictForgetsOrder | config.go:524-556 | in whatever order the map is visited, the verdict is the same, and the first fault in that order is one that is there |
| Headers.NormalizeHeaders | config.go:524-556 | accepted exactly if all names and values are and the total fits 8192 bytes; the result is the source without valueless names; an error is the first fault in an order in which the map may be visited |
| Headers.AcceptedAuthorization | config.go:266-294 | no value is accepted exactly with anonymous access, a value exactly without it and if it reads as a token, a space and credentials within 4096 bytes; each error says which rule was broken |
| Headers.CredentialsAreUnique | config.go:287-292 | a value reads as scheme and credentials in one way only |
| Headers.ClientHeaders | config.go:201-220 | the final header, Authorization included, fits 8192 bytes; Authorization was not there before; the verdict is exact, with the Authorization rule spelled out; for a faultless header each Authorization error is given exactly for its rule; the error is the first fault of the header in a visiting order, else that of the Authorization value, else the size of both together |
| ServerConfig.NormalizeOrigins | config.go:309-349 | accepts exactly the duplicate-free lists of at most 32 patterns that are not `*`, have 1 to 255 bytes, none of them NUL, CR, LF, tab or space, and are well formed; returns them strictly increasing |
| ServerConfig.OriginsForgetOrder | config.go:324-348 | any order of the same origins gives the same result or the same error |
| ServerConfig.NormalizeSubprotocols | config.go:351-376 | returns the list unchanged exactly if it holds at most 32 distinct strings of 1 to 255 characters of the token alphabet, which is listed; agrees with the sort-and-compare test |
| ServerConfig.NormalizeServerConfig | config.go:94-159 | accepts exactly the acceptable configurations and returns their normal form, limits and defaults given as numbers; otherwise the first fault in the order of the checks |
| ServerConfig.FaultsSayWhy | config.go:161-178 | which error is given for which broken rule of authentication, message limit and compression |
| ServerConfig.NormalFormIsStable | config.go:94-178 | rebuilding a configuration from a normal form and normalising again gives the same form; all limits are in range |
| ServerConfig.NormalFormForgetsSpelling | config.go:107-144 | spelling out defaults or reordering origins does not change the normal form |
| Text.LexLeComparesBytes | config.go:325 | the order of strings: a beginning comes first, else the smaller byte where they first differ |
| Text.TokenCharsAreListed | config.go:39-41 | the token characters are those of the pattern, listed |
| Text.Sort | config.go:325 | a sorted permutation |
| Text.SortedNeighboursShowDuplicates | config.go:341-346 | comparing neighbours after sorting finds a duplicate exactly when some pair is equal |
| Environment.MergedEnvironment | internal/qualitygate/main.go:810-827 | sorted, each entry as often as the surviving ambient entries and the controlled variables ask |
| Environment.OnlineEnvironment | internal/qualitygate/main.go:829-845 | the same for the online variables |
| Environment.MergeIsDetermined | internal/qualitygate/main.go:814-826 | neither the order of ambient entries nor of the map shows in the result |
| Environment.OneEntryEach | internal/qualitygate/main.go:814-825 | one entry per controlled variable under any spelling; every other entry is kept as often as it was |
| Environment.MergedEntries | internal/qualitygate/main.go:815-816 | every entry of the result has a name and a value |
| Environment.OneEntryPerVariable | internal/qualitygate/main.go:811-824 | that entry carries the override, or else `GOWORK=off`, `GOPROXY=off`, `GOFLAGS=`, `GOTOOLCHAIN=local`; other variables are left alone |
| Environment.OnlyOnlineKeepsTheProxy | internal/qualitygate/main.go:829-845 | the online environment sets the other standard variables and leaves ambient proxy entries alone, the offline one replaces them |
| Environment.MergeIsIdempotent | internal/qualitygate/main.go:810-827 | merging again changes nothing if and only if every controlled variable is written under a key the merge takes for a controlled one, as upper-case keys are |
| Environment.LowerCaseOverridesPileUp | internal/qualitygate/main.go:812-824 | a lower-case override is not idempotent |
| Checksums.ValidateReleaseChecksums | internal/qualitygate/release_rehearsal.go:158-179 | accepts a file exactly if it is the canonical rendering, for a non-empty list of names without newlines; read character by character, exactly if it ends in a newline and line i is 64 lower-case hexadecimal digits of the i-th digest, high half first, two spaces and the i-th name in byte order; otherwise tells a missing final newline, a wrong number of newlines, or the first line that differs |
| Checksums.HexAt | internal/qualitygate/release_rehearsal.go:173 | byte i of a digest gives digits 2i and 2i+1, the high half first |
| Checksums.FileDeterminesDigests | internal/qualitygate/release_rehearsal.go:172-177 | a canonical file determines the names and every digest |

## Left out

- The WebSocket library itself (framing, compression, negotiation): its results are free in the model.
- Update in place of the connection, the handler and the cleanup closure: these are shared by goroutines, so they are modelled as states that steps replace, not as objects with methods; aliasing is not captured.
- Panics of observers' finishers inside the client's once, and panics inside the library.
- Errors of forced closes in the redaction results: the code wraps them without redacting them.
- `Read`, `Write` and `Ping` beyond their error path.
- Time: durations are free numbers, timeouts are cancellations at any moment; `int` and `int64` are unbounded, and every counter and limit of the model is shown to stay small.
- URLs, loopback hosts, TLS settings, transports and redirects: the transport check takes "secure" and "loopback" as facts about a request.
- A nil handler or request in `ServeHTTP`, nil interfaces, `Manifest` and build settings: single branches.
- `validateReleaseToolAuthorization`, `validSBOMNamespace`, `validateReleaseRehearsal` and the rest of the release gate: single checks around file reading and JSON decoding; the content of the checksum file is a parameter.
