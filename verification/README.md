# Cloudflared in Dafny

A verification of the parts of cloudflared that are state machines, allocators, reconcilers and codecs. Each
file models one component and proves what it is for over all inputs, or over all runs.

| file | component |
|---|---|
| `Supervisor.dfy` | the run loop that keeps the tunnels to the edge alive |
| `TunnelServer.dfy`, `Protocols.dfy`, `ConnTracker.dfy`, `Backoff.dfy` | what a tunnel does when its connection ends: address rotation, waiting, change of protocol |
| `Orchestrator.dfy` | hot replacement of the proxy while shutdown may begin at any moment |
| `Limiter.dfy` | the flow limiter whose limit is swapped under live holders |
| `AppServices.dfy` | the services run for the forwarders of a configuration file |
| `EchoID.dfy`, `Funnels.dfy`, `ICMPDarwin.dfy`, `ICMPLinux.dfy` | ICMP flows: the echo-ID allocator, the tracker of open flows, and the two proxies built on them |
| `Sessions.dfy`, `DatagramV2.dfy` | UDP sessions: the manager, the sessions, and the remote call that registers and serves them |
| `Datagram.dfy`, `Identity.dfy` | datagram framing and trace identities |
| `Headers.dfy`, `Base64.dfy` | serialised HTTP headers |
| `Socks.dfy` | the SOCKS5 handshake, request and reply |
| `ColonPairs.dfy`, `ColonPairsExact.dfy` | the one-pass search for `key: value` lines, and exactly when it is the lookup |
| `Strings.dfy`, `Strconv.dfy`, `Wrappers.dfy` | string helpers, number parsing, shared types |

## How it is modelled

- Components that update fields in place are classes whose methods are proved equal to functions on the value
  of their fields (`View`); the properties of whole runs are lemmas about those functions.
- A concurrent component is a step system: an event is one critical section, one choice of a `select`, or one
  move of the environment, and carries every value that comes from outside (errors, clock readings, random
  numbers, results of dialing and parsing, the order in which a map is iterated). Runs are arbitrary sequences
  of enabled events.
- Objects shared by reference (flows, sessions, services) live in a sequence, and references are indices into
  it, so that an object that was dropped can still be talked about.
- Fixed-width arithmetic is written out wherever it could wrap: 64-bit backoff shifts and limiter counter,
  16-bit echo IDs, ports and length bytes, the 8-bit retry counter.
- Strings are sequences of characters. In the codecs and in trace identities a character or element is one
  byte; in `ColonPairs` it is a code point of valid UTF-8, whose order is the order of the bytes.
- A hash (`AppServices`) is represented by the text that is hashed, that is, taken to be free of collisions.

## Where the code does not keep the obvious claim

Each of these is a lemma with the exact condition, or a lemma that builds the input.

- A random draw panics when its bound has overflowed to one that is not positive. In the supervisor's loop some
  run does so exactly for budgets above 27 retries (`PanicsIffOver27`), in a tunnel above 33 (`PanicsIffOver33`).
  The idle check of a session panics for a negative hint and for one from 1 to 7 nanoseconds.
- A handler whose grace period has expired reports one second, less than the bound of the timer it then makes
  with the default base time; and without a budget it reports a retry and then refuses the timer.
- The one-pass search is not the per-key lookup when another key's line, with leading blanks, sorts before the
  wanted one (with colons, exactly then: `SearchIsLookup`); after a line without a colon the search index goes
  back and the key takes a later line (prefix-free keys and trimmed lines, exactly when: `CleanSearchIff`); and a
  key that is a prefix of another can take the other's line (for a pair of keys, exactly when: `PairSearchIff`).
  For any keys and any output the exact condition is `SearchIff`.
- On Darwin, replacing a flow because its requests arrive over another connection frees its echo ID while the
  new flow sits under it; the same happens when a flow is cleaned up under a request that is about to use it.
- On Linux, a listener that outlives its flow closes the flow that replaced it when that one got its port.
- Registering a live session ID again leaves the first session open, and its end closes the second.
- A base64 field with line breaks, wherever they stand, comes back with zero bytes behind it, unless there is a
  single break and the length of the field is a multiple of three (`ReadsBackIff`; `FieldIsPadded` for any text).
- A trace with four parts and a trace ID of more than 32 characters panics.
- A connection that failed before it ever connected counts as having connected with HTTP2.
- A forwarder that changes is not restarted when the texts of its hashed fields, written one after the other,
  stay equal: a change of `isFedramp`, which is not hashed, or one that moves text from one field to the next.
  Forwarders that share a listener but differ in that text are restarted at every load.
- The comment of `HasConnectedWith` says "ever"; the code looks at the last protocol of each index.

## Model

| member | source | states |
|---|---|---|
| `Supervisor.InitialInv` | supervisor/supervisor.go:205-246 | with the first tunnel connected the loop starts in a state that satisfies the invariant exactly when at least one connection is configured; every tunnel has a fresh backoff of a second |
| `Supervisor.StepKeeps` | supervisor/supervisor.go:145-199 | every choice of the select and every move of the environment keeps the invariant: the active count is the number of goroutines in flight, each index is in one place, the timer is armed exactly when someone waits unless its draw panicked, the selected signal is one of those connecting |
| `Supervisor.RunKeeps` | supervisor/supervisor.go:138-200 | the invariant holds after every run |
| `Supervisor.RunAccountsForEveryTunnel` | supervisor/supervisor.go:138-200 | after any run from the start, every index is running, waiting or retired, exactly one of them; and when the loop has returned no goroutine is in flight |
| `Supervisor.NeverStuck` | supervisor/supervisor.go:145-199 | until it returns or panics, the loop always has something to receive: a tunnel error, the timer, or the end of the context |
| `Supervisor.DrainReturns` | supervisor/supervisor.go:148-153 | draining receives at most one error per active tunnel and returns exactly when it has received them all |
| `Supervisor.RetiresOnlyWhenAllowed` | supervisor/supervisor.go:156-181 | an index is given up only on shutdown, on cancellation or on a graceful exit, and only by its own error |
| `Supervisor.GraceOnlyWhenSettled` | supervisor/supervisor.go:191-195 | the grace period starts exactly when nothing is left connecting and nothing waits, for a wait drawn below its bound; without a positive bound the draw panics |
| `Supervisor.ShutdownStep` | supervisor/supervisor.go:156-198 | after graceful shutdown every received error and every restart brings the loop strictly closer to its return |
| `Supervisor.ShutdownIsBounded` | supervisor/supervisor.go:156-198 | so a run after graceful shutdown has a bounded number of such steps, and is over once they are used up |
| `Supervisor.OverIsFinal` | supervisor/supervisor.go:177-181 | nothing happens in the loop after it has returned or panicked |
| `Supervisor.GracefulShutdownEnds` | supervisor/supervisor.go:156-197 | from the event of a graceful shutdown in any run from the start, without cancellation: no tunnel joins those that wait, at most twice the waiting plus the active many errors and expiries follow, and after that many the loop is over |
| `Supervisor.ShutdownGivesUp` | supervisor/supervisor.go:159-197 | after that event a tunnel that reports is given up, whatever its error, neither restarted nor queued; the last one ends the loop |
| `Supervisor.ErrorOutcomes` | supervisor/supervisor.go:156-181 | in a run without shutdown and cancellation: a graceful end gives the tunnel up, a reconnect starts it again at once, any other failure makes it wait for the timer |
| `Supervisor.TimerStartsAll` | supervisor/supervisor.go:183-189 | when the timer fires every waiting tunnel is started under a signal of its own, and none waits |
| `Supervisor.CancelEnds` | supervisor/supervisor.go:148-153 | from the cancellation on the loop can always leave, to drain exactly the tunnels in flight |
| `Supervisor.CrashesIff` | supervisor/supervisor.go:168-195 | a step panics exactly when it arms the timer, or starts the grace period, with a bound that is not positive |
| `Supervisor.FittingBudgetNeverCrashes` | retry/backoffhandler.go:82-83 | with a budget for which the shifts fit in 63 bits no run of the loop panics |
| `Supervisor.UpTo27RetriesFit` | supervisor/supervisor.go:141 | with the base of ten seconds they fit exactly for up to 27 retries |
| `Supervisor.PanicsIffOver27` | supervisor/supervisor.go:138-195 | with any number of connections, some run of the loop panics exactly when the budget is above 27 retries |
| `Supervisor.NewSignalAgrees` | supervisor/supervisor.go:313-319 | a new signal is the selected one and one of those connecting |
| `Supervisor.WaitAgrees` | supervisor/supervisor.go:321-330 | dropping an index selects another connecting one, whichever the iteration yields, or none when none is left |
| `Supervisor.Supervisor.constructor` | supervisor/supervisor.go:70-110 | the state before the first tunnel |
| `Supervisor.Supervisor.NewConnectedTunnelSignal` | supervisor/supervisor.go:313-319 | the in-place update is the function of the state that the lemmas are about |
| `Supervisor.Supervisor.StartTunnel` | supervisor/supervisor.go:163-186 | starts one goroutine under a fresh signal |
| `Supervisor.Supervisor.StartTunnels` | supervisor/supervisor.go:185-187 | the loop starts every waiting tunnel, in order |
| `Supervisor.Supervisor.WaitForNextTunnel` | supervisor/supervisor.go:321-330 | the in-place update, and whether a connecting tunnel is left |
| `Supervisor.Supervisor.Initialize` | supervisor/supervisor.go:234-245 | the loop over the remaining connections ends in the state the run starts from |
| `Supervisor.Supervisor.OnTunnelError` | supervisor/supervisor.go:156-181 | the branch for a tunnel error has exactly the effect of that event |
| `Supervisor.Supervisor.QueueTunnel` | supervisor/supervisor.go:171-176 | the failed tunnel waits, its signal is dropped and the timer is armed if it was not, or its draw panics |
| `Supervisor.Supervisor.OnTimer` | supervisor/supervisor.go:183-189 | the branch for the timer has exactly the effect of that event |
| `Supervisor.Supervisor.OnNextConnected` | supervisor/supervisor.go:191-195 | the branch for a connected tunnel has exactly the effect of that event, whose wait is below the grace bound |
| `Supervisor.Supervisor.Handle` | supervisor/supervisor.go:146-198 | one turn of the loop is one step of the state machine |
| `Supervisor.Supervisor.Run` | supervisor/supervisor.go:145-199 | the whole loop is the run of its events, and keeps the invariant |
| `Backoff.ShiftsExact` | retry/backoffhandler.go:49-110 | with a base time such that base times two to the budget plus two fits in 63 bits, all three shifts give the mathematical power, for every retry count the handler can hold |
| `Backoff.FitsIsTight` | retry/backoffhandler.go:104-110 | with a spent budget the grace shift is exact only under that bound |
| `Backoff.ReportAgreesWithTimer` | retry/backoffhandler.go:49-85 | the report says yes exactly when the timer would be made, except for an expired handler without budget that does not retry forever |
| `Backoff.ReportBoundsTimer` | retry/backoffhandler.go:61-85 | outside the expired branch the report is the timer's bound, and twice that once the budget is spent |
| `Backoff.ExpiredReportCoversTimer` | retry/backoffhandler.go:57-60 | in the expired branch the reported second covers the timer's bound exactly for a short enough base time |
| `Backoff.DefaultBaseIsUnderreported` | retry/backoffhandler.go:57-60 | with the default base time it does not |
| `Backoff.RunKeeps` | retry/backoffhandler.go:70-131 | over any run, and for any 64-bit budget, the retries stay within the budget and the parameters never change |
| `Backoff.RunStaysInBudget` | retry/backoffhandler.go:70-131 | and whatever is asked next stays in 64 bits with a positive bound for the random draw |
| `Backoff.TimerAfterGrace` | retry/backoffhandler.go:70-110 | within a grace period the retries count on, after it they begin again; a timer is refused exactly when the budget is spent and the forever flag is not set |
| `Backoff.TimerAfterReset` | retry/backoffhandler.go:57-131 | a reset begins the count again, and later reports a second |
| `Backoff.NewHandlerCounts` | retry/backoffhandler.go:40-85 | a new handler makes exactly as many timers as its budget, or any number with the forever flag, with bounds that double from twice the base on, and a base of one second unless given |
| `Backoff.ForeverRetries` | retry/backoffhandler.go:49-85 | a handler that retries forever is refused only by cancellation |
| `Backoff.BackoffHandler.BackoffTimer` | retry/backoffhandler.go:70-85 | changes the handler as the function says, waits less than the bound, and panics exactly when there is a bound and it is not positive |
| `Backoff.BackoffHandler.SetGracePeriod` | retry/backoffhandler.go:104-110 | sets the deadline to a wait below the grace bound, or panics when that is not positive |
| `Backoff.BackoffHandler.ResetNow` | retry/backoffhandler.go:128-131 | clears the retries and expires the deadline at once |
| `TunnelServer.DialsAreCounted` | supervisor/tunnel.go:154-176 | after any interleaving of indices and errors, the counter of an index is its dial failures modulo the maximum plus one, and each full round was reported exactly once; no 8-bit overflow |
| `TunnelServer.DialsAddUp` | supervisor/tunnel.go:166-172 | counter and reports together account for every dial failure |
| `TunnelServer.InitialInv` | supervisor/supervisor.go:214-218 | the first tunnel starts outside its fallback, within its budget and on the selector's protocol; the others are started by events of the run |
| `TunnelServer.StepKeepsInv` | supervisor/tunnel.go:197-354 | every end of a connection, connect and start of a tunnel keeps: a tunnel in its fallback speaks HTTP2 |
| `TunnelServer.RunKeepsInv` | supervisor/tunnel.go:304-354 | so in every run, whatever the retry budget, a tunnel in its fallback speaks HTTP2 |
| `TunnelServer.ServeKeepsBudget` | supervisor/tunnel.go:241-293 | the end of a connection leaves the retries within the budget, and the parameters alone |
| `TunnelServer.RunKeepsBudget` | supervisor/tunnel.go:241-313 | in every run no tunnel exceeds its budget, which may be any 64-bit number |
| `TunnelServer.NeverPanics` | retry/backoffhandler.go:70-85 | with a budget of up to 33 retries every tunnel makes its timer without a panic, at every point of every run |
| `TunnelServer.PanicsIffOver33` | supervisor/tunnel.go:259-270 | from the start, some run ends in the panic of a timer exactly when the budget is above 33 retries |
| `TunnelServer.FallsBackOnceBetweenConnects` | supervisor/tunnel.go:304-354 | between two connects a tunnel falls back at most once, exactly when it ends in its fallback without having been there, and then keeps its protocol |
| `TunnelServer.PinnedStays` | connection/protocol.go:110-120 | a pinned protocol never changes on any tunnel, in any run |
| `TunnelServer.ChangesOnlyUntried` | supervisor/tunnel.go:271-291 | the end of a connection changes the protocol only if no connection that had any event last connected with the current one, counting as HTTP2 those that never connected |
| `TunnelServer.FallsBackIff` | supervisor/tunnel.go:241-291 | with QUIC current and untried, a tunnel falls back exactly when its timer is made and fires, a fallback is due, and QUIC is broken or the retries are used up |
| `TunnelServer.WaitingUsesRetries` | supervisor/tunnel.go:259-313 | a tunnel that falls back starts with a whole retry budget; otherwise waiting uses up one retry, if one is left |
| `TunnelServer.FollowsSelector` | supervisor/tunnel.go:346-352 | a tunnel outside its fallback that chooses and does not fall back ends on the selector's current protocol exactly when it was on it, or has a retry left after this one and QUIC is not broken |
| `TunnelServer.WaitsIff` | supervisor/tunnel.go:241-275 | a tunnel that needs a new address and gets none, or is cancelled, is left as it was; otherwise its backoff moves on |
| `TunnelServer.ConnectEndsFallback` | supervisor/tunnel.go:304-307 | from a connect to the next a tunnel begins outside its fallback with all its retries and falls back at most once, exactly when it ends in its fallback |
| `TunnelServer.BrokenQuicFallsBack` | supervisor/tunnel.go:317-368 | a tunnel that starts where QUIC is broken is on HTTP2 after the first wait |
| `TunnelServer.ServeKeepsFallback` | supervisor/tunnel.go:241-293 | one end of a connection never leaves the fallback, and enters it only by a switch, and then to HTTP2 |
| `TunnelServer.IpAddrFallback.ShouldGetNewAddress` | supervisor/tunnel.go:154-176 | which errors need a new address, which are connectivity errors, and the new counter |
| `TunnelServer.ProtocolFallback.Reset` | supervisor/tunnel.go:304-307 | a connect resets the backoff and ends the fallback, but keeps the protocol |
| `TunnelServer.ProtocolFallback.FallBack` | supervisor/tunnel.go:309-313 | a fallback resets the backoff and changes the protocol |
| `TunnelServer.ProtocolFallback.SelectNextProtocol` | supervisor/tunnel.go:317-354 | the protocol and fallback afterwards, and that no option is left exactly when a change is due and impossible |
| `TunnelServer.EdgeTunnelServer.FinishServe` | supervisor/tunnel.go:241-293 | the decision after a connection ended, over all its early returns, for any handler; and that it panics exactly when it would wait for a timer whose bound is not positive |
| `Protocols.FirstNaming` | edgediscovery/protocol.go:30-37 | the first entry of the list that names a protocol, upper or lower case |
| `Protocols.GetPercentage` | edgediscovery/protocol.go:30-37 | the loop returns the percentage of that entry, or zero |
| `Protocols.PercentageIs` | edgediscovery/protocol.go:30-37 | it is the percentage of the first entry that names the protocol, and zero when none does |
| `Protocols.NamesIff` | edgediscovery/protocol.go:31-33 | which names count for QUIC and HTTP2, letter by letter |
| `Protocols.NamesOne` | edgediscovery/protocol.go:30-37 | no entry counts for both protocols |
| `Protocols.FirstAbove` | connection/protocol.go:186-191 | the first protocol of the pool above the threshold |
| `Protocols.Chosen` | connection/protocol.go:181-195 | the chosen protocol is one of the pool |
| `Protocols.ChosenIsFirst` | connection/protocol.go:181-195 | it is the first of the pool whose percentage is above the threshold, or the first of all when none is |
| `Protocols.GetProtocol` | connection/protocol.go:181-195 | the loop finds it, or fails with the fetch |
| `Protocols.RemoteProtocolSelector.Current` | connection/protocol.go:157-173 | the answer is refreshed only when its time to live has run out and the fetch succeeded |
| `ConnTracker.RecordIsHistory` | tunnelstate/conntracker.go:40-60 | for any events, what the record says of an index is its last connected protocol, or HTTP2, and whether the last event that counts connected it |
| `ConnTracker.HasRecordIff` | tunnelstate/conntracker.go:76-85 | having connected with a protocol is exactly: some index that had an event last connected with it, HTTP2 standing in for never |
| `ConnTracker.FailureCountsAsHTTP2` | tunnelstate/conntracker.go:51-56 | one failure before any connect makes HTTP2 look tried |
| `ConnTracker.Tracker.OnTunnelEvent` | tunnelstate/conntracker.go:40-60 | the in-place update is the function of the record |
| `ConnTracker.Tracker.CountActiveConns` | tunnelstate/conntracker.go:62-72 | the number of connected indices |
| `ConnTracker.ActiveIsHistory` | tunnelstate/conntracker.go:40-72 | the connected indices are those whose last event that counts connected them |
| `ConnTracker.Tracker.HasConnectedWith` | tunnelstate/conntracker.go:76-85 | whether some record has the protocol |
| `Orchestrator.InitialInv` | orchestration/orchestrator.go:51-75 | the constructor's own update starts within the invariant |
| `Orchestrator.StepKeeps` | orchestration/orchestrator.go:78-201 | every micro-step of an update, the beginning of shutdown and the waiter keep the invariant of generations, versions and coherence |
| `Orchestrator.RunKeeps` | orchestration/orchestrator.go:78-277 | so does every run |
| `Orchestrator.GenerationsCloseOnce` | orchestration/orchestrator.go:189-277 | at every point of every run: no generation is closed twice, the stored proxy's generation is open until the waiter has run, afterwards every installed one was closed exactly once, and one whose start failed never is |
| `Orchestrator.NothingAfterTheWaiter` | orchestration/orchestrator.go:150-155 | after the waiter nothing is installed or closed any more |
| `Orchestrator.AppliedVersionsIncrease` | orchestration/orchestrator.go:82-113 | applied versions strictly increase, the current one is the last, and with the lock free proxy, configuration, limit and dialer belong together |
| `Orchestrator.RefusedUpdateChangesNothing` | orchestration/orchestrator.go:82-177 | an update is refused exactly when its version is not newer, it cannot be read, shutdown has begun, the local flow limit is no decimal of 64 bits, or the origins do not start; and then version, proxy, configuration, limit and dialer stay |
| `Orchestrator.AcceptedUpdateApplies` | orchestration/orchestrator.go:103-177 | otherwise it ends with its version, its rules behind the internal ones or the default for none, its dialer, and the local flow limit, or the remote one without a local, and the old generation closed, even if shutdown begins in between |
| `Orchestrator.ConstructorApplies` | orchestration/orchestrator.go:51-75 | the same for the configuration the constructor is given |
| `Orchestrator.ShutdownEndsUpdates` | orchestration/orchestrator.go:150-155 | from the beginning of shutdown on no update gets through, and the waiter can run or has run |
| `Orchestrator.OverrideMaxActiveFlows` | orchestration/orchestrator.go:131-147 | a local flow limit, if it is a decimal of 64 bits, takes the place of the remote one |
| `Strconv.DecimalParses` | orchestration/orchestrator.go:139 | a number written in decimal parses to itself exactly when it is below the limit |
| `Orchestrator.Orchestrator.Configure` | orchestration/orchestrator.go:51-75 | the constructor succeeds exactly when the checks pass, and has then applied its configuration |
| `Orchestrator.Orchestrator.Prepare` | orchestration/orchestrator.go:150-177 | the checks that can refuse, and what they leave behind |
| `Orchestrator.Orchestrator.Replace` | orchestration/orchestrator.go:179-200 | the steps after the checks, with shutdown possible before each, are a run of micro-steps |
| `Orchestrator.Orchestrator.ClosePrevious` | orchestration/orchestrator.go:195-198 | the channel that is closed is still open |
| `Orchestrator.Orchestrator.UpdateConfig` | orchestration/orchestrator.go:78-123 | the call is a run of micro-steps; an accepted update is applied with its values, the response names the applied version, and reports failure exactly for a newer version that was refused |
| `Orchestrator.Orchestrator.WaitToCloseLastProxy` | orchestration/orchestrator.go:268-277 | the waiter's step, closing a channel that is still open |
| `Limiter.StepCounts` | flow/limiter.go:42-64 | one acquire, release or change of limit keeps the counter equal to the number of holders, and a release never meets the guard |
| `Limiter.RunCounts` | flow/limiter.go:42-64 | so does every run in which holders release what they acquired |
| `Limiter.LimitHolds` | flow/limiter.go:42-72 | after a limit is set, holders stay at most the larger of it and those already there, until it changes; flows are refused exactly at the limit |
| `Limiter.UnlimitedNeverRefuses` | flow/limiter.go:66-75 | an unlimited limiter refuses nobody |
| `Limiter.ZeroAdmitsAll` | flow/limiter.go:66-76 | from the moment the limit is set to zero, whatever it was, every flow is let in until it changes |
| `Limiter.LimitAdmitsBelow` | flow/limiter.go:42-76 | from the moment it is set to another number there are never more flows than that, unless they were there already, and a new one is let in exactly while there are fewer |
| `Limiter.NewLimiterAdmits` | flow/limiter.go:32-53 | the same for the limit that a limiter is made with |
| `Limiter.FlowLimiter.Acquire` | flow/limiter.go:42-53 | counts a flow, or refuses exactly when full |
| `Limiter.FlowLimiter.Release` | flow/limiter.go:55-64 | gives one back, never below zero |
| `Limiter.FlowLimiter.SetLimit` | flow/limiter.go:66-72 | swaps the limit and leaves the counter |
| `Limiter.FlowLimiter.ProxyTCP` | proxy/proxy.go:156-175 | every exit of a TCP flow leaves the limiter as it was |
| `AppServices.UpdateKeepsInv` | cmd/cloudflared/app_service.go:67-84 | an update keeps: each started service is managed and was never asked to stop, or was asked exactly once |
| `AppServices.UpdateInstallsConfig` | cmd/cloudflared/app_service.go:67-84 | afterwards the managed names are the configured listeners, each with a service that hashes like the last forwarder of that listener |
| `AppServices.UntouchedIff` | cmd/cloudflared/app_service.go:67-84 | a running service is untouched exactly when its listener is still configured and all its forwarders hash like it, and is otherwise stopped once |
| `AppServices.ReloadIsQuietIff` | overwatch/app_manager.go:23-35 | loading the same configuration again disturbs nothing exactly when forwarders that share a listener hash alike |
| `AppServices.FedrampChangeIsMissed` | config/model.go:36-44 | a change of `isFedramp` alone leaves the old service running, in any state |
| `AppServices.RestartedIff` | overwatch/app_manager.go:23-35 | a running service goes on with its old forwarder exactly when the fields of the new one, written one after the other, give the same text; otherwise the new forwarder runs |
| `AppServices.ChangeIsMissedIff` | config/model.go:36-44 | the same from a new manager: after one forwarder and then another of the same listener, the first runs exactly when the texts are equal |
| `AppServices.BoundaryShiftIsMissed` | config/model.go:36-44 | moving the beginning of the secret to the end of the client ID leaves the old service running |
| `AppServices.EveryServiceStopsOnce` | cmd/cloudflared/app_service.go:53-65 | over any updates and the final shutdown, every service ever started is asked to stop exactly once, so the send to its channel of capacity one never blocks |
| `AppServices.LastConfigWins` | cmd/cloudflared/app_service.go:53-84 | after any updates the services are those of the last configuration |
| `AppServices.AddKeepsInv` | overwatch/app_manager.go:23-35 | adding a service asks only a service with room in its channel to stop |
| `AppServices.RemoveKeepsInv` | overwatch/app_manager.go:38-43 | so does removing one |
| `AppServices.AppManager.Shutdown` | cmd/cloudflared/app_forward_service.go:44-46 | a send that has room in the channel |
| `AppServices.AppManager.Add` | overwatch/app_manager.go:23-35 | keeps a service that hashes alike, otherwise stops it and starts the new one |
| `AppServices.AppManager.Remove` | overwatch/app_manager.go:38-43 | stops and forgets the service of a name |
| `AppServices.AppManager.Services` | overwatch/app_manager.go:46-52 | every managed service once, in any order |
| `AppServices.AppService.HandleConfigUpdate` | cmd/cloudflared/app_service.go:67-84 | the two loops have exactly the effect of the update |
| `AppServices.AppService.RemoveInactive` | cmd/cloudflared/app_service.go:78-83 | everything not configured is stopped and forgotten, and nothing else touched |
| `AppServices.AppService.ActionLoop` | cmd/cloudflared/app_service.go:53-65 | updates one after the other, then every managed service asked to stop |
| `AppServices.AppService.StopAll` | cmd/cloudflared/app_service.go:58-62 | every managed service is asked to stop once |
| `EchoID.StepKeepsInv` | ingress/icmp_darwin.go:56-103 | no two flows share an ID, an ID is marked exactly when a flow has it, the cursor stays in range |
| `EchoID.RunKeepsInv` | ingress/icmp_darwin.go:56-103 | over every run of assignments and releases |
| `EchoID.RefusesIffFull` | ingress/icmp_darwin.go:56-83 | a flow is refused exactly when it has no ID and all 65535 are taken |
| `EchoID.AssignsFirstFree` | ingress/icmp_darwin.go:64-82 | a new flow gets a free ID, and all between the cursor and it, going round, are taken |
| `EchoID.JustReleasedIsReusedLast` | ingress/icmp_darwin.go:86-103 | an ID released straight after it was assigned goes to another flow exactly when every other ID is taken |
| `EchoID.StableUntilRelease` | ingress/icmp_darwin.go:59-62 | a flow keeps its ID and nobody else gets it until the flow releases it |
| `EchoID.FreeDistance` | ingress/icmp_darwin.go:68-81 | the least distance from the cursor at which an ID is free |
| `EchoID.EchoIDTracker.constructor` | ingress/icmp_darwin.go:49-53 | no ID assigned |
| `EchoID.EchoIDTracker.GetOrAssign` | ingress/icmp_darwin.go:56-83 | the in-place allocator is the function the lemmas are about |
| `EchoID.EchoIDTracker.FindFree` | ingress/icmp_darwin.go:68-82 | the two loops find the first free ID in cyclic order, and no 16-bit sum wraps |
| `EchoID.EchoIDTracker.Set` | ingress/icmp_darwin.go:86-90 | marks, maps and moves the cursor behind the ID |
| `EchoID.EchoIDTracker.Release` | ingress/icmp_darwin.go:92-103 | releases exactly the ID its flow has |
| `Funnels.StepKeepsInv` | packet/funnel.go:90-151 | each operation keeps: every flow is registered and never closed, or unregistered and closed once |
| `Funnels.RunKeepsInv` | packet/funnel.go:90-151 | over every run; and a closed flow stays closed |
| `Funnels.CleanupClosesIdle` | packet/funnel.go:90-102 | cleanup closes and forgets exactly the registered flows idle past the timeout |
| `Funnels.UsedFlowIsKept` | packet/funnel.go:48-102 | a flow used at a time survives, whatever happens to others, every cleanup up to the timeout after the second of that use, and the first one after it closes the flow |
| `Funnels.NewFlowIsKept` | packet/funnel.go:42-102 | the same for a flow made at a time |
| `Funnels.RegisterReplacesIff` | packet/funnel.go:114-135 | under an ID in use the flow stays exactly when it has the same responder; otherwise it is closed, and replaced if the new one can be made |
| `Funnels.UnregisterClosesIff` | ingress/icmp_posix.go:68-83 | unregistering closes the current flow exactly when source and both echo IDs are the same |
| `Funnels.FunnelTracker.Get` | packet/funnel.go:104-109 | the funnel under an ID |
| `Funnels.FunnelTracker.GetOrRegister` | packet/funnel.go:114-135 | reuse, replacement, or failure that leaves the ID unregistered |
| `Funnels.FunnelTracker.Unregister` | packet/funnel.go:138-151 | closes the current funnel when it equals the given one |
| `Funnels.FunnelTracker.Cleanup` | packet/funnel.go:90-102 | the deleting loop, in any order of the map, ends with exactly the idle funnels closed |
| `Funnels.FunnelTracker.Close` | ingress/icmp_posix.go:85-88 | closes one flow and forgets its ID |
| `Funnels.FunnelTracker.UpdateLastActive` | packet/funnel.go:48-50 | activity in whole seconds |
| `ICMPDarwin.StepAgreesIff` | ingress/icmp_darwin.go:130-195 | from agreement of allocator and funnels, a step keeps it exactly when it neither replaces a funnel nor closes one that a request is about to use |
| `ICMPDarwin.RunAgrees` | ingress/icmp_darwin.go:130-195 | every run without such steps keeps the agreement |
| `ICMPDarwin.AgreementAtRest` | ingress/icmp_darwin.go:146-168 | with no request under way the funnel IDs are the assigned IDs |
| `ICMPDarwin.ReplyReachesOwner` | ingress/icmp_darwin.go:254-276 | a reply to an ID goes to the source of the flow that owns it, with its original echo ID |
| `ICMPDarwin.RequestRoundTrip` | ingress/icmp_posix.go:95-137 | from a request until its funnel is closed, whatever else happens, a reply to the ID it sent comes back to its source and echo ID |
| `ICMPDarwin.RequestIsActivity` | ingress/icmp_posix.go:95-137 | a request keeps its flow for a whole timeout |
| `ICMPDarwin.ReplyIsActivity` | ingress/icmp_darwin.go:254-276 | so does a reply |
| `ICMPDarwin.ReplacingBreaks` | ingress/icmp_darwin.go:160-168 | a replacement leaves a funnel under an ID that is free |
| `ICMPDarwin.EvictAgreesUnlessAwaited` | packet/funnel.go:95-101 | closing an idle flow keeps the agreement exactly when no request awaits it |
| `ICMPDarwin.CleanupIsRun` | packet/funnel.go:90-102 | a cleanup, in any order, is a run of such closings |
| `ICMPDarwin.ReplacementStrandsFunnel` | ingress/icmp_posix.go:177-202 | a run from a new proxy in which a second connection breaks the agreement |
| `ICMPDarwin.StrandedFunnelMisroutes` | ingress/icmp_darwin.go:146-168 | the next flow to get such an ID has its replies sent to the owner of the old funnel |
| `ICMPDarwin.ReplacementMisroutes` | ingress/icmp_darwin.go:130-195 | a run from a new proxy, of a replacement and 65534 more flows, after which replies to the ID of any chosen flow go to the source of the replaced one |
| `ICMPDarwin.ICMPProxy.Request` | ingress/icmp_darwin.go:130-195 | an undisturbed request is the two steps, and sends the ID its key owns |
| `ICMPDarwin.ICMPProxy.RunCloseCallback` | ingress/icmp_darwin.go:160-163 | a replaced flow releases its ID |
| `ICMPDarwin.ICMPProxy.SendReply` | ingress/icmp_darwin.go:254-276 | where a reply is delivered, or that no funnel is found |
| `ICMPLinux.StepKeepsInv` | ingress/icmp_linux.go:99-164 | every open flow has its listener |
| `ICMPLinux.RunKeepsInv` | ingress/icmp_linux.go:99-164 | over every run, so no flow is leaked |
| `ICMPLinux.ListenerClosesItsFlow` | ingress/icmp_linux.go:153-156 | when a listener ends its own flow is closed, exactly once in all |
| `ICMPLinux.ClosesAnotherIff` | ingress/icmp_posix.go:68-83 | a listener closes a flow not its own exactly when that one has its key and its port |
| `ICMPLinux.StepSeparatesIff` | ingress/icmp_linux.go:111-136 | a step makes that possible exactly when it opens a socket on the port of a lingering listener of the same key |
| `ICMPLinux.ListenersCloseTheirOwn` | ingress/icmp_linux.go:146-157 | on runs without such reuse a listener closes no flow but its own |
| `ICMPLinux.LingeringListenerClosesReplacement` | ingress/icmp_linux.go:146-157 | a run with reuse in which it does |
| `ICMPLinux.RequestIsActivity` | ingress/icmp_linux.go:99-164 | a request keeps its flow for a whole timeout |
| `ICMPLinux.ReplyIsActivity` | ingress/icmp_linux.go:146-157 | so does a reply |
| `ICMPLinux.ICMPProxy.Request` | ingress/icmp_linux.go:99-164 | fetches or opens a flow, and spawns a listener exactly for a new one |
| `ICMPLinux.ICMPProxy.ListenerDone` | ingress/icmp_linux.go:153-156 | the end of a listener |
| `Sessions.RegisterKeepsInv` | datagramsession/manager.go:128-133 | registration keeps: a session in the map has that ID and was never closed by the manager, one outside was overwritten or closed once, and the gauge exceeds the map by the overwritten |
| `Sessions.UnregisterKeepsInv` | datagramsession/manager.go:173-180 | so does unregistering, and the session it closes has room in its queue |
| `Sessions.ShutdownKeepsInv` | datagramsession/manager.go:93-108 | so does shutdown |
| `Sessions.ReaderNeverBlocks` | datagramsession/session.go:69-71 | the reader finds room in the queue too |
| `Sessions.TakeKeepsSessionInv` | datagramsession/session.go:100-101 | every close sent is queued or was taken |
| `Sessions.Manager.constructor` | datagramsession/manager.go:57-68 | no session, nothing counted |
| `Sessions.Manager.RegisterSession` | datagramsession/manager.go:128-150 | a new session under its ID, overwriting what was there |
| `Sessions.Manager.UnregisterSession` | datagramsession/manager.go:173-180 | closes and forgets the session of an ID, if there is one |
| `Sessions.Manager.ShutdownSessions` | datagramsession/manager.go:93-108 | the loop, in any order, closes every session as the remote's and empties the map |
| `Sessions.Manager.SendToSession` | datagramsession/manager.go:182-191 | a datagram goes to the session of its ID, which the manager has not closed |
| `Sessions.WaitForCloseCondition` | datagramsession/session.go:83-111 | it panics exactly for a hint whose eighth is not positive; otherwise it has ended by the first cancellation, close reason, or tick that is later by more than the allowed time than the start and every mark, and ends with that cancellation, that reason or as idle, the last only after such a time since the start or some mark |
| `Sessions.ActivityKeepsAlive` | datagramsession/session.go:95-145 | activity that was not dropped, within the allowed time of a tick that finds the channel drained, prevents the idle exit there |
| `Sessions.ChannelIsQueue` | datagramsession/session.go:108-145 | the last activity accepted is the youngest in the channel, or the last received when it is empty |
| `Sessions.ReceiveTakesOldest` | datagramsession/session.go:108 | receiving takes the oldest of the times that wait, and makes it the last activity |
| `Sessions.MarkWaits` | datagramsession/session.go:138-145 | a mark waits behind the others, unless two wait already |
| `Sessions.DroppedIffTwoPending` | datagramsession/session.go:138-145 | activity is dropped exactly when two are waiting to be received |
| `Sessions.DstToTransport` | datagramsession/session.go:113-127 | the reader ends on a failed read, unless it brought bytes whose sending failed |
| `DatagramV2.ManagerStepKeepsInv` | connection/quic_datagram_v2.go:113-214 | every step of calls, servers, readers and manager keeps the manager's invariant |
| `DatagramV2.NobodyBlocksOnClose` | datagramsession/manager.go:145-147 | whoever closes a session finds room in its queue, and each side closes it at most once |
| `DatagramV2.StepKeepsInv` | connection/quic_datagram_v2.go:113-214 | and the partition of the limiter's holders into calls, servers and others |
| `DatagramV2.StepIsLimiterStep` | connection/quic_datagram_v2.go:122-174 | each exit releases the slot that its call acquired, and nothing else |
| `DatagramV2.RunKeepsInv` | connection/quic_datagram_v2.go:113-214 | over every run: sessions closed once or overwritten, the gauge off by the overwritten, the limiter counting its holders |
| `DatagramV2.CounterIsLive` | connection/quic_datagram_v2.go:122-174 | the limiter's counter is the number of calls in progress, live sessions and other holders |
| `DatagramV2.EndClosesAnotherIff` | connection/quic_datagram_v2.go:195-214 | a server that ends closes another session exactly when that one has taken its ID |
| `DatagramV2.StepSeparatesIff` | connection/quic_datagram_v2.go:162-174 | which a step makes possible exactly by registering the ID of a session whose server has not ended |
| `DatagramV2.ServersCloseTheirOwn` | connection/quic_datagram_v2.go:195-214 | on runs with fresh IDs a server that ends closes no session but its own |
| `DatagramV2.ReusedIDClosesSuccessor` | datagramsession/manager.go:128-133 | registering a live ID again: the first session is never closed by the manager, and its end closes the second |
| `DatagramV2.ReuseRun` | connection/quic_datagram_v2.go:113-214 | a run from a new connection in which this happens |
| `DatagramV2.RunForgetsEnded` | connection/quic_datagram_v2.go:195-214 | a session that ended is not in the map, unless its last message to the manager timed out |
| `DatagramV2.ShutdownClosesAll` | datagramsession/manager.go:93-108 | shutdown empties the map, closes all in it as the remote's, and leaves the gauge at the number overwritten |
| `DatagramV2.ShutdownIsFinal` | datagramsession/manager.go:93-108 | from a shutdown on no session is registered and none is in the map |
| `DatagramV2.CloseReachesServer` | datagramsession/session.go:60-101 | a session that the remote closes ends at once and frees its slot; closed by anybody else its server holds the slot until it has ended |
| `DatagramV2.ReaderFailureEnds` | connection/quic_datagram_v2.go:190-214 | when the origin fails, the server ends, the manager forgets the session and the slot is free |
| `DatagramV2.Connection.RegisterUdpSession` | connection/quic_datagram_v2.go:114-188 | success exactly when every check passes; every failure gives the slot back |
| `DatagramV2.Connection.FinishServing` | connection/quic_datagram_v2.go:171-214 | the end of a server: the manager told unless the remote closed, and one slot given back |
| `Datagram.ReceivedIsSentIff` | quic/datagramv2.go:75-214 | what is sent is received with its kind, payload and metadata exactly when an identity it carries has 25 bytes |
| `Datagram.SendsIffItFits` | quic/datagramv2.go:39-110 | a message goes out exactly when it fits, and its frame is payload, metadata and type |
| `Datagram.WireFormat` | quic/datagramv2.go:16-25 | the bytes of each kind: payload, then 16 bytes of session ID, nothing or an identity, then the type 0, 1, 2 or 3 |
| `Datagram.MTUAlwaysFits` | quic/param_unix.go:5-9 | a session payload goes out exactly when it is within the MTU, under both parameter sets |
| `Datagram.FramesAreDistinct` | quic/datagramv2.go:75-110 | no two messages share a frame |
| `Datagram.UnderstoodIsFramed` | quic/datagramv2.go:138-214 | every frame that is understood is the frame of what it is understood as |
| `Datagram.Append` | quic/datagram.go:119-124 | an append, in place or not, leaves the payload and all around it unchanged |
| `Datagram.AppendMetadata` | quic/datagram.go:115-124 | the size check and the metadata behind the payload |
| `Datagram.AppendType` | quic/datagramv2.go:39-45 | the size check and the type byte |
| `Datagram.SendSlice` | quic/datagramv2.go:97-109 | both suffixes on one buffer, with the payload intact |
| `Datagram.SendToSession` | quic/datagramv2.go:75-92 | the frame of a session datagram, or nothing when it exceeds the MTU |
| `Datagram.SendPacket` | quic/datagramv2.go:97-110 | the frame of a packet, or nothing when it does not fit |
| `Identity.TextRoundTrip` | tracing/identity.go:26-97 | every identity printed and parsed is itself again |
| `Identity.PrintsAs` | tracing/identity.go:26-28 | 32 lower-case digits for the trace, then span and flags without leading zeros, around a zero |
| `Identity.PrintIsInjective` | tracing/identity.go:26-28 | no two identities print alike |
| `Identity.ParsesIff` | tracing/identity.go:65-110 | exactly which texts are accepted, which panic, and that the fields are the numbers the parts spell |
| `Identity.PaddingKeepsValue` | tracing/identity.go:99-110 | padding keeps the number, and makes no digit of what is none |
| `Identity.CanonicalForm` | tracing/identity.go:65-97 | the printed form of what was parsed parses to the same |
| `Identity.BinaryRoundTrip` | tracing/identity.go:30-63 | every identity survives its binary form |
| `Identity.MarshalsAs` | tracing/identity.go:30-43 | byte by byte: three numbers of eight bytes, most significant first, and the flags |
| `Identity.UnmarshalIsOnto` | tracing/identity.go:45-63 | any 25 bytes are the binary form of what they are read as, and further bytes are ignored |
| `Identity.Identity.MarshalBinary` | tracing/identity.go:30-43 | the loop over the fields writes the binary form |
| `Identity.Identity.UnmarshalBinary` | tracing/identity.go:45-63 | fills the receiver, or leaves it alone when the text is short |
| `Headers.SerializeRoundTrip` | connection/header.go:69-148 | for any list of headers, empty names and values included, deserialising gives it back, and the length is the computed one less one |
| `Headers.SerializeIsInjective` | connection/header.go:69-112 | no two header lists serialise alike |
| `Headers.SerializesAs` | connection/header.go:100-109 | `name:value` in base64, with a semicolon before all but the first |
| `Headers.DeserializesIff` | connection/header.go:115-148 | a text is read exactly when every part that is not empty has one colon and both sides decode, and gives one header for each |
| `Headers.LenIsOrderFree` | connection/header.go:71-86 | the computed length does not depend on the iteration order |
| `Headers.FieldIsPadded` | connection/header.go:131-139 | any text reads back exactly when it decodes, as what it decodes to and as many zeros as its line breaks add to the computed length; unchanged exactly when they add none |
| `Headers.ReadsBackIff` | connection/header.go:131-139 | an encoded field with line breaks in any places reads back as what was encoded exactly when there is none, or one and the length is a multiple of three |
| `Headers.LineBreakPadsField` | connection/header.go:131-139 | in particular a line feed behind a field adds a zero byte exactly when the field's length is no multiple of three |
| `Headers.Measure` | connection/header.go:71-86 | the first pass: length and longest encoding |
| `Headers.MeasureEntry` | connection/header.go:74-85 | its inner loop |
| `Headers.WriteB64` | connection/header.go:91-98 | encodes, replacing the scratch buffer only when it is too small |
| `Headers.SerializeHeaders` | connection/header.go:69-112 | with the two passes in any two orders, the text deserialises to the headers in the second order, has the computed length, and the buffer is never replaced |
| `Headers.WriteAll` | connection/header.go:100-109 | the second pass |
| `Headers.WriteHeader` | connection/header.go:102-107 | one header, behind a separator unless it is the first |
| `Headers.DeserializeHeaders` | connection/header.go:115-148 | the loop over the pairs, with all its failures |
| `Base64.RoundTrip` | connection/header.go:91-139 | decoding undoes unpadded encoding, and fills the buffer of the computed size |
| `Base64.EncodesByGroups` | connection/header.go:91-98 | the encoding is made group by group of three bytes |
| `Base64.EncodesGroup` | connection/header.go:91-98 | and ends with two or three letters for one or two bytes left over, filled up with zero bits |
| `Base64.GroupSpells` | connection/header.go:91-98 | four letters spell the number that their three bytes do |
| `Base64.BreaksAreSkipped` | connection/header.go:131-139 | carriage returns and line feeds may stand anywhere |
| `Base64.DecodesIff` | connection/header.go:131-139 | without them exactly letters decode, and not one more than a multiple of four |
| `Base64.EncodeLength` | connection/header.go:75-76 | the encoded length is the computed one |
| `Base64.DecodeFits` | connection/header.go:131-139 | what is decoded never exceeds the buffer |
| `Socks.ReplyReadsBackIff` | socks/request.go:101-195 | the address of a reply is read back, up to normalisation and to the last byte, exactly when its name has at most 255 bytes and its port is one |
| `Socks.AddressReads` | socks/request.go:147-195 | wherever it stands, reading an address takes exactly its own bytes |
| `Socks.HandshakeLocal` | socks/connection_handler.go:31-57 | a successful handshake depends on its own bytes only, so what follows is what is proxied |
| `Socks.HandshakePrefixFree` | socks/connection_handler.go:31-57 | and needs them all |
| `Socks.ClientIsServed` | socks/connection_handler.go:31-57 | a client that offers no authentication and sends a request is answered, understood, and the rest left to the proxy |
| `Socks.UnsupportedIsRefused` | socks/auth_handler.go:47-64 | without a supported method the client is told so |
| `Socks.UserIsChecked` | socks/authenticator.go:40-87 | a client with user name and password is let in and its request read exactly when they are valid, with the bytes of RFC 1929 |
| `Socks.OthersAreRefused` | socks/connection_handler.go:31-57 | other versions and kinds of address are refused |
| `Socks.AddressOnWire` | socks/request.go:101-138 | the bytes of an address: kind, body, port with the high byte first |
| `Socks.ReplyOnWire` | socks/request.go:101-143 | the bytes of a reply, and which addresses have none |
| `Socks.FirstSupported` | socks/auth_handler.go:54-59 | the first supported method in the client's order |
| `Socks.ReadAddrSpecFrom` | socks/request.go:147-195 | the reader is the function the lemmas are about |
| `Socks.NewRequest` | socks/request.go:75-99 | a request read from the stream, and the stream left behind it |
| `Socks.SendReply` | socks/request.go:101-143 | the bytes of a reply, or a failure to format it |
| `Socks.FormatMessage` | socks/request.go:130-138 | the message filled in by index |
| `Socks.AuthenticateFrom` | socks/authenticator.go:21-87 | both authentication methods: what is read and what is written |
| `Socks.StandardAuthHandler.constructor` | socks/auth_handler.go:33-39 | no-authentication is supported at first |
| `Socks.StandardAuthHandler.Register` | socks/auth_handler.go:42-44 | adds or replaces a method |
| `Socks.StandardAuthHandler.Handle` | socks/auth_handler.go:47-76 | the loop uses the first supported method |
| `Socks.StandardConnectionHandler.ServeStream` | socks/connection_handler.go:32-57 | the whole handshake up to the request handler |
| `ColonPairs.SearchIsLookup` | diagnostic/system_collector_utils.go:13-62 | with a colon in the lines that matter and no line least for two keys, the one-pass search is the per-key lookup exactly when no line is overtaken |
| `ColonPairs.CleanSearchIsLookup` | diagnostic/system_collector_utils.go:13-62 | for prefix-free keys and trimmed lines it is the lookup |
| `ColonPairs.PairSearchIsLookup` | diagnostic/system_collector_macos.go:140-141 | also for a key and its extension by an underscore, because the colon sorts before it |
| `ColonPairs.TrimmedNotOvertaken` | diagnostic/system_collector_utils.go:36-38 | trimmed lines are never overtaken |
| `ColonPairs.PrefixFreeIsDistinct` | diagnostic/system_collector_utils.go:36-38 | with prefix-free keys no line is least for two |
| `ColonPairs.FieldIs` | diagnostic/system_collector_utils.go:39-51 | the field of a line is what stands between its first two colons, or behind the only one, trimmed |
| `Strings.TrimSpaceIs` | diagnostic/system_collector_utils.go:36 | trimming takes away spaces on both sides and nothing else |
| `Strings.SpacesAre` | diagnostic/system_collector_utils.go:36 | which characters are space |
| `ColonPairs.IndentedLineOvertakes` | diagnostic/system_collector_utils.go:22-38 | two keys and two lines, one indented, on which the search is not the lookup |
| `ColonPairs.ColonlessLineIsRetried` | diagnostic/system_collector_utils.go:22-44 | an output of three lines, one without a colon, on which the index goes back and the search holds a pair that the lookup does not |
| `ColonPairs.LongKeyLineIsTaken` | diagnostic/system_collector_utils.go:22-38 | an output whose one line belongs to a longer key and is taken by its prefix |
| `ColonPairsExact.SearchIff` | diagnostic/system_collector_utils.go:13-62 | for any keys and any output: the search is the lookup exactly when every key is served, that is, the last line with an accepted field that the walk hands to it has the field of its least line, or there is no such line and the least line has no accepted field |
| `ColonPairsExact.PairSearchIff` | diagnostic/system_collector_utils.go:13-62 | for a key and one that extends it, on any output: the search is the lookup exactly when the least line of the long key has the same field as its first line with a colon behind the line the short key took |
| `ColonPairsExact.PairSearchCases` | diagnostic/system_collector_utils.go:36-44 | when the long key's lines have colons: exactly when it has no line, the short key has a line of its own before them, or the first two of them have the same field |
| `ColonPairsExact.CleanSearchIff` | diagnostic/system_collector_utils.go:36-44 | for prefix-free keys and trimmed lines, with or without colons: the search is the lookup exactly when no key is retaken, that is, has a least line without a colon, a smaller key with a line, and an accepted field on its first line with a colon |
| `ColonPairs.FindKey` | diagnostic/system_collector_utils.go:36-38 | the inner loop finds the first remaining key that the line starts with |
| `ColonPairs.TakeLine` | diagnostic/system_collector_utils.go:36-58 | the effect of one line on index and pairs |
| `ColonPairs.IncrementalSearch` | diagnostic/system_collector_utils.go:27-61 | the outer loop, which stops once all keys are passed |
| `ColonPairs.FindColonSeparatedPairs` | diagnostic/system_collector_utils.go:13-62 | sorts the keys in place and returns the search, which for clean input is the lookup |

## Left out

- Edge address pools, QUIC, HTTP/2, TLS, sockets, DNS, RPC, JSON and packet parsing: only their results appear, as parameters.
- Logging, tracing spans and metrics, except the gauge of active UDP sessions.
- The exits of `initialize` other than the connected signal, and the retries of the first tunnel before it: they return while goroutines may still run.
- Liveness that needs a fair `select` or the wall clock: runs are arbitrary, and times are parameters.
- The generation of a proxy whose origins fail to start: its channel is dropped unclosed, and nothing is claimed of the origins that did start.
- `EchoID.EchoIDTracker.GetOrAssign`: the lock is not modelled; a call is one step.
- `ICMPDarwin.ICMPProxy.Request`: the close callback of a replaced flow runs before the funnel is swapped rather than in the middle of the swap; the two touch different structures.
- `Supervisor.Supervisor.Initialize`: the pause between the tunnels it starts.
- `Sessions.WaitForCloseCondition`: the signals come in the order in which the select yields them.
- A panic ends the process. It is an outcome of the call or the loop in which it happens; what other tunnels and sessions were doing by then is not followed.
- `Socks.ReadAddrSpecFrom`: a read of one byte that returns no byte and no error.
- `ColonPairs.FindColonSeparatedPairs`: the library's sort is represented by the sorted permutation it returns.
- The request handler of SOCKS5 behind the handshake (dialing, access policy, proxying), the version 1 datagram muxer and the version 3 sessions.
- Ingress rule matching, access rules, feature lists, diagnostics other than the search, the command line, and the management session limit: easier claims, or one-branch code.
