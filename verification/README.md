# FlowMic relay and protocol: machine-checked models

Dafny models of the parts of FlowMic that keep state or compute something: how the relay process starts its
background timers, contains failing socket handlers and shuts down; how an inference endpoint is judged private or
external; how dictionary packs merge; and the small text and buffer machines around them. `dafny verify
dfyconfig.toml` checks the whole project.

Code that changes state in the source is a `class` or a `method` here, proved against a function on values; what the
source promises is then proved about that function, for every input or every interleaving. For the main classes a method
drives the object through a whole life and carries the safety result over to the object's own variables.

## What is modelled

| file | source | subject |
|---|---|---|
| `RateGates.dfy`, `Reasons.dfy`, `HandlerReports.dfy` | `error-handling.ts`, `log.ts` | the flood gate, what a guard's log line can hold, and one gate per event name shared by all sockets |
| `Containment.dfy` | `error-handling.ts` | the patched `on`/`off`/`removeListener` of a socket, against the emitter it patches |
| `Sweeps.dfy` | `bootstrap-sweeps.ts` | which timers a node arms and which it can stop; the transactional recovery tick |
| `Lifecycle.dfy`, `LifecycleSafety.dfy`, `FatalLiveness.dfy`, `LifecycleTraces.dfy` | `shutdown.ts`, `index.ts`, `error-handling.ts`, `bootstrap.ts` | one process from boot to exit as a transition system of run-to-completion callbacks, its invariants, what a fatal leads to, and every variable told by the callbacks alone |
| `HttpDrain.dfy`, `ParentWatchdog.dfy` | `shutdown.ts`, `parent-watchdog.ts` | the drain's callback against its grace timer; the desktop's lifetime pipe |
| `Destination.dfy` (over `JsInt32.dfy`, `Text.dfy`) | `scenario-consent.ts`, `engine-presets.ts` | 32-bit CIDR matching, the verdict, the consent gate |
| `Dictionary.dfy` | `dictionary-packs.ts` | the capped merge of the selected packs |
| `Placeholders.dfy`, `Argv.dfy`, `Base64Guard.dfy`, `LogSink.dfy`, `Launcher.dfy`, `ReconnectLadder.dfy`, `Calendar.dfy`, `Timeline.dfy` | as their header lines say | scanner, command line, image guard, log roller, C join buffer, retry bound, history labels |

## Where the code does less than its text says

- `error-handling.ts:160-162` says the hard timer "guarantees a non-zero exit". The signal path joins the same close
  and exits 0 when it resolves (`index.ts:103-104`), and its reader always comes before the fatal path's, so after a
  signal a fatal can end with code 0. `FatalCodeLostIff` gives the exact states in which that is still possible,
  `SignalMasksFatal` a run of every deployment that does it, `ExitCodeIs` the code of every ended run.
- `error-handling.ts:139-145` promises that a fatal logs, closes within a budget and exits non-zero. That depends on the
  fatal's own reason (`FirstFatalDecides`). An uncaught exception whose line cannot be converted or written makes the
  handler throw, and the process ends at once with code 7 and its database open, also while a close drains
  (`CrashDuringDrain`). An unhandled rejection with an Error that cannot be written throws after the fatal is marked
  (`:173-174`) and before the timer and the close (`:178-185`); what comes back is taken for a second fatal. Nothing ends
  such a process but a signal, the parent, or a later exception that breaks the handler (`SilencedEndsIff`), and
  otherwise it is left running (`LeftRunningForever`).
- `shutdown.ts:161-165` stops the refund timer so that no refund is asked for during the teardown. Stopping clears the
  interval, but a tick that is waiting for the provider looks at `stopped` only on entry (`service-sweep.ts:182`): when
  the answer comes during the HTTP drain it stamps its row and claims the next one. `LateClaimIff` says exactly when;
  `RefundsGoOnAfterStop` is a run that ends with a row claimed and not stamped, the other worry of that comment. What does
  hold: no work ever finds the database closed (`NoDeadWork`), every claim is accounted for, and at most 19 are late
  (`ClaimsAreAccountedFor`); no other job works after its stop (`OnlyRefundsWorkLate`).
- A contained handler's failure is reported through `String(reason)` and a log line (`error-handling.ts:258-269`). The
  conversion throws for a value that has none; the line throws when the Error's message or stack cannot be serialized,
  but only when the gate grants it. For a throw the emission then escapes (`EscapeIff`, `BadThrowIff`), for a rejection
  the process sees an unhandled rejection (`BadRejectionIff`); `GateDecides` shows one reason with both fates. A granted
  line that cannot be written also takes its printed count with it (`FloodIsCounted`, `CountsCanBeLost`).
- The wrapper map keeps only the last wrapper per listener. `SimulationIff` states exactly which operation sequences
  the patched socket handles as the plain emitter would; `DoubleRegistrationLeaks` is the smallest failing one.
- `protocol-schemas-inject.ts:63` calls an accepted text canonical base64. The guard sees only the shape:
  `NotEveryAcceptedTextIsCanonical`, and `CanonicalIff` for the exact condition.
- `flowmic-launcher.c` treats "nothing committed to the buffer" as "nothing missing". `ExecIff` says when that is wrong,
  `OverlongNameGoesUnnoticed` is such a table; for the shipped table it never is (`ShippedTableIsReportedWhole`).
- `log.ts:90-92` takes any failing `stat` for "no file yet"; the tracked size is then wrong for a file that exists
  (`TrackedIsRealIff`) and the file can outgrow its cap: `SizeIsBoundedIff`, with the lines that do it in
  `UncountedFileOutgrows`.
- `bootstrap-sweeps.ts:279` opens the transaction outside its `try`, so a failing `BEGIN` escapes the tick
  (`Connection.RecoveryTick`).
- `format-timeline.ts:31` promises a four-digit year; the code prints the year unpadded. The model prints it so.

## Model

| member | source | states |
|---|---|---|
| `RateGates.RateGate.TryAcquire` | apps/server-core/src/error-handling.ts:90-111 | the in-place gate computes `Acquire` on its abstract state |
| `RateGates.Conservation` | apps/server-core/src/error-handling.ts:85-111 | for any clock readings, calls = lines + counts carried by lines + pending: no event is lost |
| `RateGates.GrantsAreSpaced` | apps/server-core/src/error-handling.ts:100-110 | for any clock, consecutive lines are at least one window apart |
| `RateGates.LineRate` | apps/server-core/src/error-handling.ts:100-110 | with a monotone clock a span L gets at most L / window + 1 lines, from any gate state |
| `RateGates.LineRateOfAnyStretch` | apps/server-core/src/error-handling.ts:100-110 | the same bound inside every stretch of every run |
| `RateGates.OpenIff` | apps/server-core/src/error-handling.ts:100-110 | after any calls the gate is open iff no line was granted yet or the last one is a whole window old |
| `RateGates.GrantCarries` | apps/server-core/src/error-handling.ts:98-107 | for any clock, a line that follows another with only suppressed calls between carries exactly their number |
| `RateGates.FirstGrantCarries` | apps/server-core/src/error-handling.ts:98-107 | the first line of a run carries what was pending and every call before it |
| `RateGates.PendingSince` | apps/server-core/src/error-handling.ts:85-110 | what is pending is exactly the calls since the last line |
| `HandlerReports.Reporter.Report` | apps/server-core/src/error-handling.ts:258-269 | a convertible failure makes or advances the shared gate object of its event name and no other; the reporter throws iff the reason has no conversion or a granted line cannot be written |
| `HandlerReports.Reporter.ReportAll` | apps/server-core/src/error-handling.ts:229-269 | a whole flood leaves the gate objects in the state, and gives the lines and throws, of the model's run |
| `HandlerReports.EachEventHasItsOwnGate` | apps/server-core/src/error-handling.ts:221-237 | however sockets and events interleave, an event's failures get the answers a private gate would give |
| `HandlerReports.ReachingByIndex` | apps/server-core/src/error-handling.ts:258-260 | by index: the readings and answers listed for an event are those of exactly its convertible failures, on whatever socket, in order |
| `HandlerReports.LinesCarryTheirCounts` | apps/server-core/src/error-handling.ts:258-268 | a line due for an event carries exactly the number of its failures, on all sockets, since its last one |
| `HandlerReports.ThrowsIff` | apps/server-core/src/error-handling.ts:258-269 | which reports throw, in terms of the failures alone: the reason, and the event's last granted line |
| `HandlerReports.FloodIsCounted` | apps/server-core/src/error-handling.ts:229-269 | failures of an event on all sockets that reach its gate = lines written + counts printed + what unwritable lines took with them + pending; the third is 0 if all can be written |
| `HandlerReports.CountsCanBeLost` | apps/server-core/src/error-handling.ts:258-269 | three failures whose count is lost |
| `Containment.ContainedSocket.On` | apps/server-core/src/error-handling.ts:275-297 | registers a fresh wrapper and makes it the translation of its listener |
| `Containment.ContainedSocket.Off` | apps/server-core/src/error-handling.ts:299-313 | removes the translated wrapper, or the bare reference when there is none |
| `Containment.ContainedSocket.Emit` | apps/server-core/src/error-handling.ts:258-289 | listeners run in order through the reporter and its gates; which rejections are left to the reporter and which to nobody, escaped or not; how the event's gate moves; and that the emission stops short at the first escaping throw and only there |
| `Containment.RejectedByIndex` | apps/server-core/src/error-handling.ts:278-285 | by index: the rejections handed on are those of exactly the wrapped rejecting listeners that ran, in order |
| `Containment.ThrowTimesByIndex` | apps/server-core/src/error-handling.ts:286-287 | by index: exactly the convertible throws of wrapped listeners that ran ask the event's gate, each once, at their own reading |
| `Containment.LaterTimesByIndex` | apps/server-core/src/error-handling.ts:258-260 | the same of the reports that come when promises settle |
| `Containment.NoRejectionIsLost` | apps/server-core/src/error-handling.ts:239-289 | after any operations on a patched socket every rejecting listener that ran is handed on, and no rejection is left to nobody |
| `Containment.UnprintableRejectionHarms` | apps/server-core/src/error-handling.ts:113-115 | an unconvertible rejection of a listener that ran becomes an unhandled one, in whatever order the rejections settle |
| `Containment.EmitAfter` | apps/server-core/src/error-handling.ts:239-314 | a socket object through any operations and one emission: when it escapes, who ran, whose rejections are handed on, and, if no `off` was dishonoured, that these are the plain emitter's listeners |
| `Containment.EscapeIff` | apps/server-core/src/error-handling.ts:239-289 | after any operations on a patched socket and for any state of the event's gate, an emission escapes iff some live listener throws what the reporter cannot deal with at that moment |
| `Containment.BadThrowIff` | apps/server-core/src/error-handling.ts:258-289 | that is: a reason with no conversion, or one whose line cannot be written while no line was granted within the window |
| `Containment.BadRejectionIff` | apps/server-core/src/error-handling.ts:258-284 | the same of a rejection when it settles, amid any other reports |
| `Containment.GateDecides` | apps/server-core/src/error-handling.ts:113-115 | one registered listener: an unconvertible reason harms whether thrown or rejected, an unloggable Error iff the gate is open |
| `Containment.Contain` | apps/server-core/src/error-handling.ts:239-314 | the same with the reports of exactly those rejections as they settle, in any order and amid any others: the process is harmed iff a live listener throws, or a rejection settles, with what the reporter cannot deal with at that moment |
| `Containment.RunKeepsInv` | apps/server-core/src/error-handling.ts:251-314 | after any operations: only distinct wrappers are live, each translation is the last wrapper of its listener, and it exists iff the latest operation was `on` |
| `Containment.SimulationIff` | apps/server-core/src/error-handling.ts:245-314 | same listeners in the same order as the unpatched emitter, iff every `off` undoes a registration the caller still owns or finds none to remove |
| `Containment.NeverTwiceSuffices` | apps/server-core/src/error-handling.ts:245-314 | registering no listener twice at once on an event is enough for the simulation |
| `Containment.SurplusIsForever` | apps/server-core/src/error-handling.ts:299-313 | a registration the translation lost is never removed by any later operation |
| `Containment.DoubleRegistrationLeaks` | apps/server-core/src/error-handling.ts:290-311 | on, on, off, off leaves the listener registered |
| `Sweeps.StartBackgroundSweeps` | apps/server-core/src/bootstrap-sweeps.ts:156-318 | adds exactly the wanted intervals after whatever was live; each returned sweeper owns its own job's interval, and together they own exactly the new ones |
| `Sweeps.LaunchedIsArmedBy` | apps/server-core/src/bootstrap-sweeps.ts:159-181 | the intervals added are those of the role and wiring, each once; none on a replica |
| `Sweeps.IntervalHost.Stop` | apps/server-core/src/bootstrap-sweeps.ts:254-262 | a sweeper's stop clears its own interval and nothing else |
| `Sweeps.StoppingDisarms` | apps/server-core/src/shutdown.ts:205-240 | stopping sweepers through their handles, in any order and up to any point, takes exactly their jobs from the armed ones: the effect the stop list is modelled with |
| `Sweeps.StartThenStop` | apps/server-core/src/bootstrap-sweeps.ts:156-318 | a boot and its close leave every earlier interval as it was and none of the new ones |
| `Sweeps.Connection.RecoveryTick` | apps/server-core/src/bootstrap-sweeps.ts:277-288 | both prunes happen or neither, no transaction stays open, and only a failing BEGIN escapes |
| `Lifecycle.CloseListStopsEveryTimer` | apps/server-core/src/shutdown.ts:205-278 | for every deployment each timer that can be armed is stopped before db.close, which comes last and once, right after the one step that waits |
| `Lifecycle.CloseListIs` | apps/server-core/src/shutdown.ts:205-278 | the list holds exactly the steps the deployment has parts for, each once, each in its place of one fixed order |
| `Lifecycle.ArmedIffStopped` | apps/server-core/src/bootstrap-sweeps.ts:156-181 | a timer is armed at boot iff the close has a step that stops it, but for a replica's sweeps and a refund sweep switched off |
| `Lifecycle.EveryDeploymentIsWellOrdered` | apps/server-core/src/bootstrap.ts:758-788 | the hand-off of timers to the close gives a well-ordered plan in every deployment |
| `Lifecycle.Process.OnTick` | apps/server-core/src/billing/service-sweep.ts:181-198 | an interval's tick: skipped while one of its kind still waits, what it starts with, and the first row a refund tick claims |
| `Lifecycle.Process.OnResume` | apps/server-core/src/node/replica-puller.ts:261-268 | an awaited answer: the puller looks at its stopped flag again, the refund tick does not |
| `Lifecycle.Process.OnProviderAnswer` | apps/server-core/src/billing/service-refund.ts:183-217 | a claimed row is stamped or left claimed, and the next one is claimed up to the cap of the tick |
| `Lifecycle.Process.Drive` | apps/server-core/src/index.ts:82-113 | the program's variables follow the transition system through any legal sequence of callbacks |
| `Lifecycle.Process.OnStepDone` | apps/server-core/src/shutdown.ts:127-133 | a finished step takes effect and the next one is due; after the last one the close has resolved |
| `Lifecycle.Process.OnStepThrew` | apps/server-core/src/shutdown.ts:134-142 | a throwing step rejects the close and nothing after it happens |
| `Lifecycle.Process.CloseOnceNow` | apps/server-core/src/index.ts:82-87 | the memoized close starts at most once |
| `Lifecycle.Process.OnFatal` | apps/server-core/src/error-handling.ts:157-181 | the listener for every kind of reason: where it throws, and what it has set by then |
| `Lifecycle.Process.OnUncaught` | apps/server-core/src/error-handling.ts:202-204 | a listener that throws for an exception ends the process with code 7 |
| `Lifecycle.Process.OnUnhandled` | apps/server-core/src/error-handling.ts:203-205 | what it throws for a rejection comes back as an exception |
| `Lifecycle.Process.OnFatalMicrotask` | apps/server-core/src/error-handling.ts:185-186 | the fatal path joins the shared close one microtask later |
| `Lifecycle.Process.OnSignal` | apps/server-core/src/index.ts:98-112 | the first signal joins the shared close, later ones change nothing |
| `Lifecycle.Process.OnParentGone` | apps/server-core/src/index.ts:70-74 | the end of the lifetime pipe exits 0 at once |
| `LifecycleSafety.StepKeepsInv` | apps/server-core/src/shutdown.ts:205-278 | the inductive invariant tying armed timers, position in the stop list, database and exit survives every event |
| `LifecycleSafety.NoDeadWork` | apps/server-core/src/shutdown.ts:210-276 | in every deployment and reachable state no background work has found the database closed, and once it is closed only the readers that end the process are left; a resolved close has closed it, one whose step threw earlier has not |
| `LifecycleSafety.OnlyRefundsWorkLate` | apps/server-core/src/shutdown.ts:216-262 | after a job's stop it starts no tick and, the refund sweep apart, does no database work |
| `LifecycleSafety.ReplicaNeverSweeps` | apps/server-core/src/bootstrap-sweeps.ts:159-181 | no sweep ticks on a replica in any reachable state |
| `LifecycleSafety.ClaimsAreAccountedFor` | apps/server-core/src/billing/service-refund.ts:147-218 | in every reachable state claimed = stamped + answered badly + the one awaited, so a refund awaited at exit leaves a claimed row unstamped; at most 19 rows are claimed after the stop |
| `LifecycleSafety.LateClaimIff` | apps/server-core/src/billing/service-sweep.ts:181-198 | when the sweep's stop takes effect, some continuation claims another row iff a tick is waiting and its cap is not reached |
| `LifecycleSafety.NoMoreClaims` | apps/server-core/src/billing/service-sweep.ts:181-198 | otherwise no continuation of any length does |
| `LifecycleSafety.RefundsGoOnAfterStop` | apps/server-core/src/shutdown.ts:157-165 | wherever the refund timer is armed, a run from boot that claims a row after the stop and exits 0 with it unstamped |
| `LifecycleSafety.CloseIsCalledAtMostOnce` | apps/server-core/src/index.ts:82-112 | in every interleaving of signals and fatals the close is called at most once |
| `LifecycleSafety.FatalOnlyExitsNonZero` | apps/server-core/src/error-handling.ts:139-200 | without a signal or a pipe end, whatever the fatals' kinds and reasons, a process exits only with 1 or 7 |
| `LifecycleSafety.ExitCodeIs` | apps/server-core/src/index.ts:98-112 | the code of every ended run: 0 for a gone parent or a resolved close under a signal, 7 for a handler that threw, else 1; and when the database is left closed |
| `LifecycleSafety.SignalOnlyReportsTheClose` | apps/server-core/src/index.ts:98-112 | without a fatal or a pipe end, exit 0 iff the close resolved and 1 iff it rejected |
| `LifecycleSafety.FatalCodeLostIff` | apps/server-core/src/index.ts:98-112 | after a fatal, exit 0 is still possible iff a signal was taken and the close has not failed |
| `LifecycleSafety.SignalMasksFatal` | apps/server-core/src/index.ts:98-112 | in every deployment, a run from boot in which a fatal ends with code 0 |
| `LifecycleSafety.CloseGetsItsBudget` | apps/server-core/src/error-handling.ts:67-72 | a fatal process gone before its ten seconds was ended by a settled close, the parent or a handler that threw, never by the hard timer |
| `LifecycleTraces.AnswersAreCounted` | apps/server-core/src/billing/service-refund.ts:183-217 | over any events: rows stamped are the provider's accepting answers, rows left unstamped its refusals, and nothing else moves either |
| `LifecycleTraces.ClaimsFollow` | apps/server-core/src/billing/service-sweep.ts:181-198 | over every run from boot: rows claimed, whether a tick waits and how many rows it has left are the ledger kept from the rows and answers alone |
| `LifecycleTraces.TickGoesOn` | apps/server-core/src/billing/service-sweep.ts:189-198 | whatever comes between, a tick claims every claimable row that is among its first twenty, and no other tick starts meanwhile |
| `LifecycleTraces.LateClaimsAreTheRest` | apps/server-core/src/billing/service-sweep.ts:181-198 | rows counted as claimed after the stop are exactly those of the events after it |
| `LifecycleTraces.StepsFollow` | apps/server-core/src/shutdown.ts:127-142 | over every run: how far the close is, whether it rejected, exactly which jobs are stopped and whether the database is closed follow from which steps were done or threw |
| `LifecycleTraces.OneWork` | apps/server-core/src/billing/service-sweep.ts:181-198 | in any state: which callbacks do database work for which job, and that it is recorded as late iff the job was stopped and as dead iff the database was closed |
| `LifecycleTraces.WorkFollows` | apps/server-core/src/shutdown.ts:210-276 | over every run: the database work done, and the late work among it, job by job in order |
| `LifecycleTraces.WorkFindsDbOpen` | apps/server-core/src/shutdown.ts:210-276 | in every reachable state, a callback that works on the database finds it open, and its job not stopped unless it is the refund sweep |
| `LifecycleTraces.WaitsFollow` | apps/server-core/src/node/replica-puller.ts:261-268 | over every run: pulls awaited are those started and not answered, and a delivery is awaited iff one was started last |
| `LifecycleTraces.EndingFollows` | apps/server-core/src/index.ts:70-112 | over every run: who asked the process to end, its clock, when its hard timer was armed, and that it ends with an event that ends it and with that event's code |
| `LifecycleTraces.LinesFollow` | apps/server-core/src/error-handling.ts:160-176 | the re-entry gate is asked for a line by exactly the later fatals that get so far, twice where the failure comes back |
| `LifecycleTraces.LiveSafely` | apps/server-core/src/index.ts:82-113 | the process object, driven through any legal callbacks of any deployment: one close at most, no dead work, late work only for refunds, stamped and refused rows counted by the answers, claims, stops, waits and flags as the callbacks make them, and the exit code its cause calls for |
| `FatalLiveness.FirstFatal` | apps/server-core/src/error-handling.ts:157-185 | a first fatal arms the timer, or ends the process with code 7, or leaves nothing but its mark, by kind and reason |
| `FatalLiveness.LaterFatal` | apps/server-core/src/error-handling.ts:157-170 | a later fatal ends the process with 7 iff it breaks the handler; otherwise only the re-entry gate moves, by the lines asked for |
| `FatalLiveness.FatalEndsTheProcess` | apps/server-core/src/error-handling.ts:139-200 | in every fair endless run a fatal that armed the timer ends the process, with the code its end calls for |
| `FatalLiveness.FatalEndsNonZero` | apps/server-core/src/error-handling.ts:139-200 | in every such run without a signal or a pipe end it ends non-zero, however the close hangs or fails: 7 iff a later fatal broke the handler |
| `FatalLiveness.SilencedEndsIff` | apps/server-core/src/error-handling.ts:157-181 | a process whose first fatal armed nothing ends, left alone, iff a later exception breaks the handler, and then with 7 |
| `FatalLiveness.FirstFatalDecides` | apps/server-core/src/error-handling.ts:139-200 | the three outcomes of the first fatal of a process left alone, over all fair runs |
| `FatalLiveness.LeftRunningForever` | apps/server-core/src/error-handling.ts:173-185 | a fair run that is never ended |
| `FatalLiveness.CrashDuringDrain` | apps/server-core/src/error-handling.ts:157-158 | a run that ends with 7 and an open database while a first fatal's close drains |
| `FatalLiveness.HungCloseIsEnded` | apps/server-core/src/error-handling.ts:178-181 | in every plan, a fair run whose close hangs in its drain is ended at ten seconds |
| `HttpDrain.Drain.OnClosed` | apps/server-core/src/shutdown.ts:94-100 | the close callback settles the drain and disarms the grace timer, once |
| `HttpDrain.Drain.OnGrace` | apps/server-core/src/shutdown.ts:102-111 | at the deadline an unsettled drain warns, forces, and settles, in that order |
| `HttpDrain.DrainOutcome` | apps/server-core/src/shutdown.ts:91-113 | every interleaving: the whole action log and the time of settling are decided by which came first; forced iff the deadline came first; no timer left |
| `HttpDrain.ResolvesOnceInTime` | apps/server-core/src/shutdown.ts:91-113 | past the deadline the promise has resolved exactly once, no later than the deadline |
| `HttpDrain.DrainServer` | apps/server-core/src/shutdown.ts:91-113 | the same of the drain's own variables, driven through any legal events |
| `ParentWatchdog.Watch` | apps/server-core/src/parent-watchdog.ts:5-22 | over any sequence of pipe events the parent-gone action happens exactly once if enabled and the pipe is or gets over, and never otherwise |
| `Destination.QuadIff` | packages/protocol/src/scenario-consent.ts:109 | the matcher accepts exactly the texts of the expression's shape |
| `Destination.QuadValue` | packages/protocol/src/scenario-consent.ts:109-112 | the four captures, in order, as the numbers they spell |
| `Destination.BlockIff` | packages/protocol/src/scenario-consent.ts:148-157 | the well-formed overlay entries are exactly the texts of the CIDR expression's shape with octets and prefix in range |
| `Destination.BlockRoundTrip` | packages/protocol/src/scenario-consent.ts:148-157 | printing a block and parsing it gives the same network and prefix |
| `Destination.Ipv4ToIntIsPlain` | packages/protocol/src/scenario-consent.ts:159-161 | the signed shifts and ors, repaired by `>>> 0`, are the address as a plain number |
| `Destination.MaskIsOnes` | packages/protocol/src/scenario-consent.ts:154-155 | the mask is 2^32 - 2^(32-p) for every prefix 0..32 |
| `Destination.GeneralExpressionFailsAtZero` | packages/protocol/src/scenario-consent.ts:154-155 | without the special case prefix 0 would give all ones |
| `Destination.MatchesIffInBlock` | packages/protocol/src/scenario-consent.ts:134-161 | for all octets and prefixes the 32-bit signed test equals division by 2^(32-p) on plain integers |
| `Destination.BuiltInBranches` | packages/protocol/src/scenario-consent.ts:114-119 | the hand-written octet tests are exactly 127/8, 10/8, 172.16/12, 192.168/16 and 169.254/16 |
| `Destination.OverlayIff` | packages/protocol/src/scenario-consent.ts:134-146 | the search succeeds iff some well-formed entry's block contains the address |
| `Destination.Ipv4Verdict` | packages/protocol/src/scenario-consent.ts:98-125 | a dotted quad is local iff its octets are in range and a built-in or overlay block contains it |
| `Destination.NameVerdict` | packages/protocol/src/scenario-consent.ts:98-130 | the verdict of every host that is no dotted quad, over its text: local iff it is a bare name, an IPv6 loopback, or its last label is `local` or `localhost` |
| `Destination.PublicNamesAreExternal` | packages/protocol/src/scenario-consent.ts:98-130 | a domain whose last label is neither of these nor a number is external under every overlay |
| `Destination.LocalNamesAreLocal` | packages/protocol/src/scenario-consent.ts:98-128 | every name of the two local domains and every bare name is local |
| `Destination.EndpointVerdict` | packages/protocol/src/scenario-consent.ts:98-104 | an absent, blank or unparsable endpoint is external; white space around one is nothing |
| `Destination.OnlyWellFormedEntriesMatter` | packages/protocol/src/scenario-consent.ts:132-146 | malformed entries, order and repetition never change a verdict, and no entry changes that of a name |
| `Destination.MonotoneInOverlay` | packages/protocol/src/scenario-consent.ts:98-130 | a larger overlay never turns a local endpoint external |
| `Destination.DeploymentOverlay` | packages/protocol/src/engine-presets.ts:75-88 | blocks written into the environment, comma-separated and spaced anyhow, are exactly what the verdict adds to the built-in ones |
| `Destination.EnvironmentOverlay` | packages/protocol/src/engine-presets.ts:75-88 | any text in the environment: the address is local iff it is built-in or some part between commas is, trimmed, a well-formed block that contains it; blank and malformed parts are nothing |
| `Destination.DefineComesFirst` | packages/protocol/src/engine-presets.ts:75-88 | a non-empty build-time value hides the environment, an empty one does not |
| `Destination.ConsentIsNotWidened` | packages/protocol/src/scenario-consent.ts:226-233 | inference under a consent given for a local model only goes to a local one, and more private networks never block it |
| `Destination.BlockedIff` | packages/protocol/src/scenario-consent.ts:226-233 | both reasons for which inference is off, exactly |
| `Destination.LocalConsentStopsAtPublicNames` | packages/protocol/src/scenario-consent.ts:226-233 | under a consent given for a local model every endpoint with a public host name is off, whatever the overlay |
| `Dictionary.OrderedMap.Add` | packages/protocol/src/dictionary-packs.ts:199-212 | one occurrence keeps the map equal to the merge of all occurrences so far, keys in first-seen order |
| `Dictionary.ComposeDictionary` | packages/protocol/src/dictionary-packs.ts:189-216 | the loops over the in-place map compute the capped merge; in terms of the packs alone, every listed entry has the term and weight of an entry of the last pack carrying a selected id, exactly the aliases of such entries, and short of the cap none of their terms is missing |
| `Dictionary.LookupIs` | packages/protocol/src/dictionary-packs.ts:193 | an id means the last pack that carries it, and nothing iff none does |
| `Dictionary.OccurrenceIff` | packages/protocol/src/dictionary-packs.ts:193-199 | an entry is merged iff it belongs to the last pack carrying some selected id |
| `Dictionary.OccurrencesOfAppend` | packages/protocol/src/dictionary-packs.ts:195-199 | selections are merged in turn |
| `Dictionary.OccurrencesOfOne` | packages/protocol/src/dictionary-packs.ts:195-199 | one selected pack contributes its entries in its order |
| `Dictionary.WeightlessIsZero` | packages/protocol/src/dictionary-packs.ts:205-210 | no weight loses to a positive one and to no other |
| `Dictionary.MergedWeight` | packages/protocol/src/dictionary-packs.ts:205-210 | a term keeps the weight of its first heaviest occurrence |
| `Dictionary.MergedAliases` | packages/protocol/src/dictionary-packs.ts:207-221 | a term keeps the union of the aliases of its occurrences |
| `Dictionary.MergedAliasOrder` | packages/protocol/src/dictionary-packs.ts:207-221 | a term met once is kept as it is; met again, its aliases are listed as first met, each once |
| `Dictionary.SelectionOrderDoesNotMatter` | packages/protocol/src/dictionary-packs.ts:179-216 | before the cap, order, repetition and unknown ids change no term's weight or alias set |
| `Dictionary.ComposeLists` | packages/protocol/src/dictionary-packs.ts:179-216 | the first 300 distinct terms in first-occurrence order, each merged with all its occurrences, later ones included |
| `Dictionary.MorePacksOnlyAdd` | packages/protocol/src/dictionary-packs.ts:179-216 | more packs keep every entry at its place and never lower a weight or lose an alias |
| `LogSink.LogFile.ToFile` | apps/server-core/src/log.ts:45-60 | one line under every file error, with the roll-over |
| `LogSink.LogFile.InitLogFile` | apps/server-core/src/log.ts:82-97 | the size carried over from the last process |
| `LogSink.NewestIsKept` | apps/server-core/src/log.ts:27-60 | in every reachable state the two files are a contiguous suffix of everything appended, and more than MAX_BYTES of it if anything was dropped |
| `LogSink.FilesAre` | apps/server-core/src/log.ts:45-60 | the sink breaks iff some line meets an error; until then every line given is in the history, the current file holds the lines since the last roll-over and the previous one what was current before it |
| `LogSink.FirstFailureIsLeft` | apps/server-core/src/log.ts:45-59 | what the first error leaves for good, by the operation that failed; the history ends before that line |
| `LogSink.BrokenIsFinal` | apps/server-core/src/log.ts:56-59 | after the first file error nothing changes again |
| `LogSink.TrackedIsRealIff` | apps/server-core/src/log.ts:84-97 | the tracked count is the real size throughout iff the boot-time mkdir and stat answered or the file was empty |
| `LogSink.SizeIsBoundedIff` | apps/server-core/src/log.ts:31-97 | the current file stays within the larger of its starting size and MAX_BYTES plus one line, for all lines, iff mkdir failed, stat answered, or the file was empty |
| `LogSink.SizeIsBounded` | apps/server-core/src/log.ts:31-60 | the bound itself, where it holds |
| `LogSink.UncountedFileOutgrows` | apps/server-core/src/log.ts:90-93 | two lines that break the bound when the stat of a non-empty file failed |
| `LogSink.SizeIsAlwaysBounded` | apps/server-core/src/log.ts:31-60 | whatever fails, the file grows by at most MAX_BYTES plus one line |
| `LogSink.Live` | apps/server-core/src/log.ts:27-97 | the module's own variables, over a whole life, hold the newest of what was appended, and unless it broke that is every line given |
| `Argv.ParseArgv` | apps/server-core/src/index.ts:22-55 | the index-advancing loop computes the recursive parse |
| `Argv.ConcatenationOverrides` | apps/server-core/src/index.ts:22-55 | parsing a + b is the parse of a overridden by that of b when b is empty or starts with a flag |
| `Argv.BareWordIsSwallowed` | apps/server-core/src/index.ts:31-36 | that condition is needed |
| `Argv.SpaceFormIsEqualsForm` | apps/server-core/src/index.ts:29-36 | anywhere on a command line `--k v` equals `--k=v` when v is no flag |
| `Argv.LastOptionWins` | apps/server-core/src/index.ts:37-52 | what each option sets at the end of any command line, `db-path` included |
| `Argv.StrayWordsAreSkipped` | apps/server-core/src/index.ts:26-36 | a word that is no option's value and an option without one change nothing |
| `Argv.PrintThenParse` | apps/server-core/src/index.ts:24-55 | any overrides printed as flags parse back to themselves |
| `Argv.PortsAreInRange` | apps/server-core/src/index.ts:41-45 | a port that comes out of any command line is between 0 and 65535 |
| `Argv.UnusableOptionsAreIgnored` | apps/server-core/src/index.ts:37-52 | an unknown key, mode or port in `=` form changes nothing, before or after it |
| `Placeholders.MatchIff` | packages/i18n-web/src/index.ts:38 | the greedy matcher succeeds exactly at a hole and with its name |
| `Placeholders.ScanIsLossless` | packages/i18n-web/src/index.ts:38-62 | the scanned segments concatenate back to the template |
| `Placeholders.ScanFindsEveryHole` | packages/i18n-web/src/index.ts:38-62 | a hole at any position is found and its two sides are scanned as if alone |
| `Placeholders.ScanReportsIff` | packages/i18n-web/src/index.ts:38-62 | the names reported are exactly those that occur |
| `Placeholders.FormatAroundHole` | packages/i18n-web/src/index.ts:54-73 | a hole is replaced by its parameter's value, which is never scanned itself, and the two sides are formatted as if alone; the first hole without a value is the one named |
| `Placeholders.PlainTextIsKept` | packages/i18n-web/src/index.ts:54-73 | a template without holes is returned unchanged |
| `Placeholders.ThrowsIffSomeHoleLacksValue` | packages/i18n-web/src/index.ts:62-70 | formatting throws iff some occurring hole has no value, and names such a hole |
| `Placeholders.UnusedParametersDoNotMatter` | packages/i18n-web/src/index.ts:54-73 | parameters of no occurring hole change nothing |
| `Base64Guard.GuardIffGrouped` | packages/protocol/src/protocol-schemas-inject.ts:61-64 | length, divisibility and expression together accept exactly the texts of four-character groups with padding only at the end of the last |
| `Base64Guard.RoundTrip` | packages/protocol/src/protocol-schemas-inject.ts:61-64 | the encoding of RFC 4648 section 4 is well grouped and decodes to the same bytes |
| `Base64Guard.SymbolsAreTheTable` | packages/protocol/src/protocol-schemas-inject.ts:61-64 | the 64 symbols are those of RFC 4648 table 1, in order |
| `Base64Guard.ShortVectors` | packages/protocol/src/protocol-schemas-inject.ts:61-64 | the vectors of RFC 4648 section 10 for "" to "foo" |
| `Base64Guard.LongVectors` | packages/protocol/src/protocol-schemas-inject.ts:61-64 | those for "foob" to "foobar" |
| `Base64Guard.EncodingsAreAcceptedIff` | packages/protocol/src/protocol-schemas-inject.ts:61-64 | the encoding of non-empty bytes is accepted iff their number fits the cap |
| `Base64Guard.AcceptedLength` | packages/protocol/src/protocol-schemas-inject.ts:61-64 | an accepted text stands for 3n/4 bytes less its padding |
| `Base64Guard.CanonicalIff` | packages/protocol/src/protocol-schemas-inject.ts:61-64 | an accepted text is the encoding of its bytes iff its spare bits are zero |
| `Base64Guard.NotEveryAcceptedTextIsCanonical` | packages/protocol/src/protocol-schemas-inject.ts:61-64 | a concrete accepted text that is no encoding |
| `Launcher.Snprintf` | apps/desktop/linux-launcher/flowmic-launcher.c:173-174 | the bounded write keeps what is before it, truncates, terminates, and reports the untruncated length |
| `Launcher.CollectMissing` | apps/desktop/linux-launcher/flowmic-launcher.c:162-177 | for any table `used` stays inside the buffer, `missing[0..used]` is the comma-join of the missing first sonames that fit, and as a C string the buffer shows it and any truncated tail |
| `Launcher.MissingAt` | apps/desktop/linux-launcher/flowmic-launcher.c:162-172 | each library none of whose sonames is found is listed by its first, after those missing before it, and nothing else is |
| `Launcher.CommittedIsJoin` | apps/desktop/linux-launcher/flowmic-launcher.c:172-176 | the committed text is the comma-join of the names kept, a name being kept iff the join with it fits |
| `Launcher.KeptIsSubsequence` | apps/desktop/linux-launcher/flowmic-launcher.c:172-176 | the kept names are missing ones, in table order, each entry at most once |
| `Launcher.WholeJoinIsShown` | apps/desktop/linux-launcher/flowmic-launcher.c:172-182 | when the whole comma-join fits, the buffer shows it and nothing else |
| `Launcher.ExecIff` | apps/desktop/linux-launcher/flowmic-launcher.c:162-187 | exec is reached iff no missing first soname has a length the empty buffer can take |
| `Launcher.OverlongNameGoesUnnoticed` | apps/desktop/linux-launcher/flowmic-launcher.c:172-187 | a table whose missing library is not reported |
| `Launcher.ShortTablesAreReportedWhole` | apps/desktop/linux-launcher/flowmic-launcher.c:162-187 | for a short table the message lists exactly the missing libraries and exec is reached iff none is missing |
| `Launcher.ShippedTableIsReportedWhole` | apps/desktop/linux-launcher/flowmic-launcher.c:69-78 | the shipped table and buffer are such, on every machine |
| `ReconnectLadder.WorstCaseMs` | packages/protocol/src/constants.ts:457-461 | the accumulating loop computes the recursive bound, for any retry count |
| `ReconnectLadder.NoRunIsLonger` | packages/protocol/src/constants.ts:451-461 | no ladder run, recovered or given up, exceeds the bound |
| `ReconnectLadder.BoundIsAttained` | packages/protocol/src/constants.ts:451-461 | some run meets it |
| `ReconnectLadder.MonotoneInRetries` | packages/protocol/src/constants.ts:457-461 | more retries never lower it |
| `ReconnectLadder.MonotoneInCap` | packages/protocol/src/constants.ts:457-461 | a longer attempt cap never lowers it |
| `ReconnectLadder.ClosedForm` | packages/protocol/src/constants.ts:443-461 | the schedule's sum with its last delay repeated (a second each if empty) plus retries times the cap |
| `ReconnectLadder.DefaultsAre22Seconds` | packages/protocol/src/constants.ts:421-468 | the shipped defaults give 22 s |
| `Calendar.NumbersFollowTheCalendar` | packages/protocol/src/format-timeline.ts:16-22 | day numbers order valid dates as year, month and day do, and separate them |
| `Calendar.SetDateBackTurnsThePage` | packages/protocol/src/format-timeline.ts:62-63 | setting the date back by one gives the previous calendar day across month ends, leap days and year ends |
| `Timeline.BranchesFollowTheCalendar` | packages/protocol/src/format-timeline.ts:49-77 | which label is printed, by day numbers, and in which locale's words |
| `Timeline.ClockIsReadable` | packages/protocol/src/format-timeline.ts:12-14 | clock readings are two digits each, hour, minute, second in that order |
| `Timeline.MonthDayIsReadable` | packages/protocol/src/format-timeline.ts:70-71 | dates are two digits each, month before day, counted from one |
| `Timeline.YearIsReadable` | packages/protocol/src/format-timeline.ts:76 | years are printed as they are counted, signed where negative, without padding |
| `Timeline.FormatTimelineLabel` | packages/protocol/src/format-timeline.ts:39-47 | what is no string gives an empty label, an unreadable one its first 19 characters |
| `Timeline.LabelTellsTheRow` | packages/protocol/src/format-timeline.ts:24-77 | no two branches can print the same text: the label alone tells its branch |
| `Timeline.YesterdayIff` | packages/protocol/src/format-timeline.ts:54-68 | "Yesterday" iff the day is today's predecessor and the time is not within the last minute |
| `Timeline.SameLabelSameSecond` | packages/protocol/src/format-timeline.ts:33-77 | equal labels mean the same second outside "Just now" and "Yesterday", and the same minute of yesterday inside it |

## Left out

Environment:

- Sockets, SQLite, TLS, the file system, the regex engine, `URL` parsing with lower-casing, and `Number()`: outcomes or parameters of the model; the expressions are hand-written matchers.
- Scheduling: callbacks run to completion, promise jobs before the next callback. The hard timer may be served any time after it is due, only not never; it does not itself keep the process alive (`error-handling.ts:182-184`), and that something else does while a close hangs, so that the event loop does not run empty and end it with 0, is assumed. The drain's grace timer is taken to be served when the clock passes it; by how much a busy event loop delays it is not modelled. A drain's close callback is taken to come asynchronously.
- Strings are sequences of characters; UTF-16 surrogate pairs are not split out, and C strings are characters rather than bytes.

Process lifecycle:

- Sweep bodies other than the recovery tick: each is taken to arm at most one interval through the scheduler it is given, and to stop it. The growth reaper's other boot work, status probes, the latency reader, revocation and the socket and audio steps are steps of the stop list only; a pull the revocation follower starts counts as a tick of the puller.
- Fatals during boot. What a failing conversion or log line throws is taken to be an ordinary Error.
- Failures of the close's own steps are taken to be ordinary Errors: the announced steps turn any other into one (`shutdown.ts:134-141`), and the three before them only call Node and this server's own code.
- The text of the fatal path's log lines; whether they can be written is modelled.
- `Lifecycle.Process.OnTick`: does not model which rows a tick works on, only whether it waits for an answer and whether work reaches the database, because the question is whether it may.

Emitter:

- `once`, `addListener`, `prependListener`, `removeAllListeners`, removals of listeners registered before the patch, and a listener list changed during an emission.
- What the process does with an uncaught exception or an unhandled rejection is in `Lifecycle`; `Containment` only says when it gets one.

Text, numbers, tables:

- Parameter objects with prototype-named keys; the locale fallback and the message catalogue lookup of `formatMessage`; numeric parameter values (given as their text).
- Dictionary weights are reals: NaN and infinities are not modelled.
- `LogSink.LogFile.ToFile`: an append lands whole or not at all; line formatting and the stderr sink are not modelled.
- `Timeline.SameLabelSameSecond`: entries are given by their local civil time; how an instant maps to it (zones, clock changes) is left open, and the local calendar is taken to contain every civil day.
- Schemas, event and message tables, configuration, identity and HTTP composition: they hold no state and feed none of the functions above with anything but plain parameters. The refinement of `InjectRequestSchema` reports issues and changes no value.
