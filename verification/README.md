# zrepl platform-test harness: the per-case loop

This project models the core of zrepl's platform-test harness (`platformtest/harness/harness.go`, function `main`). The harness first validates the command-line pool arguments and panics if they are invalid. It then walks the registered test cases in order. For each case it:

- prints a begin banner;
- creates or replaces the test zpool;
- invokes the case body inside a closure whose deferred function recovers a panic and decides whether to destroy the pool;
- reports the case as done or failed;
- with `failure.stop-and-keep-pool` set, stops the whole run at the first failure.

## How it is modelled

- `Outcomes` (`outcomes.dfy`) holds the inputs. Each case is a `CaseBehaviour`: whether create-or-replace succeeds, whether the body returns or panics (Go's panic/recover becomes the tagged value `Body`), and whether `pool.Destroy` succeeds. It also holds the two errors the closure can return, with their texts "create test pool: …" and "panic while running test: …".
- `Events` (`events.dfy`) holds the observable trace: `Begin`, `Provisioned`, `Invoked`, `Destroyed`, `DestroyErr`, `Failed`, `Done` and `Stopped`. It also holds the trace's projections (begin order, report lines) and a replay of which case's pool is live. All cases share one configured pool name, and provisioning is create-or-replace, so the live pool is an `Option`: at most one pool exists at any time by construction. A failed destroy leaves its pool live. A failed create leaves the live pool as it was.
- `Harness` (`harness.dfy`) holds the loop itself. `CaseClosure` is the inner closure, and `Iteration` adds the outer error/stop handling. `Steps` lists one iteration per registered case. `Loop` runs them in order and returns from `main` at the first one that asks to stop. `RunUpTo` applies the loop to the registered cases, and `Run` adds the validation guard. `RunHarness` is the same loop written the way `main` writes it, iterating the cases in order and returning at a stop request, and is proved equal to `Run`.
- `HarnessProperties` (`properties.dfy`) holds lemmas over the trace. Most are proved by comparing the loop with `Concat`: every iteration up to a bound, each run to completion.

A provisioning failure also stops a stop-and-keep run, although there is no pool to keep. The closure returns the wrapped "create test pool" error, and the `err != nil` branch (lines 84-90) does not tell it from a body failure. `HarnessProperties.KeepStopsAtFirstFailure` treats both kinds of failure alike. `HarnessProperties.StopOnProvisionFailureKeepsNothing` shows that such a stop keeps nothing of the failing case: the pool left live is whatever was live before that case began.

## Model

| member | source | states |
|---|---|---|
| `Harness.Run` | platformtest/harness/harness.go:46-49 | invalid pool arguments end the program with a start-up panic carrying the validation error, before any case begins; valid arguments always lead to a completed run, never a panic |
| `Harness.RunHarness` | platformtest/harness/harness.go:56-95 | the source's loop shape (iterate in order, return from `main` on a stop request) computes exactly the run of the functional model |
| `Harness.StoppedIsFinal` | platformtest/harness/harness.go:87-89 | once an iteration asks to stop, no later iteration adds anything and the loop stays stopped: the run returns from `main` |
| `Harness.StopNotice` | platformtest/harness/harness.go:84-90 | when every iteration that stops ends with the stop notice and only those print it, a stopped loop's trace ends with the stop notice and a loop that has not stopped holds none |
| `Harness.CaseClosure` | platformtest/harness/harness.go:58-83 | every closure starts with the begin banner and emits only events of its own case; it returns an error exactly when the case fails; the body is invoked exactly when the pool was created |
| `Harness.ClosureError` | platformtest/harness/harness.go:61-67 | the closure returns a non-nil error exactly when provisioning failed or the body panicked |
| `Harness.Iteration` | platformtest/harness/harness.go:84-93 | an iteration asks to stop exactly when stop-and-keep is set and the case failed, whatever kind of failure it was |
| `Harness.IterationEvents` | platformtest/harness/harness.go:58-93 | an iteration starts with the begin banner and emits only events of its own case or the stop notice; it holds the stop notice, as its last event, exactly when it asks to stop; the case is reported done exactly when it did not fail |
| `Harness.FirstFailure` | platformtest/harness/harness.go:84-90 | the case a stop-and-keep run stops at: every earlier case passes and this one fails (or there is none) |
| `HarnessProperties.LoopShape` | platformtest/harness/harness.go:56-95 | for any iterations: after k of them the loop has stopped exactly when one before k asked to, and its trace is every iteration up to and including the first such one, or up to k |
| `HarnessProperties.StepsFirstStop` | platformtest/harness/harness.go:84-90 | with stop-and-keep set the first iteration to ask for a stop is the first failing case's; without it no iteration does |
| `HarnessProperties.RunShape` | platformtest/harness/harness.go:56-95 | after k iterations the run has stopped exactly when stop-and-keep is set and a case before k failed; its trace is the complete iterations up to and including the first failure, or up to k |
| `HarnessProperties.EventOfCaseInRun` | platformtest/harness/harness.go:56-95 | an event of case i is in the run exactly when case i is begun and its own iteration emits that event |
| `HarnessProperties.BegunIff` | platformtest/harness/harness.go:56-60 | case i begins exactly when it comes at or before the first failure of a stop-and-keep run, or always without the flag |
| `HarnessProperties.RunBeginsInOrder` | platformtest/harness/harness.go:56-60 | the begun cases are 0, 1, 2, … in order, each exactly once |
| `HarnessProperties.IterationTeardown` | platformtest/harness/harness.go:65-76 | within one case the pool goes to teardown exactly when it was created and the body did not panic with stop-and-keep set; it is destroyed exactly when, in addition, destroying succeeds |
| `HarnessProperties.ProvisionFailureSkipsBodyAndTeardown` | platformtest/harness/harness.go:61-64 | when create-or-replace fails, no pool is provisioned, the body is not invoked, no destroy is attempted, the case is not reported done, and it fails with the "create test pool" error carrying the cause |
| `HarnessProperties.ReturningCaseIsTornDown` | platformtest/harness/harness.go:73-82 | a body that returns is invoked and its pool goes to teardown, whatever the flag says; the pool is destroyed exactly when destroying succeeds |
| `HarnessProperties.ReturningCaseIsDone` | platformtest/harness/harness.go:91-92 | a body that returns makes the case reported done and never failed |
| `HarnessProperties.PanicIsContained` | platformtest/harness/harness.go:65-67 | a panicking body is recovered into the failure "panic while running test" carrying the panic value; the case is not reported done; without stop-and-keep, every later case still begins |
| `HarnessProperties.PanicKeepsPoolOnlyOnRequest` | platformtest/harness/harness.go:68-75 | after a panic the pool goes to teardown exactly when stop-and-keep is not set |
| `HarnessProperties.OutcomeIgnoresTeardown` | platformtest/harness/harness.go:84-93 | a begun case is reported done exactly when it did not fail, and reported failed exactly when it did fail; both conditions ignore what teardown did |
| `HarnessProperties.FirstFailureIgnoresTeardown` | platformtest/harness/harness.go:84-90 | where a stop-and-keep run stops does not depend on how any pool teardown behaves |
| `HarnessProperties.IterationFailure` | platformtest/harness/harness.go:84-86 | an iteration reports its case failed exactly when the case fails, and then with the error the closure returned |
| `HarnessProperties.IterationReports` | platformtest/harness/harness.go:84-93 | the reports of one iteration are its begin banner followed by the outcome for the closure's error alone |
| `HarnessProperties.ReportsIgnoreTeardown` | platformtest/harness/harness.go:73-75 | two registrations that differ only in how teardown behaves produce the same begin, done, failed and stop reports, in the same order |
| `HarnessProperties.StopNoticeInRun` | platformtest/harness/harness.go:84-90 | a run ends with the stop notice exactly when stop-and-keep is set and some case fails; otherwise it holds no stop notice |
| `HarnessProperties.TeardownNeverChangesReports` | platformtest/harness/harness.go:73-75 | changing what destroying any case's pool does leaves every begin, done, failed and stop report of the run, and their order, unchanged |
| `HarnessProperties.KeepStopsAtFirstFailure` | platformtest/harness/harness.go:84-90 | with stop-and-keep set and a failing case (provisioning failure or panic): the first failing case is the last one begun, no later case is invoked, its pool is not destroyed, and the run ends with the stop notice |
| `HarnessProperties.WithoutKeepEveryCaseRuns` | platformtest/harness/harness.go:56-95 | without stop-and-keep, every case begins exactly once and in order; the run never stops early; every pool that was created goes to teardown |
| `HarnessProperties.IterationPoolEffect` | platformtest/harness/harness.go:61-76 | the effect of one case on the live pool: a provisioning failure changes nothing; otherwise the case's pool replaces what was live, and it is gone afterwards unless it was kept after a panic or destroying it failed |
| `HarnessProperties.PoolAtBoundary` | platformtest/harness/harness.go:56-95 | when teardown has succeeded so far, no pool is live at any iteration boundary, except that a stop-and-keep run that stopped at a created pool still has that pool |
| `HarnessProperties.NoPoolOutlivesIteration` | platformtest/harness/harness.go:68-75 | without stop-and-keep and with teardown succeeding, no pool outlives the iteration that created it |
| `HarnessProperties.StopOnProvisionFailureKeepsNothing` | platformtest/harness/harness.go:84-90 | a stop-and-keep run that stops at a provisioning failure still ends with the stop notice, but keeps nothing of the failing case: the live pool afterwards is the one live before that case began, and none at all when every earlier teardown succeeded |
| `HarnessProperties.PoolEventsEffect` | platformtest/harness/harness.go:61-76 | once the pool is created, the body is invoked while that case's pool is the live one; after the closure none is live, unless the pool was kept after a panic with stop-and-keep set or destroying it failed |
| `Harness.LoopStopsOnRequest` | platformtest/harness/harness.go:56-95 | the loop over any iterations has stopped after k of them exactly when one of the first k asked to stop |
| `Harness.PoolEvents` | platformtest/harness/harness.go:61-76 | the pool's lifecycle inside the closure emits only events of its own case and never a report line |
| `Harness.DestroyEvents` | platformtest/harness/harness.go:73-75 | calling `pool.Destroy` is one destroy attempt of the case's pool; it destroys the pool exactly when `Destroy` succeeds, and a failure is only printed |
| `Harness.ReportEvents` | platformtest/harness/harness.go:84-93 | the case is reported done exactly when the closure returned nil; the stop notice is printed exactly when the flag is set and there was an error; an error is printed as a failure carrying that error |
| `Events.AfterEvent` | platformtest/harness/harness.go:61-76 | one event changes which pool is live only by provisioning, which makes that case's pool live, or by destroying the live pool, which leaves none |
| `Events.LivePoolProvenance` | platformtest/harness/harness.go:61-76 | replaying a trace never brings to life a pool that was neither live at the start nor provisioned in the trace |
| `Outcomes.Message` | platformtest/harness/harness.go:63-67 | the error text of a failed case tells a provisioning failure from a contained panic and keeps the cause or panic value intact: parsing it gives back the error |

## Left out

- Flag parsing (lines 26-31): the pool arguments and the stop-and-keep flag are plain inputs. Argument validation is an opaque outcome (`Validation`).
- Logger and outlet construction (lines 33-44, 50-51), and the log line written just before the start-up panic (line 47): plumbing and presentation with no effect on decisions. A failure to parse the logging outlet (line 40-42) panics before validation and is not modelled.
- Coloured banners, `%+v` stack traces and the blank line between cases (lines 53-55, 85-88, 92, 94): presentation only. They appear as trace events at most.
- The test context and its `RootDataset` path (lines 77-80): the body's behaviour is an opaque input, so what it is passed does not matter to the loop.
- The bodies of argument validation, `CreateOrReplaceZpool`, `pool.Destroy` and the test cases: they live in packages that are not part of this model. Each case supplies their outcomes.
- A panic raised by `CreateOrReplaceZpool` or by `pool.Destroy`. Provisioning runs before the deferred function is registered, and teardown runs inside it, so neither panic would be recovered. The model assumes both report failure by returning an error.
- `panic(nil)` in a case body: on Go versions before 1.21, `recover()` returns nil for it and the case would be reported done. The model treats every panic as carrying a value.
- What a failed create-or-replace does to a pool that was still live. The model leaves the live pool unchanged.
- Context cancellation: no decision in the loop depends on it.
- HarnessProperties.PoolAtBoundary: assumes every teardown so far succeeded, because a failed destroy leaves its pool live. `HarnessProperties.IterationPoolEffect` states what happens when a destroy fails.
- HarnessProperties.NoPoolOutlivesIteration: assumes every teardown succeeds, for the same reason.
