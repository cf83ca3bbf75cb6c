/** Properties of the harness loop, stated over the trace of a run: which
    cases begin, when a pool is destroyed or kept, that a panic is always
    contained, that teardown results never change a case's outcome, and
    which pool is live at each iteration boundary. */
module HarnessProperties {
  import opened Outcomes
  import opened Events
  import opened Harness

  // ---------------------------------------------------------------------
  // The loop's control flow, for any iterations

  /** The index of the first iteration that asks to stop, or `|steps|`. */
  function FirstStop(steps: seq<Step>): (f: nat)
    ensures f <= |steps|
    ensures forall j :: 0 <= j < f ==> !steps[j].stop
    ensures f < |steps| ==> steps[f].stop
  {
    if steps == [] then 0
    else if steps[0].stop then 0
    else 1 + FirstStop(steps[1..])
  }

  /** The events of the first `k` iterations, all run to completion: the
      reference the loop is compared against. */
  function Concat(steps: seq<Step>, k: nat): seq<Event>
    requires k <= |steps|
    decreases k
  {
    if k == 0 then [] else Concat(steps, k - 1) + steps[k - 1].events
  }

  /** After `k` iterations the loop has stopped exactly when an iteration
      before `k` asked to; its trace is every iteration up to and including
      the first such one, or up to `k` when it has not stopped. */
  lemma {:induction false} LoopShape(steps: seq<Step>, k: nat)
    requires k <= |steps|
    ensures Loop(steps, k).stopped <==> FirstStop(steps) < k
    ensures FirstStop(steps) < k ==> Loop(steps, k).trace == Concat(steps, FirstStop(steps) + 1)
    ensures FirstStop(steps) >= k ==> Loop(steps, k).trace == Concat(steps, k)
    decreases k
  {
    if k > 0 {
      LoopShape(steps, k - 1);
      if !Loop(steps, k - 1).stopped && steps[k - 1].stop {
        assert FirstStop(steps) == k - 1;
      }
    }
  }

  /** Every event of an iteration belongs to that iteration's case, or is
      the stop notice. */
  ghost predicate Owned(steps: seq<Step>) {
    forall j, e :: 0 <= j < |steps| && e in steps[j].events ==> e.Of(j) || e.Stopped?
  }

  /** An event of case `i` is among the first `k` iterations' events exactly
      when `i < k` and iteration `i` emits it. */
  lemma {:induction false} ConcatMembership(steps: seq<Step>, k: nat, i: nat, e: Event)
    requires k <= |steps| && Owned(steps)
    requires e.Of(i)
    ensures e in Concat(steps, k) <==> i < k && e in steps[i].events
    decreases k
  {
    if k > 0 {
      var a := Concat(steps, k - 1);
      assert Concat(steps, k) == a + steps[k - 1].events;
      if i == k - 1 {
        assert e !in a by {
          ConcatMembership(steps, k - 1, i, e);
        }
      } else {
        assert e in a <==> i < k - 1 && e in steps[i].events by {
          ConcatMembership(steps, k - 1, i, e);
        }
        assert e !in steps[k - 1].events;
      }
    }
  }

  lemma {:induction false} ConcatBegins(steps: seq<Step>, k: nat)
    requires k <= |steps|
    requires forall j :: 0 <= j < |steps| ==> BeginIndices(steps[j].events) == [j]
    ensures BeginIndices(Concat(steps, k)) == Range(k)
    decreases k
  {
    if k > 0 {
      ConcatBegins(steps, k - 1);
      BeginIndicesAppend(Concat(steps, k - 1), steps[k - 1].events);
    }
  }

  lemma {:induction false} ConcatReports(steps: seq<Step>, steps': seq<Step>, k: nat)
    requires k <= |steps| == |steps'|
    requires forall j :: 0 <= j < |steps| ==> Reports(steps[j].events) == Reports(steps'[j].events)
    ensures Reports(Concat(steps, k)) == Reports(Concat(steps', k))
    decreases k
  {
    if k > 0 {
      ConcatReports(steps, steps', k - 1);
      ReportsAppend(Concat(steps, k - 1), steps[k - 1].events);
      ReportsAppend(Concat(steps', k - 1), steps'[k - 1].events);
    }
  }

  // ---------------------------------------------------------------------
  // One iteration

  lemma {:induction false} IterationBeginsOnce(i: nat, c: CaseBehaviour, keep: bool)
    ensures BeginIndices(Iteration(i, c, keep).events) == [i]
  {
    var pool := PoolEvents(i, c, keep);
    var report := ReportEvents(i, ClosureError(c), keep);
    assert Iteration(i, c, keep).events == [Begin(i)] + (pool + report);
    BeginIndicesAppend([Begin(i)], pool + report);
    assert BeginIndices([Begin(i)]) == [i] by {
      assert [Begin(i)][1..] == [];
    }
    assert forall e: Event <- pool + report :: !e.Begin? by {
      ReportEventsAreReports(i, ClosureError(c), keep);
    }
    BeginIndicesNone(pool + report);
  }

  /** Within one iteration: the pool is handed to teardown exactly when it
      was created and the body did not panic with `keep` set; it is
      destroyed exactly when, in addition, destroying succeeds. */
  lemma {:induction false} IterationTeardown(i: nat, c: CaseBehaviour, keep: bool)
    ensures var ev := Iteration(i, c, keep).events;
      && (DestroyAttempted(ev, i) <==> c.provision.Created? && !(keep && c.body.Panics?))
      && (Destroyed(i) in ev <==> c.provision.Created? && !(keep && c.body.Panics?) && c.destroy.DestroyOk?)
  {
    TeardownAttempted(i, c, keep);
    TeardownSucceeded(i, c, keep);
  }

  lemma {:induction false} TeardownAttempted(i: nat, c: CaseBehaviour, keep: bool)
    ensures DestroyAttempted(Iteration(i, c, keep).events, i) <==> c.provision.Created? && !(keep && c.body.Panics?)
  {
    var pool := PoolEvents(i, c, keep);
    var report := ReportEvents(i, ClosureError(c), keep);
    assert Iteration(i, c, keep).events == ([Begin(i)] + pool) + report;
    DestroyAttemptedAppend([Begin(i)] + pool, report, i);
    DestroyAttemptedAppend([Begin(i)], pool, i);
    assert !DestroyAttempted(report, i);
    if c.provision.Created? && !(keep && c.body.Panics?) {
      assert pool[2] == DestroyEvents(i, c.destroy)[0];
    } else {
      assert forall e <- pool :: !e.IsDestroyAttempt();
    }
  }

  lemma {:induction false} TeardownSucceeded(i: nat, c: CaseBehaviour, keep: bool)
    ensures Destroyed(i) in Iteration(i, c, keep).events
        <==> c.provision.Created? && !(keep && c.body.Panics?) && c.destroy.DestroyOk?
  {
    var pool := PoolEvents(i, c, keep);
    var report := ReportEvents(i, ClosureError(c), keep);
    assert Iteration(i, c, keep).events == ([Begin(i)] + pool) + report;
    assert Destroyed(i) !in report;
    if c.provision.Created? && !(keep && c.body.Panics?) {
      assert pool == [Provisioned(i), Invoked(i), DestroyEvents(i, c.destroy)[0]];
    }
  }

  /** The reports of one iteration: its begin banner, then the outcome,
      which depends only on the closure's error. */
  lemma {:induction false} IterationReports(i: nat, c: CaseBehaviour, keep: bool)
    ensures Reports(Iteration(i, c, keep).events) == [Begin(i)] + ReportEvents(i, ClosureError(c), keep)
  {
    var pool := PoolEvents(i, c, keep);
    var report := ReportEvents(i, ClosureError(c), keep);
    assert Iteration(i, c, keep).events == ([Begin(i)] + pool) + report;
    ReportsAppend([Begin(i)] + pool, report);
    ReportsAppend([Begin(i)], pool);
    ReportsFilter([Begin(i)]);
    ReportsFilter(pool);
    ReportsFilter(report);
  }

  /** An iteration reports its case failed exactly when the case fails, and
      then with the error the closure returned. */
  lemma {:induction false} IterationFailure(i: nat, c: CaseBehaviour, keep: bool)
    ensures var ev := Iteration(i, c, keep).events;
      && (FailedIn(ev, i) <==> Fails(c))
      && (Fails(c) ==> Failed(i, ClosureError(c).value) in ev)
  {
    var closure := [Begin(i)] + PoolEvents(i, c, keep);
    var report := ReportEvents(i, ClosureError(c), keep);
    assert Iteration(i, c, keep).events == closure + report;
    assert forall e <- closure :: !e.Failed?;
    if Fails(c) {
      assert report[0] == Failed(i, ClosureError(c).value);
    }
  }

  /** The effect of one iteration on the live pool: a provisioning failure
      changes nothing; otherwise the case's pool replaces whatever was live,
      and it is gone afterwards unless it was kept after a panic or its
      teardown failed. */
  lemma {:induction false} IterationPoolEffect(live: Option<nat>, i: nat, c: CaseBehaviour, keep: bool)
    ensures LivePoolAfter(live, Iteration(i, c, keep).events)
         == if c.provision.CreateFailed? then live
            else if (keep && c.body.Panics?) || c.destroy.DestroyFailed? then Some(i)
            else None
  {
    var pool := PoolEvents(i, c, keep);
    var report := ReportEvents(i, ClosureError(c), keep);
    assert Iteration(i, c, keep).events == ([Begin(i)] + pool) + report;
    LivePoolAfterAppend(live, [Begin(i)] + pool, report);
    LivePoolUnchanged(LivePoolAfter(live, [Begin(i)] + pool), report);
    LivePoolAfterCons(live, Begin(i), pool);
    if c.provision.Created? {
      PoolEventsEffect(live, i, c, keep);
    }
  }

  /** Once created, the case's pool is the live one when the body is
      invoked; after the closure none is live, unless the pool was kept
      after a panic or destroying it failed. */
  lemma {:induction false} PoolEventsEffect(live: Option<nat>, i: nat, c: CaseBehaviour, keep: bool)
    requires c.provision.Created?
    ensures var p := PoolEvents(i, c, keep);
      2 <= |p| && p[1] == Invoked(i) && LivePoolAfter(live, p[..2]) == Some(i)
    ensures LivePoolAfter(live, PoolEvents(i, c, keep))
         == if (keep && c.body.Panics?) || c.destroy.DestroyFailed? then Some(i) else None
  {
    var p := PoolEvents(i, c, keep);
    assert p[..2] == [Provisioned(i)] + [Invoked(i)];
    LivePoolAfterCons(live, Provisioned(i), [Invoked(i)]);
    LivePoolAfterCons(Some(i), Invoked(i), []);
    var cleanup := if keep && c.body.Panics? then [] else DestroyEvents(i, c.destroy);
    assert PoolEvents(i, c, keep) == [Provisioned(i)] + ([Invoked(i)] + cleanup);
    LivePoolAfterCons(live, Provisioned(i), [Invoked(i)] + cleanup);
    LivePoolAfterCons(Some(i), Invoked(i), cleanup);
    if cleanup != [] {
      assert cleanup == [cleanup[0]] + [];
      LivePoolAfterCons(Some(i), cleanup[0], []);
    }
  }

  // ---------------------------------------------------------------------
  // The loop over the registered cases

  /** With `keep` set the loop is asked to stop first at the first failing
      case; without it, never. */
  lemma {:induction false} StepsFirstStop(cases: seq<CaseBehaviour>, keep: bool)
    ensures FirstStop(Steps(cases, keep)) == if keep then FirstFailure(cases) else |cases|
  {
    var steps := Steps(cases, keep);
    var s, f := FirstStop(steps), FirstFailure(cases);
    if keep {
      if f < |cases| {
        assert steps[f].stop;
      }
      if s < |cases| {
        assert Fails(cases[s]);
      }
    } else {
      assert forall j :: 0 <= j < |cases| ==> !steps[j].stop;
    }
  }

  lemma {:induction false} StepsOwned(cases: seq<CaseBehaviour>, keep: bool)
    ensures Owned(Steps(cases, keep))
  {
    var steps := Steps(cases, keep);
    forall j, e | 0 <= j < |steps| && e in steps[j].events
      ensures e.Of(j) || e.Stopped?
    {
      IterationEvents(j, cases[j], keep);
    }
  }

  /** After `k` iterations the run has stopped exactly when `keep` is set and
      a case before `k` failed; its trace is every case's iteration up to
      and including the first failure, or up to `k` when it has not stopped. */
  lemma {:induction false} RunShape(cases: seq<CaseBehaviour>, keep: bool, k: nat)
    requires k <= |cases|
    ensures RunUpTo(cases, keep, k).stopped <==> keep && FirstFailure(cases) < k
    ensures RunUpTo(cases, keep, k).trace == Concat(Steps(cases, keep), BegunBy(cases, keep, k))
  {
    LoopShape(Steps(cases, keep), k);
    StepsFirstStop(cases, keep);
  }

  /** The whole run is the iterations of the cases it begins, each run to completion. */
  lemma {:induction false} RunTraceIsConcat(cases: seq<CaseBehaviour>, keep: bool)
    ensures RunTrace(cases, keep) == Concat(Steps(cases, keep), CasesBegun(cases, keep))
  {
    RunShape(cases, keep, |cases|);
  }

  /** An event of case `i` occurs in a run exactly when case `i` is among the
      cases the run begins and its iteration emits the event. */
  lemma {:induction false} EventOfCaseInRun(cases: seq<CaseBehaviour>, keep: bool, i: nat, e: Event)
    requires e.Of(i)
    ensures e in RunTrace(cases, keep)
        <==> i < CasesBegun(cases, keep) && e in Iteration(i, cases[i], keep).events
  {
    RunTraceIsConcat(cases, keep);
    StepsOwned(cases, keep);
    ConcatMembership(Steps(cases, keep), CasesBegun(cases, keep), i, e);
  }

  /** Case `i` begins exactly when it is among the cases the run begins. */
  lemma {:induction false} BegunIff(cases: seq<CaseBehaviour>, keep: bool, i: nat)
    ensures Begin(i) in RunTrace(cases, keep) <==> i < CasesBegun(cases, keep)
  {
    EventOfCaseInRun(cases, keep, i, Begin(i));
    if i < CasesBegun(cases, keep) {
      IterationEvents(i, cases[i], keep);
    }
  }

  /** The cases a run begins are 0, 1, ..., each exactly once and in order. */
  lemma {:induction false} RunBeginsInOrder(cases: seq<CaseBehaviour>, keep: bool)
    ensures BeginIndices(RunTrace(cases, keep)) == Range(CasesBegun(cases, keep))
  {
    var steps := Steps(cases, keep);
    forall j | 0 <= j < |steps|
      ensures BeginIndices(steps[j].events) == [j]
    {
      IterationBeginsOnce(j, cases[j], keep);
    }
    RunTraceIsConcat(cases, keep);
    ConcatBegins(steps, CasesBegun(cases, keep));
  }

  /** Teardown of case `i`'s pool happens in a run exactly as in its iteration. */
  lemma {:induction false} DestroyAttemptedInRun(cases: seq<CaseBehaviour>, keep: bool, i: nat)
    requires i < CasesBegun(cases, keep)
    ensures DestroyAttempted(RunTrace(cases, keep), i)
        <==> DestroyAttempted(Iteration(i, cases[i], keep).events, i)
  {
    var t := RunTrace(cases, keep);
    var ev := Iteration(i, cases[i], keep).events;
    if DestroyAttempted(t, i) {
      var e :| e in t && e.Of(i) && e.IsDestroyAttempt();
      EventOfCaseInRun(cases, keep, i, e);
    }
    if DestroyAttempted(ev, i) {
      var e :| e in ev && e.Of(i) && e.IsDestroyAttempt();
      EventOfCaseInRun(cases, keep, i, e);
    }
  }

  /** Failure reports of case `i` appear in a run exactly as in its iteration. */
  lemma {:induction false} FailedInRun(cases: seq<CaseBehaviour>, keep: bool, i: nat)
    requires i < CasesBegun(cases, keep)
    ensures FailedIn(RunTrace(cases, keep), i) <==> FailedIn(Iteration(i, cases[i], keep).events, i)
  {
    var t := RunTrace(cases, keep);
    var ev := Iteration(i, cases[i], keep).events;
    if FailedIn(t, i) {
      var e :| e in t && e.Of(i) && e.Failed?;
      EventOfCaseInRun(cases, keep, i, e);
    }
    if FailedIn(ev, i) {
      var e :| e in ev && e.Of(i) && e.Failed?;
      EventOfCaseInRun(cases, keep, i, e);
    }
  }

  /** Without `keep` every registered case begins. */
  lemma {:induction false} EveryCaseBegunWithoutKeep(cases: seq<CaseBehaviour>)
    ensures forall j :: 0 <= j < |cases| ==> Begin(j) in RunTrace(cases, false)
  {
    forall j | 0 <= j < |cases|
      ensures Begin(j) in RunTrace(cases, false)
    {
      BegunIff(cases, false, j);
    }
  }

  // ---------------------------------------------------------------------
  // What happens to each case

  /** A case whose pool cannot be created never has its body invoked, never
      has teardown attempted, and fails with the "create test pool" error. */
  lemma {:induction false} ProvisionFailureSkipsBodyAndTeardown(cases: seq<CaseBehaviour>, keep: bool, i: nat)
    requires i < |cases| && cases[i].provision.CreateFailed?
    requires Begin(i) in RunTrace(cases, keep)
    ensures Provisioned(i) !in RunTrace(cases, keep)
    ensures Invoked(i) !in RunTrace(cases, keep)
    ensures !DestroyAttempted(RunTrace(cases, keep), i)
    ensures Failed(i, CreatePool(cases[i].provision.cause)) in RunTrace(cases, keep)
    ensures Done(i) !in RunTrace(cases, keep)
  {
    ProvisionFailureSkipsBody(cases, keep, i);
    ProvisionFailureIsReported(cases, keep, i);
  }

  lemma {:induction false} ProvisionFailureSkipsBody(cases: seq<CaseBehaviour>, keep: bool, i: nat)
    requires i < |cases| && cases[i].provision.CreateFailed?
    requires Begin(i) in RunTrace(cases, keep)
    ensures Provisioned(i) !in RunTrace(cases, keep)
    ensures Invoked(i) !in RunTrace(cases, keep)
    ensures !DestroyAttempted(RunTrace(cases, keep), i)
  {
    BegunIff(cases, keep, i);
    NoPoolEventsWithoutPool(i, cases[i], keep);
    EventOfCaseInRun(cases, keep, i, Provisioned(i));
    EventOfCaseInRun(cases, keep, i, Invoked(i));
    ProvisionFailureSkipsTeardown(cases, keep, i);
  }

  lemma {:induction false} NoPoolEventsWithoutPool(i: nat, c: CaseBehaviour, keep: bool)
    requires c.provision.CreateFailed?
    ensures Provisioned(i) !in Iteration(i, c, keep).events
    ensures Invoked(i) !in Iteration(i, c, keep).events
  {
    var report := ReportEvents(i, ClosureError(c), keep);
    assert Iteration(i, c, keep).events == [Begin(i)] + report;
  }

  lemma {:induction false} ProvisionFailureSkipsTeardown(cases: seq<CaseBehaviour>, keep: bool, i: nat)
    requires i < |cases| && cases[i].provision.CreateFailed?
    requires Begin(i) in RunTrace(cases, keep)
    ensures !DestroyAttempted(RunTrace(cases, keep), i)
  {
    BegunIff(cases, keep, i);
    DestroyAttemptedInRun(cases, keep, i);
    TeardownAttempted(i, cases[i], keep);
  }

  lemma {:induction false} ProvisionFailureIsReported(cases: seq<CaseBehaviour>, keep: bool, i: nat)
    requires i < |cases| && cases[i].provision.CreateFailed?
    requires Begin(i) in RunTrace(cases, keep)
    ensures Failed(i, CreatePool(cases[i].provision.cause)) in RunTrace(cases, keep)
    ensures Done(i) !in RunTrace(cases, keep)
  {
    var t := RunTrace(cases, keep);
    BegunIff(cases, keep, i);
    assert Failed(i, CreatePool(cases[i].provision.cause)) in t by {
      EventOfCaseInRun(cases, keep, i, Failed(i, CreatePool(cases[i].provision.cause)));
    }
    assert Done(i) !in t by {
      EventOfCaseInRun(cases, keep, i, Done(i));
      IterationEvents(i, cases[i], keep);
    }
  }

  /** A case whose body returns has its pool handed to teardown: destroyed,
      or, when destroying fails, the error printed. */
  lemma {:induction false} ReturningCaseIsTornDown(cases: seq<CaseBehaviour>, keep: bool, i: nat)
    requires i < |cases| && cases[i].provision.Created? && cases[i].body.Returns?
    requires Begin(i) in RunTrace(cases, keep)
    ensures Invoked(i) in RunTrace(cases, keep)
    ensures DestroyAttempted(RunTrace(cases, keep), i)
    ensures Destroyed(i) in RunTrace(cases, keep) <==> cases[i].destroy.DestroyOk?
  {
    var t := RunTrace(cases, keep);
    BegunIff(cases, keep, i);
    IterationTeardown(i, cases[i], keep);
    assert Invoked(i) in t by {
      EventOfCaseInRun(cases, keep, i, Invoked(i));
    }
    assert Destroyed(i) in t <==> cases[i].destroy.DestroyOk? by {
      EventOfCaseInRun(cases, keep, i, Destroyed(i));
    }
    assert DestroyAttempted(t, i) by {
      DestroyAttemptedInRun(cases, keep, i);
    }
  }

  /** A case whose body returns is reported done and never failed. */
  lemma {:induction false} ReturningCaseIsDone(cases: seq<CaseBehaviour>, keep: bool, i: nat)
    requires i < |cases| && cases[i].provision.Created? && cases[i].body.Returns?
    requires Begin(i) in RunTrace(cases, keep)
    ensures Done(i) in RunTrace(cases, keep)
    ensures !FailedIn(RunTrace(cases, keep), i)
  {
    var t := RunTrace(cases, keep);
    BegunIff(cases, keep, i);
    assert Done(i) in t by {
      EventOfCaseInRun(cases, keep, i, Done(i));
    }
    assert !FailedIn(t, i) by {
      FailedInRun(cases, keep, i);
      IterationFailure(i, cases[i], keep);
    }
  }

  /** A panicking body is recovered: the case fails with "panic while
      running test: <value>", is never reported done, and without `keep` the
      run goes on to begin every later case. */
  lemma {:induction false} PanicIsContained(cases: seq<CaseBehaviour>, keep: bool, i: nat)
    requires i < |cases| && cases[i].provision.Created? && cases[i].body.Panics?
    requires Begin(i) in RunTrace(cases, keep)
    ensures Failed(i, PanicWhileRunning(cases[i].body.value)) in RunTrace(cases, keep)
    ensures Done(i) !in RunTrace(cases, keep)
    ensures !keep ==> forall j :: i < j < |cases| ==> Begin(j) in RunTrace(cases, keep)
  {
    var t := RunTrace(cases, keep);
    BegunIff(cases, keep, i);
    assert Failed(i, PanicWhileRunning(cases[i].body.value)) in t by {
      EventOfCaseInRun(cases, keep, i, Failed(i, PanicWhileRunning(cases[i].body.value)));
    }
    assert Done(i) !in t by {
      EventOfCaseInRun(cases, keep, i, Done(i));
      IterationEvents(i, cases[i], keep);
    }
    if !keep {
      EveryCaseBegunWithoutKeep(cases);
    }
  }

  /** After a panic the pool is kept exactly when `keep` is set; without
      `keep` it is destroyed despite the panic. */
  lemma {:induction false} PanicKeepsPoolOnlyOnRequest(cases: seq<CaseBehaviour>, keep: bool, i: nat)
    requires i < |cases| && cases[i].provision.Created? && cases[i].body.Panics?
    requires Begin(i) in RunTrace(cases, keep)
    ensures DestroyAttempted(RunTrace(cases, keep), i) <==> !keep
  {
    BegunIff(cases, keep, i);
    DestroyAttemptedInRun(cases, keep, i);
    IterationTeardown(i, cases[i], keep);
  }

  /** A begun case is reported done exactly when it did not fail, and fails
      exactly when it did; what teardown did plays no part. */
  lemma {:induction false} OutcomeIgnoresTeardown(cases: seq<CaseBehaviour>, keep: bool, i: nat)
    requires i < |cases|
    requires Begin(i) in RunTrace(cases, keep)
    ensures Done(i) in RunTrace(cases, keep) <==> !Fails(cases[i])
    ensures FailedIn(RunTrace(cases, keep), i) <==> Fails(cases[i])
  {
    var t := RunTrace(cases, keep);
    BegunIff(cases, keep, i);
    assert Done(i) in t <==> !Fails(cases[i]) by {
      EventOfCaseInRun(cases, keep, i, Done(i));
      IterationEvents(i, cases[i], keep);
    }
    assert FailedIn(t, i) <==> Fails(cases[i]) by {
      FailedInRun(cases, keep, i);
      IterationFailure(i, cases[i], keep);
    }
  }

  // ---------------------------------------------------------------------
  // Teardown never changes what is reported

  /** Two registrations of the same cases whose pool teardown may behave differently. */
  ghost predicate DifferOnlyInTeardown(cases: seq<CaseBehaviour>, cases': seq<CaseBehaviour>) {
    && |cases| == |cases'|
    && forall j :: 0 <= j < |cases| ==> cases'[j] == cases[j].(destroy := cases'[j].destroy)
  }

  lemma {:induction false} FirstFailureIgnoresTeardown(cases: seq<CaseBehaviour>, cases': seq<CaseBehaviour>)
    requires DifferOnlyInTeardown(cases, cases')
    ensures FirstFailure(cases) == FirstFailure(cases')
    decreases |cases|
  {
    if cases != [] {
      assert Fails(cases[0]) == Fails(cases'[0]);
      if !Fails(cases[0]) {
        assert DifferOnlyInTeardown(cases[1..], cases'[1..]) by {
          forall j | 0 <= j < |cases| - 1
            ensures cases'[1..][j] == cases[1..][j].(destroy := cases'[1..][j].destroy)
          {
            assert cases'[j + 1] == cases[j + 1].(destroy := cases'[j + 1].destroy);
          }
        }
        FirstFailureIgnoresTeardown(cases[1..], cases'[1..]);
      }
    }
  }

  /** Two registrations that differ only in how teardown behaves produce the
      same begin, done, failed and stop reports, in the same order. */
  lemma {:induction false} ReportsIgnoreTeardown(cases: seq<CaseBehaviour>, cases': seq<CaseBehaviour>, keep: bool)
    requires DifferOnlyInTeardown(cases, cases')
    ensures Reports(RunTrace(cases, keep)) == Reports(RunTrace(cases', keep))
  {
    var steps, steps' := Steps(cases, keep), Steps(cases', keep);
    forall j | 0 <= j < |steps|
      ensures Reports(steps[j].events) == Reports(steps'[j].events)
    {
      assert ClosureError(cases[j]) == ClosureError(cases'[j]);
      IterationReports(j, cases[j], keep);
      IterationReports(j, cases'[j], keep);
    }
    var n := CasesBegun(cases, keep);
    assert n == CasesBegun(cases', keep) by {
      FirstFailureIgnoresTeardown(cases, cases');
    }
    ConcatReports(steps, steps', n);
    RunTraceIsConcat(cases, keep);
    RunTraceIsConcat(cases', keep);
  }

  /** A teardown failure is only printed: changing what destroying case
      `i`'s pool does leaves every begin, done, failed and stop report of the
      run, and their order, exactly as it was. */
  lemma {:induction false} TeardownNeverChangesReports(cases: seq<CaseBehaviour>, keep: bool, i: nat, d: Destroy)
    requires i < |cases|
    ensures Reports(RunTrace(cases, keep)) == Reports(RunTrace(cases[i := cases[i].(destroy := d)], keep))
  {
    ReportsIgnoreTeardown(cases, cases[i := cases[i].(destroy := d)], keep);
  }

  // ---------------------------------------------------------------------
  // Which cases run

  /** A run ends with the stop notice exactly when `keep` is set and some
      case fails; otherwise it holds no stop notice at all. */
  lemma {:induction false} StopNoticeInRun(cases: seq<CaseBehaviour>, keep: bool)
    ensures keep && FirstFailure(cases) < |cases|
        ==> 0 < |RunTrace(cases, keep)| && RunTrace(cases, keep)[|RunTrace(cases, keep)| - 1] == Stopped
    ensures !(keep && FirstFailure(cases) < |cases|) ==> Stopped !in RunTrace(cases, keep)
  {
    var p := Loop(Steps(cases, keep), |cases|);
    assert p == RunUpTo(cases, keep, |cases|);
    assert RunTrace(cases, keep) == p.trace;
    StepsStopMarked(cases, keep);
    StopNotice(Steps(cases, keep), |cases|);
    RunShape(cases, keep, |cases|);
  }

  /** With `keep` set and some case failing, whether by a provisioning
      failure or by a panic: the first failing case is the last one begun,
      no later case is invoked, its pool is not destroyed, and the run ends
      with the stop notice. */
  lemma {:induction false} KeepStopsAtFirstFailure(cases: seq<CaseBehaviour>)
    requires FirstFailure(cases) < |cases|
    ensures BeginIndices(RunTrace(cases, true)) == Range(FirstFailure(cases) + 1)
    ensures forall j: nat :: Invoked(j) in RunTrace(cases, true) ==> j <= FirstFailure(cases)
    ensures !DestroyAttempted(RunTrace(cases, true), FirstFailure(cases))
    ensures 0 < |RunTrace(cases, true)| && RunTrace(cases, true)[|RunTrace(cases, true)| - 1] == Stopped
  {
    KeepBeginsThroughFirstFailure(cases);
    KeepInvokesThroughFirstFailure(cases);
    KeepSkipsTeardownAtFirstFailure(cases);
    StopNoticeInRun(cases, true);
  }

  lemma {:induction false} KeepBeginsThroughFirstFailure(cases: seq<CaseBehaviour>)
    requires FirstFailure(cases) < |cases|
    ensures BeginIndices(RunTrace(cases, true)) == Range(FirstFailure(cases) + 1)
  {
    assert CasesBegun(cases, true) == FirstFailure(cases) + 1 by {
      assert BegunBy(cases, true, |cases|) == FirstFailure(cases) + 1;
    }
    RunBeginsInOrder(cases, true);
  }

  lemma {:induction false} KeepInvokesThroughFirstFailure(cases: seq<CaseBehaviour>)
    requires FirstFailure(cases) < |cases|
    ensures forall j: nat :: Invoked(j) in RunTrace(cases, true) ==> j <= FirstFailure(cases)
  {
    forall j: nat | Invoked(j) in RunTrace(cases, true)
      ensures j <= FirstFailure(cases)
    {
      EventOfCaseInRun(cases, true, j, Invoked(j));
    }
  }

  lemma {:induction false} KeepSkipsTeardownAtFirstFailure(cases: seq<CaseBehaviour>)
    requires FirstFailure(cases) < |cases|
    ensures !DestroyAttempted(RunTrace(cases, true), FirstFailure(cases))
  {
    var f := FirstFailure(cases);
    DestroyAttemptedInRun(cases, true, f);
    IterationTeardown(f, cases[f], true);
  }

  /** Without `keep`, every registered case is begun exactly once, in order,
      the run never stops early, and every pool that was created is handed
      to teardown. */
  lemma {:induction false} WithoutKeepEveryCaseRuns(cases: seq<CaseBehaviour>)
    ensures BeginIndices(RunTrace(cases, false)) == Range(|cases|)
    ensures Stopped !in RunTrace(cases, false)
    ensures forall j :: 0 <= j < |cases| && cases[j].provision.Created? ==> DestroyAttempted(RunTrace(cases, false), j)
  {
    var t := RunTrace(cases, false);
    RunBeginsInOrder(cases, false);
    StopNoticeInRun(cases, false);
    forall j | 0 <= j < |cases| && cases[j].provision.Created?
      ensures DestroyAttempted(t, j)
    {
      DestroyAttemptedInRun(cases, false, j);
      IterationTeardown(j, cases[j], false);
    }
  }

  // ---------------------------------------------------------------------
  // Which pool is live

  /** Before the loop stops, and with teardown succeeding, no pool is live
      after any iteration. */
  lemma {:induction false} NoPoolBeforeStop(cases: seq<CaseBehaviour>, keep: bool, k: nat)
    requires k <= |cases|
    requires forall j :: 0 <= j < k ==> cases[j].destroy.DestroyOk? && !(keep && Fails(cases[j]))
    ensures LivePool(Concat(Steps(cases, keep), k)) == None
    decreases k
  {
    if k > 0 {
      var steps := Steps(cases, keep);
      NoPoolBeforeStop(cases, keep, k - 1);
      LivePoolAfterAppend(None, Concat(steps, k - 1), steps[k - 1].events);
      IterationPoolEffect(None, k - 1, cases[k - 1], keep);
    }
  }

  /** At every iteration boundary, when teardown has not failed so far: no
      pool is live, except the pool of the first failing case once a run
      with `keep` has stopped at it. When that case failed to provision,
      the run stops although there is no pool to keep. */
  lemma {:induction false} PoolAtBoundary(cases: seq<CaseBehaviour>, keep: bool, k: nat)
    requires k <= |cases|
    requires forall j :: 0 <= j < k ==> cases[j].destroy.DestroyOk?
    ensures RunUpTo(cases, keep, k).stopped ==> FirstFailure(cases) < k
    ensures LivePool(RunUpTo(cases, keep, k).trace)
         == if RunUpTo(cases, keep, k).stopped && cases[FirstFailure(cases)].provision.Created?
            then Some(FirstFailure(cases)) else None
  {
    var steps := Steps(cases, keep);
    var f := FirstFailure(cases);
    RunShape(cases, keep, k);
    if keep && f < k {
      NoPoolBeforeStop(cases, keep, f);
      assert Concat(steps, f + 1) == Concat(steps, f) + steps[f].events;
      LivePoolAfterAppend(None, Concat(steps, f), steps[f].events);
      IterationPoolEffect(None, f, cases[f], keep);
    } else {
      NoPoolBeforeStop(cases, keep, k);
    }
  }

  /** Without `keep`, and with teardown succeeding, no pool outlives the
      iteration that created it. */
  lemma {:induction false} NoPoolOutlivesIteration(cases: seq<CaseBehaviour>, k: nat)
    requires k <= |cases|
    requires forall j :: 0 <= j < k ==> cases[j].destroy.DestroyOk?
    ensures LivePool(RunUpTo(cases, false, k).trace) == None
  {
    RunShape(cases, false, k);
    PoolAtBoundary(cases, false, k);
  }

  /** With `keep`, a run that stops at a provisioning failure ends with the
      stop notice as it would after a panic, yet keeps nothing of the failing
      case: the pool left live is the one live before that case began, none
      when teardown had not failed until then. */
  lemma {:induction false} StopOnProvisionFailureKeepsNothing(cases: seq<CaseBehaviour>)
    requires FirstFailure(cases) < |cases|
    requires cases[FirstFailure(cases)].provision.CreateFailed?
    ensures 0 < |RunTrace(cases, true)| && RunTrace(cases, true)[|RunTrace(cases, true)| - 1] == Stopped
    ensures LivePool(RunTrace(cases, true)) == LivePool(RunUpTo(cases, true, FirstFailure(cases)).trace)
    ensures (forall j :: 0 <= j < FirstFailure(cases) ==> cases[j].destroy.DestroyOk?)
        ==> LivePool(RunTrace(cases, true)) == None
  {
    StopNoticeInRun(cases, true);
    StopLeavesPoolAsBefore(cases);
    var f := FirstFailure(cases);
    if forall j :: 0 <= j < f ==> cases[j].destroy.DestroyOk? {
      RunShape(cases, true, f);
      NoPoolBeforeStop(cases, true, f);
    }
  }

  lemma {:induction false} StopLeavesPoolAsBefore(cases: seq<CaseBehaviour>)
    requires FirstFailure(cases) < |cases|
    requires cases[FirstFailure(cases)].provision.CreateFailed?
    ensures LivePool(RunTrace(cases, true)) == LivePool(RunUpTo(cases, true, FirstFailure(cases)).trace)
  {
    var steps := Steps(cases, true);
    var f := FirstFailure(cases);
    var before := RunUpTo(cases, true, f).trace;
    var events := Iteration(f, cases[f], true).events;
    assert before == Concat(steps, f) by {
      RunShape(cases, true, f);
      assert BegunBy(cases, true, f) == f;
    }
    assert RunTrace(cases, true) == before + events by {
      RunShape(cases, true, |cases|);
      assert BegunBy(cases, true, |cases|) == f + 1;
      assert steps[f].events == events;
    }
    LivePoolAfterAppend(None, before, events);
    IterationPoolEffect(LivePool(before), f, cases[f], true);
  }
}
