/** The per-case orchestration loop of the platform-test harness: for every
    registered case, provision a pool, run the body inside a panic-recovering
    scope, decide whether to destroy the pool, report the outcome, and decide
    whether to go on. */
module Harness {
  import opened Outcomes
  import opened Events

  /** What the per-case closure leaves behind: the events it emitted and the
      error it returned (`None` for nil). */
  datatype ClosureResult = ClosureResult(events: seq<Event>, err: Option<CaseError>)

  /** One iteration of the loop: its events, and whether the run stops after it. */
  datatype Step = Step(events: seq<Event>, stop: bool)

  /** The trace after some iterations, and whether the run has stopped. */
  datatype Progress = Progress(trace: seq<Event>, stopped: bool)

  /** A run either panics at start-up, because the pool arguments are invalid,
      or runs the cases and leaves a trace. */
  datatype RunResult = StartupPanic(reason: string) | Ran(trace: seq<Event>)

  /** The events of calling `pool.Destroy`; a failure is only printed. */
  function DestroyEvents(i: nat, d: Destroy): (r: seq<Event>)
    ensures |r| == 1 && r[0].Of(i) && r[0].IsDestroyAttempt()
    ensures r[0].Destroyed? <==> d.DestroyOk?
  {
    match d
    case DestroyOk => [Destroyed(i)]
    case DestroyFailed(cause) => [DestroyErr(i, cause)]
  }

  /** The pool's lifecycle in the closure for case `i`, after the begin
      banner: nothing when create-or-replace fails (the wrapped error is
      returned with no pool to clean up); otherwise the pool is created, the
      body invoked, and the deferred function, where `recover()` sees
      whether the body panicked, destroys the pool unless it did and `keep`
      (stop and keep pool on failure) is set. */
  function PoolEvents(i: nat, c: CaseBehaviour, keep: bool): (r: seq<Event>)
    ensures forall e <- r :: e.Of(i) && !e.IsReport()
  {
    match c.provision
    case CreateFailed(_) => []
    case Created =>
      var cleanup := if c.body.Panics? && keep then [] else DestroyEvents(i, c.destroy);
      [Provisioned(i), Invoked(i)] + cleanup
  }

  /** The error the closure returns: the provisioning error wrapped as
      "create test pool", or a recovered panic turned into "panic while
      running test"; nil when the body returned. */
  function ClosureError(c: CaseBehaviour): (err: Option<CaseError>)
    ensures err.Some? <==> Fails(c)
  {
    match c.provision
    case CreateFailed(cause) => Some(CreatePool(cause))
    case Created =>
      match c.body
      case Panics(v) => Some(PanicWhileRunning(v))
      case Returns => None
  }

  /** The closure run for case `i`. */
  function CaseClosure(i: nat, c: CaseBehaviour, keep: bool): (r: ClosureResult)
    ensures 0 < |r.events| && r.events[0] == Begin(i)
    ensures forall e <- r.events :: e.Of(i)
    ensures r.err.Some? <==> Fails(c)
    ensures Invoked(i) in r.events <==> c.provision.Created?
  {
    ClosureResult([Begin(i)] + PoolEvents(i, c, keep), ClosureError(c))
  }

  /** The report after the closure: a returned error is printed as a
      failure, followed by the stop notice when `keep` is set; otherwise the
      case is reported done. */
  function ReportEvents(i: nat, err: Option<CaseError>, keep: bool): (r: seq<Event>)
    ensures Done(i) in r <==> err.None?
    ensures Stopped in r <==> keep && err.Some?
    ensures err.Some? ==> Failed(i, err.value) in r
  {
    match err
    case Some(e) => if keep then [Failed(i, e), Stopped] else [Failed(i, e)]
    case None => [Done(i)]
  }

  /** The report holds only report events: of case `i`, apart from the
      stop notice, and never a begin banner. */
  lemma ReportEventsAreReports(i: nat, err: Option<CaseError>, keep: bool)
    ensures forall e <- ReportEvents(i, err, keep) :: e.IsReport() && !e.Begin? && (e.Of(i) || e.Stopped?)
  {
  }

  /** One iteration of the loop: run the closure, report, and stop when the
      closure returned an error and `keep` is set, whatever kind of failure
      the error is. */
  function Iteration(i: nat, c: CaseBehaviour, keep: bool): (s: Step)
    ensures s.stop <==> keep && Fails(c)
  {
    var r := CaseClosure(i, c, keep);
    Step(r.events + ReportEvents(i, r.err, keep), keep && r.err.Some?)
  }

  /** The events of one iteration: the begin banner first, then only
      events of its own case or the stop notice; the stop notice, last,
      exactly when the iteration stops the run; the done banner exactly when
      the case did not fail. */
  lemma IterationEvents(i: nat, c: CaseBehaviour, keep: bool)
    ensures var s := Iteration(i, c, keep);
      && 0 < |s.events| && s.events[0] == Begin(i)
      && (forall e <- s.events :: e.Of(i) || e.Stopped?)
      && (Stopped in s.events <==> s.stop)
      && (s.stop ==> s.events[|s.events| - 1] == Stopped)
      && (Done(i) in s.events <==> !Fails(c))
  {
    var r := CaseClosure(i, c, keep);
    var report := ReportEvents(i, r.err, keep);
    assert Iteration(i, c, keep).events == r.events + report;
    assert Stopped !in r.events;
    assert Done(i) !in r.events;
  }

  /** The iterations of the loop over `cases`, one per case in order, each
      as it would run if reached. */
  function Steps(cases: seq<CaseBehaviour>, keep: bool): (steps: seq<Step>)
    ensures |steps| == |cases|
    ensures forall j :: 0 <= j < |cases| ==> (steps[j].stop <==> keep && Fails(cases[j]))
  {
    seq(|cases|, j requires 0 <= j < |cases| => Iteration(j, cases[j], keep))
  }

  /** The loop's control flow, apart from what each iteration does: the
      events of the first `k` iterations in order, where an iteration that
      asks to stop returns from `main`, so later ones add nothing. */
  function Loop(steps: seq<Step>, k: nat): (p: Progress)
    requires k <= |steps|
    decreases k
  {
    if k == 0 then Progress([], false)
    else
      var p := Loop(steps, k - 1);
      if p.stopped then p
      else Progress(p.trace + steps[k - 1].events, steps[k - 1].stop)
  }

  /** The loop has stopped after `k` iterations exactly when one of them
      asked to stop. */
  lemma {:induction false} LoopStopsOnRequest(steps: seq<Step>, k: nat)
    requires k <= |steps|
    ensures Loop(steps, k).stopped <==> exists j :: 0 <= j < k && steps[j].stop
    decreases k
  {
    if k > 0 {
      LoopStopsOnRequest(steps, k - 1);
    }
  }

  /** The run after the first `k` iterations of the loop over `cases`. */
  function RunUpTo(cases: seq<CaseBehaviour>, keep: bool, k: nat): Progress
    requires k <= |cases|
  {
    Loop(Steps(cases, keep), k)
  }

  /** The trace of the loop over all cases. */
  function RunTrace(cases: seq<CaseBehaviour>, keep: bool): seq<Event> {
    RunUpTo(cases, keep, |cases|).trace
  }

  /** The harness: invalid pool arguments abort before the loop; otherwise
      the loop runs. A panicking case body never makes the run abort. */
  function Run(cases: seq<CaseBehaviour>, keep: bool, validation: Validation): (r: RunResult)
    ensures r.StartupPanic? <==> validation.Invalid?
    ensures r.StartupPanic? ==> r.reason == validation.reason
  {
    match validation
    case Invalid(reason) => StartupPanic(reason)
    case Valid => Ran(RunTrace(cases, keep))
  }

  /** The index of the first failing case, or `|cases|` when none fails. */
  function FirstFailure(cases: seq<CaseBehaviour>): (f: nat)
    ensures f <= |cases|
    ensures forall j :: 0 <= j < f ==> !Fails(cases[j])
    ensures f < |cases| ==> Fails(cases[f])
  {
    if cases == [] then 0
    else if Fails(cases[0]) then 0
    else 1 + FirstFailure(cases[1..])
  }

  /** How many cases the first `k` iterations begin: up to and including
      the first failure when `keep` is set and it comes before `k`, otherwise `k`. */
  function BegunBy(cases: seq<CaseBehaviour>, keep: bool, k: nat): (n: nat)
    requires k <= |cases|
    ensures n <= k
  {
    var f := FirstFailure(cases);
    if keep && f < k then f + 1 else k
  }

  /** How many cases a run begins: all of them, unless `keep` is set and
      some case fails, in which case the ones up to the first failure. */
  function CasesBegun(cases: seq<CaseBehaviour>, keep: bool): (n: nat)
    ensures n <= |cases|
  {
    BegunBy(cases, keep, |cases|)
  }

  /** Once stopped, the loop stays stopped with the same trace. */
  lemma {:induction false} StoppedIsFinal(steps: seq<Step>, k: nat, m: nat)
    requires k <= m <= |steps|
    requires Loop(steps, k).stopped
    ensures Loop(steps, m) == Loop(steps, k)
    decreases m
  {
    if m > k {
      StoppedIsFinal(steps, k, m - 1);
    }
  }

  /** An iteration that asks to stop ends with the stop notice, and only such
      an iteration prints it. */
  predicate StopMarked(s: Step) {
    && (Stopped in s.events <==> s.stop)
    && (s.stop ==> 0 < |s.events| && s.events[|s.events| - 1] == Stopped)
  }

  /** A stopped run's last event is the stop notice; a run that has not
      stopped holds no stop notice. */
  lemma {:induction false} StopNotice(steps: seq<Step>, k: nat)
    requires k <= |steps|
    requires forall j :: 0 <= j < |steps| ==> StopMarked(steps[j])
    ensures var p := Loop(steps, k);
      && (p.stopped ==> 0 < |p.trace| && p.trace[|p.trace| - 1] == Stopped)
      && (!p.stopped ==> Stopped !in p.trace)
    decreases k
  {
    if k > 0 {
      StopNotice(steps, k - 1);
      assert StopMarked(steps[k - 1]);
    }
  }

  /** Every iteration of the loop over `cases` marks a stop with the stop notice. */
  lemma StepsStopMarked(cases: seq<CaseBehaviour>, keep: bool)
    ensures forall j :: 0 <= j < |cases| ==> StopMarked(Steps(cases, keep)[j])
  {
    forall j | 0 <= j < |cases|
      ensures StopMarked(Steps(cases, keep)[j])
    {
      IterationEvents(j, cases[j], keep);
    }
  }

  /** The harness written as `main`'s `for` loop: iterate the cases in
      order, and return from `main` when an iteration asks to stop. */
  method RunHarness(cases: seq<CaseBehaviour>, keep: bool, validation: Validation) returns (r: RunResult)
    ensures r == Run(cases, keep, validation)
  {
    if validation.Invalid? {
      return StartupPanic(validation.reason);
    }
    ghost var steps := Steps(cases, keep);
    var trace: seq<Event> := [];
    var k := 0;
    while k < |cases|
      invariant k <= |cases|
      invariant Loop(steps, k) == Progress(trace, false)
    {
      var s := Iteration(k, cases[k], keep);
      assert steps[k] == s;
      trace := trace + s.events;
      if s.stop {
        StoppedIsFinal(steps, k + 1, |cases|);
        return Ran(trace);
      }
      k := k + 1;
    }
    return Ran(trace);
  }
}
