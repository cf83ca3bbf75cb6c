/** The observable trace of a harness run, its projections, and which test
    pool is live after a prefix of it. */
module Events {
  import opened Outcomes

  /** One step of a run. Every event but `Stopped` names the index of the
      case it belongs to. */
  datatype Event =
    | Begin(i: nat)                       // "BEGIN TEST CASE" banner
    | Provisioned(i: nat)                 // the pool was created (or replaced)
    | Invoked(i: nat)                     // the case body was called
    | Destroyed(i: nat)                   // the pool was destroyed
    | DestroyErr(i: nat, cause: string)   // destroying the pool failed; only printed
    | Failed(i: nat, error: CaseError)    // "TEST CASE FAILED WITH ERROR"
    | Done(i: nat)                        // "DONE TEST CASE" banner
    | Stopped                             // the run stops at a failing case on request
  {
    predicate Of(k: nat) {
      !Stopped? && i == k
    }

    predicate IsDestroyAttempt() {
      Destroyed? || DestroyErr?
    }

    /** The lines that report progress and outcomes, as opposed to the pool's lifecycle. */
    predicate IsReport() {
      Begin? || Failed? || Done? || Stopped?
    }
  }

  /** The pool of case `i` was handed to teardown in trace `t`. */
  predicate DestroyAttempted(t: seq<Event>, i: nat) {
    exists e <- t :: e.Of(i) && e.IsDestroyAttempt()
  }

  /** Case `i` was reported failed in trace `t`. */
  predicate FailedIn(t: seq<Event>, i: nat) {
    exists e <- t :: e.Of(i) && e.Failed?
  }

  lemma DestroyAttemptedAppend(a: seq<Event>, b: seq<Event>, i: nat)
    ensures DestroyAttempted(a + b, i) <==> DestroyAttempted(a, i) || DestroyAttempted(b, i)
  {
    if DestroyAttempted(a + b, i) {
      var e :| e in a + b && e.Of(i) && e.IsDestroyAttempt();
      assert e in a || e in b;
    }
    if DestroyAttempted(b, i) {
      var e :| e in b && e.Of(i) && e.IsDestroyAttempt();
      assert e in a + b;
    }
  }

  /** 0, 1, ..., n-1. */
  function Range(n: nat): (r: seq<nat>)
    ensures |r| == n
    ensures forall k :: 0 <= k < n ==> r[k] == k
  {
    if n == 0 then [] else Range(n - 1) + [n - 1]
  }

  /** The case indices of the `Begin` events, in trace order. */
  function BeginIndices(t: seq<Event>): seq<nat> {
    if t == [] then []
    else (if t[0].Begin? then [t[0].i] else []) + BeginIndices(t[1..])
  }

  lemma {:induction false} BeginIndicesAppend(a: seq<Event>, b: seq<Event>)
    ensures BeginIndices(a + b) == BeginIndices(a) + BeginIndices(b)
  {
    if a == [] {
      assert a + b == b;
    } else {
      var h := if a[0].Begin? then [a[0].i] else [];
      assert (a + b)[0] == a[0];
      assert (a + b)[1..] == a[1..] + b;
      BeginIndicesAppend(a[1..], b);
      assert BeginIndices(a + b) == h + (BeginIndices(a[1..]) + BeginIndices(b));
      assert BeginIndices(a) == h + BeginIndices(a[1..]);
    }
  }

  lemma {:induction false} BeginIndicesNone(t: seq<Event>)
    requires forall e <- t :: !e.Begin?
    ensures BeginIndices(t) == []
  {
    if t != [] {
      BeginIndicesNone(t[1..]);
    }
  }

  /** The report events of a trace, in order. */
  function Reports(t: seq<Event>): seq<Event> {
    if t == [] then []
    else (if t[0].IsReport() then [t[0]] else []) + Reports(t[1..])
  }

  lemma {:induction false} ReportsAppend(a: seq<Event>, b: seq<Event>)
    ensures Reports(a + b) == Reports(a) + Reports(b)
  {
    if a == [] {
      assert a + b == b;
    } else {
      var h := if a[0].IsReport() then [a[0]] else [];
      assert (a + b)[0] == a[0];
      assert (a + b)[1..] == a[1..] + b;
      ReportsAppend(a[1..], b);
      assert Reports(a + b) == h + (Reports(a[1..]) + Reports(b));
      assert Reports(a) == h + Reports(a[1..]);
    }
  }

  lemma {:induction false} ReportsFilter(t: seq<Event>)
    ensures (forall e <- t :: e.IsReport()) ==> Reports(t) == t
    ensures (forall e <- t :: !e.IsReport()) ==> Reports(t) == []
  {
    if t != [] {
      ReportsFilter(t[1..]);
    }
  }

  /** The effect of one event on which case's pool is live. All cases share
      one configured pool name and provisioning is create-or-replace, so at
      most one pool exists at any time: `None`, or the pool of one case. A
      failed destroy leaves the pool in place. */
  function AfterEvent(live: Option<nat>, e: Event): (r: Option<nat>)
    ensures r != live ==> e.Provisioned? || (e.Destroyed? && live == Some(e.i) && r.None?)
    ensures e.Provisioned? ==> r == Some(e.i)
    ensures e.Destroyed? && live == Some(e.i) ==> r.None?
  {
    match e
    case Provisioned(i) => Some(i)
    case Destroyed(i) => if live == Some(i) then None else live
    case _ => live
  }

  /** The live pool after replaying `t` from `live`. */
  function LivePoolAfter(live: Option<nat>, t: seq<Event>): Option<nat>
    decreases |t|
  {
    if t == [] then live else LivePoolAfter(AfterEvent(live, t[0]), t[1..])
  }

  /** Replaying a trace brings no pool to life that was not live at the
      start or provisioned in the trace. */
  lemma {:induction false} LivePoolProvenance(live: Option<nat>, t: seq<Event>)
    ensures var r := LivePoolAfter(live, t);
      r.Some? ==> r == live || Provisioned(r.value) in t
    decreases |t|
  {
    if t != [] {
      LivePoolProvenance(AfterEvent(live, t[0]), t[1..]);
      assert t == [t[0]] + t[1..];
    }
  }

  lemma {:induction false} LivePoolAfterAppend(live: Option<nat>, a: seq<Event>, b: seq<Event>)
    ensures LivePoolAfter(live, a + b) == LivePoolAfter(LivePoolAfter(live, a), b)
    decreases |a|
  {
    if a == [] {
      assert a + b == b;
    } else {
      assert (a + b)[1..] == a[1..] + b;
      LivePoolAfterAppend(AfterEvent(live, a[0]), a[1..], b);
    }
  }

  lemma {:induction false} LivePoolAfterCons(live: Option<nat>, e: Event, t: seq<Event>)
    ensures LivePoolAfter(live, [e] + t) == LivePoolAfter(AfterEvent(live, e), t)
  {
    assert ([e] + t)[1..] == t;
  }

  /** Events that neither create nor destroy a pool leave the live pool alone. */
  lemma {:induction false} LivePoolUnchanged(live: Option<nat>, t: seq<Event>)
    requires forall e <- t :: !e.Provisioned? && !e.Destroyed?
    ensures LivePoolAfter(live, t) == live
    decreases |t|
  {
    if t != [] {
      LivePoolUnchanged(live, t[1..]);
    }
  }

  /** The live pool after a trace that starts with no pool. */
  function LivePool(t: seq<Event>): Option<nat> {
    LivePoolAfter(None, t)
  }
}
