/**
 `run_request_set` as a transition system: every request parks on a start event, then
 takes a semaphore permit, runs one query and records its outcome; the caller gathers
 the outcomes by request index.  A query that raises still returns an outcome, so no
 request is lost.
 */
module RequestSet {
  import opened Sums

  datatype Request<O> = Parked | Queued | Running | Returned(outcome: O)

  datatype State<O> = State(requests: seq<Request<O>>, permits: nat, open: bool, log: seq<(nat, O)>)

  datatype Event<O> = Open | Pass(request: nat) | Acquire(request: nat) | Return(request: nat, outcome: O)

  function Init<O>(count: nat, concurrency: nat): State<O> {
    State(seq(count, _ => Parked), concurrency, false, [])
  }

  predicate Enabled<O>(s: State<O>, e: Event<O>) {
    match e
    case Open => !s.open
    case Pass(i) => s.open && i < |s.requests| && s.requests[i].Parked?
    case Acquire(i) => s.permits > 0 && i < |s.requests| && s.requests[i].Queued?
    case Return(i, _) => i < |s.requests| && s.requests[i].Running?
  }

  function Apply<O>(s: State<O>, e: Event<O>): State<O>
    requires Enabled(s, e)
  {
    match e
    case Open => s.(open := true)
    case Pass(i) => s.(requests := s.requests[i := Queued])
    case Acquire(i) => s.(requests := s.requests[i := Running], permits := s.permits - 1)
    case Return(i, o) =>
      s.(requests := s.requests[i := Returned(o)], permits := s.permits + 1, log := s.log + [(i, o)])
  }

  ghost predicate Run<O>(s: State<O>, events: seq<Event<O>>, t: State<O>)
    decreases |events|
  {
    if events == [] then s == t
    else Enabled(s, events[0]) && Run(Apply(s, events[0]), events[1..], t)
  }

  /** The gather is over: every request has an outcome. */
  ghost predicate Gathered<O>(s: State<O>) { forall i :: 0 <= i < |s.requests| ==> s.requests[i].Returned? }

  /** What gather hands back: outcomes in request order, whatever the completion order was. */
  function Outcomes<O>(s: State<O>): (r: seq<O>)
    requires forall i :: 0 <= i < |s.requests| ==> s.requests[i].Returned?
    ensures |r| == |s.requests|
  {
    seq(|s.requests|, i requires 0 <= i < |s.requests| => s.requests[i].outcome)
  }

  function InFlight<O>(r: Request<O>): nat { if r.Running? then 1 else 0 }

  function InUse<O>(s: State<O>): nat { Sum(s.requests, InFlight) }

  ghost predicate Logged<O>(s: State<O>) {
    && (forall j, k :: 0 <= j < k < |s.log| ==> s.log[j].0 != s.log[k].0)
    && (forall k :: 0 <= k < |s.log| ==> s.log[k].0 < |s.requests| && s.requests[s.log[k].0] == Returned(s.log[k].1))
    && (forall i: nat :: i < |s.requests| && s.requests[i].Returned? ==> (i, s.requests[i].outcome) in s.log)
  }

  ghost predicate Inv<O>(s: State<O>, count: nat, concurrency: nat) {
    && |s.requests| == count && s.permits + InUse(s) == concurrency && Logged(s)
    && (!s.open ==> s.log == [] && forall i :: 0 <= i < |s.requests| ==> s.requests[i].Parked?)
  }

  lemma InitInv<O>(count: nat, concurrency: nat)
    ensures Inv(Init<O>(count, concurrency), count, concurrency)
  {
    SumZero(Init<O>(count, concurrency).requests, InFlight);
  }

  lemma LoggedKept<O>(s: State<O>, e: Event<O>)
    requires Logged(s) && Enabled(s, e)
    ensures Logged(Apply(s, e))
  {
    var t := Apply(s, e);
    forall i: nat | i < |t.requests| && t.requests[i].Returned? ensures (i, t.requests[i].outcome) in t.log {
      if e.Return? && e.request == i {
        assert t.log[|s.log|] == (i, t.requests[i].outcome);
      } else {
        assert (i, s.requests[i].outcome) in s.log;
      }
    }
  }

  lemma StepKeepsInv<O>(s: State<O>, e: Event<O>, count: nat, concurrency: nat)
    requires Inv(s, count, concurrency) && Enabled(s, e)
    ensures Inv(Apply(s, e), count, concurrency)
  {
    hide Logged;
    LoggedKept(s, e);
    match e
    case Open =>
    case Pass(i) => SumUpdate(s.requests, i, Queued, InFlight);
    case Acquire(i) => SumUpdate(s.requests, i, Running, InFlight);
    case Return(i, o) => SumUpdate(s.requests, i, Returned(o), InFlight);
  }

  lemma {:induction false} RunKeepsInv<O>(s: State<O>, events: seq<Event<O>>, t: State<O>, count: nat, concurrency: nat)
    requires Inv(s, count, concurrency) && Run(s, events, t)
    ensures Inv(t, count, concurrency)
    decreases |events|
  {
    hide Inv, Enabled, Apply;
    if events != [] {
      StepKeepsInv(s, events[0], count, concurrency);
      RunKeepsInv(Apply(s, events[0]), events[1..], t, count, concurrency);
    }
  }

  /**
   In every reachable state at most `concurrency` queries run and none before the start
   event; once gathered, the outcomes are one per request, in request order, each the one
   outcome that request recorded.
   */
  lemma ReachableStates<O>(count: nat, concurrency: nat, events: seq<Event<O>>, t: State<O>)
    requires Run(Init(count, concurrency), events, t)
    ensures t.permits + InUse(t) == concurrency
    ensures !t.open ==> InUse(t) == 0 && t.log == []
    ensures Gathered(t) ==> |Outcomes(t)| == count && |t.log| == count
    ensures Gathered(t) ==> forall k :: 0 <= k < |t.log| ==> t.log[k].0 < count && Outcomes(t)[t.log[k].0] == t.log[k].1
    ensures forall j, k :: 0 <= j < k < |t.log| ==> t.log[j].0 != t.log[k].0
  {
    hide Run, Init, InUse;
    InitInv<O>(count, concurrency);
    RunKeepsInv(Init(count, concurrency), events, t, count, concurrency);
    if !t.open { NoneInUse(t); }
    if Gathered(t) { EachLoggedOnce(t); }
  }

  lemma NoneInUse<O>(t: State<O>)
    requires forall i :: 0 <= i < |t.requests| ==> t.requests[i].Parked?
    ensures InUse(t) == 0
  {
    SumZero(t.requests, InFlight);
  }

  lemma EachLoggedOnce<O>(t: State<O>)
    requires Logged(t) && Gathered(t)
    ensures |t.log| == |t.requests|
  {
    var ids := seq(|t.log|, k requires 0 <= k < |t.log| => t.log[k].0);
    var used := set k | 0 <= k < |ids| :: ids[k];
    DistinctCount(ids);
    forall i | i in Below(|t.requests|) ensures i in used {
      assert (i, t.requests[i].outcome) in t.log;
      var k :| 0 <= k < |t.log| && t.log[k] == (i, t.requests[i].outcome);
      assert ids[k] == i;
    }
    CountLess(used, Below(|t.requests|));
    CountLess(Below(|t.requests|), used);
  }

  ghost predicate CanStep<O(!new)>(s: State<O>) { exists e :: Enabled(s, e) }

  /** With at least one permit, a state where nothing can happen is a gathered one. */
  lemma NoDeadlock<O(!new)>(s: State<O>, count: nat, concurrency: nat, o: O)
    requires Inv(s, count, concurrency) && concurrency >= 1 && !Gathered(s)
    ensures CanStep(s)
  {
    hide InUse, Logged;
    var i :| 0 <= i < |s.requests| && !s.requests[i].Returned?;
    if !s.open {
      assert Enabled(s, Open);
    } else if s.requests[i].Parked? {
      assert Enabled(s, Pass(i));
    } else if s.requests[i].Running? {
      assert Enabled(s, Return(i, o));
    } else if j :| 0 <= j < |s.requests| && s.requests[j].Running? {
      assert Enabled(s, Return(j, o));
    } else {
      NoneRunning(s);
      assert Enabled(s, Acquire(i));
    }
  }

  lemma NoneRunning<O>(s: State<O>)
    requires forall j :: 0 <= j < |s.requests| ==> !s.requests[j].Running?
    ensures InUse(s) == 0
  {
    SumZero(s.requests, InFlight);
  }

  /** Nothing guards against zero concurrency: then no reachable state is ever gathered. */
  lemma {:induction false} ZeroPermitsNeverGather<O>(s: State<O>, events: seq<Event<O>>, t: State<O>)
    requires Run(s, events, t) && s.permits == 0 && |s.requests| > 0
    requires forall i :: 0 <= i < |s.requests| ==> s.requests[i].Parked? || s.requests[i].Queued?
    ensures !Gathered(t)
    decreases |events|
  {
    assert !s.requests[0].Returned?;
    if events != [] { ZeroPermitsNeverGather(Apply(s, events[0]), events[1..], t); }
  }

  function Weight<O>(r: Request<O>): nat {
    match r case Parked => 3 case Queued => 2 case Running => 1 case Returned(_) => 0
  }

  function Work<O>(s: State<O>): nat { Sum(s.requests, Weight) + if s.open then 0 else 1 }

  lemma WorkDecreases<O>(s: State<O>, e: Event<O>)
    requires Enabled(s, e)
    ensures Work(Apply(s, e)) + 1 == Work(s)
  {
    match e
    case Open =>
    case Pass(i) => SumUpdate(s.requests, i, Queued, Weight);
    case Acquire(i) => SumUpdate(s.requests, i, Running, Weight);
    case Return(i, o) => SumUpdate(s.requests, i, Returned(o), Weight);
  }

  lemma {:induction false} RunUsesWork<O>(s: State<O>, events: seq<Event<O>>, t: State<O>)
    requires Run(s, events, t)
    ensures |events| + Work(t) == Work(s)
    decreases |events|
  {
    hide Enabled, Apply, Work;
    if events != [] {
      WorkDecreases(s, events[0]);
      RunUsesWork(Apply(s, events[0]), events[1..], t);
    }
  }

  /** A run that cannot go on has gathered exactly when there was a permit to give or nothing to do. */
  lemma MaximalRunsGather<O(!new)>(count: nat, concurrency: nat, events: seq<Event<O>>, t: State<O>, o: O)
    requires Run(Init(count, concurrency), events, t) && !CanStep(t)
    ensures Gathered(t) <==> concurrency >= 1 || count == 0
  {
    hide Run, CanStep;
    InitInv<O>(count, concurrency);
    RunKeepsInv(Init(count, concurrency), events, t, count, concurrency);
    if concurrency >= 1 {
      if !Gathered(t) { NoDeadlock(t, count, concurrency, o); }
    } else if count > 0 {
      ZeroPermitsNeverGather(Init(count, concurrency), events, t);
    }
  }
}
