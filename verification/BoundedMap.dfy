/**
 `map_bounded_as_completed` as a transition system: tasks queue for a semaphore,
 run, and finish in any order, while one consumer takes results in completion order
 and may stop at any time.  The theorems hold for every interleaving.
 */
module BoundedMap {
  import opened Prelude
  import opened Sums

  datatype Task<R> = Waiting | Running | Returned(result: R) | Raised | Cancelled

  /** Why the consumer's loop was left. */
  datatype Reason = Exhausted | TaskRaised | Abandoned

  datatype Phase = Consuming | Closing(why: Reason) | Finished(why: Reason)

  datatype State<R> = State(
    tasks: seq<Task<R>>,
    permits: nat,
    completed: seq<nat>,       // tasks that returned or raised, in completion order
    taken: nat,                // how many of those the consumer has awaited
    yielded: seq<(nat, R)>,    // items handed to the consumer, with their results
    phase: Phase)

  datatype Event<R> =
    | Acquire(task: nat)
    | Return(task: nat, result: R)
    | Raise(task: nat)
    | Deliver
    | Exhaust
    | Abandon
    | Cancel(task: nat)
    | Finish

  function Init<R>(items: nat, concurrency: int): State<R> {
    State(seq(items, _ => Waiting), Max(1, concurrency), [], 0, [], Consuming)
  }

  predicate Live<R>(t: Task<R>) { t.Waiting? || t.Running? }

  predicate Enabled<R>(s: State<R>, e: Event<R>) {
    match e
    case Acquire(i) => s.phase.Consuming? && i < |s.tasks| && s.tasks[i].Waiting? && s.permits > 0
    case Return(i, _) => !s.phase.Finished? && i < |s.tasks| && s.tasks[i].Running?
    case Raise(i) => !s.phase.Finished? && i < |s.tasks| && s.tasks[i].Running?
    case Deliver => s.phase.Consuming? && s.taken < |s.completed| && s.completed[s.taken] < |s.tasks|
    case Exhaust => s.phase.Consuming? && |s.yielded| == |s.tasks|
    case Abandon => s.phase.Consuming?
    case Cancel(i) => s.phase.Closing? && i < |s.tasks| && Live(s.tasks[i])
    case Finish => s.phase.Closing? && forall i :: 0 <= i < |s.tasks| ==> !Live(s.tasks[i])
  }

  function Apply<R>(s: State<R>, e: Event<R>): State<R>
    requires Enabled(s, e)
  {
    match e
    case Acquire(i) => s.(tasks := s.tasks[i := Running], permits := s.permits - 1)
    case Return(i, r) => s.(tasks := s.tasks[i := Returned(r)], permits := s.permits + 1,
      completed := s.completed + [i])
    case Raise(i) => s.(tasks := s.tasks[i := Raised], permits := s.permits + 1, completed := s.completed + [i])
    case Deliver =>
      var i := s.completed[s.taken];
      if s.tasks[i].Returned?
      then s.(taken := s.taken + 1, yielded := s.yielded + [(i, s.tasks[i].result)])
      else s.(taken := s.taken + 1, phase := Closing(TaskRaised))
    case Exhaust => s.(phase := Closing(Exhausted))
    case Abandon => s.(phase := Closing(Abandoned))
    case Cancel(i) =>
      s.(tasks := s.tasks[i := Cancelled], permits := if s.tasks[i].Running? then s.permits + 1 else s.permits)
    case Finish => s.(phase := Finished(s.phase.why))
  }

  /** The state after a run of events, each enabled where it happens. */
  ghost predicate Run<R>(s: State<R>, events: seq<Event<R>>, t: State<R>)
    decreases |events|
  {
    if events == [] then s == t
    else Enabled(s, events[0]) && Run(Apply(s, events[0]), events[1..], t)
  }

  // -------------------------------------------------------------- invariant

  function InFlight<R>(t: Task<R>): nat { if t.Running? then 1 else 0 }

  function InUse<R>(s: State<R>): nat { Sum(s.tasks, InFlight) }

  predicate Ended<R>(t: Task<R>) { t.Returned? || t.Raised? }

  /** Tasks complete once, and what was yielded is the consumed part of the completion order. */
  ghost predicate Accounted<R>(s: State<R>) {
    && Distinct(s.completed) && |s.yielded| <= s.taken <= |s.completed|
    && (forall k :: 0 <= k < |s.completed| ==> s.completed[k] < |s.tasks| && Ended(s.tasks[s.completed[k]]))
    && (forall k :: 0 <= k < |s.yielded| ==>
          s.yielded[k].0 == s.completed[k] && s.tasks[s.completed[k]] == Returned(s.yielded[k].1))
    && (s.phase.Consuming? ==> |s.yielded| == s.taken)
    && (s.phase.Consuming? ==> forall i: nat :: i < |s.tasks| && !Live(s.tasks[i]) ==> i in s.completed)
  }

  /** A consumer that got an exception got it from the completion behind those it yielded. */
  ghost predicate RaisedNext<R>(s: State<R>) {
    !s.phase.Consuming? && s.phase.why == TaskRaised ==>
      var k := |s.yielded|; k < |s.completed| && s.completed[k] < |s.tasks| && s.tasks[s.completed[k]].Raised?
  }

  lemma RaisedNextKept<R>(s: State<R>, e: Event<R>)
    requires RaisedNext(s) && Accounted(s) && Enabled(s, e)
    ensures RaisedNext(Apply(s, e))
  {
  }

  ghost predicate Inv<R>(s: State<R>, items: nat, bound: nat) {
    && |s.tasks| == items
    && s.permits + InUse(s) == bound
    && Accounted(s) && RaisedNext(s)
    && (!s.phase.Consuming? && s.phase.why == Exhausted ==> |s.yielded| == items)
    && (s.phase.Finished? ==> forall i :: 0 <= i < |s.tasks| ==> !Live(s.tasks[i]))
  }

  lemma InitInv<R>(items: nat, concurrency: int)
    ensures Inv(Init<R>(items, concurrency), items, Max(1, concurrency))
  {
    SumZero(Init<R>(items, concurrency).tasks, InFlight);
  }

  lemma PermitsKept<R>(s: State<R>, e: Event<R>)
    requires Enabled(s, e)
    ensures Apply(s, e).permits + InUse(Apply(s, e)) == s.permits + InUse(s)
  {
    match e
    case Acquire(i) => SumUpdate(s.tasks, i, Running, InFlight);
    case Return(i, r) => SumUpdate(s.tasks, i, Returned(r), InFlight);
    case Raise(i) => SumUpdate(s.tasks, i, Raised, InFlight);
    case Cancel(i) => SumUpdate(s.tasks, i, Cancelled, InFlight);
    case _ =>
  }

  lemma AccountedKept<R>(s: State<R>, e: Event<R>)
    requires Accounted(s) && Enabled(s, e)
    ensures Accounted(Apply(s, e))
  {
    match e
    case Return(i, r) => EndKeeps(s, i, Returned(r));
    case Raise(i) => EndKeeps(s, i, Raised);
    case Deliver =>
    case Cancel(i) => CancelKeeps(s, i);
    case Acquire(i) =>
    case _ =>
  }

  lemma CancelKeeps<R>(s: State<R>, i: nat)
    requires Accounted(s) && Enabled(s, Cancel(i))
    ensures Accounted(Apply(s, Cancel(i)))
  {
  }

  /** A running task that ends joins the completion order. */
  lemma EndKeeps<R>(s: State<R>, i: nat, outcome: Task<R>)
    requires Accounted(s) && i < |s.tasks| && Live(s.tasks[i]) && Ended(outcome)
    ensures Accounted(s.(tasks := s.tasks[i := outcome], permits := s.permits + 1, completed := s.completed + [i]))
  {
    CompletesOnce(s, i);
  }

  lemma CompletesOnce<R>(s: State<R>, i: nat)
    requires Accounted(s) && i < |s.tasks| && Live(s.tasks[i])
    ensures i !in s.completed && Distinct(s.completed + [i])
  {
  }

  lemma {:induction false} StepKeepsInv<R>(s: State<R>, e: Event<R>, items: nat, bound: nat)
    requires Inv(s, items, bound) && Enabled(s, e)
    ensures Inv(Apply(s, e), items, bound)
  {
    hide Accounted, InUse, RaisedNext;
    PermitsKept(s, e);
    AccountedKept(s, e);
    RaisedNextKept(s, e);
  }

  lemma {:induction false} RunKeepsInv<R>(s: State<R>, events: seq<Event<R>>, t: State<R>, items: nat, bound: nat)
    requires Inv(s, items, bound) && Run(s, events, t)
    ensures Inv(t, items, bound)
    decreases |events|
  {
    hide Inv, Enabled, Apply;
    if events != [] {
      StepKeepsInv(s, events[0], items, bound);
      RunKeepsInv(Apply(s, events[0]), events[1..], t, items, bound);
    }
  }

  // --------------------------------------------------------------- theorems

  ghost predicate WasYielded<R>(t: State<R>, i: nat) { exists k :: 0 <= k < |t.yielded| && t.yielded[k].0 == i }

  /** In every reachable state: permits are conserved, calls are bounded, and no item is yielded twice. */
  lemma ReachableStates<R>(items: nat, concurrency: int, events: seq<Event<R>>, t: State<R>)
    requires Run(Init(items, concurrency), events, t)
    ensures |t.tasks| == items && t.permits + InUse(t) == Max(1, concurrency)
    ensures forall j, k :: 0 <= j < k < |t.yielded| ==> t.yielded[j].0 != t.yielded[k].0
    ensures |t.yielded| <= |t.completed| && forall k :: 0 <= k < |t.yielded| ==> t.yielded[k].0 == t.completed[k]
    ensures forall k :: 0 <= k < |t.yielded| ==>
      t.yielded[k].0 < items && t.tasks[t.yielded[k].0] == Returned(t.yielded[k].1)
    ensures !t.phase.Consuming? && t.phase.why == TaskRaised ==>
      |t.yielded| < |t.completed| && t.completed[|t.yielded|] < items && t.tasks[t.completed[|t.yielded|]].Raised?
    ensures t.phase.Finished? ==> (forall i :: 0 <= i < items ==> !Live(t.tasks[i])) && t.permits == Max(1, concurrency)
    ensures t.phase == Finished(Exhausted) ==> |t.yielded| == items && forall i: nat :: i < items ==> WasYielded(t, i)
  {
    hide Run, Init, InUse;
    InitInv<R>(items, concurrency);
    RunKeepsInv(Init(items, concurrency), events, t, items, Max(1, concurrency));
    assert |t.tasks| == items;
    if t.phase.Finished? { NoneInUse(t); }
    if t.phase == Finished(Exhausted) {
      forall i: nat | i < items ensures WasYielded(t, i) {
        var ids := t.completed[..items];
        Pigeonhole(ids, items, i);
        var k :| 0 <= k < |ids| && ids[k] == i;
        assert t.yielded[k].0 == i;
      }
    }
  }

  lemma NoneInUse<R>(t: State<R>)
    requires forall i :: 0 <= i < |t.tasks| ==> !Live(t.tasks[i])
    ensures InUse(t) == 0
  {
    SumZero(t.tasks, InFlight);
  }

  /** Steps the program takes on its own, without the consumer walking away. */
  ghost predicate CanStep<R(!new)>(s: State<R>) { exists e :: Enabled(s, e) && !e.Abandon? }

  /** No reachable state is stuck before the cleanup has finished. */
  lemma NoDeadlock<R(!new)>(s: State<R>, items: nat, bound: nat)
    requires Inv(s, items, bound) && bound >= 1 && !s.phase.Finished?
    ensures CanStep(s)
  {
    hide InUse;
    var live := set i: nat | i < |s.tasks| && Live(s.tasks[i]);
    if s.phase.Closing? {
      if live == {} {
        assert forall i: nat :: i < |s.tasks| && Live(s.tasks[i]) ==> i in live;
        assert Enabled(s, Finish);
      } else {
        var i :| i in live;
        assert Enabled(s, Cancel(i));
      }
    } else if s.taken < |s.completed| {
      assert Enabled(s, Deliver);
    } else if |s.yielded| == |s.tasks| {
      assert Enabled(s, Exhaust);
    } else {
      SomeoneLives(s);
      var i :| 0 <= i < |s.tasks| && Live(s.tasks[i]);
      if j :| 0 <= j < |s.tasks| && s.tasks[j].Running? {
        assert Enabled(s, Raise(j));
      } else {
        SumZeroInUse(s);
        assert Enabled(s, Acquire(i));
      }
    }
  }

  lemma SumZeroInUse<R>(s: State<R>)
    requires forall j :: 0 <= j < |s.tasks| ==> !s.tasks[j].Running?
    ensures InUse(s) == 0
  {
    SumZero(s.tasks, InFlight);
  }

  /** If the consumer has caught up but is not done, some task has yet to end. */
  lemma SomeoneLives<R>(s: State<R>)
    requires Accounted(s) && s.phase.Consuming? && s.taken == |s.completed| != |s.tasks|
    ensures exists i :: 0 <= i < |s.tasks| && Live(s.tasks[i])
  {
    if forall i :: 0 <= i < |s.tasks| ==> !Live(s.tasks[i]) {
      var ids := set k | 0 <= k < |s.completed| :: s.completed[k];
      DistinctCount(s.completed);
      forall i | i in Below(|s.tasks|) ensures i in ids { assert i in s.completed; }
      CountLess(ids, Below(|s.tasks|));
      CountLess(Below(|s.tasks|), ids);
      assert false;
    }
  }

  /** Work left: strictly decreases with every event, so every run ends. */
  function Weight<R>(t: Task<R>): nat { if t.Waiting? then 3 else if t.Running? then 2 else 0 }

  function Work<R>(s: State<R>): int {
    Sum(s.tasks, Weight) + |s.completed| - s.taken
    + (match s.phase case Consuming => 2 case Closing(_) => 1 case Finished(_) => 0)
  }

  lemma WorkDecreases<R>(s: State<R>, e: Event<R>)
    requires Enabled(s, e) && s.taken <= |s.completed|
    ensures Work(Apply(s, e)) < Work(s)
  {
    match e
    case Acquire(i) => SumUpdate(s.tasks, i, Running, Weight);
    case Return(i, r) => SumUpdate(s.tasks, i, Returned(r), Weight);
    case Raise(i) => SumUpdate(s.tasks, i, Raised, Weight);
    case Cancel(i) => SumUpdate(s.tasks, i, Cancelled, Weight);
    case _ =>
  }

  lemma {:induction false} RunUsesWork<R>(s: State<R>, events: seq<Event<R>>, t: State<R>)
    requires Accounted(s) && Run(s, events, t)
    ensures |events| <= Work(s) - Work(t) && Accounted(t)
    decreases |events|
  {
    hide Enabled, Apply, Work;
    if events != [] {
      WorkDecreases(s, events[0]);
      AccountedKept(s, events[0]);
      RunUsesWork(Apply(s, events[0]), events[1..], t);
    }
  }

  lemma {:induction false} AllWaiting<R>(items: nat)
    ensures Sum(seq(items, _ => Task<R>.Waiting), Weight) == 3 * items
  {
    if items > 0 {
      AllWaiting<R>(items - 1);
      assert seq(items, _ => Task<R>.Waiting)[1..] == seq(items - 1, _ => Task<R>.Waiting);
    }
  }

  /** Every run is finite, and one that cannot go on has finished its cleanup. */
  lemma EveryRunEnds<R(!new)>(items: nat, concurrency: int, events: seq<Event<R>>, t: State<R>)
    requires Run(Init(items, concurrency), events, t)
    ensures |events| <= 3 * items + 2
    ensures !CanStep(t) ==> t.phase.Finished?
  {
    hide Run, CanStep, Accounted;
    InitInv<R>(items, concurrency);
    AllWaiting<R>(items);
    RunUsesWork(Init(items, concurrency), events, t);
    RunKeepsInv(Init(items, concurrency), events, t, items, Max(1, concurrency));
    if !t.phase.Finished? { NoDeadlock(t, items, Max(1, concurrency)); }
    assert Work(t) >= 0 by { WorkNonnegative(t); }
  }

  lemma WorkNonnegative<R>(t: State<R>)
    requires Accounted(t)
    ensures Work(t) >= 0
  {
  }

  /** If no call raises and the consumer never walks away, a finished run has yielded every item. */
  lemma CleanRunYieldsAll<R>(items: nat, concurrency: int, events: seq<Event<R>>, t: State<R>)
    requires Run(Init(items, concurrency), events, t) && t.phase.Finished?
    requires forall e :: e in events ==> !e.Raise? && !e.Abandon?
    ensures |t.yielded| == items && forall i: nat :: i < items ==> WasYielded(t, i)
  {
    hide Run, WasYielded, InUse;
    InitInv<R>(items, concurrency);
    CleanRun(Init(items, concurrency), events, t);
    ReachableStates(items, concurrency, events, t);
  }

  lemma {:induction false} CleanRun<R>(s: State<R>, events: seq<Event<R>>, t: State<R>)
    requires Run(s, events, t) && forall e :: e in events ==> !e.Raise? && !e.Abandon?
    requires (forall i :: 0 <= i < |s.tasks| ==> !s.tasks[i].Raised?)
      && (s.phase.Consuming? || s.phase.why == Exhausted)
    requires Accounted(s)
    ensures t.phase.Consuming? || t.phase.why == Exhausted
    decreases |events|
  {
    if events != [] {
      AccountedKept(s, events[0]);
      hide Accounted;
      assert events[0] in events;
      CleanRun(Apply(s, events[0]), events[1..], t);
    }
  }

  // ------------------------------------------------------------ early exits

  /** One cancellation for each task that is still live. */
  lemma {:induction false} CancelAll<R>(s: State<R>, n: nat) returns (events: seq<Event<R>>, t: State<R>)
    requires s.phase.Closing? && n <= |s.tasks| && forall i :: n <= i < |s.tasks| ==> !Live(s.tasks[i])
    ensures Run(s, events, t) && t.phase == Finished(s.phase.why) && t.yielded == s.yielded && |t.tasks| == |s.tasks|
    ensures forall i :: 0 <= i < |s.tasks| ==> t.tasks[i] == if Live(s.tasks[i]) then Cancelled else s.tasks[i]
    decreases n
  {
    if n == 0 {
      events, t := [Finish], Apply(s, Finish);
      assert Run(t, [], t) && events[1..] == [];
    } else if Live(s.tasks[n - 1]) {
      var e := Cancel(n - 1);
      var rest;
      rest, t := CancelAll(Apply(s, e), n - 1);
      events := [e] + rest;
      assert events[1..] == rest;
    } else {
      events, t := CancelAll(s, n - 1);
    }
  }

  /** The consumer may leave at any time; then every live task is cancelled and nothing more is yielded. */
  lemma CanAlwaysLeave<R>(s: State<R>) returns (events: seq<Event<R>>, t: State<R>)
    requires s.phase.Consuming?
    ensures Run(s, events, t) && t.phase == Finished(Abandoned) && t.yielded == s.yielded && |t.tasks| == |s.tasks|
    ensures forall i :: 0 <= i < |s.tasks| ==> t.tasks[i] == if Live(s.tasks[i]) then Cancelled else s.tasks[i]
  {
    var rest;
    rest, t := CancelAll(Apply(s, Abandon), |s.tasks|);
    events := [Abandon] + rest;
    assert events[1..] == rest;
  }
}
