/**
 One benchmark phase: workers share a queue of units, each worker takes the next unit,
 awaits its call, records the request and registers the task the server answered with,
 and leaves when it finds the queue empty.  Interleaving is arbitrary at every await.
 */
module QueuePhase {
  import opened Prelude
  import opened Sums

  /** What a call answered: whether it succeeded, and the task id found in the payload ("" for none). */
  datatype Answer = Answer(success: bool, taskId: string)

  /** A registered server-side task, without its start time. */
  datatype PendingTask = PendingTask(adapter: string, taskId: string, taskType: string, origin: string,
    resource: string)

  /** `registers` is false for the message phase, which never looks for tasks. */
  datatype Phase = Phase(adapter: string, scenario: string, taskType: string, registers: bool)

  /** `_register_task_if_present`: at most one task per successful answer that names one. */
  function Registered(p: Phase, unit: string, a: Answer): seq<PendingTask> {
    if p.registers && a.success && a.taskId != "" then [PendingTask(p.adapter, a.taskId, p.taskType, p.scenario, unit)]
      else []
  }

  datatype Worker = Idle | Busy(unit: string) | Exited

  datatype State = State(
    queue: seq<string>,
    workers: seq<Worker>,
    log: seq<(string, Answer)>,     // requests recorded, in the order they completed
    pending: seq<PendingTask>)

  datatype Event = Take(worker: nat) | Complete(worker: nat, answer: Answer) | Leave(worker: nat)

  function Init(units: seq<string>, concurrency: int, pending: seq<PendingTask>): State {
    State(units, seq(Max(1, concurrency), _ => Idle), [], pending)
  }

  predicate Enabled(s: State, e: Event) {
    && e.worker < |s.workers|
    && match e
       case Take(w) => s.workers[w].Idle? && s.queue != []
       case Complete(w, _) => s.workers[w].Busy?
       case Leave(w) => s.workers[w].Idle? && s.queue == []
  }

  function Apply(p: Phase, s: State, e: Event): State
    requires Enabled(s, e)
  {
    match e
    case Take(w) => s.(queue := s.queue[1..], workers := s.workers[w := Busy(s.queue[0])])
    case Complete(w, a) =>
      var unit := s.workers[w].unit;
      s.(workers := s.workers[w := Idle], log := s.log + [(unit, a)], pending := s.pending + Registered(p, unit, a))
    case Leave(w) => s.(workers := s.workers[w := Exited])
  }

  ghost predicate Run(p: Phase, s: State, events: seq<Event>, t: State)
    decreases |events|
  {
    if events == [] then s == t
    else Enabled(s, events[0]) && Run(p, Apply(p, s, events[0]), events[1..], t)
  }

  /** The phase is over when every worker has left. */
  ghost predicate Over(s: State) { forall w :: 0 <= w < |s.workers| ==> s.workers[w].Exited? }

  // -------------------------------------------------------------- invariant

  /** How often a worker's hands, or a log entry, hold the unit `u`. */
  function Carries(u: string): Worker -> nat { (w: Worker) => if w == Busy(u) then 1 else 0 }

  function Records(u: string): ((string, Answer)) -> nat { (entry: (string, Answer)) => if entry.0 == u then 1 else 0 }

  /** Copies of `u` that are queued, in flight or recorded. */
  ghost function Copies(s: State, u: string): nat {
    multiset(s.queue)[u] + Sum(s.workers, Carries(u)) + Sum(s.log, Records(u))
  }

  /** Tasks the recorded answers registered, in completion order. */
  ghost function AllRegistered(p: Phase, log: seq<(string, Answer)>): seq<PendingTask> {
    if log == [] then []
    else AllRegistered(p, log[..|log| - 1]) + Registered(p, log[|log| - 1].0, log[|log| - 1].1)
  }

  /** No unit is lost or doubled, workers leave only an empty queue, and pending tasks are those the log registered. */
  ghost predicate Inv(p: Phase, s: State, units: seq<string>, before: seq<PendingTask>, workers: nat) {
    && |s.workers| == workers
    && (forall u :: Copies(s, u) == multiset(units)[u])
    && s.pending == before + AllRegistered(p, s.log)
    && ((exists w :: 0 <= w < |s.workers| && s.workers[w].Exited?) ==> s.queue == [])
  }

  lemma InitInv(p: Phase, units: seq<string>, concurrency: int, before: seq<PendingTask>)
    ensures Inv(p, Init(units, concurrency, before), units, before, Max(1, concurrency))
  {
    var s := Init(units, concurrency, before);
    forall u ensures Copies(s, u) == multiset(units)[u] { SumZero(s.workers, Carries(u)); }
    assert before + [] == before;
  }

  lemma CopiesKept(p: Phase, s: State, e: Event, u: string)
    requires Enabled(s, e)
    ensures Copies(Apply(p, s, e), u) == Copies(s, u)
  {
    hide Registered;
    var t := Apply(p, s, e);
    SumUpdate(s.workers, e.worker, t.workers[e.worker], Carries(u));
    match e
    case Take(w) =>
      assert s.queue == [s.queue[0]] + t.queue;
      assert multiset(s.queue) == multiset([s.queue[0]]) + multiset(t.queue);
    case Complete(w, a) => SumAppend(s.log, [(s.workers[w].unit, a)], Records(u));
    case Leave(w) =>
  }

  lemma StepKeepsInv(p: Phase, s: State, e: Event, units: seq<string>, before: seq<PendingTask>, workers: nat)
    requires Inv(p, s, units, before, workers) && Enabled(s, e)
    ensures Inv(p, Apply(p, s, e), units, before, workers)
  {
    hide Registered, Copies;
    var t := Apply(p, s, e);
    forall u ensures Copies(t, u) == multiset(units)[u] { CopiesKept(p, s, e, u); }
    if e.Complete? {
      assert t.log[..|t.log| - 1] == s.log;
      assert t.pending == before + (AllRegistered(p, s.log) + Registered(p, s.workers[e.worker].unit, e.answer));
    }
  }

  lemma {:induction false} RunKeepsInv(p: Phase, s: State, events: seq<Event>, t: State, units: seq<string>,
    before: seq<PendingTask>, workers: nat)
    requires Inv(p, s, units, before, workers) && Run(p, s, events, t)
    ensures Inv(p, t, units, before, workers)
    decreases |events|
  {
    hide Inv, Enabled, Apply;
    if events != [] {
      StepKeepsInv(p, s, events[0], units, before, workers);
      RunKeepsInv(p, Apply(p, s, events[0]), events[1..], t, units, before, workers);
    }
  }

  // --------------------------------------------------------------- theorems

  function InFlight(w: Worker): nat { if w.Busy? then 1 else 0 }

  lemma {:induction false} InFlightBound(ws: seq<Worker>)
    ensures Sum(ws, InFlight) <= |ws|
  {
    if ws != [] { InFlightBound(ws[1..]); }
  }

  /** One when a recorded request names this task, field by field: it succeeded, with the task's id. */
  function Names(p: Phase, task: PendingTask): ((string, Answer)) -> nat {
    (entry: (string, Answer)) =>
      if p.registers && entry.1.success && entry.1.taskId != "" && entry.1.taskId == task.taskId
         && task.adapter == p.adapter && task.taskType == p.taskType && task.origin == p.scenario
         && task.resource == entry.0
      then 1 else 0
  }

  /** The tasks a log registers are those it names, with as many copies as requests that name them. */
  lemma {:induction false} RegisteredCounts(p: Phase, log: seq<(string, Answer)>, task: PendingTask)
    ensures multiset(AllRegistered(p, log))[task] == Sum(log, Names(p, task))
  {
    if log != [] {
      var n := |log| - 1;
      RegisteredCounts(p, log[..n], task);
      SumAppend(log[..n], [log[n]], Names(p, task));
      assert log == log[..n] + [log[n]] && [log[n]][1..] == [];
    }
  }

  function AnswersOf(log: seq<(string, Answer)>): (r: seq<Answer>)
    ensures |r| == |log| && forall i :: 0 <= i < |r| ==> r[i] == log[i].1
  {
    seq(|log|, i requires 0 <= i < |log| => log[i].1)
  }

  /** What the calls of a run answered, in the order they returned. */
  function Returned(events: seq<Event>): seq<Answer> {
    if events == [] then []
    else (if events[0].Complete? then [events[0].answer] else []) + Returned(events[1..])
  }

  /** Units are taken from the front, and every answer is recorded. */
  lemma {:induction false} InOrder(p: Phase, s: State, events: seq<Event>, t: State)
    requires Run(p, s, events, t)
    ensures |t.queue| <= |s.queue| && t.queue == s.queue[|s.queue| - |t.queue|..]
    ensures AnswersOf(t.log) == AnswersOf(s.log) + Returned(events)
    decreases |events|
  {
    hide Registered;
    if events != [] {
      InOrder(p, Apply(p, s, events[0]), events[1..], t);
      assert AnswersOf(Apply(p, s, events[0]).log) == AnswersOf(s.log) + Returned([events[0]]) by {
        assert [events[0]][1..] == [];
      }
    }
  }

  /**
   In every reachable state each unit is exactly as often queued, in flight or recorded
   as it was queued at the start, units are taken from the front, every answer is recorded
   in the order the calls returned, and at most one call per worker is in flight.  A task
   is pending as often as it was before plus once for each recorded request that names it.
   A phase that is over has an empty queue and has recorded every unit exactly once per
   queued copy.
   */
  lemma ReachableStates(p: Phase, units: seq<string>, concurrency: int, before: seq<PendingTask>, events: seq<Event>,
    t: State)
    requires Run(p, Init(units, concurrency, before), events, t)
    ensures forall u :: Copies(t, u) == multiset(units)[u]
    ensures |t.queue| <= |units| && t.queue == units[|units| - |t.queue|..] && AnswersOf(t.log) == Returned(events)
    ensures Sum(t.workers, InFlight) <= Max(1, concurrency)
    ensures Over(t) ==> t.queue == [] && forall u :: Sum(t.log, Records(u)) == multiset(units)[u]
    ensures t.pending == before + AllRegistered(p, t.log)
    ensures forall task :: multiset(t.pending)[task] == multiset(before)[task] + Sum(t.log, Names(p, task))
  {
    hide Run, Init, AllRegistered;
    InitInv(p, units, concurrency, before);
    RunKeepsInv(p, Init(units, concurrency, before), events, t, units, before, Max(1, concurrency));
    InFlightBound(t.workers);
    FromStart(p, units, concurrency, before, events, t);
    forall task ensures multiset(t.pending)[task] == multiset(before)[task] + Sum(t.log, Names(p, task)) {
      RegisteredCounts(p, t.log, task);
      assert multiset(before + AllRegistered(p, t.log)) == multiset(before) + multiset(AllRegistered(p, t.log));
    }
    if Over(t) {
      assert t.workers[0].Exited?;
      forall u ensures Sum(t.log, Records(u)) == multiset(units)[u] {
        SumZero(t.workers, Carries(u));
        assert Copies(t, u) == multiset(units)[u];
      }
    }
  }

  lemma FromStart(p: Phase, units: seq<string>, concurrency: int, before: seq<PendingTask>, events: seq<Event>,
    t: State)
    requires Run(p, Init(units, concurrency, before), events, t)
    ensures |t.queue| <= |units| && t.queue == units[|units| - |t.queue|..] && AnswersOf(t.log) == Returned(events)
  {
    hide Run;
    InOrder(p, Init(units, concurrency, before), events, t);
    assert [] + Returned(events) == Returned(events);
  }

  function Weight(w: Worker): nat { match w case Idle => 1 case Busy(_) => 2 case Exited => 0 }

  function Work(s: State): nat { 2 * |s.queue| + Sum(s.workers, Weight) }

  lemma WorkDecreases(p: Phase, s: State, e: Event)
    requires Enabled(s, e)
    ensures Work(Apply(p, s, e)) + 1 == Work(s)
  {
    SumUpdate(s.workers, e.worker, Apply(p, s, e).workers[e.worker], Weight);
  }

  lemma {:induction false} RunUsesWork(p: Phase, s: State, events: seq<Event>, t: State)
    requires Run(p, s, events, t)
    ensures |events| + Work(t) == Work(s)
    decreases |events|
  {
    hide Enabled, Apply, Work;
    if events != [] {
      WorkDecreases(p, s, events[0]);
      RunUsesWork(p, Apply(p, s, events[0]), events[1..], t);
    }
  }

  lemma {:induction false} AllIdle(n: nat)
    ensures Sum(seq(n, _ => Idle), Weight) == n
  {
    if n > 0 {
      AllIdle(n - 1);
      assert seq(n, _ => Idle)[1..] == seq(n - 1, _ => Idle);
    }
  }

  /** Every run is finite, and a state with nothing left to do is one where the phase is over. */
  lemma EveryRunEnds(p: Phase, units: seq<string>, concurrency: int, before: seq<PendingTask>, events: seq<Event>,
    t: State)
    requires Run(p, Init(units, concurrency, before), events, t)
    ensures |events| <= 2 * |units| + Max(1, concurrency)
    ensures Over(t) || exists e :: Enabled(t, e)
  {
    RunUsesWork(p, Init(units, concurrency, before), events, t);
    AllIdle(Max(1, concurrency));
    if !Over(t) {
      var w :| 0 <= w < |t.workers| && !t.workers[w].Exited?;
      assert Enabled(t, Take(w)) || Enabled(t, Leave(w)) || Enabled(t, Complete(w, Answer(false, "")));
    }
  }

  /** What was pending before a phase is only carried along. */
  lemma {:induction false} CarriedAlong(p: Phase, s: State, events: seq<Event>, t: State, before: seq<PendingTask>)
    requires Run(p, s, events, t)
    ensures Run(p, s.(pending := before + s.pending), events, t.(pending := before + t.pending))
    decreases |events|
  {
    hide Registered;
    if events != [] {
      var e := events[0];
      var a, b := Apply(p, s, e), Apply(p, s.(pending := before + s.pending), e);
      assert b == a.(pending := before + a.pending) by {
        if e.Complete? {
          var x := Registered(p, s.workers[e.worker].unit, e.answer);
          assert before + (s.pending + x) == before + s.pending + x;
        }
      }
      CarriedAlong(p, a, events[1..], t, before);
    }
  }

  /** A step of a run, and what it registers. */
  lemma NextStep(p: Phase, s: State, events: seq<Event>, t: State)
    requires Run(p, s, events, t) && events != []
    ensures Enabled(s, events[0]) && Run(p, Apply(p, s, events[0]), events[1..], t)
    ensures var u := Apply(p, s, events[0]); var x := Gained(p, s, events[0]);
      u.pending == s.pending + x && AllRegistered(p, u.log) == AllRegistered(p, s.log) + x
  {
    hide Registered;
    var u := Apply(p, s, events[0]);
    if events[0].Complete? { assert u.log[..|u.log| - 1] == s.log; }
  }

  function Gained(p: Phase, s: State, e: Event): seq<PendingTask>
    requires Enabled(s, e)
  {
    if e.Complete? then Registered(p, s.workers[e.worker].unit, e.answer) else []
  }
}
