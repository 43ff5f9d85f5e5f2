/**
 Server-side tasks over a whole benchmark run: phases register them, drains poll them,
 and whatever is left is finalized as incomplete.  Poll answers and the clock are
 arbitrary.
 */
module TaskLifecycle {
  import opened Sums
  import opened QueuePhase

  datatype TaskEvent = TaskEvent(
    adapter: string, taskId: string, taskType: string, origin: string,
    completion: string, status: string, resource: string)

  /** The task an event is about. */
  function Tag(e: TaskEvent): PendingTask { PendingTask(e.adapter, e.taskId, e.taskType, e.origin, e.resource) }

  function Tags(events: seq<TaskEvent>): (r: seq<PendingTask>)
    ensures |r| == |events| && forall i :: 0 <= i < |r| ==> r[i] == Tag(events[i])
  {
    seq(|events|, i requires 0 <= i < |events| => Tag(events[i]))
  }

  function EventFor(t: PendingTask, scenario: string, status: string): (e: TaskEvent)
    ensures Tag(e) == t
  {
    TaskEvent(t.adapter, t.taskId, t.taskType, t.origin, scenario, status, t.resource)
  }

  /** Every registered task is pending or has its event, and nothing else is or has. */
  ghost predicate Balance(registered: seq<PendingTask>, pending: seq<PendingTask>, events: seq<TaskEvent>) {
    multiset(registered) == multiset(pending) + multiset(Tags(events))
  }

  ghost predicate Terminal(events: seq<TaskEvent>) {
    forall i :: 0 <= i < |events| ==> events[i].status in {"completed", "failed", "incomplete"}
  }

  lemma BalanceRegister(registered: seq<PendingTask>, pending: seq<PendingTask>, events: seq<TaskEvent>,
    x: seq<PendingTask>)
    requires Balance(registered, pending, events)
    ensures Balance(registered + x, pending + x, events)
  {
    assert multiset(registered + x) == multiset(registered) + multiset(x);
    assert multiset(pending + x) == multiset(pending) + multiset(x);
  }

  lemma BalanceRecord(registered: seq<PendingTask>, before: seq<PendingTask>, rest: seq<PendingTask>, e: TaskEvent,
    events: seq<TaskEvent>)
    requires Balance(registered, before + ([Tag(e)] + rest), events)
    ensures Balance(registered, before + rest, events + [e])
  {
    assert Tags(events + [e]) == Tags(events) + [Tag(e)];
    assert multiset(before + ([Tag(e)] + rest)) == multiset(before) + (multiset([Tag(e)]) + multiset(rest));
    assert multiset(before + rest) == multiset(before) + multiset(rest);
    assert multiset(Tags(events) + [Tag(e)]) == multiset(Tags(events)) + multiset([Tag(e)]);
  }

  /** In every state of a queue phase, at whatever await, registered tasks are the pending and the recorded ones. */
  lemma PhaseBalance(p: Phase, units: seq<string>, concurrency: int, before: seq<PendingTask>,
    schedule: seq<Event>, t: State, registered: seq<PendingTask>, events: seq<TaskEvent>)
    requires Run(p, Init(units, concurrency, before), schedule, t) && Balance(registered, before, events)
    ensures Balance(registered + AllRegistered(p, t.log), t.pending, events)
  {
    hide Run, Init, Balance, AllRegistered;
    ReachableStates(p, units, concurrency, before, schedule, t);
    BalanceRegister(registered, before, events, AllRegistered(p, t.log));
  }

  /** What a poll answered. */
  datatype Poll = Poll(success: bool, status: string)

  /** One polling round's answers, by position in the pending list. */
  type Round = nat -> Poll

  predicate Ends(adapters: set<string>, t: PendingTask, a: Poll) {
    t.adapter in adapters && a.success && a.status in {"completed", "failed"}
  }

  function Ended(adapters: set<string>, pending: seq<PendingTask>, round: Round, scenario: string): seq<TaskEvent> {
    if pending == [] then []
    else
      var n := |pending| - 1;
      Ended(adapters, pending[..n], round, scenario)
      + if Ends(adapters, pending[n], round(n)) then [EventFor(pending[n], scenario, round(n).status)] else []
  }

  function Unended(adapters: set<string>, pending: seq<PendingTask>, round: Round): seq<PendingTask> {
    if pending == [] then []
    else
      var n := |pending| - 1;
      Unended(adapters, pending[..n], round) + if Ends(adapters, pending[n], round(n)) then [] else [pending[n]]
  }

  /** The event is about this task, field by field. */
  predicate About(e: TaskEvent, task: PendingTask) {
    && e.adapter == task.adapter && e.taskId == task.taskId && e.taskType == task.taskType
    && e.origin == task.origin && e.resource == task.resource
  }

  function Reports(task: PendingTask): TaskEvent -> nat { (e: TaskEvent) => if About(e, task) then 1 else 0 }

  /** One for such an event that was recorded in this drain with this status. */
  function ReportsAs(task: PendingTask, scenario: string, status: string): TaskEvent -> nat {
    (e: TaskEvent) => if e.completion == scenario && e.status == status && About(e, task) then 1 else 0
  }

  lemma {:induction false} TagsCount(events: seq<TaskEvent>, task: PendingTask)
    ensures multiset(Tags(events))[task] == Sum(events, Reports(task))
  {
    if events != [] {
      TagsCount(events[1..], task);
      assert Tags(events) == [Tag(events[0])] + Tags(events[1..]);
    }
  }

  /** Polls of a round that answer, for this task, that it has this terminal status. */
  function Polls(adapters: set<string>, pending: seq<PendingTask>, round: Round, task: PendingTask,
    status: string): nat {
    if pending == [] then 0
    else
      var n := |pending| - 1;
      Polls(adapters, pending[..n], round, task, status)
      + if pending[n] == task && task.adapter in adapters && round(n).success && round(n).status == status
           && (status == "completed" || status == "failed")
        then 1 else 0
  }

  /** A round records a task with a status once for each poll that answered so. */
  lemma {:induction false} EndedCounts(adapters: set<string>, pending: seq<PendingTask>, round: Round, scenario: string,
    task: PendingTask, status: string)
    ensures Sum(Ended(adapters, pending, round, scenario), ReportsAs(task, scenario, status)) ==
            Polls(adapters, pending, round, task, status)
    decreases |pending|
  {
    if pending != [] {
      var n := |pending| - 1;
      var done := Ended(adapters, pending[..n], round, scenario);
      EndedCounts(adapters, pending[..n], round, scenario, task, status);
      var e := EventFor(pending[n], scenario, round(n).status);
      SumAppend(done, [e], ReportsAs(task, scenario, status));
      SumOne(e, ReportsAs(task, scenario, status));
      assert done + [] == done;
    }
  }

  lemma {:induction false} EndedTerminal(adapters: set<string>, pending: seq<PendingTask>, round: Round,
    scenario: string)
    ensures Terminal(Ended(adapters, pending, round, scenario))
    decreases |pending|
  {
    if pending != [] { EndedTerminal(adapters, pending[..|pending| - 1], round, scenario); }
  }

  lemma TerminalAppend(a: seq<TaskEvent>, b: seq<TaskEvent>)
    requires Terminal(a) && Terminal(b)
    ensures Terminal(a + b)
  {
  }

  /** A polling round moves tasks from pending to events without losing or doubling any. */
  lemma {:induction false} RoundBalances(registered: seq<PendingTask>, adapters: set<string>, pending: seq<PendingTask>,
    rest: seq<PendingTask>, round: Round, scenario: string, events: seq<TaskEvent>)
    requires Balance(registered, pending + rest, events)
    ensures Balance(registered, Unended(adapters, pending, round) + rest,
      events + Ended(adapters, pending, round, scenario))
    decreases |pending|
  {
    hide Balance, Ends;
    if pending == [] {
      assert events + [] == events;
    } else {
      var n := |pending| - 1;
      var t := pending[n];
      assert pending + rest == pending[..n] + ([t] + rest);
      RoundBalances(registered, adapters, pending[..n], [t] + rest, round, scenario, events);
      var before, done := Unended(adapters, pending[..n], round), Ended(adapters, pending[..n], round, scenario);
      if Ends(adapters, t, round(n)) {
        BalanceRecord(registered, before, rest, EventFor(t, scenario, round(n).status), events + done);
        assert events + done + [EventFor(t, scenario, round(n).status)] ==
          events + (done + [EventFor(t, scenario, round(n).status)]);
        assert before + [] == before;
      } else {
        assert before + ([t] + rest) == before + [t] + rest;
        assert events + (done + []) == events + done;
      }
    }
  }

  /**
   Inside a round, after `i` polls, the pending list has not been replaced yet.  What is
   in balance is the tasks kept so far and those not polled; the stale list itself is in
   balance exactly while no poll of this round has ended a task.
   */
  lemma WithinRound(registered: seq<PendingTask>, adapters: set<string>, pending: seq<PendingTask>, i: nat,
    round: Round, scenario: string, events: seq<TaskEvent>)
    requires Balance(registered, pending, events) && i <= |pending|
    ensures Balance(registered, Unended(adapters, pending[..i], round) + pending[i..],
                    events + Ended(adapters, pending[..i], round, scenario))
    ensures Balance(registered, pending, events + Ended(adapters, pending[..i], round, scenario))
            <==> forall k :: 0 <= k < i ==> !Ends(adapters, pending[k], round(k))
  {
    hide Balance, Ends;
    var done := Ended(adapters, pending[..i], round, scenario);
    assert pending == pending[..i] + pending[i..];
    RoundBalances(registered, adapters, pending[..i], pending[i..], round, scenario, events);
    NoneEnded(adapters, pending[..i], round, scenario);
    assert done == [] ==> events + done == events;
    if Balance(registered, pending, events + done) { SameBalance(registered, pending, events, done); }
  }

  lemma {:induction false} NoneEnded(adapters: set<string>, pending: seq<PendingTask>, round: Round, scenario: string)
    ensures Ended(adapters, pending, round, scenario) == [] <==>
      forall k :: 0 <= k < |pending| ==> !Ends(adapters, pending[k], round(k))
    decreases |pending|
  {
    hide Ends;
    if pending != [] {
      var n := |pending| - 1;
      NoneEnded(adapters, pending[..n], round, scenario);
      assert forall k :: 0 <= k < n ==> pending[..n][k] == pending[k];
    }
  }

  lemma SameBalance(registered: seq<PendingTask>, pending: seq<PendingTask>, events: seq<TaskEvent>,
    more: seq<TaskEvent>)
    requires Balance(registered, pending, events) && Balance(registered, pending, events + more)
    ensures more == []
  {
    assert Tags(events + more) == Tags(events) + Tags(more);
    assert multiset(Tags(events) + Tags(more)) == multiset(Tags(events)) + multiset(Tags(more));
    assert |multiset(registered)| == |multiset(pending)| + |multiset(Tags(events))| + |multiset(Tags(more))|;
  }

  /** One finished task, polled first of two: counted twice until the round's end. */
  lemma StaleListExample() returns (adapters: set<string>, pending: seq<PendingTask>, round: Round, scenario: string)
    ensures |pending| == 2 && Balance(pending, pending, [])
    ensures !Balance(pending, pending, Ended(adapters, pending[..1], round, scenario))
  {
    hide Balance, Ended, Unended;
    var t := PendingTask("http", "t1", "session_commit", "session_commit", "s1");
    adapters, scenario := {"http"}, "final_drain";
    pending := [t, t.(taskId := "t2")];
    round := _ => Poll(true, "completed");
    NothingRecorded(pending);
    WithinRound(pending, adapters, pending, 1, round, scenario, []);
    assert [] + Ended(adapters, pending[..1], round, scenario) == Ended(adapters, pending[..1], round, scenario);
    assert Ends(adapters, pending[0], round(0));
  }

  lemma NothingRecorded(pending: seq<PendingTask>)
    ensures Balance(pending, pending, [])
  {
    assert Tags([]) == [];
  }

  /** A run of a queue phase: its units and workers, the order in which they moved, and where that ended. */
  datatype PhaseRun = PhaseRun(units: seq<string>, concurrency: int, schedule: seq<Event>, end: State)

  ghost predicate Finished(p: Phase, r: PhaseRun) {
    Run(p, Init(r.units, r.concurrency, []), r.schedule, r.end) && Over(r.end)
  }

  /**
   The finished queue phases of one adapter, what its mixed scenario recorded with each
   task's type, and the polling rounds each drain got in before its deadline.
   */
  datatype AdapterRun = AdapterRun(
    name: string,
    resources: PhaseRun, resourceRounds: seq<Round>,
    commits: PhaseRun, commitRounds: seq<Round>,
    mixed: seq<(string, string, Answer)>, mixedRounds: seq<Round>)

  function ResourcePhase(name: string): Phase { Phase(name, "add_resources", "add_resource", true) }

  function CommitPhase(name: string): Phase { Phase(name, "session_commit", "session_commit", true) }

  ghost predicate FinishedAdapter(r: AdapterRun) {
    Finished(ResourcePhase(r.name), r.resources) && Finished(CommitPhase(r.name), r.commits)
  }

  ghost function MixedTasks(name: string, mixed: seq<(string, string, Answer)>): seq<PendingTask> {
    if mixed == [] then []
    else
      var m := mixed[|mixed| - 1];
      MixedTasks(name, mixed[..|mixed| - 1]) + Registered(Phase(name, "mixed", m.0, true), m.1, m.2)
  }

  /** Tasks one adapter's phases register. */
  ghost function AdapterTasks(r: AdapterRun): seq<PendingTask> {
    AllRegistered(ResourcePhase(r.name), r.resources.end.log)
    + AllRegistered(CommitPhase(r.name), r.commits.end.log)
    + MixedTasks(r.name, r.mixed)
  }

  ghost function RunTasks(runs: seq<AdapterRun>): seq<PendingTask> {
    if runs == [] then [] else RunTasks(runs[..|runs| - 1]) + AdapterTasks(runs[|runs| - 1])
  }

  // ----------------------------------------------------- what a run computes

  /** What is pending and what has been recorded. */
  datatype Ledger = Ledger(pending: seq<PendingTask>, events: seq<TaskEvent>)

  function Added(l: Ledger, tasks: seq<PendingTask>): Ledger { l.(pending := l.pending + tasks) }

  function Incomplete(pending: seq<PendingTask>, scenario: string): (r: seq<TaskEvent>)
    ensures |r| == |pending| && forall i :: 0 <= i < |r| ==> r[i] == EventFor(pending[i], scenario, "incomplete")
  {
    seq(|pending|, i requires 0 <= i < |pending| => EventFor(pending[i], scenario, "incomplete"))
  }

  function Finalized(l: Ledger, scenario: string): Ledger { Ledger([], l.events + Incomplete(l.pending, scenario)) }

  function AfterRound(adapters: set<string>, l: Ledger, round: Round, scenario: string): Ledger {
    Ledger(Unended(adapters, l.pending, round), l.events + Ended(adapters, l.pending, round, scenario))
  }

  /** Rounds until nothing is pending or the rounds that fit before the deadline are over. */
  function Polled(adapters: set<string>, l: Ledger, rounds: seq<Round>, scenario: string): Ledger
    decreases |rounds|
  {
    if l.pending == [] || rounds == [] then l
    else Polled(adapters, AfterRound(adapters, l, rounds[0], scenario), rounds[1..], scenario)
  }

  function Drained(adapters: set<string>, inTime: bool, l: Ledger, rounds: seq<Round>, scenario: string): Ledger {
    if l.pending == [] || !inTime then Finalized(l, scenario)
    else
      var m := Polled(adapters, l, rounds, scenario);
      if scenario == "final_drain" then Finalized(m, scenario) else m
  }

  /** The ledger after the first `k` rounds. */
  function RoundsDone(adapters: set<string>, l: Ledger, rounds: seq<Round>, scenario: string, k: nat): Ledger
    requires k <= |rounds|
  {
    if k == 0 then l
    else AfterRound(adapters, RoundsDone(adapters, l, rounds, scenario, k - 1), rounds[k - 1], scenario)
  }

  /** Polling stops after `k` rounds: something was pending before each of them, and nothing is left to do. */
  ghost predicate StopsAfter(adapters: set<string>, l: Ledger, rounds: seq<Round>, scenario: string, k: nat) {
    && k <= |rounds|
    && (forall j :: 0 <= j < k ==> RoundsDone(adapters, l, rounds, scenario, j).pending != [])
    && (k == |rounds| || RoundsDone(adapters, l, rounds, scenario, k).pending == [])
  }

  lemma {:induction false} FirstRound(adapters: set<string>, l: Ledger, rounds: seq<Round>, scenario: string, k: nat)
    requires 0 < k <= |rounds|
    ensures RoundsDone(adapters, l, rounds, scenario, k) ==
      RoundsDone(adapters, AfterRound(adapters, l, rounds[0], scenario), rounds[1..], scenario, k - 1)
  {
    hide AfterRound;
    if k > 1 { FirstRound(adapters, l, rounds, scenario, k - 1); }
  }

  lemma {:induction false} PolledStops(adapters: set<string>, l: Ledger, rounds: seq<Round>, scenario: string)
    returns (k: nat)
    ensures StopsAfter(adapters, l, rounds, scenario, k)
    ensures Polled(adapters, l, rounds, scenario) == RoundsDone(adapters, l, rounds, scenario, k)
    decreases |rounds|
  {
    hide AfterRound;
    if l.pending == [] || rounds == [] {
      k := 0;
    } else {
      var m := PolledStops(adapters, AfterRound(adapters, l, rounds[0], scenario), rounds[1..], scenario);
      k := m + 1;
      forall j | 0 < j <= k ensures RoundsDone(adapters, l, rounds, scenario, j) ==
        RoundsDone(adapters, AfterRound(adapters, l, rounds[0], scenario), rounds[1..], scenario, j - 1)
      {
        FirstRound(adapters, l, rounds, scenario, j);
      }
    }
  }

  /**
   What a drain does: without time or tasks it finalizes; otherwise it polls until nothing
   is pending or the rounds are over, and the last drain then finalizes what is left.
   */
  lemma DrainedIs(adapters: set<string>, inTime: bool, l: Ledger, rounds: seq<Round>, scenario: string)
    ensures l.pending == [] || !inTime ==> Drained(adapters, inTime, l, rounds, scenario) == Finalized(l, scenario)
    ensures l.pending != [] && inTime ==> exists k ::
      && StopsAfter(adapters, l, rounds, scenario, k)
      && var m := RoundsDone(adapters, l, rounds, scenario, k);
         Drained(adapters, inTime, l, rounds, scenario) ==
         if scenario == "final_drain" then Finalized(m, scenario) else m
  {
    hide Finalized;
    if l.pending != [] && inTime { var k := PolledStops(adapters, l, rounds, scenario); }
  }

  // ------------------------------------------------- the tasks of a whole run

  /** One when a request of the mixed scenario names this task. */
  function MixedNames(name: string, task: PendingTask): ((string, string, Answer)) -> nat {
    (m: (string, string, Answer)) =>
      if m.2.success && m.2.taskId != "" && m.2.taskId == task.taskId && task.adapter == name
         && task.taskType == m.0 && task.origin == "mixed" && task.resource == m.1
      then 1 else 0
  }

  function CountOf(task: PendingTask): AdapterRun -> nat { (r: AdapterRun) => AdapterTotal(r, task) }

  /** Requests of one adapter that name this task, with the types and origins of their phases. */
  function AdapterTotal(r: AdapterRun, task: PendingTask): nat {
    Sum(r.resources.end.log, Names(Phase(r.name, "add_resources", "add_resource", true), task))
    + Sum(r.commits.end.log, Names(Phase(r.name, "session_commit", "session_commit", true), task))
    + Sum(r.mixed, MixedNames(r.name, task))
  }

  lemma {:induction false} MixedCounts(name: string, mixed: seq<(string, string, Answer)>, task: PendingTask)
    ensures multiset(MixedTasks(name, mixed))[task] == Sum(mixed, MixedNames(name, task))
  {
    if mixed != [] {
      var n := |mixed| - 1;
      MixedCounts(name, mixed[..n], task);
      SumAppend(mixed[..n], [mixed[n]], MixedNames(name, task));
      SumOne(mixed[n], MixedNames(name, task));
      assert mixed == mixed[..n] + [mixed[n]];
    }
  }

  lemma AdapterCounts(r: AdapterRun, task: PendingTask)
    ensures multiset(AdapterTasks(r))[task] == AdapterTotal(r, task)
  {
    hide AllRegistered, MixedTasks;
    RegisteredCounts(ResourcePhase(r.name), r.resources.end.log, task);
    RegisteredCounts(CommitPhase(r.name), r.commits.end.log, task);
    MixedCounts(r.name, r.mixed, task);
  }

  /** The tasks of a run are those its recorded requests name, with as many copies as requests that name them. */
  lemma {:induction false} RunCounts(runs: seq<AdapterRun>, task: PendingTask)
    ensures multiset(RunTasks(runs))[task] == Sum(runs, CountOf(task))
  {
    hide AdapterTasks, AdapterTotal;
    if runs != [] {
      var n := |runs| - 1;
      RunCounts(runs[..n], task);
      AdapterCounts(runs[n], task);
      SumAppend(runs[..n], [runs[n]], CountOf(task));
      SumOne(runs[n], CountOf(task));
      assert runs == runs[..n] + [runs[n]];
    }
  }

  ghost function AdapterLedger(adapters: set<string>, inTime: bool, l: Ledger, r: AdapterRun): Ledger {
    var l1 := Added(l, AllRegistered(ResourcePhase(r.name), r.resources.end.log));
    var l2 := Drained(adapters, inTime, l1, r.resourceRounds, r.name + ":resource_drain");
    var l3 := Added(l2, AllRegistered(CommitPhase(r.name), r.commits.end.log));
    var l4 := Drained(adapters, inTime, l3, r.commitRounds, r.name + ":commit_drain");
    var l5 := Added(l4, MixedTasks(r.name, r.mixed));
    Drained(adapters, inTime, l5, r.mixedRounds, r.name + ":mixed_drain")
  }

  ghost function RunLedger(adapters: set<string>, inTime: bool, runs: seq<AdapterRun>): Ledger {
    if runs == [] then Ledger([], [])
    else
      var n := |runs| - 1;
      AdapterLedger(adapters, inTime, RunLedger(adapters, inTime, runs[..n]), runs[n])
  }

  lemma {:induction false} PolledGrows(adapters: set<string>, l: Ledger, rounds: seq<Round>, scenario: string)
    ensures l.events <= Polled(adapters, l, rounds, scenario).events
    decreases |rounds|
  {
    hide Ended, Unended;
    if l.pending != [] && rounds != [] {
      PolledGrows(adapters, AfterRound(adapters, l, rounds[0], scenario), rounds[1..], scenario);
    }
  }

  lemma DrainedGrows(adapters: set<string>, inTime: bool, l: Ledger, rounds: seq<Round>, scenario: string)
    ensures l.events <= Drained(adapters, inTime, l, rounds, scenario).events
  {
    hide Polled, Incomplete;
    PolledGrows(adapters, l, rounds, scenario);
  }

  /** Each phase of an adapter is drained before the next one registers: what its drain records comes first. */
  lemma AdapterOrder(adapters: set<string>, inTime: bool, l: Ledger, r: AdapterRun)
    ensures var first := Drained(adapters, inTime,
        Added(l, AllRegistered(Phase(r.name, "add_resources", "add_resource", true), r.resources.end.log)),
        r.resourceRounds, r.name + ":resource_drain");
      var second := Drained(adapters, inTime,
        Added(first, AllRegistered(Phase(r.name, "session_commit", "session_commit", true), r.commits.end.log)),
        r.commitRounds, r.name + ":commit_drain");
      l.events <= first.events <= second.events <= AdapterLedger(adapters, inTime, l, r).events
  {
    hide Drained, AllRegistered, MixedTasks;
    var l1 := Added(l, AllRegistered(ResourcePhase(r.name), r.resources.end.log));
    var l2 := Drained(adapters, inTime, l1, r.resourceRounds, r.name + ":resource_drain");
    var l3 := Added(l2, AllRegistered(CommitPhase(r.name), r.commits.end.log));
    var l4 := Drained(adapters, inTime, l3, r.commitRounds, r.name + ":commit_drain");
    DrainedGrows(adapters, inTime, l1, r.resourceRounds, r.name + ":resource_drain");
    DrainedGrows(adapters, inTime, l3, r.commitRounds, r.name + ":commit_drain");
    DrainedGrows(adapters, inTime, Added(l4, MixedTasks(r.name, r.mixed)), r.mixedRounds, r.name + ":mixed_drain");
  }

  /** The last drain, if anything is left. */
  ghost function FinalLedger(adapters: set<string>, inTime: bool, runs: seq<AdapterRun>, rounds: seq<Round>): Ledger {
    var l := RunLedger(adapters, inTime, runs);
    if l.pending == [] then l else Drained(adapters, inTime, l, rounds, "final_drain")
  }

  /** The last drain leaves nothing pending. */
  lemma LastDrain(adapters: set<string>, inTime: bool, l: Ledger, rounds: seq<Round>)
    ensures Drained(adapters, inTime, l, rounds, "final_drain").pending == []
  {
  }

  lemma OneTerminal(e: TaskEvent)
    requires e.status == "incomplete"
    ensures Terminal([e])
  {
  }

  lemma NonePending(registered: seq<PendingTask>, events: seq<TaskEvent>)
    requires Balance(registered, [], events)
    ensures multiset(Tags(events)) == multiset(registered)
  {
  }

  lemma Regrouped(a: seq<PendingTask>, b: seq<PendingTask>, c: seq<PendingTask>)
    ensures a + b + c == a + (b + c)
  {
  }

  lemma NoneRegistered(p: Phase, gained: seq<PendingTask>)
    ensures AllRegistered(p, []) + gained == gained
  {
  }

  lemma RunOver(p: Phase, s: State, schedule: seq<Event>, t: State)
    requires Run(p, s, schedule, t) && schedule == []
    ensures s == t
  {
  }

  class Runner {
    const adapters: set<string>
    const drainTimeoutPositive: bool
    var pending: seq<PendingTask>
    var events: seq<TaskEvent>
    ghost var registered: seq<PendingTask>

    ghost predicate Balanced()
      reads this
    {
      Balance(registered, pending, events) && Terminal(events)
    }

    ghost function Books(): Ledger
      reads this
    {
      Ledger(pending, events)
    }

    constructor (adapters: set<string>, drainTimeoutPositive: bool)
      ensures this.adapters == adapters && this.drainTimeoutPositive == drainTimeoutPositive
      ensures Balanced() && pending == [] && events == [] && registered == []
    {
      this.adapters, this.drainTimeoutPositive := adapters, drainTimeoutPositive;
      pending, events, registered := [], [], [];
    }

    /** `_register_task_if_present`. */
    method Register(p: Phase, unit: string, a: Answer)
      requires Balanced()
      modifies this`pending, this`registered
      ensures Balanced() && registered == old(registered) + Registered(p, unit, a)
      ensures pending == old(pending) + Registered(p, unit, a)
      ensures if p.registers && a.success && a.taskId != "" then
          && |pending| == |old(pending)| + 1 && old(pending) <= pending
          && var t := pending[|old(pending)|];
             && t.adapter == p.adapter && t.taskId == a.taskId && t.taskType == p.taskType
             && t.origin == p.scenario && t.resource == unit
        else pending == old(pending)
    {
      hide Balance, Terminal;
      BalanceRegister(registered, pending, events, Registered(p, unit, a));
      registered := registered + Registered(p, unit, a);
      if p.registers && a.success && a.taskId != "" {
        pending := pending + [PendingTask(p.adapter, a.taskId, p.taskType, p.scenario, unit)];
      } else {
        assert pending + [] == pending;
      }
    }

    /**
     Runs a queue phase to its end: the balance holds at every step, every unit is recorded
     once per queued copy, and the tasks that the recorded answers name are registered.
     */
    method RunPhase(p: Phase, r: PhaseRun)
      requires Balanced() && Finished(p, r)
      modifies this`pending, this`registered
      ensures Balanced() && registered == old(registered) + AllRegistered(p, r.end.log)
      ensures pending == old(pending) + AllRegistered(p, r.end.log)
      ensures r.end.queue == [] && forall u :: Sum(r.end.log, Records(u)) == multiset(r.units)[u]
    {
      ReachableStates(p, r.units, r.concurrency, [], r.schedule, r.end);
      CarriedAlong(p, Init(r.units, r.concurrency, []), r.schedule, r.end, pending);
      assert pending + [] == pending;
      hide Run, Balance, Terminal, Copies, AllRegistered;
      ghost var gained := Follow(p, Init(r.units, r.concurrency, pending), r.schedule,
        r.end.(pending := pending + r.end.pending));
      assert gained == AllRegistered(p, r.end.log) by { NoneRegistered(p, gained); }
    }

    method TakeStep(p: Phase, s: State, e: Event) returns (t: State)
      requires Balanced() && s.pending == pending && Enabled(s, e)
        && Apply(p, s, e).pending == pending + Gained(p, s, e)
      modifies this`pending, this`registered
      ensures Balanced() && t == Apply(p, s, e) && pending == t.pending
      ensures registered == old(registered) + Gained(p, s, e)
    {
      hide Balance, Terminal, Apply, Enabled, Gained;
      BalanceRegister(registered, pending, events, Gained(p, s, e));
      t := Apply(p, s, e);
      pending := t.pending;
      registered := registered + Gained(p, s, e);
    }

    /** Takes the steps of a phase one by one; `gained` is what they register. */
    method Follow(p: Phase, s: State, schedule: seq<Event>, ghost end: State) returns (ghost gained: seq<PendingTask>)
      requires Balanced() && s.pending == pending && Run(p, s, schedule, end)
      modifies this`pending, this`registered
      ensures Balanced() && registered == old(registered) + gained && pending == end.pending
      ensures AllRegistered(p, end.log) == AllRegistered(p, s.log) + gained
      decreases |schedule|
    {
      hide Run, Balanced, Apply, Enabled, Gained, AllRegistered;
      if schedule == [] {
        RunOver(p, s, schedule, end);
        gained := [];
      } else {
        NextStep(p, s, schedule, end);
        ghost var first := Gained(p, s, schedule[0]);
        var t := TakeStep(p, s, schedule[0]);
        ghost var rest := Follow(p, t, schedule[1..], end);
        gained := first + rest;
        Regrouped(old(registered), first, rest);
        Regrouped(AllRegistered(p, s.log), first, rest);
      }
    }

    /** One polling round: tasks whose poll says completed or failed get their event, the others stay. */
    method PollRound(scenario: string, round: Round)
      requires Balanced()
      modifies this`pending, this`events
      ensures Balanced()
      ensures Books() == AfterRound(adapters, old(Books()), round, scenario)
      ensures forall task, status ::
        Sum(events, ReportsAs(task, scenario, status)) ==
        Sum(old(events), ReportsAs(task, scenario, status)) + Polls(adapters, old(pending), round, task, status)
    {
      hide Balance, Terminal, Ends;
      var remaining: seq<PendingTask> := [];
      for i := 0 to |pending|
        invariant pending == old(pending)
        invariant remaining == Unended(adapters, pending[..i], round)
        invariant events == old(events) + Ended(adapters, pending[..i], round, scenario)
      {
        assert pending[..i + 1][..i] == pending[..i];
        if Ends(adapters, pending[i], round(i)) {
          events := events + [EventFor(pending[i], scenario, round(i).status)];
        } else {
          remaining := remaining + [pending[i]];
        }
      }
      assert pending[..|pending|] == pending && pending + [] == pending && remaining + [] == remaining;
      RoundBalances(registered, adapters, pending, [], round, scenario, old(events));
      EndedTerminal(adapters, pending, round, scenario);
      TerminalAppend(old(events), Ended(adapters, pending, round, scenario));
      forall task, status ensures Sum(events, ReportsAs(task, scenario, status)) ==
        Sum(old(events), ReportsAs(task, scenario, status)) + Polls(adapters, pending, round, task, status)
      {
        SumAppend(old(events), Ended(adapters, pending, round, scenario), ReportsAs(task, scenario, status));
        EndedCounts(adapters, pending, round, scenario, task, status);
      }
      pending := remaining;
    }

    /** Everything still pending gets an `incomplete` event. */
    method FinalizeIncomplete(scenario: string)
      requires Balanced()
      modifies this`pending, this`events
      ensures Balanced() && Books() == Finalized(old(Books()), scenario)
      ensures pending == [] && |events| == |old(events)| + |old(pending)| && old(events) <= events
      ensures forall i :: 0 <= i < |old(pending)| ==>
        var e, t := events[|old(events)| + i], old(pending)[i];
        && e.adapter == t.adapter && e.taskId == t.taskId && e.taskType == t.taskType && e.origin == t.origin
        && e.resource == t.resource && e.completion == scenario && e.status == "incomplete"
    {
      hide Balance, Terminal;
      for i := 0 to |pending|
        invariant pending == old(pending) && events == old(events) + Incomplete(pending[..i], scenario)
        invariant Balance(registered, pending[i..], events) && Terminal(events)
      {
        var event := EventFor(pending[i], scenario, "incomplete");
        assert pending[i..] == [] + ([Tag(event)] + pending[i + 1..]) && [] + pending[i + 1..] == pending[i + 1..];
        assert Incomplete(pending[..i + 1], scenario) == Incomplete(pending[..i], scenario) + [event];
        BalanceRecord(registered, [], pending[i + 1..], event, events);
        assert Terminal([event]) by { OneTerminal(event); }
        TerminalAppend(events, [event]);
        events := events + [event];
      }
      assert pending[..|pending|] == pending && pending[|pending|..] == [];
      pending := [];
    }

    /** `_drain_tasks`: polls until nothing is pending or the deadline passes after the given rounds. */
    method DrainTasks(scenario: string, rounds: seq<Round>)
      requires Balanced()
      modifies this`pending, this`events
      ensures Balanced() && Books() == Drained(adapters, drainTimeoutPositive, old(Books()), rounds, scenario)
    {
      hide Balance, Terminal, Finalized, AfterRound;
      if pending == [] || !drainTimeoutPositive {
        FinalizeIncomplete(scenario);
        return;
      }
      var used := 0;
      assert rounds[0..] == rounds;
      while pending != [] && used < |rounds|
        invariant Balanced() && used <= |rounds|
        invariant Polled(adapters, Books(), rounds[used..], scenario) ==
          Polled(adapters, old(Books()), rounds, scenario)
        decreases |rounds| - used
      {
        assert rounds[used..][1..] == rounds[used + 1..];
        PollRound(scenario, rounds[used]);
        used := used + 1;
      }
      if scenario == "final_drain" { FinalizeIncomplete(scenario); }
    }

    method RegisterMixed(name: string, mixed: seq<(string, string, Answer)>)
      requires Balanced()
      modifies this`pending, this`registered
      ensures Balanced() && registered == old(registered) + MixedTasks(name, mixed)
      ensures pending == old(pending) + MixedTasks(name, mixed)
    {
      hide Balance, Terminal, Registered;
      assert pending + [] == pending && registered + [] == registered;
      for i := 0 to |mixed|
        invariant Balanced() && registered == old(registered) + MixedTasks(name, mixed[..i])
        invariant pending == old(pending) + MixedTasks(name, mixed[..i])
      {
        assert mixed[..i + 1][..i] == mixed[..i];
        var x := Registered(Phase(name, "mixed", mixed[i].0, true), mixed[i].1, mixed[i].2);
        Regrouped(old(registered), MixedTasks(name, mixed[..i]), x);
        Regrouped(old(pending), MixedTasks(name, mixed[..i]), x);
        Register(Phase(name, "mixed", mixed[i].0, true), mixed[i].1, mixed[i].2);
      }
      assert mixed[..|mixed|] == mixed;
    }

    /** `_run_adapter`: its phases, each with the drain behind it. */
    method RunAdapter(r: AdapterRun)
      requires Balanced() && FinishedAdapter(r)
      modifies this
      ensures Balanced() && Books() == AdapterLedger(adapters, drainTimeoutPositive, old(Books()), r)
      ensures registered == old(registered) + AdapterTasks(r)
    {
      hide Balance, Terminal, AllRegistered, MixedTasks, Finished, Drained;
      RunPhase(ResourcePhase(r.name), r.resources);
      DrainTasks(r.name + ":resource_drain", r.resourceRounds);
      RunPhase(CommitPhase(r.name), r.commits);
      DrainTasks(r.name + ":commit_drain", r.commitRounds);
      RegisterMixed(r.name, r.mixed);
      DrainTasks(r.name + ":mixed_drain", r.mixedRounds);
    }

    /**
     A non-fatal run.  Its events are those of the polls, in order, and of the last
     finalization; at the end nothing is pending, and the events are exactly one per task
     that any phase registered, each terminal and about its own task.
     */
    method RunAll(runs: seq<AdapterRun>, finalRounds: seq<Round>)
      requires Balanced() && pending == [] && events == [] && registered == []
      requires forall i :: 0 <= i < |runs| ==> FinishedAdapter(runs[i])
      modifies this
      ensures Books() == FinalLedger(adapters, drainTimeoutPositive, runs, finalRounds)
      ensures pending == [] && multiset(Tags(events)) == multiset(RunTasks(runs)) && Terminal(events)
      ensures forall task :: Sum(events, Reports(task)) == Sum(runs, CountOf(task))
    {
      hide Balance, Terminal, AdapterTasks, FinishedAdapter, AdapterLedger, Drained;
      for i := 0 to |runs|
        invariant Balanced() && registered == RunTasks(runs[..i])
        invariant Books() == RunLedger(adapters, drainTimeoutPositive, runs[..i])
      {
        RunAdapter(runs[i]);
        assert runs[..i + 1][..i] == runs[..i];
      }
      assert runs[..|runs|] == runs;
      if pending != [] {
        LastDrain(adapters, drainTimeoutPositive, Books(), finalRounds);
        DrainTasks("final_drain", finalRounds);
      }
      NonePending(registered, events);
      forall task ensures Sum(events, Reports(task)) == Sum(runs, CountOf(task)) {
        TagsCount(events, task);
        RunCounts(runs, task);
      }
    }
  }
}
