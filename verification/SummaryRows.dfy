/**
 Report rows of the contention benchmark: requests are grouped by several keys.  Each row
 is exact for its own key, and every grouping counts each request once.
 */
module SummaryRows {
  import opened Sums

  /** A recorded request; an absent exception or message is "". */
  datatype RequestEvent = RequestEvent(
    adapter: string, scenario: string, operation: string, elapsedMs: real,
    success: bool, exception: string, message: string)

  /** Events under one dictionary key, in arrival order. */
  datatype Group<K> = Group(key: K, events: seq<RequestEvent>)

  /** `groups.setdefault(key, []).append(event)` on a dictionary in insertion order. */
  function AddTo<K(==)>(groups: seq<Group<K>>, key: K, e: RequestEvent): (r: seq<Group<K>>)
    ensures r != []
  {
    if groups == [] then [Group(key, [e])]
    else if groups[0].key == key then [groups[0].(events := groups[0].events + [e])] + groups[1..]
    else [groups[0]] + AddTo(groups[1..], key, e)
  }

  function Groups<K(==)>(events: seq<RequestEvent>, key: RequestEvent -> K): seq<Group<K>> {
    if events == [] then []
    else
      var n := |events| - 1;
      AddTo(Groups(events[..n], key), key(events[n]), events[n])
  }

  /** The grouping loop shared by the row builders. */
  method GroupBy<K(==)>(events: seq<RequestEvent>, key: RequestEvent -> K) returns (groups: seq<Group<K>>)
    ensures groups == Groups(events, key)
  {
    groups := [];
    for i := 0 to |events|
      invariant groups == Groups(events[..i], key)
    {
      assert events[..i + 1][..i] == events[..i];
      groups := AddTo(groups, key(events[i]), events[i]);
    }
    assert events[..|events|] == events;
  }

  // ------------------------------------------------- groups are exact

  /** The events with key `k`, in arrival order. */
  function Having<K(==)>(events: seq<RequestEvent>, key: RequestEvent -> K, k: K): seq<RequestEvent> {
    if events == [] then []
    else
      var n := |events| - 1;
      Having(events[..n], key, k) + if key(events[n]) == k then [events[n]] else []
  }

  ghost predicate DistinctKeys<K>(groups: seq<Group<K>>) {
    forall i, j :: 0 <= i < j < |groups| ==> groups[i].key != groups[j].key
  }

  ghost predicate HasKey<K>(groups: seq<Group<K>>, k: K) { exists i :: 0 <= i < |groups| && groups[i].key == k }

  /** What the dictionary holds under `k`; nothing when the key is absent. */
  function Lookup<K(==)>(groups: seq<Group<K>>, k: K): seq<RequestEvent> {
    if groups == [] then [] else if groups[0].key == k then groups[0].events else Lookup(groups[1..], k)
  }

  lemma {:induction false} LookupAt<K>(groups: seq<Group<K>>, i: nat)
    requires DistinctKeys(groups) && i < |groups|
    ensures Lookup(groups, groups[i].key) == groups[i].events
  {
    if i > 0 {
      assert groups[0].key != groups[i].key && groups[1..][i - 1] == groups[i];
      TailKeys(groups);
      LookupAt(groups[1..], i - 1);
    }
  }

  lemma TailKeys<K>(groups: seq<Group<K>>)
    requires DistinctKeys(groups) && groups != []
    ensures DistinctKeys(groups[1..])
  {
  }

  lemma {:induction false} AddToLookup<K>(groups: seq<Group<K>>, key: K, e: RequestEvent, k: K)
    ensures Lookup(AddTo(groups, key, e), k) == Lookup(groups, k) + if k == key then [e] else []
  {
    var r := AddTo(groups, key, e);
    if groups == [] {
      assert r[1..] == [] && [] + [e] == [e];
    } else if groups[0].key == key {
      assert r[1..] == groups[1..];
    } else {
      assert r[1..] == AddTo(groups[1..], key, e);
      AddToLookup(groups[1..], key, e, k);
    }
  }

  lemma {:induction false} AddToKeys<K>(groups: seq<Group<K>>, key: K, e: RequestEvent)
    requires DistinctKeys(groups)
    ensures DistinctKeys(AddTo(groups, key, e))
    ensures forall k :: HasKey(AddTo(groups, key, e), k) <==> HasKey(groups, k) || k == key
  {
    var r := AddTo(groups, key, e);
    if groups == [] {
      HeadOrTail(r);
    } else {
      HeadOrTail(groups);
      HeadOrTail(r);
      TailKeys(groups);
      if groups[0].key == key {
        assert r[1..] == groups[1..];
        SameKeys(groups, r);
      } else {
        var t := AddTo(groups[1..], key, e);
        assert r[1..] == t;
        AddToKeys(groups[1..], key, e);
        assert !HasKey(groups[1..], groups[0].key) by { HeadIsNew(groups); }
        PutFirst(groups[0], t);
      }
    }
  }

  lemma SameKeys<K>(a: seq<Group<K>>, b: seq<Group<K>>)
    requires DistinctKeys(a) && a != [] && b != [] && a[0].key == b[0].key && a[1..] == b[1..]
    ensures DistinctKeys(b)
  {
    assert forall i :: 1 <= i < |b| ==> b[i] == b[1..][i - 1] == a[1..][i - 1] == a[i];
    assert |b| == |b[1..]| + 1 == |a|;
    assert forall i :: 0 <= i < |b| ==> b[i].key == a[i].key;
  }

  lemma HeadIsNew<K>(groups: seq<Group<K>>)
    requires DistinctKeys(groups) && groups != []
    ensures !HasKey(groups[1..], groups[0].key)
  {
    assert forall i :: 0 <= i < |groups| - 1 ==> groups[1..][i] == groups[i + 1];
  }

  lemma PutFirst<K>(g: Group<K>, t: seq<Group<K>>)
    requires DistinctKeys(t) && !HasKey(t, g.key)
    ensures DistinctKeys([g] + t)
  {
  }

  lemma HeadOrTail<K>(groups: seq<Group<K>>)
    requires groups != []
    ensures forall k :: HasKey(groups, k) <==> groups[0].key == k || HasKey(groups[1..], k)
  {
    forall k | HasKey(groups, k) ensures groups[0].key == k || HasKey(groups[1..], k) {
      var i :| 0 <= i < |groups| && groups[i].key == k;
      if i > 0 { assert groups[1..][i - 1].key == k; }
    }
    forall k | HasKey(groups[1..], k) ensures HasKey(groups, k) {
      var i :| 0 <= i < |groups[1..]| && groups[1..][i].key == k;
      assert groups[i + 1].key == k;
    }
  }

  /** A key's group holds exactly the events of that key, in arrival order. */
  lemma {:induction false} LookupExact<K>(events: seq<RequestEvent>, key: RequestEvent -> K, k: K)
    ensures Lookup(Groups(events, key), k) == Having(events, key, k)
  {
    hide AddTo;
    if events != [] {
      var n := |events| - 1;
      LookupExact(events[..n], key, k);
      AddToLookup(Groups(events[..n], key), key(events[n]), events[n], k);
    }
  }

  /** There is one group per key that occurs. */
  lemma {:induction false} GroupsExact<K>(events: seq<RequestEvent>, key: RequestEvent -> K)
    ensures DistinctKeys(Groups(events, key))
    ensures forall k :: HasKey(Groups(events, key), k) <==> Having(events, key, k) != []
  {
    hide AddTo, HasKey, DistinctKeys;
    if events == [] {
      NoGroups<K>();
    } else {
      var n := |events| - 1;
      var before := Groups(events[..n], key);
      GroupsExact(events[..n], key);
      AddToKeys(before, key(events[n]), events[n]);
    }
  }

  lemma NoGroups<K>()
    ensures DistinctKeys<K>([]) && forall k :: !HasKey<K>([], k)
  {
  }

  lemma GroupAt<K>(events: seq<RequestEvent>, key: RequestEvent -> K, i: nat)
    requires i < |Groups(events, key)|
    ensures Groups(events, key)[i].events == Having(events, key, Groups(events, key)[i].key)
  {
    hide Groups, Having, Lookup, DistinctKeys;
    GroupsExact(events, key);
    LookupAt(Groups(events, key), i);
    LookupExact(events, key, Groups(events, key)[i].key);
  }

  /** Rows have different keys, and every event's key has its row. */
  ghost predicate OneRowPerKey<K(!new), R(!new)>(events: seq<RequestEvent>, key: RequestEvent -> K, rows: seq<R>,
    rowKey: R -> K) {
    && (forall i, j :: 0 <= i < j < |rows| ==> rowKey(rows[i]) != rowKey(rows[j]))
    && (forall e :: e in events ==> exists i :: 0 <= i < |rows| && rowKey(rows[i]) == key(e))
  }

  lemma RowPerGroup<K(!new), R(!new)>(events: seq<RequestEvent>, key: RequestEvent -> K, rows: seq<R>, rowKey: R -> K)
    requires |rows| == |Groups(events, key)|
      && forall i :: 0 <= i < |rows| ==> rowKey(rows[i]) == Groups(events, key)[i].key
    ensures OneRowPerKey(events, key, rows, rowKey)
  {
    hide Groups, Having;
    GroupsExact(events, key);
    forall e | e in events ensures exists i :: 0 <= i < |rows| && rowKey(rows[i]) == key(e) {
      HavingOwn(events, key, e);
      assert HasKey(Groups(events, key), key(e));
      var i :| 0 <= i < |rows| && Groups(events, key)[i].key == key(e);
      assert rowKey(rows[i]) == key(e);
    }
  }

  lemma {:induction false} HavingOwn<K>(events: seq<RequestEvent>, key: RequestEvent -> K, e: RequestEvent)
    requires e in events
    ensures Having(events, key, key(e)) != []
  {
    var n := |events| - 1;
    if events[n] != e {
      assert e in events[..n];
      HavingOwn(events[..n], key, e);
    }
  }

  /** Counting the events of a key is counting, among all events, those with the key. */
  lemma {:induction false} HavingSum<K>(events: seq<RequestEvent>, key: RequestEvent -> K, k: K,
    f: RequestEvent -> nat, g: RequestEvent -> nat)
    requires forall e :: g(e) == if key(e) == k then f(e) else 0
    ensures Sum(Having(events, key, k), f) == Sum(events, g)
  {
    if events != [] {
      var n := |events| - 1;
      var e := events[n];
      HavingSum(events[..n], key, k, f, g);
      SumAppend(events[..n], [e], g);
      SumOne(e, g);
      assert events == events[..n] + [e];
      SumAppend(Having(events[..n], key, k), if key(e) == k then [e] else [], f);
      SumOne(e, f);
    }
  }

  // ------------------------------------------------- groups conserve

  /** Sum of `f` over a group's events. */
  function Total<K>(f: RequestEvent -> nat): Group<K> -> nat { (g: Group<K>) => Sum(g.events, f) }

  lemma {:induction false} AddToSum<K>(groups: seq<Group<K>>, key: K, e: RequestEvent, f: RequestEvent -> nat)
    ensures Sum(AddTo(groups, key, e), Total<K>(f)) == Sum(groups, Total<K>(f)) + f(e)
  {
    var r := AddTo(groups, key, e);
    if groups == [] {
      assert r[1..] == [] && [e][1..] == [];
      assert Total<K>(f)(r[0]) == Sum([e], f) == f(e);
    } else if groups[0].key == key {
      SumAppend(groups[0].events, [e], f);
      assert [e][1..] == [];
      assert r[1..] == groups[1..];
    } else {
      AddToSum(groups[1..], key, e, f);
      assert r[1..] == AddTo(groups[1..], key, e);
    }
  }

  /** Whatever is counted per event, the groups count it exactly once. */
  lemma {:induction false} GroupsConserve<K>(events: seq<RequestEvent>, key: RequestEvent -> K, f: RequestEvent -> nat)
    ensures Sum(Groups(events, key), Total<K>(f)) == Sum(events, f)
  {
    hide AddTo;
    if events != [] {
      var n := |events| - 1;
      GroupsConserve(events[..n], key, f);
      AddToSum(Groups(events[..n], key), key(events[n]), events[n], f);
      SumAppend(events[..n], [events[n]], f);
      assert [events[n]][1..] == [];
      assert events == events[..n] + [events[n]];
    }
  }

  lemma {:induction false} RowSums<K, R>(groups: seq<Group<K>>, rows: seq<R>, f: Group<K> -> nat, g: R -> nat)
    requires |groups| == |rows| && forall i :: 0 <= i < |rows| ==> f(groups[i]) == g(rows[i])
    ensures Sum(groups, f) == Sum(rows, g)
  {
    if rows != [] {
      assert forall i :: 0 <= i < |rows[1..]| ==> rows[1..][i] == rows[i + 1] && groups[1..][i] == groups[i + 1];
      RowSums(groups[1..], rows[1..], f, g);
    }
  }

  /** Row figures that are sums over their groups add up to the sum over all events. */
  lemma FiguresConserve<K, R>(events: seq<RequestEvent>, key: RequestEvent -> K, rows: seq<R>, f: RequestEvent -> nat,
    g: R -> nat)
    requires |rows| == |Groups(events, key)|
    requires forall i :: 0 <= i < |rows| ==> Sum(Groups(events, key)[i].events, f) == g(rows[i])
    ensures Sum(rows, g) == Sum(events, f)
  {
    hide Groups;
    GroupsConserve(events, key, f);
    RowSums(Groups(events, key), rows, Total<K>(f), g);
  }

  // -------------------------------------------------------------------- rows

  datatype Row = Row(adapter: string, scenario: string, operation: string, requests: nat, successes: nat, failures: nat)

  function One(e: RequestEvent): nat { 1 }

  function Succeeded(e: RequestEvent): nat { if e.success then 1 else 0 }

  function Failed(e: RequestEvent): nat { if e.success then 0 else 1 }

  lemma {:induction false} CountsAgree(events: seq<RequestEvent>)
    ensures Sum(events, One) == |events| && Sum(events, Failed) + Sum(events, Succeeded) == |events|
  {
    if events != [] { CountsAgree(events[1..]); }
  }

  /** The counters of `build_summary_row`. */
  function RowOf(adapter: string, scenario: string, operation: string, events: seq<RequestEvent>): (r: Row)
    ensures r.failures == Sum(events, Failed)
  {
    CountsAgree(events);
    Row(adapter, scenario, operation, |events|, Sum(events, Succeeded), |events| - Sum(events, Succeeded))
  }

  function ScenarioKey(e: RequestEvent): (string, string, string) { (e.adapter, e.scenario, e.operation) }

  function OverallKey(e: RequestEvent): (string, string) { (e.adapter, e.operation) }

  /** The row's counters are those of exactly these events. */
  ghost predicate Counts(r: Row, events: seq<RequestEvent>) {
    r.requests == |events| > 0 && r.successes == Sum(events, Succeeded) && r.failures == Sum(events, Failed)
  }

  function RowRequests(r: Row): nat { r.requests }

  function RowFailures(r: Row): nat { r.failures }

  function ScenarioOf(r: Row): (string, string, string) { (r.adapter, r.scenario, r.operation) }

  function OverallOf(r: Row): (string, string) { (r.adapter, r.operation) }

  /** The event has the row's adapter and operation, and its scenario unless the row is for all of them. */
  predicate InRow(e: RequestEvent, r: Row, anyScenario: bool) {
    e.adapter == r.adapter && e.operation == r.operation && (anyScenario || e.scenario == r.scenario)
  }

  function InRowOne(r: Row, any: bool): RequestEvent -> nat { (e: RequestEvent) => if InRow(e, r, any) then 1 else 0 }

  function InRowFailed(r: Row, any: bool): RequestEvent -> nat {
    (e: RequestEvent) => if InRow(e, r, any) && !e.success then 1 else 0
  }

  /** The row counts the events that show its own columns, column by column. */
  ghost predicate Columns(events: seq<RequestEvent>, r: Row, any: bool) {
    && r.requests == Sum(events, InRowOne(r, any)) > 0 && r.failures == Sum(events, InRowFailed(r, any))
    && r.successes + r.failures == r.requests
  }

  lemma ScenarioColumns(events: seq<RequestEvent>, r: Row)
    requires Counts(r, Having(events, ScenarioKey, ScenarioOf(r)))
    ensures Columns(events, r, false)
  {
    hide Having;
    CountsAgree(Having(events, ScenarioKey, ScenarioOf(r)));
    HavingSum(events, ScenarioKey, ScenarioOf(r), One, InRowOne(r, false));
    HavingSum(events, ScenarioKey, ScenarioOf(r), Failed, InRowFailed(r, false));
  }

  lemma OverallColumns(events: seq<RequestEvent>, r: Row)
    requires Counts(r, Having(events, OverallKey, OverallOf(r)))
    ensures Columns(events, r, true)
  {
    hide Having;
    CountsAgree(Having(events, OverallKey, OverallOf(r)));
    HavingSum(events, OverallKey, OverallOf(r), One, InRowOne(r, true));
    HavingSum(events, OverallKey, OverallOf(r), Failed, InRowFailed(r, true));
  }

  /** Every event shows the columns of some row. */
  ghost predicate Covered(events: seq<RequestEvent>, rows: seq<Row>, any: bool) {
    forall e :: e in events ==> exists i :: 0 <= i < |rows| && InRow(e, rows[i], any)
  }

  lemma ScenarioCovered(events: seq<RequestEvent>, rows: seq<Row>)
    requires OneRowPerKey(events, ScenarioKey, rows, ScenarioOf)
    ensures Covered(events, rows, false)
  {
    forall e | e in events ensures exists i :: 0 <= i < |rows| && InRow(e, rows[i], false) {
      var i :| 0 <= i < |rows| && ScenarioOf(rows[i]) == ScenarioKey(e);
      assert InRow(e, rows[i], false);
    }
  }

  lemma OverallCovered(events: seq<RequestEvent>, rows: seq<Row>)
    requires OneRowPerKey(events, OverallKey, rows, OverallOf)
    ensures Covered(events, rows, true)
  {
    forall e | e in events ensures exists i :: 0 <= i < |rows| && InRow(e, rows[i], true) {
      var i :| 0 <= i < |rows| && OverallOf(rows[i]) == OverallKey(e);
      assert InRow(e, rows[i], true);
    }
  }

  /** One row per adapter, scenario and operation. */
  method ScenarioRows(events: seq<RequestEvent>) returns (rows: seq<Row>)
    ensures (forall i :: 0 <= i < |rows| ==> Columns(events, rows[i], false)) && Covered(events, rows, false)
    ensures OneRowPerKey(events, ScenarioKey, rows, ScenarioOf)
    ensures forall i :: 0 <= i < |rows| ==> Counts(rows[i], Having(events, ScenarioKey, ScenarioOf(rows[i])))
    ensures Sum(rows, RowRequests) == |events| && Sum(rows, RowFailures) == Sum(events, Failed)
    ensures Sum(rows, NonAllRequests) == Sum(events, NotAll) && Sum(rows, NonAllFailures) == Sum(events, FailedNotAll)
  {
    hide Groups, Having, Counts;
    var groups := GroupBy(events, ScenarioKey);
    rows := [];
    for i := 0 to |groups|
      invariant |rows| == i
      invariant forall k :: 0 <= k < i ==>
        rows[k] == RowOf(groups[k].key.0, groups[k].key.1, groups[k].key.2, groups[k].events)
    {
      rows := rows + [RowOf(groups[i].key.0, groups[i].key.1, groups[i].key.2, groups[i].events)];
    }
    ScenarioFigures(events, rows);
    hide ScenarioKey, OneRowPerKey;
    RowPerGroup(events, ScenarioKey, rows, ScenarioOf);
    hide Columns, Covered;
    ScenarioCovered(events, rows);
    forall i | 0 <= i < |rows| ensures Columns(events, rows[i], false) { ScenarioColumns(events, rows[i]); }
  }

  /** The "ALL" rows: one per adapter and operation. */
  method OverallRows(events: seq<RequestEvent>) returns (rows: seq<Row>)
    ensures (forall i :: 0 <= i < |rows| ==> Columns(events, rows[i], true)) && Covered(events, rows, true)
    ensures OneRowPerKey(events, OverallKey, rows, OverallOf)
    ensures forall i :: 0 <= i < |rows| ==>
      rows[i].scenario == "ALL" && Counts(rows[i], Having(events, OverallKey, OverallOf(rows[i])))
    ensures Sum(rows, RowRequests) == |events| && Sum(rows, RowFailures) == Sum(events, Failed)
  {
    hide Groups, Having, Counts;
    var groups := GroupBy(events, OverallKey);
    rows := [];
    for i := 0 to |groups|
      invariant |rows| == i
      invariant forall k :: 0 <= k < i ==> rows[k] == RowOf(groups[k].key.0, "ALL", groups[k].key.1, groups[k].events)
    {
      rows := rows + [RowOf(groups[i].key.0, "ALL", groups[i].key.1, groups[i].events)];
    }
    OverallFigures(events, rows);
    hide OverallKey, OneRowPerKey;
    RowPerGroup(events, OverallKey, rows, OverallOf);
    hide Columns, Covered;
    OverallCovered(events, rows);
    forall i | 0 <= i < |rows| ensures Columns(events, rows[i], true) { OverallColumns(events, rows[i]); }
  }

  lemma RowCounts<K>(events: seq<RequestEvent>, key: RequestEvent -> K, i: nat, r: Row)
    requires i < |Groups(events, key)|
    requires var es := Groups(events, key)[i].events; r == RowOf(r.adapter, r.scenario, r.operation, es)
    ensures Counts(r, Having(events, key, Groups(events, key)[i].key))
    ensures var es := Groups(events, key)[i].events; Sum(es, One) == r.requests && Sum(es, Failed) == r.failures
  {
    hide Groups, Having;
    GroupAt(events, key, i);
    GroupsExact(events, key);
    var g := Groups(events, key)[i];
    assert HasKey(Groups(events, key), g.key);
    CountsAgree(g.events);
  }

  lemma ScenarioFigures(events: seq<RequestEvent>, rows: seq<Row>)
    requires |rows| == |Groups(events, ScenarioKey)|
    requires forall k :: 0 <= k < |rows| ==> var g := Groups(events, ScenarioKey)[k];
      rows[k] == RowOf(g.key.0, g.key.1, g.key.2, g.events)
    ensures forall i :: 0 <= i < |rows| ==> Counts(rows[i], Having(events, ScenarioKey, ScenarioOf(rows[i])))
    ensures Sum(rows, RowRequests) == |events| && Sum(rows, RowFailures) == Sum(events, Failed)
    ensures Sum(rows, NonAllRequests) == Sum(events, NotAll) && Sum(rows, NonAllFailures) == Sum(events, FailedNotAll)
  {
    hide Groups, Having, Counts, RowOf;
    forall i | 0 <= i < |rows|
      ensures Counts(rows[i], Having(events, ScenarioKey, ScenarioOf(rows[i])))
      ensures var es := Groups(events, ScenarioKey)[i].events;
        Sum(es, One) == RowRequests(rows[i]) && Sum(es, Failed) == RowFailures(rows[i])
      ensures var es := Groups(events, ScenarioKey)[i].events;
        Sum(es, NotAll) == NonAllRequests(rows[i]) && Sum(es, FailedNotAll) == NonAllFailures(rows[i])
    {
      ScenarioFigure(events, i, rows[i]);
    }
    CountsAgree(events);
    FiguresConserve(events, ScenarioKey, rows, One, RowRequests);
    FiguresConserve(events, ScenarioKey, rows, Failed, RowFailures);
    FiguresConserve(events, ScenarioKey, rows, NotAll, NonAllRequests);
    FiguresConserve(events, ScenarioKey, rows, FailedNotAll, NonAllFailures);
  }

  lemma ScenarioFigure(events: seq<RequestEvent>, i: nat, r: Row)
    requires i < |Groups(events, ScenarioKey)|
    requires var g := Groups(events, ScenarioKey)[i]; r == RowOf(g.key.0, g.key.1, g.key.2, g.events)
    ensures Counts(r, Having(events, ScenarioKey, ScenarioOf(r)))
    ensures var es := Groups(events, ScenarioKey)[i].events;
      Sum(es, One) == RowRequests(r) && Sum(es, Failed) == RowFailures(r)
    ensures var es := Groups(events, ScenarioKey)[i].events;
      Sum(es, NotAll) == NonAllRequests(r) && Sum(es, FailedNotAll) == NonAllFailures(r)
  {
    hide Groups, Having, Counts;
    var g := Groups(events, ScenarioKey)[i];
    RowCounts(events, ScenarioKey, i, r);
    GroupAt(events, ScenarioKey, i);
    HavingKey(events, ScenarioKey, g.key);
    forall k | 0 <= k < |g.events| ensures g.events[k].scenario == r.scenario {
      assert ScenarioKey(g.events[k]) == g.key;
    }
    OneScenario(g.events, r.scenario);
    assert g.key == (r.adapter, r.scenario, r.operation);
  }

  lemma {:induction false} HavingKey<K>(events: seq<RequestEvent>, key: RequestEvent -> K, k: K)
    ensures forall i :: 0 <= i < |Having(events, key, k)| ==> key(Having(events, key, k)[i]) == k
  {
    if events != [] { HavingKey(events[..|events| - 1], key, k); }
  }

  lemma OverallFigures(events: seq<RequestEvent>, rows: seq<Row>)
    requires |rows| == |Groups(events, OverallKey)|
    requires forall k :: 0 <= k < |rows| ==> var g := Groups(events, OverallKey)[k];
      rows[k] == RowOf(g.key.0, "ALL", g.key.1, g.events)
    ensures forall i :: 0 <= i < |rows| ==>
      rows[i].scenario == "ALL" && Counts(rows[i], Having(events, OverallKey, OverallOf(rows[i])))
    ensures Sum(rows, RowRequests) == |events| && Sum(rows, RowFailures) == Sum(events, Failed)
  {
    hide Groups, Having, Counts;
    forall i | 0 <= i < |rows|
      ensures rows[i].scenario == "ALL" && Counts(rows[i], Having(events, OverallKey, OverallOf(rows[i])))
      ensures var es := Groups(events, OverallKey)[i].events;
        Sum(es, One) == RowRequests(rows[i]) && Sum(es, Failed) == RowFailures(rows[i])
    {
      RowCounts(events, OverallKey, i, rows[i]);
      assert Groups(events, OverallKey)[i].key == (rows[i].adapter, rows[i].operation);
    }
    CountsAgree(events);
    FiguresConserve(events, OverallKey, rows, One, RowRequests);
    FiguresConserve(events, OverallKey, rows, Failed, RowFailures);
  }

  // --------------------------------------------------------- summary report

  /** What the report adds up: rows whose scenario is not "ALL". */
  function NonAllRequests(r: Row): nat { if r.scenario != "ALL" then r.requests else 0 }

  function NonAllFailures(r: Row): nat { if r.scenario != "ALL" then r.failures else 0 }

  function NotAll(e: RequestEvent): nat { if e.scenario != "ALL" then 1 else 0 }

  function FailedNotAll(e: RequestEvent): nat { if e.scenario != "ALL" && !e.success then 1 else 0 }

  lemma {:induction false} OneScenario(events: seq<RequestEvent>, scenario: string)
    requires forall k :: 0 <= k < |events| ==> events[k].scenario == scenario
    ensures Sum(events, NotAll) == if scenario != "ALL" then |events| else 0
    ensures Sum(events, FailedNotAll) == if scenario != "ALL" then Sum(events, Failed) else 0
  {
    if events != [] { OneScenario(events[1..], scenario); }
  }

  /** `build_request_summary_rows` and the totals the report prints. */
  method SummaryRows(events: seq<RequestEvent>)
    returns (rows: seq<Row>, totalRequests: nat, totalFailures: nat, ghost split: nat)
    ensures split <= |rows| && Covered(events, rows[..split], false) && Covered(events, rows[split..], true)
    ensures forall i :: 0 <= i < |rows| ==> Columns(events, rows[i], i >= split)
    ensures split <= |rows| && OneRowPerKey(events, ScenarioKey, rows[..split], ScenarioOf)
    ensures OneRowPerKey(events, OverallKey, rows[split..], OverallOf)
    ensures forall i :: 0 <= i < split ==> Counts(rows[i], Having(events, ScenarioKey, ScenarioOf(rows[i])))
    ensures forall i :: split <= i < |rows| ==>
      rows[i].scenario == "ALL" && Counts(rows[i], Having(events, OverallKey, OverallOf(rows[i])))
    ensures totalRequests == Sum(rows, NonAllRequests) && totalFailures == Sum(rows, NonAllFailures)
    ensures totalRequests == Sum(events, NotAll) && totalFailures == Sum(events, FailedNotAll)
    ensures totalRequests == |events| <==> forall i :: 0 <= i < |events| ==> events[i].scenario != "ALL"
    ensures totalRequests == |events| ==> totalFailures == Sum(events, Failed)
    ensures Sum(rows, RowRequests) == 2 * |events| && Sum(rows, RowFailures) == 2 * Sum(events, Failed)
  {
    hide Counts, Having, OneRowPerKey, Columns, Covered;
    rows := ScenarioRows(events);
    split := |rows|;
    var overall := OverallRows(events);
    SumZero(overall, NonAllRequests);
    SumZero(overall, NonAllFailures);
    SumAppend(rows, overall, NonAllRequests);
    SumAppend(rows, overall, NonAllFailures);
    SumAppend(rows, overall, RowRequests);
    SumAppend(rows, overall, RowFailures);
    assert (rows + overall)[..split] == rows && (rows + overall)[split..] == overall;
    rows := rows + overall;
    totalRequests, totalFailures := Sum(rows, NonAllRequests), Sum(rows, NonAllFailures);
    ReportTotalIff(events);
  }

  /** The report's request total is the number of requests exactly when no scenario is called "ALL". */
  lemma {:induction false} ReportTotalIff(events: seq<RequestEvent>)
    ensures Sum(events, NotAll) == |events| <==> forall i :: 0 <= i < |events| ==> events[i].scenario != "ALL"
    ensures Sum(events, NotAll) <= |events|
    ensures Sum(events, NotAll) == |events| ==> Sum(events, FailedNotAll) == Sum(events, Failed)
  {
    if events != [] {
      ReportTotalIff(events[1..]);
      assert forall i :: 0 <= i < |events[1..]| ==> events[1..][i] == events[i + 1];
      assert forall i :: 1 <= i < |events| ==> events[i] == events[1..][i - 1];
    }
  }

  /** A request of a scenario called "ALL" is missing from the total. */
  lemma MissedRequest(e: RequestEvent)
    requires e.scenario == "ALL"
    ensures Sum([e], NotAll) == 0 < |[e]|
  {
    assert [e][1..] == [];
  }

  // ------------------------------------------------------------ window rows

  function Quotient(x: real, y: real): real
    requires y > 0.0
  {
    x / y
  }

  /** Which window of `seconds` a request started in. */
  function WindowIndex(e: RequestEvent, seconds: real): int
    requires seconds > 0.0
  {
    Quotient(e.elapsedMs / 1000.0, seconds).Floor
  }

  function WindowKey(seconds: real): RequestEvent -> (int, string, string, string)
    requires seconds > 0.0
  {
    (e: RequestEvent) => (WindowIndex(e, seconds), e.adapter, e.scenario, e.operation)
  }

  datatype WindowRow = WindowRow(index: int, row: Row)

  function WindowRequests(r: WindowRow): nat { r.row.requests }

  function WindowFailures(r: WindowRow): nat { r.row.failures }

  lemma QuotientBounds(x: real, y: real, k: int)
    requires y > 0.0 && k == Quotient(x, y).Floor
    ensures k as real * y <= x < (k + 1) as real * y
  {
    var q := Quotient(x, y);
    assert q * y == x;
    Ordered(k as real, q, y);
    if (k + 1) as real * y <= x { Ordered(q, (k + 1) as real, y); StrictlyOrdered(q, (k + 1) as real, y); }
  }

  lemma Ordered(a: real, b: real, y: real)
    requires a <= b && y > 0.0
    ensures a * y <= b * y
  {
  }

  lemma StrictlyOrdered(a: real, b: real, y: real)
    requires a < b && y > 0.0
    ensures a * y < b * y
  {
  }

  /** A request started inside the bounds of its window. */
  lemma InsideWindow(e: RequestEvent, seconds: real)
    requires seconds > 0.0
    ensures var k := WindowIndex(e, seconds); k as real * seconds <= e.elapsedMs / 1000.0 < (k + 1) as real * seconds
  {
    QuotientBounds(e.elapsedMs / 1000.0, seconds, WindowIndex(e, seconds));
  }

  function KeyOf(r: WindowRow): (int, string, string, string) {
    (r.index, r.row.adapter, r.row.scenario, r.row.operation)
  }

  function WindowStart(index: int, seconds: real): real { index as real * seconds }

  lemma StartsOrdered(j: int, k: int, seconds: real)
    requires j <= k && seconds > 0.0
    ensures WindowStart(j, seconds) <= WindowStart(k, seconds)
  {
    Ordered(j as real, k as real, seconds);
  }

  /** The event started in the row's window and shows its columns. */
  predicate InWindow(e: RequestEvent, r: WindowRow, seconds: real)
    requires seconds > 0.0
  {
    && WindowStart(r.index, seconds) <= e.elapsedMs / 1000.0 < WindowStart(r.index + 1, seconds)
    && InRow(e, r.row, false)
  }

  function InWindowOne(r: WindowRow, seconds: real): RequestEvent -> nat
    requires seconds > 0.0
  {
    (e: RequestEvent) => if InWindow(e, r, seconds) then 1 else 0
  }

  lemma WindowIs(e: RequestEvent, r: WindowRow, seconds: real)
    requires seconds > 0.0
    ensures WindowKey(seconds)(e) == KeyOf(r) <==> InWindow(e, r, seconds)
  {
    var k := WindowIndex(e, seconds);
    var x := e.elapsedMs / 1000.0;
    assert WindowStart(k, seconds) <= x < WindowStart(k + 1, seconds) by { InsideWindow(e, seconds); }
    hide WindowIndex, WindowStart;
    if InWindow(e, r, seconds) && k != r.index { WindowsApart(e.elapsedMs / 1000.0, seconds, k, r.index); }
  }

  lemma WindowsApart(x: real, y: real, j: int, k: int)
    requires y > 0.0
    requires WindowStart(j, y) <= x < WindowStart(j + 1, y) && WindowStart(k, y) <= x < WindowStart(k + 1, y)
    ensures j == k
  {
    hide WindowStart;
    if j < k { StartsOrdered(j + 1, k, y); }
    if k < j { StartsOrdered(k + 1, j, y); }
  }

  lemma WindowColumns(events: seq<RequestEvent>, r: WindowRow, seconds: real)
    requires seconds > 0.0 && Counts(r.row, Having(events, WindowKey(seconds), KeyOf(r)))
    ensures r.row.requests == Sum(events, InWindowOne(r, seconds)) > 0
  {
    hide Having, InWindow, WindowKey;
    CountsAgree(Having(events, WindowKey(seconds), KeyOf(r)));
    forall e ensures InWindowOne(r, seconds)(e) == if WindowKey(seconds)(e) == KeyOf(r) then One(e) else 0 {
      WindowIs(e, r, seconds);
    }
    HavingSum(events, WindowKey(seconds), KeyOf(r), One, InWindowOne(r, seconds));
  }

  /** `build_request_window_rows`: exact rows that together hold every request and failure once. */
  method WindowRows(events: seq<RequestEvent>, seconds: real) returns (rows: seq<WindowRow>)
    requires seconds > 0.0
    ensures forall i :: 0 <= i < |rows| ==> rows[i].row.requests == Sum(events, InWindowOne(rows[i], seconds)) > 0
    ensures OneRowPerKey(events, WindowKey(seconds), rows, KeyOf)
    ensures forall i :: 0 <= i < |rows| ==> Counts(rows[i].row, Having(events, WindowKey(seconds), KeyOf(rows[i])))
    ensures Sum(rows, WindowRequests) == |events| && Sum(rows, WindowFailures) == Sum(events, Failed)
  {
    hide Groups, Having, Counts, WindowIndex;
    var groups := GroupBy(events, WindowKey(seconds));
    rows := [];
    for i := 0 to |groups|
      invariant |rows| == i
      invariant forall k :: 0 <= k < i ==> rows[k] == MakeWindowRow(groups[k])
    {
      rows := rows + [MakeWindowRow(groups[i])];
    }
    WindowFigures(events, seconds, rows);
    hide WindowKey, OneRowPerKey;
    RowPerGroup(events, WindowKey(seconds), rows, KeyOf);
    hide InWindowOne;
    forall i | 0 <= i < |rows| ensures rows[i].row.requests == Sum(events, InWindowOne(rows[i], seconds)) > 0 {
      WindowColumns(events, rows[i], seconds);
    }
  }

  function MakeWindowRow(g: Group<(int, string, string, string)>): WindowRow {
    WindowRow(g.key.0, RowOf(g.key.1, g.key.2, g.key.3, g.events))
  }

  lemma WindowFigures(events: seq<RequestEvent>, seconds: real, rows: seq<WindowRow>)
    requires seconds > 0.0 && |rows| == |Groups(events, WindowKey(seconds))|
    requires forall k :: 0 <= k < |rows| ==> rows[k] == MakeWindowRow(Groups(events, WindowKey(seconds))[k])
    ensures forall i :: 0 <= i < |rows| ==> Counts(rows[i].row, Having(events, WindowKey(seconds), KeyOf(rows[i])))
    ensures Sum(rows, WindowRequests) == |events| && Sum(rows, WindowFailures) == Sum(events, Failed)
  {
    hide Groups, Having, Counts, WindowKey;
    var key := WindowKey(seconds);
    forall i | 0 <= i < |rows|
      ensures Counts(rows[i].row, Having(events, key, KeyOf(rows[i])))
      ensures var es := Groups(events, key)[i].events;
        Sum(es, One) == WindowRequests(rows[i]) && Sum(es, Failed) == WindowFailures(rows[i])
    {
      RowCounts(events, key, i, rows[i].row);
      assert Groups(events, key)[i].key == KeyOf(rows[i]);
    }
    CountsAgree(events);
    FiguresConserve(events, key, rows, One, WindowRequests);
    FiguresConserve(events, key, rows, Failed, WindowFailures);
  }

  // ------------------------------------------------------------- error rows

  datatype ErrorRow = ErrorRow(key: (string, string, string, string), count: nat)

  function ErrorName(e: RequestEvent): string {
    if e.exception != "" then e.exception else if e.message != "" then e.message else "unknown"
  }

  function ErrorKey(e: RequestEvent): (string, string, string, string) {
    (e.adapter, e.scenario, e.operation, ErrorName(e))
  }

  function Failing(events: seq<RequestEvent>): seq<RequestEvent> {
    if events == [] then []
    else
      var n := |events| - 1;
      Failing(events[..n]) + if events[n].success then [] else [events[n]]
  }

  lemma {:induction false} FailingCount(events: seq<RequestEvent>)
    ensures |Failing(events)| == Sum(events, Failed)
  {
    if events != [] {
      var n := |events| - 1;
      FailingCount(events[..n]);
      assert events == events[..n] + [events[n]] && [events[n]][1..] == [];
      SumAppend(events[..n], [events[n]], Failed);
    }
  }

  /** `groups[key] = groups.get(key, 0) + 1` on a dictionary in insertion order. */
  function Bump(rows: seq<ErrorRow>, key: (string, string, string, string)): seq<ErrorRow> {
    if rows == [] then [ErrorRow(key, 1)]
    else if rows[0].key == key then [rows[0].(count := rows[0].count + 1)] + rows[1..]
    else [rows[0]] + Bump(rows[1..], key)
  }

  /** The counters of a grouping. */
  function Sizes(groups: seq<Group<(string, string, string, string)>>): (r: seq<ErrorRow>)
    ensures |r| == |groups| && forall i :: 0 <= i < |r| ==> r[i] == ErrorRow(groups[i].key, |groups[i].events|)
  {
    seq(|groups|, i requires 0 <= i < |groups| => ErrorRow(groups[i].key, |groups[i].events|))
  }

  lemma {:induction false} BumpCounts(groups: seq<Group<(string, string, string, string)>>,
    key: (string, string, string, string), e: RequestEvent)
    ensures Sizes(AddTo(groups, key, e)) == Bump(Sizes(groups), key)
  {
    if groups != [] {
      assert Sizes(groups)[1..] == Sizes(groups[1..]);
      if groups[0].key != key { BumpCounts(groups[1..], key, e); }
    }
  }

  function ErrorCount(r: ErrorRow): nat { r.count }

  function ErrorOf(r: ErrorRow): (string, string, string, string) { r.key }

  /** A failing event with the row's columns; its error is its exception, else its message, else "unknown". */
  predicate InErrorRow(e: RequestEvent, r: ErrorRow) {
    && !e.success && r.key.0 == e.adapter && r.key.1 == e.scenario && r.key.2 == e.operation
    && (e.exception != "" ==> r.key.3 == e.exception)
    && (e.exception == "" && e.message != "" ==> r.key.3 == e.message)
    && (e.exception == "" && e.message == "" ==> r.key.3 == "unknown")
  }

  function InErrorOne(r: ErrorRow): RequestEvent -> nat { (e: RequestEvent) => if InErrorRow(e, r) then 1 else 0 }

  lemma {:induction false} ErrorColumns(events: seq<RequestEvent>, r: ErrorRow)
    ensures |Having(Failing(events), ErrorKey, r.key)| == Sum(events, InErrorOne(r))
  {
    if events != [] {
      var n := |events| - 1;
      ErrorColumns(events[..n], r);
      SumAppend(events[..n], [events[n]], InErrorOne(r));
      SumOne(events[n], InErrorOne(r));
      assert events == events[..n] + [events[n]];
      var f := Failing(events[..n]);
      if events[n].success { assert f + [] == f; } else { assert (f + [events[n]])[..|f|] == f; }
    }
  }

  /** `build_error_rows`: each count is exact for its key, and the counts add up to the failures. */
  method ErrorRows(events: seq<RequestEvent>) returns (rows: seq<ErrorRow>)
    ensures OneRowPerKey(Failing(events), ErrorKey, rows, ErrorOf)
    ensures forall i :: 0 <= i < |rows| ==> rows[i].count == |Having(Failing(events), ErrorKey, rows[i].key)| > 0
    ensures forall i :: 0 <= i < |rows| ==> rows[i].count == Sum(events, InErrorOne(rows[i]))
    ensures Sum(rows, ErrorCount) == Sum(events, Failed)
  {
    hide AddTo, Having, Bump, ErrorKey;
    rows := [];
    ghost var groups := Groups([], ErrorKey);
    for i := 0 to |events|
      invariant groups == Groups(Failing(events[..i]), ErrorKey) && rows == Sizes(groups)
    {
      assert events[..i + 1][..i] == events[..i];
      ghost var f := Failing(events[..i]);
      assert f + [] == f;
      if !events[i].success {
        assert Failing(events[..i + 1]) == f + [events[i]];
        assert (f + [events[i]])[..|f|] == f;
        BumpCounts(groups, ErrorKey(events[i]), events[i]);
        groups := AddTo(groups, ErrorKey(events[i]), events[i]);
        rows := Bump(rows, ErrorKey(events[i]));
      }
    }
    assert events[..|events|] == events;
    ErrorFigures(Failing(events), rows);
    FailingCount(events);
    hide Groups, OneRowPerKey;
    RowPerGroup(Failing(events), ErrorKey, rows, ErrorOf);
    hide InErrorOne;
    forall i | 0 <= i < |rows| ensures rows[i].count == Sum(events, InErrorOne(rows[i])) {
      ErrorColumns(events, rows[i]);
    }
  }

  lemma ErrorFigures(failing: seq<RequestEvent>, rows: seq<ErrorRow>)
    requires rows == Sizes(Groups(failing, ErrorKey))
    ensures forall i :: 0 <= i < |rows| ==> rows[i].count == |Having(failing, ErrorKey, rows[i].key)| > 0
    ensures Sum(rows, ErrorCount) == |failing|
  {
    hide Groups, Having, ErrorKey;
    var groups := Groups(failing, ErrorKey);
    GroupsExact(failing, ErrorKey);
    forall i | 0 <= i < |rows|
      ensures rows[i].count == |Having(failing, ErrorKey, rows[i].key)| > 0
      ensures Sum(groups[i].events, One) == ErrorCount(rows[i])
    {
      GroupAt(failing, ErrorKey, i);
      assert HasKey(groups, groups[i].key);
      CountsAgree(groups[i].events);
    }
    CountsAgree(failing);
    FiguresConserve(failing, ErrorKey, rows, One, ErrorCount);
  }
}
