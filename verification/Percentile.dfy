/** The two interpolating percentile functions, over exact reals. */
module Percentile {
  import opened Prelude

  ghost predicate Sorted(s: seq<real>) { forall i, j :: 0 <= i < j < |s| ==> s[i] <= s[j] }

  function Insert(x: real, s: seq<real>): seq<real> {
    if s == [] || x <= s[0] then [x] + s else [s[0]] + Insert(x, s[1..])
  }

  function Sort(s: seq<real>): seq<real> {
    if s == [] then [] else Insert(s[0], Sort(s[1..]))
  }

  lemma {:induction false} InsertMembers(x: real, s: seq<real>, y: real)
    requires y in Insert(x, s)
    ensures y == x || y in s
  {
    if s != [] && x > s[0] && y != s[0] { InsertMembers(x, s[1..], y); }
  }

  lemma {:induction false} InsertSorted(x: real, s: seq<real>)
    requires Sorted(s)
    ensures Sorted(Insert(x, s))
  {
    if s != [] && x > s[0] {
      InsertSorted(x, s[1..]);
      var t := Insert(x, s[1..]);
      forall j | 0 <= j < |t| ensures s[0] <= t[j] { InsertMembers(x, s[1..], t[j]); }
    }
  }

  lemma Front(s: seq<real>)
    requires s != []
    ensures multiset(s) == multiset{s[0]} + multiset(s[1..]) && multiset(s[1..]) == multiset(s) - multiset{s[0]}
  {
    assert s == [s[0]] + s[1..];
  }

  lemma {:induction false} InsertPermutes(x: real, s: seq<real>)
    ensures multiset(Insert(x, s)) == multiset{x} + multiset(s)
  {
    var r := Insert(x, s);
    Front(r);
    if s == [] || x <= s[0] {
      assert r[1..] == s;
    } else {
      assert r[1..] == Insert(x, s[1..]);
      InsertPermutes(x, s[1..]);
      Front(s);
    }
  }

  lemma {:induction false} SortCorrect(s: seq<real>)
    ensures Sorted(Sort(s)) && multiset(Sort(s)) == multiset(s) && |Sort(s)| == |s|
  {
    hide Sorted, Insert;
    if s == [] {
      EmptySorted();
    } else {
      SortCorrect(s[1..]);
      InsertSorted(s[0], Sort(s[1..]));
      InsertPermutes(s[0], Sort(s[1..]));
      Front(s);
    }
    assert |multiset(Sort(s))| == |multiset(s)|;
  }

  lemma EmptySorted()
    ensures Sorted([])
  {
  }

  lemma SameHead(s: seq<real>, t: seq<real>)
    requires Sorted(s) && Sorted(t) && multiset(s) == multiset(t) && s != [] && t != []
    ensures s[0] == t[0]
  {
    assert s[0] in multiset(t) && t[0] in multiset(s);
    assert s[0] in t && t[0] in s;
  }

  lemma Tails(s: seq<real>, t: seq<real>)
    requires Sorted(s) && Sorted(t) && multiset(s) == multiset(t) && s != [] && t != [] && s[0] == t[0]
    ensures Sorted(s[1..]) && Sorted(t[1..]) && multiset(s[1..]) == multiset(t[1..])
  {
    Front(s);
    Front(t);
  }

  /** A multiset has one sorted arrangement. */
  lemma {:induction false} SortedUnique(s: seq<real>, t: seq<real>)
    requires Sorted(s) && Sorted(t) && multiset(s) == multiset(t)
    ensures s == t
    decreases |s|
  {
    hide Sorted;
    assert |s| == |multiset(s)| == |multiset(t)| == |t|;
    if s != [] {
      SameHead(s, t);
      Tails(s, t);
      SortedUnique(s[1..], t[1..]);
      assert s == [s[0]] + s[1..] && t == [t[0]] + t[1..];
    }
  }

  // ---------------------------------------------------------- interpolation

  /** A rank between the first and the last position of a list of `n + 1` values. */
  predicate IsRank(o: seq<real>, rank: real) { o != [] && 0.0 <= rank <= (|o| - 1) as real }

  /** Interpolation as the contention benchmark writes it. */
  function At(o: seq<real>, rank: real): real
    requires IsRank(o, rank)
  {
    var lower := rank.Floor;
    if lower as real == rank then o[lower]
    else Mix(o[lower], o[lower + 1], rank - lower as real)
  }

  function Times(x: real, y: real): real { x * y }

  function Mix(a: real, b: real, f: real): real { a + Times(b - a, f) }

  /** Interpolation as the index benchmark writes it. */
  function Blend(o: seq<real>, position: real): real
    requires IsRank(o, position)
  {
    var lower := position.Floor;
    if lower as real == position then o[lower]
    else
      var fraction := position - lower as real;
      o[lower] * (1.0 - fraction) + o[lower + 1] * fraction
  }

  lemma ProductRange(d: real, f: real)
    requires d >= 0.0 && 0.0 <= f <= 1.0
    ensures 0.0 <= Times(d, f) <= d
  {
  }

  lemma Between(a: real, b: real, f: real)
    requires a <= b && 0.0 <= f <= 1.0
    ensures a <= Mix(a, b, f) <= b
  {
    hide Times;
    ProductRange(b - a, f);
  }

  lemma MixMonotone(a: real, b: real, f: real, g: real)
    requires a <= b && f <= g
    ensures Mix(a, b, f) <= Mix(a, b, g)
  {
    hide Times;
    Scale(b - a, f, g);
  }

  lemma Scale(d: real, f: real, g: real)
    requires d >= 0.0 && f <= g
    ensures Times(d, f) <= Times(d, g)
  {
  }

  lemma SameFormula(a: real, b: real, f: real)
    ensures a * (1.0 - f) + b * f == Mix(a, b, f)
  {
  }

  lemma BlendIsAt(o: seq<real>, rank: real)
    requires IsRank(o, rank)
    ensures Blend(o, rank) == At(o, rank)
  {
    hide Mix;
    var lower := rank.Floor;
    if lower as real != rank { SameFormula(o[lower], o[lower + 1], rank - lower as real); }
  }

  /** The value at a rank lies between its neighbours. */
  lemma AtBetween(o: seq<real>, rank: real)
    requires Sorted(o) && IsRank(o, rank)
    ensures o[rank.Floor] <= At(o, rank)
    ensures rank.Floor + 1 < |o| ==> At(o, rank) <= o[rank.Floor + 1]
    ensures rank.Floor + 1 >= |o| ==> At(o, rank) == o[rank.Floor]
  {
    hide Mix;
    var lower := rank.Floor;
    if lower as real != rank {
      var a, b, f := o[lower], o[lower + 1], rank - lower as real;
      assert a <= b;
      Between(a, b, f);
    }
  }

  lemma AtMonotone(o: seq<real>, r: real, s: real)
    requires Sorted(o) && IsRank(o, r) && IsRank(o, s) && r <= s
    ensures At(o, r) <= At(o, s)
  {
    hide At;
    AtBetween(o, r);
    AtBetween(o, s);
    var i, j := r.Floor, s.Floor;
    if i == j {
      SameCell(o, r, s);
    } else {
      assert i + 1 <= j;
      assert o[i + 1] <= o[j];
    }
  }

  lemma SameCell(o: seq<real>, r: real, s: real)
    requires Sorted(o) && IsRank(o, r) && IsRank(o, s) && r <= s && r.Floor == s.Floor
    ensures At(o, r) <= At(o, s)
  {
    hide Mix;
    var i := r.Floor;
    if i as real == r {
      AtBetween(o, s);
    } else {
      assert o[i] <= o[i + 1];
      MixMonotone(o[i], o[i + 1], r - i as real, s - i as real);
    }
  }

  // -------------------------------------------------------------- percentile

  /** Where the fraction `q` of a list of `n` values falls. */
  function Rank(n: nat, q: real): real { Times((n - 1) as real, q) }

  lemma RankInRange(o: seq<real>, q: real)
    requires o != [] && 0.0 <= q <= 1.0
    ensures IsRank(o, Rank(|o|, q))
  {
    ProductRange((|o| - 1) as real, q);
  }

  lemma RankMonotone(n: nat, p: real, q: real)
    requires n >= 1 && p <= q
    ensures Rank(n, p) <= Rank(n, q) && Rank(n, 0.0) == 0.0 && Rank(n, 1.0) == (n - 1) as real
  {
    Scale((n - 1) as real, p, q);
  }

  /** `percentile` of the contention benchmark: `pct` in percent. */
  function Percentile(values: seq<real>, pct: real): Option<real>
    requires 0.0 <= pct <= 100.0
  {
    hide Sort, Sorted, Rank, IsRank, At;
    var ordered := Sort(values);
    SortCorrect(values);
    if ordered == [] then None
    else if |ordered| == 1 then Some(ordered[0])
    else
      RankInRange(ordered, pct / 100.0);
      Some(At(ordered, Rank(|ordered|, pct / 100.0)))
  }

  /** `percentile` of the index benchmark: a fraction, another interpolation formula, and 0 for no values. */
  function Quantile(values: seq<real>, q: real): real
    requires 0.0 <= q <= 1.0
  {
    hide Sort, Sorted, Rank, IsRank, Blend;
    if values == [] then 0.0
    else
      var ordered := Sort(values);
      SortCorrect(values);
      RankInRange(ordered, q);
      Blend(ordered, Rank(|ordered|, q))
  }

  /** Both are the value at the same rank of the sorted list. */
  lemma PercentileIsAt(values: seq<real>, pct: real)
    requires values != [] && 0.0 <= pct <= 100.0
    ensures |Sort(values)| == |values| && IsRank(Sort(values), Rank(|values|, pct / 100.0))
    ensures Percentile(values, pct) == Some(At(Sort(values), Rank(|values|, pct / 100.0)))
    ensures Quantile(values, pct / 100.0) == At(Sort(values), Rank(|values|, pct / 100.0))
  {
    hide Sort, Blend, IsRank;
    SortCorrect(values);
    var o := Sort(values);
    RankInRange(o, pct / 100.0);
    BlendIsAt(o, Rank(|values|, pct / 100.0));
    if |o| == 1 { assert Rank(1, pct / 100.0) == 0.0; }
  }

  /** The two functions agree on every nonempty input. */
  lemma PercentilesAgree(values: seq<real>, pct: real)
    requires values != [] && 0.0 <= pct <= 100.0
    ensures Percentile(values, pct) == Some(Quantile(values, pct / 100.0))
  {
    hide Sort, Percentile, Quantile, At, IsRank, Rank;
    PercentileIsAt(values, pct);
  }

  /** Of no values, one has no percentile and the other gives 0. */
  lemma NoValues(pct: real)
    requires 0.0 <= pct <= 100.0
    ensures Percentile([], pct) == None && Quantile([], pct / 100.0) == 0.0
  {
  }

  /** The values in ascending order. */
  ghost predicate Ascending(o: seq<real>, values: seq<real>) { Sorted(o) && multiset(o) == multiset(values) }

  /** How far `pct` percent of the way from the first to the last of `n` values is, in steps. */
  function Steps(pct: real, n: nat): real { pct * (n - 1) as real / 100.0 }

  /** The point a fraction `f` of the way from `a` to `b`. */
  function Line(a: real, b: real, f: real): real { a + (b - a) * f }

  lemma AscendingIsSort(o: seq<real>, values: seq<real>)
    requires Ascending(o, values)
    ensures o == Sort(values) && |o| == |values|
  {
    SortCorrect(values);
    SortedUnique(o, Sort(values));
  }

  lemma RankIsSteps(n: nat, pct: real)
    ensures Rank(n, pct / 100.0) == Steps(pct, n)
  {
  }

  /** Between two neighbours of the ordered values, the percentile lies on the straight line from one to the other. */
  lemma PercentileFormula(values: seq<real>, o: seq<real>, pct: real, k: nat)
    requires Ascending(o, values) && k + 1 < |o| && 0.0 <= pct <= 100.0
    requires k as real <= Steps(pct, |o|) <= (k + 1) as real
    ensures Percentile(values, pct) == Some(Line(o[k], o[k + 1], Steps(pct, |o|) - k as real))
  {
    hide Sort, Sorted, Percentile, Quantile, Rank, Steps, Line, At;
    AscendingIsSort(o, values);
    PercentileIsAt(values, pct);
    var r := Steps(pct, |o|);
    RankIsSteps(|o|, pct);
    OnTheLine(o, k, r);
  }

  lemma OnTheLine(o: seq<real>, k: nat, r: real)
    requires k + 1 < |o| && k as real <= r <= (k + 1) as real && IsRank(o, r)
    ensures At(o, r) == Line(o[k], o[k + 1], r - k as real)
  {
    hide Mix, Line;
    WholeStep(o[k], o[k + 1], r - k as real);
    if r < (k + 1) as real { assert r.Floor == k; }
  }

  lemma WholeStep(a: real, b: real, f: real)
    ensures f == 1.0 ==> Line(a, b, f) == b
    ensures f == 0.0 ==> Line(a, b, f) == a
    ensures Mix(a, b, f) == Line(a, b, f)
  {
  }

  /** At a whole step it is the value there; one value is all its percentiles. */
  lemma PercentileAtStep(values: seq<real>, o: seq<real>, pct: real, k: nat)
    requires Ascending(o, values) && k < |o| && 0.0 <= pct <= 100.0
    requires |o| == 1 || Steps(pct, |o|) == k as real
    ensures Percentile(values, pct) == Some(o[k])
  {
    hide Sort, Sorted, Percentile, Quantile, Rank, Steps;
    AscendingIsSort(o, values);
    PercentileIsAt(values, pct);
    RankIsSteps(|o|, pct);
    if |o| == 1 { assert Steps(pct, 1) == 0.0 by { NoSteps(pct); } }
  }

  lemma NoSteps(pct: real)
    ensures Steps(pct, 1) == 0.0
  {
  }

  /** The order of the values does not matter. */
  lemma PermutationInvariant(values: seq<real>, others: seq<real>, pct: real)
    requires multiset(values) == multiset(others) && 0.0 <= pct <= 100.0
    ensures Percentile(values, pct) == Percentile(others, pct)
  {
    hide Sort, Sorted, At, Rank, IsRank;
    SortCorrect(values);
    SortCorrect(others);
    SortedUnique(Sort(values), Sort(others));
  }

  function MaxOf(values: seq<real>): (m: real)
    requires values != []
    ensures forall v :: v in values ==> v <= m
    ensures m in values
  {
    if |values| == 1 then values[0]
    else
      assert values == [values[0]] + values[1..];
      var m := MaxOf(values[1..]);
      if values[0] > m then values[0] else m
  }

  /** Percentiles grow with the rank and stay between the smallest and the largest value. */
  lemma PercentileMonotone(values: seq<real>, p: real, q: real)
    requires values != [] && 0.0 <= p <= q <= 100.0
    ensures Percentile(values, p).Some? && Percentile(values, q).Some?
    ensures Percentile(values, p).value <= Percentile(values, q).value <= MaxOf(values)
    ensures exists v :: v in values && v <= Percentile(values, p).value
  {
    hide Sort, MaxOf, Percentile, Quantile, Rank, At, Sorted;
    var o, n := Sort(values), |values|;
    SortCorrect(values);
    PercentileIsAt(values, p);
    PercentileIsAt(values, q);
    RankMonotone(n, p / 100.0, q / 100.0);
    AtMonotone(o, Rank(n, p / 100.0), Rank(n, q / 100.0));
    AtEnds(o, Rank(n, p / 100.0));
    AtEnds(o, Rank(n, q / 100.0));
    assert o[n - 1] in multiset(o) && o[0] in multiset(o);
    assert o[n - 1] in values && o[0] in values;
    MaxBounds(values, o[n - 1]);
  }

  /** The latency columns of one summary row are in order. */
  lemma RowOrdered(values: seq<real>)
    requires values != []
    ensures Percentile(values, 50.0).Some? && Percentile(values, 90.0).Some?
    ensures Percentile(values, 95.0).Some? && Percentile(values, 99.0).Some?
    ensures Percentile(values, 50.0).value <= Percentile(values, 90.0).value <= Percentile(values, 95.0).value
    ensures Percentile(values, 95.0).value <= Percentile(values, 99.0).value <= MaxOf(values)
  {
    hide Percentile, MaxOf;
    PercentileMonotone(values, 50.0, 90.0);
    PercentileMonotone(values, 90.0, 95.0);
    PercentileMonotone(values, 95.0, 99.0);
  }

  lemma AtEnds(o: seq<real>, r: real)
    requires Sorted(o) && IsRank(o, r)
    ensures o[0] <= At(o, r) <= o[|o| - 1]
  {
    AtMonotone(o, 0.0, r);
    AtMonotone(o, r, (|o| - 1) as real);
  }

  lemma MaxBounds(values: seq<real>, v: real)
    requires v in values
    ensures v <= MaxOf(values)
  {
  }
}
