/**
 The synthetic workload: mixed-radix paths, the number of rows a path filter selects, and
 the query set.  The random generator is a fixed stream of draws per seed.
 */
module Synthetic {
  import opened Prelude
  import opened Text
  import opened Paths
  import opened Arith
  import Decimal

  // ------------------------------------------------------------------- paths

  /** `d{level}_{digit}`. */
  function Segment(level: nat, digit: nat): string { "d" + Decimal.Show(level) + "_" + Decimal.Show(digit) }

  /** The digits of `index` in base `f`, least significant first, each tagged with its level. */
  function Segments(index: nat, depth: nat, f: nat, level: nat): (r: seq<string>)
    requires f >= 1
    ensures |r| == depth
    decreases depth
  {
    if depth == 0 then [] else [Segment(level, Rem(index, f))] + Segments(Quot(index, f), depth - 1, f, level + 1)
  }

  function RowSegments(index: nat, depth: int, fanout: int): (r: seq<string>)
    ensures |r| == Max(1, depth)
  {
    Segments(index, Max(1, depth), Max(1, fanout), 0)
  }

  lemma SegmentGood(level: nat, digit: nat)
    ensures GoodSegment(Segment(level, digit))
  {
    var a, b := Decimal.Show(level), Decimal.Show(digit);
    var s := Segment(level, digit);
    Decimal.ShowDigits(level);
    Decimal.ShowDigits(digit);
    forall i | 0 <= i < |s| ensures s[i] == 'd' || s[i] == '_' || '0' <= s[i] <= '9' {
      if 0 < i <= |a| { assert s[i] == a[i - 1]; }
      if i > |a| + 1 { assert s[i] == b[i - |a| - 2]; }
    }
  }

  lemma SegmentInjective(level: nat, m: nat, n: nat)
    requires Segment(level, m) == Segment(level, n)
    ensures m == n
  {
    var front := "d" + Decimal.Show(level) + "_";
    assert Segment(level, m)[|front|..] == Decimal.Show(m) && Segment(level, n)[|front|..] == Decimal.Show(n);
    Decimal.ShowInjective(m, n);
  }

  lemma {:induction false} SegmentsGood(index: nat, depth: nat, f: nat, level: nat)
    requires f >= 1
    ensures Good(Segments(index, depth, f, level))
    decreases depth
  {
    hide GoodSegment, Quot, Rem;
    if depth > 0 {
      SegmentGood(level, Rem(index, f));
      SegmentsGood(Quot(index, f), depth - 1, f, level + 1);
    }
  }

  /** `synthetic_path`. */
  method SyntheticPath(index: nat, depth: int, fanout: int) returns (r: string)
    ensures r == PathOf(RowSegments(index, depth, fanout))
  {
    hide PathOf, Join, Quot, Rem, Segment;
    var f: nat := Max(1, fanout);
    var n: nat := Max(1, depth);
    var parts: seq<string> := [];
    var value := index;
    for level := 0 to n
      invariant parts + Segments(value, n - level, f, level) == Segments(index, n, f, 0)
    {
      assert parts + Segments(value, n - level, f, level) ==
             parts + [Segment(level, Rem(value, f))] + Segments(Quot(value, f), n - level - 1, f, level + 1);
      parts := parts + [Segment(level, Rem(value, f))];
      value := Quot(value, f);
    }
    assert parts + [] == parts;
    r := JoinPath(parts);
  }

  method JoinPath(parts: seq<string>) returns (r: string)
    requires parts != []
    ensures r == PathOf(parts)
  {
    r := "/" + Join(parts, '/');
  }

  // -------------------------------------------------------------- arithmetic

  function Pow(f: nat, s: nat): (r: nat)
    requires f >= 1
    ensures r >= 1
  {
    if s == 0 then 1 else f * Pow(f, s - 1)
  }

  /** Segment `k` of a row names its level and digit `k` of the row's index. */
  lemma {:induction false} SegmentAt(index: nat, depth: nat, f: nat, level: nat, k: nat)
    requires f >= 1 && k < depth
    ensures Segments(index, depth, f, level)[k] ==
      "d" + Decimal.Show(level + k) + "_" + Decimal.Show(Rem(Quot(index, Pow(f, k)), f))
    decreases k
  {
    hide Rem, Decimal.Show;
    if k == 0 {
      WholeQuot(index);
    } else {
      hide Quot;
      SegmentAt(Quot(index, f), depth - 1, f, level + 1, k - 1);
      QuotSplit(index, f, Pow(f, k - 1));
    }
  }

  lemma WholeQuot(x: nat)
    ensures Quot(x, 1) == x
  {
  }

  /** Two rows share their first `s` segments exactly when they agree modulo `f^s`. */
  lemma {:induction false} SharePrefix(i: nat, j: nat, depth: nat, f: nat, level: nat, s: nat)
    requires f >= 1 && s <= depth
    ensures Segments(i, depth, f, level)[..s] == Segments(j, depth, f, level)[..s] <==>
      Rem(i, Pow(f, s)) == Rem(j, Pow(f, s))
    decreases s
  {
    hide Segment, Quot, Rem;
    if s > 0 {
      var a, b := Segments(i, depth, f, level), Segments(j, depth, f, level);
      var m := Pow(f, s - 1);
      SharePrefix(Quot(i, f), Quot(j, f), depth - 1, f, level + 1, s - 1);
      RemSplit(i, f, m);
      RemSplit(j, f, m);
      if Rem(i, Pow(f, s)) == Rem(j, Pow(f, s)) {
        SplitEqual(f, Rem(Quot(i, f), m), Rem(i, f), Rem(Quot(j, f), m), Rem(j, f));
      }
      if Segment(level, Rem(i, f)) == Segment(level, Rem(j, f)) { SegmentInjective(level, Rem(i, f), Rem(j, f)); }
      assert a[1..] == Segments(Quot(i, f), depth - 1, f, level + 1)
        && b[1..] == Segments(Quot(j, f), depth - 1, f, level + 1);
      PrefixesEqual(a, b, s);
    } else {
      SmallModOne(i, j);
    }
  }

  lemma SmallModOne(i: nat, j: nat)
    ensures Rem(i, 1) == Rem(j, 1)
  {
  }

  lemma FirstOf(a: seq<string>, s: nat)
    requires 0 < s <= |a|
    ensures a[..s] == [a[0]] + a[1..][..s - 1]
  {
  }

  lemma PrefixesEqual(a: seq<string>, b: seq<string>, s: nat)
    requires 0 < s <= |a| && s <= |b|
    ensures a[..s] == b[..s] <==> a[0] == b[0] && a[1..][..s - 1] == b[1..][..s - 1]
  {
    FirstOf(a, s);
    FirstOf(b, s);
    if a[..s] == b[..s] {
      assert a[..s][0] == a[0] && b[..s][0] == b[0];
      assert a[..s][1..] == a[1..][..s - 1] && b[..s][1..] == b[1..][..s - 1];
    }
  }

  /** Row `i` lies under the `s`-segment prefix of row `j`'s path exactly when `i` and `j` agree modulo `f^s`. */
  lemma RowUnderPrefix(i: nat, j: nat, depth: int, fanout: int, s: nat)
    requires 1 <= s <= Max(1, depth)
    ensures Matches(PathOf(RowSegments(i, depth, fanout)), PathPrefix(PathOf(RowSegments(j, depth, fanout)), s)) <==>
            Rem(i, Pow(Max(1, fanout), s)) == Rem(j, Pow(Max(1, fanout), s))
  {
    hide Matches, PathOf, PathPrefix, Good, Segments, Rem, Pow;
    var p, q := RowSegments(i, depth, fanout), RowSegments(j, depth, fanout);
    SegmentsGood(i, Max(1, depth), Max(1, fanout), 0);
    SegmentsGood(j, Max(1, depth), Max(1, fanout), 0);
    PathPrefixCanonical(q, s);
    GoodPrefix(q, q[..s]);
    MatchesIsPrefix(p, q[..s]);
    SharePrefix(i, j, Max(1, depth), Max(1, fanout), 0, s);
    assert q[..s] <= p <==> p[..s] == q[..s];
  }

  // ---------------------------------------------------------------- counting

  /** Rows below `n` that leave remainder `r`. */
  function CountMod(n: nat, m: nat, r: nat): nat
    requires m >= 1
  {
    if n == 0 then 0 else CountMod(n - 1, m, r) + if Rem(n - 1, m) == r then 1 else 0
  }

  lemma {:induction false} CountModExact(n: nat, m: nat, r: nat)
    requires m >= 1 && r < m
    ensures CountMod(n, m, r) == Quot(n, m) + if r < Rem(n, m) then 1 else 0
  {
    hide Quot, Rem;
    if n == 0 {
      SmallRem(0, m);
    } else {
      CountModExact(n - 1, m, r);
      NextRem(n - 1, m);
    }
  }

  /** The floor or the ceiling of `n / m`. */
  lemma CountModBounds(n: nat, m: nat, r: nat)
    requires m >= 1 && r < m
    ensures Quot(n, m) <= CountMod(n, m, r) <= CeilDiv(n, m)
  {
    hide Quot, Rem, CeilDiv;
    CountModExact(n, m, r);
    CeilDivIs(n, m);
  }

  /** How many of the first `n` rows match the `s`-segment filter of row `j`. */
  ghost function CountMatching(n: nat, j: nat, depth: int, fanout: int, s: nat): nat {
    if n == 0 then 0
    else if Matches(PathOf(RowSegments(n - 1, depth, fanout)), PathPrefix(PathOf(RowSegments(j, depth, fanout)), s))
    then CountMatching(n - 1, j, depth, fanout, s) + 1
    else CountMatching(n - 1, j, depth, fanout, s)
  }

  lemma {:induction false} MatchingIsResidue(n: nat, j: nat, depth: int, fanout: int, s: nat)
    requires 1 <= s <= Max(1, depth)
    ensures var m := Pow(Max(1, fanout), s); CountMatching(n, j, depth, fanout, s) == CountMod(n, m, Rem(j, m))
    decreases n
  {
    hide Matches, PathOf, PathPrefix, Rem, Pow, RowSegments;
    if n > 0 {
      MatchingIsResidue(n - 1, j, depth, fanout, s);
      RowUnderPrefix(n - 1, j, depth, fanout, s);
    }
  }

  /** A filter selects the floor or the ceiling of `rows / f^s`. */
  lemma SelectedRows(rows: nat, j: nat, depth: int, fanout: int, s: nat)
    requires 1 <= s <= Max(1, depth)
    ensures var m := Pow(Max(1, fanout), s);
      Quot(rows, m) <= CountMatching(rows, j, depth, fanout, s) <= CeilDiv(rows, m)
  {
    hide CountMatching, CountMod, Rem, Pow, CeilDiv, Quot;
    var m := Pow(Max(1, fanout), s);
    MatchingIsResidue(rows, j, depth, fanout, s);
    CountModBounds(rows, m, Rem(j, m));
  }

  // ------------------------------------------------------------- selectivity

  const SMALLEST: real := 0.000000001

  function ClampSelectivity(x: real): (r: real)
    ensures SMALLEST <= r <= 1.0
  {
    if x < SMALLEST then SMALLEST else if x > 1.0 then 1.0 else x
  }

  lemma PowGrows(f: nat, s: nat)
    requires f >= 2
    ensures Pow(f, s + 1) >= 2 * Pow(f, s)
  {
    assert Pow(f, s + 1) == f * Pow(f, s);
  }

  /** `f^s` segments bring the share down to `sel` or below. */
  predicate Enough(sel: real, f: nat, s: nat)
    requires f >= 1
  {
    Pow(f, s) as real * sel >= 1.0
  }

  lemma NotEnoughYet(sel: real, f: nat, s: nat)
    requires sel >= SMALLEST && f >= 2 && !Enough(sel, f, s)
    ensures Pow(f, s) < Pow(f, s + 1) && Pow(f, s) < 1000000000
  {
    PowGrows(f, s);
    hide Pow;
    var p := Pow(f, s);
    if p >= 1000000000 { RealMonotone(sel, 1000000000.0, p as real); }
  }

  function Gas(p: nat): nat { if p < 1000000000 then 1000000000 - p else 0 }

  /** The least exponent from `s` on that is enough: the exact ceiling of the logarithm. */
  function LeastPower(sel: real, f: nat, s: nat): (e: nat)
    requires sel >= SMALLEST && f >= 2
    ensures e >= s && Enough(sel, f, e) && (e > s ==> !Enough(sel, f, e - 1))
    decreases Gas(Pow(f, s))
  {
    hide Pow, Enough;
    if Enough(sel, f, s) then s
    else
      NotEnoughYet(sel, f, s);
      LeastPower(sel, f, s + 1)
  }

  /** `filter_segments`, with exact logarithms. */
  function FilterSegments(selectivity: real, fanout: int, depth: int): nat {
    Max(1, Min(depth, LeastPower(ClampSelectivity(selectivity), Max(2, fanout), 0)))
  }

  function Ceil(x: real): int { -((-x).Floor) }

  /** The ceiling of `rows * sel`. */
  function ShareOf(rows: nat, sel: real): int { Ceil(rows as real * sel) }

  lemma CeilBound(rows: nat, p: nat, sel: real)
    requires p >= 1 && p as real * sel >= 1.0
    ensures CeilDiv(rows, p) <= ShareOf(rows, sel)
  {
    hide Quot, Rem, CeilDiv;
    CeilDivIs(rows, p);
    DivisionLaw(rows, p);
    var c := CeilDiv(rows, p);
    var x := rows as real * sel;
    if c >= 1 {
      Distribute(p, c, 1);
      assert p * (c - 1) < rows;
      RealBound(rows, p, sel, c - 1);
    } else {
      assert x >= 0.0;
    }
  }

  lemma RealBound(rows: nat, p: nat, sel: real, k: nat)
    requires p >= 1 && p as real * sel >= 1.0 && p * k < rows
    ensures k as real < rows as real * sel
  {
    // compare both sides after multiplying by p
    var x := rows as real * sel;
    RealProduct(rows as real, p as real * sel);
    assert rows as real * (p as real * sel) == p as real * x;
    assert p as real * k as real == (p * k) as real;
    if k as real >= x {
      RealMonotone(p as real, x, k as real);
      assert false;
    }
  }

  lemma RealProduct(a: real, b: real)
    requires a >= 0.0 && b >= 1.0
    ensures a * b >= a
  {
  }

  lemma RealMonotone(p: real, x: real, k: real)
    requires p >= 0.0 && x <= k
    ensures p * x <= p * k
  {
  }

  /** The filter of row `j` selects at most the requested share of the rows. */
  ghost predicate WithinShare(rows: nat, j: nat, selectivity: real, fanout: int, depth: int) {
    CountMatching(rows, j, depth, fanout, FilterSegments(selectivity, fanout, depth)) <=
      ShareOf(rows, ClampSelectivity(selectivity))
  }

  /**
   When the share is respected: with a fanout of 2 or more, when the depth leaves room for
   the segments needed; with a smaller one, where all rows share one path, when everything
   is asked for.
   */
  predicate Respected(selectivity: real, fanout: int, depth: int) {
    var sel := ClampSelectivity(selectivity);
    if fanout >= 2 then LeastPower(sel, fanout, 0) <= Max(1, depth) else sel == 1.0
  }

  /** Then the chosen filter selects at most the requested share of the rows. */
  lemma SelectivityBound(rows: nat, j: nat, selectivity: real, fanout: int, depth: int)
    requires Respected(selectivity, fanout, depth)
    ensures WithinShare(rows, j, selectivity, fanout, depth)
  {
    hide CountMatching, Quot, CeilDiv, ShareOf, LeastPower;
    var sel := ClampSelectivity(selectivity);
    if fanout >= 2 {
      var s := FilterSegments(selectivity, fanout, depth);
      SelectedRows(rows, j, depth, fanout, s);
      assert Pow(fanout, s) as real * sel >= 1.0 by {
        if LeastPower(sel, fanout, 0) == 0 {
          assert Pow(fanout, 0) == 1;
          PowGrows(fanout, 0);
          RealProduct(1.0 * sel, fanout as real);
          assert Pow(fanout, 1) == fanout * Pow(fanout, 0);
        }
      }
      CeilBound(rows, Pow(fanout, s), sel);
    } else {
      OnePathSelectsAll(rows, j, selectivity, fanout, depth);
      CeilBound(rows, 1, sel);
      assert CeilDiv(rows, 1) == rows by { CeilOne(rows); }
    }
  }

  lemma CeilOne(rows: nat)
    ensures CeilDiv(rows, 1) == Quot(rows, 1) == rows
  {
  }

  lemma {:induction false} PowOne(s: nat)
    ensures Pow(1, s) == 1
  {
    if s > 0 { PowOne(s - 1); }
  }

  /** With a fanout below 2 all rows have one path, and every filter selects all of them. */
  lemma OnePathSelectsAll(rows: nat, j: nat, selectivity: real, fanout: int, depth: int)
    requires fanout <= 1
    ensures CountMatching(rows, j, depth, fanout, FilterSegments(selectivity, fanout, depth)) == rows
  {
    hide CountMatching, Quot, CeilDiv, LeastPower;
    var s := FilterSegments(selectivity, fanout, depth);
    PowOne(s);
    CeilOne(rows);
    SelectedRows(rows, j, depth, fanout, s);
  }

  /** The requested share is respected for all row counts and all query rows exactly then. */
  lemma SelectivityBoundIff(selectivity: real, fanout: int, depth: int)
    ensures (forall rows: nat, j: nat :: WithinShare(rows, j, selectivity, fanout, depth)) <==>
      Respected(selectivity, fanout, depth)
  {
    hide Respected, WithinShare;
    if Respected(selectivity, fanout, depth) {
      forall rows: nat, j: nat ensures WithinShare(rows, j, selectivity, fanout, depth) {
        SelectivityBound(rows, j, selectivity, fanout, depth);
      }
    } else {
      var rows := TooManyRows(selectivity, fanout, depth);
    }
  }

  lemma {:induction false} EnoughGrows(sel: real, f: nat, s: nat, t: nat)
    requires f >= 2 && s <= t && Enough(sel, f, s) && sel > 0.0
    ensures Enough(sel, f, t)
    decreases t - s
  {
    if s < t {
      PowGrows(f, s);
      RealMonotone(sel, Pow(f, s) as real, Pow(f, s + 1) as real);
      EnoughGrows(sel, f, s + 1, t);
    }
  }

  /** A row count for which a filter that does not respect the share selects too many rows. */
  lemma TooManyRows(selectivity: real, fanout: int, depth: int) returns (rows: nat)
    requires !Respected(selectivity, fanout, depth)
    ensures !WithinShare(rows, 0, selectivity, fanout, depth)
  {
    hide CountMatching, LeastPower, ShareOf, Quot, CeilDiv, Pow, Enough;
    var sel, s := ClampSelectivity(selectivity), Max(1, depth);
    if fanout >= 2 {
      var e := LeastPower(sel, fanout, 0);
      if Enough(sel, fanout, s) { EnoughGrows(sel, fanout, s, e - 1); }
      var k: nat;
      rows, k := ManyRows(sel, fanout, s);
      SelectedRows(rows, 0, depth, fanout, s);
      assert FilterSegments(selectivity, fanout, depth) == s;
    } else {
      rows := FewerThan(sel);
      CeilOfShare(rows, 1, rows, sel);
      OnePathSelectsAll(rows, 0, selectivity, fanout, depth);
    }
  }

  lemma ManyRows(sel: real, f: nat, s: nat) returns (rows: nat, k: nat)
    requires f >= 1 && !Enough(sel, f, s)
    ensures ShareOf(rows, sel) < k == Quot(rows, Pow(f, s))
  {
    hide ShareOf, Quot, Pow;
    var m := Pow(f, s);
    k := FewerThan(m as real * sel);
    rows := m * k;
    DivisionUnique(rows, m, k, 0);
    CeilOfShare(rows, m, k, sel);
  }

  /** Below one, `k` copies of a share fall short of `k` by a whole unit, for `k` large enough. */
  lemma FewerThan(a: real) returns (k: nat)
    requires a < 1.0
    ensures k as real * a <= k as real - 1.0
  {
    k := Reciprocal(1.0 - a);
    Complement(k as real, a);
  }

  lemma Reciprocal(b: real) returns (k: nat)
    requires b > 0.0
    ensures b * k as real >= 1.0
  {
    var x := 1.0 / b;
    assert b * x == 1.0;
    k := x.Floor + 1;
    RealMonotone(b, x, k as real);
  }

  lemma Complement(k: real, a: real)
    ensures k * a == k - (1.0 - a) * k
  {
  }

  lemma CeilOfShare(rows: nat, m: nat, k: nat, sel: real)
    requires rows == m * k && k as real * (m as real * sel) <= k as real - 1.0
    ensures ShareOf(rows, sel) < k
  {
    assert rows as real == m as real * k as real;
    assert rows as real * sel == k as real * (m as real * sel);
  }

  /** When the depth does cut it short, the bound can fail: ten times too many rows. */
  lemma DepthClampBreaksBound()
    ensures FilterSegments(0.01, 10, 1) == 1
    ensures CountMatching(100, 0, 1, 10, 1) == 10 && ShareOf(100, ClampSelectivity(0.01)) == 1
  {
    MatchingIsResidue(100, 0, 1, 10, 1);
    hide CountMatching;
    assert Pow(10, 1) == 10 by { assert Pow(10, 0) == 1; }
    CountModExact(100, 10, 0);
    hide CountMod;
  }

  /** With a fanout of 1 it fails as well: a hundred times too many rows. */
  lemma FanoutOneBreaksBound()
    ensures CountMatching(100, 0, 4, 1, FilterSegments(0.01, 1, 4)) == 100 && ShareOf(100, ClampSelectivity(0.01)) == 1
  {
    hide CountMatching, FilterSegments;
    OnePathSelectsAll(100, 0, 0.01, 1, 4);
  }

  // -------------------------------------------------------- no more than needed

  /** The share asked for, kept between a billionth and all rows. */
  function Asked(selectivity: real): real {
    if selectivity < 0.000000001 then 0.000000001 else if selectivity > 1.0 then 1.0 else selectivity
  }

  /**
   The number of segments is the least one whose period brings the share down to what is
   asked for, or all there are when even that is not enough.
   */
  lemma FilterSegmentsLeast(selectivity: real, fanout: int, depth: int)
    ensures var s := FilterSegments(selectivity, fanout, depth); 1 <= s <= Max(1, depth)
    ensures forall t: nat :: 1 <= t < FilterSegments(selectivity, fanout, depth) ==>
      !Enough(Asked(selectivity), Max(2, fanout), t)
    ensures var s := FilterSegments(selectivity, fanout, depth);
      s < Max(1, depth) ==> Enough(Asked(selectivity), Max(2, fanout), s)
  {
    hide LeastPower, Enough;
    var sel, f, s := Asked(selectivity), Max(2, fanout), FilterSegments(selectivity, fanout, depth);
    var e := LeastPower(sel, f, 0);
    assert s == Max(1, Min(depth, e));
    forall t: nat | 1 <= t < s ensures !Enough(sel, f, t) {
      if Enough(sel, f, t) { EnoughGrows(sel, f, t, e - 1); }
    }
    if s < Max(1, depth) { EnoughGrows(sel, f, e, s); }
  }

  /** One segment less would exceed the share for some row count. */
  lemma OneLessIsTooMany(selectivity: real, fanout: int, depth: int) returns (rows: nat)
    requires fanout >= 2 && FilterSegments(selectivity, fanout, depth) > 1
    ensures CountMatching(rows, 0, depth, fanout, FilterSegments(selectivity, fanout, depth) - 1) >
      ShareOf(rows, Asked(selectivity))
  {
    hide CountMatching, ShareOf, Quot, CeilDiv, Pow, FilterSegments, Enough;
    var sel, s := Asked(selectivity), FilterSegments(selectivity, fanout, depth);
    FilterSegmentsLeast(selectivity, fanout, depth);
    var t: nat := s - 1;
    assert !Enough(sel, Max(2, fanout), t) && Max(2, fanout) == fanout;
    var k: nat;
    rows, k := ManyRows(sel, fanout, t);
    SelectedRows(rows, 0, depth, fanout, t);
  }

  /**
   The standard profile: 5% of 10000 rows with fanout 8 and depth 6 takes two segments and selects
   156 or 157 rows.
   */
  lemma StandardProfile(j: nat)
    ensures FilterSegments(0.05, 8, 6) == 2 && 156 <= CountMatching(10000, j, 6, 8, FilterSegments(0.05, 8, 6)) <= 157
  {
    hide CountMatching, FilterSegments, Pow;
    EightSquared();
    FilterSegmentsLeast(0.05, 8, 6);
    assert Asked(0.05) == 0.05 && Max(2, 8) == 8;
    assert !Enough(Asked(0.05), Max(2, 8), 1) && Enough(Asked(0.05), Max(2, 8), 2);
    SelectedRows(10000, j, 6, 8, 2);
  }

  lemma EightSquared()
    ensures Pow(8, 1) == 8 && Pow(8, 2) == 64
  {
    assert Pow(8, 0) == 1;
    assert Pow(8, 1) == 8 * Pow(8, 0);
    assert Pow(8, 2) == 8 * Pow(8, 1);
  }
}
