/** Row counts behind the filter scenarios of the collection benchmark. */
module Buckets {
  import opened Prelude
  import opened Arith
  import opened Text
  import opened Paths
  import Decimal

  /** `scalar_fields`. */
  function UniformBucket(row: nat): nat { row % 1000 }

  function ClusterBucket(row: nat, rows: nat): nat
    requires rows >= 1
  {
    Min(999, Quot(row * 1000, rows))
  }

  /** The URI segments `make_record` gives a row. */
  function RecordSegments(row: nat): seq<string> {
    ["docs", "g" + Decimal.Show(row % 10), "h" + Decimal.Show(row / 10 % 10), "i" + Decimal.Show(row / 100 % 10),
     "item-" + Decimal.Show(row)]
  }

  datatype Filter =
    | Everything
    | UniformBelow(bound: nat)
    | ClusterBelow(bound: nat)
    | UniformIs(bucket: nat)
    | Under(prefix: string)

  predicate Selects(f: Filter, row: nat, rows: nat)
    requires rows >= 1
  {
    match f
    case Everything => true
    case UniformBelow(b) => UniformBucket(row) < b
    case ClusterBelow(b) => ClusterBucket(row, rows) < b
    case UniformIs(b) => UniformBucket(row) == b
    case Under(prefix) => Matches(PathOf(RecordSegments(row)), prefix)
  }

  /** How many of the first `n` rows a filter selects. */
  function Count(f: Filter, n: nat, rows: nat): nat
    requires rows >= 1
  {
    if n == 0 then 0 else Count(f, n - 1, rows) + if Selects(f, n - 1, rows) then 1 else 0
  }

  // ------------------------------------------------------- clustered buckets

  /** A row's cluster bucket is below `b` exactly for the rows before the `ceil(b * rows / 1000)`-th. */
  lemma ClusterBelowIs(row: nat, rows: nat, b: nat)
    requires 1 <= b <= 999 && rows >= 1
    ensures ClusterBucket(row, rows) < b <==> row < CeilDiv(b * rows, 1000)
  {
    hide Quot, Rem, CeilDiv;
    var q, t := Quot(row * 1000, rows), Rem(row * 1000, rows);
    DivisionLaw(row * 1000, rows);
    CeilDivIs(b * rows, 1000);
    DivisionLaw(b * rows, 1000);
    Commute(b, rows);
    if q < b {
      Distribute(rows, b, q);
      MulAtLeast(rows, b - q);
    } else if q > b {
      Distribute(rows, q, b);
      MulAtLeast(rows, q - b);
    }
  }

  lemma Commute(a: int, b: int)
    ensures a * b == b * a
  {
  }

  lemma {:induction false} CountInitial(f: Filter, n: nat, rows: nat, c: nat)
    requires rows >= 1 && forall row: nat :: Selects(f, row, rows) <==> row < c
    ensures Count(f, n, rows) == Min(n, c)
  {
    hide Selects;
    if n > 0 { CountInitial(f, n - 1, rows, c); }
  }

  /** Exactly `ceil(b * rows / 1000)` rows lie in the first `b` cluster buckets. */
  lemma ClusteredCount(rows: nat, b: nat)
    requires 1 <= b <= 999 && rows >= 1
    ensures Count(ClusterBelow(b), rows, rows) == CeilDiv(b * rows, 1000)
  {
    hide ClusterBucket, CeilDiv, Count;
    forall row: nat ensures Selects(ClusterBelow(b), row, rows) <==> row < CeilDiv(b * rows, 1000) {
      ClusterBelowIs(row, rows, b);
    }
    CountInitial(ClusterBelow(b), rows, rows, CeilDiv(b * rows, 1000));
    CeilAtMost(rows, b);
  }

  lemma CeilAtMost(rows: nat, b: nat)
    requires b <= 999 && rows >= 1
    ensures CeilDiv(b * rows, 1000) <= rows
  {
    assert b * rows <= 999 * rows;
  }

  // ------------------------------------------------ uniform and path filters

  /** A filter that selects every `m`-th row, from the first on. */
  lemma {:induction false} CountEvery(f: Filter, n: nat, rows: nat, m: nat)
    requires rows >= 1 && m >= 1 && forall row: nat :: Selects(f, row, rows) <==> Rem(row, m) == 0
    ensures Count(f, n, rows) == CeilDiv(n, m)
  {
    hide Selects, Quot, Rem, CeilDiv;
    CeilDivIs(n, m);
    if n == 0 {
      SmallRem(0, m);
    } else {
      CountEvery(f, n - 1, rows, m);
      CeilDivIs(n - 1, m);
      NextRem(n - 1, m);
    }
  }

  /** Exactly `b` rows in each full thousand, and the first `b` of the rest, lie in the first `b` uniform buckets. */
  lemma {:induction false} UniformCount(n: nat, rows: nat, b: nat)
    requires b <= 1000 && rows >= 1
    ensures Count(UniformBelow(b), n, rows) == n / 1000 * b + Min(n % 1000, b)
  {
    if n > 0 {
      UniformCount(n - 1, rows, b);
      if n % 1000 == 0 {
        assert n / 1000 == (n - 1) / 1000 + 1 && (n - 1) % 1000 == 999;
        Distribute(b, (n - 1) / 1000, 1);
      } else {
        assert n / 1000 == (n - 1) / 1000 && (n - 1) % 1000 == n % 1000 - 1;
      }
    }
  }

  lemma ShowZero(d: nat)
    requires d < 10
    ensures Decimal.Show(d) == "0" <==> d == 0
  {
    assert Decimal.Show(0) == "0";
    if Decimal.Show(d) == "0" { Decimal.ShowInjective(d, 0); }
  }

  lemma TaggedZero(tag: string, d: nat)
    requires d < 10
    ensures tag + Decimal.Show(d) == tag + "0" <==> d == 0
  {
    hide Decimal.Show;
    ShowZero(d);
    assert (tag + Decimal.Show(d))[|tag|..] == Decimal.Show(d) && (tag + "0")[|tag|..] == "0";
  }

  lemma DigitsGood(tag: string, n: nat)
    requires GoodSegment(tag)
    ensures GoodSegment(tag + Decimal.Show(n))
  {
    Decimal.ShowDigits(n);
    var d := Decimal.Show(n);
    hide Decimal.Show;
    var s := tag + d;
    assert s[0] == tag[0] && s[|s| - 1] == d[|d| - 1];
    forall i | 0 <= i < |s| ensures s[i] != '/' && s[i] != ';' {
      if i < |tag| { assert s[i] == tag[i] && tag[i] in tag; } else { assert s[i] == d[i - |tag|]; }
    }
  }

  lemma Tags()
    ensures GoodSegment("docs") && GoodSegment("g") && GoodSegment("h") && GoodSegment("i") && GoodSegment("item-")
    ensures GoodSegment("g0") && GoodSegment("h0") && GoodSegment("i0")
  {
  }

  lemma RecordSegmentsGood(row: nat)
    ensures Good(RecordSegments(row))
  {
    hide GoodSegment, Decimal.Show;
    Tags();
    DigitsGood("g", row % 10);
    DigitsGood("h", row / 10 % 10);
    DigitsGood("i", row / 100 % 10);
    DigitsGood("item-", row);
  }

  /** The upper bound of the scenario that asks for `digits` zeros, and how rarely a row has them. */
  function Bound(digits: nat): nat { if digits == 1 then 100 else if digits == 2 then 10 else 1 }

  function Every(digits: nat): (m: nat)
    ensures m >= 1
  {
    if digits == 1 then 10 else if digits == 2 then 100 else 1000
  }

  /** The prefixes of the path scenarios: each digit more divides the rows by ten. */
  function Prefix(digits: nat): seq<string>
    requires digits <= 3
  {
    ["docs", "g0", "h0", "i0"][..digits + 1]
  }

  lemma PrefixTexts()
    ensures PathOf(Prefix(1)) == "/docs/g0" && PathOf(Prefix(2)) == "/docs/g0/h0"
      && PathOf(Prefix(3)) == "/docs/g0/h0/i0"
  {
    assert Prefix(1) == ["docs", "g0"] && Prefix(2) == ["docs", "g0", "h0"] && Prefix(3) == ["docs", "g0", "h0", "i0"];
    Joined2("docs", "g0");
    Joined2("g0", "h0");
    Joined2("h0", "i0");
    assert ["docs", "g0", "h0"][1..] == ["g0", "h0"];
    assert ["docs", "g0", "h0", "i0"][1..] == ["g0", "h0", "i0"] && ["g0", "h0", "i0"][1..] == ["h0", "i0"];
  }

  lemma Joined2(a: string, b: string)
    ensures Join([a, b], '/') == a + ['/'] + b
  {
    assert [a, b][1..] == [b];
  }

  lemma PrefixGood(digits: nat)
    requires digits <= 3
    ensures Good(Prefix(digits))
  {
    hide GoodSegment;
    Tags();
  }

  /** A path filter selects the rows whose last digits are zero. */
  lemma PathFilterIs(row: nat, digits: nat)
    requires 1 <= digits <= 3
    ensures Matches(PathOf(RecordSegments(row)), PathOf(Prefix(digits))) <==> Rem(row, Every(digits)) == 0
  {
    var p, q := RecordSegments(row), Prefix(digits);
    hide Matches, PathOf, GoodSegment, Decimal.Show;
    PrefixGood(digits);
    RecordSegmentsGood(row);
    MatchesIsPrefix(p, q);
    TaggedZero("g", row % 10);
    TaggedZero("h", row / 10 % 10);
    TaggedZero("i", row / 100 % 10);
    PrefixOfFive(p, q);
    Thousandth(row);
    Hundredth(row);
  }

  /** The 0.1% path filter selects exactly the rows in uniform bucket 0. */
  lemma PathFilterIsBucketZero(row: nat)
    ensures Matches(PathOf(RecordSegments(row)), "/docs/g0/h0/i0") <==> UniformBucket(row) == 0
  {
    hide Matches, PathOf, RecordSegments;
    PrefixTexts();
    PathFilterIs(row, 3);
  }

  lemma PrefixOfFive(p: seq<string>, q: seq<string>)
    requires |p| == 5 && 2 <= |q| <= 4
    ensures q <= p <==> p[0] == q[0] && p[1] == q[1] && (|q| > 2 ==> p[2] == q[2]) && (|q| > 3 ==> p[3] == q[3])
  {
  }

  lemma Thousandth(row: nat)
    ensures row % 1000 == 0 <==> row % 10 == 0 && row / 10 % 10 == 0 && row / 100 % 10 == 0
  {
    RemSplit(row, 10, 100);
    RemSplit(row / 10, 10, 10);
    DivideTwice(row);
  }

  lemma Hundredth(row: nat)
    ensures row % 100 == 0 <==> row % 10 == 0 && row / 10 % 10 == 0
  {
    RemSplit(row, 10, 10);
  }

  lemma DivideTwice(row: nat)
    ensures row / 10 / 10 == row / 100
  {
  }

  /** Different rows have different URIs. */
  lemma UrisDiffer(a: nat, b: nat)
    requires PathOf(RecordSegments(a)) == PathOf(RecordSegments(b))
    ensures a == b
  {
    hide PathOf, Decimal.Show;
    RecordSegmentsGood(a);
    RecordSegmentsGood(b);
    GoodIsPlain(RecordSegments(a));
    GoodIsPlain(RecordSegments(b));
    PartsCanonical(RecordSegments(a));
    PartsCanonical(RecordSegments(b));
    var x, y := RecordSegments(a)[4], RecordSegments(b)[4];
    assert x[5..] == Decimal.Show(a) && y[5..] == Decimal.Show(b);
    Decimal.ShowInjective(a, b);
  }

  // -------------------------------------------------------------- scenarios

  /**
   The 10%, 1% and 0.1% scenarios: path and clustered filters select the same number of
   rows, the ceiling of the share.  The uniform filter takes its share from the first rows
   of each thousand, so it selects as many exactly when the last thousand is nearly empty or
   nearly full.
   */
  lemma FilterScenarios(rows: nat, digits: nat)
    requires rows >= 1 && 1 <= digits <= 3
    ensures Count(Under(PathOf(Prefix(digits))), rows, rows) == CeilDiv(rows, Every(digits))
    ensures Count(ClusterBelow(Bound(digits)), rows, rows) == CeilDiv(rows, Every(digits))
    ensures Count(UniformBelow(Bound(digits)), rows, rows) ==
      rows / 1000 * Bound(digits) + Min(rows % 1000, Bound(digits))
    ensures Count(UniformBelow(Bound(digits)), rows, rows) == CeilDiv(rows, Every(digits)) <==>
            rows % 1000 <= 1 || rows % 1000 > 1000 - Every(digits)
  {
    hide Count, ClusterBucket, Matches, RecordSegments, PathOf, Prefix;
    forall row: nat ensures Selects(Under(PathOf(Prefix(digits))), row, rows) <==> Rem(row, Every(digits)) == 0 {
      PathFilterIs(row, digits);
    }
    CountEvery(Under(PathOf(Prefix(digits))), rows, rows, Every(digits));
    ClusteredCount(rows, Bound(digits));
    UniformCount(rows, rows, Bound(digits));
  }

  /** With 50 rows the 10% scenarios select 50, 5 and 5 of them. */
  lemma FiftyRows()
    ensures Count(UniformBelow(100), 50, 50) == 50
      && Count(ClusterBelow(100), 50, 50) == Count(Under("/docs/g0"), 50, 50) == 5
  {
    hide Count, PathOf;
    PrefixTexts();
    FilterScenarios(50, 1);
  }

  /** `prebuild_selective_scenario`: the count it compares with the threshold. */
  function EligibleCount(rows: nat): nat { (rows + 999) / 1000 }

  /** All three 0.1% scenarios, and the prebuild filter, select exactly the eligible count. */
  lemma TenthPercentScenarios(rows: nat)
    requires rows >= 1
    ensures Count(UniformBelow(1), rows, rows) == EligibleCount(rows)
    ensures Count(ClusterBelow(1), rows, rows) == EligibleCount(rows)
    ensures Count(Under("/docs/g0/h0/i0"), rows, rows) == EligibleCount(rows)
    ensures Count(UniformIs(0), rows, rows) == EligibleCount(rows)
  {
    hide Count, ClusterBucket, Matches, RecordSegments, PathOf, Prefix;
    PrefixTexts();
    FilterScenarios(rows, 3);
    CountEvery(UniformIs(0), rows, rows, 1000);
  }
}
