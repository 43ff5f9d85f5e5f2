/** `build_synthetic_workload`: the record stream and the query set drawn from the same seed. */
module SyntheticWorkload {
  import opened Prelude
  import opened Paths
  import opened Arith
  import opened Synthetic
  import Decimal

  datatype Options = Options(rows: int, dim: int, queries: int, depth: int, fanout: int, selectivity: real)

  datatype Record = Record(id: string, vector: seq<real>, uri: string)

  datatype Query = Query(id: string, vector: seq<real>, filterPath: string, groundTruth: string)

  /** A seeded generator: a fixed stream of draws and how many were taken. */
  class Rng {
    const stream: nat -> real
    var taken: nat

    constructor (stream: nat -> real)
      ensures this.stream == stream && taken == 0
    {
      this.stream, taken := stream, 0;
    }

    /** `synthetic_vector`: the next `dim` draws. */
    method Vector(dim: nat) returns (v: seq<real>)
      modifies this
      ensures v == Draws(stream, old(taken), dim) && taken == old(taken) + dim
    {
      v := [];
      for i := 0 to dim
        invariant taken == old(taken) + i && v == Draws(stream, old(taken), i)
      {
        v := v + [stream(taken)];
        taken := taken + 1;
      }
    }
  }

  function Draws(stream: nat -> real, start: nat, n: nat): seq<real> {
    if n == 0 then [] else Draws(stream, start, n - 1) + [stream(start + n - 1)]
  }

  lemma {:induction false} DrawsAre(stream: nat -> real, start: nat, n: nat)
    ensures |Draws(stream, start, n)| == n && forall j :: 0 <= j < n ==> Draws(stream, start, n)[j] == stream(start + j)
  {
    if n > 0 { DrawsAre(stream, start, n - 1); }
  }

  function Rows(o: Options): nat { Max(1, o.rows) }

  function Dim(o: Options): nat { Max(4, o.dim) }

  function QueryCount(o: Options): (n: nat)
    ensures 1 <= n <= Rows(o)
  {
    Max(1, Min(o.queries, Rows(o)))
  }

  function RecordId(k: nat): string { "syn-" + Decimal.Show(k) }

  function RecordAt(alnum: char -> bool, stream: nat -> real, o: Options, k: nat): Record {
    Record(RecordId(k), Draws(stream, k * Dim(o), Dim(o)),
           ResourceUri(alnum, "synthetic", PathOf(RowSegments(k, o.depth, o.fanout)), Some(RecordId(k))))
  }

  /** The generator behind `Workload.records`. */
  method Records(alnum: char -> bool, stream: nat -> real, o: Options) returns (rs: seq<Record>)
    ensures |rs| == Rows(o) && forall k :: 0 <= k < |rs| ==> rs[k] == RecordAt(alnum, stream, o, k)
  {
    hide ResourceUri, PathOf, RowSegments, Draws, RecordId;
    var rng := new Rng(stream);
    rs := [];
    for k := 0 to Rows(o)
      invariant fresh(rng) && rng.stream == stream && rng.taken == k * Dim(o)
      invariant |rs| == k && forall i :: 0 <= i < k ==> rs[i] == RecordAt(alnum, stream, o, i)
    {
      var path := SyntheticPath(k, o.depth, o.fanout);
      var v := rng.Vector(Dim(o));
      StepProduct(k, Dim(o));
      rs := rs + [Record(RecordId(k), v, ResourceUri(alnum, "synthetic", path, Some(RecordId(k))))];
    }
  }

  lemma StepProduct(k: nat, d: nat)
    ensures (k + 1) * d == k * d + d
  {
  }

  /** Which record a query asks for. */
  function QueryIndex(o: Options, q: nat): nat {
    Rem(q * Max(1, Quot(Rows(o), QueryCount(o))), Rows(o))
  }

  function QueryAt(alnum: char -> bool, stream: nat -> real, o: Options, q: nat): Query {
    var k := QueryIndex(o, q);
    Query("syn-q" + Decimal.Show(q), Draws(stream, k * Dim(o), Dim(o)),
          ResourceUri(alnum, "synthetic",
                      PathPrefix(PathOf(RowSegments(k, o.depth, o.fanout)),
                        FilterSegments(o.selectivity, o.fanout, o.depth)), None),
          RecordId(k))
  }

  /** The query half: all vectors again from the same seed, then one case per query. */
  method Queries(alnum: char -> bool, stream: nat -> real, o: Options) returns (qs: seq<Query>)
    ensures |qs| == QueryCount(o) && forall q :: 0 <= q < |qs| ==> qs[q] == QueryAt(alnum, stream, o, q)
  {
    hide ResourceUri, PathOf, RowSegments, Draws, RecordId, FilterSegments, PathPrefix, Quot, Rem;
    var vectors := AllVectors(stream, o);
    qs := [];
    for q := 0 to QueryCount(o)
      invariant |qs| == q && forall i :: 0 <= i < q ==> qs[i] == QueryAt(alnum, stream, o, i)
    {
      var k := QueryIndex(o, q);
      var path := SyntheticPath(k, o.depth, o.fanout);
      var prefix := PathPrefix(path, FilterSegments(o.selectivity, o.fanout, o.depth));
      var filter := ResourceUri(alnum, "synthetic", prefix, None);
      qs := qs + [Query("syn-q" + Decimal.Show(q), vectors[k], filter, RecordId(k))];
    }
  }

  method AllVectors(stream: nat -> real, o: Options) returns (vs: seq<seq<real>>)
    ensures |vs| == Rows(o) && forall k :: 0 <= k < |vs| ==> vs[k] == Draws(stream, k * Dim(o), Dim(o))
  {
    hide Draws;
    var rng := new Rng(stream);
    vs := [];
    for k := 0 to Rows(o)
      invariant fresh(rng) && rng.stream == stream && rng.taken == k * Dim(o)
      invariant |vs| == k && forall i :: 0 <= i < k ==> vs[i] == Draws(stream, i * Dim(o), Dim(o))
    {
      var v := rng.Vector(Dim(o));
      StepProduct(k, Dim(o));
      vs := vs + [v];
    }
  }

  // ------------------------------------------------------------- properties

  /** The remainder in the index never bites: queries step through the rows. */
  lemma QueryIndexExact(o: Options, q: nat)
    requires q < QueryCount(o)
    ensures Quot(Rows(o), QueryCount(o)) >= 1
    ensures QueryIndex(o, q) == q * Quot(Rows(o), QueryCount(o)) < Rows(o)
  {
    hide Quot, Rem;
    var n, c := Rows(o), QueryCount(o);
    var step := Quot(n, c);
    DivisionLaw(n, c);
    Distribute(step, c, q);
    MulAtLeast(step, c - q);
    SmallRem(q * step, n);
  }

  lemma QueryIndicesDistinct(o: Options, a: nat, b: nat)
    requires a < b < QueryCount(o)
    ensures QueryIndex(o, a) != QueryIndex(o, b)
  {
    hide Quot, Rem, QueryIndex;
    QueryIndexExact(o, a);
    QueryIndexExact(o, b);
    var step := Quot(Rows(o), QueryCount(o));
    Distribute(step, b, a);
    MulAtLeast(step, b - a);
  }

  lemma RecordIdInjective(a: nat, b: nat)
    requires RecordId(a) == RecordId(b)
    ensures a == b
  {
    assert RecordId(a)[4..] == Decimal.Show(a) && RecordId(b)[4..] == Decimal.Show(b);
    Decimal.ShowInjective(a, b);
  }

  /** A record passes a query's filter exactly when its row and the query's agree modulo the filter's period. */
  lemma FilterSelects(alnum: char -> bool, stream: nat -> real, o: Options, i: nat, q: nat)
    requires AlnumLike(alnum) && q < QueryCount(o)
    ensures var s := FilterSegments(o.selectivity, o.fanout, o.depth); var m := Pow(Max(1, o.fanout), s);
      Matches(RecordAt(alnum, stream, o, i).uri, QueryAt(alnum, stream, o, q).filterPath) <==>
        Rem(i, m) == Rem(QueryIndex(o, q), m)
  {
    hide ResourceUri, PathOf, PathPrefix, Matches, Good, Draws, AlnumLike, Segments, SafeSegment, Rem, Pow, LeastPower;
    var k := QueryIndex(o, q);
    var s := FilterSegments(o.selectivity, o.fanout, o.depth);
    var p, r := RowSegments(k, o.depth, o.fanout), RowSegments(i, o.depth, o.fanout);
    SegmentsGood(k, Max(1, o.depth), Max(1, o.fanout), 0);
    SegmentsGood(i, Max(1, o.depth), Max(1, o.fanout), 0);
    PathPrefixCanonical(p, s);
    GoodPrefix(p, p[..s]);
    UriMatching(alnum, "synthetic", r, RecordId(i), "synthetic", p[..s]);
    MatchesIsPrefix(r, p[..s]);
    RowUnderPrefix(i, k, o.depth, o.fanout, s);
  }

  /**
   In every workload the queried rows are in range and pairwise different; each query's
   vector is the vector the record stream emits for its ground-truth id, no other record
   has that id, and that record's URI passes the query's own filter.
   */
  method BuildSyntheticWorkload(alnum: char -> bool, stream: nat -> real, o: Options)
    returns (rs: seq<Record>, qs: seq<Query>)
    requires AlnumLike(alnum)
    ensures |rs| == Rows(o) && forall k :: 0 <= k < |rs| ==> rs[k] == RecordAt(alnum, stream, o, k)
    ensures |qs| == QueryCount(o) && forall q :: 0 <= q < |qs| ==> qs[q] == QueryAt(alnum, stream, o, q)
    ensures |rs| == Max(1, o.rows) && |qs| == Max(1, Min(o.queries, Max(1, o.rows)))
    ensures forall k :: 0 <= k < |rs| ==> Emitted(rs[k], stream, k, Max(4, o.dim))
    ensures forall q :: 0 <= q < |qs| ==> qs[q].groundTruth == "syn-" + Decimal.Show(Times(q, Quot(|rs|, |qs|)))
    ensures forall q :: 0 <= q < |qs| ==> Answered(rs, qs[q], QueryIndex(o, q))
    ensures forall a, b :: 0 <= a < b < |qs| ==> qs[a].groundTruth != qs[b].groundTruth
  {
    rs := Records(alnum, stream, o);
    qs := Queries(alnum, stream, o);
    hide RecordAt, QueryAt, QueryIndex, Matches, AlnumLike, Emitted, Answered, Decimal.Show;
    forall k | 0 <= k < |rs| ensures Emitted(rs[k], stream, k, Max(4, o.dim)) { EmittedAt(alnum, stream, o, k); }
    forall q | 0 <= q < |qs|
      ensures qs[q].groundTruth == "syn-" + Decimal.Show(Times(q, Quot(|rs|, |qs|)))
        && Answered(rs, qs[q], QueryIndex(o, q))
    {
      TruthAt(alnum, stream, o, q);
      AnsweredAt(alnum, stream, o, rs, q);
    }
    forall a, b | 0 <= a < b < |qs| ensures qs[a].groundTruth != qs[b].groundTruth {
      TruthsDiffer(alnum, stream, o, a, b);
    }
  }

  lemma TruthAt(alnum: char -> bool, stream: nat -> real, o: Options, q: nat)
    requires q < QueryCount(o)
    ensures QueryAt(alnum, stream, o, q).groundTruth == "syn-" + Decimal.Show(Times(q, Quot(Rows(o), QueryCount(o))))
  {
    hide ResourceUri, PathOf, PathPrefix, RowSegments, Draws, FilterSegments, QueryIndex, Decimal.Show;
    QueryIndexExact(o, q);
  }

  lemma AnsweredAt(alnum: char -> bool, stream: nat -> real, o: Options, rs: seq<Record>, q: nat)
    requires AlnumLike(alnum) && q < QueryCount(o)
    requires |rs| == Rows(o) && forall k :: 0 <= k < |rs| ==> rs[k] == RecordAt(alnum, stream, o, k)
    ensures Answered(rs, QueryAt(alnum, stream, o, q), QueryIndex(o, q))
  {
    hide RecordId, QueryIndex, Matches, Draws, ResourceUri, AlnumLike, PathOf, PathPrefix, RowSegments, FilterSegments;
    var k := QueryIndex(o, q);
    QueryIndexExact(o, q);
    FilterSelects(alnum, stream, o, k, q);
    forall i | 0 <= i < |rs| && rs[i].id == RecordId(k) ensures i == k { RecordIdInjective(i, k); }
  }

  lemma TruthsDiffer(alnum: char -> bool, stream: nat -> real, o: Options, a: nat, b: nat)
    requires a < b < QueryCount(o)
    ensures QueryAt(alnum, stream, o, a).groundTruth != QueryAt(alnum, stream, o, b).groundTruth
  {
    hide RecordId, QueryIndex, Draws, ResourceUri, PathOf, PathPrefix, RowSegments, FilterSegments;
    QueryIndicesDistinct(o, a, b);
    if RecordId(QueryIndex(o, a)) == RecordId(QueryIndex(o, b)) {
      RecordIdInjective(QueryIndex(o, a), QueryIndex(o, b));
    }
  }

  /** A record's id, and a vector of the draws in its turn. */
  ghost predicate Emitted(r: Record, stream: nat -> real, k: nat, dim: nat) {
    r.id == "syn-" + Decimal.Show(k) && |r.vector| == dim
      && forall j :: 0 <= j < dim ==> r.vector[j] == stream(k * dim + j)
  }

  lemma EmittedAt(alnum: char -> bool, stream: nat -> real, o: Options, k: nat)
    ensures Emitted(RecordAt(alnum, stream, o, k), stream, k, Max(4, o.dim))
  {
    hide ResourceUri, PathOf, RowSegments, Draws;
    DrawsAre(stream, k * Dim(o), Dim(o));
  }

  /** Record `k`, and it alone, answers the query. */
  ghost predicate Answered(rs: seq<Record>, q: Query, k: nat) {
    && k < |rs| && rs[k].id == q.groundTruth && rs[k].vector == q.vector && Matches(rs[k].uri, q.filterPath)
    && forall i :: 0 <= i < |rs| && rs[i].id == q.groundTruth ==> i == k
  }
}
