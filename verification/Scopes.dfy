/**
 The directory scope derived from ground truth: the common prefix of the highest-score
 items' paths.  A path value is one canonical path or several joined by semicolons, which
 is what `normalize_path` makes of a list; the scope code does not split the latter.
 */
module Scopes {
  import opened Prelude
  import opened Text
  import opened Paths

  // ------------------------------------------------------------ path values

  /** The value of a nonempty list of canonical paths. */
  ghost predicate IsValue(value: string, ps: seq<seq<string>>) {
    ps != [] && (forall i :: 0 <= i < |ps| ==> Good(ps[i])) && value == Join(Strings(ps), ';')
  }

  /** A path that is not the last of its list, as splitting at slashes sees it. */
  function Mark(p: seq<string>): (r: seq<string>)
    ensures r != []
  {
    if p == [] then [";"] else p[..|p| - 1] + [p[|p| - 1] + ";"]
  }

  /** The segments `path_parts` finds in the value of a list. */
  function Flat(ps: seq<seq<string>>): seq<string>
    requires ps != []
  {
    if |ps| == 1 then ps[0] else Mark(ps[0]) + Flat(ps[1..])
  }

  lemma MarkPlain(p: seq<string>)
    requires Good(p)
    ensures Plain(Mark(p))
  {
    GoodIsPlain(p);
    if p != [] {
      var x := p[|p| - 1];
      assert PlainSegment(x);
      assert (x + ";")[0] == x[0];
    }
  }

  lemma {:induction false} FlatPlain(ps: seq<seq<string>>)
    requires ps != [] && forall i :: 0 <= i < |ps| ==> Good(ps[i])
    ensures Plain(Flat(ps))
  {
    hide Good, PlainSegment, Mark;
    if |ps| == 1 {
      GoodIsPlain(ps[0]);
    } else {
      MarkPlain(ps[0]);
      FlatPlain(ps[1..]);
    }
  }

  lemma MarkText(p: seq<string>)
    ensures PathOf(Mark(p)) == PathOf(p) + ";"
  {
    if p != [] {
      var n := |p| - 1;
      if n > 0 {
        JoinAppend(p[..n], [p[n]], '/');
        JoinAppend(p[..n], [p[n] + ";"], '/');
        assert p == p[..n] + [p[n]];
      } else {
        assert p == [p[0]] && Mark(p) == [p[0] + ";"];
      }
    }
  }

  /** The last path is the root, so that the value ends in a slash. */
  predicate EndsInRoot(ps: seq<seq<string>>) { |ps| > 1 && ps[|ps| - 1] == [] }

  lemma {:induction false} FlatText(ps: seq<seq<string>>)
    requires ps != []
    ensures Join(Strings(ps), ';') == PathOf(Flat(ps)) + if EndsInRoot(ps) then "/" else ""
  {
    hide PathOf, Mark;
    if |ps| == 1 {
      assert Strings(ps) == [PathOf(ps[0])];
    } else {
      var rest := ps[1..];
      assert Strings(ps)[1..] == Strings(rest);
      FlatText(rest);
      MarkText(ps[0]);
      TwoPaths(Mark(ps[0]), Flat(rest));
      assert Join(Strings(ps), ';') == PathOf(Mark(ps[0])) + Join(Strings(rest), ';');
      if |rest| > 1 {
        FlatNonempty(rest);
        assert EndsInRoot(ps) == EndsInRoot(rest);
        var tail := if EndsInRoot(rest) then "/" else "";
        assert PathOf(Mark(ps[0])) + (PathOf(Flat(rest)) + tail) == PathOf(Mark(ps[0])) + PathOf(Flat(rest)) + tail;
      }
    }
  }

  lemma TwoPaths(p: seq<string>, q: seq<string>)
    requires p != []
    ensures PathOf(p) + PathOf(q) == PathOf(p + q) + if q == [] then "/" else ""
  {
    if q != [] { JoinAppend(p, q, '/'); } else { assert p + q == p; }
  }

  /** `path_parts` of a value. */
  lemma PartsOfValue(value: string, ps: seq<seq<string>>)
    requires IsValue(value, ps)
    ensures Parts(value) == Flat(ps) && Plain(Flat(ps))
  {
    hide Normalize, PathOf, Join, Plain, Good, RawParts;
    FlatText(ps);
    FlatPlain(ps);
    if EndsInRoot(ps) {
      assert Flat(ps) != [] by { FlatNonempty(ps); }
      TrailingSlash(Flat(ps));
    } else {
      assert value == PathOf(Flat(ps));
    }
    PartsCanonical(Flat(ps));
  }

  lemma FlatNonempty(ps: seq<seq<string>>)
    requires |ps| > 1
    ensures Flat(ps) != []
  {
  }

  lemma TrailingSlash(p: seq<string>)
    requires Plain(p) && p != []
    ensures Parts(PathOf(p) + "/") == Parts(PathOf(p))
  {
    hide IsSpace, Join, Split, Normalize;
    JoinPlain(p);
    NormalizeCanonical(p);
    DropsSlash(PathOf(p));
  }

  lemma DropsSlash(s: string)
    requires |s| > 1 && s[0] == '/' && s[|s| - 1] != '/'
    ensures Normalize(s + "/") == s
  {
    hide IsSpace;
    SlashIsNotSpace();
    StripNothing(s + "/", IsSpace);
    assert SCHEME[0] != '/' && (s + "/")[..|s|] == s;
    assert StripRight(s, IsSlash) == s;
  }

  // --------------------------------------------------------- scopes of lists

  /** No segment holds the list separator. */
  ghost predicate Clean(q: seq<string>) { forall k :: 0 <= k < |q| ==> ';' !in q[k] }

  /** A list's value lies under a prefix of its own segments exactly when the prefix is clean. */
  lemma UnderOwnPrefix(ps: seq<seq<string>>, q: seq<string>)
    requires ps != [] && (forall i :: 0 <= i < |ps| ==> Good(ps[i])) && q <= Flat(ps)
    ensures (exists i :: 0 <= i < |ps| && q <= ps[i]) <==> Clean(q)
  {
    hide PlainSegment;
    forall i | 0 <= i < |ps| && q <= ps[i] ensures Clean(q) { GoodIsClean(ps[i]); }
    if Clean(q) {
      if |ps| > 1 { CleanIsBeforeMark(ps[0], Flat(ps[1..]), q); }
      assert q <= ps[0];
    }
  }

  lemma CleanIsBeforeMark(p: seq<string>, rest: seq<string>, q: seq<string>)
    requires q <= Mark(p) + rest && Clean(q)
    ensures q <= p
  {
    Marked(p);
    var n := |Mark(p)| - 1;
    assert (Mark(p) + rest)[n] == Mark(p)[n];
  }

  /** The end of a marked path holds the separator. */
  lemma Marked(p: seq<string>)
    ensures ';' in Mark(p)[|Mark(p)| - 1]
  {
    var x := Mark(p)[|Mark(p)| - 1];
    assert x[|x| - 1] == ';';
  }

  lemma GoodIsClean(p: seq<string>)
    requires Good(p)
    ensures Clean(p)
  {
    hide PlainSegment;
    forall k | 0 <= k < |p| ensures ';' !in p[k] { assert GoodSegment(p[k]); }
  }

  /** Each value is a list, and all lists begin with the same path. */
  ghost predicate Shared(lists: seq<seq<seq<string>>>) {
    && (forall i :: 0 <= i < |lists| ==> |lists[i]| > 1)
    && (forall i, j :: 0 <= i < j < |lists| ==> lists[i][0] == lists[j][0])
  }

  function Flats(lists: seq<seq<seq<string>>>): (r: seq<seq<string>>)
    requires forall i :: 0 <= i < |lists| ==> lists[i] != []
    ensures |r| == |lists| && forall i :: 0 <= i < |r| ==> r[i] == Flat(lists[i])
  {
    seq(|lists|, i requires 0 <= i < |lists| => Flat(lists[i]))
  }

  ghost predicate GoodLists(lists: seq<seq<seq<string>>>) {
    forall i, k :: 0 <= i < |lists| && 0 <= k < |lists[i]| ==> Good(lists[i][k])
  }

  lemma MarkInjective(p: seq<string>, q: seq<string>)
    requires Good(p) && Good(q) && Mark(p) == Mark(q)
    ensures p == q
  {
    hide IsSpace;
    MarkOfRoot(p);
    MarkOfRoot(q);
    if p != [] && q != [] {
      var n := |p| - 1;
      assert |Mark(p)| == |p| && |Mark(q)| == |q|;
      assert Mark(p)[..n] == p[..n] && Mark(q)[..n] == q[..n];
      assert (p[n] + ";")[..|p[n]|] == p[n] && (q[n] + ";")[..|q[n]|] == q[n];
      assert p == p[..n] + [p[n]] && q == q[..n] + [q[n]];
    }
  }

  lemma MarkOfRoot(p: seq<string>)
    requires Good(p)
    ensures Mark(p) == [";"] <==> p == []
  {
    hide IsSpace;
    if p != [] {
      assert GoodSegment(p[|p| - 1]);
      assert |Mark(p)[|p| - 1]| > 1;
    }
  }

  /** The first marked segment of a list is the end of its first path. */
  lemma FirstMark(ps: seq<seq<string>>, m: nat)
    requires ps != [] && (forall i :: 0 <= i < |ps| ==> Good(ps[i]))
    requires m < |Flat(ps)| && ';' in Flat(ps)[m] && Clean(Flat(ps)[..m])
    ensures |ps| > 1 && Mark(ps[0]) == Flat(ps)[..m + 1]
  {
    hide Good;
    GoodIsClean(ps[0]);
    Marked(ps[0]);
    var k := Mark(ps[0]);
    assert forall j :: 0 <= j < |k| - 1 ==> k[j] == ps[0][j];
    assert forall j :: 0 <= j < m ==> Flat(ps)[..m][j] == Flat(ps)[j];
    assert |ps| > 1 ==> Flat(ps)[..|k|] == k;
  }

  lemma FirstUnclean(q: seq<string>) returns (m: nat)
    requires !Clean(q)
    ensures m < |q| && ';' in q[m] && Clean(q[..m])
  {
    m := 0;
    while ';' !in q[m]
      invariant m < |q| && forall k :: 0 <= k < m ==> ';' !in q[k]
      decreases |q| - m
    {
      if m + 1 == |q| { assert Clean(q); }
      m := m + 1;
    }
  }

  /** The common prefix of several values is clean exactly when they are not lists that begin with the same path. */
  lemma CommonIsClean(lists: seq<seq<seq<string>>>)
    requires lists != [] && (forall i :: 0 <= i < |lists| ==> lists[i] != []) && GoodLists(lists)
    ensures Clean(Meet(Flats(lists))) <==> !Shared(lists)
  {
    hide Good, Meet, Mark, Clean;
    var q := Meet(Flats(lists));
    MeetIsGreatest(Flats(lists));
    if Shared(lists) {
      var k := Mark(lists[0][0]);
      assert LowerBound(k, Flats(lists)) by {
        forall i | 0 <= i < |lists| ensures k <= Flats(lists)[i] {
          assert i > 0 ==> lists[0][0] == lists[i][0];
          assert Flat(lists[i]) == k + Flat(lists[i][1..]);
        }
      }
      MarkUnclean(lists[0][0], q);
    }
    if !Clean(q) {
      var m := FirstUnclean(q);
      forall i | 0 <= i < |lists| ensures |lists[i]| > 1 && Mark(lists[i][0]) == q[..m + 1] {
        assert q <= Flats(lists)[i];
        assert Flat(lists[i])[..m] == q[..m] && Flat(lists[i])[..m + 1] == q[..m + 1];
        FirstMark(lists[i], m);
      }
      forall i, j | 0 <= i < j < |lists| ensures lists[i][0] == lists[j][0] { MarkInjective(lists[i][0], lists[j][0]); }
    }
  }

  lemma MarkUnclean(p: seq<string>, q: seq<string>)
    requires Mark(p) <= q
    ensures !Clean(q)
  {
    Marked(p);
    assert q[|Mark(p)| - 1] == Mark(p)[|Mark(p)| - 1];
  }

  // ----------------------------------------------------------- derived scope

  datatype GroundTruth = GroundTruth(corpusId: string, score: real)

  function MaxScore(items: seq<GroundTruth>): (best: real)
    requires items != []
    ensures forall i :: 0 <= i < |items| ==> items[i].score <= best
  {
    if |items| == 1 then items[0].score
    else
      var rest := MaxScore(items[1..]);
      assert forall i :: 0 < i < |items| ==> items[i] == items[1..][i - 1];
      if items[0].score > rest then items[0].score else rest
  }

  lemma {:induction false} MaxScoreAttained(items: seq<GroundTruth>) returns (k: nat)
    requires items != []
    ensures k < |items| && items[k].score == MaxScore(items)
  {
    if |items| == 1 {
      k := 0;
    } else {
      k := MaxScoreAttained(items[1..]);
      k := if items[0].score > MaxScore(items[1..]) then 0 else k + 1;
    }
  }

  function Relevant(items: seq<GroundTruth>, best: real, corpus: map<string, string>): seq<string>
    requires forall i :: 0 <= i < |items| ==> items[i].corpusId in corpus
  {
    if items == [] then []
    else
      (if items[0].score == best then [corpus[items[0].corpusId]] else []) + Relevant(items[1..], best, corpus)
  }

  lemma {:induction false} RelevantHas(items: seq<GroundTruth>, best: real, corpus: map<string, string>, i: nat)
    requires forall k :: 0 <= k < |items| ==> items[k].corpusId in corpus
    requires i < |items| && items[i].score == best
    ensures corpus[items[i].corpusId] in Relevant(items, best, corpus)
  {
    if i > 0 { RelevantHas(items[1..], best, corpus, i - 1); }
  }

  lemma {:induction false} RelevantOnly(items: seq<GroundTruth>, best: real, corpus: map<string, string>, path: string)
    returns (i: nat)
    requires forall k :: 0 <= k < |items| ==> items[k].corpusId in corpus
    requires path in Relevant(items, best, corpus)
    ensures i < |items| && items[i].score == best && corpus[items[i].corpusId] == path
  {
    if items[0].score == best && corpus[items[0].corpusId] == path {
      i := 0;
    } else {
      i := RelevantOnly(items[1..], best, corpus, path);
      i := i + 1;
    }
  }

  ghost predicate TopItemsMatch(items: seq<GroundTruth>, corpus: map<string, string>, scope: string)
    requires items != [] && forall k :: 0 <= k < |items| ==> items[k].corpusId in corpus
  {
    forall i :: 0 <= i < |items| && items[i].score == MaxScore(items) ==> Matches(corpus[items[i].corpusId], scope)
  }

  /** The highest-score values are all lists, and begin with the same path. */
  predicate SameFirstOfMany(values: seq<string>) {
    && (forall i :: 0 <= i < |values| ==> |Split(values[i], ';')| > 1)
    && (forall i, j :: 0 <= i < j < |values| ==> Split(values[i], ';')[0] == Split(values[j], ';')[0])
  }

  /** Each value is a path or a list of paths, as given by `lists`. */
  ghost predicate AreValues(values: seq<string>, lists: seq<seq<seq<string>>>) {
    |values| == |lists| && forall i :: 0 <= i < |values| ==> IsValue(values[i], lists[i])
  }

  lemma PathOfInjective(p: seq<string>, q: seq<string>)
    requires Good(p) && Good(q) && PathOf(p) == PathOf(q)
    ensures p == q
  {
    hide Good, PathOf, Parts;
    GoodIsPlain(p);
    GoodIsPlain(q);
    PartsCanonical(p);
    PartsCanonical(q);
  }

  lemma ValuesShare(values: seq<string>, lists: seq<seq<seq<string>>>)
    requires AreValues(values, lists) && values != []
    ensures SameFirstOfMany(values) <==> Shared(lists)
  {
    hide Good, Split, Join, PathOf, Matches;
    forall i | 0 <= i < |values| ensures Split(values[i], ';') == Strings(lists[i]) && |lists[i]| > 0
      && Good(lists[i][0]) {
      assert IsValue(values[i], lists[i]);
      RootPlain();
      MatchesJoined(lists[i], []);
    }
    forall i, j | 0 <= i < j < |values| ensures PathOf(lists[i][0]) == PathOf(lists[j][0]) <==>
      lists[i][0] == lists[j][0] {
      if PathOf(lists[i][0]) == PathOf(lists[j][0]) { PathOfInjective(lists[i][0], lists[j][0]); }
    }
  }

  lemma RootPlain()
    ensures Plain([])
  {
  }

  /** The common prefix of the values as a scope: all of them match it, or none does. */
  lemma ScopeOfValues(values: seq<string>, lists: seq<seq<seq<string>>>, scope: string, i: nat)
    requires AreValues(values, lists) && i < |values| && scope == PathOf(Meet(AllParts(values)))
    ensures Matches(values[i], scope) <==> !SameFirstOfMany(values)
  {
    hide Good, Split, Join, PathOf, Matches, Parts, Meet, SameFirstOfMany, Plain;
    forall k | 0 <= k < |values| ensures Parts(values[k]) == Flat(lists[k]) && lists[k] != [] && Plain(Flat(lists[k])) {
      assert IsValue(values[k], lists[k]);
      PartsOfValue(values[k], lists[k]);
    }
    assert AllParts(values) == Flats(lists);
    var q := Meet(Flats(lists));
    MeetIsGreatest(Flats(lists));
    assert q <= Flats(lists)[i];
    PlainPrefix(Flat(lists[i]), q);
    assert IsValue(values[i], lists[i]);
    MatchesJoined(lists[i], q);
    UnderOwnPrefix(lists[i], q);
    assert GoodLists(lists) by { AllGood(values, lists); }
    CommonIsClean(lists);
    ValuesShare(values, lists);
  }

  lemma AllGood(values: seq<string>, lists: seq<seq<seq<string>>>)
    requires AreValues(values, lists)
    ensures GoodLists(lists)
  {
    hide Good;
    forall i, k | 0 <= i < |lists| && 0 <= k < |lists[i]| ensures Good(lists[i][k]) {
      assert IsValue(values[i], lists[i]);
    }
  }

  lemma PlainPrefix(p: seq<string>, q: seq<string>)
    requires Plain(p) && q <= p
    ensures Plain(q)
  {
    hide PlainSegment;
  }

  function ListsOf(items: seq<GroundTruth>, best: real, lists: map<string, seq<seq<string>>>): seq<seq<seq<string>>>
    requires forall i :: 0 <= i < |items| ==> items[i].corpusId in lists
  {
    if items == [] then []
    else (if items[0].score == best then [lists[items[0].corpusId]] else []) + ListsOf(items[1..], best, lists)
  }

  /** The path values of the highest-score items. */
  function TopValues(items: seq<GroundTruth>, corpus: map<string, string>): (r: seq<string>)
    requires items != [] && forall i :: 0 <= i < |items| ==> items[i].corpusId in corpus
    ensures r != []
  {
    TopHas(items, corpus);
    Relevant(items, MaxScore(items), corpus)
  }

  lemma TopHas(items: seq<GroundTruth>, corpus: map<string, string>)
    requires items != [] && forall i :: 0 <= i < |items| ==> items[i].corpusId in corpus
    ensures Relevant(items, MaxScore(items), corpus) != []
  {
    var k := MaxScoreAttained(items);
    RelevantHas(items, MaxScore(items), corpus, k);
  }

  /** Corpus values are what `normalize_path` makes of canonical paths and of nonempty lists of them. */
  ghost predicate CorpusValues(items: seq<GroundTruth>, corpus: map<string, string>,
    lists: map<string, seq<seq<string>>>) {
    forall i :: 0 <= i < |items| ==>
      items[i].corpusId in corpus && items[i].corpusId in lists
        && IsValue(corpus[items[i].corpusId], lists[items[i].corpusId])
  }

  lemma {:induction false} RelevantValues(items: seq<GroundTruth>, best: real, corpus: map<string, string>,
    lists: map<string, seq<seq<string>>>)
    requires CorpusValues(items, corpus, lists)
    ensures AreValues(Relevant(items, best, corpus), ListsOf(items, best, lists))
  {
    hide IsValue;
    if items != [] { RelevantValues(items[1..], best, corpus, lists); }
  }

  /**
   `derived_gt_lca_scope`: every highest-score item matches its scope, so the directory
   filter keeps it, unless all of them are lists that begin with the same path, and then
   none does.  Among single paths no deeper scope would do.
   */
  method DerivedScope(items: seq<GroundTruth>, corpus: map<string, string>, ghost lists: map<string, seq<seq<string>>>)
    returns (scope: string)
    requires CorpusValues(items, corpus, lists)
    ensures scope == if items == [] then "/" else PathOf(Meet(AllParts(TopValues(items, corpus))))
    ensures items != [] ==> forall i :: 0 <= i < |items| && items[i].score == MaxScore(items) ==>
      (Matches(corpus[items[i].corpusId], scope) <==> !SameFirstOfMany(TopValues(items, corpus)))
    ensures items != [] && (forall i :: 0 <= i < |items| ==> |lists[items[i].corpusId]| == 1) ==>
      forall q :: Good(q) && TopItemsMatch(items, corpus, PathOf(q)) ==> Matches(scope, PathOf(q))
  {
    hide Matches, Parts, Good, PathOf, Meet, SameFirstOfMany, IsValue;
    if items == [] { return "/"; }
    var best := MaxScore(items);
    var paths := Relevant(items, best, corpus);
    ghost var k := MaxScoreAttained(items);
    RelevantHas(items, best, corpus, k);
    scope := CommonPathPrefix(paths);
    RelevantValues(items, best, corpus, lists);
    forall i | 0 <= i < |items| && items[i].score == best
      ensures Matches(corpus[items[i].corpusId], scope) <==> !SameFirstOfMany(paths)
    {
      RelevantHas(items, best, corpus, i);
      var n :| 0 <= n < |paths| && paths[n] == corpus[items[i].corpusId];
      ScopeOfValues(paths, ListsOf(items, best, lists), scope, n);
    }
    if forall i :: 0 <= i < |items| ==> |lists[items[i].corpusId]| == 1 {
      forall q | Good(q) && TopItemsMatch(items, corpus, PathOf(q)) ensures Matches(scope, PathOf(q)) {
        NoDeeperScope(items, corpus, lists, q);
      }
    }
  }

  lemma SinglePath(value: string, ps: seq<seq<string>>)
    requires IsValue(value, ps) && |ps| == 1
    ensures Good(ps[0]) && value == PathOf(ps[0])
  {
    assert Strings(ps) == [PathOf(ps[0])];
  }

  /** A scope that all highest-score items match is one the derived scope lies under. */
  lemma NoDeeperScope(items: seq<GroundTruth>, corpus: map<string, string>, lists: map<string, seq<seq<string>>>,
    q: seq<string>)
    requires CorpusValues(items, corpus, lists) && items != []
    requires forall i :: 0 <= i < |items| ==> |lists[items[i].corpusId]| == 1
    requires Good(q) && TopItemsMatch(items, corpus, PathOf(q))
    ensures var paths := Relevant(items, MaxScore(items), corpus);
      paths != [] && Matches(PathOf(Meet(AllParts(paths))), PathOf(q))
  {
    hide Matches, Parts, Good, PathOf, Meet, IsValue;
    var best := MaxScore(items);
    var paths := Relevant(items, best, corpus);
    var k := MaxScoreAttained(items);
    RelevantHas(items, best, corpus, k);
    var all := AllParts(paths);
    forall n | 0 <= n < |all| ensures q <= all[n] && Good(all[n]) {
      assert paths[n] in paths;
      var i := RelevantOnly(items, best, corpus, paths[n]);
      var p := lists[items[i].corpusId];
      SinglePath(paths[n], p);
      GoodIsPlain(p[0]);
      PartsCanonical(p[0]);
      MatchesIsPrefix(p[0], q);
    }
    MeetIsGreatest(all);
    assert LowerBound(q, all);
    assert Meet(all) <= all[0];
    GoodPrefix(all[0], Meet(all));
    MatchesIsPrefix(Meet(all), q);
  }

  /** A list never matches the scope derived from it alone. */
  lemma ListMissesItsScope(ps: seq<seq<string>>)
    requires |ps| > 1 && forall i :: 0 <= i < |ps| ==> Good(ps[i])
    ensures var value := Join(Strings(ps), ';'); !Matches(value, PathOf(Meet(AllParts([value]))))
  {
    hide Matches, Parts, Good, PathOf, Join, Split;
    var value := Join(Strings(ps), ';');
    assert AreValues([value], [ps]);
    assert Shared([ps]);
    ValuesShare([value], [ps]);
    ScopeOfValues([value], [ps], PathOf(Meet(AllParts([value]))), 0);
  }

  lemma ListExample()
    ensures !Matches("/a;/b", PathOf(Meet(AllParts(["/a;/b"]))))
  {
    hide Matches, PathOf, Meet, AllParts, Join, GoodSegment;
    var ps := [["a"], ["b"]];
    assert Good(ps[0]) && Good(ps[1]) by { ShortSegments(); }
    ExampleText(ps);
    ListMissesItsScope(ps);
  }

  lemma ShortSegments()
    ensures GoodSegment("a") && GoodSegment("b")
  {
  }

  lemma ExampleText(ps: seq<seq<string>>)
    requires ps == [["a"], ["b"]]
    ensures Join(Strings(ps), ';') == "/a;/b"
  {
    assert PathOf(["a"]) == "/a" && PathOf(["b"]) == "/b";
    assert Strings(ps)[1..] == ["/b"];
    assert Join(Strings(ps), ';') == "/a" + [';'] + Join(["/b"], ';');
  }

  /**
   The directory query of one case: none under the root; otherwise the scope and the ground
   truth that the directory filter keeps.  All that match are kept, in order; the
   highest-score items are dropped exactly when they are lists that begin with the same path.
   */
  method DirectoryCase(items: seq<GroundTruth>, corpus: map<string, string>, ghost lists: map<string, seq<seq<string>>>)
    returns (scope: string, kept: Option<seq<string>>)
    requires CorpusValues(items, corpus, lists)
    ensures scope == if items == [] then "/" else PathOf(Meet(AllParts(TopValues(items, corpus))))
    ensures kept == if scope == "/" then None else Some(Filtered(items, corpus, scope))
    ensures kept.Some? ==> forall i :: 0 <= i < |items| ==>
      (items[i].corpusId in kept.value <==> Matches(corpus[items[i].corpusId], scope))
    ensures kept.Some? ==> items != [] && forall i :: 0 <= i < |items| && items[i].score == MaxScore(items) ==>
      (items[i].corpusId in kept.value <==> !SameFirstOfMany(TopValues(items, corpus)))
  {
    hide IsValue, Matches, Good, PathOf, MaxScore, SameFirstOfMany, TopValues, Meet;
    scope := DerivedScope(items, corpus, lists);
    if scope == "/" { return scope, None; }
    var ids := FilterItems(items, corpus, scope);
    kept := Some(ids);
    forall i | 0 <= i < |items| ensures items[i].corpusId in ids <==> Matches(corpus[items[i].corpusId], scope) {
      if Matches(corpus[items[i].corpusId], scope) { FilteredHas(items, corpus, scope, i); }
      else if items[i].corpusId in ids { FilteredOnly(items, corpus, scope, items[i].corpusId); }
    }
  }

  method FilterItems(items: seq<GroundTruth>, corpus: map<string, string>, scope: string) returns (kept: seq<string>)
    requires forall k :: 0 <= k < |items| ==> items[k].corpusId in corpus
    ensures kept == Filtered(items, corpus, scope)
  {
    hide Matches;
    kept := [];
    for n := 0 to |items|
      invariant kept == Filtered(items[..n], corpus, scope)
    {
      assert items[..n + 1][..n] == items[..n];
      if Matches(corpus[items[n].corpusId], scope) { kept := kept + [items[n].corpusId]; }
    }
    assert items[..|items|] == items;
  }

  lemma {:induction false} FilteredOnly(items: seq<GroundTruth>, corpus: map<string, string>, scope: string, id: string)
    requires (forall k :: 0 <= k < |items| ==> items[k].corpusId in corpus) && id in Filtered(items, corpus, scope)
    ensures id in corpus && Matches(corpus[id], scope)
    decreases |items|
  {
    hide Matches;
    var n := |items| - 1;
    if id in Filtered(items[..n], corpus, scope) { FilteredOnly(items[..n], corpus, scope, id); }
  }

  /** Ids of the items whose path matches the scope. */
  function Filtered(items: seq<GroundTruth>, corpus: map<string, string>, scope: string): seq<string>
    requires forall k :: 0 <= k < |items| ==> items[k].corpusId in corpus
  {
    if items == [] then []
    else
      var n := |items| - 1;
      Filtered(items[..n], corpus, scope) + if Matches(corpus[items[n].corpusId], scope) then [items[n].corpusId]
        else []
  }

  lemma {:induction false} FilteredHas(items: seq<GroundTruth>, corpus: map<string, string>, scope: string, i: nat)
    requires forall k :: 0 <= k < |items| ==> items[k].corpusId in corpus
    requires i < |items| && Matches(corpus[items[i].corpusId], scope)
    ensures items[i].corpusId in Filtered(items, corpus, scope)
    decreases |items|
  {
    hide Matches;
    var n := |items| - 1;
    if i < n { FilteredHas(items[..n], corpus, scope, i); }
  }
}
