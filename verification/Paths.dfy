/**
 Slash-separated paths: normalization, prefix matching, common ancestors and resource URIs.

 The code works on strings.  On canonical paths the lemmas tie it to segment lists, where
 matching is the prefix order and the common prefix its greatest lower bound.
 */
module Paths {
  import opened Prelude
  import opened Text

  // ---------------------------------------------------------- the functions

  const SCHEME := "viking://"

  /** `normalize_path` on a string. */
  function Normalize(path: string): string {
    var t := Strip(path, IsSpace);
    if t == "" then "/"
    else
      var u := if StartsWith(t, SCHEME) then "/" + Strip(t[|SCHEME|..], IsSlash)
               else if t[0] != '/' then "/" + t
               else t;
      if |u| > 1 then StripRight(u, IsSlash) else u
  }

  /** `path_parts`. */
  function Parts(path: string): seq<string> {
    Nonempty(Split(Strip(Normalize(path), IsSlash), '/'))
  }

  function RawParts(path: string): seq<string> { Nonempty(Split(Strip(path, IsSlash), '/')) }

  function Clamp(n: int, most: nat): nat
    requires most >= 1
  {
    if n > most then most else if n < 1 then 1 else n
  }

  /** `path_prefix`: the first `segments` parts, at least one. */
  function PathPrefix(path: string, segments: int): string {
    var parts := RawParts(path);
    if parts == [] then "/" else "/" + Join(parts[..Clamp(segments, |parts|)], '/')
  }

  /** One alternative of `path_matches`: equal to the prefix, or below it. */
  predicate Below(path: string, prefix: string) {
    path == prefix || StartsWith(path, StripRight(prefix, IsSlash) + "/")
  }

  /** `path_matches`: the value may list several paths, separated by semicolons. */
  predicate Matches(value: string, prefix: string) {
    var items := Split(value, ';');
    exists i :: 0 <= i < |items| && Below(Normalize(items[i]), Normalize(prefix))
  }

  // --------------------------------------------------------- canonical paths

  /** A segment the string code takes as one, whole. */
  ghost predicate PlainSegment(x: string) { x != "" && '/' !in x && !IsSpace(x[0]) && !IsSpace(x[|x| - 1]) }

  /** A segment of a canonical path: it does not hold the list separator either. */
  ghost predicate GoodSegment(x: string) { PlainSegment(x) && ';' !in x }

  ghost predicate Plain(p: seq<string>) { forall i :: 0 <= i < |p| ==> PlainSegment(p[i]) }

  ghost predicate Good(p: seq<string>) { forall i :: 0 <= i < |p| ==> GoodSegment(p[i]) }

  lemma GoodIsPlain(p: seq<string>)
    requires Good(p)
    ensures Plain(p)
  {
    hide PlainSegment;
    forall i | 0 <= i < |p| ensures PlainSegment(p[i]) { assert GoodSegment(p[i]); }
  }

  /** The canonical string of a segment list. */
  function PathOf(p: seq<string>): string { if p == [] then "/" else "/" + Join(p, '/') }

  lemma JoinPlain(p: seq<string>)
    requires p != [] && Plain(p)
    ensures var s := Join(p, '/'); s != "" && !IsSpace(s[|s| - 1]) && s[|s| - 1] != '/' && s[0] != '/' && !IsSpace(s[0])
  {
    hide IsSpace;
    assert forall i :: 0 <= i < |p| ==> PlainSegment(p[i]) && p[i] != "";
    JoinEnds(p, '/');
    assert PlainSegment(p[0]) && PlainSegment(p[|p| - 1]);
    var l := p[|p| - 1];
    assert l[|l| - 1] in l && p[0][0] in p[0];
  }

  lemma SlashIsNotSpace()
    ensures !IsSpace('/')
  {
  }

  lemma NormalizeCanonical(p: seq<string>)
    requires Plain(p)
    ensures Normalize(PathOf(p)) == PathOf(p)
  {
    hide IsSpace, Join;
    SlashIsNotSpace();
    var s := PathOf(p);
    if p != [] { JoinPlain(p); }
    StripNothing(s, IsSpace);
    assert s[0] == '/' && SCHEME[0] != '/';
  }

  lemma RawPartsCanonical(p: seq<string>)
    requires Plain(p)
    ensures RawParts(PathOf(p)) == p
  {
    hide IsSpace, Join, Split;
    if p == [] {
      SplitNone("", '/');
      assert Strip("/", IsSlash) == "" by { assert StripLeft("/", IsSlash) == StripLeft("", IsSlash); }
      assert [""][1..] == [];
    } else {
      var s := Join(p, '/');
      JoinPlain(p);
      assert ("/" + s)[1..] == s;
      StripNothing(s, IsSlash);
      assert Strip("/" + s, IsSlash) == s;
      assert forall i :: 0 <= i < |p| ==> PlainSegment(p[i]) && p[i] != "" && '/' !in p[i];
      SplitJoin(p, '/');
      NonemptyAll(p);
    }
  }

  // --------------------------------------------- other spellings of a path

  ghost predicate AllSpaces(s: string) { forall k :: 0 <= k < |s| ==> IsSpace(s[k]) }

  ghost predicate AllSlashes(s: string) { forall k :: 0 <= k < |s| ==> s[k] == '/' }

  /** What normalization makes of a stripped string. */
  lemma NormalizeStripped(a: string, t: string, b: string)
    requires AllSpaces(a) && AllSpaces(b) && t != "" && !IsSpace(t[0]) && !IsSpace(t[|t| - 1])
    ensures Normalize(a + t + b) ==
      var u := if StartsWith(t, SCHEME) then "/" + Strip(t[|SCHEME|..], IsSlash) else if t[0] != '/' then "/" + t
        else t;
      if |u| > 1 then StripRight(u, IsSlash) else u
  {
    StripsAround(a, t, b, IsSpace);
  }

  lemma LastChar(t: string, slashes: string)
    requires t != "" && !IsSpace(t[|t| - 1]) && AllSlashes(slashes)
    ensures t + slashes != "" && !IsSpace((t + slashes)[|t + slashes| - 1])
  {
    SlashIsNotSpace();
    hide IsSpace;
  }

  /** Surrounding white space and trailing slashes do not matter. */
  lemma NormalizePadded(p: seq<string>, a: string, slashes: string, b: string)
    requires Plain(p) && p != [] && AllSpaces(a) && AllSlashes(slashes) && AllSpaces(b)
    ensures Normalize(a + (PathOf(p) + slashes) + b) == PathOf(p)
  {
    hide IsSpace, Join, Normalize, AllSpaces;
    JoinPlain(p);
    SlashIsNotSpace();
    var t := PathOf(p) + slashes;
    LastChar(PathOf(p), slashes);
    NormalizeStripped(a, t, b);
    assert t[0] == '/' && SCHEME[0] != '/';
    StripsRight(PathOf(p), slashes, IsSlash);
  }

  /** Nor does a missing leading slash. */
  lemma NormalizeRelative(p: seq<string>, a: string, slashes: string, b: string)
    requires Plain(p) && p != [] && AllSpaces(a) && AllSlashes(slashes) && AllSpaces(b) && p[0] != "viking:"
    ensures Normalize(a + (Join(p, '/') + slashes) + b) == PathOf(p)
  {
    hide IsSpace, Join, Normalize, AllSpaces;
    JoinPlain(p);
    var t := Join(p, '/') + slashes;
    LastChar(Join(p, '/'), slashes);
    NormalizeStripped(a, t, b);
    NoScheme(p, slashes);
    assert t[0] == Join(p, '/')[0];
    assert "/" + t == PathOf(p) + slashes;
    StripsRight(PathOf(p), slashes, IsSlash);
  }

  lemma NoScheme(p: seq<string>, slashes: string)
    requires Plain(p) && p != [] && AllSlashes(slashes) && p[0] != "viking:"
    ensures !StartsWith(Join(p, '/') + slashes, SCHEME)
  {
    hide IsSpace;
    var t, n := Join(p, '/') + slashes, |p[0]|;
    assert PlainSegment(p[0]);
    assert t[..n] == p[0] && (n < |t| ==> t[n] == '/');
    if StartsWith(t, SCHEME) { FirstOfScheme(p[0], t); }
  }

  lemma FirstOfScheme(first: string, t: string)
    requires '/' !in first && |first| <= |t| && t[..|first|] == first && (|first| < |t| ==> t[|first|] == '/')
    requires StartsWith(t, SCHEME)
    ensures first == "viking:"
  {
    var n := |first|;
    assert t[7] == SCHEME[7] == '/';
    assert forall k :: 0 <= k < 7 ==> t[k] == SCHEME[k] != '/';
    assert forall k :: 0 <= k < n ==> t[k] == t[..n][k] && t[k] in first;
    assert t[..7] == SCHEME[..7] == "viking:";
  }

  /** And a URI, whatever slashes follow its scheme, is the path behind it. */
  lemma NormalizeSchemed(p: seq<string>, a: string, lead: string, slashes: string, b: string)
    requires Plain(p) && p != [] && AllSpaces(a) && AllSlashes(lead) && AllSlashes(slashes) && AllSpaces(b)
    ensures Normalize(a + (SCHEME + (lead + Join(p, '/') + slashes)) + b) == PathOf(p)
  {
    hide IsSpace, Join, Normalize, AllSpaces;
    JoinPlain(p);
    SchemeStart();
    var rest := lead + Join(p, '/') + slashes;
    var t := SCHEME + rest;
    LastChar(lead + Join(p, '/'), slashes);
    assert t[|t| - 1] == rest[|rest| - 1];
    NormalizeStripped(a, t, b);
    assert t[|SCHEME|..] == rest;
    StripsAround(lead, Join(p, '/'), slashes, IsSlash);
  }

  /** Canonical strings and segment lists are the same thing. */
  lemma PartsCanonical(p: seq<string>)
    requires Plain(p)
    ensures Parts(PathOf(p)) == p
  {
    hide Normalize;
    NormalizeCanonical(p);
    RawPartsCanonical(p);
  }

  /** String matching below a canonical prefix is the segment-prefix order. */
  lemma BelowIsPrefix(p: seq<string>, q: seq<string>)
    requires Plain(p) && Plain(q)
    ensures Below(PathOf(p), PathOf(q)) <==> q <= p
  {
    hide IsSpace, Join, Split;
    if q == [] {
      assert StripRight("/", IsSlash) == "";
    } else {
      JoinPlain(q);
      var s := Join(q, '/');
      assert StripRight(PathOf(q), IsSlash) == PathOf(q);
      if q <= p && p != q {
        var r := p[|q|..];
        assert p == q + r;
        JoinAppend(q, r, '/');
        assert PathOf(p) == PathOf(q) + "/" + Join(r, '/');
      }
      if Below(PathOf(p), PathOf(q)) {
        BelowGivesPrefix(p, q);
      }
    }
  }

  lemma BelowGivesPrefix(p: seq<string>, q: seq<string>)
    requires Plain(p) && Plain(q) && q != []
    requires PathOf(p) == PathOf(q) || StartsWith(PathOf(p), PathOf(q) + "/")
    ensures q <= p
  {
    hide IsSpace, Join, Split, RawParts, PathOf, Plain;
    RawPartsCanonical(p);
    RawPartsCanonical(q);
    if PathOf(p) != PathOf(q) {
      var front := PathOf(q) + "/";
      LongerPath(p, q, PathOf(p)[|front|..]);
    }
  }

  lemma LongerPath(p: seq<string>, q: seq<string>, rest: string)
    requires Plain(p) && Plain(q) && q != [] && PathOf(p) == PathOf(q) + "/" + rest
    ensures q <= p
  {
    hide IsSpace, Join, Split;
    assert p != [];
    assert Join(p, '/') == PathOf(p)[1..];
    assert PathOf(q) + "/" + rest == "/" + (Join(q, '/') + ['/'] + rest);
    assert forall i :: 0 <= i < |q| ==> PlainSegment(q[i]) && '/' !in q[i];
    assert forall i :: 0 <= i < |p| ==> PlainSegment(p[i]) && '/' !in p[i];
    SplitJoin(p, '/');
    SplitJoinThen(q, '/', rest);
  }

  // ---------------------------------------------------------------- matching

  lemma {:induction false} NoSemicolon(p: seq<string>)
    requires Good(p)
    ensures ';' !in Join(p, '/') && ';' !in PathOf(p)
  {
    hide IsSpace;
    if p != [] {
      assert GoodSegment(p[0]);
      if |p| > 1 { NoSemicolon(p[1..]); }
    }
  }

  /** On canonical paths matching is exactly the segment-prefix partial order. */
  lemma MatchesIsPrefix(p: seq<string>, q: seq<string>)
    requires Good(p) && Good(q)
    ensures Matches(PathOf(p), PathOf(q)) <==> q <= p
  {
    GoodIsPlain(q);
    MatchesJoined([p], q);
    assert [PathOf(p)] == Strings([p]);
  }

  function Strings(ps: seq<seq<string>>): (r: seq<string>)
    ensures |r| == |ps| && forall i :: 0 <= i < |ps| ==> r[i] == PathOf(ps[i])
  {
    seq(|ps|, i requires 0 <= i < |ps| => PathOf(ps[i]))
  }

  /** A semicolon-joined value matches when one of its paths does; the prefix itself may hold semicolons. */
  lemma MatchesJoined(ps: seq<seq<string>>, q: seq<string>)
    requires ps != [] && (forall i :: 0 <= i < |ps| ==> Good(ps[i])) && Plain(q)
    ensures Split(Join(Strings(ps), ';'), ';') == Strings(ps)
    ensures Matches(Join(Strings(ps), ';'), PathOf(q)) <==> exists i :: 0 <= i < |ps| && q <= ps[i]
  {
    hide Below, Normalize, Good, Plain, PathOf, Split, Join;
    var items := Strings(ps);
    forall i | 0 <= i < |items|
      ensures ';' !in items[i] && (Below(Normalize(items[i]), Normalize(PathOf(q))) <==> q <= ps[i])
    {
      NoSemicolon(ps[i]);
      GoodIsPlain(ps[i]);
      NormalizeCanonical(ps[i]);
      NormalizeCanonical(q);
      BelowIsPrefix(ps[i], q);
    }
    SplitJoin(items, ';');
  }

  /** `normalize_path` on a list: the nonempty items, normalized and joined by semicolons. */
  function NormalizeList(items: seq<string>): string {
    if items == [] then "/" else Join(NormalizeEach(Nonempty(items)), ';')
  }

  function NormalizeEach(items: seq<string>): (r: seq<string>)
    ensures |r| == |items| && forall i :: 0 <= i < |items| ==> r[i] == Normalize(items[i])
  {
    seq(|items|, i requires 0 <= i < |items| => Normalize(items[i]))
  }

  lemma NormalizeListCanonical(ps: seq<seq<string>>)
    requires ps != [] && forall i :: 0 <= i < |ps| ==> Good(ps[i])
    ensures NormalizeList(Strings(ps)) == Join(Strings(ps), ';')
  {
    hide Normalize, Good;
    NonemptyAll(Strings(ps));
    forall i | 0 <= i < |ps| ensures Normalize(Strings(ps)[i]) == Strings(ps)[i] {
      GoodIsPlain(ps[i]);
      NormalizeCanonical(ps[i]);
    }
    assert NormalizeEach(Strings(ps)) == Strings(ps);
  }

  /** The first segments of a canonical path. */
  lemma PathPrefixCanonical(p: seq<string>, n: int)
    requires Good(p) && p != []
    ensures PathPrefix(PathOf(p), n) == PathOf(p[..Max(1, Min(n, |p|))])
  {
    hide RawParts, Join, Plain, Good;
    GoodIsPlain(p);
    RawPartsCanonical(p);
  }

  // ---------------------------------------------------------- common prefix

  function Common(a: seq<string>, b: seq<string>): (c: seq<string>)
    ensures c <= a && c <= b
  {
    if a == [] || b == [] || a[0] != b[0] then [] else [a[0]] + Common(a[1..], b[1..])
  }

  lemma {:induction false} CommonIsGreatest(a: seq<string>, b: seq<string>, h: seq<string>)
    requires h <= a && h <= b
    ensures h <= Common(a, b)
  {
    if h != [] {
      assert h[0] == a[0] == b[0];
      CommonIsGreatest(a[1..], b[1..], h[1..]);
      assert h == [h[0]] + h[1..];
    }
  }

  /** The inner loop of `common_path_prefix` stops at the first difference. */
  lemma {:induction false} CommonLength(a: seq<string>, b: seq<string>, n: nat)
    requires n <= |a| && n <= |b| && a[..n] == b[..n] && (n == |a| || n == |b| || a[n] != b[n])
    ensures Common(a, b) == a[..n]
    decreases n
  {
    if n > 0 {
      assert a[0] == a[..n][0] == b[..n][0] == b[0];
      assert a[1..][..n - 1] == a[..n][1..] && b[1..][..n - 1] == b[..n][1..];
      CommonLength(a[1..], b[1..], n - 1);
      assert a[..n] == [a[0]] + a[1..][..n - 1];
    }
  }

  function Meet(ps: seq<seq<string>>): seq<string>
    requires ps != []
  {
    if |ps| == 1 then ps[0] else Common(Meet(ps[..|ps| - 1]), ps[|ps| - 1])
  }

  ghost predicate LowerBound(h: seq<string>, ps: seq<seq<string>>) { forall i :: 0 <= i < |ps| ==> h <= ps[i] }

  /** The meet is the greatest lower bound in segment-prefix order. */
  lemma {:induction false} MeetIsGreatest(ps: seq<seq<string>>)
    requires ps != []
    ensures LowerBound(Meet(ps), ps)
    ensures forall h :: LowerBound(h, ps) ==> h <= Meet(ps)
  {
    if |ps| > 1 {
      var n := |ps| - 1;
      MeetIsGreatest(ps[..n]);
      forall i | 0 <= i < |ps| ensures Meet(ps) <= ps[i] {
        if i < n { assert ps[..n][i] == ps[i]; }
      }
      forall h | LowerBound(h, ps) ensures h <= Meet(ps) {
        assert LowerBound(h, ps[..n]);
        CommonIsGreatest(Meet(ps[..n]), ps[n], h);
      }
    }
  }

  /** So it depends on which paths there are, not on their order or number. */
  lemma MeetIgnoresOrder(ps: seq<seq<string>>, qs: seq<seq<string>>)
    requires ps != [] && qs != [] && forall p :: p in ps <==> p in qs
    ensures Meet(ps) == Meet(qs)
  {
    MeetIsGreatest(ps);
    MeetIsGreatest(qs);
    assert LowerBound(Meet(ps), qs) by {
      forall i | 0 <= i < |qs| ensures Meet(ps) <= qs[i] {
        assert qs[i] in ps;
        var k :| 0 <= k < |ps| && ps[k] == qs[i];
        assert Meet(ps) <= ps[k];
      }
    }
    assert LowerBound(Meet(qs), ps) by {
      forall i | 0 <= i < |ps| ensures Meet(qs) <= ps[i] {
        assert ps[i] in qs;
        var k :| 0 <= k < |qs| && qs[k] == ps[i];
        assert Meet(qs) <= qs[k];
      }
    }
  }

  function AllParts(paths: seq<string>): (r: seq<seq<string>>)
    ensures |r| == |paths| && forall i :: 0 <= i < |r| ==> r[i] == Parts(paths[i])
  {
    seq(|paths|, i requires 0 <= i < |paths| => Parts(paths[i]))
  }

  lemma {:induction false} MeetStaysEmpty(ps: seq<seq<string>>, n: nat)
    requires 0 < n <= |ps| && Meet(ps[..n]) == []
    ensures Meet(ps) == []
    decreases |ps| - n
  {
    if n < |ps| {
      assert ps[..n + 1][..n] == ps[..n];
      MeetStaysEmpty(ps, n + 1);
    } else {
      assert ps[..n] == ps;
    }
  }

  /** `common_path_prefix`. */
  method CommonPathPrefix(paths: seq<string>) returns (r: string)
    ensures r == if paths == [] then "/" else PathOf(Meet(AllParts(paths)))
  {
    hide Parts, Join;
    if paths == [] { return "/"; }
    ghost var all := AllParts(paths);
    var prefix := Parts(paths[0]);
    assert all[..1] == [prefix];
    for n := 1 to |paths|
      invariant prefix == Meet(all[..n])
    {
      var parts := Parts(paths[n]);
      var index := 0;
      while index < |prefix| && index < |parts| && prefix[index] == parts[index]
        invariant index <= |prefix| && index <= |parts| && prefix[..index] == parts[..index]
      {
        index := index + 1;
      }
      CommonLength(prefix, parts, index);
      prefix := prefix[..index];
      assert all[..n + 1][..n] == all[..n];
      if prefix == [] {
        MeetStaysEmpty(all, n + 1);
        return "/";
      }
    }
    assert all[..|paths|] == all;
    r := if prefix != [] then "/" + Join(prefix, '/') else "/";
  }

  lemma GoodPrefix(p: seq<string>, q: seq<string>)
    requires Good(p) && q <= p
    ensures Good(q)
  {
    hide GoodSegment;
  }

  // ------------------------------------------------------------ resource URIs

  /** What is assumed of `str.isalnum`: it never accepts a separator or a space. */
  ghost predicate AlnumLike(alnum: char -> bool) {
    forall c :: alnum(c) ==> c != '/' && c != ';' && !IsSpace(c)
  }

  function Safe(alnum: char -> bool, s: string): (r: string)
    ensures |r| == |s|
  {
    if s == "" then ""
    else [if alnum(s[0]) || s[0] == '_' || s[0] == '-' || s[0] == '.' then s[0] else '_'] + Safe(alnum, s[1..])
  }

  /** `safe_uri_segment`. */
  function SafeSegment(alnum: char -> bool, value: string): string {
    var r := Safe(alnum, Strip(value, IsSpace));
    if r == "" then "item" else r
  }

  lemma {:induction false} SafeChars(alnum: char -> bool, s: string, i: nat)
    requires AlnumLike(alnum) && i < |s|
    ensures var c := Safe(alnum, s)[i]; c != '/' && c != ';' && !IsSpace(c)
  {
    if i > 0 { SafeChars(alnum, s[1..], i - 1); }
  }

  /** The segment keeps letters, digits, and `_`, `-` and `.`, and puts `_` for every other character. */
  lemma {:induction false} SafeAt(alnum: char -> bool, s: string, i: nat)
    requires i < |s|
    ensures Safe(alnum, s)[i] == if alnum(s[i]) || s[i] in "_-." then s[i] else '_'
  {
    if i > 0 { SafeAt(alnum, s[1..], i - 1); }
  }

  lemma SafeSegmentIs(alnum: char -> bool, value: string)
    ensures var t := Strip(value, IsSpace); var r := SafeSegment(alnum, value);
      if t == "" then r == "item"
      else |r| == |t| && forall i :: 0 <= i < |t| ==> r[i] == if alnum(t[i]) || t[i] in "_-." then t[i] else '_'
  {
    var t := Strip(value, IsSpace);
    forall i | 0 <= i < |t| ensures Safe(alnum, t)[i] == if alnum(t[i]) || t[i] in "_-." then t[i] else '_' {
      SafeAt(alnum, t, i);
    }
  }

  /** A nonempty value of such characters is its own segment. */
  lemma SafeSegmentKeeps(alnum: char -> bool, value: string)
    requires AlnumLike(alnum) && value != "" && forall i :: 0 <= i < |value| ==> alnum(value[i]) || value[i] in "_-."
    ensures SafeSegment(alnum, value) == value
  {
    SafeSegmentIs(alnum, value);
    StripNothing(value, IsSpace);
  }

  /** Whatever the value, its URI segment is one canonical segment. */
  lemma SafeSegmentGood(alnum: char -> bool, value: string)
    requires AlnumLike(alnum)
    ensures GoodSegment(SafeSegment(alnum, value))
  {
    var t := Strip(value, IsSpace);
    var r := Safe(alnum, t);
    forall i | 0 <= i < |r| ensures r[i] != '/' && r[i] != ';' && !IsSpace(r[i]) { SafeChars(alnum, t, i); }
    hide Strip, Safe, AlnumLike;
  }

  /** `resource_uri`. */
  function ResourceUri(alnum: char -> bool, dataset: string, path: string, itemId: Option<string>): string {
    var suffix := Strip(Normalize(Split(if path == "" then "/" else path, ';')[0]), IsSlash);
    var base := "viking://resources/bench/" + SafeSegment(alnum, dataset);
    var dir := if suffix != "" then base + "/" + suffix else base;
    if itemId.Some? then dir + "/" + SafeSegment(alnum, itemId.value) else dir
  }

  /** Its segments, without the scheme. */
  function UriSegments(alnum: char -> bool, dataset: string, p: seq<string>, itemId: Option<string>): seq<string> {
    ["resources", "bench", SafeSegment(alnum, dataset)] + p
    + if itemId.Some? then [SafeSegment(alnum, itemId.value)] else []
  }

  lemma UriSegmentsGood(alnum: char -> bool, dataset: string, p: seq<string>, itemId: Option<string>)
    requires AlnumLike(alnum) && Good(p)
    ensures Good(UriSegments(alnum, dataset, p, itemId))
  {
    hide GoodSegment, SafeSegment, AlnumLike;
    SafeSegmentGood(alnum, dataset);
    if itemId.Some? { SafeSegmentGood(alnum, itemId.value); }
    RootSegments();
  }

  lemma RootSegments()
    ensures GoodSegment("resources") && GoodSegment("bench")
  {
  }

  lemma UriShape(alnum: char -> bool, dataset: string, p: seq<string>, itemId: Option<string>)
    requires AlnumLike(alnum) && Good(p)
    ensures ResourceUri(alnum, dataset, PathOf(p), itemId) == SCHEME + Join(UriSegments(alnum, dataset, p, itemId), '/')
  {
    hide AlnumLike, SafeSegment, Normalize, Split, Strip, IsSpace, Good;
    var d := SafeSegment(alnum, dataset);
    NoSemicolon(p);
    SplitNone(PathOf(p), ';');
    GoodIsPlain(p);
    NormalizeCanonical(p);
    StrippedPath(p);
    var root := ["resources", "bench", d];
    JoinRoot(d);
    var base := "viking://resources/bench/" + d;
    var dir := if Join(p, '/') != "" then base + "/" + Join(p, '/') else base;
    assert dir == SCHEME + Join(root + p, '/') by { JoinBelow(base, root, p); }
    if itemId.Some? {
      JoinBelow(dir, root + p, [SafeSegment(alnum, itemId.value)]);
    } else {
      assert UriSegments(alnum, dataset, p, itemId) == root + p;
    }
  }

  /** Appending segments to a joined list is appending their text after a slash. */
  lemma JoinBelow(base: string, front: seq<string>, p: seq<string>)
    requires base == SCHEME + Join(front, '/') && front != []
    ensures p != [] ==> base + "/" + Join(p, '/') == SCHEME + Join(front + p, '/')
    ensures p == [] ==> base == SCHEME + Join(front + p, '/')
    ensures |p| == 1 ==> Join(p, '/') == p[0]
  {
    if p != [] { JoinAppend(front, p, '/'); } else { assert front + p == front; }
  }

  /** The text of a resource URI: root, dataset, path and item. */
  lemma UriText(alnum: char -> bool, dataset: string, p: seq<string>, itemId: Option<string>)
    requires Good(p)
    ensures ResourceUri(alnum, dataset, PathOf(p), itemId) ==
      "viking://resources/bench/" + SafeSegment(alnum, dataset) + (if p == [] then "" else PathOf(p))
      + (if itemId.Some? then "/" + SafeSegment(alnum, itemId.value) else "")
  {
    hide SafeSegment, Normalize, Split, Strip, IsSpace, Good;
    NoSemicolon(p);
    SplitNone(PathOf(p), ';');
    GoodIsPlain(p);
    NormalizeCanonical(p);
    StrippedPath(p);
    var base := "viking://resources/bench/" + SafeSegment(alnum, dataset);
    assert p != [] ==> base + "/" + Join(p, '/') == base + PathOf(p);
    var dir := base + if p == [] then "" else PathOf(p);
    if itemId.Some? {
      assert dir + "/" + SafeSegment(alnum, itemId.value) == dir + ("/" + SafeSegment(alnum, itemId.value));
    }
  }

  lemma JoinRoot(d: string)
    ensures "viking://resources/bench/" + d == SCHEME + Join(["resources", "bench", d], '/')
  {
    var t := ["resources", "bench", d];
    assert t[1..] == ["bench", d] && t[1..][1..] == [d];
    assert Join(["bench", d], '/') == "bench" + ['/'] + d;
    assert Join(t, '/') == "resources" + ['/'] + ("bench" + ['/'] + d);
    assert "viking://resources/bench/" == "viking://" + "resources" + ['/'] + "bench" + ['/'];
  }

  lemma StrippedPath(p: seq<string>)
    requires Plain(p)
    ensures Strip(PathOf(p), IsSlash) == Join(p, '/') && (Join(p, '/') == "" <==> p == [])
  {
    hide IsSpace, Join;
    if p == [] {
      assert Join(p, '/') == "" by { EmptyJoin(); }
      assert StripLeft("/", IsSlash) == StripLeft("", IsSlash);
    } else {
      JoinPlain(p);
      assert ("/" + Join(p, '/'))[1..] == Join(p, '/');
      StripNothing(Join(p, '/'), IsSlash);
    }
  }

  lemma EmptyJoin()
    ensures Join([], '/') == ""
  {
  }

  /** Normalizing a URI drops the scheme and leaves a canonical path. */
  lemma NormalizeUri(u: seq<string>)
    requires Plain(u) && u != []
    ensures Normalize(SCHEME + Join(u, '/')) == PathOf(u)
  {
    hide IsSpace, Join, Plain;
    JoinPlain(u);
    var s := Join(u, '/');
    assert !IsSpace(SCHEME[0]) by { SchemeStart(); }
    StripNothing(SCHEME + s, IsSpace);
    assert (SCHEME + s)[|SCHEME|..] == s;
    StripNothing(s, IsSlash);
  }

  lemma SchemeStart()
    ensures !IsSpace(SCHEME[0]) && SCHEME[0] != '/'
  {
  }

  /**
   Building URIs preserves matching: an item's URI matches a scope's URI exactly when both
   belong to the same dataset, and the item's path lies below the scope or the scope is the
   path plus the item's own segment.
   */
  lemma UriMatching(alnum: char -> bool, dataset: string, p: seq<string>, id: string, other: string, scope: seq<string>)
    requires AlnumLike(alnum) && Good(p) && Good(scope)
    ensures Matches(ResourceUri(alnum, dataset, PathOf(p), Some(id)),
      ResourceUri(alnum, other, PathOf(scope), None)) <==>
      SafeSegment(alnum, dataset) == SafeSegment(alnum, other) && (scope <= p || scope == p + [SafeSegment(alnum, id)])
  {
    hide AlnumLike, SafeSegment, Normalize, Split, Good, Join, PathOf, ResourceUri, Below, UriSegments, Matches;
    var u := UriSegments(alnum, dataset, p, Some(id));
    var v := UriSegments(alnum, other, scope, None);
    UriShape(alnum, dataset, p, Some(id));
    UriShape(alnum, other, scope, None);
    UriSegmentsGood(alnum, dataset, p, Some(id));
    UriSegmentsGood(alnum, other, scope, None);
    UriPrefix(alnum, dataset, p, id, other, scope);
    GoodIsPlain(u);
    GoodIsPlain(v);
    NormalizeUri(u);
    NormalizeUri(v);
    UriNoSemicolon(u);
    SingleMatch(SCHEME + Join(u, '/'), SCHEME + Join(v, '/'));
    BelowIsPrefix(u, v);
  }

  lemma SingleMatch(value: string, prefix: string)
    requires ';' !in value
    ensures Matches(value, prefix) <==> Below(Normalize(value), Normalize(prefix))
  {
    hide Below, Normalize, Split;
    SplitNone(value, ';');
    assert Split(value, ';')[0] == value;
  }

  lemma UriNoSemicolon(u: seq<string>)
    requires Good(u)
    ensures ';' !in SCHEME + Join(u, '/')
  {
    hide Good, Join;
    NoSemicolon(u);
  }

  lemma UriPrefix(alnum: char -> bool, dataset: string, p: seq<string>, id: string, other: string, scope: seq<string>)
    ensures UriSegments(alnum, dataset, p, Some(id)) != [] && UriSegments(alnum, other, scope, None) != []
    ensures UriSegments(alnum, other, scope, None) <= UriSegments(alnum, dataset, p, Some(id)) <==>
      SafeSegment(alnum, dataset) == SafeSegment(alnum, other) && (scope <= p || scope == p + [SafeSegment(alnum, id)])
  {
    hide SafeSegment;
    var d, e, x := SafeSegment(alnum, dataset), SafeSegment(alnum, other), SafeSegment(alnum, id);
    var u, v := UriSegments(alnum, dataset, p, Some(id)), UriSegments(alnum, other, scope, None);
    assert u == ["resources", "bench", d] + (p + [x]) && v == ["resources", "bench", e] + scope;
    assert u[2] == d && v[2] == e && u[3..] == p + [x] && v[3..] == scope;
    if v <= u {
      assert v[2] == u[2] && scope <= p + [x];
      if |scope| > |p| { assert scope == p + [x]; } else { assert scope <= p; }
    }
  }
}
