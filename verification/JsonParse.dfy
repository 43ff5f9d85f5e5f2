/**
 The other half of printing: whatever the decoder takes is the text of its own tree
 with some white space.  With `JsonPrint` this says exactly which texts are objects, and
 that what was read can be printed and read again.
 */
module JsonParse {
  import opened Prelude
  import opened Json
  import opened JsonStable
  import opened JsonPrint

  // ---------------------------------------------------------------- lexemes

  /** A number's characters and a comma behind them. */
  function Cut(s: string, i: nat, e: nat): (t: string)
    requires i <= e <= |s|
    ensures |t| == e - i + 1 && t[e - i] == ',' && forall k :: 0 <= k < e - i ==> t[k] == s[i + k]
  {
    s[i..e] + ","
  }

  lemma {:induction false} DigitsCut(s: string, i: nat, e: nat, p: nat)
    requires i <= p <= e <= |s| && DigitsEnd(s, p) <= e
    ensures DigitsEnd(Cut(s, i, e), p - i) == DigitsEnd(s, p) - i
    decreases e - p
  {
    hide Cut;
    if p < e && IsDigit(s[p]) { DigitsCut(s, i, e, p + 1); }
  }

  lemma IntegerCut(s: string, i: nat, e: nat)
    requires i < e <= |s| && i < IntegerEnd(s, i) <= e
    ensures IntegerEnd(Cut(s, i, e), 0) == IntegerEnd(s, i) - i
  {
    hide Cut, DigitsEnd;
    var j := if s[i] == '-' then i + 1 else i;
    if s[j] != '0' { DigitsCut(s, i, e, j); }
  }

  lemma FractionCut(s: string, i: nat, e: nat, p: nat)
    requires i <= p <= e <= |s| && FractionEnd(s, p) <= e && ExponentEnd(s, FractionEnd(s, p)) == e
    ensures FractionEnd(Cut(s, i, e), p - i) == FractionEnd(s, p) - i
  {
    hide Cut, DigitsEnd;
    if p < e && s[p] == '.' { DigitsCut(s, i, e, p + 1); }
  }

  lemma ExponentCut(s: string, i: nat, e: nat, p: nat)
    requires i <= p <= e <= |s| && ExponentEnd(s, p) == e
    ensures ExponentEnd(Cut(s, i, e), p - i) == e - i
  {
    hide Cut, DigitsEnd;
    if p < e {
      var j := if s[p + 1] == '+' || s[p + 1] == '-' then p + 2 else p + 1;
      DigitsCut(s, i, e, j);
    }
  }

  /** A scanned number is a lexeme that is taken whole. */
  lemma NumberLexeme(s: string, i: nat)
    requires i <= |s| && NumberEnd(s, i) > i
    ensures GoodLeaf(Num(s[i..NumberEnd(s, i)]))
  {
    hide DigitsEnd, IntegerEnd, FractionEnd, ExponentEnd;
    var e, j := NumberEnd(s, i), IntegerEnd(s, i);
    IntegerCut(s, i, e);
    FractionCut(s, i, e, j);
    ExponentCut(s, i, e, FractionEnd(s, j));
  }

  /** So is a scanned string. */
  lemma StringLexeme(s: string, i: nat)
    requires i <= |s| && ScanString(s, i).Ok?
    ensures GoodString(ScanString(s, i).value)
    ensures s[i..ScanString(s, i).end] == ScanString(s, i).value + "\""
  {
    hide StringEnd;
    var e := StringEnd(s, i);
    assert s[i..e] == s[i..e - 1] + "\"";
    StringEndStable(s, i, s[i..e], -(i as int), e);
  }

  lemma WordLexeme(s: string, i: nat)
    requires i <= |s| && WordLength(s, i) > 0
    ensures GoodLeaf(Word(s[i..i + WordLength(s, i)]))
  {
    hide WordLength;
    WordLengthStable(s, i, s[i..i + WordLength(s, i)], -(i as int));
  }

  // ------------------------------------------------------------ white space

  lemma {:induction false} SkippedIsWs(s: string, i: nat)
    requires i <= |s|
    ensures AllWs(s[i..SkipWs(s, i)])
    decreases |s| - i
  {
    hide IsWs;
    if i < |s| && IsWs(s[i]) {
      SkippedIsWs(s, i + 1);
      var w := s[i + 1..SkipWs(s, i + 1)];
      assert s[i..SkipWs(s, i)] == [s[i]] + w;
    }
  }

  lemma NoWs()
    ensures AllWs("")
  {
  }

  // -------------------------------------------------------------- recovering

  /** What was decoded is the text of its tree, with the white space that was skipped. */
  lemma {:induction false} ParsedValue(s: string, i: nat) returns (v: Spaced)
    requires i <= |s| && Value(s, i).Ok?
    ensures Good(v) && Tree(v) == Value(s, i).value && Print(v) == s[i..Value(s, i).end]
    decreases |s| - i, 1
  {
    hide WordLength, NumberEnd, ScanString, SkipWs, Members, Elements, AllWs, GoodLeaf, PrintMembers, PrintElements,
      GoodMember, GoodElement;
    var e := Value(s, i).end;
    if s[i] == '{' {
      v := ParsedObject(s, i);
    } else if s[i] == '[' {
      v := ParsedList(s, i);
    } else {
      v := Leaf(Value(s, i).value);
      ParsedLeaf(s, i);
    }
  }

  lemma ParsedLeaf(s: string, i: nat)
    requires i < |s| && Value(s, i).Ok? && s[i] != '{' && s[i] != '['
    ensures GoodLeaf(Value(s, i).value) && LeafText(Value(s, i).value) == s[i..Value(s, i).end]
  {
    hide WordLength, NumberEnd, ScanString, SkipWs, Members, Elements, GoodString;
    var e := Value(s, i).end;
    if s[i] == '"' {
      StringLexeme(s, i + 1);
      assert s[i..e] == "\"" + s[i + 1..e];
    } else if WordLength(s, i) > 0 {
      WordLexeme(s, i);
    } else {
      NumberLexeme(s, i);
    }
  }

  lemma {:induction false} ParsedObject(s: string, i: nat) returns (v: Spaced)
    requires i < |s| && s[i] == '{' && Value(s, i).Ok?
    ensures Good(v) && Tree(v) == Value(s, i).value && Print(v) == s[i..Value(s, i).end]
    decreases |s| - i, 0
  {
    hide SkipWs, Members, Elements, AllWs, PrintMembers, GoodMember, ScanString, WordLength, NumberEnd;
    var e, j := Value(s, i).end, SkipWs(s, i + 1);
    var w := s[i + 1..j];
    SkippedIsWs(s, i + 1);
    if s[j] == '}' {
      v := Object(w, []);
      assert s[i..e] == "{" + (w + "}");
    } else {
      var ms := ParsedMembers(s, j);
      v := Object("", SpaceFirst(ms, w));
      SpacedFirst(ms, w);
      NoWs();
      assert s[i..e] == "{" + (w + s[j..e]);
    }
  }

  lemma {:induction false} ParsedList(s: string, i: nat) returns (v: Spaced)
    requires i < |s| && s[i] == '[' && Value(s, i).Ok?
    ensures Good(v) && Tree(v) == Value(s, i).value && Print(v) == s[i..Value(s, i).end]
    decreases |s| - i, 0
  {
    hide SkipWs, Members, Elements, AllWs, PrintElements, GoodElement, ScanString, WordLength, NumberEnd;
    var e, j := Value(s, i).end, SkipWs(s, i + 1);
    var w := s[i + 1..j];
    SkippedIsWs(s, i + 1);
    if s[j] == ']' {
      v := List(w, []);
      assert s[i..e] == "[" + (w + "]");
    } else {
      var es := ParsedElements(s, j);
      v := List("", SpaceFirstElement(es, w));
      SpacedFirstElement(es, w);
      NoWs();
      assert s[i..e] == "[" + (w + s[j..e]);
    }
  }

  /** The same members with white space `w` in front. */
  function SpaceFirst(ms: seq<SpacedMember>, w: string): (r: seq<SpacedMember>)
    requires ms != []
    ensures r != []
  {
    [ms[0].(before := w)] + ms[1..]
  }

  function SpaceFirstElement(es: seq<SpacedElement>, w: string): (r: seq<SpacedElement>)
    requires es != []
    ensures r != []
  {
    [es[0].(before := w)] + es[1..]
  }

  lemma SpacedFirst(ms: seq<SpacedMember>, w: string)
    requires ms != [] && ms[0].before == "" && AllWs(w) && forall m :: m in ms ==> GoodMember(m)
    ensures forall m :: m in SpaceFirst(ms, w) ==> GoodMember(m)
    ensures PrintMembers(SpaceFirst(ms, w)) == w + PrintMembers(ms) && MemberTrees(SpaceFirst(ms, w)) == MemberTrees(ms)
  {
    hide Print, AllWs, Good, Tree, GoodString;
    var m, r := ms[0], SpaceFirst(ms, w);
    assert m in ms && r[1..] == ms[1..];
    var rest := Print(m.value) + (m.after + if |ms| == 1 then "}" else "," + PrintMembers(ms[1..]));
    assert PrintMembers(ms) == KeyText(m, rest) && PrintMembers(r) == KeyText(r[0], rest);
    forall x | x in r ensures GoodMember(x) { if x != r[0] { assert x in ms[1..]; } }
  }

  lemma SpacedFirstElement(es: seq<SpacedElement>, w: string)
    requires es != [] && es[0].before == "" && AllWs(w) && forall e :: e in es ==> GoodElement(e)
    ensures forall e :: e in SpaceFirstElement(es, w) ==> GoodElement(e)
    ensures PrintElements(SpaceFirstElement(es, w)) == w + PrintElements(es)
      && ElementTrees(SpaceFirstElement(es, w)) == ElementTrees(es)
  {
    hide Print, AllWs, Good, Tree;
    var e, r := es[0], SpaceFirstElement(es, w);
    assert e in es && r[1..] == es[1..];
    var rest := Print(e.value) + (e.after + if |es| == 1 then "]" else "," + PrintElements(es[1..]));
    assert PrintElements(es) == "" + rest && PrintElements(r) == w + rest;
    forall x | x in r ensures GoodElement(x) { if x != r[0] { assert x in es[1..]; } }
  }

  lemma SliceJoin(s: string, a: nat, b: nat, c: nat)
    requires a <= b <= c <= |s|
    ensures s[a..b] + s[b..c] == s[a..c]
  {
  }

  /** A decoded key with its white space, in front of the text up to `hi`. */
  lemma ParsedKey(s: string, i: nat, value: Spaced, after: string, hi: nat) returns (m: SpacedMember)
    requires i <= |s| && Key(s, i).Ok? && Key(s, i).end <= hi <= |s| && Good(value) && AllWs(after)
    ensures GoodMember(m) && m.before == "" && m.key == Key(s, i).value && m.value == value && m.after == after
    ensures KeyText(m, s[Key(s, i).end..hi]) == s[i..hi]
  {
    hide ScanString, SkipWs, AllWs, Good, GoodString;
    var key, e := ScanString(s, i + 1).value, ScanString(s, i + 1).end;
    var j := SkipWs(s, e);
    var p := SkipWs(s, j + 1);
    StringLexeme(s, i + 1);
    SkippedIsWs(s, e);
    SkippedIsWs(s, j + 1);
    NoWs();
    m := SpacedMember("", key, s[e..j], s[j + 1..p], value, after);
    KeySlices(s, i, e, j, p, hi, key);
  }

  lemma KeySlices(s: string, i: nat, e: nat, j: nat, p: nat, hi: nat, key: string)
    requires i + 1 <= e <= j < p <= hi <= |s| && s[i] == '"' && s[j] == ':' && s[i + 1..e] == key + "\""
    ensures "" + ("\"" + ((key + "\"") + (s[e..j] + (":" + (s[j + 1..p] + s[p..hi]))))) == s[i..hi]
  {
    SliceJoin(s, j + 1, p, hi);
    SliceJoin(s, j, j + 1, hi);
    assert s[j..j + 1] == ":" && s[i..i + 1] == "\"";
    SliceJoin(s, e, j, hi);
    SliceJoin(s, i + 1, e, hi);
    SliceJoin(s, i, i + 1, hi);
  }

  lemma {:induction false} ParsedMembers(s: string, i: nat) returns (ms: seq<SpacedMember>)
    requires i <= |s| && Members(s, i).Ok?
    ensures ms != [] && ms[0].before == "" && (forall m :: m in ms ==> GoodMember(m))
    ensures MemberTrees(ms) == Members(s, i).value && PrintMembers(ms) == s[i..Members(s, i).end]
    decreases |s| - i, 2
  {
    hide Key, Value, Separate, AllWs, Good, Print, Tree, KeyText, GoodMember, SkipWs, PrintMembers, MemberTrees,
      SpaceFirst;
    var p, hi := Key(s, i).end, Members(s, i).end;
    var e := Value(s, p).end;
    var v := ParsedValue(s, p);
    var c := SkipWs(s, e);
    SkippedIsWs(s, e);
    var sep := Separate(s, e, '}');
    SeparatorText(s, e, '}');
    var m := ParsedKey(s, i, v, s[e..c], hi);
    SliceJoin(s, e, c, hi);
    SliceJoin(s, p, e, hi);
    if sep.Closed? {
      ms := [m];
      assert s[c..hi] == "}";
      OneMember(m);
    } else {
      var rest := ParsedMembers(s, sep.next);
      var w := s[c + 1..sep.next];
      SpacedFirst(rest, w);
      SliceJoin(s, c + 1, sep.next, hi);
      assert s[c..hi] == "," + s[c + 1..hi];
      ms := [m] + SpaceFirst(rest, w);
      MoreMembers(m, SpaceFirst(rest, w));
    }
  }

  lemma OneMember(m: SpacedMember)
    ensures PrintMembers([m]) == KeyText(m, Print(m.value) + (m.after + "}"))
      && MemberTrees([m]) == [Member(m.key, Tree(m.value))]
  {
    hide Print, Tree, KeyText;
  }

  lemma MoreMembers(m: SpacedMember, rest: seq<SpacedMember>)
    requires rest != []
    ensures PrintMembers([m] + rest) == KeyText(m, Print(m.value) + (m.after + ("," + PrintMembers(rest))))
    ensures MemberTrees([m] + rest) == [Member(m.key, Tree(m.value))] + MemberTrees(rest)
  {
    hide Print, Tree, KeyText;
    assert ([m] + rest)[1..] == rest;
  }

  lemma OneElement(x: SpacedElement)
    ensures PrintElements([x]) == x.before + (Print(x.value) + (x.after + "]")) && ElementTrees([x]) == [Tree(x.value)]
  {
    hide Print, Tree;
  }

  lemma MoreElements(x: SpacedElement, rest: seq<SpacedElement>)
    requires rest != []
    ensures PrintElements([x] + rest) == x.before + (Print(x.value) + (x.after + ("," + PrintElements(rest))))
    ensures ElementTrees([x] + rest) == [Tree(x.value)] + ElementTrees(rest)
  {
    hide Print, Tree;
    assert ([x] + rest)[1..] == rest;
  }

  /** What stands between an item and what follows it. */
  lemma SeparatorText(s: string, e: nat, close: char)
    requires e <= |s| && !Separate(s, e, close).Bad?
    ensures var c := SkipWs(s, e); c < |s| && match Separate(s, e, close) {
      case Bad => true
      case Closed(hi) => hi == c + 1 && s[c] == close
      case More(next) => s[c] == ',' && c + 1 <= next <= |s| && AllWs(s[c + 1..next])
    }
  {
    hide AllWs, SkipWs;
    var c := SkipWs(s, e);
    SkippedIsWs(s, c + 1);
  }

  lemma {:induction false} ParsedElements(s: string, i: nat) returns (es: seq<SpacedElement>)
    requires i <= |s| && Elements(s, i).Ok?
    ensures es != [] && es[0].before == "" && (forall e :: e in es ==> GoodElement(e))
    ensures ElementTrees(es) == Elements(s, i).value && PrintElements(es) == s[i..Elements(s, i).end]
    decreases |s| - i, 2
  {
    hide Value, Separate, AllWs, Good, Print, Tree, SkipWs, PrintElements, ElementTrees, SpaceFirstElement;
    var e, hi := Value(s, i).end, Elements(s, i).end;
    var v := ParsedValue(s, i);
    var c := SkipWs(s, e);
    SkippedIsWs(s, e);
    NoWs();
    var x := SpacedElement("", v, s[e..c]);
    var sep := Separate(s, e, ']');
    SeparatorText(s, e, ']');
    SliceJoin(s, e, c, hi);
    SliceJoin(s, i, e, hi);
    if sep.Closed? {
      es := [x];
      assert s[c..hi] == "]";
      OneElement(x);
    } else {
      var rest := ParsedElements(s, sep.next);
      var w := s[c + 1..sep.next];
      SpacedFirstElement(rest, w);
      SliceJoin(s, c + 1, sep.next, hi);
      assert s[c..hi] == "," + s[c + 1..hi];
      es := [x] + SpaceFirstElement(rest, w);
      MoreElements(x, SpaceFirstElement(rest, w));
    }
  }

  /** A text decodes to an object, and is used up, exactly when it is a text of that object. */
  lemma ObjectTexts(t: string, v: Json)
    ensures Value(t, 0) == Ok(v, |t|) && v.Obj? <==> exists x :: Good(x) && x.Object? && Tree(x) == v && Print(x) == t
  {
    hide Value, Good, Print;
    forall x | Good(x) && x.Object? && Tree(x) == v && Print(x) == t ensures Value(t, 0) == Ok(v, |t|) && v.Obj? {
      PrintedObject(x);
    }
    if Value(t, 0) == Ok(v, |t|) && v.Obj? {
      var x := ParsedValue(t, 0);
      assert x.Object? by { OnlyObjects(x); }
      assert t[0..|t|] == t;
    }
  }

  lemma OnlyObjects(x: Spaced)
    requires Good(x) && Tree(x).Obj?
    ensures x.Object?
  {
  }

  // ------------------------------------------------------------ json.dumps

  function Spaces(n: nat): (w: string)
    ensures |w| == n && AllWs(w)
  {
    if n == 0 then "" else Spaces(n - 1) + " "
  }

  /** A line break and the indentation of `level`; nothing without an indent. */
  function NewLine(indent: Option<nat>, level: nat): (w: string)
    ensures AllWs(w)
  {
    if indent.Some? then "\n" + Spaces(indent.value * level) else ""
  }

  /** How `json.dumps` lays a tree out, on one line or with an indent. */
  function Dump(v: Json, indent: Option<nat>, level: nat): Spaced {
    match v
    case Obj(ms) => Object("", DumpMembers(ms, indent, level + 1, true))
    case Arr(vs) => List("", DumpElements(vs, indent, level + 1, true))
    case _ => Leaf(v)
  }

  function Before(indent: Option<nat>, level: nat, first: bool): (w: string)
    ensures AllWs(w)
  {
    if indent.Some? then NewLine(indent, level) else if first then "" else " "
  }

  function DumpMembers(ms: seq<Member>, indent: Option<nat>, level: nat, first: bool): (r: seq<SpacedMember>)
    requires level > 0
  {
    if ms == [] then []
    else
      [SpacedMember(Before(indent, level, first), ms[0].key, "", " ", Dump(ms[0].value, indent, level),
                    if |ms| == 1 then NewLine(indent, level - 1) else "")]
      + DumpMembers(ms[1..], indent, level, false)
  }

  function DumpElements(vs: seq<Json>, indent: Option<nat>, level: nat, first: bool): (r: seq<SpacedElement>)
    requires level > 0
  {
    if vs == [] then []
    else
      [SpacedElement(Before(indent, level, first), Dump(vs[0], indent, level),
                     if |vs| == 1 then NewLine(indent, level - 1) else "")]
      + DumpElements(vs[1..], indent, level, false)
  }

  /** Where `json.dumps` puts white space: one space behind each colon; behind each comma a space or a new line. */
  lemma {:induction false} DumpMemberAt(ms: seq<Member>, indent: Option<nat>, level: nat, first: bool, k: nat)
    requires level > 0 && k < |ms|
    ensures |DumpMembers(ms, indent, level, first)| == |ms|
    ensures var m := DumpMembers(ms, indent, level, first)[k];
      && m.key == ms[k].key && m.value == Dump(ms[k].value, indent, level) && m.beforeColon == "" && m.afterColon == " "
      && m.before == (if indent.Some? then "\n" + Spaces(indent.value * level) else if first && k == 0 then "" else " ")
      && m.after == (if k + 1 == |ms| && indent.Some? then "\n" + Spaces(indent.value * (level - 1)) else "")
  {
    hide Dump;
    if |ms| > 1 { DumpMemberAt(ms[1..], indent, level, false, if k == 0 then 0 else k - 1); }
  }

  lemma {:induction false} DumpElementAt(vs: seq<Json>, indent: Option<nat>, level: nat, first: bool, k: nat)
    requires level > 0 && k < |vs|
    ensures |DumpElements(vs, indent, level, first)| == |vs|
    ensures var e := DumpElements(vs, indent, level, first)[k];
      && e.value == Dump(vs[k], indent, level)
      && e.before == (if indent.Some? then "\n" + Spaces(indent.value * level) else if first && k == 0 then "" else " ")
      && e.after == (if k + 1 == |vs| && indent.Some? then "\n" + Spaces(indent.value * (level - 1)) else "")
  {
    hide Dump;
    if |vs| > 1 { DumpElementAt(vs[1..], indent, level, false, if k == 0 then 0 else k - 1); }
  }

  /** The layout is one of the tree's texts. */
  lemma {:induction false} DumpIsText(v: Json, indent: Option<nat>, level: nat)
    requires WellFormed(v)
    ensures Good(Dump(v, indent, level)) && Tree(Dump(v, indent, level)) == v
    decreases v, 1
  {
    hide NewLine, AllWs, GoodLeaf;
    NoWs();
    match v
    case Obj(ms) => DumpMembersText(ms, indent, level + 1, true);
    case Arr(vs) => DumpElementsText(vs, indent, level + 1, true);
    case _ =>
  }

  lemma {:induction false} DumpMembersText(ms: seq<Member>, indent: Option<nat>, level: nat, first: bool)
    requires level > 0 && forall m :: m in ms ==> GoodString(m.key) && WellFormed(m.value)
    ensures (forall x :: x in DumpMembers(ms, indent, level, first) ==> GoodMember(x))
    ensures MemberTrees(DumpMembers(ms, indent, level, first)) == ms
    decreases ms, 0
  {
    hide NewLine, Before, AllWs, GoodString, Good, Dump, Tree, WellFormed;
    if ms != [] {
      assert ms[0] in ms && AllWs("") && AllWs(" ") by { OneSpace(); }
      DumpIsText(ms[0].value, indent, level);
      DumpMembersText(ms[1..], indent, level, false);
      var r := DumpMembers(ms, indent, level, first);
      assert r == [r[0]] + DumpMembers(ms[1..], indent, level, false);
      assert r[1..] == DumpMembers(ms[1..], indent, level, false);
      assert ms == [ms[0]] + ms[1..];
    }
  }

  lemma {:induction false} DumpElementsText(vs: seq<Json>, indent: Option<nat>, level: nat, first: bool)
    requires level > 0 && forall x :: x in vs ==> WellFormed(x)
    ensures (forall x :: x in DumpElements(vs, indent, level, first) ==> GoodElement(x))
    ensures ElementTrees(DumpElements(vs, indent, level, first)) == vs
    decreases vs, 0
  {
    hide NewLine, Before, AllWs, Good, Dump, Tree, WellFormed;
    if vs != [] {
      assert vs[0] in vs && AllWs("") by { NoWs(); }
      DumpIsText(vs[0], indent, level);
      DumpElementsText(vs[1..], indent, level, false);
      var r := DumpElements(vs, indent, level, first);
      assert r[1..] == DumpElements(vs[1..], indent, level, false);
      assert vs == [vs[0]] + vs[1..];
    }
  }

  lemma OneSpace()
    ensures AllWs("") && AllWs(" ")
  {
  }

  // -------------------------------------------------------- well-formedness

  lemma {:induction false} TextWellFormed(v: Spaced)
    requires Good(v)
    ensures WellFormed(Tree(v))
    decreases v, 1
  {
    hide GoodLeaf, AllWs, GoodMember, GoodElement;
    match v
    case Leaf(x) => LeafWellFormed(x);
    case Object(_, ms) => MembersWellFormed(ms);
    case List(_, es) => ElementsWellFormed(es);
  }

  lemma LeafWellFormed(x: Json)
    requires GoodLeaf(x)
    ensures WellFormed(x)
  {
  }

  lemma {:induction false} MembersWellFormed(ms: seq<SpacedMember>)
    requires forall m :: m in ms ==> GoodMember(m)
    ensures forall x :: x in MemberTrees(ms) ==> GoodString(x.key) && WellFormed(x.value)
    decreases ms, 0
  {
    hide GoodString, AllWs, Good, WellFormed, Tree;
    if ms != [] {
      assert ms[0] in ms;
      TextWellFormed(ms[0].value);
      MembersWellFormed(ms[1..]);
    }
  }

  lemma {:induction false} ElementsWellFormed(es: seq<SpacedElement>)
    requires forall e :: e in es ==> GoodElement(e)
    ensures forall x :: x in ElementTrees(es) ==> WellFormed(x)
    decreases es, 0
  {
    hide AllWs, Good, WellFormed, Tree;
    if es != [] {
      assert es[0] in es;
      TextWellFormed(es[0].value);
      ElementsWellFormed(es[1..]);
    }
  }

  /** What the decoder yields can be dumped and decoded again, to the same tree. */
  lemma ReadDumpRead(s: string, i: nat, indent: Option<nat>)
    requires i <= |s| && Value(s, i).Ok? && Value(s, i).value.Obj?
    ensures WellFormed(Value(s, i).value)
    ensures var t := Print(Dump(Value(s, i).value, indent, 0)); Value(t, 0) == Ok(Value(s, i).value, |t|)
  {
    hide Value, Good, Print, WellFormed;
    var v := ParsedValue(s, i);
    TextWellFormed(v);
    DumpIsText(Value(s, i).value, indent, 0);
    PrintedObject(Dump(Value(s, i).value, indent, 0));
  }
}
