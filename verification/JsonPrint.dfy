/**
 The texts of values: a value written with any white space at any place the grammar
 allows.  The decoder reads every such text back to its tree, and takes no other.
 */
module JsonPrint {
  import opened Json
  import opened JsonStable

  /** A value with its white space; a leaf is a string, a number or a word. */
  datatype Spaced =
    | Leaf(value: Json)
    | Object(inner: string, members: seq<SpacedMember>)
    | List(inner: string, elements: seq<SpacedElement>)

  datatype SpacedMember = SpacedMember(
    before: string, key: string, beforeColon: string, afterColon: string, value: Spaced, after: string)

  datatype SpacedElement = SpacedElement(before: string, value: Spaced, after: string)

  /** The parse tree, without the white space. */
  function Tree(v: Spaced): Json {
    match v
    case Leaf(x) => x
    case Object(_, ms) => Obj(MemberTrees(ms))
    case List(_, es) => Arr(ElementTrees(es))
  }

  function MemberTrees(ms: seq<SpacedMember>): (r: seq<Member>)
    ensures |r| == |ms|
  {
    if ms == [] then [] else [Member(ms[0].key, Tree(ms[0].value))] + MemberTrees(ms[1..])
  }

  function ElementTrees(es: seq<SpacedElement>): (r: seq<Json>)
    ensures |r| == |es|
  {
    if es == [] then [] else [Tree(es[0].value)] + ElementTrees(es[1..])
  }

  /** The text; `inner` is the white space of an empty object or array. */
  function Print(v: Spaced): string {
    match v
    case Leaf(x) => LeafText(x)
    case Object(inner, ms) => "{" + if ms == [] then inner + "}" else PrintMembers(ms)
    case List(inner, es) => "[" + if es == [] then inner + "]" else PrintElements(es)
  }

  function LeafText(x: Json): string {
    match x
    case Str(b) => "\"" + (b + "\"")
    case Num(l) => l
    case Word(w) => w
    case _ => ""
  }

  /** A member's text up to its value, then `rest`. */
  function KeyText(m: SpacedMember, rest: string): string {
    m.before + ("\"" + ((m.key + "\"") + (m.beforeColon + (":" + (m.afterColon + rest)))))
  }

  function PrintMembers(ms: seq<SpacedMember>): string
    requires ms != []
  {
    KeyText(ms[0], Print(ms[0].value) + (ms[0].after + if |ms| == 1 then "}" else "," + PrintMembers(ms[1..])))
  }

  function PrintElements(es: seq<SpacedElement>): string
    requires es != []
  {
    es[0].before + (Print(es[0].value) + (es[0].after + if |es| == 1 then "]" else "," + PrintElements(es[1..])))
  }

  ghost predicate AllWs(w: string) { forall k :: 0 <= k < |w| ==> IsWs(w[k]) }

  ghost predicate GoodString(b: string) { StringEnd(b + "\"", 0) == |b| + 1 }

  /** Lexemes that the decoder would take whole. */
  ghost predicate GoodLeaf(x: Json) {
    match x
    case Str(b) => GoodString(b)
    case Num(l) => l != "" && NumberEnd(l + ",", 0) == |l|
    case Word(w) => w != "" && WordLength(w, 0) == |w|
    case _ => false
  }

  ghost predicate Good(v: Spaced) {
    match v
    case Leaf(x) => GoodLeaf(x)
    case Object(inner, ms) => AllWs(inner) && forall m :: m in ms ==> GoodMember(m)
    case List(inner, es) => AllWs(inner) && forall e :: e in es ==> GoodElement(e)
  }

  ghost predicate GoodMember(m: SpacedMember) {
    && AllWs(m.before) && AllWs(m.beforeColon) && AllWs(m.afterColon) && AllWs(m.after)
    && GoodString(m.key) && Good(m.value)
  }

  ghost predicate GoodElement(e: SpacedElement) { AllWs(e.before) && AllWs(e.after) && Good(e.value) }

  /** Trees whose lexemes the decoder would take whole. */
  ghost predicate WellFormed(v: Json) {
    match v
    case Obj(ms) => forall m :: m in ms ==> GoodString(m.key) && WellFormed(m.value)
    case Arr(vs) => forall x :: x in vs ==> WellFormed(x)
    case _ => GoodLeaf(v)
  }

  /** `t` stands in `s` at `i`. */
  ghost predicate At(s: string, i: nat, t: string) {
    i + |t| <= |s| && forall k :: 0 <= k < |t| ==> t[k] == s[i + k]
  }

  lemma AtPart(s: string, i: nat, t: string, k: nat, u: string)
    requires At(s, i, t) && At(t, k, u)
    ensures At(s, i + k, u)
  {
    forall j | 0 <= j < |u| ensures u[j] == s[i + k + j] { assert u[j] == t[k + j]; }
  }

  lemma AtChar(s: string, i: nat, t: string, k: nat)
    requires At(s, i, t) && k < |t|
    ensures i + k < |s| && s[i + k] == t[k]
  {
  }

  lemma AtCopied(s: string, i: nat, t: string)
    requires At(s, i, t)
    ensures Copied(t, s, i, 0, |t|)
  {
    forall k | 0 <= k < |t| ensures t[k] == s[k + i] { AtChar(s, i, t, k); }
  }

  lemma SplitAt(s: string, i: nat, p: string, tail: string)
    requires At(s, i, p + tail) && tail != ""
    ensures At(s, i, p) && At(s, i + |p|, tail) && i + |p| < |s| && s[i + |p|] == tail[0]
  {
    assert At(p + tail, 0, p) && At(p + tail, |p|, tail);
    AtPart(s, i, p + tail, 0, p);
    AtPart(s, i, p + tail, |p|, tail);
    AtChar(s, i + |p|, tail, 0);
  }

  lemma Delimiters()
    ensures !ContinuesNumber('}') && !ContinuesNumber(']') && !ContinuesNumber(',')
      && forall c :: IsWs(c) ==> !ContinuesNumber(c)
    ensures !IsWs('}') && !IsWs(']') && !IsWs('"') && !IsWs(',') && !IsWs(':')
  {
  }

  lemma PrintedString(s: string, i: nat, b: string)
    requires At(s, i, b + "\"") && StringEnd(b + "\"", 0) == |b| + 1
    ensures ScanString(s, i) == Ok(b, i + |b| + 1)
  {
    hide At;
    var t := b + "\"";
    AtCopied(s, i, t);
    ScanStringStable(t, 0, s, i, |t|);
    assert t[0..|b|] == b;
  }

  lemma PrintedNumber(s: string, i: nat, l: string)
    requires At(s, i, l) && GoodLeaf(Num(l)) && i + |l| < |s| && !ContinuesNumber(s[i + |l|])
    ensures Value(s, i) == Ok(Num(l), i + |l|)
  {
    hide NumberEnd, WordLength;
    var t := l + [s[i + |l|]];
    assert At(l + ",", 0, l) && At(t, 0, l) && At(s, i, t);
    NumberTaken(l, s[i + |l|]);
    AtCopied(s, i, t);
    NumberEndStable(t, 0, s, i);
    NumberIsNotAWord(t, 0, s, i);
    AtChar(s, i, l, 0);
    NumberStarts(s, i);
    assert s[i..i + |l|] == l;
  }

  /** The character after a complete lexeme does not matter as long as it cannot continue it. */
  lemma NumberTaken(l: string, c: char)
    requires GoodLeaf(Num(l)) && !ContinuesNumber(c)
    ensures NumberEnd(l + [c], 0) == |l|
  {
    NumberEndsAlike(l, ',', c);
  }

  lemma NumberStarts(s: string, i: nat)
    requires i < |s| && NumberEnd(s, i) > i
    ensures s[i] != '"' && s[i] != '{' && s[i] != '['
  {
  }

  lemma {:induction false} DigitsAlike(l: string, c: char, d: char, i: nat)
    requires i <= |l| && !IsDigit(c) && !IsDigit(d)
    ensures DigitsEnd(l + [c], i) == DigitsEnd(l + [d], i) <= |l|
    decreases |l| - i
  {
    if i < |l| { DigitsAlike(l, c, d, i + 1); }
  }

  /** Two texts that differ in one last character, which continues no number, have the same digit runs. */
  ghost predicate DigitsAgree(l: string, c: char, d: char) {
    && !ContinuesNumber(c) && !ContinuesNumber(d)
    && forall i :: 0 <= i <= |l| ==> DigitsEnd(l + [c], i) == DigitsEnd(l + [d], i) <= |l|
  }

  lemma IntegersAlike(l: string, c: char, d: char)
    requires DigitsAgree(l, c, d)
    ensures IntegerEnd(l + [c], 0) == IntegerEnd(l + [d], 0) <= |l|
  {
    hide DigitsEnd;
  }

  lemma FractionsAlike(l: string, c: char, d: char, i: nat)
    requires DigitsAgree(l, c, d) && i <= |l|
    ensures FractionEnd(l + [c], i) == FractionEnd(l + [d], i) <= |l|
  {
    hide DigitsEnd;
  }

  lemma ExponentsAlike(l: string, c: char, d: char, i: nat)
    requires DigitsAgree(l, c, d) && i <= |l|
    ensures ExponentEnd(l + [c], i) == ExponentEnd(l + [d], i)
  {
    hide DigitsEnd;
  }

  lemma NumberEndsAlike(l: string, c: char, d: char)
    requires !ContinuesNumber(c) && !ContinuesNumber(d)
    ensures NumberEnd(l + [c], 0) == NumberEnd(l + [d], 0)
  {
    hide DigitsEnd, IntegerEnd, FractionEnd, ExponentEnd;
    forall i | 0 <= i <= |l| ensures DigitsEnd(l + [c], i) == DigitsEnd(l + [d], i) <= |l| { DigitsAlike(l, c, d, i); }
    IntegersAlike(l, c, d);
    var j := IntegerEnd(l + [c], 0);
    FractionsAlike(l, c, d, j);
    ExponentsAlike(l, c, d, FractionEnd(l + [c], j));
  }

  lemma PrintedWord(s: string, i: nat, w: string)
    requires At(s, i, w) && GoodLeaf(Word(w))
    ensures Value(s, i) == Ok(Word(w), i + |w|)
  {
    AtCopied(s, i, w);
    WordLengthStable(w, 0, s, i);
    AtChar(s, i, w, 0);
    assert s[i..i + |w|] == w;
  }

  lemma NumberFirst(l: string)
    requires GoodLeaf(Num(l))
    ensures l[0] == '-' || IsDigit(l[0])
  {
    assert (l + ",")[0] == l[0];
  }

  // --------------------------------------------------------------- decoding

  lemma {:induction false} WsSkipped(s: string, i: nat, w: string, tail: string)
    requires At(s, i, w + tail) && AllWs(w) && tail != "" && !IsWs(tail[0])
    ensures SkipWs(s, i) == i + |w| && At(s, i + |w|, tail) && i + |w| < |s| && s[i + |w|] == tail[0]
    decreases |w|
  {
    SplitAt(s, i, w, tail);
    if w != "" {
      AtChar(s, i, w + tail, 0);
      assert (w + tail)[0] == w[0];
      assert w + tail == [w[0]] + (w[1..] + tail);
      SplitAt(s, i, [w[0]], w[1..] + tail);
      hide At, IsWs;
      WsSkipped(s, i + 1, w[1..], tail);
    }
  }

  lemma {:induction false} PrintNonempty(v: Spaced)
    requires Good(v)
    ensures |Print(v)| > 0 && !IsWs(Print(v)[0]) && Print(v)[0] != ']' && Print(v)[0] != '}'
  {
    if v.Leaf? && v.value.Num? { NumberFirst(v.value.lexeme); }
  }

  lemma PrintedLeaf(s: string, i: nat, x: Json)
    requires GoodLeaf(x) && At(s, i, LeafText(x))
    requires x.Num? ==> i + |x.lexeme| < |s| && !ContinuesNumber(s[i + |x.lexeme|])
    ensures Value(s, i) == Ok(x, i + |LeafText(x)|)
  {
    hide WordLength, NumberEnd, ScanString, StringEnd, SkipWs, Members, Elements, At;
    match x
    case Num(l) => PrintedNumber(s, i, l);
    case Word(w) => PrintedWord(s, i, w);
    case Str(b) =>
      SplitAt(s, i, "\"", b + "\"");
      AtChar(s, i, "\"", 0);
      PrintedString(s, i + 1, b);
  }

  /** Whatever the white space, a text is decoded to its tree wherever it stands. */
  lemma {:induction false} PrintedValue(s: string, i: nat, v: Spaced)
    requires Good(v) && At(s, i, Print(v))
    requires v.Leaf? && v.value.Num? ==> i + |Print(v)| < |s| && !ContinuesNumber(s[i + |Print(v)|])
    ensures Value(s, i) == Ok(Tree(v), i + |Print(v)|)
    decreases v, 1
  {
    hide WordLength, NumberEnd, ScanString, SkipWs, Members, Elements, At, AllWs, GoodLeaf, IsWs;
    Delimiters();
    match v
    case Leaf(x) => PrintedLeaf(s, i, x);
    case Object(inner, ms) =>
      var rest := if ms == [] then inner + "}" else PrintMembers(ms);
      Opened(s, i, "{", rest, |ms| == 0, inner, "}");
      if ms != [] { PrintedMembers(s, i + 1, ms); }
    case List(inner, es) =>
      var rest := if es == [] then inner + "]" else PrintElements(es);
      Opened(s, i, "[", rest, |es| == 0, inner, "]");
      if es != [] { PrintedElements(s, i + 1, es); }
  }

  /** An opening character, and the closing one when nothing but white space is between them. */
  lemma Opened(s: string, i: nat, open: string, rest: string, empty: bool, inner: string, close: string)
    requires At(s, i, open + rest) && |open| == |close| == 1 && rest != "" && !IsWs(close[0])
    requires empty ==> rest == inner + close && AllWs(inner)
    ensures i < |s| && s[i] == open[0] && At(s, i + 1, rest)
    ensures empty ==> SkipWs(s, i + 1) == i + 1 + |inner| < |s| && s[i + 1 + |inner|] == close[0]
  {
    hide At, SkipWs, AllWs;
    SplitAt(s, i, open, rest);
    AtChar(s, i, open, 0);
    if empty { WsSkipped(s, i + 1, inner, close); }
  }

  /** The quoted key, the colon and the white space around them. */
  lemma PrintedKey(s: string, i: nat, m: SpacedMember, rest: string)
    requires At(s, i, KeyText(m, rest)) && GoodMember(m) && rest != "" && !IsWs(rest[0])
    ensures var j := i + |m.before|; var p := j + |m.key| + |m.beforeColon| + |m.afterColon| + 3;
      && SkipWs(s, i) == j < |s| && s[j] == '"' && Key(s, j) == Ok(m.key, p) && At(s, p, rest)
  {
    hide ScanString, StringEnd, SkipWs, At, AllWs, IsWs;
    assert !IsWs('"') && !IsWs(':') by { Delimiters(); }
    var t3 := ":" + (m.afterColon + rest);
    var t2 := (m.key + "\"") + (m.beforeColon + t3);
    var j := i + |m.before|;
    WsSkipped(s, i, m.before, "\"" + t2);
    SplitAt(s, j, "\"", t2);
    SplitAt(s, j + 1, m.key + "\"", m.beforeColon + t3);
    PrintedString(s, j + 1, m.key);
    var k := j + |m.key| + 2;
    WsSkipped(s, k, m.beforeColon, t3);
    SplitAt(s, k + |m.beforeColon|, ":", m.afterColon + rest);
    WsSkipped(s, k + |m.beforeColon| + 1, m.afterColon, rest);
  }

  /** After an item: white space, then the closing character, or a comma and the next item. */
  lemma PrintedSeparator(s: string, i: nat, w: string, close: char, tail: string)
    requires At(s, i, w + tail) && AllWs(w) && (close == '}' || close == ']') && tail != ""
    requires tail == [close] || (tail[0] == ',' && |tail| > 1)
    ensures i < |s| && !ContinuesNumber(s[i])
    ensures tail == [close] ==> Separate(s, i, close) == Closed(i + |w| + 1)
    ensures tail[0] == ',' ==> var n := i + |w| + 1; At(s, n, tail[1..]) && Separate(s, i, close) == More(SkipWs(s, n))
  {
    Delimiters();
    WsSkipped(s, i, w, tail);
    AtChar(s, i, w + tail, 0);
    assert (w + tail)[0] == if w == "" then tail[0] else w[0];
    if tail[0] == ',' {
      assert tail == "," + tail[1..];
      SplitAt(s, i + |w|, ",", tail[1..]);
    }
  }

  lemma {:induction false} PrintedMembers(s: string, i: nat, ms: seq<SpacedMember>)
    requires ms != [] && (forall m :: m in ms ==> GoodMember(m)) && At(s, i, PrintMembers(ms))
    ensures var j := i + |ms[0].before|; SkipWs(s, i) == j < |s| && s[j] == '"'
    ensures Members(s, i + |ms[0].before|) == Ok(MemberTrees(ms), i + |PrintMembers(ms)|)
    decreases ms, 0
  {
    hide Value, Key, Separate, At, Print, StringEnd, ContinuesNumber, IsWs, SkipWs, AllWs, Good, KeyText;
    var m := ms[0];
    assert m in ms;
    var last := |ms| == 1;
    var tail := if last then "}" else "," + PrintMembers(ms[1..]);
    var p := Print(m.value);
    PrintNonempty(m.value);
    KeyTextLength(m, p + (m.after + tail));
    PrintedKey(s, i, m, p + (m.after + tail));
    var k := i + |m.before| + |m.key| + |m.beforeColon| + |m.afterColon| + 3;
    SplitAt(s, k, p, m.after + tail);
    if !last { PrintMembersNonempty(ms[1..]); }
    PrintedSeparator(s, k + |p|, m.after, '}', tail);
    PrintedValue(s, k, m.value);
    if last {
      assert tail == ['}'] && MemberTrees(ms) == [Member(m.key, Tree(m.value))];
    } else {
      assert tail[1..] == PrintMembers(ms[1..]);
      PrintedMembers(s, k + |p| + |m.after| + 1, ms[1..]);
    }
  }

  lemma KeyTextLength(m: SpacedMember, rest: string)
    ensures |KeyText(m, rest)| == |m.before| + |m.key| + |m.beforeColon| + |m.afterColon| + 3 + |rest|
  {
  }

  lemma PrintMembersNonempty(ms: seq<SpacedMember>)
    requires ms != []
    ensures PrintMembers(ms) != ""
  {
  }

  lemma {:induction false} PrintedElements(s: string, i: nat, es: seq<SpacedElement>)
    requires es != [] && (forall e :: e in es ==> GoodElement(e)) && At(s, i, PrintElements(es))
    ensures var j := i + |es[0].before|; SkipWs(s, i) == j < |s| && s[j] != ']'
    ensures Elements(s, i + |es[0].before|) == Ok(ElementTrees(es), i + |PrintElements(es)|)
    decreases es, 0
  {
    hide Value, Separate, At, Print, ContinuesNumber, IsWs, SkipWs, AllWs, Good;
    var e := es[0];
    assert e in es;
    var last := |es| == 1;
    var tail := if last then "]" else "," + PrintElements(es[1..]);
    var p := Print(e.value);
    PrintNonempty(e.value);
    var k := i + |e.before|;
    WsSkipped(s, i, e.before, p + (e.after + tail));
    SplitAt(s, k, p, e.after + tail);
    if !last { PrintElementsNonempty(es[1..]); }
    PrintedSeparator(s, k + |p|, e.after, ']', tail);
    PrintedValue(s, k, e.value);
    if last {
      assert tail == [']'] && ElementTrees(es) == [Tree(e.value)];
    } else {
      assert tail[1..] == PrintElements(es[1..]);
      PrintedElements(s, k + |p| + |e.after| + 1, es[1..]);
    }
  }

  lemma PrintElementsNonempty(es: seq<SpacedElement>)
    requires es != [] && forall e :: e in es ==> GoodElement(e)
    ensures PrintElements(es) != ""
  {
    assert es[0] in es;
    PrintNonempty(es[0].value);
  }

  /** Whatever the white space inside it, an object's text decodes to the object and is used up. */
  lemma PrintedObject(v: Spaced)
    requires Good(v) && v.Object?
    ensures Value(Print(v), 0) == Ok(Tree(v), |Print(v)|)
  {
    hide Print, Tree, Value, Good;
    assert At(Print(v), 0, Print(v));
    PrintedValue(Print(v), 0, v);
  }
}
