/**
 How far the reader goes beyond RFC 8259.  It skips every character that `str.isspace`
 accepts around elements where section 2 allows four, and its decoder takes NaN, Infinity
 and -Infinity, which section 3 excludes.  Nothing else is accepted beyond the grammar.
 */
module StrictArray {
  import opened Prelude
  import opened Text
  import opened Json
  import opened JsonPrint
  import opened JsonParse
  import opened JsonGrammar
  import opened JsonArrayReader
  import opened JsonArrayLayout
  import opened JsonRoundTrip

  /** An array of objects by the grammar, with the white space around it. */
  datatype ArrayText = ArrayText(open: string, inner: string, elements: seq<SpacedElement>, close: string)

  ghost predicate GrammarArray(t: ArrayText) {
    && AllWs(t.open) && AllWs(t.close) && Grammar(List(t.inner, t.elements))
    && forall e :: e in t.elements ==> e.value.Object?
  }

  function TextOf(t: ArrayText): string { t.open + Print(List(t.inner, t.elements)) + t.close }

  /** The text is an array of objects by the grammar of RFC 8259. */
  ghost predicate StrictArray(s: string) { exists t :: GrammarArray(t) && TextOf(t) == s }

  // ---------------------------------------------------------- strict layouts

  ghost predicate StandardTree(v: Json) {
    match v
    case Obj(ms) => forall m :: m in ms ==> StandardTree(m.value)
    case Arr(vs) => forall x :: x in vs ==> StandardTree(x)
    case Word(w) => StandardWord(w)
    case _ => true
  }

  ghost predicate StrictPiece(p: Piece) { AllWs(p.before) && AllWs(p.after) && StandardTree(p.item) }

  /** Only grammar white space around the elements, and only grammar words; `inner` stands in an empty array alone. */
  ghost predicate Strict(l: Layout) {
    && AllWs(l.open) && AllWs(l.close) && (l.pieces == [] ==> AllWs(l.inner))
    && forall k :: 0 <= k < |l.pieces| ==> StrictPiece(l.pieces[k])
  }

  lemma {:induction false} StandardText(v: Spaced)
    requires JsonPrint.Good(v)
    ensures Standard(v) <==> StandardTree(Tree(v))
    decreases v, 1
  {
    hide GoodLeaf, AllWs, GoodMember, GoodElement;
    match v
    case Leaf(x) => StandardLeaf(x);
    case Object(_, ms) => StandardMembers(ms);
    case List(_, es) => StandardElements(es);
  }

  lemma StandardLeaf(x: Json)
    requires GoodLeaf(x)
    ensures StandardTree(x) <==> (x.Word? ==> StandardWord(x.name))
  {
  }

  lemma {:induction false} StandardMembers(ms: seq<SpacedMember>)
    requires forall m :: m in ms ==> GoodMember(m)
    ensures (forall m :: m in ms ==> Standard(m.value)) <==> forall x :: x in MemberTrees(ms) ==> StandardTree(x.value)
    decreases ms, 0
  {
    hide GoodString, AllWs, JsonPrint.Good, Standard, StandardTree, Tree;
    if ms != [] {
      assert ms[0] in ms;
      StandardText(ms[0].value);
      StandardMembers(ms[1..]);
      var x := Member(ms[0].key, Tree(ms[0].value));
      assert MemberTrees(ms) == [x] + MemberTrees(ms[1..]);
      assert x in MemberTrees(ms);
      assert ms == [ms[0]] + ms[1..];
    }
  }

  lemma {:induction false} StandardElements(es: seq<SpacedElement>)
    requires forall e :: e in es ==> GoodElement(e)
    ensures (forall e :: e in es ==> Standard(e.value)) <==> forall x :: x in ElementTrees(es) ==> StandardTree(x)
    decreases es, 0
  {
    hide AllWs, JsonPrint.Good, Standard, StandardTree, Tree;
    if es != [] {
      assert es[0] in es;
      StandardText(es[0].value);
      StandardElements(es[1..]);
      var x := Tree(es[0].value);
      assert ElementTrees(es) == [x] + ElementTrees(es[1..]);
      assert x in ElementTrees(es);
      assert es == [es[0]] + es[1..];
    }
  }

  // ------------------------------------------------------ the exact condition

  /** A grammar array as a layout. */
  lemma LayoutOf(t: ArrayText) returns (l: Layout)
    requires GrammarArray(t)
    ensures JsonArrayLayout.Good(l) && Strict(l) && Render(l) == TextOf(t)
  {
    hide AllWs, AllSpace, Print, Render, StandardTree, Grammar, Value, Tree;
    l := Layout(t.open, Pieces(t.elements), t.inner, t.close);
    RenderedList(t.open, t.inner, t.elements, t.close);
    GrammarElements(t.inner, t.elements);
    forall k | 0 <= k < |l.pieces| ensures GoodPiece(l.pieces[k]) && StrictPiece(l.pieces[k]) {
      ElementPiece(t.elements[k]);
    }
    WsIsSpace(t.open);
    WsIsSpace(t.inner);
    WsIsSpace(t.close);
  }

  lemma GrammarElements(inner: string, es: seq<SpacedElement>)
    requires Grammar(List(inner, es))
    ensures AllWs(inner) && forall k :: 0 <= k < |es| ==> GrammarElement(es[k])
  {
  }

  lemma ElementPiece(e: SpacedElement)
    requires GrammarElement(e) && e.value.Object?
    ensures var p := Piece(e.before, Print(e.value), e.after, Tree(e.value)); GoodPiece(p) && StrictPiece(p)
  {
    hide AllWs, AllSpace, Print, StandardTree, Grammar, JsonPrint.Good, Standard, Value;
    GrammarIsStandard(e.value);
    StandardText(e.value);
    PrintedObject(e.value);
    WsIsSpace(e.before);
    WsIsSpace(e.after);
  }

  /** A strict piece as a grammar element. */
  lemma PieceElement(p: Piece) returns (e: SpacedElement)
    requires GoodPiece(p) && StrictPiece(p)
    ensures GrammarElement(e) && e.value.Object? && p == Piece(e.before, Print(e.value), e.after, Tree(e.value))
  {
    hide AllWs, AllSpace, Print, StandardTree, Grammar, JsonPrint.Good, Standard, Value;
    ObjectTexts(p.text, p.item);
    var x :| JsonPrint.Good(x) && x.Object? && Tree(x) == p.item && Print(x) == p.text;
    StandardText(x);
    GrammarIsStandard(x);
    e := SpacedElement(p.before, x, p.after);
  }

  lemma {:induction false} PieceElements(ps: seq<Piece>) returns (es: seq<SpacedElement>)
    requires forall k :: 0 <= k < |ps| ==> GoodPiece(ps[k]) && StrictPiece(ps[k])
    ensures Pieces(es) == ps && forall e :: e in es ==> GrammarElement(e) && e.value.Object?
  {
    hide GoodPiece, StrictPiece, GrammarElement, Print, Tree;
    if ps == [] {
      es := [];
    } else {
      var e := PieceElement(ps[0]);
      var rest := PieceElements(ps[1..]);
      es := [e] + rest;
      assert Pieces(es) == [Pieces(es)[0]] + Pieces(rest);
    }
  }

  /** A strict layout as a grammar array. */
  lemma ArrayOf(l: Layout) returns (t: ArrayText)
    requires JsonArrayLayout.Good(l) && Strict(l)
    ensures GrammarArray(t) && TextOf(t) == Render(l)
  {
    hide AllWs, AllSpace, GoodPiece, StrictPiece, GrammarElement, Print;
    var es := PieceElements(l.pieces);
    var inner := if l.pieces == [] then l.inner else "";
    NoWs();
    t := ArrayText(l.open, inner, es, l.close);
    RenderedList(l.open, inner, es, l.close);
  }

  /** Every grammar array is accepted; an accepted text is one exactly when its one layout is strict. */
  lemma AcceptedIsStrictIff(s: string, l: Layout)
    requires JsonArrayLayout.Good(l) && Render(l) == s
    ensures ReadArray(s, None) == Reading(Items(l.pieces), Done)
    ensures StrictArray(s) <==> Strict(l)
  {
    hide ReadArray, Render, JsonArrayLayout.Good, StrictPiece, AllWs, GrammarArray, TextOf;
    LayoutReads(l);
    if StrictArray(s) {
      var t :| GrammarArray(t) && TextOf(t) == s;
      var m := LayoutOf(t);
      SameLayout(l, m);
    }
    if Strict(l) {
      var t := ArrayOf(l);
    }
  }

  /** Every array of objects by the grammar is accepted. */
  lemma StrictIsAccepted(s: string)
    requires StrictArray(s)
    ensures ReadArray(s, None).ending.Done?
  {
    hide ReadArray, Render, JsonArrayLayout.Good, Strict, GrammarArray, TextOf;
    var t :| GrammarArray(t) && TextOf(t) == s;
    var l := LayoutOf(t);
    LayoutReads(l);
  }

  // --------------------------------------------------------- outside grammar

  /** Outside the grammar: any space that is not white space there, in front of an empty array. */
  lemma OtherSpaceAccepted(c: char)
    requires IsSpace(c) && !IsWs(c)
    ensures ReadArray([c] + "[]", None) == Reading([], Done) && !StrictArray([c] + "[]")
  {
    var l := Layout([c], [], "", "");
    assert Render(l) == [c] + "[]";
    hide ReadArray, Render, IsSpace, IsWs, StrictArray;
    assert !AllWs(l.open) by { assert !IsWs(l.open[0]); }
    AcceptedIsStrictIff([c] + "[]", l);
  }

  /** Such as the no-break space. */
  lemma NoBreakSpaceAccepted()
    ensures ReadArray("\U{00A0}[]", None) == Reading([], Done) && !StrictArray("\U{00A0}[]")
  {
    hide ReadArray, StrictArray;
    OtherSpaceAccepted('\U{00A0}');
    assert ['\U{00A0}'] + "[]" == "\U{00A0}[]";
  }

  /** Outside the grammar: an object that holds one of the three other words. */
  lemma OtherWordAccepted(w: string)
    requires OtherWord(w)
    ensures ReadArray("[{\"x\":" + w + "}]", None) == Reading([Obj([Member("x", Word(w))])], Done)
    ensures !StrictArray("[{\"x\":" + w + "}]")
  {
    hide ReadArray, AllSpace, AllWs, Render, JsonArrayLayout.Good, StandardTree, Print, Tree, StrictArray;
    var x := Object("", [SpacedMember("", "x", "", "", Leaf(Word(w)), "")]);
    var l := OtherWordLayout(x, w);
    NotStandard(w);
    assert !StrictPiece(l.pieces[0]);
    AcceptedIsStrictIff(Render(l), l);
  }

  lemma NotStandard(w: string)
    requires !StandardWord(w)
    ensures !StandardTree(Obj([Member("x", Word(w))]))
  {
    var m := Member("x", Word(w));
    assert !StandardTree(m.value);
    assert m in [m];
  }

  lemma OtherWordLayout(x: Spaced, w: string) returns (l: Layout)
    requires OtherWord(w)
    requires x == Object("", [SpacedMember("", "x", "", "", Leaf(Word(w)), "")])
    ensures JsonArrayLayout.Good(l) && Render(l) == "[{\"x\":" + w + "}]"
    ensures Items(l.pieces) == [Obj([Member("x", Word(w))])] && |l.pieces| == 1
      && l.pieces[0].item == Items(l.pieces)[0]
  {
    hide Value, Print, JsonPrint.Good, Tree;
    GoodExample(x, w);
    PrintedObject(x);
    ExampleText(x.members[0], w);
    assert x.members == [x.members[0]];
    l := OneItem(Print(x), Tree(x));
    InBrackets(w);
  }

  lemma InBrackets(w: string)
    ensures "[" + ("{\"x\":" + w + "}") + "]" == "[{\"x\":" + w + "}]"
  {
  }

  /** An array of one object without spaces. */
  lemma OneItem(t: string, v: Json) returns (l: Layout)
    requires IsObjectText(t, v)
    ensures JsonArrayLayout.Good(l) && Render(l) == "[" + t + "]"
    ensures |l.pieces| == 1 && l.pieces[0].item == v && Items(l.pieces) == [v]
  {
    hide Value;
    var p := Piece("", t, "", v);
    l := Layout("", [p], "", "");
    assert RenderTail([p], "") == t + "]";
  }

  lemma ExampleText(m: SpacedMember, w: string)
    requires m == SpacedMember("", "x", "", "", Leaf(Word(w)), "")
    ensures var x := Object("", [m]); Tree(x) == Obj([Member("x", Word(w))]) && Print(x) == "{\"x\":" + w + "}"
  {
    assert Tree(m.value) == Word(w) && Print(m.value) == w;
    assert MemberTrees([m]) == [Member("x", Word(w))];
    assert PrintMembers([m]) == KeyText(m, w + ("" + "}"));
    assert PrintMembers([m]) == "\"x\":" + w + "}";
  }

  lemma GoodExample(x: Spaced, w: string)
    requires OtherWord(w)
    requires x == Object("", [SpacedMember("", "x", "", "", Leaf(Word(w)), "")])
    ensures JsonPrint.Good(x)
  {
    assert GoodString("x") by { assert ("x" + "\"")[1] == '"'; }
    WordsAgree(w);
  }
}
