/**
 Printing a list of objects as an array and reading it back.  `ReadArray` is what
 `ReadRecords` computes for every chunk size.
 */
module JsonRoundTrip {
  import opened Prelude
  import opened Json
  import opened JsonPrint
  import opened JsonParse
  import opened JsonArrayReader
  import opened JsonArrayLayout

  /** Each element's text between the space before and after it. */
  function Pieces(es: seq<SpacedElement>): (ps: seq<Piece>)
    ensures |ps| == |es|
    ensures forall k :: 0 <= k < |es| ==>
      ps[k] == Piece(es[k].before, Print(es[k].value), es[k].after, Tree(es[k].value))
  {
    seq(|es|, k requires 0 <= k < |es| => Piece(es[k].before, Print(es[k].value), es[k].after, Tree(es[k].value)))
  }

  lemma {:induction false} PiecesItems(es: seq<SpacedElement>)
    ensures Items(Pieces(es)) == ElementTrees(es)
  {
    if es != [] {
      assert Pieces(es)[1..] == Pieces(es[1..]);
      PiecesItems(es[1..]);
    }
  }

  /** An object with any white space inside it, and any space around it. */
  ghost predicate SpacedObject(e: SpacedElement) {
    e.value.Object? && JsonPrint.Good(e.value) && AllSpace(e.before) && AllSpace(e.after)
  }

  /** For every list of objects and every space inside and around them, printing and reading returns the list. */
  lemma PrintedArrayReads(es: seq<SpacedElement>, open: string, inner: string, close: string)
    requires forall k :: 0 <= k < |es| ==> SpacedObject(es[k])
    requires AllSpace(open) && AllSpace(inner) && AllSpace(close)
    ensures ReadArray(Render(Layout(open, Pieces(es), inner, close)), None) == Reading(ElementTrees(es), Done)
  {
    hide Render, ReadArray, Print, AllSpace, JsonPrint.Good, Value;
    var l := Layout(open, Pieces(es), inner, close);
    forall k | 0 <= k < |es| ensures GoodPiece(l.pieces[k]) {
      assert SpacedObject(es[k]);
      PrintedObject(es[k].value);
    }
    PiecesItems(es);
    LayoutReads(l);
  }

  /** The rendered pieces are the printed elements. */
  lemma {:induction false} RenderedElements(es: seq<SpacedElement>, close: string)
    requires es != []
    ensures RenderTail(Pieces(es), close) == PrintElements(es) + close
  {
    hide Print, Tree;
    var e, ps := es[0], Pieces(es);
    if |es| == 1 {
      assert e.before + Print(e.value) + e.after + ("]" + close) ==
        e.before + (Print(e.value) + (e.after + "]")) + close;
    } else {
      assert ps[1..] == Pieces(es[1..]);
      RenderedElements(es[1..], close);
      var rest := PrintElements(es[1..]);
      assert e.before + Print(e.value) + e.after + ("," + (rest + close)) ==
             e.before + (Print(e.value) + (e.after + ("," + rest))) + close;
    }
  }

  /** So an array's text is the rendering of its layout. */
  lemma RenderedList(open: string, inner: string, es: seq<SpacedElement>, close: string)
    ensures Render(Layout(open, Pieces(es), inner, close)) == open + Print(List(inner, es)) + close
  {
    hide PrintElements, RenderTail, Tree;
    if es == [] {
      assert open + "[" + (inner + "]" + close) == open + ("[" + (inner + "]")) + close;
    } else {
      RenderedElements(es, close);
      assert open + "[" + (PrintElements(es) + close) == open + ("[" + PrintElements(es)) + close;
    }
  }

  lemma WsIsSpace(w: string)
    requires AllWs(w)
    ensures AllSpace(w)
  {
  }

  /** The text of a list of objects reads back as the list. */
  lemma ListReads(inner: string, es: seq<SpacedElement>)
    requires JsonPrint.Good(List(inner, es)) && forall e :: e in es ==> e.value.Object?
    ensures ReadArray(Print(List(inner, es)), None) == Reading(ElementTrees(es), Done)
  {
    hide ReadArray, Print, AllWs, AllSpace, Render;
    forall k | 0 <= k < |es| ensures SpacedObject(es[k]) {
      assert es[k] in es && GoodElement(es[k]);
      WsIsSpace(es[k].before);
      WsIsSpace(es[k].after);
    }
    WsIsSpace(inner);
    WsIsSpace("") by { NoWs(); }
    PrintedArrayReads(es, "", inner, "");
    RenderedList("", inner, es, "");
    assert "" + Print(List(inner, es)) + "" == Print(List(inner, es));
  }

  // ------------------------------------------------------------- json.dumps

  ghost predicate Objects(vs: seq<Json>) { forall v :: v in vs ==> v.Obj? && WellFormed(v) }

  lemma {:induction false} DumpedObjects(vs: seq<Json>, indent: Option<nat>, level: nat, first: bool)
    requires level > 0 && forall v :: v in vs ==> v.Obj?
    ensures forall e :: e in DumpElements(vs, indent, level, first) ==> e.value.Object?
  {
    hide Before, NewLine;
    if vs != [] { DumpedObjects(vs[1..], indent, level, false); }
  }

  /** `json.dumps` of a list of objects, on one line or with any indent, reads back as the list. */
  lemma DumpReads(vs: seq<Json>, indent: Option<nat>)
    requires Objects(vs)
    ensures ReadArray(Print(Dump(Arr(vs), indent, 0)), None) == Reading(vs, Done)
  {
    hide ReadArray, Print, JsonPrint.Good, WellFormed, DumpElements;
    assert WellFormed(Arr(vs)) by { ListWellFormed(vs); }
    DumpIsText(Arr(vs), indent, 0);
    DumpedObjects(vs, indent, 1, true);
    ListReads("", DumpElements(vs, indent, 1, true));
  }

  lemma ListWellFormed(vs: seq<Json>)
    requires forall v :: v in vs ==> WellFormed(v)
    ensures WellFormed(Arr(vs))
  {
  }

  lemma {:induction false} ItemAt(ps: seq<Piece>, k: nat)
    requires k < |ps|
    ensures Items(ps)[k] == ps[k].item
  {
    if k > 0 { ItemAt(ps[1..], k - 1); }
  }

  /** What a reading yields is well-formed. */
  lemma ItemsWellFormed(l: Layout)
    requires JsonArrayLayout.Good(l)
    ensures Objects(Items(l.pieces))
  {
    hide Value, WellFormed, AllSpace;
    forall v | v in Items(l.pieces) ensures v.Obj? && WellFormed(v) {
      var k :| 0 <= k < |Items(l.pieces)| && Items(l.pieces)[k] == v;
      ItemAt(l.pieces, k);
      assert GoodPiece(l.pieces[k]);
      ReadDumpRead(l.pieces[k].text, 0, None);
    }
  }

  /** A text that ends normally yields what the `json.dumps` of its objects yields. */
  lemma ReadDumpReadArray(text: string, indent: Option<nat>)
    requires ReadArray(text, None).ending.Done?
    ensures ReadArray(Print(Dump(Arr(ReadArray(text, None).items), indent, 0)), None) == ReadArray(text, None)
  {
    hide ReadArray, Print, Dump, JsonArrayLayout.Good;
    var l := Recover(text);
    ItemsWellFormed(l);
    DumpReads(ReadArray(text, None).items, indent);
  }
}
