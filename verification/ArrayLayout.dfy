/**
 What the whole-text reference accepts: exactly the texts laid out as an array of
 object texts with spaces around them.  With `ReadRecords` this makes printing a
 list of objects and streaming it back, in any chunks, the identity.
 */
module JsonArrayLayout {
  import opened Prelude
  import opened Json
  import opened JsonStable
  import opened JsonArrayReader
  import opened Text

  /** One object's own text and the space on both sides of it. */
  datatype Piece = Piece(before: string, text: string, after: string, item: Json)

  datatype Layout = Layout(open: string, pieces: seq<Piece>, inner: string, close: string)

  ghost predicate AllSpace(s: string) { forall k :: 0 <= k < |s| ==> IsSpace(s[k]) }

  ghost predicate IsObjectText(t: string, v: Json) { Value(t, 0) == Ok(v, |t|) && v.Obj? }

  ghost predicate GoodPiece(p: Piece) { AllSpace(p.before) && AllSpace(p.after) && IsObjectText(p.text, p.item) }

  ghost predicate Good(l: Layout) {
    && AllSpace(l.open) && AllSpace(l.inner) && AllSpace(l.close)
    && forall k :: 0 <= k < |l.pieces| ==> GoodPiece(l.pieces[k])
  }

  function Items(ps: seq<Piece>): (vs: seq<Json>)
    ensures |vs| == |ps|
  {
    if ps == [] then [] else [ps[0].item] + Items(ps[1..])
  }

  /** Pieces joined by commas, then the closing bracket and what follows it. */
  function RenderTail(ps: seq<Piece>, close: string): string
    requires ps != []
  {
    ps[0].before + ps[0].text + ps[0].after + (if |ps| == 1 then "]" + close else "," + RenderTail(ps[1..], close))
  }

  function Render(l: Layout): string {
    l.open + "[" + (if l.pieces == [] then l.inner + "]" + l.close else RenderTail(l.pieces, l.close))
  }

  function OneLess(left: Option<nat>): Option<nat>
    requires left.Some? ==> left.value > 0
  {
    if left.Some? then Some(left.value - 1) else None
  }

  /** How an element and what follows it read; `c` is where the separator stands. */
  lemma ElementStep(s: string, i: nat, c: nat, left: Option<nat>)
    requires i <= |s| && Value(s, i).Ok? && Value(s, i).value.Obj? && c == SkipSpace(s, Value(s, i).end)
    requires left.Some? ==> left.value > 1
    ensures AtElement(s, i, left) == Prepend([Value(s, i).value],
      if c == |s| then Failed(Truncated)
      else if s[c] == ']' then AfterArray(s, c + 1)
      else if s[c] != ',' then Failed(ExpectedSeparator)
      else if SkipSpace(s, c + 1) == |s| then Failed(Truncated)
      else if s[SkipSpace(s, c + 1)] == ']' then Failed(TrailingComma)
      else AtElement(s, SkipSpace(s, c + 1), OneLess(left)))
  {
    hide Value, IsSpace, SkipSpace, AfterArray;
    var e := Value(s, i).end;
    assert AtElement(s, i, left) == Yield(s, e, Value(s, i).value, left);
    assert Yield(s, e, Value(s, i).value, left) == Prepend([Value(s, i).value], AfterElement(s, e, OneLess(left)));
    if c < |s| && s[c] == ',' {
      assert AfterElement(s, e, OneLess(left)) == AfterComma(s, c + 1, OneLess(left));
    }
  }

  /** A limit of `n` objects keeps the first `n` and stops there; a larger one changes nothing. */
  ghost function Limited(all: Reading, n: nat): Reading {
    if n <= |all.items| then Reading(all.items[..n], Done) else all
  }

  lemma {:induction false} LimitedElement(s: string, i: nat, n: nat)
    requires i <= |s| && n > 0
    ensures AtElement(s, i, Some(n)) == Limited(AtElement(s, i, None), n)
    decreases |s| - i
  {
    hide Value, IsSpace, SkipSpace, AfterArray, AtElement;
    ElementCases(s, i, n);
    if Value(s, i).Ok? && Value(s, i).value.Obj? {
      var c := SkipSpace(s, Value(s, i).end);
      ElementStep(s, i, c, None);
      if n > 1 {
        ElementStep(s, i, c, Some(n));
        if c < |s| && s[c] == ']' { NoItemsAfter(s, c + 1); }
        if c < |s| && s[c] == ',' { LimitedElement(s, SkipSpace(s, c + 1), n - 1); }
      }
    }
  }

  lemma NoItemsAfter(s: string, i: nat)
    requires i <= |s|
    ensures AfterArray(s, i).items == []
  {
  }

  lemma ElementCases(s: string, i: nat, n: nat)
    requires i <= |s|
    ensures !(Value(s, i).Ok? && Value(s, i).value.Obj?) ==>
              AtElement(s, i, Some(n)) == AtElement(s, i, None) && AtElement(s, i, None).items == []
    ensures Value(s, i).Ok? && Value(s, i).value.Obj? && n == 1 ==>
              AtElement(s, i, Some(n)) == Reading([Value(s, i).value], Done)
  {
    hide Value, AfterElement;
  }

  lemma LimitTakesPrefix(s: string, n: int)
    ensures ReadArray(s, Some(n)) == if n <= 0 then Reading([], Done) else Limited(ReadArray(s, None), n)
  {
    hide IsSpace, SkipSpace, AtElement, AfterArray;
    var o := SkipSpace(s, 0);
    if n > 0 && o < |s| && s[o] == '[' && SkipSpace(s, o + 1) < |s| {
      var j := SkipSpace(s, o + 1);
      if s[j] == ']' { NoItemsAfter(s, j + 1); } else { LimitedElement(s, j, n); }
    }
  }

  // -------------------------------------------------------------- accepting

  lemma {:induction false} SkipsAll(s: string, i: nat, w: string)
    requires AllSpace(w) && i + |w| <= |s| && s[i..i + |w|] == w
    requires i + |w| < |s| ==> !IsSpace(s[i + |w|])
    ensures SkipSpace(s, i) == i + |w|
    decreases |w|
  {
    hide IsSpace;
    if w != "" {
      assert s[i] == s[i..i + |w|][0] == w[0];
      assert s[i + 1..i + |w|] == s[i..i + |w|][1..] == w[1..];
      SkipsAll(s, i + 1, w[1..]);
    }
  }

  /** An object's text is decoded in place wherever it stands. */
  lemma ObjectInPlace(s: string, i: nat, t: string, v: Json)
    requires i + |t| <= |s| && s[i..i + |t|] == t && IsObjectText(t, v)
    ensures Value(s, i) == Ok(v, i + |t|) && v.Obj? && s[i] == '{'
  {
    hide Members, Elements, WordLength, NumberEnd, SkipWs, ScanString;
    forall k | 0 <= k < |t| ensures t[k] == s[k + i] { assert s[i..i + |t|][k] == s[i + k]; }
    ValueStable(t, 0, s, i);
    assert t[0] == s[0 + i];
  }

  /**
   Reading one piece: skip its space, decode its object, skip to what follows; this cuts the piece
   out of the text.
   */
  lemma PieceIs(s: string, i: nat, p: Piece, rest: string)
    requires GoodPiece(p) && (rest == "" || !IsSpace(rest[0]))
    requires i <= |s| && s[i..] == p.before + p.text + p.after + rest
    ensures var a := SkipSpace(s, i); a < |s| && s[a] == '{' && p.item.Obj?
    ensures var a := SkipSpace(s, i); Value(s, a).Ok? && var e := Value(s, a).end; var c := SkipSpace(s, e);
      p == Piece(s[i..a], s[a..e], s[e..c], Value(s, a).value) && s[c..] == rest
  {
    hide Value, IsSpace, SkipSpace, AllSpace, IsObjectText;
    var a := i + |p.before|;
    var b := a + |p.text|;
    var c := b + |p.after|;
    Places(s, i, p.before, p.text, p.after, rest);
    ObjectInPlace(s, a, p.text, p.item);
    SpaceFree();
    SkipsAll(s, i, p.before);
    assert rest != "" ==> s[c] == rest[0];
    SkipsAll(s, b, p.after);
  }

  /** What stands behind the first piece. */
  function Remainder(ps: seq<Piece>, close: string): string
    requires ps != []
  {
    if |ps| == 1 then "]" + close else "," + RenderTail(ps[1..], close)
  }

  lemma RemainderIs(ps: seq<Piece>, close: string)
    requires ps != []
    ensures var r := Remainder(ps, close);
      && RenderTail(ps, close) == ps[0].before + ps[0].text + ps[0].after + r && r != "" && !IsSpace(r[0])
      && (if |ps| == 1 then r[0] == ']' && r[1..] == close else r[0] == ',' && r[1..] == RenderTail(ps[1..], close))
  {
    SpaceFree();
    hide IsSpace;
  }

  lemma {:induction false} ReadsTail(s: string, i: nat, ps: seq<Piece>, close: string)
    requires ps != [] && (forall k :: 0 <= k < |ps| ==> GoodPiece(ps[k])) && AllSpace(close)
    requires i <= |s| && s[i..] == RenderTail(ps, close)
    ensures SkipSpace(s, i) < |s| && s[SkipSpace(s, i)] == '{'
    ensures AtElement(s, SkipSpace(s, i), None) == Reading(Items(ps), Done)
    decreases |ps|
  {
    hide Value, IsSpace, SkipSpace, AfterArray, AllSpace, GoodPiece, AtElement, RenderTail, Remainder;
    RemainderIs(ps, close);
    PieceIs(s, i, ps[0], Remainder(ps, close));
    var a := SkipSpace(s, i);
    var c := SkipSpace(s, Value(s, a).end);
    ElementStep(s, a, c, None);
    TailOf(s, c, Remainder(ps, close));
    if |ps| == 1 {
      SkipsAll(s, c + 1, close);
      ClosesClean(s, c + 1);
    } else {
      ReadsTail(s, c + 1, ps[1..], close);
    }
  }

  lemma TailOf(s: string, c: nat, rest: string)
    requires c <= |s| && s[c..] == rest && rest != ""
    ensures c < |s| && s[c] == rest[0] && s[c + 1..] == rest[1..]
  {
    assert s[c..][0] == s[c];
  }

  lemma ClosesClean(s: string, i: nat)
    requires i <= |s| && SkipSpace(s, i) == |s|
    ensures AfterArray(s, i) == Reading([], Done)
  {
  }

  lemma SpaceFree()
    ensures !IsSpace('{') && !IsSpace(',') && !IsSpace(']') && !IsSpace('[')
  {
  }

  lemma Places(s: string, i: nat, w: string, t: string, x: string, r: string)
    requires i <= |s| && s[i..] == w + t + x + r
    ensures var a := i + |w|; var b := a + |t|; var c := b + |x|;
      c + |r| == |s| && s[i..a] == w && s[a..b] == t && s[b..c] == x && s[c..] == r
  {
    var u := w + t + x + r;
    var a := |w|; var b := a + |t|; var c := b + |x|;
    assert u[..a] == w && u[a..b] == t && u[b..c] == x && u[c..] == r;
    assert s[i..i + a] == u[..a] && s[i + a..i + b] == u[a..b] && s[i + b..i + c] == u[b..c] && s[i + c..] == u[c..];
  }

  /** Every good layout reads back as its own items. */
  lemma LayoutReads(l: Layout)
    requires Good(l)
    ensures ReadArray(Render(l), None) == Reading(Items(l.pieces), Done)
  {
    hide IsSpace, SkipSpace, AtElement, AfterArray, RenderTail;
    var s := Render(l);
    var rest := if l.pieces == [] then l.inner + "]" + l.close else RenderTail(l.pieces, l.close);
    var o := |l.open|;
    SpaceFree();
    assert s[0..o] == l.open && s[o] == '[' && s[o + 1..] == rest;
    SkipsAll(s, 0, l.open);
    if l.pieces == [] {
      ReadsEmpty(s, o + 1, l.inner, l.close);
    } else {
      ReadsTail(s, o + 1, l.pieces, l.close);
    }
  }

  lemma ReadsEmpty(s: string, i: nat, inner: string, close: string)
    requires AllSpace(inner) && AllSpace(close) && i <= |s| && s[i..] == inner + "]" + close
    ensures AfterOpen(s, i, None) == Reading([], Done)
  {
    hide IsSpace, SkipSpace, AtElement, AfterArray, AllSpace;
    SpaceFree();
    Places(s, i, inner, "]", close, "");
    var j := i + |inner|;
    assert s[j] == s[j..j + 1][0];
    SkipsAll(s, i, inner);
    SkipsAll(s, j + 1, close);
    ClosesClean(s, j + 1);
  }

  // ------------------------------------------------------------- recovering

  lemma {:induction false} SkippedIsSpace(s: string, i: nat)
    requires i <= |s|
    ensures AllSpace(s[i..SkipSpace(s, i)])
    decreases |s| - i
  {
    hide IsSpace;
    if i < |s| && IsSpace(s[i]) {
      SkippedIsSpace(s, i + 1);
      var w := s[i + 1..SkipSpace(s, i + 1)];
      forall k | 0 <= k < |w| + 1 ensures IsSpace(s[i..SkipSpace(s, i)][k]) {
        if k > 0 { assert s[i..SkipSpace(s, i)][k] == w[k - 1]; }
      }
    }
  }

  /** The text an object was decoded from is an object text by itself. */
  lemma DecodedText(s: string, i: nat)
    requires i <= |s| && Value(s, i).Ok? && Value(s, i).value.Obj?
    ensures IsObjectText(s[i..Value(s, i).end], Value(s, i).value)
  {
    hide Value;
    ValueStable(s, i, s[i..Value(s, i).end], -(i as int));
  }

  /** The element at `i` as a piece; `c` is where its separator stands. */
  lemma RecoverPiece(s: string, i: nat) returns (p: Piece, c: nat)
    requires i <= |s| && AtElement(s, i, None).ending.Done?
    ensures GoodPiece(p) && p.before == "" && i < c <= |s| && s[i..] == p.text + p.after + s[c..]
    ensures Value(s, i).Ok? && p.item == Value(s, i).value && p.item.Obj? && c == SkipSpace(s, Value(s, i).end)
  {
    hide IsSpace, IsObjectText, AllSpace, Value, AtElement, SkipSpace, GoodPiece;
    ObjectFirst(s, i);
    var e := Value(s, i).end;
    c := SkipSpace(s, e);
    DecodedText(s, i);
    SkippedIsSpace(s, e);
    p := Piece("", s[i..e], s[e..c], Value(s, i).value);
    MadePiece(p);
  }

  /** A normal ending lets the layout be recovered from any element on. */
  lemma {:induction false} RecoverTail(s: string, i: nat) returns (ps: seq<Piece>, close: string)
    requires i <= |s| && AtElement(s, i, None).ending.Done?
    ensures ps != [] && (forall k :: 0 <= k < |ps| ==> GoodPiece(ps[k])) && AllSpace(close)
    ensures ps[0].before == "" && RenderTail(ps, close) == s[i..]
    ensures Items(ps) == AtElement(s, i, None).items
    decreases |s| - i
  {
    hide IsSpace, IsObjectText, AllSpace, AfterArray, Value, AtElement, SkipSpace, GoodPiece, RenderTail, Items;
    var p, c := RecoverPiece(s, i);
    ElementStep(s, i, c, None);
    if s[c] == ']' {
      ClosedBySpace(s, c + 1);
      close := s[c + 1..];
      ps := [p];
      LastPiece(p, close);
      assert s[c..] == "]" + close;
    } else {
      var j := SkipSpace(s, c + 1);
      var qs;
      qs, close := RecoverTail(s, j);
      SkippedIsSpace(s, c + 1);
      MovedPiece(qs[0], s[c + 1..j]);
      ps := PutInFront(p, qs, s[c + 1..j], close);
      assert s[c..] == "," + s[c + 1..j] + s[j..];
    }
  }

  lemma LastPiece(p: Piece, close: string)
    requires p.before == ""
    ensures RenderTail([p], close) == p.text + p.after + ("]" + close) && Items([p]) == [p.item]
  {
  }

  lemma ObjectFirst(s: string, i: nat)
    requires i <= |s| && AtElement(s, i, None).ending.Done?
    ensures Value(s, i).Ok? && Value(s, i).value.Obj?
  {
    hide Value, Yield;
  }

  lemma MadePiece(p: Piece)
    requires p.before == "" && AllSpace(p.after) && IsObjectText(p.text, p.item)
    ensures GoodPiece(p)
  {
  }

  lemma NoSpace()
    ensures AllSpace("")
  {
  }

  lemma ClosedBySpace(s: string, i: nat)
    requires i <= |s| && AfterArray(s, i).ending.Done?
    ensures AllSpace(s[i..]) && AfterArray(s, i).items == []
  {
    SkippedIsSpace(s, i);
    assert s[i..] == s[i..|s|];
  }

  lemma RenderMoved(qs: seq<Piece>, w: string, close: string)
    requires qs != [] && qs[0].before == ""
    ensures RenderTail([qs[0].(before := w)] + qs[1..], close) == w + RenderTail(qs, close)
  {
    var q := qs[0].(before := w);
    assert ([q] + qs[1..])[1..] == qs[1..];
    var rest := if |qs| == 1 then "]" + close else "," + RenderTail(qs[1..], close);
    assert w + q.text + q.after + rest == w + ("" + q.text + q.after + rest);
  }

  /** A piece, a comma and pieces whose first one gains leading space `w`. */
  lemma PutInFront(p: Piece, qs: seq<Piece>, w: string, close: string) returns (ps: seq<Piece>)
    requires qs != [] && qs[0].before == "" && GoodPiece(p) && GoodPiece(qs[0].(before := w))
    requires forall k :: 0 <= k < |qs| ==> GoodPiece(qs[k])
    ensures ps != [] && ps[0] == p && (forall k :: 0 <= k < |ps| ==> GoodPiece(ps[k]))
    ensures RenderTail(ps, close) == p.before + p.text + p.after + ("," + w + RenderTail(qs, close))
    ensures p.before == "" ==> RenderTail(ps, close) == p.text + p.after + ("," + w + RenderTail(qs, close))
    ensures Items(ps) == [p.item] + Items(qs)
  {
    hide GoodPiece;
    var q := qs[0].(before := w);
    RenderMoved(qs, w, close);
    ps := [p] + ([q] + qs[1..]);
    assert ps[1..] == [q] + qs[1..];
    assert ([q] + qs[1..])[1..] == qs[1..];
    assert "," + w + RenderTail(qs, close) == "," + (w + RenderTail(qs, close));
  }

  /** The reference ends normally, with items `vs`, exactly on the good layouts of `vs`. */
  lemma ReadsExactlyLayouts(s: string, vs: seq<Json>)
    ensures ReadArray(s, None) == Reading(vs, Done) <==>
            exists l :: Good(l) && Render(l) == s && Items(l.pieces) == vs
  {
    forall l | Good(l) && Render(l) == s && Items(l.pieces) == vs
      ensures ReadArray(s, None) == Reading(vs, Done)
    {
      LayoutReads(l);
    }
    if ReadArray(s, None) == Reading(vs, Done) {
      var l := Recover(s);
    }
  }

  lemma Recover(s: string) returns (l: Layout)
    requires ReadArray(s, None).ending.Done?
    ensures Good(l) && Render(l) == s && Items(l.pieces) == ReadArray(s, None).items
  {
    hide IsSpace, SkipSpace, AtElement, AllSpace, AfterArray, GoodPiece, RenderTail;
    var o := SkipSpace(s, 0);
    var j := SkipSpace(s, o + 1);
    SkippedIsSpace(s, 0);
    SkippedIsSpace(s, o + 1);
    NoSpace();
    assert s == s[0..o] + "[" + s[o + 1..j] + s[j..];
    if s[j] == ']' {
      ClosedBySpace(s, j + 1);
      l := Layout(s[0..o], [], s[o + 1..j], s[j + 1..]);
      assert s[j..] == "]" + s[j + 1..];
      assert s[o + 1..j] + "]" + s[j + 1..] == s[o + 1..j] + s[j..];
    } else {
      var qs, close := RecoverTail(s, j);
      var q := qs[0].(before := s[o + 1..j]);
      RenderMoved(qs, s[o + 1..j], close);
      l := Layout(s[0..o], [q] + qs[1..], "", close);
      assert GoodPiece(q) by { MovedPiece(qs[0], s[o + 1..j]); }
    }
  }

  lemma MovedPiece(p: Piece, w: string)
    requires GoodPiece(p) && AllSpace(w)
    ensures GoodPiece(p.(before := w))
  {
  }

  // ------------------------------------------------------------- uniqueness

  /** A text has one layout, but for the space of an empty array that is not empty. */
  lemma SameLayout(a: Layout, b: Layout)
    requires Good(a) && Good(b) && Render(a) == Render(b)
    ensures a.open == b.open && a.pieces == b.pieces && a.close == b.close && (a.pieces == [] ==> a.inner == b.inner)
  {
    hide IsSpace, SkipSpace, RenderTail, AllSpace, GoodPiece;
    var s := Render(a);
    var i := Opening(a);
    var j := Opening(b);
    if a.pieces == [] && b.pieces == [] {
      SameEmpty(s, i, a.inner, a.close, b.inner, b.close);
    } else if a.pieces != [] && b.pieces != [] {
      SameTail(s, i, a.pieces, a.close, b.pieces, b.close);
    } else if a.pieces == [] {
      EmptyIsNotTail(s, i, a.inner, a.close, b.pieces, b.close);
    } else {
      EmptyIsNotTail(s, i, b.inner, b.close, a.pieces, a.close);
    }
  }

  lemma Opening(l: Layout) returns (i: nat)
    requires Good(l)
    ensures var s := Render(l);
      i == SkipSpace(s, 0) + 1 <= |s| && l.open == s[..i - 1]
      && s[i..] == if l.pieces == [] then l.inner + "]" + l.close else RenderTail(l.pieces, l.close)
  {
    hide IsSpace, SkipSpace, RenderTail, GoodPiece, AllSpace;
    var s := Render(l);
    var o := |l.open|;
    SpaceFree();
    assert s[0..o] == l.open && s[o] == '[';
    SkipsAll(s, 0, l.open);
    i := o + 1;
  }

  lemma EmptyAt(s: string, i: nat, inner: string, close: string)
    requires AllSpace(inner) && i <= |s| && s[i..] == inner + "]" + close
    ensures var c := SkipSpace(s, i); c < |s| && s[c] == ']' && inner == s[i..c] && close == s[c + 1..]
  {
    hide IsSpace, SkipSpace, AllSpace;
    SpaceFree();
    Places(s, i, inner, "]", close, "");
    var c := i + |inner|;
    assert s[c] == s[c..c + 1][0];
    SkipsAll(s, i, inner);
  }

  lemma SameEmpty(s: string, i: nat, inner: string, close: string, inner2: string, close2: string)
    requires AllSpace(inner) && AllSpace(inner2) && i <= |s| && s[i..] == inner + "]" + close == inner2 + "]" + close2
    ensures inner == inner2 && close == close2
  {
    EmptyAt(s, i, inner, close);
    EmptyAt(s, i, inner2, close2);
  }

  lemma EmptyIsNotTail(s: string, i: nat, inner: string, close: string, ps: seq<Piece>, close2: string)
    requires AllSpace(inner) && i <= |s| && s[i..] == inner + "]" + close
    requires ps != [] && (forall k :: 0 <= k < |ps| ==> GoodPiece(ps[k])) && AllSpace(close2)
    ensures s[i..] != RenderTail(ps, close2)
  {
    hide IsSpace, SkipSpace, AllSpace, RenderTail, GoodPiece;
    EmptyAt(s, i, inner, close);
    if s[i..] == RenderTail(ps, close2) { ReadsTail(s, i, ps, close2); }
  }

  lemma {:induction false} SameTail(s: string, i: nat, ps: seq<Piece>, close: string, qs: seq<Piece>, close2: string)
    requires ps != [] && qs != [] && (forall k :: 0 <= k < |ps| ==> GoodPiece(ps[k]))
      && (forall k :: 0 <= k < |qs| ==> GoodPiece(qs[k]))
    requires i <= |s| && s[i..] == RenderTail(ps, close) == RenderTail(qs, close2)
    ensures ps == qs && close == close2
    decreases |ps|
  {
    hide Value, IsSpace, SkipSpace, GoodPiece, RenderTail, Remainder;
    RemainderIs(ps, close);
    RemainderIs(qs, close2);
    PieceIs(s, i, ps[0], Remainder(ps, close));
    PieceIs(s, i, qs[0], Remainder(qs, close2));
    if |ps| == 1 {
      assert ps == [ps[0]] && qs == [qs[0]];
    } else {
      var c := SkipSpace(s, Value(s, SkipSpace(s, i)).end);
      TailOf(s, c, Remainder(ps, close));
      SameTail(s, c + 1, ps[1..], close, qs[1..], close2);
      assert ps == [ps[0]] + ps[1..] && qs == [qs[0]] + qs[1..];
    }
  }
}
