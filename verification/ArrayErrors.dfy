/**
 What the whole-text reference does with the texts it rejects: exactly where it stops,
 which objects it has yielded by then, and which error it reports.  With `ArrayLayout`
 this says what is read from every text.
 */
module JsonArrayErrors {
  import opened Prelude
  import opened Text
  import opened Json
  import opened JsonStable
  import opened JsonArrayReader
  import opened JsonArrayLayout

  /** Where a reading stops: before the bracket, right behind it, behind an object, or behind a comma. */
  datatype Stage = BeforeBracket | BehindBracket | BehindObject | BehindComma

  /** The space and the objects up to there, and the rest of the text. */
  datatype Stop = Stop(open: string, pieces: seq<Piece>, stage: Stage, space: string, rest: string)

  /** Pieces joined by commas. */
  function Joined(ps: seq<Piece>): string
    requires ps != []
  {
    ps[0].before + ps[0].text + ps[0].after + if |ps| == 1 then "" else "," + Joined(ps[1..])
  }

  /** What follows the last piece. */
  function TailText(stage: Stage, space: string, rest: string): string {
    if stage == BehindComma then "," + space + rest else rest
  }

  function TextOf(t: Stop): string {
    match t.stage
    case BeforeBracket => t.open + t.rest
    case BehindBracket => t.open + "[" + t.space + t.rest
    case _ => t.open + "[" + if t.pieces == [] then "" else Joined(t.pieces) + TailText(t.stage, t.space, t.rest)
  }

  /** All space is skipped, all objects are taken, and there are objects exactly behind an object or a comma. */
  ghost predicate GoodStop(t: Stop) {
    && AllSpace(t.open) && AllSpace(t.space) && (t.rest == "" || !IsSpace(t.rest[0]))
    && (forall k :: 0 <= k < |t.pieces| ==> GoodPiece(t.pieces[k]))
    && (t.pieces == [] <==> t.stage == BeforeBracket || t.stage == BehindBracket)
  }

  /** Why the text from the rest on cannot be an element, if it cannot. */
  function ElementError(rest: string): Option<ErrorKind> {
    match Value(rest, 0)
    case Fail => Some(InvalidElement)
    case Ok(v, _) => if v.Obj? then None else Some(ExpectedObject)
  }

  /** Why the reading stops there; none when it would go on or end normally. */
  ghost function ErrorAt(stage: Stage, rest: string): Option<ErrorKind> {
    if rest == "" then Some(Truncated)
    else if stage == BeforeBracket then if rest[0] == '[' then None else Some(NotAnArray)
    else if rest[0] == ']' then
      if stage == BehindComma then Some(TrailingComma)
      else if AllSpace(rest[1..]) then None
      else Some(ContentAfterArray)
    else if stage == BehindObject then if rest[0] == ',' then None else Some(ExpectedSeparator)
    else ElementError(rest)
  }

  // ------------------------------------------------------------ suffix facts

  /** Decoding at an index is decoding the rest of the text. */
  lemma RestDecodes(s: string, i: nat)
    requires i <= |s|
    ensures Value(s, i).Ok? <==> Value(s[i..], 0).Ok?
    ensures Value(s, i).Ok? ==> (Value(s, i).value.Obj? <==> Value(s[i..], 0).value.Obj?)
  {
    hide Value;
    if Value(s, i).Ok? { PartialDecode(s, i, s[i..], -(i as int)); }
    if Value(s[i..], 0).Ok? { PartialDecode(s[i..], 0, s, i); }
  }

  /** An element that is no object ends the reading with its error. */
  lemma BadElement(s: string, i: nat)
    requires i <= |s|
    ensures ElementError(s[i..]).Some? ==> AtElement(s, i, None) == Reading([], Error(ElementError(s[i..]).value))
    ensures ElementError(s[i..]).None? <==> Value(s, i).Ok? && Value(s, i).value.Obj?
  {
    hide Value, Yield;
    RestDecodes(s, i);
  }

  /** Content after the closing bracket. */
  lemma AfterClose(s: string, i: nat)
    requires i <= |s|
    ensures AfterArray(s, i) == if AllSpace(s[i..]) then Reading([], Done) else Reading([], Error(ContentAfterArray))
  {
    hide IsSpace;
    SkippedIsSpace(s, i);
    var e := SkipSpace(s, i);
    if AllSpace(s[i..]) { SkipsAll(s, i, s[i..]); }
    if e == |s| { assert s[i..e] == s[i..]; }
  }

  // -------------------------------------------------------------- forwards

  /** What is read behind an object, when it is an error. */
  lemma BehindPiece(s: string, c: nat, stage: Stage, space: string, rest: string, p: Json, i: nat)
    requires i <= |s| && Value(s, i).Ok? && Value(s, i).value == p && p.Obj? && c == SkipSpace(s, Value(s, i).end)
    requires stage == BehindObject || stage == BehindComma
    requires AllSpace(space) && (rest == "" || !IsSpace(rest[0]))
    requires s[c..] == TailText(stage, space, rest) && ErrorAt(stage, rest).Some?
    ensures AtElement(s, i, None) == Reading([p], Error(ErrorAt(stage, rest).value))
  {
    hide Value, IsSpace, SkipSpace, AfterArray, AtElement, AllSpace;
    ElementStep(s, i, c, None);
    if stage == BehindObject {
      if rest != "" {
        assert s[c] == s[c..][0] == rest[0];
        assert s[c + 1..] == rest[1..];
        AfterClose(s, c + 1);
      }
    } else {
      CommaThen(s, c, space, rest);
      BadElement(s, c + 1 + |space|);
    }
  }

  lemma CommaThen(s: string, c: nat, space: string, rest: string)
    requires c <= |s| && s[c..] == "," + space + rest && AllSpace(space) && (rest == "" || !IsSpace(rest[0]))
    ensures c < |s| && s[c] == ',' && SkipSpace(s, c + 1) == c + 1 + |space| <= |s| && s[c + 1 + |space|..] == rest
  {
    hide IsSpace, AllSpace;
    assert s[c] == s[c..][0];
    assert s[c..][1..] == s[c + 1..];
    assert s[c + 1..] == space + rest;
    var j := c + 1 + |space|;
    assert s[c + 1..j] == s[c + 1..][..|space|] == space;
    assert s[j..] == s[c + 1..][|space|..] == rest;
    assert rest != "" ==> s[j] == rest[0];
    SkipsAll(s, c + 1, space);
  }

  lemma {:induction false} ReadsUntil(s: string, i: nat, ps: seq<Piece>, stage: Stage, space: string, rest: string)
    requires ps != [] && (forall k :: 0 <= k < |ps| ==> GoodPiece(ps[k]))
    requires stage == BehindObject || stage == BehindComma
    requires AllSpace(space) && (rest == "" || !IsSpace(rest[0])) && ErrorAt(stage, rest).Some?
    requires i <= |s| && s[i..] == Joined(ps) + TailText(stage, space, rest)
    ensures SkipSpace(s, i) < |s| && s[SkipSpace(s, i)] == '{'
    ensures AtElement(s, SkipSpace(s, i), None) == Reading(Items(ps), Error(ErrorAt(stage, rest).value))
    decreases |ps|
  {
    hide Value, IsSpace, SkipSpace, AtElement, AllSpace, GoodPiece, ErrorAt, Joined, Items;
    var p := ps[0];
    var tail := TailText(stage, space, rest);
    if |ps| == 1 {
      LastOne(ps, tail);
      TailStarts(stage, space, rest);
      PieceIs(s, i, p, tail);
      var a := SkipSpace(s, i);
      BehindPiece(s, SkipSpace(s, Value(s, a).end), stage, space, rest, p.item, a);
    } else {
      OneMore(ps, tail);
      var c := OverPiece(s, i, p, Joined(ps[1..]) + tail);
      ReadsUntil(s, c + 1, ps[1..], stage, space, rest);
    }
  }

  /** Reading over a piece and the comma behind it to the next element. */
  lemma OverPiece(s: string, i: nat, p: Piece, more: string) returns (c: nat)
    requires GoodPiece(p) && i <= |s| && s[i..] == p.before + p.text + p.after + ("," + more)
    ensures SkipSpace(s, i) < |s| && s[SkipSpace(s, i)] == '{' && i <= c < |s| && s[c + 1..] == more
    ensures var j := SkipSpace(s, c + 1); j < |s| && s[j] != ']' ==>
      AtElement(s, SkipSpace(s, i), None) == Prepend([p.item], AtElement(s, j, None))
  {
    hide Value, IsSpace, SkipSpace, AtElement, AllSpace, GoodPiece, Prepend;
    SpaceFree();
    PieceIs(s, i, p, "," + more);
    var a := SkipSpace(s, i);
    c := SkipSpace(s, Value(s, a).end);
    ElementStep(s, a, c, None);
    assert s[c] == s[c..][0] == ',';
    assert s[c + 1..] == s[c..][1..] == more;
  }

  lemma TailStarts(stage: Stage, space: string, rest: string)
    requires rest == "" || !IsSpace(rest[0])
    ensures var t := TailText(stage, space, rest); t == "" || !IsSpace(t[0])
  {
  }

  lemma LastOne(ps: seq<Piece>, tail: string)
    requires |ps| == 1
    ensures Joined(ps) + tail == ps[0].before + ps[0].text + ps[0].after + tail && Items(ps) == [ps[0].item]
  {
  }

  lemma OneMore(ps: seq<Piece>, tail: string)
    requires |ps| > 1
    ensures Joined(ps) + tail == ps[0].before + ps[0].text + ps[0].after + ("," + (Joined(ps[1..]) + tail))
    ensures Items(ps) == [ps[0].item] + Items(ps[1..])
  {
    var a, b := ps[0].before + ps[0].text + ps[0].after, Joined(ps[1..]);
    hide Joined;
    assert Joined(ps) == a + ("," + b) by { JoinedMore(ps); }
    assert a + ("," + b) + tail == a + ("," + (b + tail));
  }

  lemma JoinedMore(ps: seq<Piece>)
    requires |ps| > 1
    ensures Joined(ps) == ps[0].before + ps[0].text + ps[0].after + ("," + Joined(ps[1..]))
  {
  }

  /** A text with a good stop that is an error reads as the objects up to it, and that error. */
  lemma StopReads(t: Stop)
    requires GoodStop(t) && ErrorAt(t.stage, t.rest).Some?
    ensures ReadArray(TextOf(t), None) == Reading(Items(t.pieces), Error(ErrorAt(t.stage, t.rest).value))
  {
    hide IsSpace, SkipSpace, AtElement, AfterArray, AllSpace, GoodPiece, ErrorAt, Joined;
    var s := TextOf(t);
    var o := |t.open|;
    SpaceFree();
    if t.stage == BeforeBracket {
      assert s[0..o] == t.open && s[o..] == t.rest && (t.rest != "" ==> s[o] == t.rest[0]);
      SkipsAll(s, 0, t.open);
      BeforeError(t.rest);
    } else {
      var rest := if t.stage == BehindBracket then t.space + t.rest
        else Joined(t.pieces) + TailText(t.stage, t.space, t.rest);
      assert s == t.open + "[" + rest;
      assert s[0..o] == t.open && s[o] == '[' && s[o + 1..] == rest;
      SkipsAll(s, 0, t.open);
      if t.stage == BehindBracket {
        BracketError(s, o + 1, t.space, t.rest);
      } else {
        ReadsUntil(s, o + 1, t.pieces, t.stage, t.space, t.rest);
      }
    }
  }

  lemma BeforeError(rest: string)
    requires ErrorAt(BeforeBracket, rest).Some?
    ensures ErrorAt(BeforeBracket, rest).value == if rest == "" then Truncated else NotAnArray
    ensures rest != "" ==> rest[0] != '['
  {
  }

  lemma BracketError(s: string, i: nat, space: string, rest: string)
    requires i <= |s| && s[i..] == space + rest && AllSpace(space) && (rest == "" || !IsSpace(rest[0]))
    requires ErrorAt(BehindBracket, rest).Some?
    ensures AfterOpen(s, i, None) == Reading([], Error(ErrorAt(BehindBracket, rest).value))
  {
    hide IsSpace, SkipSpace, AtElement, AfterArray, AllSpace, Value;
    var j := i + |space|;
    assert s[i..j] == s[i..][..|space|] == space && s[j..] == s[i..][|space|..] == rest;
    assert rest != "" ==> s[j] == rest[0];
    SkipsAll(s, i, space);
    if rest != "" {
      if rest[0] == ']' {
        assert s[j + 1..] == rest[1..];
        AfterClose(s, j + 1);
      } else {
        BadElement(s, j);
      }
    }
  }

  // -------------------------------------------------------------- backwards

  /** The stop of a reading that goes wrong behind an object. */
  lemma {:induction false} RecoverError(s: string, i: nat)
    returns (ps: seq<Piece>, stage: Stage, space: string, rest: string)
    requires i <= |s| && AtElement(s, i, None).ending.Error? && Value(s, i).Ok? && Value(s, i).value.Obj?
    ensures ps != [] && (forall k :: 0 <= k < |ps| ==> GoodPiece(ps[k])) && ps[0].before == ""
    ensures (stage == BehindObject || stage == BehindComma) && AllSpace(space) && (rest == "" || !IsSpace(rest[0]))
    ensures s[i..] == Joined(ps) + TailText(stage, space, rest)
    ensures AtElement(s, i, None).items == Items(ps)
    ensures ErrorAt(stage, rest) == Some(AtElement(s, i, None).ending.kind)
    decreases |s| - i
  {
    hide Value, IsSpace, SkipSpace, AtElement, AfterArray, AllSpace, GoodPiece, ErrorAt, Joined, Items, TailText;
    var p, c := FirstPiece(s, i);
    ElementStep(s, i, c, None);
    var j := if c < |s| && s[c] == ',' then SkipSpace(s, c + 1) else c;
    if c == |s| || s[c] != ',' {
      ps, stage, space, rest := [p], BehindObject, "", s[c..];
      StopBehindObject(s, c);
      LastOne(ps, rest);
      NoSpace();
      assert TailText(stage, space, rest) == rest by { PlainTail(rest); }
    } else {
      space, rest := s[c + 1..j], s[j..];
      SkippedIsSpace(s, c + 1);
      SkipEnds(s, c + 1);
      CommaTail(s, c, j);
      BadElement(s, j);
      if j == |s| || s[j] == ']' || ElementError(rest).Some? {
        ps, stage := [p], BehindComma;
        StopBehindComma(s, j);
        LastOne(ps, TailText(stage, space, rest));
      } else {
        var w := space;
        var qs;
        qs, stage, space, rest := RecoverError(s, j);
        ps := [p] + SpaceBefore(qs, w);
        SpacedBefore(qs, w);
        MovedPiece(qs[0], w);
        assert ps[1..] == SpaceBefore(qs, w);
        OneMore(ps, TailText(stage, space, rest));
        assert s[c..] == "," + (w + s[j..]);
        assert w + (Joined(qs) + TailText(stage, space, rest)) == w + Joined(qs) + TailText(stage, space, rest);
      }
    }
  }

  function SpaceBefore(qs: seq<Piece>, w: string): (r: seq<Piece>)
    requires qs != []
    ensures r != [] && r[0] == qs[0].(before := w) && r[1..] == qs[1..]
  {
    [qs[0].(before := w)] + qs[1..]
  }

  lemma SpacedBefore(qs: seq<Piece>, w: string)
    requires qs != [] && qs[0].before == ""
    ensures Joined(SpaceBefore(qs, w)) == w + Joined(qs) && Items(SpaceBefore(qs, w)) == Items(qs)
  {
    var q, r := qs[0], SpaceBefore(qs, w);
    var rest := if |qs| == 1 then "" else "," + Joined(qs[1..]);
    assert w + q.text + q.after + rest == w + ("" + q.text + q.after + rest);
  }

  lemma PlainTail(rest: string)
    ensures TailText(BehindObject, "", rest) == rest
  {
  }

  lemma CommaTail(s: string, c: nat, j: nat)
    requires c < j <= |s| && s[c] == ','
    ensures TailText(BehindComma, s[c + 1..j], s[j..]) == s[c..]
  {
    assert "," + s[c + 1..j] + s[j..] == s[c..];
  }

  /** The object at `i` as a piece; `c` is where what follows it starts. */
  lemma FirstPiece(s: string, i: nat) returns (p: Piece, c: nat)
    requires i <= |s| && Value(s, i).Ok? && Value(s, i).value.Obj?
    ensures GoodPiece(p) && p.before == "" && p.item == Value(s, i).value
    ensures i < c <= |s| && c == SkipSpace(s, Value(s, i).end) && (c == |s| || !IsSpace(s[c]))
    ensures s[i..] == p.before + p.text + p.after + s[c..]
  {
    hide IsSpace, IsObjectText, AllSpace, Value, SkipSpace, GoodPiece;
    var e := Value(s, i).end;
    c := SkipSpace(s, e);
    DecodedText(s, i);
    SkippedIsSpace(s, e);
    SkipEnds(s, e);
    p := Piece("", s[i..e], s[e..c], Value(s, i).value);
    MadePiece(p);
  }

  lemma {:induction false} SkipEnds(s: string, i: nat)
    requires i <= |s|
    ensures SkipSpace(s, i) == |s| || !IsSpace(s[SkipSpace(s, i)])
    decreases |s| - i
  {
    hide IsSpace;
    if i < |s| && IsSpace(s[i]) { SkipEnds(s, i + 1); }
  }

  lemma StopBehindObject(s: string, c: nat)
    requires c <= |s| && (c < |s| ==> s[c] != ',')
    ensures c == |s| ==> ErrorAt(BehindObject, s[c..]) == Some(Truncated)
    ensures c < |s| && s[c] == ']' && AfterArray(s, c + 1).ending.Error? ==>
      ErrorAt(BehindObject, s[c..]) == Some(AfterArray(s, c + 1).ending.kind) && AfterArray(s, c + 1).items == []
    ensures c < |s| && s[c] != ']' ==> ErrorAt(BehindObject, s[c..]) == Some(ExpectedSeparator)
  {
    hide AfterArray, AllSpace;
    if c < |s| {
      AfterClose(s, c + 1);
      assert s[c..][0] == s[c] && s[c..][1..] == s[c + 1..];
    }
  }

  lemma StopBehindComma(s: string, j: nat)
    requires j <= |s|
    ensures j == |s| ==> ErrorAt(BehindComma, s[j..]) == Some(Truncated)
    ensures j < |s| && s[j] == ']' ==> ErrorAt(BehindComma, s[j..]) == Some(TrailingComma)
    ensures j < |s| && s[j] != ']' ==> ErrorAt(BehindComma, s[j..]) == ElementError(s[j..])
  {
    hide Value;
    if j < |s| { assert s[j..][0] == s[j]; }
  }

  /** A rejected text has such a stop. */
  lemma RecoverStop(s: string) returns (t: Stop)
    requires ReadArray(s, None).ending.Error?
    ensures GoodStop(t) && TextOf(t) == s && Items(t.pieces) == ReadArray(s, None).items
    ensures ErrorAt(t.stage, t.rest) == Some(ReadArray(s, None).ending.kind)
  {
    hide IsSpace, SkipSpace, AtElement, AfterArray, AllSpace, GoodPiece, ErrorAt, Joined, TailText, Value;
    var o := SkipSpace(s, 0);
    SkippedIsSpace(s, 0);
    SkipEnds(s, 0);
    NoSpace();
    if o == |s| || s[o] != '[' {
      t := Stop(s[0..o], [], BeforeBracket, "", s[o..]);
      StopBefore(s, o);
      assert s[0..o] + s[o..] == s;
    } else {
      t := RecoverInside(s, o);
    }
  }

  lemma RecoverInside(s: string, o: nat) returns (t: Stop)
    requires o < |s| && o == SkipSpace(s, 0) && s[o] == '[' && AfterOpen(s, o + 1, None).ending.Error?
    ensures GoodStop(t) && TextOf(t) == s && Items(t.pieces) == AfterOpen(s, o + 1, None).items
    ensures ErrorAt(t.stage, t.rest) == Some(AfterOpen(s, o + 1, None).ending.kind)
  {
    hide IsSpace, SkipSpace, AtElement, AfterArray, AllSpace, GoodPiece, ErrorAt, Joined, TailText, Value;
    var j := SkipSpace(s, o + 1);
    SkippedIsSpace(s, 0);
    SkippedIsSpace(s, o + 1);
    SkipEnds(s, o + 1);
    BadElement(s, j);
    if j == |s| || s[j] == ']' || ElementError(s[j..]).Some? {
      t := Stop(s[0..o], [], BehindBracket, s[o + 1..j], s[j..]);
      StopBehindBracket(s, j);
      FourPieces(s, o, j);
    } else {
      var qs, stage, space, rest := RecoverError(s, j);
      BehindPieces(s, o, j, qs, stage, space, rest);
      t := Stop(s[0..o], SpaceBefore(qs, s[o + 1..j]), stage, space, rest);
    }
  }

  lemma FourPieces(s: string, o: nat, j: nat)
    requires o < j <= |s| && s[o] == '['
    ensures s == s[0..o] + "[" + s[o + 1..j] + s[j..] && s == s[0..o] + "[" + (s[o + 1..j] + s[j..])
  {
  }

  lemma BehindPieces(s: string, o: nat, j: nat, qs: seq<Piece>, stage: Stage, space: string, rest: string)
    requires o < j <= |s| && s[o] == '[' && AllSpace(s[0..o]) && AllSpace(s[o + 1..j])
    requires qs != [] && (forall k :: 0 <= k < |qs| ==> GoodPiece(qs[k])) && qs[0].before == ""
    requires (stage == BehindObject || stage == BehindComma) && AllSpace(space) && (rest == "" || !IsSpace(rest[0]))
    requires s[j..] == Joined(qs) + TailText(stage, space, rest)
    ensures var t := Stop(s[0..o], SpaceBefore(qs, s[o + 1..j]), stage, space, rest);
      GoodStop(t) && TextOf(t) == s && Items(t.pieces) == Items(qs)
  {
    hide IsSpace, AllSpace, GoodPiece, Joined, TailText;
    var w := s[o + 1..j];
    SpacedBefore(qs, w);
    MovedPiece(qs[0], w);
    FourPieces(s, o, j);
    assert w + (Joined(qs) + TailText(stage, space, rest)) == w + Joined(qs) + TailText(stage, space, rest);
  }

  lemma StopBefore(s: string, o: nat)
    requires o <= |s| && (o < |s| ==> s[o] != '[')
    ensures ErrorAt(BeforeBracket, s[o..]) == Some(if o == |s| then Truncated else NotAnArray)
  {
    if o < |s| { assert s[o..][0] == s[o]; }
  }

  lemma StopBehindBracket(s: string, j: nat)
    requires j <= |s|
    ensures j == |s| ==> ErrorAt(BehindBracket, s[j..]) == Some(Truncated)
    ensures j < |s| && s[j] == ']' && AfterArray(s, j + 1).ending.Error? ==>
      ErrorAt(BehindBracket, s[j..]) == Some(AfterArray(s, j + 1).ending.kind) && AfterArray(s, j + 1).items == []
    ensures j < |s| && s[j] != ']' ==> ErrorAt(BehindBracket, s[j..]) == ElementError(s[j..])
  {
    hide AfterArray, AllSpace, Value;
    if j < |s| {
      AfterClose(s, j + 1);
      assert s[j..][0] == s[j] && s[j..][1..] == s[j + 1..];
    }
  }

  /**
   A text is rejected with objects `vs` and an error exactly when it has a stop behind those objects
   with that error.
   */
  lemma RejectsExactly(s: string, vs: seq<Json>, kind: ErrorKind)
    ensures ReadArray(s, None) == Reading(vs, Error(kind)) <==>
      exists t :: GoodStop(t) && TextOf(t) == s && Items(t.pieces) == vs && ErrorAt(t.stage, t.rest) == Some(kind)
  {
    hide ReadArray, GoodStop, TextOf, ErrorAt;
    forall t | GoodStop(t) && TextOf(t) == s && Items(t.pieces) == vs && ErrorAt(t.stage, t.rest) == Some(kind)
      ensures ReadArray(s, None) == Reading(vs, Error(kind))
    {
      StopReads(t);
    }
    if ReadArray(s, None) == Reading(vs, Error(kind)) { var t := RecoverStop(s); }
  }
}
