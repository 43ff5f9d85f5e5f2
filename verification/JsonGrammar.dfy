/**
 The grammar of RFC 8259, stated without the decoder: numbers by their parts (section 6),
 strings by their characters (section 7), words and white space (sections 2 and 3).  The
 lemmas say that the decoder's lexemes are exactly these, but for three more words.
 */
module JsonGrammar {
  import opened Json
  import opened JsonPrint

  // ---------------------------------------------------------------- strings

  /** One character of a string body, plain or escaped. */
  predicate CharUnit(u: string) {
    || (|u| == 1 && (0x20 <= u[0] as int <= 0x21 || 0x23 <= u[0] as int <= 0x5B || 0x5D <= u[0] as int))
    || (|u| == 2 && u[0] == '\\' && u[1] in "\"\\/bfnrt")
    || (|u| == 6 && u[0] == '\\' && u[1] == 'u' && IsHex(u[2]) && IsHex(u[3]) && IsHex(u[4]) && IsHex(u[5]))
  }

  function Concat(us: seq<string>): string { if us == [] then "" else us[0] + Concat(us[1..]) }

  /** A run of such characters. */
  ghost predicate StringBody(b: string) {
    exists us :: Concat(us) == b && forall k :: 0 <= k < |us| ==> CharUnit(us[k])
  }

  lemma ConcatMore(u: string, us: seq<string>)
    ensures Concat([u] + us) == u + Concat(us)
  {
    assert ([u] + us)[1..] == us;
  }

  /** A scanned body takes apart into characters. */
  lemma {:induction false} BodyUnits(b: string, i: nat) returns (us: seq<string>)
    requires i <= |b| && StringEnd(b + "\"", i) == |b| + 1
    ensures Concat(us) == b[i..] && forall k :: 0 <= k < |us| ==> CharUnit(us[k])
    decreases |b| - i
  {
    var s := b + "\"";
    if i == |b| {
      us := [];
    } else {
      assert s[i] == b[i];
      var n := if s[i] == '\\' then EscapeLength(s, i) else 1;
      BodyUnit(b, i, n);
      var rest := BodyUnits(b, i + n);
      us := [b[i..i + n]] + rest;
      ConcatMore(b[i..i + n], rest);
      assert b[i..] == b[i..i + n] + b[i + n..];
    }
  }

  lemma BodyUnit(b: string, i: nat, n: nat)
    requires i < |b| && StringEnd(b + "\"", i) == |b| + 1
    requires n == if b[i] == '\\' then EscapeLength(b + "\"", i) else 1
    ensures n > 0 && i + n <= |b| && CharUnit(b[i..i + n]) && StringEnd(b + "\"", i + n) == |b| + 1
  {
    var s := b + "\"";
    assert forall k :: 0 <= k < |b| ==> s[k] == b[k];
    var u := s[i..i + n];
    assert forall k :: 0 <= k < n ==> u[k] == s[i + k];
    assert b[i..i + n] == u;
  }

  /** Characters are scanned one after the other, up to the closing quote. */
  lemma {:induction false} UnitsScanned(us: seq<string>, s: string, i: nat)
    requires forall k :: 0 <= k < |us| ==> CharUnit(us[k])
    requires i <= |s| && s[i..] == Concat(us) + "\""
    ensures StringEnd(s, i) == |s|
    decreases |us|
  {
    hide CharUnit;
    if us == [] {
      assert s[i] == s[i..][0] == '"';
    } else {
      var u, rest := us[0], Concat(us[1..]) + "\"";
      assert s[i..] == u + rest;
      UnitScanned(u, s, i, rest);
      UnitsScanned(us[1..], s, i + |u|);
    }
  }

  lemma UnitScanned(u: string, s: string, i: nat, rest: string)
    requires CharUnit(u) && i <= |s| && s[i..] == u + rest
    ensures i + |u| <= |s| && s[i + |u|..] == rest && StringEnd(s, i) == StringEnd(s, i + |u|)
  {
    assert |s[i..]| == |u| + |rest|;
    assert forall k :: 0 <= k < |u| ==> s[i + k] == s[i..][k] == u[k];
    assert s[i + |u|..] == s[i..][|u|..] == rest;
  }

  /** The decoder's string bodies are exactly those of the grammar. */
  lemma StringsAgree(b: string)
    ensures GoodString(b) <==> StringBody(b)
  {
    hide CharUnit, StringEnd;
    if GoodString(b) {
      var us := BodyUnits(b, 0);
      assert b[0..] == b;
    }
    if StringBody(b) {
      var us :| Concat(us) == b && forall k :: 0 <= k < |us| ==> CharUnit(us[k]);
      assert (b + "\"")[0..] == b + "\"";
      UnitsScanned(us, b + "\"", 0);
    }
  }

  // ---------------------------------------------------------------- numbers

  datatype NumberParts = NumberParts(minus: string, whole: string, frac: string, exp: string)

  ghost predicate Digits(d: string) { d != "" && forall k :: 0 <= k < |d| ==> IsDigit(d[k]) }

  /** An integer part without leading zeros, then optionally a fraction and an exponent. */
  ghost predicate GoodParts(p: NumberParts) {
    && (p.minus == "" || p.minus == "-")
    && (p.whole == "0" || (Digits(p.whole) && p.whole[0] != '0'))
    && (p.frac == "" || (p.frac[0] == '.' && Digits(p.frac[1..])))
    && (p.exp == "" || GoodExponent(p.exp))
  }

  ghost predicate GoodExponent(e: string) {
    && |e| >= 2 && (e[0] == 'e' || e[0] == 'E')
    && (Digits(e[1..]) || ((e[1] == '+' || e[1] == '-') && Digits(e[2..])))
  }

  ghost predicate Number(l: string) { exists p :: GoodParts(p) && l == p.minus + p.whole + p.frac + p.exp }

  lemma {:induction false} DigitRun(s: string, i: nat)
    requires i <= |s|
    ensures forall k :: i <= k < DigitsEnd(s, i) ==> IsDigit(s[k])
    decreases |s| - i
  {
    if i < |s| && IsDigit(s[i]) { DigitRun(s, i + 1); }
  }

  lemma {:induction false} DigitsTo(s: string, i: nat, e: nat)
    requires i <= e <= |s| && (forall k :: i <= k < e ==> IsDigit(s[k])) && (e < |s| ==> !IsDigit(s[e]))
    ensures DigitsEnd(s, i) == e
    decreases e - i
  {
    if i < e { DigitsTo(s, i + 1, e); }
  }

  lemma RunDigits(s: string, i: nat)
    requires i <= |s| && DigitsEnd(s, i) > i
    ensures Digits(s[i..DigitsEnd(s, i)])
  {
    DigitRun(s, i);
    hide DigitsEnd, IsDigit;
  }

  /** A scanned number takes apart. */
  lemma ScannedParts(s: string)
    requires NumberEnd(s, 0) > 0
    ensures Number(s[..NumberEnd(s, 0)])
  {
    hide DigitsEnd, IntegerEnd, FractionEnd, ExponentEnd, GoodParts;
    var m := if s[0] == '-' then 1 else 0;
    var j := IntegerEnd(s, 0);
    var k := FractionEnd(s, j);
    var e := ExponentEnd(s, k);
    ScannedInteger(s, m, j);
    ScannedFraction(s, j, k);
    ScannedExponent(s, k, e);
    var p := NumberParts(s[..m], s[m..j], s[j..k], s[k..e]);
    assert GoodParts(p) by { PartsGood(p); }
    FourSlices(s, m, j, k, e);
  }

  lemma FourSlices(s: string, a: nat, b: nat, c: nat, d: nat)
    requires a <= b <= c <= d <= |s|
    ensures s[..d] == s[..a] + s[a..b] + s[b..c] + s[c..d]
  {
  }

  lemma PartsGood(p: NumberParts)
    requires p.minus == "" || p.minus == "-"
    requires p.whole == "0" || (Digits(p.whole) && p.whole[0] != '0')
    requires p.frac == "" || (p.frac[0] == '.' && Digits(p.frac[1..]))
    requires p.exp == "" || GoodExponent(p.exp)
    ensures GoodParts(p)
  {
  }

  lemma ScannedInteger(s: string, m: nat, j: nat)
    requires s != "" && m == (if s[0] == '-' then 1 else 0) && j == IntegerEnd(s, 0) > 0
    ensures m < j <= |s| && (s[..m] == "" || s[..m] == "-")
    ensures s[m..j] == "0" || (Digits(s[m..j]) && s[m..j][0] != '0')
  {
    hide Digits;
    if s[m] != '0' { RunDigits(s, m); }
  }

  lemma ScannedFraction(s: string, j: nat, k: nat)
    requires j <= |s| && k == FractionEnd(s, j)
    ensures s[j..k] == "" || (s[j..k][0] == '.' && Digits(s[j..k][1..]))
  {
    hide Digits;
    if k > j {
      RunDigits(s, j + 1);
      assert s[j..k][1..] == s[j + 1..k];
    }
  }

  lemma ScannedExponent(s: string, k: nat, e: nat)
    requires k <= |s| && e == ExponentEnd(s, k)
    ensures s[k..e] == "" || GoodExponent(s[k..e])
  {
    hide Digits;
    if e > k {
      var j := if k + 1 < |s| && (s[k + 1] == '+' || s[k + 1] == '-') then k + 2 else k + 1;
      RunDigits(s, j);
      assert s[k..e][j - k..] == s[j..e];
    }
  }

  /** The parts of a number are scanned one after the other. */
  lemma PartsScanned(p: NumberParts)
    requires GoodParts(p)
    ensures var l := p.minus + p.whole + p.frac + p.exp; l != "" && NumberEnd(l + ",", 0) == |l|
  {
    hide DigitsEnd, IntegerEnd, FractionEnd, ExponentEnd, Digits, GoodExponent;
    var l := p.minus + p.whole + p.frac + p.exp;
    var s := l + ",";
    var a := |p.minus|;
    var b := a + |p.whole|;
    var c := b + |p.frac|;
    Placed(p, s);
    Boundaries(p, s, b, c);
    IntegerScanned(s, p, a, b);
    FractionScanned(s, p, b, c);
    ExponentScanned(s, p, c);
  }

  lemma Placed(p: NumberParts, s: string)
    requires s == p.minus + p.whole + p.frac + p.exp + ","
    ensures var a := |p.minus|; var b := a + |p.whole|; var c := b + |p.frac|; var d := c + |p.exp|;
      |s| == d + 1 && s[..a] == p.minus && s[a..b] == p.whole && s[b..c] == p.frac && s[c..d] == p.exp && s[d] == ','
  {
    var a := |p.minus|;
    var b := a + |p.whole|;
    var c := b + |p.frac|;
    assert s[..a] == p.minus && s[a..b] == p.whole && s[b..c] == p.frac && s[c..c + |p.exp|] == p.exp;
  }

  /** What follows the integer part, and the fraction, continues neither. */
  lemma Boundaries(p: NumberParts, s: string, b: nat, c: nat)
    requires GoodParts(p) && b <= c < |s| && s[b..c] == p.frac
    requires c + |p.exp| + 1 == |s| && s[c..|s| - 1] == p.exp && s[|s| - 1] == ','
    ensures p.whole != "" && !IsDigit(s[b]) && !IsDigit(s[c]) && (p.frac == "" ==> s[b] != '.')
  {
    assert p.frac != "" ==> s[b] == p.frac[0];
    assert p.exp != "" ==> s[c] == p.exp[0];
  }

  lemma IntegerScanned(s: string, p: NumberParts, a: nat, b: nat)
    requires GoodParts(p) && a == |p.minus| && b == a + |p.whole| < |s| && s[..a] == p.minus && s[a..b] == p.whole
      && !IsDigit(s[b])
    ensures IntegerEnd(s, 0) == b
  {
    hide DigitsEnd;
    assert s[a] == s[a..b][0] == p.whole[0];
    if a == 1 { assert s[0] == s[..a][0]; }
    if p.whole != "0" {
      forall k | a <= k < b ensures IsDigit(s[k]) { assert s[k] == s[a..b][k - a]; }
      DigitsTo(s, a, b);
    }
  }

  lemma FractionScanned(s: string, p: NumberParts, b: nat, c: nat)
    requires GoodParts(p) && c == b + |p.frac| < |s| && s[b..c] == p.frac && !IsDigit(s[c])
    requires p.frac == "" ==> s[b] != '.'
    ensures FractionEnd(s, b) == c
  {
    hide DigitsEnd;
    if p.frac != "" {
      assert s[b] == s[b..c][0];
      forall k | b + 1 <= k < c ensures IsDigit(s[k]) { assert s[k] == p.frac[1..][k - b - 1]; }
      DigitsTo(s, b + 1, c);
    }
  }

  lemma ExponentScanned(s: string, p: NumberParts, c: nat)
    requires GoodParts(p) && c + |p.exp| + 1 == |s| && s[c..|s| - 1] == p.exp && s[|s| - 1] == ','
    ensures ExponentEnd(s, c) == |s| - 1
  {
    hide DigitsEnd;
    var d := |s| - 1;
    if p.exp == "" {
      assert s[c] == ',';
    } else {
      assert s[c] == p.exp[0] && s[c + 1] == p.exp[1];
      var j := if p.exp[1] == '+' || p.exp[1] == '-' then 2 else 1;
      assert Digits(p.exp[j..]) by { SignedDigits(p.exp, j); }
      forall k | c + j <= k < d ensures IsDigit(s[k]) { assert s[k] == p.exp[k - c] == p.exp[j..][k - c - j]; }
      DigitsTo(s, c + j, d);
    }
  }

  lemma SignedDigits(e: string, j: nat)
    requires GoodExponent(e) && j == if e[1] == '+' || e[1] == '-' then 2 else 1
    ensures Digits(e[j..])
  {
    if Digits(e[1..]) { assert IsDigit(e[1..][0]); }
  }

  /** The decoder's numbers are exactly those of the grammar. */
  lemma NumbersAgree(l: string)
    ensures GoodLeaf(Num(l)) <==> Number(l)
  {
    hide NumberEnd, GoodParts;
    if GoodLeaf(Num(l)) {
      ScannedParts(l + ",");
      assert (l + ",")[..|l|] == l;
    }
    if Number(l) {
      var p :| GoodParts(p) && l == p.minus + p.whole + p.frac + p.exp;
      PartsScanned(p);
    }
  }

  // ------------------------------------------------------------------ words

  /** The words of the grammar. */
  predicate StandardWord(w: string) { w == "null" || w == "true" || w == "false" }

  /** The words the decoder takes besides. */
  predicate OtherWord(w: string) { w == "NaN" || w == "Infinity" || w == "-Infinity" }

  lemma WordsAgree(w: string)
    ensures GoodLeaf(Word(w)) <==> StandardWord(w) || OtherWord(w)
  {
    if GoodLeaf(Word(w)) {
      if |w| == 3 { assert w == "NaN"; }
      else if |w| == 4 { assert w == if w[0] == 'n' then "null" else "true"; }
      else if |w| == 5 { assert w == "false"; }
      else if |w| == 8 { assert w == "Infinity"; }
      else { assert w == "-Infinity"; }
    }
  }

  // ------------------------------------------------------------------ texts

  ghost predicate GrammarLeaf(x: Json) {
    match x
    case Str(b) => StringBody(b)
    case Num(l) => Number(l)
    case Word(w) => StandardWord(w)
    case _ => false
  }

  /** A value's text by the grammar. */
  ghost predicate Grammar(v: Spaced) {
    match v
    case Leaf(x) => GrammarLeaf(x)
    case Object(inner, ms) => AllWs(inner) && forall m :: m in ms ==> GrammarMember(m)
    case List(inner, es) => AllWs(inner) && forall e :: e in es ==> GrammarElement(e)
  }

  ghost predicate GrammarMember(m: SpacedMember) {
    && AllWs(m.before) && AllWs(m.beforeColon) && AllWs(m.afterColon) && AllWs(m.after)
    && StringBody(m.key) && Grammar(m.value)
  }

  ghost predicate GrammarElement(e: SpacedElement) { AllWs(e.before) && AllWs(e.after) && Grammar(e.value) }

  /** No word outside the grammar occurs. */
  ghost predicate Standard(v: Spaced) {
    match v
    case Leaf(x) => x.Word? ==> StandardWord(x.name)
    case Object(_, ms) => forall m :: m in ms ==> Standard(m.value)
    case List(_, es) => forall e :: e in es ==> Standard(e.value)
  }

  /** The texts the decoder takes are those of the grammar and those that hold one of the other words. */
  lemma {:induction false} GrammarIsStandard(v: Spaced)
    ensures Grammar(v) <==> Good(v) && Standard(v)
  {
    hide AllWs, GoodLeaf, StringBody, Number, GoodString;
    match v
    case Leaf(x) => LeavesAgree(x);
    case Object(_, ms) =>
      forall m | m in ms ensures GrammarMember(m) <==> GoodMember(m) && Standard(m.value) {
        GrammarIsStandard(m.value);
        StringsAgree(m.key);
      }
    case List(_, es) =>
      forall e | e in es ensures GrammarElement(e) <==> GoodElement(e) && Standard(e.value) {
        GrammarIsStandard(e.value);
      }
  }

  lemma LeavesAgree(x: Json)
    ensures GrammarLeaf(x) <==> GoodLeaf(x) && (x.Word? ==> StandardWord(x.name))
  {
    hide StringBody, Number, GoodString, NumberEnd, WordLength;
    match x
    case Str(b) => StringsAgree(b);
    case Num(l) => NumbersAgree(l);
    case Word(w) => WordsAgree(w);
    case _ =>
  }
}
