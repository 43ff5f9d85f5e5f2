/**
 What a successful decoder call answers depends only on the characters it consumed (plus,
 for a bare number, on the next character not continuing the number).  So an object's
 text is self-delimiting, and a decode of a partial buffer can be trusted.
 */
module JsonStable {
  import opened Json

  /** `s2` carries a copy of `s[lo..hi]`, displaced by `d`. */
  ghost predicate Copied(s: string, s2: string, d: int, lo: nat, hi: nat) {
    && lo <= hi <= |s| && 0 <= lo + d && hi + d <= |s2|
    && forall j :: lo <= j < hi ==> s[j] == s2[j + d]
  }

  lemma CopiedPart(s: string, s2: string, d: int, lo: nat, hi: nat, lo2: nat, hi2: nat)
    requires Copied(s, s2, d, lo, hi) && lo <= lo2 <= hi2 <= hi
    ensures Copied(s, s2, d, lo2, hi2)
  {
  }

  lemma CopiedChar(s: string, s2: string, d: int, lo: nat, hi: nat, j: nat)
    requires Copied(s, s2, d, lo, hi) && lo <= j < hi
    ensures 0 <= j + d < |s2| && s[j] == s2[j + d]
  {
  }

  lemma {:induction false} SkipWsStable(s: string, i: nat, s2: string, d: int, hi: nat)
    requires Copied(s, s2, d, i, hi) && SkipWs(s, i) < hi
    ensures SkipWs(s2, i + d) == SkipWs(s, i) + d
    decreases |s| - i
  {
    CopiedChar(s, s2, d, i, hi, i);
    if IsWs(s[i]) {
      CopiedPart(s, s2, d, i, hi, i + 1, hi);
      SkipWsStable(s, i + 1, s2, d, hi);
    }
  }

  lemma EscapeLengthStable(s: string, i: nat, s2: string, d: int, hi: nat)
    requires Copied(s, s2, d, i, hi) && i < |s| && 0 < EscapeLength(s, i) <= hi - i
    ensures EscapeLength(s2, i + d) == EscapeLength(s, i)
  {
    CopiedChar(s, s2, d, i, hi, i + 1);
    if EscapeLength(s, i) == 6 {
      CopiedChar(s, s2, d, i, hi, i + 2);
      CopiedChar(s, s2, d, i, hi, i + 3);
      CopiedChar(s, s2, d, i, hi, i + 4);
      CopiedChar(s, s2, d, i, hi, i + 5);
    }
  }

  lemma {:induction false} StringEndStable(s: string, i: nat, s2: string, d: int, hi: nat)
    requires Copied(s, s2, d, i, hi) && 0 < StringEnd(s, i) <= hi
    ensures StringEnd(s2, i + d) == StringEnd(s, i) + d
    decreases |s| - i
  {
    hide EscapeLength, Copied;
    CopiedChar(s, s2, d, i, hi, i);
    if s[i] != '"' {
      var n := if s[i] == '\\' then EscapeLength(s, i) else 1;
      if s[i] == '\\' { EscapeLengthStable(s, i, s2, d, hi); }
      CopiedPart(s, s2, d, i, hi, i + n, hi);
      StringEndStable(s, i + n, s2, d, hi);
    }
  }

  lemma ScanStringStable(s: string, i: nat, s2: string, d: int, hi: nat)
    requires Copied(s, s2, d, i, hi) && ScanString(s, i).Ok? && ScanString(s, i).end <= hi
    ensures ScanString(s2, i + d) == Ok(ScanString(s, i).value, ScanString(s, i).end + d)
  {
    StringEndStable(s, i, s2, d, hi);
    var e := StringEnd(s, i);
    assert s[i..e - 1] == s2[i + d..e + d - 1];
  }

  lemma {:induction false} DigitsEndStable(s: string, i: nat, s2: string, d: int, hi: nat)
    requires Copied(s, s2, d, i, hi) && DigitsEnd(s, i) < hi
    ensures DigitsEnd(s2, i + d) == DigitsEnd(s, i) + d
    decreases |s| - i
  {
    CopiedChar(s, s2, d, i, hi, i);
    if IsDigit(s[i]) {
      CopiedPart(s, s2, d, i, hi, i + 1, hi);
      DigitsEndStable(s, i + 1, s2, d, hi);
    }
  }

  lemma IntegerEndStable(s: string, i: nat, s2: string, d: int, hi: nat)
    requires Copied(s, s2, d, i, hi) && i < IntegerEnd(s, i) < hi
    ensures IntegerEnd(s2, i + d) == IntegerEnd(s, i) + d
  {
    var j := if s[i] == '-' then i + 1 else i;
    CopiedChar(s, s2, d, i, hi, i);
    CopiedChar(s, s2, d, i, hi, j);
    CopiedPart(s, s2, d, i, hi, j, hi);
    if s[j] != '0' { DigitsEndStable(s, j, s2, d, hi); }
  }

  lemma FractionEndStable(s: string, i: nat, s2: string, d: int, hi: nat)
    requires Copied(s, s2, d, i, hi) && FractionEnd(s, i) < hi && !ContinuesNumber(s[hi - 1])
    ensures FractionEnd(s2, i + d) == FractionEnd(s, i) + d
  {
    CopiedChar(s, s2, d, i, hi, i);
    if s[i] == '.' {
      CopiedPart(s, s2, d, i, hi, i + 1, hi);
      DigitsStopBefore(s, i + 1, hi - 1);
      DigitsEndStable(s, i + 1, s2, d, hi);
    }
  }

  lemma ExponentEndStable(s: string, i: nat, s2: string, d: int, hi: nat)
    requires Copied(s, s2, d, i, hi) && ExponentEnd(s, i) < hi && !ContinuesNumber(s[hi - 1])
    ensures ExponentEnd(s2, i + d) == ExponentEnd(s, i) + d
  {
    CopiedChar(s, s2, d, i, hi, i);
    if s[i] == 'e' || s[i] == 'E' {
      CopiedChar(s, s2, d, i, hi, i + 1);
      var j := if s[i + 1] == '+' || s[i + 1] == '-' then i + 2 else i + 1;
      CopiedPart(s, s2, d, i, hi, j, hi);
      DigitsStopBefore(s, j, hi - 1);
      DigitsEndStable(s, j, s2, d, hi);
    }
  }

  lemma {:induction false} DigitsStopBefore(s: string, i: nat, k: nat)
    requires i <= k < |s| && !IsDigit(s[k])
    ensures DigitsEnd(s, i) <= k
    decreases k - i
  {
    if i < k { DigitsStopBefore(s, i + 1, k); }
  }

  /** A number followed by a character that cannot continue it ends there in every text. */
  lemma NumberEndStable(s: string, i: nat, s2: string, d: int)
    requires i <= |s| && i < NumberEnd(s, i) < |s| && !ContinuesNumber(s[NumberEnd(s, i)])
    requires Copied(s, s2, d, i, NumberEnd(s, i) + 1)
    ensures NumberEnd(s2, i + d) == NumberEnd(s, i) + d
  {
    var hi := NumberEnd(s, i) + 1;
    var j := IntegerEnd(s, i);
    var k := FractionEnd(s, j);
    IntegerEndStable(s, i, s2, d, hi);
    CopiedPart(s, s2, d, i, hi, j, hi);
    FractionEndStable(s, j, s2, d, hi);
    CopiedPart(s, s2, d, i, hi, k, hi);
    ExponentEndStable(s, k, s2, d, hi);
  }

  /** A longer text still starts with a number, though possibly a longer one. */
  lemma NumberStartPersists(s: string, i: nat, s2: string, d: int)
    requires i <= |s| && NumberEnd(s, i) > i
    requires Copied(s, s2, d, i, |s|)
    ensures NumberEnd(s2, i + d) > i + d
  {
    var j := if s[i] == '-' then i + 1 else i;
    CopiedChar(s, s2, d, i, |s|, i);
    CopiedChar(s, s2, d, i, |s|, j);
  }

  lemma WordLengthStable(s: string, i: nat, s2: string, d: int)
    requires i <= |s| && WordLength(s, i) > 0
    requires Copied(s, s2, d, i, i + WordLength(s, i))
    ensures WordLength(s2, i + d) == WordLength(s, i)
  {
    forall j | i <= j < i + WordLength(s, i)
      ensures 0 <= j + d < |s2| && s[j] == s2[j + d]
    {
      CopiedChar(s, s2, d, i, i + WordLength(s, i), j);
    }
  }

  /** A number never turns into a word when the text grows. */
  lemma NumberIsNotAWord(s: string, i: nat, s2: string, d: int)
    requires i < |s| && NumberEnd(s, i) > i
    requires Copied(s, s2, d, i, NumberEnd(s, i))
    ensures WordLength(s2, i + d) == 0
  {
    CopiedChar(s, s2, d, i, NumberEnd(s, i), i);
    if s[i] == '-' { CopiedChar(s, s2, d, i, NumberEnd(s, i), i + 1); }
  }

  lemma KeyStable(s: string, i: nat, s2: string, d: int, hi: nat)
    requires i <= |s| && Key(s, i).Ok? && Copied(s, s2, d, i, hi) && Key(s, i).end < hi
    ensures Key(s2, i + d) == Ok(Key(s, i).value, Key(s, i).end + d)
  {
    hide Copied, ScanString, SkipWs;
    var e := ScanString(s, i + 1).end;
    var j := SkipWs(s, e);
    CopiedChar(s, s2, d, i, hi, i);
    CopiedPart(s, s2, d, i, hi, i + 1, hi);
    ScanStringStable(s, i + 1, s2, d, hi);
    CopiedPart(s, s2, d, i, hi, e, hi);
    SkipWsStable(s, e, s2, d, hi);
    CopiedChar(s, s2, d, i, hi, j);
    CopiedPart(s, s2, d, i, hi, j + 1, hi);
    SkipWsStable(s, j + 1, s2, d, hi);
  }

  lemma SeparateStable(s: string, i: nat, close: char, s2: string, d: int, hi: nat)
    requires i <= |s| && Copied(s, s2, d, i, hi)
    requires match Separate(s, i, close) { case Bad => false case Closed(e) => e <= hi case More(e) => e < hi }
    ensures match Separate(s, i, close) {
      case Bad => false
      case Closed(e) => Separate(s2, i + d, close) == Closed(e + d)
      case More(e) => Separate(s2, i + d, close) == More(e + d)
    }
  {
    var k := SkipWs(s, i);
    SkipWsStable(s, i, s2, d, hi);
    CopiedChar(s, s2, d, i, hi, k);
    if Separate(s, i, close).More? {
      CopiedPart(s, s2, d, i, hi, k + 1, hi);
      SkipWsStable(s, k + 1, s2, d, hi);
    }
  }

  /** A bare number counts as settled once the next character cannot continue it. */
  ghost predicate Settled(s: string, r: Decoded<Json>) {
    r.Ok? && (r.value.Num? ==> r.end < |s| && !ContinuesNumber(s[r.end]))
  }

  /** Index after the characters that determine a settled result. */
  ghost function Horizon(r: Decoded<Json>): nat
    requires r.Ok?
  {
    if r.value.Num? then r.end + 1 else r.end
  }

  /** A settled value is decoded again, identically, from any text that holds the same characters. */
  lemma {:induction false} ValueStable(s: string, i: nat, s2: string, d: int)
    requires i <= |s| && Settled(s, Value(s, i))
    requires Copied(s, s2, d, i, Horizon(Value(s, i)))
    ensures Value(s2, i + d) == Ok(Value(s, i).value, Value(s, i).end + d)
    decreases |s| - i, 1
  {
    hide Members, Elements, WordLength, NumberEnd, SkipWs, ScanString;
    var e := Value(s, i).end;
    CopiedChar(s, s2, d, i, e, i);
    if s[i] == '"' {
      CopiedPart(s, s2, d, i, e, i + 1, e);
      ScanStringStable(s, i + 1, s2, d, e);
    } else if s[i] == '{' || s[i] == '[' {
      var j := SkipWs(s, i + 1);
      CopiedPart(s, s2, d, i, e, i + 1, e);
      SkipWsStable(s, i + 1, s2, d, e);
      CopiedChar(s, s2, d, i, e, j);
      CopiedPart(s, s2, d, i, e, j, e);
      if s[i] == '{' && s[j] != '}' {
        MembersStable(s, j, s2, d);
      } else if s[i] == '[' && s[j] != ']' {
        ElementsStable(s, j, s2, d);
      }
    } else if WordLength(s, i) > 0 {
      WordLengthStable(s, i, s2, d);
      assert s[i..e] == s2[i + d..e + d];
    } else {
      NumberEndStable(s, i, s2, d);
      NumberIsNotAWord(s, i, s2, d);
      assert s[i..e] == s2[i + d..e + d];
    }
  }

  lemma {:induction false} MembersStable(s: string, i: nat, s2: string, d: int)
    requires i <= |s| && Members(s, i).Ok?
    requires Copied(s, s2, d, i, Members(s, i).end)
    ensures Members(s2, i + d) == Ok(Members(s, i).value, Members(s, i).end + d)
    decreases |s| - i, 0
  {
    hide Copied, Value, Elements, Key, Separate;
    var hi := Members(s, i).end;
    var p := Key(s, i).end;
    var r := Value(s, p);
    KeyStable(s, i, s2, d, hi);
    CopiedPart(s, s2, d, i, hi, p, Horizon(r));
    ValueStable(s, p, s2, d);
    CopiedPart(s, s2, d, i, hi, r.end, hi);
    SeparateStable(s, r.end, '}', s2, d, hi);
    var sep := Separate(s, r.end, '}');
    if sep.More? {
      CopiedPart(s, s2, d, i, hi, sep.next, hi);
      MembersStable(s, sep.next, s2, d);
    }
  }

  lemma {:induction false} ElementsStable(s: string, i: nat, s2: string, d: int)
    requires i <= |s| && Elements(s, i).Ok?
    requires Copied(s, s2, d, i, Elements(s, i).end)
    ensures Elements(s2, i + d) == Ok(Elements(s, i).value, Elements(s, i).end + d)
    decreases |s| - i, 2
  {
    hide Copied, Value, Members, Separate;
    var hi := Elements(s, i).end;
    var r := Value(s, i);
    CopiedPart(s, s2, d, i, hi, i, Horizon(r));
    ValueStable(s, i, s2, d);
    CopiedPart(s, s2, d, i, hi, r.end, hi);
    SeparateStable(s, r.end, ']', s2, d, hi);
    var sep := Separate(s, r.end, ']');
    if sep.More? {
      CopiedPart(s, s2, d, i, hi, sep.next, hi);
      ElementsStable(s, sep.next, s2, d);
    }
  }

  /**
   What a decode of a partial buffer means for the text it is part of: an object
   is final, and anything else decodes to a non-object in the whole text as well.
   */
  lemma PartialDecode(b: string, i: nat, text: string, d: int)
    requires i <= |b| && Value(b, i).Ok?
    requires Copied(b, text, d, i, |b|)
    ensures Value(b, i).value.Obj? ==> Value(text, i + d) == Ok(Value(b, i).value, Value(b, i).end + d)
    ensures !Value(b, i).value.Obj? ==> Value(text, i + d).Ok? && !Value(text, i + d).value.Obj?
  {
    CopiedChar(b, text, d, i, |b|, i);
    if Value(b, i).value.Num? {
      NumberStartPersists(b, i, text, d);
    } else {
      CopiedPart(b, text, d, i, |b|, i, Value(b, i).end);
      ValueStable(b, i, text, d);
    }
  }
}
