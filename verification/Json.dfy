/**
 The value decoder that the streaming reader calls at a buffer index.

 A decoder call reads the text from index `i` and answers with a parse tree and
 the index just after it, or fails.  Trees keep strings and numbers as lexemes.
 */
module Json {

  datatype Json =
    | Obj(members: seq<Member>)
    | Arr(elements: seq<Json>)
    | Str(body: string)
    | Num(lexeme: string)
    | Word(name: string)

  datatype Member = Member(key: string, value: Json)

  datatype Decoded<+T> = Fail | Ok(value: T, end: nat)

  // ------------------------------------------------------------- characters

  /** The four characters the JSON grammar treats as white space. */
  predicate IsWs(c: char) { c == ' ' || c == '\t' || c == '\n' || c == '\r' }

  predicate IsDigit(c: char) { '0' <= c <= '9' }

  predicate IsHex(c: char) { IsDigit(c) || 'a' <= c <= 'f' || 'A' <= c <= 'F' }

  /** Characters that may extend a number lexeme. */
  predicate ContinuesNumber(c: char) {
    IsDigit(c) || c == '.' || c == 'e' || c == 'E' || c == '+' || c == '-'
  }

  function SkipWs(s: string, i: nat): (e: nat)
    requires i <= |s|
    ensures i <= e <= |s|
    ensures i < e ==> IsWs(s[i])
    ensures e < |s| ==> !IsWs(s[e])
    decreases |s| - i
  {
    if i < |s| && IsWs(s[i]) then SkipWs(s, i + 1) else i
  }

  // ---------------------------------------------------------------- lexemes

  predicate SimpleEscape(c: char) {
    c == '"' || c == '\\' || c == '/' || c == 'b' || c == 'f' || c == 'n' || c == 'r' || c == 't'
  }

  /** Length of the escape sequence at `i`, or 0 when it is malformed or cut. */
  function EscapeLength(s: string, i: nat): (n: nat)
    requires i < |s|
    ensures i + n <= |s|
  {
    if i + 1 >= |s| then 0
    else if SimpleEscape(s[i + 1]) then 2
    else if s[i + 1] == 'u' && i + 6 <= |s|
            && IsHex(s[i + 2]) && IsHex(s[i + 3]) && IsHex(s[i + 4]) && IsHex(s[i + 5]) then 6
    else 0
  }

  /** Index after the closing quote of the string body that starts at `i`; 0 when it is malformed or cut. */
  function StringEnd(s: string, i: nat): (e: nat)
    requires i <= |s|
    ensures e > 0 ==> i < e <= |s| && s[e - 1] == '"'
    decreases |s| - i
  {
    if i == |s| then 0
    else if s[i] == '"' then i + 1
    else
      var n := if s[i] == '\\' then EscapeLength(s, i) else if s[i] < ' ' then 0 else 1;
      if n == 0 then 0 else StringEnd(s, i + n)
  }

  /** Scans a string body that starts at `i`, just after the opening quote. */
  function ScanString(s: string, i: nat): (r: Decoded<string>)
    requires i <= |s|
    ensures r.Ok? ==> i < r.end <= |s|
  {
    var e := StringEnd(s, i);
    if e == 0 then Fail else Ok(s[i..e - 1], e)
  }

  /** Index after the run of digits that starts at `i`. */
  function DigitsEnd(s: string, i: nat): (e: nat)
    requires i <= |s|
    ensures i <= e <= |s|
    ensures i < e ==> IsDigit(s[i])
    ensures e < |s| ==> !IsDigit(s[e])
    decreases |s| - i
  {
    if i < |s| && IsDigit(s[i]) then DigitsEnd(s, i + 1) else i
  }

  function IntegerEnd(s: string, i: nat): (e: nat)
    requires i <= |s|
    ensures i <= e <= |s|
  {
    var j := if i < |s| && s[i] == '-' then i + 1 else i;
    if j < |s| && s[j] == '0' then j + 1
    else if DigitsEnd(s, j) > j then DigitsEnd(s, j)
    else i
  }

  /** A fraction is taken only when a digit follows the dot. */
  function FractionEnd(s: string, i: nat): (e: nat)
    requires i <= |s|
    ensures i <= e <= |s|
  {
    if i < |s| && s[i] == '.' && DigitsEnd(s, i + 1) > i + 1 then DigitsEnd(s, i + 1) else i
  }

  /** An exponent is taken only when a digit follows the mark and its optional sign. */
  function ExponentEnd(s: string, i: nat): (e: nat)
    requires i <= |s|
    ensures i <= e <= |s|
  {
    if i < |s| && (s[i] == 'e' || s[i] == 'E') then
      var j := if i + 1 < |s| && (s[i + 1] == '+' || s[i + 1] == '-') then i + 2 else i + 1;
      if DigitsEnd(s, j) > j then DigitsEnd(s, j) else i
    else i
  }

  /** Index after the longest number at `i`; `i` itself when there is none. */
  function NumberEnd(s: string, i: nat): (e: nat)
    requires i <= |s|
    ensures i <= e <= |s|
  {
    var j := IntegerEnd(s, i);
    if j == i then i else ExponentEnd(s, FractionEnd(s, j))
  }

  /** Length of the literal word at `i`: null, true, false, NaN, Infinity or -Infinity; 0 when there is none. */
  function WordLength(s: string, i: nat): (n: nat)
    requires i <= |s|
    ensures i + n <= |s|
  {
    if i + 3 <= |s| && s[i] == 'N' && s[i + 1] == 'a' && s[i + 2] == 'N' then 3
    else if i + 4 > |s| then 0
    else if s[i] == 'n' && s[i + 1] == 'u' && s[i + 2] == 'l' && s[i + 3] == 'l' then 4
    else if s[i] == 't' && s[i + 1] == 'r' && s[i + 2] == 'u' && s[i + 3] == 'e' then 4
    else if i + 5 > |s| then 0
    else if s[i] == 'f' && s[i + 1] == 'a' && s[i + 2] == 'l' && s[i + 3] == 's' && s[i + 4] == 'e' then 5
    else if InfinityAt(s, i) then 8
    else if s[i] == '-' && InfinityAt(s, i + 1) then 9
    else 0
  }

  predicate InfinityAt(s: string, i: nat) {
    && i + 8 <= |s| && s[i] == 'I' && s[i + 1] == 'n' && s[i + 2] == 'f' && s[i + 3] == 'i'
    && s[i + 4] == 'n' && s[i + 5] == 'i' && s[i + 6] == 't' && s[i + 7] == 'y'
  }

  // ----------------------------------------------------------------- values

  function Value(s: string, i: nat): (r: Decoded<Json>)
    requires i <= |s|
    ensures r.Ok? ==> i < r.end <= |s|
    decreases |s| - i, 0
  {
    if i == |s| then Fail
    else if s[i] == '"' then
      match ScanString(s, i + 1)
      case Fail => Fail
      case Ok(b, e) => Ok(Str(b), e)
    else if s[i] == '{' then
      var j := SkipWs(s, i + 1);
      if j < |s| && s[j] == '}' then Ok(Obj([]), j + 1)
      else match Members(s, j)
        case Fail => Fail
        case Ok(ms, e) => Ok(Obj(ms), e)
    else if s[i] == '[' then
      var j := SkipWs(s, i + 1);
      if j < |s| && s[j] == ']' then Ok(Arr([]), j + 1)
      else match Elements(s, j)
        case Fail => Fail
        case Ok(vs, e) => Ok(Arr(vs), e)
    else if WordLength(s, i) > 0 then
      Ok(Word(s[i..i + WordLength(s, i)]), i + WordLength(s, i))
    else
      var e := NumberEnd(s, i);
      if e == i then Fail else Ok(Num(s[i..e]), e)
  }

  /** A quoted key and its colon; ends where the member's value starts. */
  function Key(s: string, i: nat): (r: Decoded<string>)
    requires i <= |s|
    ensures r.Ok? ==> i < r.end <= |s|
  {
    if i == |s| || s[i] != '"' then Fail
    else match ScanString(s, i + 1)
      case Fail => Fail
      case Ok(key, e) =>
        var j := SkipWs(s, e);
        if j == |s| || s[j] != ':' then Fail else Ok(key, SkipWs(s, j + 1))
  }

  datatype Separator = Bad | Closed(end: nat) | More(next: nat)

  /** What follows an item: the closing character, or a comma and the start of the next item. */
  function Separate(s: string, i: nat, close: char): (r: Separator)
    requires i <= |s|
    ensures r.Closed? ==> i < r.end <= |s|
    ensures r.More? ==> i < r.next <= |s|
    ensures !r.Bad? ==> IsWs(s[i]) || s[i] == close || s[i] == ','
  {
    var k := SkipWs(s, i);
    if k == |s| then Bad
    else if s[k] == close then Closed(k + 1)
    else if s[k] == ',' then More(SkipWs(s, k + 1))
    else Bad
  }

  /** Members up to and including the closing brace. */
  function Members(s: string, i: nat): (r: Decoded<seq<Member>>)
    requires i <= |s|
    ensures r.Ok? ==> i < r.end <= |s|
    decreases |s| - i, 0
  {
    match Key(s, i)
    case Fail => Fail
    case Ok(key, p) =>
      match Value(s, p)
      case Fail => Fail
      case Ok(v, e) =>
        match Separate(s, e, '}')
        case Bad => Fail
        case Closed(k) => Ok([Member(key, v)], k)
        case More(next) =>
          match Members(s, next)
          case Fail => Fail
          case Ok(ms, k) => Ok([Member(key, v)] + ms, k)
  }

  /** Array elements up to and including the closing bracket. */
  function Elements(s: string, i: nat): (r: Decoded<seq<Json>>)
    requires i <= |s|
    ensures r.Ok? ==> i < r.end <= |s|
    decreases |s| - i, 1
  {
    match Value(s, i)
    case Fail => Fail
    case Ok(v, e) =>
      match Separate(s, e, ']')
      case Bad => Fail
      case Closed(k) => Ok([v], k)
      case More(next) =>
        match Elements(s, next)
        case Fail => Fail
        case Ok(vs, k) => Ok([v] + vs, k)
  }
}
