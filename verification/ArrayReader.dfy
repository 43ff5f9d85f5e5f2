/**
 The chunked reader of a top-level JSON array of objects.

 `ReadArray` is the reference: it parses the whole text at once and knows nothing
 of buffers, chunks or end-of-file flags.  `ArrayReader` is the streaming state
 machine.  `ReadRecords` proves that for every text, limit, chunk size and way
 of cutting the text into chunks, the two yield the same objects and end the same
 way, down to the kind of error.
 */
module JsonArrayReader {
  import opened Prelude
  import opened Json
  import opened JsonStable
  import opened Text

  datatype ErrorKind =
    | BadChunkSize | Truncated | NotAnArray | ContentAfterArray
    | ExpectedSeparator | TrailingComma | InvalidElement | ExpectedObject

  datatype Ending = Done | Error(kind: ErrorKind)

  datatype Reading = Reading(items: seq<Json>, ending: Ending)

  /** Skips what `str.isspace` accepts, which is more than JSON white space. */
  function SkipSpace(s: string, i: nat): (e: nat)
    requires i <= |s|
    ensures i <= e <= |s|
    decreases |s| - i
  {
    if i < |s| && IsSpace(s[i]) then SkipSpace(s, i + 1) else i
  }

  // -------------------------------------------------- whole-text reference

  function Prepend(items: seq<Json>, r: Reading): Reading { r.(items := items + r.items) }

  function Failed(kind: ErrorKind): Reading { Reading([], Error(kind)) }

  /** After `]`: only space may follow. */
  function AfterArray(s: string, i: nat): Reading
    requires i <= |s|
  {
    if SkipSpace(s, i) == |s| then Reading([], Done) else Failed(ContentAfterArray)
  }

  /** One element and all that follows; `left` counts the objects still wanted. */
  function AtElement(s: string, i: nat, left: Option<nat>): Reading
    requires i <= |s|
    decreases |s| - i, 0
  {
    match Value(s, i)
    case Fail => Failed(InvalidElement)
    case Ok(v, e) =>
      if v.Obj? then Yield(s, e, v, left) else Failed(ExpectedObject)
  }

  /** Hands out one object; stops there if it is the last one wanted. */
  function Yield(s: string, i: nat, v: Json, left: Option<nat>): Reading
    requires i <= |s|
    decreases |s| - i, 2
  {
    if left.Some? && left.value <= 1 then Reading([v], Done)
    else Prepend([v], AfterElement(s, i, if left.Some? then Some(left.value - 1) else None))
  }

  function AfterElement(s: string, i: nat, left: Option<nat>): Reading
    requires i <= |s|
    decreases |s| - i, 1
  {
    var j := SkipSpace(s, i);
    if j == |s| then Failed(Truncated)
    else if s[j] == ',' then AfterComma(s, j + 1, left)
    else if s[j] == ']' then AfterArray(s, j + 1)
    else Failed(ExpectedSeparator)
  }

  function AfterComma(s: string, i: nat, left: Option<nat>): Reading
    requires i <= |s|
    decreases |s| - i, 1
  {
    var j := SkipSpace(s, i);
    if j == |s| then Failed(Truncated)
    else if s[j] == ']' then Failed(TrailingComma)
    else AtElement(s, j, left)
  }

  function AfterOpen(s: string, i: nat, left: Option<nat>): Reading
    requires i <= |s|
  {
    var j := SkipSpace(s, i);
    if j == |s| then Failed(Truncated)
    else if s[j] == ']' then AfterArray(s, j + 1)
    else AtElement(s, j, left)
  }

  function AtStart(s: string, i: nat, left: Option<nat>): Reading
    requires i <= |s|
  {
    var j := SkipSpace(s, i);
    if j == |s| then Failed(Truncated)
    else if s[j] != '[' then Failed(NotAnArray)
    else AfterOpen(s, j + 1, left)
  }

  /** The whole-text meaning of reading up to `limit` objects. */
  function ReadArray(s: string, limit: Option<int>): Reading {
    match limit
    case None => AtStart(s, 0, None)
    case Some(n) => if n <= 0 then Reading([], Done) else AtStart(s, 0, Some(n))
  }

  // ------------------------------------------------------ streaming reader

  lemma {:induction false} SkipSpaceStep(s: string, i: nat, j: nat)
    requires i <= j <= |s| && forall k :: i <= k < j ==> IsSpace(s[k])
    ensures SkipSpace(s, i) == SkipSpace(s, j)
    decreases j - i
  {
    if i < j { SkipSpaceStep(s, i + 1, j); }
  }

  /** Where the reference stands when the stream has flags `started`, `expectValue` and `afterComma`. */
  ghost function Resume(s: string, i: nat, started: bool, expectValue: bool, afterComma: bool,
    left: Option<nat>): Reading
    requires i <= |s|
  {
    if !started then AtStart(s, i, left)
    else if !expectValue then AfterElement(s, i, left)
    else if afterComma then AfterComma(s, i, left)
    else AfterOpen(s, i, left)
  }

  /** The reference only looks at the first character that is not space. */
  lemma ResumeSkips(s: string, i: nat, j: nat, started: bool, expectValue: bool, afterComma: bool, left: Option<nat>)
    requires i <= |s| && j <= |s| && SkipSpace(s, i) == SkipSpace(s, j)
    ensures Resume(s, i, started, expectValue, afterComma, left) == Resume(s, j, started, expectValue, afterComma, left)
  {
  }

  /** The reference's next move at a character that is not space, and at the end of the text. */
  lemma ResumeAt(s: string, i: nat, started: bool, expectValue: bool, afterComma: bool, left: Option<nat>)
    requires i <= |s| && (i < |s| ==> !IsSpace(s[i]))
    ensures Resume(s, i, started, expectValue, afterComma, left) ==
            if i == |s| then Failed(Truncated)
            else if !started then (if s[i] == '[' then AfterOpen(s, i + 1, left) else Failed(NotAnArray))
            else if !expectValue then
              if s[i] == ',' then AfterComma(s, i + 1, left)
              else if s[i] == ']' then AfterArray(s, i + 1)
              else Failed(ExpectedSeparator)
            else if s[i] != ']' then AtElement(s, i, left)
            else if afterComma then Failed(TrailingComma)
            else AfterArray(s, i + 1)
  {
    hide IsSpace, AtElement, AfterArray;
    assert SkipSpace(s, i) == i;
  }

  lemma PrependNil(items: seq<Json>, ending: Ending)
    ensures Prepend(items, Reading([], ending)) == Reading(items, ending)
  {
    assert items + [] == items;
  }

  lemma ReadFromStart(s: string, limit: Option<int>, expectValue: bool, afterComma: bool)
    requires limit.Some? ==> limit.value > 0
    ensures ReadArray(s, limit) ==
            Prepend([], Resume(s, 0, false, expectValue, afterComma, if limit.Some? then Some(limit.value) else None))
  {
    hide AtStart;
  }

  /** Handing out an object appends it to what was yielded before. */
  lemma PrependYield(items: seq<Json>, s: string, i: nat, v: Json, left: Option<nat>)
    requires i <= |s| && (left.Some? ==> left.value > 0)
    ensures Prepend(items, Yield(s, i, v, left)) ==
            if left == Some(1) then Reading(items + [v], Done)
            else Prepend(items + [v], AfterElement(s, i, if left.Some? then Some(left.value - 1) else None))
  {
    hide AfterElement;
    var r := AfterElement(s, i, if left.Some? && left.value > 0 then Some(left.value - 1) else None);
    assert items + ([v] + r.items) == (items + [v]) + r.items;
  }

  /** What the decoder says about the buffered part of an element decides the element. */
  lemma ElementDecoded(b: string, p: nat, s: string, i: nat, left: Option<nat>)
    requires p <= |b| && i <= |s| && Copied(b, s, i - p, p, |b|) && Value(b, p).Ok?
    ensures !Value(b, p).value.Obj? ==> AtElement(s, i, left) == Failed(ExpectedObject)
    ensures Value(b, p).value.Obj? ==> i + Value(b, p).end - p <= |s|
    ensures Value(b, p).value.Obj? ==>
      AtElement(s, i, left) == Yield(s, i + Value(b, p).end - p, Value(b, p).value, left)
  {
    hide Value, Copied, Yield;
    PartialDecode(b, p, s, i - p);
  }

  class ArrayReader {
    const text: string   // what the file delivers from start to end
    const chunkSize: nat
    var offset: nat      // characters the file has delivered so far
    var buffer: string
    var position: nat
    var eof: bool
    const limit: Option<int>
    var started: bool
    var expectValue: bool
    var afterComma: bool
    var yielded: seq<Json>

    ghost predicate Valid()
      reads this
    {
      && chunkSize > 0
      && position <= |buffer| <= offset <= |text|
      && buffer == text[offset - |buffer|..offset]
      && (eof ==> offset == |text|)
      && (limit.Some? ==> |yielded| < limit.value)
      && (!started ==> expectValue && !afterComma)
    }

    /** Index in the text of the next unread character. */
    ghost function Cursor(): (c: nat)
      requires Valid()
      reads this
      ensures c <= |text|
    {
      offset - |buffer| + position
    }

    /** What the reference makes of the unread text, behind what was yielded already. */
    ghost function Outcome(): Reading
      requires Valid()
      reads this
    {
      Prepend(yielded, Resume(text, Cursor(), started, expectValue, afterComma, Left()))
    }

    /** Objects still wanted. */
    ghost function Left(): Option<nat>
      requires Valid()
      reads this
    {
      if limit.Some? then Some(limit.value - |yielded|) else None
    }

    /** Refills still possible: one per undelivered character, one to see the end. */
    ghost function Refills(): nat
      requires Valid()
      reads this
    {
      if eof then 0 else 1 + |text| - offset
    }

    constructor (text: string, limit: Option<int>, chunkSize: nat)
      requires chunkSize > 0 && (limit.Some? ==> limit.value > 0)
      ensures Valid() && Cursor() == 0 && yielded == [] && !started
      ensures this.text == text && this.limit == limit
    {
      this.text, this.limit, this.chunkSize := text, limit, chunkSize;
      offset, buffer, position, eof := 0, "", 0, false;
      started, expectValue, afterComma, yielded := false, true, false, [];
    }

    /** A fresh reader is about to do what the reference does with the whole text. */
    lemma FromStart()
      requires Valid() && Cursor() == 0 && yielded == [] && !started
      ensures Outcome() == ReadArray(text, limit)
    {
      hide Resume, Prepend, ReadArray;
      ReadFromStart(text, limit, expectValue, afterComma);
    }

    /** Drops the consumed prefix and appends the next chunk, of any size the file chooses up to the limit. */
    method Refill()
      requires Valid() && !eof
      modifies this`buffer, this`position, this`offset, this`eof
      ensures Valid() && Cursor() == old(Cursor()) && Refills() < old(Refills())
    {
      buffer, position := buffer[position..], 0;
      if offset == |text| {
        eof := true;
      } else {
        var n: nat :| 1 <= n <= chunkSize && offset + n <= |text|;
        buffer, offset := buffer + text[offset..offset + n], offset + n;
      }
    }

    /** Advances over the spaces that are already buffered. */
    method SkipBuffered()
      requires Valid()
      modifies this`position
      ensures Valid() && old(position) <= position
      ensures SkipSpace(text, Cursor()) == SkipSpace(text, old(Cursor()))
      ensures position < |buffer| ==> !IsSpace(buffer[position])
    {
      ghost var start := Cursor();
      while position < |buffer| && IsSpace(buffer[position])
        invariant Valid() && old(position) <= position
        invariant forall k :: start <= k < Cursor() ==> IsSpace(text[k])
      {
        position := position + 1;
      }
      SkipSpaceStep(text, start, Cursor());
    }

    /** Everything after the closing bracket must be space. */
    method Finish() returns (ending: Ending)
      requires Valid()
      modifies this`buffer, this`position, this`offset, this`eof
      ensures AfterArray(text, old(Cursor())) == Reading([], ending)
    {
      ghost var start := Cursor();
      while true
        invariant Valid() && SkipSpace(text, start) == SkipSpace(text, Cursor())
        decreases Refills()
      {
        SkipBuffered();
        if position < |buffer| {
          assert text[Cursor()] == buffer[position];
          return Error(ContentAfterArray);
        }
        if eof { return Done; }
        Refill();
      }
    }

    /** Buffers the next character that is not space; `found` is false at the end of the text. */
    method Locate() returns (found: bool)
      requires Valid()
      modifies this`buffer, this`position, this`offset, this`eof
      ensures Valid() && Outcome() == old(Outcome())
      ensures old(Cursor()) <= Cursor()
      ensures found ==> position < |buffer| && !IsSpace(buffer[position])
      ensures !found ==> Cursor() == |text|
      ensures Cursor() == old(Cursor()) ==> Refills() <= old(Refills())
    {
      hide Resume, IsSpace, SkipSpace;
      while true
        invariant Valid() && old(Cursor()) <= Cursor()
        invariant SkipSpace(text, Cursor()) == SkipSpace(text, old(Cursor()))
        invariant Refills() <= old(Refills())
        decreases Refills()
      {
        if position >= |buffer| && !eof { Refill(); }
        SkipBuffered();
        if position < |buffer| {
          found := true;
          break;
        }
        if eof {
          found := false;
          break;
        }
        Refill();
      }
      ResumeSkips(text, old(Cursor()), Cursor(), started, expectValue, afterComma, Left());
    }

    /** One turn of the main loop; answers when the stream ends. */
    method Turn() returns (r: Option<Reading>)
      requires Valid()
      modifies this
      ensures r.Some? ==> r.value == old(Outcome())
      ensures r.None? ==> Valid() && Outcome() == old(Outcome())
      ensures r.None? ==> Cursor() > old(Cursor()) || (Cursor() == old(Cursor()) && Refills() < old(Refills()))
    {
      hide IsSpace, Resume, Prepend;
      var found := Locate();
      ResumeAt(text, Cursor(), started, expectValue, afterComma, Left());
      if !found {
        PrependNil(yielded, Error(Truncated));
        return Some(Reading(yielded, Error(Truncated)));
      }
      assert buffer[position] == text[Cursor()];
      if started && expectValue && buffer[position] != ']' {
        r := Element();
      } else {
        r := Punctuation();
      }
    }

    method Run() returns (r: Reading)
      requires Valid()
      modifies this
      ensures r == old(Outcome())
    {
      hide Outcome;
      while true
        invariant Valid() && Outcome() == old(Outcome())
        decreases |text| - Cursor(), Refills()
      {
        var answer := Turn();
        if answer.Some? { return answer.value; }
      }
    }

    /** An opening bracket, a separator or a closing bracket. */
    method Punctuation() returns (r: Option<Reading>)
      requires Valid() && position < |buffer| && !IsSpace(buffer[position])
      requires started && expectValue ==> buffer[position] == ']'
      modifies this
      ensures r.Some? ==> r.value == old(Outcome())
      ensures r.None? ==> Valid() && Outcome() == old(Outcome()) && Cursor() > old(Cursor())
    {
      hide IsSpace, Prepend, AtElement, AfterElement, AfterComma, AfterOpen, AtStart, AfterArray;
      var c := buffer[position];
      ResumeAt(text, Cursor(), started, expectValue, afterComma, Left());
      assert c == text[Cursor()];
      if !started {
        if c != '[' { r := Raise(NotAnArray); return; }
        position := position + 1;
        started := true;
        return None;
      }
      if !expectValue && c == ',' {
        position := position + 1;
        expectValue, afterComma := true, true;
        return None;
      }
      if c != ']' { r := Raise(ExpectedSeparator); return; }
      if expectValue && afterComma { r := Raise(TrailingComma); return; }
      r := Close();
    }

    /** The closing bracket. */
    method Close() returns (r: Option<Reading>)
      requires Valid() && position < |buffer| && Outcome() == Prepend(yielded, AfterArray(text, Cursor() + 1))
      modifies this`buffer, this`position, this`offset, this`eof
      ensures r == Some(old(Outcome()))
    {
      hide Resume, Prepend, AfterArray;
      position := position + 1;
      var ending := Finish();
      PrependNil(yielded, ending);
      return Some(Reading(yielded, ending));
    }

    /** The unread part of the buffer is a part of the text, and all of the rest once the file has ended. */
    lemma BufferCopied()
      requires Valid()
      ensures Copied(buffer, text, Cursor() - position, position, |buffer|)
      ensures eof ==> Copied(text, buffer, position - Cursor(), Cursor(), |text|)
    {
      var d := Cursor() - position;
      forall j | position <= j < |buffer| ensures buffer[j] == text[j + d] {
        assert text[offset - |buffer|..offset][j] == text[offset - |buffer| + j];
      }
    }

    method Raise(kind: ErrorKind) returns (r: Option<Reading>)
      ensures r == Some(Prepend(yielded, Failed(kind)))
    {
      PrependNil(yielded, Error(kind));
      return Some(Reading(yielded, Error(kind)));
    }

    /** An element: decode what is buffered, and on failure fetch more until the file ends. */
    method Element() returns (r: Option<Reading>)
      requires Valid() && position < |buffer| && !IsSpace(buffer[position])
      requires started && expectValue && buffer[position] != ']'
      modifies this
      ensures r.Some? ==> r.value == old(Outcome())
      ensures r.None? ==> Valid() && Outcome() == old(Outcome())
      ensures r.None? ==> Cursor() > old(Cursor()) || (Cursor() == old(Cursor()) && Refills() < old(Refills()))
    {
      hide IsSpace, Prepend, Value, Yield, AfterElement, AfterComma, AfterOpen, AtStart, AfterArray, Copied;
      ResumeAt(text, Cursor(), started, expectValue, afterComma, Left());
      BufferCopied();
      match Value(buffer, position) {
        case Fail =>
          if eof {
            if Value(text, Cursor()).Ok? { PartialDecode(text, Cursor(), buffer, position - Cursor()); }
            r := Raise(InvalidElement);
            return;
          }
          Refill();
          return None;
        case Ok(item, end) =>
          ElementDecoded(buffer, position, text, Cursor(), Left());
          if !item.Obj? { r := Raise(ExpectedObject); return; }
          r := Accept(item, end);
      }
    }

    /** Yields a decoded object and moves behind it; stops when it was the last one wanted. */
    method Accept(item: Json, end: nat) returns (r: Option<Reading>)
      requires Valid() && position < end <= |buffer| && started
      requires Outcome() == Prepend(yielded, Yield(text, Cursor() + end - position, item, Left()))
      modifies this
      ensures r.Some? ==> r.value == old(Outcome())
      ensures r.None? ==> Valid() && Outcome() == old(Outcome()) && Cursor() > old(Cursor())
    {
      hide Prepend, Yield, AfterElement;
      PrependYield(yielded, text, Cursor() + end - position, item, Left());
      position := end;
      expectValue, afterComma := false, false;
      yielded := yielded + [item];
      if limit.Some? && |yielded| >= limit.value { return Some(Reading(yielded, Done)); }
      return None;
    }
  }

  /**
   Streams the array out of `text` in chunks of at most `chunkSize` characters.
   Terminates, and agrees with the whole-text reference however the text is cut.
   */
  method ReadRecords(text: string, limit: Option<int>, chunkSize: int) returns (r: Reading)
    ensures chunkSize <= 0 ==> r == Failed(BadChunkSize)
    ensures chunkSize > 0 ==> r == ReadArray(text, limit)
  {
    hide AtStart;
    if chunkSize <= 0 { return Failed(BadChunkSize); }
    if limit.Some? && limit.value <= 0 { return Reading([], Done); }
    r := Stream(text, limit, chunkSize);
  }

  method Stream(text: string, limit: Option<int>, chunkSize: nat) returns (r: Reading)
    requires chunkSize > 0 && (limit.Some? ==> limit.value > 0)
    ensures r == ReadArray(text, limit)
  {
    var reader := new ArrayReader(text, limit, chunkSize);
    hide *;
    reader.FromStart();
    r := reader.Run();
  }
}
