/**
 Prepending a recall block to the latest user message.  Content is a string, a list of
 blocks, or anything else; only text blocks with string text contribute to a message's
 text.
 */
module RecallInjection {
  import opened Text

  const MARKER := "Source: openviking-auto-recall"
  const OPEN_TAG := "<relevant-memories>"
  const SENTENCE := "The following OpenViking " + "memories may be relevant:"
  const CLOSE_TAG := "</relevant-memories>"

  /** A text block with its other fields, or any other entry of a content list. */
  datatype Block = TextBlock(text: string, fields: map<string, string>) | OtherBlock(payload: string)

  datatype Content = Plain(text: string) | Blocks(blocks: seq<Block>) | OtherContent(payload: string)

  datatype Message = Message(role: string, content: Content, fields: map<string, string>)

  function BlockText(b: Block): string { if b.TextBlock? then b.text else "" }

  function BlockTexts(bs: seq<Block>): seq<string> {
    if bs == [] then [] else [BlockText(bs[0])] + BlockTexts(bs[1..])
  }

  /** `extractAgentMessageText`: nonempty block texts, joined by newlines. */
  function Extract(c: Content): string {
    match c
    case Plain(s) => s
    case Blocks(bs) => Join(Nonempty(BlockTexts(bs)), '\n')
    case OtherContent(_) => ""
  }

  predicate Contains(s: string, part: string) {
    exists i :: 0 <= i <= |s| && part <= s[i..]
  }

  predicate HasRecallBlock(m: Message) { Contains(Extract(m.content), MARKER) }

  /** `prependTextToMessageContent`. */
  function PrependText(c: Content, text: string): Content {
    match c
    case Plain(s) => Plain(text + "\n\n" + s)
    case Blocks(bs) =>
      if bs == [] then Blocks([TextBlock(text, map[])])
      else if bs[0].TextBlock? then Blocks([bs[0].(text := text + "\n\n" + bs[0].text)] + bs[1..])
      else Blocks([TextBlock(text, map[])] + bs)
    case OtherContent(_) => Plain(text)
  }

  /** `prependRecallToLatestUserMessage`. */
  function Inject(ms: seq<Message>, block: string): seq<Message> {
    if ms == [] then ms
    else
      var last := ms[|ms| - 1];
      if last.role != "user" || HasRecallBlock(last) then ms
      else ms[..|ms| - 1] + [last.(content := PrependText(last.content, block))]
  }

  /** `buildRecallContextBlock`. */
  function RecallBlock(lines: seq<string>): string {
    Join([OPEN_TAG, MARKER, SENTENCE] + lines + [CLOSE_TAG], '\n')
  }

  // -------------------------------------------------------------- containing

  lemma ContainsMiddle(a: string, part: string, b: string)
    ensures Contains(a + part + b, part)
  {
    assert (a + part + b)[|a|..] == part + b;
  }

  lemma ContainsLonger(a: string, s: string, b: string, part: string)
    requires Contains(s, part)
    ensures Contains(a + s + b, part)
  {
    var i :| 0 <= i <= |s| && part <= s[i..];
    assert (a + s + b)[|a| + i..] == s[i..] + b;
  }

  lemma SecondOfMany(a: string, m: string, rest: seq<string>)
    requires rest != []
    ensures Contains(Join([a, m] + rest, '\n'), m)
  {
    JoinAppend([a, m], rest, '\n');
    assert Join([a, m], '\n') == a + ['\n'] + m;
    hide Join, Contains;
    var tail := ['\n'] + Join(rest, '\n');
    ContainsMiddle(a + ['\n'], m, tail);
    assert a + ['\n'] + m + tail == a + ['\n'] + m + ['\n'] + Join(rest, '\n');
  }

  /** Every block this code builds carries the marker. */
  lemma RecallBlockMarked(lines: seq<string>)
    ensures Contains(RecallBlock(lines), MARKER)
  {
    hide Join, Contains;
    SecondOfMany(OPEN_TAG, MARKER, [SENTENCE] + lines + [CLOSE_TAG]);
    assert [OPEN_TAG, MARKER, SENTENCE] + lines + [CLOSE_TAG] ==
      [OPEN_TAG, MARKER] + ([SENTENCE] + lines + [CLOSE_TAG]);
  }

  // --------------------------------------------------------------- the block

  /** What stands in front of the memory lines. */
  function BlockHead(): string { OPEN_TAG + ['\n'] + (MARKER + ['\n'] + SENTENCE) + ['\n'] }

  /** A block is the head, the lines joined by newlines, and the closing tag on a line of its own. */
  lemma BlockShape(lines: seq<string>)
    ensures lines != [] ==> RecallBlock(lines) == BlockHead() + Join(lines, '\n') + ['\n'] + CLOSE_TAG
    ensures lines == [] ==> RecallBlock(lines) == BlockHead() + CLOSE_TAG
  {
    FourParts(OPEN_TAG, MARKER, SENTENCE, lines, CLOSE_TAG);
  }

  lemma FourParts(a: string, b: string, c: string, lines: seq<string>, d: string)
    ensures var head := a + ['\n'] + (b + ['\n'] + c) + ['\n'];
      Join([a, b, c] + lines + [d], '\n') == if lines == [] then head + d else head + Join(lines, '\n') + ['\n'] + d
  {
    ThreeLines(a, b, c);
    JoinSingle(d);
    hide Join;
    JoinAppend([a, b, c], lines + [d], '\n');
    assert [a, b, c] + (lines + [d]) == [a, b, c] + lines + [d];
    if lines == [] {
      assert lines + [d] == [d];
    } else {
      JoinAppend(lines, [d], '\n');
      var head := a + ['\n'] + (b + ['\n'] + c) + ['\n'];
      assert head + (Join(lines, '\n') + ['\n'] + d) == head + Join(lines, '\n') + ['\n'] + d;
    }
  }

  lemma JoinSingle(s: string)
    ensures Join([s], '\n') == s
  {
  }

  lemma ThreeLines(a: string, b: string, c: string)
    ensures Join([a, b, c], '\n') == a + ['\n'] + (b + ['\n'] + c)
  {
    assert [a, b, c][1..] == [b, c] && [b, c][1..] == [c];
    assert Join([b, c], '\n') == b + ['\n'] + c;
  }

  /** Taken apart at newlines, a block is its three opening lines, the memory lines in order, and the closing tag. */
  lemma BlockLines(lines: seq<string>)
    requires forall k :: 0 <= k < |lines| ==> '\n' !in lines[k]
    ensures Split(RecallBlock(lines), '\n') ==
      ["<relevant-memories>", "Source: openviking-auto-recall", SENTENCE] + lines + ["</relevant-memories>"]
  {
    hide Split, Join;
    var all := [OPEN_TAG, MARKER, SENTENCE] + lines + [CLOSE_TAG];
    OneLine();
    SplitJoin(all, '\n');
  }

  lemma OneLine()
    ensures '\n' !in OPEN_TAG && '\n' !in MARKER && '\n' !in SENTENCE && '\n' !in CLOSE_TAG
  {
    var a, b := "The following OpenViking ", "memories may be relevant:";
    assert '\n' !in a && '\n' !in b;
  }

  // --------------------------------------------------------------- extracting

  /** The text of a message, by the shape of its content. */
  lemma ExtractShapes(s: string)
    ensures Extract(Plain(s)) == s && Extract(Blocks([])) == "" && Extract(OtherContent(s)) == ""
  {
  }

  /** Text of a block list whose first text is `t`. */
  lemma ExtractFirst(b: Block, bs: seq<Block>)
    ensures var t := if b.TextBlock? then b.text else ""; var rest := Extract(Blocks(bs));
      Extract(Blocks([b] + bs)) ==
      if t == "" then rest else if Nonempty(BlockTexts(bs)) == [] then t else t + ['\n'] + rest
  {
    assert ([b] + bs)[1..] == bs;
    var ts := Nonempty(BlockTexts(bs));
    var t := BlockText(b);
    assert ([t] + BlockTexts(bs))[1..] == BlockTexts(bs);
    assert BlockTexts([b] + bs) == [t] + BlockTexts(bs);
    if t == "" { assert [] + ts == ts; }
    if t != "" {
      assert Nonempty(BlockTexts([b] + bs)) == [t] + ts;
      assert ([t] + ts)[1..] == ts;
    }
  }

  /** What a message says after prepending: the block, possibly a separator, and what it said before. */
  lemma PrependedText(c: Content, text: string) returns (between: string)
    requires !c.OtherContent? && text != ""
    ensures Extract(PrependText(c, text)) == text + between + Extract(c)
  {
    match c
    case Plain(s) =>
      between := "\n\n";
    case Blocks(bs) =>
      if bs == [] {
        ExtractFirst(TextBlock(text, map[]), []);
        between := "";
        assert [TextBlock(text, map[])] + [] == [TextBlock(text, map[])];
        assert Extract(c) == "";
      } else if bs[0].TextBlock? {
        between := PrependedToText(bs[0], bs[1..], text);
        assert bs == [bs[0]] + bs[1..];
      } else {
        ExtractFirst(TextBlock(text, map[]), bs);
        hide Nonempty, BlockTexts;
        between := if Nonempty(BlockTexts(bs)) == [] then "" else ['\n'];
      }
  }

  lemma PrependedToText(b: Block, rest: seq<Block>, text: string) returns (between: string)
    requires b.TextBlock? && text != ""
    ensures Extract(Blocks([b.(text := text + "\n\n" + b.text)] + rest)) == text + between + Extract(Blocks([b] + rest))
  {
    ExtractFirst(b, rest);
    ExtractFirst(b.(text := text + "\n\n" + b.text), rest);
    hide Nonempty, BlockTexts;
    between := if b.text == "" && Nonempty(BlockTexts(rest)) != [] then "\n\n" + ['\n'] else "\n\n";
  }

  // --------------------------------------------------------------- theorems

  /** After prepending, the marker is in the message's text, whatever shape its content had. */
  lemma PrependMarks(c: Content, text: string)
    requires Contains(text, MARKER)
    ensures Contains(Extract(PrependText(c, text)), MARKER)
  {
    assert text != "";
    hide Contains, Extract, PrependText;
    StillContains(c, text, MARKER);
  }

  lemma StillContains(c: Content, text: string, part: string)
    requires Contains(text, part) && text != ""
    ensures Contains(Extract(PrependText(c, text)), part)
  {
    hide Contains, Extract, PrependText;
    if c.OtherContent? {
      OtherReplaced(c, text);
    } else {
      var between := PrependedText(c, text);
      ContainsLonger("", text, between + Extract(c), part);
      assert "" + text + (between + Extract(c)) == text + between + Extract(c);
    }
  }

  /** Prepending to a list changes at most its first text block; everything else stays, in order. */
  lemma PrependKeeps(bs: seq<Block>, text: string)
    ensures PrependText(Blocks(bs), text).Blocks?
    ensures var rs := PrependText(Blocks(bs), text).blocks;
      if bs != [] && bs[0].TextBlock? then
        |rs| == |bs| && rs[1..] == bs[1..] && rs[0].TextBlock? && rs[0].fields == bs[0].fields
        && rs[0].text == text + "\n\n" + bs[0].text
      else |rs| == |bs| + 1 && rs[1..] == bs && rs[0].TextBlock? && rs[0].text == text
  {
  }

  /** After injection, the last message's text begins with the block. */
  lemma InjectedFirst(ms: seq<Message>, block: string)
    requires Contains(block, MARKER) && ms != []
    requires ms[|ms| - 1].role == "user" && !HasRecallBlock(ms[|ms| - 1])
    ensures |Inject(ms, block)| == |ms| && block <= Extract(Inject(ms, block)[|ms| - 1].content)
  {
    var c := ms[|ms| - 1].content;
    assert block != "";
    hide Extract, PrependText, Contains;
    if c.OtherContent? {
      OtherReplaced(c, block);
    } else {
      var between := PrependedText(c, block);
      assert block + between + Extract(c) == block + (between + Extract(c));
    }
  }

  lemma OtherReplaced(c: Content, text: string)
    requires c.OtherContent?
    ensures Extract(PrependText(c, text)) == text
  {
  }

  /** Injecting twice is injecting once, for any second block. */
  lemma InjectIdempotent(ms: seq<Message>, block: string, again: string)
    requires Contains(block, MARKER)
    ensures Inject(Inject(ms, block), again) == Inject(ms, block)
  {
    hide PrependText, Extract, Contains;
    if ms != [] { PrependMarks(ms[|ms| - 1].content, block); }
  }

  /** The messages change exactly when there is an unmarked user message at the end. */
  lemma InjectChangesIff(ms: seq<Message>, block: string)
    requires Contains(block, MARKER)
    ensures Inject(ms, block) != ms <==> ms != [] && ms[|ms| - 1].role == "user" && !HasRecallBlock(ms[|ms| - 1])
  {
    hide PrependText, Extract, Contains;
    if ms != [] && ms[|ms| - 1].role == "user" && !HasRecallBlock(ms[|ms| - 1]) {
      PrependMarks(ms[|ms| - 1].content, block);
      assert Inject(ms, block)[|ms| - 1] != ms[|ms| - 1];
    }
  }

  /**
   All earlier messages, the number of messages and the last one's role and other fields
   stay; its text keeps the original text as a suffix when the content was a string or a
   list.
   */
  lemma InjectPreserves(ms: seq<Message>, block: string)
    requires Contains(block, MARKER) && ms != []
    ensures var n := |ms| - 1; var out := Inject(ms, block);
      && |out| == |ms| && out[..n] == ms[..n]
      && out[n].role == ms[n].role && out[n].fields == ms[n].fields
      && (!ms[n].content.OtherContent? ==> EndsWith(Extract(out[n].content), Extract(ms[n].content)))
  {
    var n := |ms| - 1;
    hide Extract, PrependText;
    if !ms[n].content.OtherContent? {
      assert block != "";
      var between := PrependedText(ms[n].content, block);
      EndsWithTail(block + between, Extract(ms[n].content));
      EndsWithTail("", Extract(ms[n].content));
      assert "" + Extract(ms[n].content) == Extract(ms[n].content);
    }
  }

  ghost predicate EndsWith(s: string, tail: string) { |tail| <= |s| && s[|s| - |tail|..] == tail }

  lemma EndsWithTail(a: string, b: string)
    ensures EndsWith(a + b, b)
  {
  }
}
