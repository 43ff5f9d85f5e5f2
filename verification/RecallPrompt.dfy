/** From recalled memories to the rewritten prompt: budgeted lines, their block, and its injection. */
module RecallPrompt {
  import opened Prelude
  import opened Text
  import Recall
  import RecallInjection

  /** The last message is from the user and holds no recall block yet. */
  predicate Open(ms: seq<RecallInjection.Message>) {
    ms != [] && ms[|ms| - 1].role == "user" && !RecallInjection.HasRecallBlock(ms[|ms| - 1])
  }

  /**
   Recalls into a conversation.  Without a line that fits, or without an unmarked user
   message at the end, nothing changes.  Otherwise all earlier messages stay, and the last
   one's text begins with the block's opening lines, the kept lines in order, and the
   closing tag.
   */
  method InjectRecall(items: seq<Recall.Item>, read: string -> Option<string>, o: Recall.Options,
    tokens: string -> nat, ms: seq<RecallInjection.Message>) returns (out: seq<RecallInjection.Message>)
    ensures var kept := Recall.Kept(Recall.AllLines(items, read, o), Recall.Budget(o));
      if kept == [] || !Open(ms) then out == ms
      else
        && |out| == |ms| && out[..|ms| - 1] == ms[..|ms| - 1]
        && RecallInjection.BlockHead() + Join(kept, '\n') + ['\n'] + RecallInjection.CLOSE_TAG
           <= RecallInjection.Extract(out[|ms| - 1].content)
  {
    hide Recall.Kept, Recall.AllLines, RecallInjection.Extract, RecallInjection.PrependText, RecallInjection.Contains,
      RecallInjection.RecallBlock, RecallInjection.BlockHead, Join;
    var lines, estimated := Recall.BuildMemoryLinesWithBudget(items, read, o, tokens);
    if lines == [] { return ms; }
    var block := RecallInjection.RecallBlock(lines);
    RecallInjection.RecallBlockMarked(lines);
    RecallInjection.BlockShape(lines);
    if Open(ms) { RecallInjection.InjectedFirst(ms, block); }
    out := RecallInjection.Inject(ms, block);
  }
}
