/**
 Memory lines for prompt injection: formatting, and greedy packing under a character
 budget.  Reading a memory is a function of its URI that may fail; token estimates are a
 function of the line.
 */
module Recall {
  import opened Prelude
  import opened Text
  import opened Sums

  datatype Item = Item(category: string, uri: string, summary: string, level: int)

  datatype Options = Options(preferAbstract: bool, includeUri: bool, maxInjectedChars: Option<int>,
    tokenBudget: Option<int>)

  /** What `String.prototype.trim` removes. */
  predicate IsJsSpace(c: char) {
    var n := c as int;
    || 0x09 <= n <= 0x0d || n == 0x20 || n == 0xa0 || n == 0x1680 || 0x2000 <= n <= 0x200a
    || n == 0x2028 || n == 0x2029 || n == 0x202f || n == 0x205f || n == 0x3000 || n == 0xfeff
  }

  function Trim(s: string): string { Strip(s, IsJsSpace) }

  /** Trimming removes exactly the white space at both ends. */
  lemma TrimIs(a: string, t: string, b: string)
    requires (forall k :: 0 <= k < |a| ==> IsJsSpace(a[k])) && (forall k :: 0 <= k < |b| ==> IsJsSpace(b[k]))
    requires t != "" ==> !IsJsSpace(t[0]) && !IsJsSpace(t[|t| - 1])
    ensures Trim(a + t + b) == t
  {
    hide IsJsSpace;
    if t != "" {
      StripsAround(a, t, b, IsJsSpace);
    } else {
      assert a + t + b == a + b;
      StripsAll(a + b, IsJsSpace);
    }
  }

  function OrElse(s: string, other: string): string { if s != "" then s else other }

  /** `resolveMemoryContent`. */
  function Content(item: Item, read: string -> Option<string>, o: Options): string {
    var summary := Trim(item.summary);
    if o.preferAbstract && summary != "" then summary
    else if item.level == 2 && read(item.uri).Some? && Trim(read(item.uri).value) != "" then Trim(read(item.uri).value)
    else OrElse(summary, item.uri)
  }

  function Indent(lines: seq<string>): seq<string> {
    if lines == [] then [] else ["  " + lines[0]] + Indent(lines[1..])
  }

  /** `formatMemoryLine`. */
  function FormatLine(item: Item, content: string, o: Options): (line: string)
    ensures |line| > 0
  {
    var head := "- [" + OrElse(Trim(item.category), "memory") + "]";
    if !o.includeUri then head + " " + content
    else head + "\n" + "  <uri>" + item.uri + "</uri>" + "\n" + Join(Indent(Split(content, '\n')), '\n')
  }

  /** What a memory is shown as: its summary if preferred, else its full text if it can be read, else what there is. */
  lemma ContentChoice(item: Item, read: string -> Option<string>, o: Options)
    ensures o.preferAbstract && Trim(item.summary) != "" ==> Content(item, read, o) == Trim(item.summary)
    ensures var readable := item.level == 2 && read(item.uri).Some? && Trim(read(item.uri).value) != "";
      && (!(o.preferAbstract && Trim(item.summary) != "") && readable ==>
            Content(item, read, o) == Trim(read(item.uri).value))
      && (!readable && Trim(item.summary) != "" ==> Content(item, read, o) == Trim(item.summary))
      && (!readable && Trim(item.summary) == "" ==> Content(item, read, o) == item.uri)
    ensures item.uri != "" ==> Content(item, read, o) != ""
  {
  }

  function Unindent(lines: seq<string>): seq<string> {
    if lines == [] then [] else [if |lines[0]| >= 2 then lines[0][2..] else ""] + Unindent(lines[1..])
  }

  /** A line names its category, and its content can be read back from it. */
  lemma LineRecovered(item: Item, content: string, o: Options)
    ensures var head := "- [" + OrElse(Trim(item.category), "memory") + "]"; var line := FormatLine(item, content, o);
      && head <= line
      && (!o.includeUri ==> line == head + " " + content)
      && (o.includeUri && '\n' !in Trim(item.category) && '\n' !in item.uri ==>
            var parts := Split(line, '\n');
            && |parts| > 2 && parts[0] == head && parts[1] == "  <uri>" + item.uri + "</uri>"
            && Join(Unindent(parts[2..]), '\n') == content)
  {
    hide Trim, Split, Join, Indent, Unindent;
    var name := OrElse(Trim(item.category), "memory");
    var head := "- [" + name + "]";
    if o.includeUri {
      var rest := "\n" + "  <uri>" + item.uri + "</uri>" + "\n" + Join(Indent(Split(content, '\n')), '\n');
      assert FormatLine(item, content, o) == head + rest;
      if '\n' !in Trim(item.category) && '\n' !in item.uri {
        OneLineName(name);
        UriLine(head, item.uri, content);
      }
    }
  }

  lemma OneLineName(name: string)
    requires '\n' !in name
    ensures '\n' !in "- [" + name + "]" && '\n' !in "memory"
  {
  }

  lemma UriLine(head: string, uri: string, content: string)
    requires '\n' !in head && '\n' !in uri
    ensures var line := head + "\n" + "  <uri>" + uri + "</uri>" + "\n" + Join(Indent(Split(content, '\n')), '\n');
      var parts := Split(line, '\n');
      && |parts| > 2 && parts[0] == head && parts[1] == "  <uri>" + uri + "</uri>"
      && Join(Unindent(parts[2..]), '\n') == content
  {
    hide Split, Join, Indent, Unindent;
    var body := Split(content, '\n');
    var tag := "  <uri>" + uri + "</uri>";
    var rest := Join(Indent(body), '\n');
    var line := head + "\n" + "  <uri>" + uri + "</uri>" + "\n" + rest;
    assert line == head + ['\n'] + (tag + ['\n'] + rest);
    SplitFirst(head, '\n', tag + ['\n'] + rest);
    SplitFirst(tag, '\n', rest);
    SplitParts(content, '\n');
    Indented(body);
    SplitJoin(Indent(body), '\n');
    assert ([head] + ([tag] + Indent(body)))[2..] == Indent(body);
  }

  lemma {:induction false} Indented(lines: seq<string>)
    requires forall k :: 0 <= k < |lines| ==> '\n' !in lines[k]
    ensures |Indent(lines)| == |lines| && (forall k :: 0 <= k < |lines| ==> '\n' !in Indent(lines)[k])
    ensures Unindent(Indent(lines)) == lines
  {
    if lines != [] {
      Indented(lines[1..]);
      assert ("  " + lines[0])[2..] == lines[0];
    }
  }

  function Line(item: Item, read: string -> Option<string>, o: Options): (line: string)
    ensures |line| > 0
  {
    FormatLine(item, Content(item, read, o), o)
  }

  function AllLines(items: seq<Item>, read: string -> Option<string>, o: Options): (r: seq<string>)
    ensures |r| == |items| && forall i :: 0 <= i < |items| ==> r[i] == Line(items[i], read, o)
  {
    seq(|items|, i requires 0 <= i < |items| => Line(items[i], read, o))
  }

  /** `buildMemoryLines`. */
  method BuildMemoryLines(items: seq<Item>, read: string -> Option<string>, o: Options) returns (lines: seq<string>)
    ensures lines == AllLines(items, read, o)
  {
    hide Content, FormatLine;
    lines := [];
    for i := 0 to |items|
      invariant |lines| == i && forall k :: 0 <= k < i ==> lines[k] == Line(items[k], read, o)
    {
      lines := lines + [FormatLine(items[i], Content(items[i], read, o), o)];
    }
  }

  // ----------------------------------------------------------- greedy packing

  /** The length of a string in JavaScript: characters beyond the basic plane count twice. */
  function Units(s: string): (n: nat)
    ensures n >= |s|
  {
    if s == "" then 0 else (if s[0] as int > 0xFFFF then 2 else 1) + Units(s[1..])
  }

  lemma {:induction false} UnitsAppend(s: string, t: string)
    ensures Units(s + t) == Units(s) + Units(t)
  {
    if s == "" {
      assert s + t == t;
    } else {
      UnitsAppend(s[1..], t);
      assert (s + t)[1..] == s[1..] + t;
    }
  }

  lemma UnitsOfOne(c: char)
    ensures Units([c]) == if c as int > 0xFFFF then 2 else 1
  {
    assert [c][1..] == "";
  }

  /** Length of the lines joined by newlines. */
  function Joined(lines: seq<string>): nat { Units(Join(lines, '\n')) }

  lemma JoinedOneMore(lines: seq<string>, line: string)
    ensures Joined(lines + [line]) == Joined(lines) + (if lines == [] then 0 else 1) + Units(line)
  {
    if lines == [] {
      assert lines + [line] == [line];
    } else {
      JoinAppend(lines, [line], '\n');
      UnitsAppend(Join(lines, '\n'), ['\n']);
      UnitsAppend(Join(lines, '\n') + ['\n'], line);
      assert Units(['\n']) == 1 by { assert ['\n'][1..] == ""; }
    }
  }

  /** First fit: positions of the lines that are kept. */
  function Picks(all: seq<string>, budget: int): (r: seq<nat>)
    ensures forall k :: 0 <= k < |r| ==> r[k] < |all|
    ensures forall j, k :: 0 <= j < k < |r| ==> r[j] < r[k]
  {
    if all == [] then []
    else
      var n := |all| - 1;
      var r := Picks(all[..n], budget);
      if Joined(Select(all[..n], r) + [all[n]]) <= budget then r + [n] else r
  }

  function Select(all: seq<string>, picks: seq<nat>): (r: seq<string>)
    requires forall k :: 0 <= k < |picks| ==> picks[k] < |all|
    ensures |r| == |picks| && forall k :: 0 <= k < |r| ==> r[k] == all[picks[k]]
  {
    seq(|picks|, k requires 0 <= k < |picks| => all[picks[k]])
  }

  function Kept(all: seq<string>, budget: int): seq<string> { Select(all, Picks(all, budget)) }

  /** One more line is appended exactly when it still fits. */
  lemma KeptStep(all: seq<string>, budget: int)
    requires all != []
    ensures var n := |all| - 1; var g := Kept(all[..n], budget);
      Kept(all, budget) == if Joined(g + [all[n]]) <= budget then g + [all[n]] else g
  {
    hide Joined;
  }

  /** The kept lines never exceed a nonnegative budget. */
  lemma {:induction false} KeptFits(all: seq<string>, budget: nat)
    ensures Joined(Kept(all, budget)) <= budget
  {
    hide Kept;
    if all == [] {
      assert Kept(all, budget) == [] by { KeptNothing(budget); }
    } else {
      KeptFits(all[..|all| - 1], budget);
      KeptStep(all, budget);
    }
  }

  lemma KeptNothing(budget: int)
    ensures Kept([], budget) == []
  {
  }

  /** First fit: a line is kept exactly when it fits behind the lines kept before it. */
  lemma {:induction false} PickedIff(all: seq<string>, budget: int, i: nat)
    requires i < |all|
    ensures i in Picks(all, budget) <==> Joined(Kept(all[..i], budget) + [all[i]]) <= budget
  {
    hide Joined;
    var n := |all| - 1;
    if i < n {
      PickedIff(all[..n], budget, i);
      assert all[..n][..i] == all[..i];
    }
  }

  /** No omitted line could still be appended. */
  lemma {:induction false} KeptIsMaximal(all: seq<string>, budget: int, i: nat)
    requires i < |all| && i !in Picks(all, budget)
    ensures Joined(Kept(all, budget) + [all[i]]) > budget
  {
    hide Joined, Kept;
    var n := |all| - 1;
    var g := Kept(all[..n], budget);
    KeptStep(all, budget);
    PicksStep(all, budget);
    if i < n {
      KeptIsMaximal(all[..n], budget, i);
      if Kept(all, budget) != g {
        JoinedOneMore(g + [all[n]], all[i]);
        JoinedOneMore(g, all[i]);
        JoinedOneMore(g, all[n]);
      }
    }
  }

  lemma PicksStep(all: seq<string>, budget: int)
    requires all != []
    ensures var n := |all| - 1; forall i :: i in Picks(all[..n], budget) ==> i in Picks(all, budget)
    ensures var n := |all| - 1; n !in Picks(all, budget) ==> Joined(Kept(all[..n], budget) + [all[n]]) > budget
  {
    hide Joined;
  }

  /** When everything fits, nothing is dropped. */
  lemma {:induction false} KeptAll(all: seq<string>, budget: int)
    requires Joined(all) <= budget
    ensures Kept(all, budget) == all
  {
    hide Joined, Kept;
    if all == [] {
      KeptNothing(budget);
    } else {
      var n := |all| - 1;
      assert all == all[..n] + [all[n]];
      JoinedOneMore(all[..n], all[n]);
      KeptAll(all[..n], budget);
      KeptStep(all, budget);
    }
  }

  /** Once the budget is reached, later nonempty lines change nothing. */
  lemma {:induction false} KeptStops(all: seq<string>, budget: int, n: nat)
    requires n <= |all| && Joined(Kept(all[..n], budget)) >= budget
    requires forall k :: 0 <= k < |all| ==> all[k] != ""
    ensures Kept(all, budget) == Kept(all[..n], budget)
    decreases |all|
  {
    hide Joined, Kept;
    if n == |all| {
      assert all[..n] == all;
    } else {
      var m := |all| - 1;
      assert all[..m][..n] == all[..n];
      KeptStops(all[..m], budget, n);
      KeptStep(all, budget);
      JoinedOneMore(Kept(all[..n], budget), all[m]);
    }
  }

  function Budget(o: Options): int {
    if o.maxInjectedChars.Some? then o.maxInjectedChars.value
    else if o.tokenBudget.Some? then o.tokenBudget.value
    else 0
  }

  /** The lines fit the limit, and all of them are there if all fit. */
  ghost predicate WithinLimit(all: seq<string>, lines: seq<string>, limit: int) {
    (limit >= 0 ==> Joined(lines) <= limit) && (Joined(all) <= limit ==> lines == all)
  }

  lemma LimitRespected(all: seq<string>, limit: int)
    requires forall k :: 0 <= k < |all| ==> all[k] != ""
    ensures WithinLimit(all, Kept(all, limit), limit) && (limit <= 0 ==> Kept(all, limit) == [])
  {
    hide Joined, Kept;
    if limit >= 0 { KeptFits(all, limit); }
    if Joined(all) <= limit { KeptAll(all, limit); }
    KeptNothing(limit);
    assert all[..0] == [] && Joined([]) == 0 by { JoinedEmpty(); }
    if limit <= 0 { KeptStops(all, limit, 0); }
  }

  /** `buildMemoryLinesWithBudget`: the first-fit selection of the unbudgeted lines. */
  method BuildMemoryLinesWithBudget(items: seq<Item>, read: string -> Option<string>, o: Options, tokens: string -> nat)
    returns (lines: seq<string>, estimatedTokens: nat)
    ensures lines == Kept(AllLines(items, read, o), Budget(o))
    ensures estimatedTokens == Sum(lines, tokens)
    ensures Budget(o) >= 0 ==> Joined(lines) <= Budget(o)
    // The character limit wins over the token limit; with neither, nothing is kept.
    ensures o.maxInjectedChars.Some? ==> WithinLimit(AllLines(items, read, o), lines, o.maxInjectedChars.value)
    ensures o.maxInjectedChars.None? && o.tokenBudget.Some? ==>
      WithinLimit(AllLines(items, read, o), lines, o.tokenBudget.value)
    ensures o.maxInjectedChars.None? && o.tokenBudget.None? ==> lines == []
  {
    hide Content, FormatLine, Joined, Kept;
    var budget := Budget(o);
    var totalChars := 0;
    ghost var all := AllLines(items, read, o);
    lines, estimatedTokens := [], 0;
    KeptNothing(budget);
    assert Joined([]) == 0 by { JoinedEmpty(); }
    for i := 0 to |items|
      invariant lines == Kept(all[..i], budget) && totalChars == Joined(lines)
      invariant estimatedTokens == Sum(lines, tokens)
    {
      if totalChars >= budget {
        KeptStops(all, budget, i);
        break;
      }
      var line := FormatLine(items[i], Content(items[i], read, o), o);
      assert all[..i + 1][..i] == all[..i] && all[..i + 1][i] == line;
      KeptStep(all[..i + 1], budget);
      JoinedOneMore(lines, line);
      var separatorChars := if |lines| > 0 then 1 else 0;
      var projectedChars := totalChars + separatorChars + Units(line);
      if projectedChars > budget { continue; }
      SumAppend(lines, [line], tokens);
      SumOne(line, tokens);
      lines := lines + [line];
      estimatedTokens := estimatedTokens + tokens(line);
      totalChars := projectedChars;
    }
    assert all[..|items|] == all;
    LimitRespected(all, budget);
  }

  lemma JoinedEmpty()
    ensures Joined([]) == 0
  {
  }
}
