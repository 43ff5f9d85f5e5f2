/** The Python string operations the benchmark code relies on. */
module Text {

  /** `str.isspace` on one character. */
  predicate IsSpace(c: char) {
    var n := c as int;
    || 0x09 <= n <= 0x0d || 0x1c <= n <= 0x20 || n == 0x85 || n == 0xa0 || n == 0x1680
    || 0x2000 <= n <= 0x200a || n == 0x2028 || n == 0x2029 || n == 0x202f || n == 0x205f || n == 0x3000
  }

  predicate IsSlash(c: char) { c == '/' }

  function StripLeft(s: string, drop: char -> bool): string {
    if s != "" && drop(s[0]) then StripLeft(s[1..], drop) else s
  }

  function StripRight(s: string, drop: char -> bool): string {
    if s != "" && drop(s[|s| - 1]) then StripRight(s[..|s| - 1], drop) else s
  }

  function Strip(s: string, drop: char -> bool): string { StripRight(StripLeft(s, drop), drop) }

  predicate StartsWith(s: string, prefix: string) { prefix <= s }

  /** `str.split` with a one-character separator: never empty. */
  function Split(s: string, sep: char): (parts: seq<string>)
    ensures parts != []
  {
    if s == "" then [""]
    else if s[0] == sep then [""] + Split(s[1..], sep)
    else
      var rest := Split(s[1..], sep);
      [[s[0]] + rest[0]] + rest[1..]
  }

  function Join(parts: seq<string>, sep: char): string {
    if parts == [] then ""
    else if |parts| == 1 then parts[0]
    else parts[0] + [sep] + Join(parts[1..], sep)
  }

  function Nonempty(parts: seq<string>): seq<string> {
    if parts == [] then []
    else (if parts[0] != "" then [parts[0]] else []) + Nonempty(parts[1..])
  }

  lemma {:induction false} SplitNone(s: string, sep: char)
    requires sep !in s
    ensures Split(s, sep) == [s]
  {
    if s != "" {
      SplitNone(s[1..], sep);
      assert s == [s[0]] + s[1..];
    }
  }

  lemma {:induction false} SplitFirst(a: string, sep: char, b: string)
    requires sep !in a
    ensures Split(a + [sep] + b, sep) == [a] + Split(b, sep)
  {
    var s := a + [sep] + b;
    if a == "" {
      assert s[1..] == b;
    } else {
      assert s[1..] == a[1..] + [sep] + b;
      SplitFirst(a[1..], sep, b);
      var rest := Split(s[1..], sep);
      assert rest == [a[1..]] + Split(b, sep);
      assert rest[1..] == Split(b, sep);
      assert [a[0]] + a[1..] == a;
    }
  }

  /** The parts of a split hold no separator, and joining them gives the string back. */
  lemma {:induction false} SplitParts(s: string, sep: char)
    ensures forall k :: 0 <= k < |Split(s, sep)| ==> sep !in Split(s, sep)[k]
    ensures Join(Split(s, sep), sep) == s
  {
    if s != "" {
      SplitParts(s[1..], sep);
      var rest := Split(s[1..], sep);
      assert s == [s[0]] + s[1..];
      if s[0] == sep {
        assert ([""] + rest)[1..] == rest;
      } else {
        var parts := [[s[0]] + rest[0]] + rest[1..];
        assert parts[1..] == rest[1..];
      }
    }
  }

  lemma {:induction false} SplitJoin(parts: seq<string>, sep: char)
    requires parts != [] && forall i :: 0 <= i < |parts| ==> sep !in parts[i]
    ensures Split(Join(parts, sep), sep) == parts
  {
    if |parts| == 1 {
      SplitNone(parts[0], sep);
      assert parts == [parts[0]];
    } else {
      SplitFirst(parts[0], sep, Join(parts[1..], sep));
      SplitJoin(parts[1..], sep);
      assert parts == [parts[0]] + parts[1..];
    }
  }

  /** Splitting a joined list followed by a separator and more text. */
  lemma {:induction false} SplitJoinThen(parts: seq<string>, sep: char, rest: string)
    requires parts != [] && forall i :: 0 <= i < |parts| ==> sep !in parts[i]
    ensures Split(Join(parts, sep) + [sep] + rest, sep) == parts + Split(rest, sep)
  {
    hide Split;
    if |parts| == 1 {
      SplitFirst(parts[0], sep, rest);
      assert parts == [parts[0]];
    } else {
      var more := Join(parts[1..], sep) + [sep] + rest;
      assert Join(parts, sep) + [sep] + rest == parts[0] + [sep] + more;
      SplitFirst(parts[0], sep, more);
      SplitJoinThen(parts[1..], sep, rest);
      assert parts + Split(rest, sep) == [parts[0]] + (parts[1..] + Split(rest, sep));
    }
  }

  lemma {:induction false} JoinAppend(a: seq<string>, b: seq<string>, sep: char)
    requires a != [] && b != []
    ensures Join(a + b, sep) == Join(a, sep) + [sep] + Join(b, sep)
  {
    assert (a + b)[1..] == a[1..] + b;
    if |a| > 1 {
      JoinAppend(a[1..], b, sep);
      assert a[0] + [sep] + (Join(a[1..], sep) + [sep] + Join(b, sep)) ==
        a[0] + [sep] + Join(a[1..], sep) + [sep] + Join(b, sep);
    } else {
      assert a + b == [a[0]] + b;
    }
  }

  lemma {:induction false} NonemptyAll(parts: seq<string>)
    requires forall i :: 0 <= i < |parts| ==> parts[i] != ""
    ensures Nonempty(parts) == parts
  {
    if parts != [] {
      NonemptyAll(parts[1..]);
      assert parts == [parts[0]] + parts[1..];
    }
  }

  /** Joined nonempty parts start and end as their first and last part do. */
  lemma {:induction false} JoinEnds(parts: seq<string>, sep: char)
    requires parts != [] && forall i :: 0 <= i < |parts| ==> parts[i] != ""
    ensures var s := Join(parts, sep); var l := parts[|parts| - 1];
      s != "" && s[0] == parts[0][0] && s[|s| - 1] == l[|l| - 1]
  {
    if |parts| > 1 {
      var rest := parts[1..];
      assert rest[|rest| - 1] == parts[|parts| - 1];
      JoinEnds(rest, sep);
      AppendEnds(parts[0] + [sep], Join(rest, sep));
    }
  }

  lemma AppendEnds(s: string, t: string)
    requires s != "" && t != ""
    ensures s + t != "" && (s + t)[0] == s[0] && (s + t)[|s + t| - 1] == t[|t| - 1]
  {
  }

  lemma StripNothing(s: string, drop: char -> bool)
    requires s != "" ==> !drop(s[0]) && !drop(s[|s| - 1])
    ensures Strip(s, drop) == s
  {
  }

  lemma {:induction false} StripsLeft(a: string, t: string, drop: char -> bool)
    requires (forall k :: 0 <= k < |a| ==> drop(a[k])) && t != "" && !drop(t[0])
    ensures StripLeft(a + t, drop) == t
  {
    if a == "" { assert a + t == t; } else {
      assert (a + t)[1..] == a[1..] + t;
      StripsLeft(a[1..], t, drop);
    }
  }

  lemma {:induction false} StripsRight(t: string, b: string, drop: char -> bool)
    requires (forall k :: 0 <= k < |b| ==> drop(b[k])) && t != "" && !drop(t[|t| - 1])
    ensures StripRight(t + b, drop) == t
  {
    if b == "" { assert t + b == t; } else {
      assert (t + b)[..|t + b| - 1] == t + b[..|b| - 1];
      StripsRight(t, b[..|b| - 1], drop);
    }
  }

  lemma StripsAround(a: string, t: string, b: string, drop: char -> bool)
    requires (forall k :: 0 <= k < |a| ==> drop(a[k])) && (forall k :: 0 <= k < |b| ==> drop(b[k]))
    requires t != "" && !drop(t[0]) && !drop(t[|t| - 1])
    ensures Strip(a + t + b, drop) == t
  {
    assert a + t + b == a + (t + b);
    StripsLeft(a, t + b, drop);
    StripsRight(t, b, drop);
  }

  lemma {:induction false} StripsAll(a: string, drop: char -> bool)
    requires forall k :: 0 <= k < |a| ==> drop(a[k])
    ensures Strip(a, drop) == ""
  {
    if a != "" { StripsAll(a[1..], drop); }
  }
}
