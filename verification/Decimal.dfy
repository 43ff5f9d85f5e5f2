/** Decimal numerals, as `str(n)` and f-strings write them. */
module Decimal {

  function Digit(n: nat): char
    requires n < 10
  {
    ('0' as int + n) as char
  }

  function Show(n: nat): (s: string)
    ensures s != ""
  {
    if n < 10 then [Digit(n)] else Show(n / 10) + [Digit(n % 10)]
  }

  predicate AllDigits(s: string) { forall i :: 0 <= i < |s| ==> '0' <= s[i] <= '9' }

  lemma {:induction false} ShowDigits(n: nat)
    ensures AllDigits(Show(n))
  {
    if n >= 10 { ShowDigits(n / 10); }
  }

  /** Different numbers have different numerals. */
  lemma {:induction false} ShowInjective(m: nat, n: nat)
    requires Show(m) == Show(n)
    ensures m == n
  {
    var s, t := Show(m), Show(n);
    assert s[|s| - 1] == Digit(m % 10) && t[|t| - 1] == Digit(n % 10);
    if m >= 10 && n >= 10 {
      assert s[..|s| - 1] == Show(m / 10) && t[..|t| - 1] == Show(n / 10);
      ShowInjective(m / 10, n / 10);
    }
  }

  /** The number a numeral stands for. */
  function Read(s: string): int { if s == "" then 0 else 10 * Read(s[..|s| - 1]) + (s[|s| - 1] as int - '0' as int) }

  /** A numeral reads back as its number, and has no leading zero. */
  lemma {:induction false} ShowReads(n: nat)
    ensures Read(Show(n)) == n && (n > 0 ==> Show(n)[0] != '0')
  {
    var s := Show(n);
    if n < 10 {
      assert s[..|s| - 1] == "";
    } else {
      ShowReads(n / 10);
      assert s[..|s| - 1] == Show(n / 10);
    }
  }
}
