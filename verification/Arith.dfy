/** Division with remainder by a variable divisor, packaged so that callers need no nonlinear reasoning. */
module Arith {

  function Quot(x: nat, m: nat): nat
    requires m >= 1
  {
    x / m
  }

  function Rem(x: nat, m: nat): (r: nat)
    requires m >= 1
    ensures r < m
  {
    x % m
  }

  function Times(a: nat, b: nat): nat { a * b }

  lemma MulAtLeast(m: nat, d: nat)
    requires d >= 1
    ensures m * d >= m
  {
  }

  lemma Distribute(a: int, b: int, c: int)
    ensures a * (b + c) == a * b + a * c && a * (b - c) == a * b - a * c
  {
  }

  lemma Associate(a: int, b: int, c: int)
    ensures a * b * c == a * (b * c)
  {
  }

  lemma DivisionLaw(x: nat, m: nat)
    requires m >= 1
    ensures x == m * Quot(x, m) + Rem(x, m)
  {
  }

  /** Quotient and remainder are determined by the division law. */
  lemma DivisionUnique(x: nat, m: nat, q: nat, r: nat)
    requires m >= 1 && x == m * q + r && r < m
    ensures Quot(x, m) == q && Rem(x, m) == r
  {
    hide Quot, Rem;
    DivisionLaw(x, m);
    var k := Quot(x, m);
    Distribute(m, k, q);
    Distribute(m, q, k);
    if k > q { MulAtLeast(m, k - q); }
    if q > k { MulAtLeast(m, q - k); }
  }

  /** The last digit and the rest of a residue. */
  lemma RemSplit(x: nat, f: nat, m: nat)
    requires f >= 1 && m >= 1
    ensures f * m >= 1 && Rem(x, f * m) == f * Rem(Quot(x, f), m) + Rem(x, f)
  {
    hide Quot, Rem;
    MulAtLeast(f, m);
    var q, r := Quot(x, f), Rem(x, f);
    var a, b := Quot(q, m), Rem(q, m);
    DivisionLaw(x, f);
    DivisionLaw(q, m);
    Distribute(f, m * a, b);
    Associate(f, m, a);
    Distribute(f, m, b);
    MulAtLeast(f, m - b);
    DivisionUnique(x, f * m, a, f * b + r);
  }

  /** Dividing twice is dividing by the product. */
  lemma QuotSplit(x: nat, f: nat, m: nat)
    requires f >= 1 && m >= 1
    ensures f * m >= 1 && Quot(x, f * m) == Quot(Quot(x, f), m)
  {
    hide Quot, Rem;
    MulAtLeast(f, m);
    var q, r := Quot(x, f), Rem(x, f);
    var a, b := Quot(q, m), Rem(q, m);
    DivisionLaw(x, f);
    DivisionLaw(q, m);
    Distribute(f, m * a, b);
    Associate(f, m, a);
    Distribute(f, m, b);
    MulAtLeast(f, m - b);
    DivisionUnique(x, f * m, a, f * b + r);
  }

  lemma SplitEqual(f: nat, u: nat, r: nat, v: nat, t: nat)
    requires f >= 1 && r < f && t < f && f * u + r == f * v + t
    ensures u == v && r == t
  {
    hide Quot, Rem;
    DivisionUnique(f * u + r, f, u, r);
    DivisionUnique(f * v + t, f, v, t);
  }

  /** One more: the remainder steps up, or wraps and the quotient does. */
  lemma NextRem(n: nat, m: nat)
    requires m >= 1
    ensures if Rem(n, m) + 1 < m then Rem(n + 1, m) == Rem(n, m) + 1 && Quot(n + 1, m) == Quot(n, m)
            else Rem(n + 1, m) == 0 && Quot(n + 1, m) == Quot(n, m) + 1
  {
    hide Quot, Rem;
    DivisionLaw(n, m);
    var q, t := Quot(n, m), Rem(n, m);
    if t + 1 < m {
      DivisionUnique(n + 1, m, q, t + 1);
    } else {
      Distribute(m, q, 1);
      DivisionUnique(n + 1, m, q + 1, 0);
    }
  }

  lemma SmallRem(x: nat, m: nat)
    requires x < m
    ensures Rem(x, m) == x && Quot(x, m) == 0
  {
    DivisionUnique(x, m, 0, x);
  }

  function CeilDiv(n: nat, m: nat): nat
    requires m >= 1
  {
    Quot(n + m - 1, m)
  }

  lemma CeilDivIs(n: nat, m: nat)
    requires m >= 1
    ensures CeilDiv(n, m) == Quot(n, m) + if Rem(n, m) > 0 then 1 else 0
  {
    hide Quot, Rem;
    DivisionLaw(n, m);
    var q, t := Quot(n, m), Rem(n, m);
    if t > 0 {
      Distribute(m, q, 1);
      DivisionUnique(n + m - 1, m, q + 1, t - 1);
    } else {
      DivisionUnique(n + m - 1, m, q, m - 1);
    }
  }
}
