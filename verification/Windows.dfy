/**
 `unique_filter`: row windows whose start steps by 997 modulo the number of possible
 starts.  The windows of one run are pairwise different exactly up to a period.
 */
module Windows {
  import opened Prelude
  import opened Arith

  const STEP: nat := 997

  function Width(rows: int): nat { Max(10, Min(100, rows)) }

  /** How many starts a window can have. */
  function Span(rows: int): (r: nat)
    ensures r >= 1
  {
    Max(1, rows - Width(rows) + 1)
  }

  function Start(request: nat, rows: int, salt: nat): (r: nat)
    ensures r < Span(rows)
  {
    Rem((request + salt) * STEP, Span(rows))
  }

  /** The window is `Start <= row < Start + Width`; it lies inside the rows exactly when there are ten of them. */
  lemma WindowInside(request: nat, rows: nat, salt: nat)
    ensures Start(request, rows, salt) + Width(rows) <= rows <==> rows >= 10
  {
  }

  /** The width and the number of starts, by the number of rows. */
  lemma WindowSizes(rows: nat)
    ensures rows >= 100 ==> Width(rows) == 100 && Span(rows) == rows - 99
    ensures 10 <= rows < 100 ==> Width(rows) == rows && Span(rows) == 1
    ensures rows < 10 ==> Width(rows) == 10 && Span(rows) == 1
  {
  }

  /** Starts begin at 0 and step by 997, around the possible starts; the salt shifts the requests. */
  lemma NextStart(request: nat, rows: int, salt: nat)
    ensures Start(0, rows, 0) == 0
    ensures Start(request + 1, rows, salt) == Rem(Start(request, rows, salt) + 997, Span(rows))
    ensures Start(request, rows, salt + 1) == Start(request + 1, rows, salt)
  {
    hide Rem, Quot, Width;
    var span := Span(rows);
    SmallRem(0, span);
    var x := (request + salt) * STEP;
    assert (request + 1 + salt) * STEP == x + 997;
    DivisionLaw(x, span);
    var q, r := Quot(x, span), Rem(x, span);
    DivisionLaw(r + 997, span);
    var k, t := Quot(r + 997, span), Rem(r + 997, span);
    Distribute(span, q, k);
    DivisionUnique(x + 997, span, q + k, t);
  }

  // --------------------------------------------------------- 997 is a prime

  lemma StepIsPrime(g: nat, h: nat)
    requires g * h == STEP
    ensures g == 1 || g == STEP
  {
  }

  // ---------------------------------------------------------------- Bezout

  /** The greatest common divisor with its cofactors and a combination that gives it. */
  lemma {:induction false} Bezout(a: nat, b: nat) returns (g: nat, p: nat, q: nat, x: int, y: int)
    requires a > 0
    ensures a == g * p && b == g * q && x * a + y * b == g
    decreases b
  {
    if b == 0 {
      g, p, q, x, y := a, 1, 0, 1, 0;
    } else {
      hide Quot, Rem;
      var k, r := Quot(a, b), Rem(a, b);
      DivisionLaw(a, b);
      var u, v;
      g, q, p, u, v := Bezout(b, r);
      // b == g*q, r == g*p, u*b + v*r == g
      x, y := v, u - v * k;
      Combine(a, b, k, r, u, v);
      Cofactor(g, q, p, k);
      p := q * k + p;
    }
  }

  lemma Combine(a: int, b: int, k: int, r: int, u: int, v: int)
    requires a == b * k + r
    ensures v * a + (u - v * k) * b == u * b + v * r
  {
    assert v * a == v * (b * k) + v * r;
    assert (u - v * k) * b == u * b - v * k * b;
    assert v * (b * k) == v * k * b;
  }

  lemma Cofactor(g: int, q: int, p: int, k: int)
    ensures (g * q) * k + g * p == g * (q * k + p)
  {
    Associate(g, q, k);
    Distribute(g, q * k, p);
  }

  /** Euclid: a number that divides a multiple of 997 and shares no factor with it divides the other factor. */
  lemma CoprimeDivides(span: nat, d: nat, k: nat) returns (t: nat)
    requires span >= 1 && span % STEP != 0 && span * k == STEP * d
    ensures d == span * t
  {
    var g, p, q, x, y := Bezout(STEP, span);
    StepIsPrime(g, p);
    assert g == 1 by {
      if g == STEP { Divides(span, q); }
    }
    // x*997 + y*span == 1, so k == 997 * (x*k + y*d)
    Scaled(x, y, span, k, d);
    var z := x * k + y * d;
    CancelStep(span, d, k, z);
    t := z;
  }

  lemma Divides(span: nat, q: nat)
    requires span == STEP * q
    ensures span % STEP == 0
  {
  }

  lemma Scaled(x: int, y: int, span: int, k: int, d: int)
    requires x * STEP + y * span == 1 && span * k == STEP * d
    ensures k == STEP * (x * k + y * d)
  {
    assert k == (x * STEP + y * span) * k == x * STEP * k + y * span * k;
    assert y * span * k == y * (span * k) == y * (STEP * d);
  }

  lemma CancelStep(span: nat, d: nat, k: nat, z: int)
    requires span >= 1 && span * k == STEP * d && k == STEP * z
    ensures z >= 0 && d == span * z
  {
    assert span * (STEP * z) == STEP * (span * z);
  }

  // ------------------------------------------------------------ the windows

  /** How many consecutive requests get different windows. */
  function Period(span: nat): nat
    requires span >= 1
  {
    if span % STEP == 0 then span / STEP else span
  }

  lemma SameRemainder(a: nat, b: nat, m: nat) returns (k: nat)
    requires m >= 1 && a <= b && Rem(a, m) == Rem(b, m)
    ensures b - a == m * k
  {
    hide Quot, Rem;
    DivisionLaw(a, m);
    DivisionLaw(b, m);
    var p, q := Quot(a, m), Quot(b, m);
    Distribute(m, q, p);
    if q < p {
      Distribute(m, p, q);
      MulAtLeast(m, p - q);
    }
    k := q - p;
  }

  lemma NotZero(m: nat, k: nat, d: nat)
    requires d == m * k && d > 0
    ensures k >= 1
  {
  }

  lemma Colliding(a: nat, b: nat, rows: int, salt: nat)
    requires a < b && Start(a, rows, salt) == Start(b, rows, salt)
    ensures b - a >= Period(Span(rows))
  {
    hide Rem, Width;
    var span, d := Span(rows), b - a;
    assert (b + salt) * STEP - (a + salt) * STEP == STEP * d;
    var k := SameRemainder((a + salt) * STEP, (b + salt) * STEP, span);
    if span % STEP == 0 {
      var t := span / STEP;
      assert span == STEP * t;
      assert STEP * t * k == STEP * (t * k);
      assert d == t * k;
      NotZero(t, k, d);
      MulAtLeast(t, k);
    } else {
      var t := CoprimeDivides(span, d, k);
      NotZero(span, t, d);
      MulAtLeast(span, t);
    }
  }

  lemma PeriodRepeats(rows: int, salt: nat)
    ensures Start(Period(Span(rows)), rows, salt) == Start(0, rows, salt)
  {
    hide Rem, Quot, Width;
    var span := Span(rows);
    var n := Period(span);
    var c: nat := if span % STEP == 0 then 1 else STEP;
    assert n * STEP == span * c;
    var x := salt * STEP;
    assert (n + salt) * STEP == n * STEP + x;
    DivisionLaw(x, span);
    Distribute(span, Quot(x, span), c);
    DivisionUnique(x + span * c, span, Quot(x, span) + c, Rem(x, span));
  }

  ghost predicate AllDifferent(count: nat, rows: int, salt: nat) {
    forall a, b :: 0 <= a < b < count ==> Start(a, rows, salt) != Start(b, rows, salt)
  }

  /** The windows of a run are pairwise different exactly when the run is no longer than the period. */
  lemma WindowsDifferIff(count: nat, rows: int, salt: nat)
    ensures AllDifferent(count, rows, salt) <==> count <= Period(Span(rows))
  {
    hide Start, Span;
    var n := Period(Span(rows));
    if count <= n {
      forall a, b | 0 <= a < b < count ensures Start(a, rows, salt) != Start(b, rows, salt) {
        if Start(a, rows, salt) == Start(b, rows, salt) { Colliding(a, b, rows, salt); }
      }
    } else {
      PeriodRepeats(rows, salt);
      assert n > 0 by { PeriodPositive(Span(rows)); }
    }
  }

  lemma PeriodPositive(span: nat)
    requires span >= 1
    ensures Period(span) >= 1
  {
  }

  /** In numbers, from a hundred rows on. */
  lemma DifferentWindows(count: nat, rows: nat, salt: nat)
    requires rows >= 100
    ensures AllDifferent(count, rows, salt) <==>
      count <= if (rows - 99) % 997 == 0 then (rows - 99) / 997 else rows - 99
  {
    hide Start;
    WindowSizes(rows);
    WindowsDifferIff(count, rows, salt);
  }
}
