/**
 * The parts of JavaScript number semantics the carousel relies on, over exact
 * reals: the truncating remainder operator `%`, `Math.round`, `Math.abs`,
 * `Math.min` and `Math.max`. IEEE-754 rounding is not modelled.
 */
module JsNumber {

  function Abs(x: real): (r: real)
    ensures r >= 0.0
    ensures r == x || r == -x
  {
    if x < 0.0 then -x else x
  }

  function Min(a: real, b: real): (r: real)
    ensures r <= a && r <= b
    ensures r == a || r == b
  {
    if a <= b then a else b
  }

  function Max(a: real, b: real): (r: real)
    ensures r >= a && r >= b
    ensures r == a || r == b
  {
    if a >= b then a else b
  }

  /** The integer part of `x`, rounding toward zero (the quotient JavaScript's `%` uses). */
  function Trunc(x: real): (t: int)
    ensures x >= 0.0 ==> t as real <= x < t as real + 1.0
    ensures x < 0.0 ==> t as real - 1.0 < x <= t as real
  {
    if x >= 0.0 then x.Floor else -((-x).Floor)
  }

  /**
   * JavaScript `a % b`: `a - b * q` where `q` is `a / b` truncated toward zero,
   * so the result takes the sign of `a`.
   */
  function Rem(a: real, b: real): (r: real)
    requires b > 0.0
    ensures a >= 0.0 ==> 0.0 <= r < b
    ensures a < 0.0 ==> -b < r <= 0.0
  {
    var q := Trunc(a / b);
    QuotientBounds(a, b, q);
    a - b * q as real
  }

  /** JavaScript `Math.round`: halves go toward positive infinity, so `Math.round(-2.5) == -2`. */
  function Round(x: real): (n: int)
    ensures x - 0.5 < n as real <= x + 0.5
  {
    (x + 0.5).Floor
  }

  /** The mathematical (floored) remainder, always in `[0, n)`. */
  function FloorMod(p: real, n: real): (r: real)
    requires n > 0.0
    ensures 0.0 <= r < n
  {
    var q := (p / n).Floor;
    QuotientBounds(p, n, q);
    p - n * q as real
  }

  /** Multiplying the bounds of a quotient back out by a positive divisor. */
  lemma QuotientBounds(a: real, b: real, q: int)
    requires b > 0.0
    ensures q as real <= a / b ==> b * q as real <= a
    ensures a / b < q as real + 1.0 ==> a < b * q as real + b
    ensures a / b <= q as real ==> a <= b * q as real
    ensures q as real - 1.0 < a / b ==> b * q as real - b < a
  {
    QuotientBelow(a, b, q as real);
    QuotientBelow(a, b, q as real + 1.0);
    QuotientAbove(a, b, q as real);
    QuotientAbove(a, b, q as real - 1.0);
  }

  lemma QuotientBelow(a: real, b: real, x: real)
    requires b > 0.0
    ensures a / b <= x ==> a <= b * x
    ensures a / b < x ==> a < b * x
  {
    assert a == b * (a / b);
    MulMonotone(b, a / b, x);
  }

  lemma QuotientAbove(a: real, b: real, x: real)
    requires b > 0.0
    ensures x <= a / b ==> b * x <= a
    ensures x < a / b ==> b * x < a
  {
    assert a == b * (a / b);
    MulMonotone(b, x, a / b);
  }

  lemma MulMonotone(b: real, x: real, y: real)
    requires b > 0.0
    ensures x <= y ==> b * x <= b * y
    ensures x < y ==> b * x < b * y
  {
    assert b * y - b * x == b * (y - x);
  }

  /** `Round` is monotone. */
  lemma RoundMonotone(x: real, y: real)
    requires x <= y
    ensures Round(x) <= Round(y)
  {
  }

  /** Rounding an integer gives it back. */
  lemma RoundOfInt(k: int)
    ensures Round(k as real) == k
  {
  }

  /**
   * The floored remainder is characterised by its range and congruence: any
   * `r` in `[0, n)` that differs from `p` by an integer multiple of `n` is it.
   */
  lemma FloorModUnique(p: real, n: real, m: int, r: real)
    requires n > 0.0
    requires 0.0 <= r < n
    requires p == r + n * m as real
    ensures FloorMod(p, n) == r
  {
    assert p / n == m as real + r / n;
    assert 0.0 <= r / n < 1.0 by { QuotientBounds(r, n, 0); QuotientBounds(r, n, 1); }
    assert (p / n).Floor == m;
  }

  /** A number is its floored remainder plus the whole turns taken off. */
  lemma FloorModSplits(p: real, n: real)
    requires n > 0.0
    ensures p == FloorMod(p, n) + n * (p / n).Floor as real
  {
  }

  /** Shifting by whole turns does not change the floored remainder. */
  lemma {:induction false} FloorModPeriodic(p: real, n: real, k: int)
    requires n > 0.0
    ensures FloorMod(p + n * k as real, n) == FloorMod(p, n)
  {
    var q := (p / n).Floor;
    assert n * (q + k) as real == n * q as real + n * k as real;
    FloorModUnique(p + n * k as real, n, q + k, FloorMod(p, n));
  }

  /** On a non-negative dividend JavaScript's `%` already is the floored remainder. */
  lemma RemOfNonneg(a: real, n: real)
    requires n > 0.0 && a >= 0.0
    ensures Rem(a, n) == FloorMod(a, n)
  {
    assert a / n >= 0.0 by { QuotientBounds(a, n, 0); }
  }

  /**
   * JavaScript's `((p % n) + n) % n` is the floored remainder: it lies in
   * `[0, n)` and differs from `p` by a whole number of `n`.
   */
  lemma {:induction false} DoubleRemIsFloorMod(p: real, n: real)
    requires n > 0.0
    ensures Rem(Rem(p, n) + n, n) == FloorMod(p, n)
  {
    var t := Trunc(p / n);
    var k := 1 - t;
    var s := Rem(p, n) + n;
    // the inner remainder lies in (-n, n), so s is never negative
    assert s >= 0.0;
    RemOfNonneg(s, n);
    assert n * k as real == n - n * t as real;
    assert s == p + n * k as real;
    FloorModPeriodic(p, n, k);
  }
}
