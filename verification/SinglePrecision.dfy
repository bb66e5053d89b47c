/**
 What rounding to single precision does to the scaling of an axis. A rounding function is only known by
 what round-to-nearest guarantees; exact arithmetic is one such function.
 */
module SinglePrecision {
  const EXACT_MAX := 16777216                     // integers up to here are floats
  const HALF_ULP: real := 1.0 / 16777216.0
  const RANGE_MAX := 4194304                      // output ranges up to here are safe from rounding

  predicate SmallInt(x: real) {
    x.Floor as real == x && -16777216.0 <= x <= 16777216.0
  }

  /** Names a value that the guarantees are used for. */
  predicate Used(x: real) {
    true
  }

  /** What is used of rounding to nearest, for magnitudes within the exponent range. */
  ghost predicate Rounding(fl: real -> real) {
    && (forall x: real, y: real {:trigger Used(x), Used(y)} :: Used(x) && Used(y) && x <= y ==> fl(x) <= fl(y))
    && forall x: real {:trigger Used(x)} :: Used(x) ==>
         && (SmallInt(x) ==> fl(x) == x)
         && fl(fl(x)) == fl(x)
         && fl(-x) == -fl(x)
         && (x >= 0.0 ==> x - x * HALF_ULP <= fl(x) <= x + x * HALF_ULP)
  }

  lemma ExactIsRounding()
    ensures Rounding(x => x)
  {
    forall x: real {:trigger Used(x)} | x >= 0.0 ensures x - x * HALF_ULP <= x <= x + x * HALF_ULP {
      assert x * HALF_ULP >= 0.0;
    }
  }

  // ----- the operations on floats

  function Of(fl: real -> real, n: int): real {
    fl(n as real)
  }

  function Mul(fl: real -> real, x: real, y: real): real {
    fl(x * y)
  }

  function Div(fl: real -> real, x: real, y: real): real
    requires y > 0.0
  {
    fl(x / y)
  }

  function Percent(fl: real -> real, perc: nat): real {
    Div(fl, Of(fl, perc), 100.0)
  }

  /** No positive integer rounds to zero. */
  ghost predicate KeepsPositive(fl: real -> real) {
    forall n: int :: n > 0 ==> Of(fl, n) > 0.0
  }

  lemma RoundingKeepsPositive(fl: real -> real)
    requires Rounding(fl)
    ensures KeepsPositive(fl)
  {
    forall n: int | n > 0 ensures Of(fl, n) > 0.0 { Positive(fl, n, n); }
  }

  // ----- single uses of the guarantees

  lemma Exact(fl: real -> real, n: int)
    requires Rounding(fl) && -EXACT_MAX <= n <= EXACT_MAX
    ensures fl(n as real) == n as real
  {
    assert Used(n as real) && SmallInt(n as real);
  }

  lemma Ordered(fl: real -> real, x: real, y: real)
    requires Rounding(fl) && x <= y
    ensures fl(x) <= fl(y)
  {
    assert Used(x) && Used(y);
  }

  lemma Close(fl: real -> real, x: real)
    requires Rounding(fl) && x >= 0.0
    ensures x - x * HALF_ULP <= fl(x) <= x + x * HALF_ULP && fl(x) >= 0.0
  {
    assert Used(x);
    Exact(fl, 0);
    Ordered(fl, 0.0, x);
  }

  lemma Kept(fl: real -> real, x: real)
    requires Rounding(fl)
    ensures fl(fl(x)) == fl(x) && fl(-x) == -fl(x)
  {
    assert Used(x);
  }

  lemma Negated(fl: real -> real, n: int, x: real, y: real)
    requires Rounding(fl)
    ensures Of(fl, -n) == -Of(fl, n) && Mul(fl, -x, y) == -Mul(fl, x, y)
  {
    Kept(fl, n as real);
    Kept(fl, x * y);
    assert (-n) as real == -(n as real) && (-x) * y == -(x * y);
  }

  // ----- products and quotients

  lemma Shrunk(x: real, f: real)
    requires 0.0 <= x && 0.0 <= f <= 1.0
    ensures 0.0 <= x * f <= x
  {
  }

  lemma Product(v: real, d: real, s: real, q: real)
    requires 0.0 <= v <= d && 0.0 <= s <= q
    ensures 0.0 <= v * s <= q * d
  {
    assert 0.0 <= (d - v) * s;
    assert 0.0 <= d * (q - s);
  }

  lemma Quotient(m: real, d: real)
    requires 0.0 <= m && 0.0 < d
    ensures 0.0 <= m / d && m / d * d == m
  {
  }

  lemma Distribute(x: real, y: real, u: real, d: real)
    requires x - x * u <= y <= x + x * u && d >= 0.0
    ensures x * d - (x * d) * u <= y * d <= x * d + (x * d) * u
  {
    assert 0.0 <= (x + x * u - y) * d;
    assert 0.0 <= (y - x + x * u) * d;
    assert (x * u) * d == (x * d) * u;
  }

  /** A percentage is at most one, rounded or not. */
  lemma PercentIsShare(fl: real -> real, perc: nat)
    requires Rounding(fl) && perc <= 100
    ensures 0.0 <= Percent(fl, perc) <= 1.0
    ensures perc == 100 ==> Percent(fl, perc) == 1.0
  {
    Exact(fl, perc);
    Exact(fl, 0);
    Exact(fl, 1);
    Ordered(fl, 0.0, perc as real / 100.0);
    Ordered(fl, perc as real / 100.0, 1.0);
  }

  /** A share of a float is at most that float. */
  lemma ShareOf(fl: real -> real, x: real, p: real)
    requires Rounding(fl) && x >= 0.0 && fl(x) == x && 0.0 <= p <= 1.0
    ensures 0.0 <= Mul(fl, x, p) <= x && (p == 1.0 ==> Mul(fl, x, p) == x)
  {
    Shrunk(x, p);
    Exact(fl, 0);
    Ordered(fl, 0.0, x * p);
    Ordered(fl, x * p, x);
  }

  /** The rounded quotient of the range by the rounded span, brought back to the span. */
  lemma QuotientBack(fl: real -> real, m: int, sf: real)
    requires Rounding(fl) && 0 <= m <= RANGE_MAX && sf >= 1.0
    ensures var q := Div(fl, m as real, sf);
            q >= 0.0 && fl(q) == q && m as real - 0.25 <= q * sf <= m as real + 0.25
  {
    var x := m as real / sf;
    Quotient(m as real, sf);
    Close(fl, x);
    Kept(fl, x);
    Distribute(x, fl(x), HALF_ULP, sf);
    assert m as real * HALF_ULP <= 0.25;
  }

  /** Rounding a product that is at most a quarter above `m` leaves less than `m` + 1. */
  lemma LastRounding(fl: real -> real, x: real, y: real, m: int)
    requires Rounding(fl) && 0 <= m <= RANGE_MAX && 0.0 <= x * y <= m as real + 0.25
    ensures 0.0 <= Mul(fl, x, y) < (m + 1) as real
    ensures x * y >= m as real - 0.25 ==> Mul(fl, x, y) > (m - 1) as real
  {
    Close(fl, x * y);
    assert x * y * HALF_ULP <= 0.5;
  }

  /** A positive integer is at least one as a float, and the order of two stays. */
  lemma Positive(fl: real -> real, v: int, span: int)
    requires Rounding(fl) && 0 < v <= span
    ensures 1.0 <= Of(fl, v) <= Of(fl, span)
  {
    Exact(fl, 1);
    Ordered(fl, 1.0, v as real);
    Ordered(fl, v as real, span as real);
  }

  /** Part `v` of the span, scaled to a share of the range, is less than the range and one. */
  lemma ScaledPart(fl: real -> real, m: int, vf: real, sf: real, p: real)
    requires Rounding(fl) && 0 <= m <= RANGE_MAX && 1.0 <= vf <= sf && 0.0 <= p <= 1.0
    ensures var s := Mul(fl, Div(fl, m as real, sf), p); 0.0 <= Mul(fl, vf, s) < (m + 1) as real
  {
    var q := Div(fl, m as real, sf);
    QuotientBack(fl, m, sf);
    ShareOf(fl, q, p);
    var s := Mul(fl, q, p);
    Product(vf, sf, s, q);
    LastRounding(fl, vf, s, m);
  }

  /** The whole span, scaled to the whole range, is within one of it. */
  lemma ScaledWhole(fl: real -> real, m: int, sf: real)
    requires Rounding(fl) && 0 <= m <= RANGE_MAX && sf >= 1.0
    ensures var s := Mul(fl, Div(fl, m as real, sf), 1.0); (m - 1) as real < Mul(fl, sf, s) < (m + 1) as real
  {
    var q := Div(fl, m as real, sf);
    QuotientBack(fl, m, sf);
    ShareOf(fl, q, 1.0);
    Product(sf, sf, q, q);
    assert sf * q == q * sf;
    LastRounding(fl, sf, q, m);
  }
}
