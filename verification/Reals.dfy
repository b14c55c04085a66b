/** Real numbers standing for `f64`: sums, rounding up, the one tolerance, and facts about products
    and quotients, one step each. */
module Reals {
  /** `f64::EPSILON`. */
  const EPSILON: real := 1.0 / 4503599627370496.0

  function Sum(xs: seq<real>): real {
    if xs == [] then 0.0 else Sum(xs[..|xs| - 1]) + xs[|xs| - 1]
  }

  /** The source's way with an empty list: its mean is 0. */
  function Average(sum: real, n: nat): real { if n == 0 then 0.0 else sum / n as real }

  function Ceil(x: real): int { -((-x).Floor) }

  lemma Positive(x: real, y: real)
    requires 0.0 < x && 0.0 < y
    ensures 0.0 < x * y
  {
  }

  lemma TimesNonNegative(x: real, y: real)
    requires 0.0 <= x && 0.0 <= y
    ensures 0.0 <= x * y
  {
  }

  lemma MulMonotone(x: real, y: real, c: real)
    requires x <= y && 0.0 <= c
    ensures x * c <= y * c
  {
    var d := y - x;
    TimesNonNegative(d, c);
    assert d * c == y * c - x * c;
  }

  /** A positive factor cancels. */
  lemma Cancel(x: real, y: real, w: real)
    requires 0.0 < w && x * w <= y * w
    ensures x <= y
  {
    var d := x - y;
    assert d * w == x * w - y * w;
    if 0.0 < d {
      Positive(d, w);
    }
  }

  lemma CancelStrict(x: real, y: real, w: real)
    requires 0.0 < w && x * w < y * w
    ensures x < y
  {
    var d := x - y;
    assert d * w == x * w - y * w;
    if 0.0 <= d {
      TimesNonNegative(d, w);
    }
  }

  lemma QuotientMonotone(x: real, y: real, n: real)
    requires x <= y && 0.0 < n
    ensures x / n <= y / n
  {
    var a, b := x / n, y / n;
    assert a * n == x && b * n == y;
    Cancel(a, b, n);
  }

  /** A total between two multiples of `d` averages to between the two. */
  lemma QuotientWithin(total: real, d: real, lo: real, hi: real)
    requires 0.0 < d && lo * d <= total <= hi * d
    ensures lo <= total / d <= hi
  {
    var m := total / d;
    assert m * d == total;
    Cancel(lo, m, d);
    Cancel(m, hi, d);
  }
}
