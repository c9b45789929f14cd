/** Small facts about multiplying and dividing reals, kept apart so each proof stays cheap. */
module Arith {

  /** Multiplying by a positive factor keeps `<=`. */
  lemma MulMono(x: real, y: real, a: real)
    requires x <= y && a > 0.0
    ensures x * a <= y * a
  {
    assert y * a - x * a == (y - x) * a;
  }

  /** Multiplying by a positive factor keeps `<`. */
  lemma MulStrict(x: real, y: real, a: real)
    requires x < y && a > 0.0
    ensures x * a < y * a
  {
    assert y * a - x * a == (y - x) * a;
  }

  /** `x / a` is the number that gives back `x` when multiplied by `a`. */
  lemma DivMul(x: real, a: real)
    requires a > 0.0
    ensures (x / a) * a == x
  {
  }

  /** A value in [0, n * a) divided by a lies in [0, n). */
  lemma QuotientBounds(x: real, a: real, n: real)
    requires a > 0.0 && 0.0 <= x < n * a
    ensures 0.0 <= x / a < n
  {
    var q := x / a;
    DivMul(x, a);
    if q < 0.0 {
      MulStrict(q, 0.0, a);
    }
    if q >= n {
      MulMono(n, q, a);
    }
  }

  /**
    For `x` in [0, n * a) the whole number of `a`-wide steps below `x` lies
    in [0, n), and `x` lies in that step.
   */
  lemma FloorQuotient(x: real, a: real, n: real)
    requires a > 0.0 && 0.0 <= x < n * a
    ensures 0 <= (x / a).Floor && ((x / a).Floor as real) < n
    ensures ((x / a).Floor as real) * a <= x < (((x / a).Floor + 1) as real) * a
  {
    var q := x / a;
    var j := q.Floor;
    QuotientBounds(x, a, n);
    DivMul(x, a);
    MulMono(j as real, q, a);
    MulStrict(q, (j + 1) as real, a);
    calc {
      x;
      == q * a;
      < ((j + 1) as real) * a;
    }
  }
}
