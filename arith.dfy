/** Small facts of ordered-field arithmetic that the solver does not find on
    its own once products and quotients of variables appear. They are stated
    on the products themselves (`x * x`, not a named square) because the
    solver relates those directly to their factors. */
module RealArith {

  lemma SuccTimes(k: real, x: real)
    ensures (k + 1.0) * x == k * x + x
  {}

  lemma MulNonneg(x: real, y: real)
    requires 0.0 <= x && 0.0 <= y
    ensures 0.0 <= x * y
  {}

  lemma MulPos(x: real, y: real)
    requires 0.0 < x && 0.0 < y
    ensures 0.0 < x * y
  {}

  lemma MulMono(x: real, y: real, c: real)
    requires x <= y && 0.0 <= c
    ensures x * c <= y * c
  {
    MulNonneg(y - x, c);
  }

  lemma DivMono(x: real, y: real, d: real)
    requires x <= y && 0.0 < d
    ensures x / d <= y / d
  {}

  lemma DivPos(x: real, d: real)
    requires 0.0 < x && 0.0 < d
    ensures 0.0 < x / d
  {}

  lemma DivAnti(n: real, d1: real, d2: real)
    requires 0.0 <= n && 0.0 < d1 <= d2
    ensures n / d2 <= n / d1
  {}

  lemma SquareNonneg(x: real)
    ensures 0.0 <= x * x
  {
    if x < 0.0 { MulPos(-x, -x); }
  }

  lemma CubePos(x: real)
    requires 0.0 < x
    ensures 0.0 < x * x * x
  {}

  /** Squares of non-negative reals order like the reals. */
  lemma SquareMono(x: real, y: real)
    requires 0.0 <= x <= y
    ensures x * x <= y * y
  {}

  lemma CubeMono(x: real, y: real)
    requires 0.0 <= x <= y
    ensures x * x * x <= y * y * y
  {}

  lemma SquareStrict(x: real, y: real)
    requires 0.0 <= x < y
    ensures x * x < y * y
  {
    var d := y - x;
    assert y * y == x * x + 2.0 * x * d + d * d;
    assert 0.0 < d * d;
    assert 0.0 <= x * d;
  }

  /** For non-negative reals, squares order like their roots. */
  lemma SquareMonotone(x: real, y: real)
    requires 0.0 <= x && 0.0 <= y && x * x <= y * y
    ensures x <= y
  {
    if y < x {
      SquareStrict(y, x);
    }
  }
}
