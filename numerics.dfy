/** The numeric routines the engine borrows from numpy, scipy and pandas.
    Dafny's reals have no exponential, root or median filter, so each
    routine is passed in as a function value, constrained only by the laws
    the proofs below rely on. */
module Numerics {
  /** `b ** e`; the property used is that a positive base gives a positive power. */
  type Power = f: (real, real) -> real | forall b, e :: 0.0 < b ==> 0.0 < f(b, e)
    witness (b: real, e: real) => 1.0

  /** `scipy.ndimage.median_filter(values, size=w)`: it returns one value per input value. */
  type MedianFilter = f: (seq<real>, nat) -> seq<real> | forall s, w :: |f(s, w)| == |s|
    witness (s: seq<real>, w: nat) => s

  /** `2 ** x`, `np.sqrt` and `**`. */
  datatype Transcendentals = Transcendentals(exp2: real -> real, sqrt: real -> real, pow: Power)

  /** pandas' `Series.median()` and `Series.quantile(q)` on the present values. */
  datatype Statistics = Statistics(median: seq<real> -> real, quantile: (seq<real>, real) -> real)

  /** What is known of 2^x: 2^0 = 1 and it never decreases. */
  ghost predicate Exp2Laws(t: Transcendentals) {
    && t.exp2(0.0) == 1.0
    && forall x, y :: x <= y ==> t.exp2(x) <= t.exp2(y)
  }

  /** What is known of the square root on non-negative arguments. */
  ghost predicate SqrtLaws(t: Transcendentals) {
    forall x :: 0.0 <= x ==> 0.0 <= t.sqrt(x) && t.sqrt(x) * t.sqrt(x) == x
  }

  /** What is known of b^e: for a positive exponent it grows with the base. */
  ghost predicate PowLaws(t: Transcendentals) {
    forall b1, b2, e :: 0.0 < b1 <= b2 && 0.0 < e ==> t.pow(b1, e) <= t.pow(b2, e)
  }
}
