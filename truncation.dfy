/**
 * Python's built-in `int()` applied to a float: truncation toward zero.
 * Floats are abstracted as exact reals; float32 rounding is not modelled.
 */
module Truncation {

  /** `int(r)`: the integer part of `r`, rounding toward zero. */
  function Trunc(r: real): (n: int) {
    if r >= 0.0 then r.Floor else -((-r).Floor)
  }

  /**
   * What truncation means: for a non-negative value the largest integer not
   * above it, for a negative value the smallest integer not below it.
   */
  lemma TruncBounds(r: real)
    ensures r >= 0.0 ==> Trunc(r) as real <= r < Trunc(r) as real + 1.0
    ensures r < 0.0 ==> Trunc(r) as real - 1.0 < r <= Trunc(r) as real
  {
  }

  function Abs(r: real): (a: real) {
    if r < 0.0 then -r else r
  }

  /** Truncation never moves a value away from zero, and loses less than one unit. */
  lemma TruncTowardZero(r: real)
    ensures Abs(Trunc(r) as real) <= Abs(r)
    ensures r >= 0.0 ==> 0 <= Trunc(r)
    ensures r <= 0.0 ==> Trunc(r) <= 0
    ensures -1.0 < r - Trunc(r) as real < 1.0
  {
    TruncBounds(r);
  }

  /** Truncation agrees with the floor exactly on non-negative values and on integral ones. */
  lemma TruncIsFloorIff(r: real)
    ensures Trunc(r) == r.Floor <==> (r >= 0.0 || r == r.Floor as real)
  {
    TruncBounds(r);
    if r < 0.0 && r != r.Floor as real {
      assert (-r).Floor == -r.Floor - 1;
    }
  }

  /** A negative non-integral value is where truncation and floor part ways. */
  lemma TruncDiffersFromFloorBelowZero()
    ensures Trunc(-0.5) == 0
    ensures (-0.5).Floor == -1
  {
  }

  /** `int()` is monotone. */
  lemma TruncMonotone(a: real, b: real)
    requires a <= b
    ensures Trunc(a) <= Trunc(b)
  {
    TruncBounds(a);
    TruncBounds(b);
  }

  /** An integral value is its own truncation. */
  lemma TruncOfInt(k: int)
    ensures Trunc(k as real) == k
  {
  }
}
