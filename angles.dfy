/**
 * Angle comparison between two compass directions (`angle_between`).
 *
 * Directions are degrees, clockwise from north, and need not be normalised:
 * a segment's bearing is an atan2 value in [-180, 180], a wind direction lies
 * in [0, 360). The comparison wraps their difference into [-180, 180) with
 * Python's floor modulo and returns its absolute value.
 */
module Angles {

  function Abs(x: real): real {
    if x < 0.0 then -x else x
  }

  /** How many whole turns of 360 degrees fit below `x` (Python's `x // 360`). */
  function Turns360(x: real): int {
    (x / 360.0).Floor
  }

  /**
   * Python's `x % 360`: floor modulo, whose result takes the sign of the
   * divisor, so it is never negative. FloorModUnique shows that it is the one
   * value in [0, 360) that differs from `x` by whole turns.
   */
  function FloorMod360(x: real): (r: real)
    ensures 0.0 <= r < 360.0
  {
    x - 360.0 * Turns360(x) as real
  }

  lemma FloorModUnique(x: real, r: real, k: int)
    requires 0.0 <= r < 360.0
    requires x == r + 360.0 * k as real
    ensures FloorMod360(x) == r
  {
    assert x / 360.0 == k as real + r / 360.0;
    assert Turns360(x) == k;
  }

  /** `angle_between(dir1, dir2)`: the absolute angular difference, in [0, 180]. */
  function AngleBetween(dir1: real, dir2: real): (r: real)
    ensures 0.0 <= r <= 180.0
  {
    Abs(FloorMod360(dir1 - dir2 + 180.0) - 180.0)
  }

  /** A direction differs from itself by nothing. */
  lemma AngleBetweenSelf(a: real)
    ensures AngleBetween(a, a) == 0.0
  {
    FloorModUnique(180.0, 180.0, 0);
  }

  /** The comparison does not depend on the order of its arguments. */
  lemma AngleBetweenSymmetric(a: real, b: real)
    ensures AngleBetween(a, b) == AngleBetween(b, a)
  {
    var t := a - b + 180.0;
    var q := Turns360(t);
    var r := FloorMod360(t);
    assert t == r + 360.0 * q as real;
    if r == 0.0 {
      FloorModUnique(b - a + 180.0, 0.0, 1 - q);
    } else {
      FloorModUnique(b - a + 180.0, 360.0 - r, -q);
    }
  }

  /** Opposite directions are 180 degrees apart, whichever comes first. */
  lemma AngleBetweenOpposite(a: real)
    ensures AngleBetween(a, a + 180.0) == 180.0
    ensures AngleBetween(a + 180.0, a) == 180.0
  {
    FloorModUnique(0.0, 0.0, 0);
    FloorModUnique(360.0, 0.0, 1);
  }

  /** Adding whole turns to either direction does not change the comparison. */
  lemma AngleBetweenPeriodic(a: real, b: real, k: int)
    ensures AngleBetween(a + 360.0 * k as real, b) == AngleBetween(a, b)
    ensures AngleBetween(a, b + 360.0 * k as real) == AngleBetween(a, b)
  {
    var t := a - b + 180.0;
    var q := Turns360(t);
    var r := FloorMod360(t);
    FloorModUnique(t + 360.0 * k as real, r, q + k);
    FloorModUnique(t - 360.0 * k as real, r, q - k);
  }

  /**
   * The result is a true difference of the two directions: it equals
   * `a - b` or `b - a` up to whole turns.
   */
  lemma AngleBetweenCongruent(a: real, b: real)
    ensures FloorMod360(a - b - AngleBetween(a, b)) == 0.0
         || FloorMod360(b - a - AngleBetween(a, b)) == 0.0
  {
    var t := a - b + 180.0;
    var q := Turns360(t);
    var diff := FloorMod360(t) - 180.0;
    assert a - b == diff + 360.0 * q as real;
    if diff >= 0.0 {
      FloorModUnique(a - b - AngleBetween(a, b), 0.0, q);
    } else {
      FloorModUnique(b - a - AngleBetween(a, b), 0.0, -q);
    }
  }

  /** No way of turning from `b` to `a` by whole turns is shorter than the result. */
  lemma AngleBetweenMinimal(a: real, b: real, j: int)
    ensures AngleBetween(a, b) <= Abs(a - b - 360.0 * j as real)
  {
    var t := a - b + 180.0;
    var q := Turns360(t);
    var diff := FloorMod360(t) - 180.0;
    assert a - b - 360.0 * j as real == diff + 360.0 * (q - j) as real;
    if q - j >= 1 {
      assert 360.0 * (q - j) as real >= 360.0;
    } else if q - j <= -1 {
      assert 360.0 * (q - j) as real <= -360.0;
    }
  }

  /** The two directions compare as 0 exactly when they name the same compass point. */
  lemma AngleBetweenZeroIff(a: real, b: real)
    ensures AngleBetween(a, b) == 0.0 <==> FloorMod360(a - b) == 0.0
  {
    var t := a - b + 180.0;
    var q := Turns360(t);
    var r := FloorMod360(t);
    assert t == r + 360.0 * q as real;
    if r == 180.0 {
      FloorModUnique(a - b, 0.0, q);
    }
    if FloorMod360(a - b) == 0.0 {
      var p := Turns360(a - b);
      assert a - b == 360.0 * p as real;
      FloorModUnique(t, 180.0, p);
    }
  }

}
