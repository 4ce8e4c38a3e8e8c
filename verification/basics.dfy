/**
 * Shared vocabulary of the three front ends: an optional value, integer pixel
 * points, Python's truncating int() on reals, and the exact relation between
 * the Euclidean distance the source computes with math.hypot and the squared
 * integer distance the model compares against.
 */
module Basics {

  datatype Option<+T> = None | Some(value: T)

  /** A landmark or screen position in integer pixels. */
  datatype Point = Point(x: int, y: int)

  /** Python's int() on a float: truncation toward zero. */
  function Trunc(r: real): (n: int)
    ensures r >= 0.0 ==> n as real <= r < n as real + 1.0
    ensures r < 0.0 ==> n as real - 1.0 < r <= n as real
  {
    if r >= 0.0 then r.Floor else -((-r).Floor)
  }

  /** Truncation never reverses the order of two non-negative reals. */
  lemma TruncMonotone(a: real, b: real)
    requires 0.0 <= a <= b
    ensures Trunc(a) <= Trunc(b)
  {
    assert Trunc(a) as real <= a <= b < Trunc(b) as real + 1.0;
  }

  /** max(lo, min(hi, v)) on integers, in the source's order of application. */
  function Clamp(lo: int, hi: int, v: int): (r: int)
    ensures lo <= hi ==> lo <= r <= hi
    ensures lo <= v <= hi ==> r == v
    ensures v <= lo ==> r == lo
    ensures lo <= hi <= v ==> r == hi
  {
    if hi < v then (if lo < hi then hi else lo) else (if lo < v then v else lo)
  }

  /** Clamping into a fixed range keeps the order of its argument. */
  lemma ClampMonotone(lo: int, hi: int, v: int, w: int)
    requires lo <= hi && v <= w
    ensures Clamp(lo, hi, v) <= Clamp(lo, hi, w)
  {
  }

  /** Squared Euclidean distance between two pixel points. */
  function SqDist(p: Point, q: Point): (d: int)
    ensures d >= 0
    ensures d == 0 <==> p == q
  {
    (q.x - p.x) * (q.x - p.x) + (q.y - p.y) * (q.y - p.y)
  }

  /** `d` is the Euclidean distance math.hypot returns for `p` and `q`. */
  ghost predicate IsEuclidean(d: real, p: Point, q: Point)
  {
    d >= 0.0 && d * d == SqDist(p, q) as real
  }

  /**
   * For integer points the hypot test `d < limit` is decided exactly by the
   * squared distance, so the model compares squares and never takes a root.
   */
  lemma BelowIffSquaredBelow(d: real, p: Point, q: Point, limit: nat)
    requires IsEuclidean(d, p, q)
    ensures d < limit as real <==> SqDist(p, q) < limit * limit
  {
    var l := limit as real;
    assert (limit * limit) as real == l * l;
    if d < l {
      SquareBelow(d, l);
    } else {
      SquareAtLeast(l, d);
    }
  }

  lemma SquareBelow(a: real, b: real)
    requires 0.0 <= a < b
    ensures a * a < b * b
  {
    assert a * (b - a) >= 0.0;
    assert (b - a) * b > 0.0;
  }

  lemma SquareAtLeast(a: real, b: real)
    requires 0.0 <= a <= b
    ensures a * a <= b * b
  {
    assert a * a <= a * b;
    assert a * b <= b * b;
  }
}
