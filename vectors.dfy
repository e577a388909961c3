/** Two-dimensional vectors over the reals: the part of glam's `DVec2` the curve queries use. */
module Vectors {

  datatype Vec = Vec(x: real, y: real)

  function Add(a: Vec, b: Vec): Vec { Vec(a.x + b.x, a.y + b.y) }

  function Sub(a: Vec, b: Vec): Vec { Vec(a.x - b.x, a.y - b.y) }

  function Scale(k: real, v: Vec): Vec { Vec(k * v.x, k * v.y) }

  function LengthSquared(v: Vec): real { v.x * v.x + v.y * v.y }

  /** glam's `distance_squared`: never negative, and zero from a point to itself. */
  function DistanceSquared(a: Vec, b: Vec): (d: real)
    ensures d >= 0.0
    ensures a == b ==> d == 0.0
  {
    SumOfSquaresNonNegative(a.x - b.x, a.y - b.y);
    assert a == b ==> Sub(a, b) == Vec(0.0, 0.0);
    LengthSquared(Sub(a, b))
  }

  /** glam's `lerp`: `a + (b - a) * t`. */
  function Lerp(a: Vec, b: Vec, t: real): (p: Vec)
    ensures t == 0.0 ==> p == a
    ensures t == 1.0 ==> p == b
  {
    Add(a, Scale(t, Sub(b, a)))
  }

  lemma SumOfSquaresNonNegative(p: real, q: real)
    ensures p * p + q * q >= 0.0
  {
  }

  /**
   * The vector length `v.length()` is a square root, which real arithmetic here has no operation for.
   * It is abstracted as any `norm` with the properties of a length: non-negative, zero on the zero
   * vector, the same for `a - b` and `b - a`, and subadditive (the triangle inequality).
   * The Euclidean length has all four.
   */
  ghost predicate IsNorm(norm: Vec -> real) {
    && (forall v :: norm(v) >= 0.0)
    && norm(Vec(0.0, 0.0)) == 0.0
    && (forall a, b :: norm(Sub(a, b)) == norm(Sub(b, a)))
    && (forall a, b :: norm(Add(a, b)) <= norm(a) + norm(b))
  }
}
