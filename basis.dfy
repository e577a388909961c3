/** The Bernstein-basis evaluator `unrestricted_parametric_evaluate` and what it computes. */
module Basis {
  import opened Vectors
  import opened Curves

  /**
   * The point at parameter `t`, by the closed-form Bernstein polynomial of the curve's degree.
   * Defined for every real `t`; the callers restrict `t` to `[0, 1]`.
   */
  function UnrestrictedParametricEvaluate(c: Bezier, t: real): (p: Vec)
    ensures t == 0.0 ==> p == c.start
    ensures t == 1.0 ==> p == c.end
  {
    var tSquared := t * t;
    var oneMinusT := 1.0 - t;
    var squaredOneMinusT := oneMinusT * oneMinusT;
    match c.handles
    case Linear => Lerp(c.start, c.end, t)
    case Quadratic(handle) =>
      Add(Add(Scale(squaredOneMinusT, c.start), Scale(2.0 * oneMinusT * t, handle)), Scale(tSquared, c.end))
    case Cubic(handleStart, handleEnd) =>
      var tCubed := tSquared * t;
      var cubedOneMinusT := squaredOneMinusT * oneMinusT;
      Add(Add(Add(Scale(cubedOneMinusT, c.start), Scale(3.0 * squaredOneMinusT * t, handleStart)),
              Scale(3.0 * oneMinusT * tSquared, handleEnd)),
          Scale(tCubed, c.end))
  }

  /** The quadratic curve (3,5), (14,3), (19,14) passes through (12.5, 6.25) at t = 0.5. */
  lemma QuadraticAtHalf()
    ensures UnrestrictedParametricEvaluate(Bezier(Vec(3.0, 5.0), Vec(19.0, 14.0), Quadratic(Vec(14.0, 3.0))), 0.5)
         == Vec(12.5, 6.25)
  {
  }

  /** The cubic curve (3,5), (14,3), (19,14), (30,21) passes through (16.5, 9.625) at t = 0.5. */
  lemma CubicAtHalf()
    ensures UnrestrictedParametricEvaluate(Bezier(Vec(3.0, 5.0), Vec(30.0, 21.0), Cubic(Vec(14.0, 3.0), Vec(19.0, 14.0))), 0.5)
         == Vec(16.5, 9.625)
  {
  }
}
