/**
 * The projection tests of `src/bezier/lookup.rs` whose expected answers are forced by the control
 * points alone: for every list of critical values in `[0, 1]`, whatever `normals_to_point` returns,
 * `project` gives the stated end.
 */
module ProjectionTests {
  import opened Vectors
  import opened Curves
  import opened Basis
  import opened Projection

  /** The first test curve: the cubic (4,4), (23,45), (10,30), (56,90). */
  const bezier1 := Bezier(Vec(4.0, 4.0), Vec(56.0, 90.0), Cubic(Vec(23.0, 45.0), Vec(10.0, 30.0)))

  /** The second test curve: the quadratic (0,0), (0,100), (100,100). */
  const bezier2 := Bezier(Vec(0.0, 0.0), Vec(100.0, 100.0), Quadratic(Vec(0.0, 100.0)))

  lemma MulNonNegative(a: real, b: real)
    requires a >= 0.0 && b >= 0.0
    ensures a * b >= 0.0
  {
  }

  lemma CubeNonNegative(s: real)
    requires s >= 0.0
    ensures (s * s) * s >= 0.0
  {
  }

  lemma CubePositive(s: real)
    requires s > 0.0
    ensures (s * s) * s > 0.0
  {
  }

  /** The binomial expansion of `(s + t)^3` with `s = 1 - t`. */
  lemma CubicWeightsSum(t: real)
    ensures var s := 1.0 - t; (s * s) * s + (3.0 * (s * s)) * t + (3.0 * s) * (t * t) + (t * t) * t == 1.0
  {
  }

  /**
   * The cubic Bernstein weights at `t` in `[0, 1]`, in the form `unrestricted_parametric_evaluate`
   * computes them, are non-negative and sum to one; the start's weight is positive before `t = 1`.
   */
  lemma CubicWeights(t: real)
    requires 0.0 <= t <= 1.0
    ensures var s := 1.0 - t;
      && (s * s) * s >= 0.0 && (3.0 * (s * s)) * t >= 0.0 && (3.0 * s) * (t * t) >= 0.0 && (t * t) * t >= 0.0
      && (s * s) * s + (3.0 * (s * s)) * t + (3.0 * s) * (t * t) + (t * t) * t == 1.0
      && (t < 1.0 ==> (s * s) * s > 0.0)
  {
    CubeNonNegative(1.0 - t);
    MulNonNegative(3.0 * ((1.0 - t) * (1.0 - t)), t);
    MulNonNegative(3.0 * (1.0 - t), t * t);
    CubeNonNegative(t);
    CubicWeightsSum(t);
    if t < 1.0 {
      StartWeightPositive(t);
    }
  }

  lemma StartWeightPositive(t: real)
    requires t < 1.0
    ensures var s := 1.0 - t; (s * s) * s > 0.0
  {
    CubePositive(1.0 - t);
  }

  /**
   * A convex combination of the first test curve's control points lies in their bounding box, and
   * strictly left of the end when the start has positive weight.
   */
  lemma Bezier1Hull(w0: real, w1: real, w2: real, w3: real)
    requires w0 >= 0.0 && w1 >= 0.0 && w2 >= 0.0 && w3 >= 0.0 && w0 + w1 + w2 + w3 == 1.0
    ensures 4.0 <= ((w0 * 4.0 + w1 * 23.0) + w2 * 10.0) + w3 * 56.0 <= 56.0
    ensures 4.0 <= ((w0 * 4.0 + w1 * 45.0) + w2 * 30.0) + w3 * 90.0 <= 90.0
    ensures w0 > 0.0 ==> ((w0 * 4.0 + w1 * 23.0) + w2 * 10.0) + w3 * 56.0 < 56.0
  {
  }

  /** Every point of the first test curve on `[0, 1]` lies in the box spanned by its control points. */
  lemma Bezier1InBox(t: real)
    requires 0.0 <= t <= 1.0
    ensures var p := UnrestrictedParametricEvaluate(bezier1, t);
      4.0 <= p.x <= 56.0 && 4.0 <= p.y <= 90.0 && (t < 1.0 ==> p.x < 56.0)
  {
    CubicWeights(t);
    var s := 1.0 - t;
    Bezier1Hull((s * s) * s, (3.0 * (s * s)) * t, (3.0 * s) * (t * t), (t * t) * t);
  }

  /** A point with both coordinates at least 4 is at squared distance at least 32 from the origin. */
  lemma FarFromOrigin(p: Vec)
    requires p.x >= 4.0 && p.y >= 4.0
    ensures DistanceSquared(p, Vec(0.0, 0.0)) >= 32.0
  {
  }

  /**
   * A point with `x <= 56` and `y <= 90` is at squared distance at least 2036 from (100,100), and
   * more when `x < 56`.
   */
  lemma FarFromHundred(p: Vec)
    requires p.x <= 56.0 && p.y <= 90.0
    ensures DistanceSquared(p, Vec(100.0, 100.0)) >= 2036.0
    ensures p.x < 56.0 ==> DistanceSquared(p, Vec(100.0, 100.0)) > 2036.0
  {
  }

  /** A curve point left of x = 56 and below y = 90 is farther than 2036 from (100,100). */
  lemma CurvePointFarFromHundred(c: Bezier, point: Vec, t: real)
    requires point == Vec(100.0, 100.0)
    requires UnrestrictedParametricEvaluate(c, t).x < 56.0 && UnrestrictedParametricEvaluate(c, t).y <= 90.0
    ensures DistanceAt(c, point, t) > 2036.0
  {
    FarFromHundred(UnrestrictedParametricEvaluate(c, t));
  }

  /** The distances at the two ends are those of the curve's endpoints. */
  lemma DistanceAtEnds(c: Bezier, point: Vec)
    ensures DistanceAt(c, point, 0.0) == DistanceSquared(c.start, point)
    ensures DistanceAt(c, point, 1.0) == DistanceSquared(c.end, point)
  {
  }

  lemma Bezier1StartFromOrigin(c: Bezier, point: Vec)
    requires c.start == Vec(4.0, 4.0) && point == Vec(0.0, 0.0)
    ensures DistanceAt(c, point, 0.0) == 32.0
  {
    DistanceAtEnds(c, point);
  }

  /** Every point of the first test curve on `[0, 1]` is at least as far from the origin as its start. */
  lemma Bezier1AwayFromOrigin(c: Bezier, point: Vec, t: real)
    requires c == bezier1 && point == Vec(0.0, 0.0)
    requires 0.0 <= t <= 1.0
    ensures DistanceAt(c, point, 0.0) <= DistanceAt(c, point, t)
  {
    Bezier1StartFromOrigin(c, point);
    Bezier1InBox(t);
    FarFromOrigin(UnrestrictedParametricEvaluate(c, t));
  }

  lemma Bezier1StartNearestToOrigin(c: Bezier, point: Vec)
    requires c == bezier1 && point == Vec(0.0, 0.0)
    ensures forall t :: 0.0 <= t <= 1.0 ==> DistanceAt(c, point, 0.0) <= DistanceAt(c, point, t)
  {
    forall t | 0.0 <= t <= 1.0
      ensures DistanceAt(c, point, 0.0) <= DistanceAt(c, point, t)
    {
      Bezier1AwayFromOrigin(c, point, t);
    }
  }

  /** The source's first projection test: the origin projects onto the start of the first test curve. */
  lemma ProjectOriginOntoBezier1(critical: seq<real>)
    requires InUnitInterval(critical)
    ensures ProjectSpec(bezier1, Vec(0.0, 0.0), critical) == 0.0
  {
    Bezier1StartNearestToOrigin(bezier1, Vec(0.0, 0.0));
    ProjectKeepsNearestStart(bezier1, Vec(0.0, 0.0), critical);
  }

  lemma Bezier1EndFromHundred(c: Bezier, point: Vec)
    requires c.end == Vec(56.0, 90.0) && point == Vec(100.0, 100.0)
    ensures DistanceAt(c, point, 1.0) == 2036.0
  {
    DistanceAtEnds(c, point);
  }

  /** Every point of the first test curve before its end is strictly farther from (100,100) than the end is. */
  lemma Bezier1AwayFromHundred(c: Bezier, point: Vec, t: real)
    requires c == bezier1 && point == Vec(100.0, 100.0)
    requires 0.0 <= t < 1.0
    ensures DistanceAt(c, point, t) > 2036.0
  {
    Bezier1InBox(t);
    CurvePointFarFromHundred(c, point, t);
  }

  lemma Bezier1FarFromHundred(c: Bezier, point: Vec)
    requires c == bezier1 && point == Vec(100.0, 100.0)
    ensures forall t :: 0.0 <= t < 1.0 ==> DistanceAt(c, point, t) > 2036.0
  {
    forall t | 0.0 <= t < 1.0
      ensures DistanceAt(c, point, t) > 2036.0
    {
      Bezier1AwayFromHundred(c, point, t);
    }
  }

  /** A curve ending at (56,90) whose earlier points are all farther than 2036 from (100,100) has its end nearest. */
  lemma Bezier1EndNearestToHundred(c: Bezier, point: Vec)
    requires c.end == Vec(56.0, 90.0) && point == Vec(100.0, 100.0)
    requires forall t :: 0.0 <= t < 1.0 ==> DistanceAt(c, point, t) > 2036.0
    ensures forall t :: 0.0 <= t < 1.0 ==> DistanceAt(c, point, 1.0) < DistanceAt(c, point, t)
  {
    Bezier1EndFromHundred(c, point);
  }

  /** The source's second projection test: (100,100) projects onto the end of the first test curve. */
  lemma ProjectHundredOntoBezier1(critical: seq<real>)
    requires InUnitInterval(critical)
    ensures ProjectSpec(bezier1, Vec(100.0, 100.0), critical) == 1.0
  {
    Bezier1FarFromHundred(bezier1, Vec(100.0, 100.0));
    Bezier1EndNearestToHundred(bezier1, Vec(100.0, 100.0));
    ProjectFindsNearestEnd(bezier1, Vec(100.0, 100.0), critical);
  }

  lemma Bezier2StartFromPoint(c: Bezier, point: Vec)
    requires c.start == Vec(0.0, 0.0) && point == Vec(99.99, 0.0)
    ensures DistanceAt(c, point, 0.0) == 99.99 * 99.99
  {
    DistanceAtEnds(c, point);
    OriginFromPoint(c.start, point);
  }

  lemma OriginFromPoint(a: Vec, b: Vec)
    requires a == Vec(0.0, 0.0) && b == Vec(99.99, 0.0)
    ensures DistanceSquared(a, b) == 99.99 * 99.99
  {
    assert Sub(a, b) == Vec(-99.99, 0.0);
  }

  /**
   * How much farther than the start the second test curve's point at `t` is from (99.99, 0):
   * `t^2 (20000 (1 - t)^2 + 2)`.
   */
  lemma Bezier2Gap(c: Bezier, point: Vec, t: real)
    requires c == bezier2 && point == Vec(99.99, 0.0)
    ensures DistanceAt(c, point, t) - 99.99 * 99.99
         == (t * t) * (20000.0 * ((1.0 - t) * (1.0 - t)) + 2.0)
  {
  }

  lemma SquareNonNegative(a: real)
    ensures a * a >= 0.0
  {
  }

  lemma GapNonNegative(t: real)
    ensures (t * t) * (20000.0 * ((1.0 - t) * (1.0 - t)) + 2.0) >= 0.0
  {
    SquareNonNegative(t);
    SquareNonNegative(1.0 - t);
    MulNonNegative(t * t, 20000.0 * ((1.0 - t) * (1.0 - t)) + 2.0);
  }

  /** No point of the second test curve is closer to (99.99, 0) than its start. */
  lemma Bezier2AwayFromPoint(c: Bezier, point: Vec, t: real)
    requires c == bezier2 && point == Vec(99.99, 0.0)
    ensures DistanceAt(c, point, 0.0) <= DistanceAt(c, point, t)
  {
    Bezier2StartFromPoint(c, point);
    Bezier2Gap(c, point, t);
    GapNonNegative(t);
  }

  lemma Bezier2StartNearestToPoint(c: Bezier, point: Vec)
    requires c == bezier2 && point == Vec(99.99, 0.0)
    ensures forall t :: 0.0 <= t <= 1.0 ==>
      DistanceAt(c, point, 0.0) <= DistanceAt(c, point, t)
  {
    forall t | 0.0 <= t <= 1.0
      ensures DistanceAt(c, point, 0.0) <= DistanceAt(c, point, t)
    {
      Bezier2AwayFromPoint(c, point, t);
    }
  }

  /** The source's third projection test: (99.99, 0) projects onto the start of the second test curve. */
  lemma ProjectPointOntoBezier2(critical: seq<real>)
    requires InUnitInterval(critical)
    ensures ProjectSpec(bezier2, Vec(99.99, 0.0), critical) == 0.0
  {
    Bezier2StartNearestToPoint(bezier2, Vec(99.99, 0.0));
    ProjectKeepsNearestStart(bezier2, Vec(99.99, 0.0), critical);
  }
}
