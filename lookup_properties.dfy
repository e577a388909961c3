/**
 * What the lookup queries promise across calls: the shape and contents of the lookup table, the
 * length as a chord sum bounded below by the endpoint distance, how t-values resolve, and the
 * worked values of the source's own tests.
 */
module LookupProperties {
  import opened Wrappers
  import opened Vectors
  import opened Curves
  import opened Basis
  import opened Bisection
  import opened Lookup

  /** A euclidean t-value in range resolves through the search, with the default or the given error bound. */
  lemma TValueToParametricResolves(c: Bezier, tv: TValue, env: Env)
    requires !tv.Parametric? && 0.0 <= tv.t <= 1.0
    ensures TValueToParametric(c, tv, env) == EuclideanToParametric(c, tv.t, ErrorBound(tv, env), env)
    ensures tv.Euclidean? ==> ErrorBound(tv, env) == env.euclideanErrorBound
    ensures tv.EuclideanWithinError? ==> ErrorBound(tv, env) == tv.error
  {
  }

  /** Every variant checks its t-value: outside `[0, 1]` there is neither a parametric value nor a point. */
  lemma OutOfRangeRejected(c: Bezier, tv: TValue, env: Env)
    requires tv.t < 0.0 || 1.0 < tv.t
    ensures TValueToParametric(c, tv, env) == Err(OutOfRange)
    ensures Evaluate(c, tv, env) == Err(OutOfRange)
  {
  }

  /** The euclidean search fails only on a curve of length zero, and only when it has to measure. */
  lemma EuclideanToParametricFailsOnlyWhenDegenerate(c: Bezier, ratio: real, error: real, env: Env)
    ensures EuclideanToParametric(c, ratio, error, env).Err? <==>
      !EarlyExit(ratio, error) && Length(c, None, env).value == 0.0
  {
  }

  /**
   * Away from the ends, the euclidean conversion is the last midpoint of the bisection on the
   * curve's own measured fraction. A search that stopped did so because the fraction measured at
   * that midpoint is close to the target. When that fraction grows strictly with the parameter on `[0, 1]`,
   * the final bracket holds every parameter where it equals the target, and unless the search
   * stopped, the bracket has been halved once per round.
   */
  lemma EuclideanSearchOnCurve(c: Bezier, euclideanT: real, error: real, totalLength: real, env: Env, x: real)
    requires !EarlyExit(euclideanT, error) && totalLength != 0.0
    ensures var p := SearchParamsFor(euclideanT, error, totalLength);
      var r := Bisect(Measurement(c, p, env), env.close, euclideanT, error, InitialState, env.maxIterations);
      && EuclideanToParametricWithTotalLengthSpec(c, euclideanT, error, totalLength, env) == r.mid
      && (r.done ==> env.close(MeasuredFraction(c, p, r.mid, env), euclideanT, error))
      && (StrictlyIncreasing(Measurement(c, p, env)) && 0.0 <= x <= 1.0 && MeasuredFraction(c, p, x, env) == euclideanT ==>
            r.low <= x <= r.high && (r.done || r.high - r.low == Halved(1.0, env.maxIterations)))
  {
    var p := SearchParamsFor(euclideanT, error, totalLength);
    var measure := Measurement(c, p, env);
    BisectStopsClose(measure, env.close, euclideanT, error, InitialState, env.maxIterations);
    if StrictlyIncreasing(measure) && 0.0 <= x <= 1.0 && MeasuredFraction(c, p, x, env) == euclideanT {
      SearchBracketsSolutions(measure, env.close, euclideanT, error, env.maxIterations, x);
    }
  }

  /** Sample `j` of `CollectSamples(.., i, ..)` is the curve evaluated at `(i + j) / steps`. */
  lemma {:induction false} CollectSamplesEvaluates(c: Bezier, steps: nat, spacing: TValueType, i: nat, env: Env, j: nat)
    requires 1 <= steps && i <= steps + 1
    requires var r := CollectSamples(c, steps, spacing, i, env); r.Ok? && j < |r.value|
    decreases j
    ensures Evaluate(c, Sample(spacing, (i + j) as real / steps as real), env)
      == Ok(CollectSamples(c, steps, spacing, i, env).value[j])
  {
    var r := CollectSamples(c, steps, spacing, i, env);
    var rest := CollectSamples(c, steps, spacing, i + 1, env);
    assert rest.Ok? && r.value == [r.value[0]] + rest.value;
    if j > 0 {
      CollectSamplesEvaluates(c, steps, spacing, i + 1, env, j - 1);
      assert (i + 1) + (j - 1) == i + j;
    }
  }

  /**
   * `compute_lookup_table`: a table that exists has `steps + 1` entries, entry `i` being the curve
   * evaluated at the t-value `i / steps` of the chosen spacing.
   */
  lemma LookupTableEvaluates(c: Bezier, steps: Option<nat>, tvalueType: Option<TValueType>, env: Env)
    ensures var r := ComputeLookupTable(c, steps, tvalueType, env);
      var n := steps.GetOr(DefaultLutStepSize);
      r.Ok? ==> |r.value| == n + 1 && forall i :: 0 <= i < |r.value| ==>
        Evaluate(c, Sample(tvalueType.GetOr(ParametricSpacing), i as real / n as real), env) == Ok(r.value[i])
  {
    var n := steps.GetOr(DefaultLutStepSize);
    var spacing := tvalueType.GetOr(ParametricSpacing);
    if n >= 1 {
      assert ComputeLookupTable(c, steps, tvalueType, env) == CollectSamples(c, n, spacing, 0, env);
      AllSamplesEvaluate(c, n, spacing, env);
    }
  }

  lemma AllSamplesEvaluate(c: Bezier, steps: nat, spacing: TValueType, env: Env)
    requires 1 <= steps
    ensures var r := CollectSamples(c, steps, spacing, 0, env);
      r.Ok? ==> forall i :: 0 <= i < |r.value| ==>
        Evaluate(c, Sample(spacing, i as real / steps as real), env) == Ok(r.value[i])
  {
    var r := CollectSamples(c, steps, spacing, 0, env);
    if r.Ok? {
      forall i | 0 <= i < |r.value|
        ensures Evaluate(c, Sample(spacing, i as real / steps as real), env) == Ok(r.value[i])
      {
        CollectSamplesEvaluates(c, steps, spacing, 0, env, i);
        assert 0 + i == i;
      }
    }
  }

  /**
   * A parametric lookup table with at least one step always exists; entry `i` is the curve at
   * `i / steps`, so it starts at the curve's start and ends at its end.
   */
  lemma ParametricLookupTable(c: Bezier, steps: nat, env: Env)
    requires steps >= 1
    ensures var r := ComputeLookupTable(c, Some(steps), Some(ParametricSpacing), env);
      && r.Ok? && |r.value| == steps + 1
      && (forall i :: 0 <= i < |r.value| ==> r.value[i] == UnrestrictedParametricEvaluate(c, i as real / steps as real))
      && r.value[0] == c.start && r.value[steps] == c.end
  {
    var r := ComputeLookupTable(c, Some(steps), Some(ParametricSpacing), env);
    LookupTableEvaluates(c, Some(steps), Some(ParametricSpacing), env);
    forall i | 0 <= i < |r.value|
      ensures r.value[i] == UnrestrictedParametricEvaluate(c, i as real / steps as real)
    {
      FractionInUnit(i, steps);
    }
    FractionEnds(steps);
  }

  /**
   * A euclidean-spaced table, when it exists, also starts at the curve's start and ends at its end:
   * the fractions 0 and 1 take the search's early exits whenever the default error bound lies in
   * `(0, 1]`.
   */
  lemma EuclideanLookupTableEnds(c: Bezier, steps: nat, env: Env)
    requires steps >= 1 && 0.0 < env.euclideanErrorBound <= 1.0
    ensures var r := ComputeLookupTable(c, Some(steps), Some(EuclideanSpacing), env);
      r.Ok? ==> r.value[0] == c.start && r.value[steps] == c.end
  {
    LookupTableEvaluates(c, Some(steps), Some(EuclideanSpacing), env);
    FractionEnds(steps);
    assert TValueToParametric(c, Euclidean(0.0), env) == Ok(0.0);
    assert TValueToParametric(c, Euclidean(1.0), env) == Ok(1.0);
  }

  /** With no step count there are ten steps; with zero steps the table fails its range check. */
  lemma LookupTableDefaultsAndZero(c: Bezier, tvalueType: Option<TValueType>, env: Env)
    ensures var r := ComputeLookupTable(c, None, tvalueType, env);
      r.Ok? ==> |r.value| == 11
    ensures ComputeLookupTable(c, Some(0), tvalueType, env) == Err(OutOfRange)
  {
  }

  /**
   * `length` of a quadratic or cubic curve is the sum of the distances between consecutive entries of
   * its parametric lookup table with `numSubdivisions` steps, a thousand when none is given.
   */
  lemma LengthIsChordSum(c: Bezier, numSubdivisions: Option<nat>, env: Env)
    requires !c.handles.Linear? && numSubdivisions != Some(0)
    ensures var table := ComputeLookupTable(c, Some(numSubdivisions.GetOr(DefaultLengthSubdivisions)), Some(ParametricSpacing), env);
      table.Ok? && Length(c, numSubdivisions, env) == Ok(PolylineLength(table.value, env.norm))
  {
  }

  /**
   * Whatever the subdivision count, a length is never negative and never shorter than the straight
   * segment between the endpoints, which is exactly the length of a linear curve.
   */
  lemma {:induction false} LengthAtLeastEndpointDistance(c: Bezier, numSubdivisions: Option<nat>, env: Env)
    requires IsNorm(env.norm)
    requires c.handles.Linear? || numSubdivisions != Some(0)
    ensures Length(c, numSubdivisions, env).Ok?
    ensures Length(c, numSubdivisions, env).value >= env.norm(Sub(c.start, c.end)) >= 0.0
    ensures c.handles.Linear? ==> Length(c, numSubdivisions, env).value == env.norm(Sub(c.start, c.end))
  {
    if !c.handles.Linear? {
      var n := numSubdivisions.GetOr(DefaultLengthSubdivisions);
      ParametricLookupTable(c, n, env);
      var table := ComputeLookupTable(c, Some(n), Some(ParametricSpacing), env).value;
      PolylineAtLeastChord(table, env.norm);
      assert env.norm(Sub(table[|table| - 1], table[0])) == env.norm(Sub(c.start, c.end));
    }
  }

  /**
   * A two-step parametric table is the start, the curve at one half, and the end (`steps` is a
   * parameter fixed at two so that the table is not unfolded literally).
   */
  lemma TwoStepLookupTable(c: Bezier, steps: nat, env: Env)
    requires steps == 2
    ensures ComputeLookupTable(c, Some(steps), Some(ParametricSpacing), env)
      == Ok([c.start, UnrestrictedParametricEvaluate(c, 0.5), c.end])
  {
    ParametricLookupTable(c, steps, env);
    var r := ComputeLookupTable(c, Some(steps), Some(ParametricSpacing), env).value;
    assert (1 as real) / (steps as real) == 0.5 by {
      Halves(steps);
    }
    assert r[1] == UnrestrictedParametricEvaluate(c, (1 as real) / (steps as real));
    assert r == [r[0], r[1], r[2]];
  }

  /** A four-step parametric table is the start, the curve at the quarter points, and the end. */
  lemma FourStepLookupTable(c: Bezier, steps: nat, env: Env)
    requires steps == 4
    ensures ComputeLookupTable(c, Some(steps), Some(ParametricSpacing), env)
      == Ok([c.start, UnrestrictedParametricEvaluate(c, 0.25), UnrestrictedParametricEvaluate(c, 0.5),
             UnrestrictedParametricEvaluate(c, 0.75), c.end])
  {
    ParametricLookupTable(c, steps, env);
    var r := ComputeLookupTable(c, Some(steps), Some(ParametricSpacing), env).value;
    Quarters(steps);
    assert r[1] == UnrestrictedParametricEvaluate(c, (1 as real) / (steps as real));
    assert r[2] == UnrestrictedParametricEvaluate(c, (2 as real) / (steps as real));
    assert r[3] == UnrestrictedParametricEvaluate(c, (3 as real) / (steps as real));
    assert r == [r[0], r[1], r[2], r[3], r[4]];
  }

  lemma Halves(steps: nat)
    requires steps == 2
    ensures (1 as real) / (steps as real) == 0.5
  {
  }

  lemma Quarters(steps: nat)
    requires steps == 4
    ensures (1 as real) / (steps as real) == 0.25
    ensures (2 as real) / (steps as real) == 0.5
    ensures (3 as real) / (steps as real) == 0.75
  {
  }

  /** The lookup tables of the source's tests, a quadratic with two steps and a cubic with four. */
  lemma LookupTableTests(env: Env)
    ensures var c := Bezier(Vec(10.0, 10.0), Vec(50.0, 10.0), Quadratic(Vec(30.0, 30.0)));
      ComputeLookupTable(c, Some(2), Some(ParametricSpacing), env)
        == Ok([c.start, Evaluate(c, Parametric(0.5), env).value, c.end])
    ensures var c := Bezier(Vec(10.0, 10.0), Vec(90.0, 10.0), Cubic(Vec(30.0, 30.0), Vec(70.0, 70.0)));
      ComputeLookupTable(c, Some(4), Some(ParametricSpacing), env)
        == Ok([c.start, Evaluate(c, Parametric(0.25), env).value, Evaluate(c, Parametric(0.5), env).value,
               Evaluate(c, Parametric(0.75), env).value, c.end])
  {
    TwoStepLookupTable(Bezier(Vec(10.0, 10.0), Vec(50.0, 10.0), Quadratic(Vec(30.0, 30.0))), 2, env);
    FourStepLookupTable(Bezier(Vec(10.0, 10.0), Vec(90.0, 10.0), Cubic(Vec(30.0, 30.0), Vec(70.0, 70.0))), 4, env);
  }

  /** The source's evaluation test, through `evaluate`. */
  lemma EvaluateAtHalf(env: Env)
    ensures Evaluate(Bezier(Vec(3.0, 5.0), Vec(19.0, 14.0), Quadratic(Vec(14.0, 3.0))), Parametric(0.5), env)
      == Ok(Vec(12.5, 6.25))
    ensures Evaluate(Bezier(Vec(3.0, 5.0), Vec(30.0, 21.0), Cubic(Vec(14.0, 3.0), Vec(19.0, 14.0))), Parametric(0.5), env)
      == Ok(Vec(16.5, 9.625))
  {
    QuadraticAtHalf();
    CubicAtHalf();
  }
}
