/**
 * `euclidean_to_parametric_with_total_length` as the loop the source runs: a bisection over the
 * parametric bracket `[low, high]` that measures a trimmed curve at each midpoint.
 */
module EuclideanSearch {
  import opened Curves
  import opened Bisection
  import opened Lookup

  /**
   * The parametric t-value at which the curve has covered the fraction `euclideanT` of its length
   * `totalLength`, to within `error`. Close to either end the answer is that end, with nothing
   * measured; otherwise the result is the last midpoint of the bisection, which lies in `[0, 1]`.
   */
  method EuclideanToParametricWithTotalLength(c: Bezier, euclideanT: real, error: real, totalLength: real, env: Env)
    returns (t: real)
    requires EarlyExit(euclideanT, error) || totalLength != 0.0
    ensures t == EuclideanToParametricWithTotalLengthSpec(c, euclideanT, error, totalLength, env)
    ensures 0.0 <= t <= 1.0
    ensures euclideanT < error ==> t == 0.0
    ensures !(euclideanT < error) && 1.0 - euclideanT < error ==> t == 1.0
  {
    if euclideanT < error {
      return 0.0;
    }
    if 1.0 - euclideanT < error {
      return 1.0;
    }
    // The target generally lies on the same side of the middle in parametric terms, so the search
    // measures from the nearer end, with fewer chords the nearer that end is.
    var resultLikelyCloserToStart := euclideanT < 0.5;
    var subdivisions := SubdivisionsProportionalToLikelyLength(euclideanT);
    t := Search(c, SearchParams(euclideanT, error, totalLength, resultLikelyCloserToStart, subdivisions), env);
  }

  /**
   * The loop `while low < high` of the search, from the bracket `[0, 1]` with `mid` at one half,
   * for at most `env.maxIterations` rounds; it returns the last midpoint.
   */
  method Search(c: Bezier, p: SearchParams, env: Env) returns (mid: real)
    ensures mid == Bisect(Measurement(c, p, env), env.close, p.euclideanT, p.error, InitialState, env.maxIterations).mid
  {
    ghost var measure := Measurement(c, p, env);
    ghost var answer := Bisect(measure, env.close, p.euclideanT, p.error, InitialState, env.maxIterations);
    var low, high := 0.0, 1.0;
    mid := 0.5;

    // The rounds still allowed, and the loop variables as the state of the functional search.
    var iterations: nat := 0;
    ghost var fuel: nat := env.maxIterations;
    ghost var state := InitialState;
    while low < high && iterations < env.maxIterations
      invariant fuel == env.maxIterations - iterations
      invariant state == SearchState(low, mid, high, false) && InUnitBracket(state)
      invariant Bisect(measure, env.close, p.euclideanT, p.error, state, fuel) == answer
      decreases fuel
    {
      mid := (low + high) / 2.0;

      var currentEuclideanT := MeasuredFraction(c, p, mid, env);
      ghost var next := Step(currentEuclideanT, env.close, p.euclideanT, p.error, state);
      BisectRound(measure, env.close, p.euclideanT, p.error, state, fuel, mid, currentEuclideanT);

      if env.close(currentEuclideanT, p.euclideanT, p.error) {
        BisectStopped(measure, env.close, p.euclideanT, p.error, next, fuel - 1);
        break;
      } else if currentEuclideanT < p.euclideanT {
        low := mid;
      } else {
        high := mid;
      }
      iterations := iterations + 1;
      state, fuel := next, fuel - 1;
    }
  }
}
