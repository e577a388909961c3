/**
 * The queries of `impl Bezier` in `src/bezier/lookup.rs` that compute values: t-value resolution,
 * evaluation, the lookup table, the chord length and the functional form of the euclidean-to-parametric
 * bisection. They call one another in a cycle (a euclidean t-value needs the curve's length, the
 * length needs a lookup table, the table evaluates parametric t-values), so they live in one module;
 * each function's `decreases` ranks the parametric paths below the euclidean ones.
 */
module Lookup {
  import opened Wrappers
  import opened Vectors
  import opened Curves
  import opened Basis
  import opened Bisection

  /** DEFAULT_LUT_STEP_SIZE: the number of lookup-table steps when none is given. */
  const DefaultLutStepSize: nat := 10

  /** DEFAULT_LENGTH_SUBDIVISIONS: the number of chords of a length approximation when none is given. */
  const DefaultLengthSubdivisions: nat := 1000

  /**
   * Why a query has no value: a t-value outside `[0, 1]` (the source's `assert!` panics), or a
   * euclidean search over a curve of total length zero (the source divides by that length).
   */
  datatype DomainError = OutOfRange | DegenerateLength

  /**
   * What the lookup queries use from outside `lookup.rs`: the vector length, `Bezier::trim` on
   * parametric bounds, `utils::f64_compare`, the default euclidean error bound, and the number of
   * bisection rounds after which floating point would have collapsed the bracket.
   */
  datatype Env = Env(
    norm: Vec -> real,
    trim: (Bezier, real, real) -> Bezier,
    close: (real, real, real) -> bool,
    euclideanErrorBound: real,
    maxIterations: nat)

  function Rank(tv: TValue): nat {
    if tv.Parametric? then 0 else 10
  }

  function SpacingRank(spacing: TValueType): nat {
    if spacing == ParametricSpacing then 0 else 10
  }

  /** The error bound a euclidean t-value is resolved with. */
  function ErrorBound(tv: TValue, env: Env): real
    requires !tv.Parametric?
  {
    match tv
    case Euclidean(_) => env.euclideanErrorBound
    case EuclideanWithinError(_, error) => error
  }

  /** The bisection returns at once, without measuring, near either end. */
  predicate EarlyExit(euclideanT: real, error: real) {
    euclideanT < error || 1.0 - euclideanT < error
  }

  // ---------------------------------------------------------------------------------------------
  // t-value resolution and evaluation

  /** `t_value_to_parametric`: check `t` is in `[0, 1]`, then resolve it to a parametric value. */
  function TValueToParametric(c: Bezier, tv: TValue, env: Env): (r: Result<real, DomainError>)
    decreases Rank(tv) + 1, 0
    ensures !(0.0 <= tv.t <= 1.0) ==> r == Err(OutOfRange)
    ensures tv.Parametric? && 0.0 <= tv.t <= 1.0 ==> r == Ok(tv.t)
    ensures r.Ok? ==> 0.0 <= r.value <= 1.0
    ensures !tv.Parametric? && 0.0 <= tv.t <= 1.0 && tv.t < ErrorBound(tv, env) ==> r == Ok(0.0)
    ensures !tv.Parametric? && ErrorBound(tv, env) <= tv.t <= 1.0 && 1.0 - tv.t < ErrorBound(tv, env) ==>
      r == Ok(1.0)
  {
    if !(0.0 <= tv.t <= 1.0) then
      Err(OutOfRange)
    else
      match tv
      case Parametric(t) => Ok(t)
      case Euclidean(t) => EuclideanToParametric(c, t, env.euclideanErrorBound, env)
      case EuclideanWithinError(t, error) => EuclideanToParametric(c, t, error, env)
  }

  /** `evaluate`: the point at a t-value, which lies on the curve between its endpoints. */
  function Evaluate(c: Bezier, tv: TValue, env: Env): (r: Result<Vec, DomainError>)
    decreases Rank(tv) + 2, 0
    ensures tv.Parametric? && 0.0 <= tv.t <= 1.0 ==> r == Ok(UnrestrictedParametricEvaluate(c, tv.t))
    ensures !(0.0 <= tv.t <= 1.0) ==> r == Err(OutOfRange)
    ensures r.Ok? ==> exists t :: 0.0 <= t <= 1.0 && r.value == UnrestrictedParametricEvaluate(c, t)
  {
    match TValueToParametric(c, tv, env)
    case Ok(t) => Ok(UnrestrictedParametricEvaluate(c, t))
    case Err(e) => Err(e)
  }

  // ---------------------------------------------------------------------------------------------
  // Lookup table

  /** The t-value of sample `t / steps` under the chosen spacing. */
  function Sample(spacing: TValueType, t: real): (tv: TValue)
    ensures tv.t == t && (tv.Parametric? <==> spacing == ParametricSpacing) && Rank(tv) == SpacingRank(spacing)
    ensures spacing == EuclideanSpacing ==> tv == Euclidean(t)
  {
    match spacing
    case ParametricSpacing => Parametric(t)
    case EuclideanSpacing => Euclidean(t)
  }

  lemma FractionInUnit(i: nat, n: nat)
    requires 1 <= n && i <= n
    ensures 0.0 <= (i as real) / (n as real) <= 1.0
  {
  }

  lemma FractionEnds(n: nat)
    requires 1 <= n
    ensures (0 as real) / (n as real) == 0.0 && (n as real) / (n as real) == 1.0
  {
  }

  /** The samples `i, i + 1, ..., steps` of the lookup table, evaluated in order. */
  function CollectSamples(c: Bezier, steps: nat, spacing: TValueType, i: nat, env: Env): (r: Result<seq<Vec>, DomainError>)
    requires 1 <= steps && i <= steps + 1
    decreases SpacingRank(spacing) + 3, steps + 1 - i
    ensures r.Ok? ==> |r.value| == steps + 1 - i
    ensures spacing == ParametricSpacing ==> r.Ok?
  {
    if i > steps then
      Ok([])
    else
      var t := i as real / steps as real;
      FractionInUnit(i, steps);
      match Evaluate(c, Sample(spacing, t), env)
      case Err(e) => Err(e)
      case Ok(p) =>
        match CollectSamples(c, steps, spacing, i + 1, env)
        case Err(e) => Err(e)
        case Ok(rest) =>
          Ok([p] + rest)
  }

  /**
   * `compute_lookup_table`: `steps + 1` points at the t-values `i / steps`. With no steps given there
   * are ten; zero steps make the first t-value `0 / 0`, which fails the range check.
   */
  function ComputeLookupTable(c: Bezier, steps: Option<nat>, tvalueType: Option<TValueType>, env: Env)
    : (r: Result<seq<Vec>, DomainError>)
    decreases SpacingRank(tvalueType.GetOr(ParametricSpacing)) + 4, 0
    ensures steps.GetOr(DefaultLutStepSize) == 0 ==> r == Err(OutOfRange)
    ensures r.Ok? ==> |r.value| == steps.GetOr(DefaultLutStepSize) + 1
    ensures tvalueType.GetOr(ParametricSpacing) == ParametricSpacing && steps.GetOr(DefaultLutStepSize) >= 1 ==> r.Ok?
  {
    var n := steps.GetOr(DefaultLutStepSize);
    var spacing := tvalueType.GetOr(ParametricSpacing);
    if n == 0 then
      Err(OutOfRange)
    else
      CollectSamples(c, n, spacing, 0, env)
  }

  // ---------------------------------------------------------------------------------------------
  // Length

  /** The sum of the distances between consecutive points (`windows(2)` summed). */
  function PolylineLength(points: seq<Vec>, norm: Vec -> real): (r: real)
    ensures IsNorm(norm) ==> r >= 0.0
  {
    if |points| < 2 then 0.0 else norm(Sub(points[1], points[0])) + PolylineLength(points[1..], norm)
  }

  /** A polyline is at least as long as the straight segment between its ends. */
  lemma {:induction false} PolylineAtLeastChord(points: seq<Vec>, norm: Vec -> real)
    requires IsNorm(norm) && |points| >= 2
    ensures PolylineLength(points, norm) >= norm(Sub(points[|points| - 1], points[0]))
  {
    var first, last := points[0], points[|points| - 1];
    if |points| > 2 {
      PolylineAtLeastChord(points[1..], norm);
      assert Add(Sub(points[1], first), Sub(last, points[1])) == Sub(last, first);
    }
  }

  /**
   * `length`: the exact endpoint distance for a linear curve, otherwise the chord length of the
   * parametric lookup table with `numSubdivisions` steps (a thousand when none is given).
   */
  function Length(c: Bezier, numSubdivisions: Option<nat>, env: Env): (r: Result<real, DomainError>)
    decreases 5, 0
    ensures r.Ok? <==> c.handles.Linear? || numSubdivisions != Some(0)
    ensures c.handles.Linear? ==> r == Ok(env.norm(Sub(c.start, c.end)))
  {
    match c.handles
    case Linear => Ok(env.norm(Sub(c.start, c.end)))
    case _ =>
      var n := numSubdivisions.GetOr(DefaultLengthSubdivisions);
      match ComputeLookupTable(c, Some(n), Some(ParametricSpacing), env)
      case Err(e) => Err(e)
      case Ok(table) => Ok(PolylineLength(table, env.norm))
  }

  // ---------------------------------------------------------------------------------------------
  // Euclidean-to-parametric bisection, as functions

  /**
   * The number of chords each trimmed length is approximated with: the distance of the target from
   * the middle, scaled to the default subdivision count and rounded, but at least one.
   */
  function SubdivisionsProportionalToLikelyLength(euclideanT: real): (n: nat)
    ensures n >= 1
    ensures 0.0 <= euclideanT <= 1.0 ==> n <= DefaultLengthSubdivisions / 2
    ensures var scaled := (if euclideanT < 0.5 then 0.5 - euclideanT else euclideanT - 0.5) * DefaultLengthSubdivisions as real;
      (scaled < 0.5 ==> n == 1) && (scaled >= 0.5 ==> n as real - 0.5 <= scaled < n as real + 0.5)
  {
    var distance := if euclideanT < 0.5 then 0.5 - euclideanT else euclideanT - 0.5;
    // `f64::round` on a non-negative value: add one half and take the floor.
    var rounded := (distance * DefaultLengthSubdivisions as real + 0.5).Floor;
    if rounded < 1 then 1 else rounded
  }

  type Positive = n: nat | 1 <= n witness 1

  type NonZero = x: real | x != 0.0 witness 1.0

  /** The fixed inputs of one bisection search. */
  datatype SearchParams = SearchParams(
    euclideanT: real,
    error: real,
    totalLength: NonZero,
    resultLikelyCloserToStart: bool,
    subdivisions: Positive)

  /**
   * The euclidean fraction of the curve up to `mid`: the length of the curve trimmed to `[0, mid]`,
   * or the total less the length of the curve trimmed to `[mid, 1]`, divided by the total.
   */
  function MeasuredFraction(c: Bezier, p: SearchParams, mid: real, env: Env): real
    decreases 6, 0
  {
    var currentLength :=
      if p.resultLikelyCloserToStart then
        Length(env.trim(c, 0.0, mid), Some(p.subdivisions), env).value
      else
        p.totalLength - Length(env.trim(c, mid, 1.0), Some(p.subdivisions), env).value;
    currentLength / p.totalLength
  }

  /** The measurement the search bisects on, as a function of the parametric value. */
  function Measurement(c: Bezier, p: SearchParams, env: Env): real -> real
    decreases 7, 0
  {
    x => MeasuredFraction(c, p, x, env)
  }

  /** The parameters of the search `euclidean_to_parametric_with_total_length` runs away from the ends. */
  function SearchParamsFor(euclideanT: real, error: real, totalLength: NonZero): (p: SearchParams)
    ensures p.euclideanT == euclideanT && p.error == error && p.totalLength == totalLength
    ensures p.resultLikelyCloserToStart <==> euclideanT < 0.5
    ensures p.subdivisions == SubdivisionsProportionalToLikelyLength(euclideanT)
  {
    SearchParams(euclideanT, error, totalLength, euclideanT < 0.5, SubdivisionsProportionalToLikelyLength(euclideanT))
  }

  /**
   * `euclidean_to_parametric_with_total_length` as a function of its inputs: an end when the target
   * is within `error` of it, otherwise the last midpoint of the bisection on the measured fraction.
   */
  function EuclideanToParametricWithTotalLengthSpec(c: Bezier, euclideanT: real, error: real, totalLength: real, env: Env)
    : (t: real)
    requires EarlyExit(euclideanT, error) || totalLength != 0.0
    decreases 9, 0
    ensures 0.0 <= t <= 1.0
    ensures euclideanT < error ==> t == 0.0
    ensures !(euclideanT < error) && 1.0 - euclideanT < error ==> t == 1.0
  {
    if euclideanT < error then
      0.0
    else if 1.0 - euclideanT < error then
      1.0
    else
      var p := SearchParamsFor(euclideanT, error, totalLength);
      Bisect(Measurement(c, p, env), env.close, euclideanT, error, InitialState, env.maxIterations).mid
  }

  /**
   * `euclidean_to_parametric`: the search above over the curve's default-precision length; a curve
   * of length zero has no answer once the search has to measure.
   */
  function EuclideanToParametric(c: Bezier, ratio: real, error: real, env: Env): (r: Result<real, DomainError>)
    decreases 10, 0
    ensures r.Ok? ==> 0.0 <= r.value <= 1.0
    ensures ratio < error ==> r == Ok(0.0)
    ensures !(ratio < error) && 1.0 - ratio < error ==> r == Ok(1.0)
    ensures r.Err? ==> r.error == DegenerateLength && !EarlyExit(ratio, error)
  {
    var totalLength := Length(c, None, env).value;
    if !EarlyExit(ratio, error) && totalLength == 0.0 then
      Err(DegenerateLength)
    else
      Ok(EuclideanToParametricWithTotalLengthSpec(c, ratio, error, totalLength, env))
  }
}
