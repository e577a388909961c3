# Bezier-rs curve queries, in Dafny

A model of the lookup half of Bezier-rs's `Bezier` type (`src/bezier/lookup.rs`). It covers these queries:

- evaluating a quadratic, cubic or linear curve at a parametric `t` with the Bernstein basis;
- resolving a `TValue`, which is parametric or euclidean (an arc-length fraction), to a parametric value;
- the lookup table of `steps + 1` sampled points;
- the chord-sum approximation of the curve's length;
- the bisection that turns a euclidean fraction into a parametric value;
- `project`, which picks the candidate parameter whose point is closest to a given point.

Coordinates are mathematical reals. A query the source guards with `assert!` (a t-value outside `[0, 1]`) returns `Err(OutOfRange)` instead of panicking.

The model is split into modules:

- `Vectors`: the `DVec2` arithmetic and an abstract vector length.
- `Curves`: the curve and t-value types.
- `Basis`: `unrestricted_parametric_evaluate`.
- `Lookup`: the queries as functions, which are mutually recursive. A euclidean evaluation measures lengths, lengths build lookup tables, and lookup tables evaluate.
- `Bisection`: the search loop as a function over any measurement, with its invariants as lemmas.
- `EuclideanSearch`: the source's `while` loop as a method, proved equal to the `Bisection` function.
- `LookupProperties`: properties that relate several queries, and the source's unit tests.
- `Projection`: `project` as a method with its `for` loop, proved equal to a fold, and that fold characterised as the first closest candidate.
- `ProjectionTests`: the source's projection tests whose answers follow from the control points alone.

## Model

| member | source | states |
|---|---|---|
| Vectors.DistanceSquared | src/bezier/lookup.rs:155-158 | glam's squared distance is never negative, and zero from a point to itself |
| Vectors.Lerp | src/bezier/lookup.rs:91 | the linear interpolation is the start at `t = 0` and the end at `t = 1` |
| Basis.UnrestrictedParametricEvaluate | src/bezier/lookup.rs:83-99 | the Bernstein evaluation of each degree gives the start at `t = 0` and the end at `t = 1` |
| Basis.QuadraticAtHalf | src/bezier/lookup.rs:176-183 | the quadratic (3,5), (14,3), (19,14) at one half is (12.5, 6.25) |
| Basis.CubicAtHalf | src/bezier/lookup.rs:185-186 | the cubic (3,5), (14,3), (19,14), (30,21) at one half is (16.5, 9.625) |
| Lookup.ErrorBound | src/bezier/lookup.rs:71-78 | a `Euclidean` t-value is resolved with the default error bound, an `EuclideanWithinError` one with the bound it carries |
| Lookup.TValueToParametric | src/bezier/lookup.rs:65-80 | every variant rejects `t` outside `[0, 1]`; a parametric `t` in range is returned as is; any result lies in `[0, 1]`; a euclidean `t` within the error bound of either end resolves to that end |
| Lookup.Evaluate | src/bezier/lookup.rs:104-107 | a parametric `t` in range gives the Bernstein point; `t` out of range is an error; any point returned is the curve at some parameter in `[0, 1]` |
| Lookup.Sample | src/bezier/lookup.rs:116-121 | the sample t-value carries the fraction; it is parametric exactly under parametric spacing, and under euclidean spacing it is a plain `Euclidean` t-value, resolved with the default error bound |
| Lookup.CollectSamples | src/bezier/lookup.rs:116-124 | samples `i..steps` number `steps + 1 - i`, and parametric sampling never fails |
| Lookup.ComputeLookupTable | src/bezier/lookup.rs:112-125 | zero steps fail the range check (`0 / 0`); a table has `steps + 1` entries (ten steps by default); a parametric table with at least one step always exists |
| Lookup.PolylineLength | src/bezier/lookup.rs:139 | the sum of the chord lengths is never negative |
| Lookup.PolylineAtLeastChord | src/bezier/lookup.rs:139 | a polyline is at least as long as the straight segment between its first and last points |
| Lookup.Length | src/bezier/lookup.rs:130-144 | a length exists exactly when the curve is linear or the subdivision count is not zero; a linear curve's length is the endpoint distance |
| Lookup.SubdivisionsProportionalToLikelyLength | src/bezier/lookup.rs:35 | the chord count is the distance of the target from one half, scaled by 1000 and rounded half up, but at least one; it is at most 500 for targets in `[0, 1]` |
| Lookup.EarlyExit | src/bezier/lookup.rs:17-22 | the search returns an end without measuring when the target is within `error` of 0 or of 1 |
| Lookup.MeasuredFraction | src/bezier/lookup.rs:42-50 | the fraction measured at `mid`: the length of the curve trimmed to `[0, mid]`, or the total less the length trimmed to `[mid, 1]`, over the total length |
| Lookup.Measurement | src/bezier/lookup.rs:42-50 | the same measured fraction as a function of the parametric value, which the bisection searches on |
| Lookup.SearchParamsFor | src/bezier/lookup.rs:32-35 | the search measures from the start exactly when the target is below one half, with the chord count of `SubdivisionsProportionalToLikelyLength` |
| Lookup.EuclideanToParametricWithTotalLengthSpec | src/bezier/lookup.rs:16-62 | the result lies in `[0, 1]`; a target within `error` of 0 gives 0 and one within `error` of 1 gives 1, in that order of tests |
| Lookup.EuclideanToParametric | src/bezier/lookup.rs:8-11 | the same bounds and early exits over the default-precision total length; the only failure is a curve of length zero when the search must measure |
| Bisection.Step | src/bezier/lookup.rs:39-58 | one round: the midpoint is the average of the bracket ends; it stops exactly when the measurement is close; otherwise `low` rises to the midpoint when the measurement falls short, else `high` drops to it |
| Bisection.Bisect | src/bezier/lookup.rs:38-59 | the bracket of the rounds stays ordered within `[0, 1]` |
| Bisection.BisectNarrows | src/bezier/lookup.rs:52-58 | the bracket only narrows |
| Bisection.BisectStopsClose | src/bezier/lookup.rs:52-53 | a search that stops does so on a midpoint whose measurement is close to the target |
| Bisection.BisectKeepsBracketed | src/bezier/lookup.rs:54-58 | `low` stays at 0 or below the target, and `high` stays at 1 or at or above it |
| Bisection.BisectHalves | src/bezier/lookup.rs:38-59 | a search that has not stopped has halved the bracket once per round |
| Bisection.BisectRound | src/bezier/lookup.rs:39-58 | one pass of the loop body advances the functional search by one round |
| Bisection.BisectStopped | src/bezier/lookup.rs:52-53 | after the `break` the search result is the state at the break |
| Bisection.InitialStateBracketed | src/bezier/lookup.rs:24-26 | the starting bracket `[0, 1]` with `mid = 0.5` is ordered and sound |
| Bisection.SolutionInBracket | src/bezier/lookup.rs:37-38 | for a measurement strictly increasing on `[0, 1]`, a sound bracket within `[0, 1]` contains every parameter in `[0, 1]` where the measurement equals the target |
| Bisection.SearchBracketsSolutions | src/bezier/lookup.rs:37-59 | from `[0, 1]`, for a measurement strictly increasing on `[0, 1]`, the final bracket contains every solution in `[0, 1]`, and unless the search stopped its width is one halved once per round |
| EuclideanSearch.EuclideanToParametricWithTotalLength | src/bezier/lookup.rs:16-62 | the method returns what the specification function gives, in `[0, 1]`, with the two early exits |
| EuclideanSearch.Search | src/bezier/lookup.rs:24-61 | the `while` loop returns the last midpoint of the functional bisection from `[0, 1]` |
| LookupProperties.TValueToParametricResolves | src/bezier/lookup.rs:71-78 | a euclidean `t` in range resolves through the search, with the default error bound or with the one it carries |
| LookupProperties.OutOfRangeRejected | src/bezier/lookup.rs:65-80 | outside `[0, 1]` both `t_value_to_parametric` and `evaluate` fail, for every variant |
| LookupProperties.EuclideanToParametricFailsOnlyWhenDegenerate | src/bezier/lookup.rs:8-11 | the euclidean conversion fails if and only if it must measure and the total length is zero |
| LookupProperties.EuclideanSearchOnCurve | src/bezier/lookup.rs:16-62 | away from the ends the conversion is the last bisection midpoint on the curve's own measured fraction; a stopped search measured a fraction close to the target there; for a fraction strictly increasing on `[0, 1]` the final bracket holds every solution in `[0, 1]` and, unless stopped, is one halved once per round |
| LookupProperties.CollectSamplesEvaluates | src/bezier/lookup.rs:116-124 | sample `j` of the samples from `i` is the evaluation at `(i + j) / steps` |
| LookupProperties.LookupTableEvaluates | src/bezier/lookup.rs:112-125 | entry `i` of any table is the evaluation at `i / steps` under the chosen spacing |
| LookupProperties.ParametricLookupTable | src/bezier/lookup.rs:112-125 | a parametric table with `steps >= 1` exists; entry `i` is the curve at `i / steps`; it starts at the start and ends at the end |
| LookupProperties.EuclideanLookupTableEnds | src/bezier/lookup.rs:112-125 | a euclidean-spaced table that exists also starts at the curve's start and ends at its end, when the default error bound lies in `(0, 1]` (the early exits of lines 17-22 at fractions 0 and 1) |
| LookupProperties.LookupTableDefaultsAndZero | src/bezier/lookup.rs:113 | with no step count the table has eleven entries, and with zero steps it fails |
| LookupProperties.LengthIsChordSum | src/bezier/lookup.rs:133-141 | a quadratic or cubic length is the chord sum of its parametric table of `numSubdivisions` (default 1000) steps |
| LookupProperties.LengthAtLeastEndpointDistance | src/bezier/lookup.rs:130-144 | a length is never negative and never shorter than the endpoint distance, which a linear curve's length equals |
| LookupProperties.TwoStepLookupTable | src/bezier/lookup.rs:191-193 | a two-step parametric table is the start, the curve at one half, and the end |
| LookupProperties.FourStepLookupTable | src/bezier/lookup.rs:195-206 | a four-step parametric table is the start, the curve at the quarter points, and the end |
| LookupProperties.LookupTableTests | src/bezier/lookup.rs:190-206 | the two tables of the source's lookup-table test equal the listed `evaluate` results |
| LookupProperties.EvaluateAtHalf | src/bezier/lookup.rs:176-187 | the source's evaluation test, through `evaluate` |
| Projection.DistanceAt | src/bezier/lookup.rs:155-158 | the squared distance from the curve's point to the target point is never negative |
| Projection.Candidates | src/bezier/lookup.rs:154-167 | the compared values are the start 0, the critical values in order, and the end 1 |
| Projection.ScanCritical | src/bezier/lookup.rs:157-163 | the running minimum after the critical values is never farther than where it started, and it is either unchanged or a critical value strictly closer than the start, with its own distance |
| Projection.ProjectSpec | src/bezier/lookup.rs:154-168 | `project`'s result is 0, 1 or one of the critical values |
| Projection.Project | src/bezier/lookup.rs:149-169 | the `for` loop and the last comparison return the running-minimum fold over 0, the critical values and 1 |
| Projection.ExtendFirstClosest | src/bezier/lookup.rs:159-162 | replacing the minimum only on a strictly smaller distance keeps it at the first closest candidate |
| Projection.ScanFindsFirstClosest | src/bezier/lookup.rs:157-163 | the scan over the critical values ends at the first closest of all values seen |
| Projection.ProjectIsFirstClosest | src/bezier/lookup.rs:149-169 | the result is the candidate where the smallest distance first occurs: every earlier candidate is strictly farther, and no later one is closer |
| Projection.ProjectChoosesClosest | src/bezier/lookup.rs:154-167 | the result is one of the candidates and no candidate is closer; the start wins its ties; when no critical value equals 1, the end is chosen only when strictly closer than every critical value |
| Projection.ProjectKeepsNearestStart | src/bezier/lookup.rs:154-168 | when no point of the curve on `[0, 1]` is closer than the start, `project` returns 0 for any critical values in `[0, 1]` |
| Projection.ProjectFindsNearestEnd | src/bezier/lookup.rs:154-168 | when the end is strictly closer than every other point of the curve on `[0, 1]`, `project` returns 1 for any critical values in `[0, 1]` |
| Projection.ProjectReachesZero | src/bezier/lookup.rs:149-169 | a candidate at distance zero makes the result one at distance zero |
| Projection.ProjectFindsPointOnCurve | src/bezier/lookup.rs:236-237 | when the point lies on the curve at a candidate, the projection is at distance zero from it |
| Projection.ProjectionTest | src/bezier/lookup.rs:236-237 | the cubic (-50,-50), (-50,-50), (50,-50), (50,-50) projects (0,-50) onto a point at distance zero whenever one half is a critical value |
| ProjectionTests.Bezier1InBox | src/bezier/lookup.rs:228 | every point of the cubic (4,4), (23,45), (10,30), (56,90) on `[0, 1]` lies in the box `[4, 56] x [4, 90]`, strictly left of x = 56 before the end |
| ProjectionTests.ProjectOriginOntoBezier1 | src/bezier/lookup.rs:228-229 | the origin projects onto `t = 0` of that cubic, whatever critical values in `[0, 1]` the root finder gives |
| ProjectionTests.ProjectHundredOntoBezier1 | src/bezier/lookup.rs:228-230 | (100,100) projects onto `t = 1` of that cubic, whatever critical values in `[0, 1]` the root finder gives |
| ProjectionTests.Bezier2Gap | src/bezier/lookup.rs:232-233 | the quadratic (0,0), (0,100), (100,100) at `t` is farther from (99.99, 0) than its start by `t^2 (20000 (1 - t)^2 + 2)` |
| ProjectionTests.ProjectPointOntoBezier2 | src/bezier/lookup.rs:232-233 | (99.99, 0) projects onto `t = 0` of that quadratic, whatever critical values in `[0, 1]` the root finder gives |

## Left out

- Floating point: coordinates are reals. IEEE-754 rounding, NaN and infinities are not modelled. `f64::round` is modelled as rounding half up, which agrees on the non-negative values it receives.
- `DVec2::length` is a square root. It is an abstract `norm`, and the properties that need it require the norm properties: non-negative, zero at the origin, symmetric, and the triangle inequality. So the numeric length tests (about 204 and about 199, lines 219-223) are not stated.
- `Bezier::trim`, `utils::f64_compare` and `normals_to_point` live outside `lookup.rs`. The first two are parameters of the environment. The critical values `normals_to_point` returns are a parameter of `Project`. `Project` requires them in `[0, 1]`, where `evaluate` would otherwise panic.
- `DEFAULT_EUCLIDEAN_ERROR_BOUND` is defined outside `lookup.rs`, so it is a field of the environment. `DEFAULT_LUT_STEP_SIZE` is 10 and `DEFAULT_LENGTH_SUBDIVISIONS` is 1000, as the doc comments give them.
- `usize` step counts are naturals, so overflow of `steps + 1` is not modelled.
- `ProjectionOptions`: `project` ignores its options, so the model has no such parameter.
- The projection test of line 234 (`(-50,150)` onto the second test curve gives about 0.5) depends on the root finder behind `normals_to_point`, so it is not stated. The other three answers of lines 228-233 are forced by the control points and are stated for every list of critical values in `[0, 1]`.
- `src/lib.rs` is not part of this model, and neither are the demo frames in the doc comments.
- EuclideanSearch.Search: the source's loop runs `while low < high`, which ends because floating-point midpoints eventually collapse the bracket. With reals the bracket never collapses, so the loop also stops after `maxIterations` rounds, a field of the environment.
- Lookup.EuclideanToParametric: on a curve of total length zero, once the search must measure, the model returns `Err(DegenerateLength)`. The source divides 0 by 0, bisects on NaN towards 0, and returns a value near 0.
- Bisection.SearchBracketsSolutions: it holds only for a measurement strictly increasing on `[0, 1]`. The chord-sum length of a trimmed curve is not proved monotone in the trim parameter on `[0, 1]`, because `trim` is abstract.
- LookupProperties.EuclideanSearchOnCurve: its bracket clause likewise holds only when the curve's measured fraction is strictly increasing on `[0, 1]`, which follows from no stated property of `trim`.
- EuclideanSearch.EuclideanToParametricWithTotalLength, Lookup.EuclideanToParametricWithTotalLengthSpec: both require an early exit or a non-zero `totalLength`. The source accepts any total length from its caller and divides by it, so a zero total gives NaN there.
- Lookup.TValueToParametric, Lookup.Evaluate, Lookup.ComputeLookupTable: `Err(DegenerateLength)` propagates through them. A euclidean t-value away from the ends on a curve of length zero fails, and so does a euclidean-spaced table that samples such a t-value. The source returns a point or a table there, computed from NaN fractions.
- Projection.ProjectFindsPointOnCurve: it states that the projected point is at squared distance zero from the target. It does not state the point equality the source's test asserts, because "a sum of two squares is zero only when both terms are" is not proved here.
- Projection.ProjectionTest: the same weakening as above. It also assumes one half is among the critical values, since the root finder is not modelled.
