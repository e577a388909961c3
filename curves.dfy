/** The curve value and the t-value descriptors the lookup queries take. */
module Curves {
  import opened Vectors

  /** The handle set fixes the degree: none (linear), one (quadratic) or two (cubic) control points. */
  datatype BezierHandles =
    | Linear
    | Quadratic(handle: Vec)
    | Cubic(handleStart: Vec, handleEnd: Vec)

  datatype Bezier = Bezier(start: Vec, end: Vec, handles: BezierHandles)

  /** How a scalar in `[0, 1]` is read: as the polynomial parameter, or as a fraction of the arc length. */
  datatype TValue =
    | Parametric(t: real)
    | Euclidean(t: real)
    | EuclideanWithinError(t: real, error: real)

  /** The spacing of a lookup table's samples. */
  datatype TValueType = ParametricSpacing | EuclideanSpacing
}
