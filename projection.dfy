/**
 * `project` (`src/bezier/lookup.rs`): the parametric value, among the start, the critical points
 * of the distance function and the end, whose point on the curve is closest to a given point. The
 * critical points come from `normals_to_point` and are taken here as an input.
 */
module Projection {
  import opened Vectors
  import opened Curves
  import opened Basis
  import opened Lookup

  /** The squared distance from the curve's point at `t` to `point`. */
  function DistanceAt(c: Bezier, point: Vec, t: real): (d: real)
    ensures d >= 0.0
  {
    DistanceSquared(UnrestrictedParametricEvaluate(c, t), point)
  }

  /** The values `project` compares, in the order it compares them. */
  function Candidates(critical: seq<real>): (cands: seq<real>)
    ensures |cands| == |critical| + 2 && cands[0] == 0.0 && cands[|cands| - 1] == 1.0
    ensures forall i :: 0 <= i < |critical| ==> cands[i + 1] == critical[i]
  {
    [0.0] + critical + [1.0]
  }

  predicate InUnitInterval(critical: seq<real>) {
    forall i :: 0 <= i < |critical| ==> 0.0 <= critical[i] <= 1.0
  }

  /** The running minimum: the value closest so far and its squared distance. */
  datatype Closest = Closest(t: real, distance: real)

  /**
   * The running minimum after the critical values, replaced only by a strictly closer one: it is
   * the one it started from, or a critical value strictly closer than that, with its distance.
   */
  function ScanCritical(c: Bezier, point: Vec, critical: seq<real>, acc: Closest): (r: Closest)
    decreases |critical|
    ensures r.distance <= acc.distance
    ensures r == acc || (r.t in critical && r.distance == DistanceAt(c, point, r.t) && r.distance < acc.distance)
  {
    if |critical| == 0 then
      acc
    else
      var distance := DistanceAt(c, point, critical[0]);
      ScanCritical(c, point, critical[1..], if distance < acc.distance then Closest(critical[0], distance) else acc)
  }

  /** What `project` returns: the scan from the start over the critical values, then the end if strictly closer. */
  function ProjectSpec(c: Bezier, point: Vec, critical: seq<real>): (t: real)
    ensures t == 0.0 || t == 1.0 || t in critical
  {
    var best := ScanCritical(c, point, critical, Closest(0.0, DistanceAt(c, point, 0.0)));
    if DistanceAt(c, point, 1.0) < best.distance then 1.0 else best.t
  }

  /**
   * `project` as the source runs it: a running minimum over the critical values seeded with the
   * start, then a last comparison with the end.
   */
  method Project(c: Bezier, point: Vec, critical: seq<real>, env: Env) returns (closest: real)
    requires InUnitInterval(critical)
    ensures closest == ProjectSpec(c, point, critical)
  {
    ghost var answer := ScanCritical(c, point, critical, Closest(0.0, DistanceAt(c, point, 0.0)));
    closest := 0.0;
    var minDistSquared := DistanceSquared(Evaluate(c, Parametric(0.0), env).value, point);

    for i := 0 to |critical|
      invariant ScanCritical(c, point, critical[i..], Closest(closest, minDistSquared)) == answer
    {
      var time := critical[i];
      var distance := DistanceSquared(Evaluate(c, Parametric(time), env).value, point);
      assert critical[i..][1..] == critical[i + 1..];
      if distance < minDistSquared {
        closest := time;
        minDistSquared := distance;
      }
    }

    if DistanceSquared(Evaluate(c, Parametric(1.0), env).value, point) < minDistSquared {
      closest := 1.0;
    }
  }

  /**
   * `k` is where the closest candidate first occurs: every earlier candidate is strictly farther
   * and no later one is closer.
   */
  ghost predicate FirstClosestAt(c: Bezier, point: Vec, cands: seq<real>, k: int) {
    && 0 <= k < |cands|
    && (forall j :: 0 <= j < k ==> DistanceAt(c, point, cands[j]) > DistanceAt(c, point, cands[k]))
    && (forall j :: k < j < |cands| ==> DistanceAt(c, point, cands[j]) >= DistanceAt(c, point, cands[k]))
  }

  /** One more comparison, replacing the minimum only when strictly closer, keeps it the first closest. */
  lemma ExtendFirstClosest(c: Bezier, point: Vec, done: seq<real>, k: nat, x: real) returns (k': nat)
    requires FirstClosestAt(c, point, done, k)
    ensures FirstClosestAt(c, point, done + [x], k')
    ensures DistanceAt(c, point, x) < DistanceAt(c, point, done[k]) ==> k' == |done|
    ensures !(DistanceAt(c, point, x) < DistanceAt(c, point, done[k])) ==> k' == k
  {
    var extended := done + [x];
    if DistanceAt(c, point, x) < DistanceAt(c, point, done[k]) {
      k' := |done|;
      forall j | 0 <= j < k'
        ensures DistanceAt(c, point, extended[j]) > DistanceAt(c, point, extended[k'])
      {
        assert extended[j] == done[j];
      }
    } else {
      k' := k;
      forall j | k' < j < |extended|
        ensures DistanceAt(c, point, extended[j]) >= DistanceAt(c, point, extended[k'])
      {
        if j < |done| {
          assert extended[j] == done[j];
        }
      }
      assert extended[k'] == done[k];
      forall j | 0 <= j < k'
        ensures DistanceAt(c, point, extended[j]) > DistanceAt(c, point, extended[k'])
      {
        assert extended[j] == done[j];
      }
    }
  }

  /** The scan carries the first closest of what it has seen into the first closest of everything. */
  lemma {:induction false} ScanFindsFirstClosest(c: Bezier, point: Vec, done: seq<real>, k: nat, rest: seq<real>)
    returns (k': nat)
    requires FirstClosestAt(c, point, done, k)
    decreases |rest|
    ensures FirstClosestAt(c, point, done + rest, k')
    ensures ScanCritical(c, point, rest, Closest(done[k], DistanceAt(c, point, done[k])))
      == Closest((done + rest)[k'], DistanceAt(c, point, (done + rest)[k']))
  {
    if |rest| == 0 {
      assert done + rest == done;
      k' := k;
    } else {
      var next := ExtendFirstClosest(c, point, done, k, rest[0]);
      k' := ScanFindsFirstClosest(c, point, done + [rest[0]], next, rest[1..]);
      assert (done + [rest[0]]) + rest[1..] == done + rest;
    }
  }

  /**
   * `project` returns the candidate where the smallest squared distance first occurs among the
   * start, the critical values in order, and the end: it is closest, and ties keep the earlier one.
   */
  lemma ProjectIsFirstClosest(c: Bezier, point: Vec, critical: seq<real>) returns (k: nat)
    ensures FirstClosestAt(c, point, Candidates(critical), k)
    ensures ProjectSpec(c, point, critical) == Candidates(critical)[k]
  {
    var start := [0.0];
    var scanned := ScanFindsFirstClosest(c, point, start, 0, critical);
    k := ExtendFirstClosest(c, point, start + critical, scanned, 1.0);
    assert start + critical + [1.0] == Candidates(critical);
  }

  /**
   * What the tie rule means: the result is a candidate, no candidate is closer, the start wins every
   * tie, and the end is chosen only when strictly closer than everything before it.
   */
  lemma ProjectChoosesClosest(c: Bezier, point: Vec, critical: seq<real>)
    ensures ProjectSpec(c, point, critical) in Candidates(critical)
    ensures forall x :: x in Candidates(critical) ==>
      DistanceAt(c, point, ProjectSpec(c, point, critical)) <= DistanceAt(c, point, x)
    ensures (forall x :: x in Candidates(critical) ==> DistanceAt(c, point, 0.0) <= DistanceAt(c, point, x)) ==>
      ProjectSpec(c, point, critical) == 0.0
    ensures ProjectSpec(c, point, critical) == 1.0 && (forall i :: 0 <= i < |critical| ==> critical[i] != 1.0) ==>
      forall i :: 0 <= i < |critical| ==> DistanceAt(c, point, 1.0) < DistanceAt(c, point, critical[i])
  {
    var cands := Candidates(critical);
    var k := ProjectIsFirstClosest(c, point, critical);
    forall x | x in cands
      ensures DistanceAt(c, point, cands[k]) <= DistanceAt(c, point, x)
    {
      var j :| 0 <= j < |cands| && cands[j] == x;
    }
    if cands[k] == 1.0 && (forall i :: 0 <= i < |critical| ==> critical[i] != 1.0) {
      assert k == |cands| - 1;
      forall i | 0 <= i < |critical|
        ensures DistanceAt(c, point, 1.0) < DistanceAt(c, point, critical[i])
      {
        assert cands[i + 1] == critical[i];
      }
    }
  }

  /** Every candidate lies in `[0, 1]` when the critical values do. */
  lemma CandidatesInUnitInterval(critical: seq<real>)
    requires InUnitInterval(critical)
    ensures forall x :: x in Candidates(critical) ==> 0.0 <= x <= 1.0
  {
    var cands := Candidates(critical);
    forall x | x in cands
      ensures 0.0 <= x <= 1.0
    {
      var j :| 0 <= j < |cands| && cands[j] == x;
      if 0 < j < |cands| - 1 {
        assert x == critical[j - 1];
      }
    }
  }

  /**
   * When no point of the curve on `[0, 1]` is closer than the start, `project` returns the start,
   * whatever critical values in `[0, 1]` it is given.
   */
  lemma ProjectKeepsNearestStart(c: Bezier, point: Vec, critical: seq<real>)
    requires InUnitInterval(critical)
    requires forall t :: 0.0 <= t <= 1.0 ==> DistanceAt(c, point, 0.0) <= DistanceAt(c, point, t)
    ensures ProjectSpec(c, point, critical) == 0.0
  {
    CandidatesInUnitInterval(critical);
    ProjectChoosesClosest(c, point, critical);
  }

  /**
   * When the end is strictly closer than every other point of the curve on `[0, 1]`, `project`
   * returns the end, whatever critical values in `[0, 1]` it is given.
   */
  lemma ProjectFindsNearestEnd(c: Bezier, point: Vec, critical: seq<real>)
    requires InUnitInterval(critical)
    requires forall t :: 0.0 <= t < 1.0 ==> DistanceAt(c, point, 1.0) < DistanceAt(c, point, t)
    ensures ProjectSpec(c, point, critical) == 1.0
  {
    CandidatesInUnitInterval(critical);
    ProjectChoosesClosest(c, point, critical);
    assert 1.0 in Candidates(critical);
  }

  /** A candidate at squared distance zero makes the result one at squared distance zero. */
  lemma ProjectReachesZero(c: Bezier, point: Vec, critical: seq<real>, t: real)
    requires t in Candidates(critical) && DistanceAt(c, point, t) == 0.0
    ensures DistanceAt(c, point, ProjectSpec(c, point, critical)) == 0.0
  {
    ProjectChoosesClosest(c, point, critical);
  }

  /**
   * When the point lies on the curve at one of the candidates, `project` finds a candidate at
   * squared distance zero from it.
   */
  lemma ProjectFindsPointOnCurve(c: Bezier, point: Vec, critical: seq<real>, t: real)
    requires t in Candidates(critical) && UnrestrictedParametricEvaluate(c, t) == point
    ensures DistanceAt(c, point, ProjectSpec(c, point, critical)) == 0.0
  {
    assert DistanceAt(c, point, t) == 0.0;
    ProjectReachesZero(c, point, critical, t);
  }

  /**
   * The source's third projection test: the cubic (-50,-50), (-50,-50), (50,-50), (50,-50) passes
   * through (0,-50) at one half, so when one half is among the critical values the projection of
   * (0,-50) lies on the curve.
   */
  lemma ProjectionTest(critical: seq<real>)
    requires 0.5 in critical
    ensures var c := Bezier(Vec(-50.0, -50.0), Vec(50.0, -50.0), Cubic(Vec(-50.0, -50.0), Vec(50.0, -50.0)));
      DistanceAt(c, Vec(0.0, -50.0), ProjectSpec(c, Vec(0.0, -50.0), critical)) == 0.0
  {
    var c := Bezier(Vec(-50.0, -50.0), Vec(50.0, -50.0), Cubic(Vec(-50.0, -50.0), Vec(50.0, -50.0)));
    assert UnrestrictedParametricEvaluate(c, 0.5) == Vec(0.0, -50.0);
    assert 0.5 in Candidates(critical);
    ProjectFindsPointOnCurve(c, Vec(0.0, -50.0), critical, 0.5);
  }
}
