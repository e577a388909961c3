/**
 * The bisection of `euclidean_to_parametric_with_total_length` (`src/bezier/lookup.rs`), over an
 * arbitrary measurement: a bracket `[low, high]` of parametric values, halved at `mid` until the
 * fraction measured at `mid` is close enough to the target.
 */
module Bisection {

  /** The loop variables of the search, and whether it has stopped on a close enough measurement. */
  datatype SearchState = SearchState(low: real, mid: real, high: real, done: bool)

  /** `low = 0`, `mid = 0.5`, `high = 1` before the first round. */
  const InitialState: SearchState := SearchState(0.0, 0.5, 1.0, false)

  predicate InUnitBracket(s: SearchState) {
    0.0 <= s.low <= s.mid <= s.high <= 1.0
  }

  /**
   * One round of the loop, given the fraction `measured` at the midpoint of the bracket: stop if
   * it is close to the target, else move the low end up to the midpoint when it falls short of the
   * target and the high end down to it otherwise.
   */
  function Step(measured: real, close: (real, real, real) -> bool, target: real, error: real, s: SearchState)
    : (r: SearchState)
    ensures r.mid == (s.low + s.high) / 2.0
    ensures r.done <==> close(measured, target, error)
    ensures r.done ==> r.low == s.low && r.high == s.high
    ensures !r.done && measured < target ==> r.low == r.mid && r.high == s.high
    ensures !r.done && !(measured < target) ==> r.low == s.low && r.high == r.mid
  {
    var mid := (s.low + s.high) / 2.0;
    if close(measured, target, error) then
      SearchState(s.low, mid, s.high, true)
    else if measured < target then
      SearchState(mid, mid, s.high, false)
    else
      SearchState(s.low, mid, mid, false)
  }

  /** A width halved `k` times. */
  function Halved(width: real, k: nat): (r: real)
    decreases k
    ensures width > 0.0 ==> r > 0.0
  {
    if k == 0 then width else Halved(width / 2.0, k - 1)
  }

  /**
   * The bracket is sound: its low end is the start or a place measured short of the target, and
   * its high end is the end or a place measured at or past the target.
   */
  ghost predicate Bracketed(measure: real -> real, target: real, s: SearchState) {
    && (s.low == 0.0 || measure(s.low) < target)
    && (s.high == 1.0 || !(measure(s.high) < target))
  }

  /** Up to `fuel` rounds of the loop `while low < high`; the bracket stays within `[0, 1]`. */
  function Bisect(measure: real -> real, close: (real, real, real) -> bool, target: real, error: real,
                  s: SearchState, fuel: nat): (r: SearchState)
    requires InUnitBracket(s)
    decreases fuel
    ensures InUnitBracket(r)
  {
    if s.done || fuel == 0 || !(s.low < s.high) then
      s
    else
      var next := Step(measure((s.low + s.high) / 2.0), close, target, error, s);
      Bisect(measure, close, target, error, next, fuel - 1)
  }

  /** The bracket only narrows. */
  lemma {:induction false} BisectNarrows(measure: real -> real, close: (real, real, real) -> bool, target: real,
                                         error: real, s: SearchState, fuel: nat)
    requires InUnitBracket(s)
    decreases fuel
    ensures var r := Bisect(measure, close, target, error, s, fuel);
      s.low <= r.low && r.high <= s.high
  {
    if !s.done && fuel > 0 && s.low < s.high {
      var next := Step(measure((s.low + s.high) / 2.0), close, target, error, s);
      BisectNarrows(measure, close, target, error, next, fuel - 1);
    }
  }

  /** A search that stops does so on a midpoint whose measurement is close to the target. */
  lemma {:induction false} BisectStopsClose(measure: real -> real, close: (real, real, real) -> bool, target: real,
                                            error: real, s: SearchState, fuel: nat)
    requires InUnitBracket(s) && !s.done
    decreases fuel
    ensures var r := Bisect(measure, close, target, error, s, fuel);
      r.done ==> close(measure(r.mid), target, error)
  {
    if fuel > 0 && s.low < s.high {
      var next := Step(measure((s.low + s.high) / 2.0), close, target, error, s);
      if !next.done {
        BisectStopsClose(measure, close, target, error, next, fuel - 1);
      }
    }
  }

  /** Every round keeps the bracket sound. */
  lemma {:induction false} BisectKeepsBracketed(measure: real -> real, close: (real, real, real) -> bool, target: real,
                                                error: real, s: SearchState, fuel: nat)
    requires InUnitBracket(s) && Bracketed(measure, target, s)
    decreases fuel
    ensures Bracketed(measure, target, Bisect(measure, close, target, error, s, fuel))
  {
    if !s.done && fuel > 0 && s.low < s.high {
      var next := Step(measure((s.low + s.high) / 2.0), close, target, error, s);
      BisectKeepsBracketed(measure, close, target, error, next, fuel - 1);
    }
  }

  /** A search that has not stopped has halved the bracket once per round. */
  lemma {:induction false} BisectHalves(measure: real -> real, close: (real, real, real) -> bool, target: real,
                                        error: real, s: SearchState, fuel: nat)
    requires InUnitBracket(s) && !s.done
    decreases fuel
    ensures var r := Bisect(measure, close, target, error, s, fuel);
      !r.done ==> r.high - r.low == Halved(s.high - s.low, fuel)
  {
    if fuel > 0 {
      if s.low < s.high {
        var next := Step(measure((s.low + s.high) / 2.0), close, target, error, s);
        if !next.done {
          BisectHalves(measure, close, target, error, next, fuel - 1);
        }
      } else {
        HalvedZero(fuel);
      }
    }
  }

  lemma {:induction false} HalvedZero(k: nat)
    ensures Halved(0.0, k) == 0.0
  {
    if k > 0 {
      HalvedZero(k - 1);
    }
  }

  /** One round of the loop, unfolded, given the fraction `measured` at the midpoint `mid`. */
  lemma BisectRound(measure: real -> real, close: (real, real, real) -> bool, target: real, error: real,
                    s: SearchState, fuel: nat, mid: real, measured: real)
    requires InUnitBracket(s) && !s.done && fuel > 0 && s.low < s.high
    requires mid == (s.low + s.high) / 2.0 && measured == measure(mid)
    ensures var next := Step(measured, close, target, error, s);
      InUnitBracket(next) && Bisect(measure, close, target, error, s, fuel) == Bisect(measure, close, target, error, next, fuel - 1)
  {
  }

  /** A stopped search stays where it stopped. */
  lemma BisectStopped(measure: real -> real, close: (real, real, real) -> bool, target: real, error: real,
                      s: SearchState, fuel: nat)
    requires InUnitBracket(s) && s.done
    ensures Bisect(measure, close, target, error, s, fuel) == s
  {
  }

  /** The starting bracket is the whole curve, so it is sound whatever the measurement. */
  lemma InitialStateBracketed(measure: real -> real, target: real)
    ensures InUnitBracket(InitialState) && Bracketed(measure, target, InitialState)
  {
  }

  /** The measurement grows strictly with the parametric value over the curve, `[0, 1]`. */
  ghost predicate StrictlyIncreasing(measure: real -> real) {
    forall x, y :: 0.0 <= x < y <= 1.0 ==> measure(x) < measure(y)
  }

  /**
   * When the measurement grows with the parametric value on `[0, 1]`, a sound bracket within it holds every parametric
   * value at which the measurement hits the target: the search never discards the answer.
   */
  lemma SolutionInBracket(measure: real -> real, target: real, s: SearchState, x: real)
    requires StrictlyIncreasing(measure) && InUnitBracket(s) && Bracketed(measure, target, s)
    requires 0.0 <= x <= 1.0 && measure(x) == target
    ensures s.low <= x <= s.high
  {
  }

  /**
   * The search as a whole: from the starting bracket, a search that ends without stopping has a
   * bracket of width one halved once per round around every solution.
   */
  lemma SearchBracketsSolutions(measure: real -> real, close: (real, real, real) -> bool, target: real, error: real,
                                fuel: nat, x: real)
    requires StrictlyIncreasing(measure) && 0.0 <= x <= 1.0 && measure(x) == target
    ensures var r := Bisect(measure, close, target, error, InitialState, fuel);
      r.low <= x <= r.high && (r.done || r.high - r.low == Halved(1.0, fuel))
  {
    InitialStateBracketed(measure, target);
    BisectKeepsBracketed(measure, close, target, error, InitialState, fuel);
    BisectHalves(measure, close, target, error, InitialState, fuel);
    var r := Bisect(measure, close, target, error, InitialState, fuel);
    SolutionInBracket(measure, target, r, x);
  }
}
