/**
  The control flow of main that surrounds the solver calls (tladder.cc
  lines 338-898): the loop over values of the swept parameter in the
  "solve" and "noqn" run modes, and the order in which a "gap" run measures
  pairs of states.
*/
module Driver {

  /** The tolerance 1E-8 of the sweep loop's exit test. */
  const Eps: real := 0.00000001

  /** The step written into param_step when no sweep is requested. */
  const NoSweepStep: real := 1000.0

  datatype SweepRange = SweepRange(start: real, end: real, step: real)

  /**
    The range the loop actually runs over: the configured one when a sweep is
    requested, otherwise start = end = the swept parameter's current value
    and step 1000 (tladder.cc:455-460).
  */
  function Effective(doSweep: bool, current: real, given: SweepRange): (r: SweepRange)
    ensures doSweep ==> r == given
    ensures !doSweep ==> r.start == current && r.end == current && r.step > 0.0
    ensures (doSweep ==> given.step > 0.0 || given.start - given.end >= Eps) ==>
              r.step > 0.0 || r.start - r.end >= Eps
  {
    if doSweep then given else SweepRange(current, current, NoSweepStep)
  }

  /**
    The loop of tladder.cc:462: the parameter starts at start, the body runs
    while value - end < 1E-8, and each pass adds step. It stops when the step
    is positive, or when the first test already fails (start - end >= 1E-8),
    in which case it makes no pass whatever the step. Returns the value of
    each pass and the value the parameter is left with.
  */
  method ParamLoop(start: real, end: real, step: real) returns (values: seq<real>, last: real)
    requires step > 0.0 || start - end >= Eps
    ensures step <= 0.0 ==> values == [] && last == start
    ensures forall k :: 0 <= k < |values| ==> values[k] == start + k as real * step
    ensures forall k :: 0 <= k < |values| ==> values[k] - end < Eps
    ensures last == start + |values| as real * step
    ensures last - end >= Eps
  {
    values := [];
    var x := start;
    while x - end < Eps
      invariant x == start + |values| as real * step
      invariant forall k :: 0 <= k < |values| ==> values[k] == start + k as real * step
      invariant forall k :: 0 <= k < |values| ==> values[k] - end < Eps
      invariant step > 0.0 || |values| == 0
      decreases if step > 0.0 then ((end + Eps - x) / step).Floor else 0
    {
      OneStepCloser(end + Eps - x, step);
      NextValue(start, |values|, step);
      values := values + [x];
      x := x + step;
    }
    last := x;
  }

  /**
    The swept parameter's values, one per Hamiltonian build and solver call,
    and the value it is left with (tladder.cc:455-462). Without a sweep the
    range is reset to start = end = current and step 1000.
  */
  method SweptValues(doSweep: bool, current: real, given: SweepRange) returns (values: seq<real>, last: real)
    requires doSweep ==> given.step > 0.0 || given.start - given.end >= Eps
    ensures var r := Effective(doSweep, current, given);
            && (forall k :: 0 <= k < |values| ==> values[k] == r.start + k as real * r.step)
            && (forall k :: 0 <= k < |values| ==> values[k] - r.end < Eps)
            && last == r.start + |values| as real * r.step
            && last - r.end >= Eps
    ensures !doSweep ==> values == [current] && last == current + NoSweepStep
  {
    var r := Effective(doSweep, current, given);
    values, last := ParamLoop(r.start, r.end, r.step);
    if !doSweep {
      NoSweepRunsOnce(current, values, last);
    }
  }

  /**
    Without a sweep the loop body runs exactly once, at the parameter's
    current value: start = end = current and the step of 1000 overshoots the
    1E-8 tolerance at once.
  */
  lemma NoSweepRunsOnce(current: real, values: seq<real>, last: real)
    requires forall k :: 0 <= k < |values| ==> values[k] == current + k as real * NoSweepStep
    requires forall k :: 0 <= k < |values| ==> values[k] - current < Eps
    requires last == current + |values| as real * NoSweepStep && last - current >= Eps
    ensures values == [current] && last == current + NoSweepStep
  {
    assert |values| >= 1;
    assert values[|values| - 1] - current == (|values| - 1) as real * NoSweepStep;
  }

  /** Adding one step to the k-th value gives the (k+1)-th. */
  lemma NextValue(start: real, k: nat, step: real)
    ensures start + k as real * step + step == start + (k + 1) as real * step
  {
  }

  /** One more step shortens the remaining distance, counted in steps, by exactly one. */
  lemma OneStepCloser(d: real, step: real)
    requires step > 0.0
    ensures ((d - step) / step).Floor == (d / step).Floor - 1
  {
    assert step / step == 1.0;
    assert (d - step) / step == d / step - step / step;
  }

  /** Lexicographic order on (state, other) pairs. */
  predicate Before(a: (nat, nat), b: (nat, nat))
  {
    a.0 < b.0 || (a.0 == b.0 && a.1 < b.1)
  }

  /** The number of pairs (s, o) with s < state and s < o < K. */
  function PairCount(k: nat, state: nat): nat
  {
    if state == 0 then 0
    else PairCount(k, state - 1) + (if state - 1 < k then k - state else 0)
  }

  /** With state = K every pair s < o < K is counted: K(K-1)/2 of them. */
  lemma {:induction false} PairCountAll(k: nat, state: nat)
    requires state <= k
    ensures 2 * PairCount(k, state) == state * (2 * k - state - 1)
  {
    if state > 0 {
      PairCountAll(k, state - 1);
    }
  }

  /**
    The double loop that runs the off-diagonal measurements of a gap run:
    every pair of states (state, other) with state < other < K, once each, in
    lexicographic order (tladder.cc:655-662).
  */
  method OffDiagPairs(k: nat) returns (pairs: seq<(nat, nat)>)
    ensures forall p :: p in pairs <==> p.0 < p.1 < k
    ensures forall a, b :: 0 <= a < b < |pairs| ==> Before(pairs[a], pairs[b])
    ensures 2 * |pairs| == k * (k - 1)
  {
    pairs := [];
    for state := 0 to k
      invariant forall p :: p in pairs <==> p.0 < state && p.0 < p.1 < k
      invariant forall a, b :: 0 <= a < b < |pairs| ==> Before(pairs[a], pairs[b])
      invariant forall a :: 0 <= a < |pairs| ==> pairs[a].0 < state
      invariant |pairs| == PairCount(k, state)
    {
      for other := state + 1 to k
        invariant forall p :: p in pairs <==> (p.0 < state && p.0 < p.1 < k) || (p.0 == state && state < p.1 < other)
        invariant forall a, b :: 0 <= a < b < |pairs| ==> Before(pairs[a], pairs[b])
        invariant forall a :: 0 <= a < |pairs| ==> pairs[a].0 < state || (pairs[a].0 == state && pairs[a].1 < other)
        invariant |pairs| == PairCount(k, state) + (other - state - 1)
      {
        pairs := pairs + [(state, other)];
      }
    }
    PairCountAll(k, k);
  }
}
