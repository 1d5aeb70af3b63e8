/**
  The excited-state orchestration of the "gap" and "noqn_gap" run modes
  (tladder.cc lines 511-646 and 738-870, the state loop; the two copies differ
  only in the state representation and in the configuration checks, and are
  modelled once). The measurements that follow the loop are in Measure and
  Driver.

  K states are found one after another. State 0 comes from an unconstrained
  solver call; every later state from a call that also receives all states
  accepted so far and the orthogonality penalty weight. After each call the
  run fills row and column `state` of the K x K overlap matrix and of the
  effective-Hamiltonian matrix, records the energy, and appends the state.

  Matrix-product states are values of an abstract type S. The solver, the
  overlap <a|b> and the sandwich <a|H|b> for the run's fixed Hamiltonian H
  are library calls; they enter as function parameters.
*/
module Gap {

  import opened Ansatz
  import opened Options

  /** Whether the run conserves quantum numbers ("gap") or not ("noqn_gap"). */
  datatype Mode = WithQN | WithoutQN

  /** The configuration errors raised before any solver call. */
  datatype ConfigError = TripletWithoutQN | NNWithoutQN

  /**
    One call of the variational solver: the trial state is built from the
    ansatz; an excited-state call also passes the accepted states and the
    penalty weight.
  */
  datatype SolveRequest<S> =
    | Ground(trial: seq<Spin>)
    | Excited(trial: seq<Spin>, prior: seq<S>, weight: real)

  /** What the solver hands back: the optimised state and its energy. */
  datatype Solution<S> = Solution(state: S, energy: real)

  /** The value every slot of the energy vector holds before it is written. */
  const InitialEnergy: real := 1000.0

  /**
    The checks the run performs before the solver is ever called: without
    quantum-number conservation the triplet sector is refused first, then the
    nearest-neighbour Hamiltonian.
  */
  function Preflight(mode: Mode, triplet: bool, nn: bool): (r: Option<ConfigError>)
    ensures r.None? <==> (mode.WithQN? || (!triplet && !nn))
    ensures r == Some(TripletWithoutQN) <==> mode == WithoutQN && triplet
    ensures r == Some(NNWithoutQN) <==> mode == WithoutQN && !triplet && nn
  {
    if mode == WithoutQN && triplet then Some(TripletWithoutQN)
    else if mode == WithoutQN && nn then Some(NNWithoutQN)
    else None
  }

  /** The solver call for the next state, given the states accepted before it. */
  function Request<S>(trial: seq<Spin>, prior: seq<S>, weight: real): (q: SolveRequest<S>)
    ensures q.trial == trial
    ensures q.Ground? <==> prior == []
    ensures q.Excited? ==> q.prior == prior && q.weight == weight
  {
    if prior == [] then Ground(trial) else Excited(trial, prior, weight)
  }

  /**
    The first n accepted states: each is what the solver returns when handed
    exactly the states accepted before it.
  */
  function Accepted<S>(solve: SolveRequest<S> -> Solution<S>, trial: seq<Spin>, weight: real, n: nat): (psi: seq<S>)
    ensures |psi| == n
    ensures forall s :: 0 <= s < n ==> psi[s] == solve(Request(trial, psi[..s], weight)).state
  {
    if n == 0 then []
    else
      var prior := Accepted(solve, trial, weight, n - 1);
      var psi := prior + [solve(Request(trial, prior, weight)).state];
      assert psi[..n - 1] == prior;
      assert forall s :: 0 <= s < n - 1 ==> psi[..s] == prior[..s];
      psi
  }

  /** The accepted states are determined by the solver: any list built the same way is Accepted. */
  lemma {:induction false} AcceptedUnique<S>(solve: SolveRequest<S> -> Solution<S>, trial: seq<Spin>, weight: real, p: seq<S>)
    requires forall s :: 0 <= s < |p| ==> p[s] == solve(Request(trial, p[..s], weight)).state
    ensures p == Accepted(solve, trial, weight, |p|)
  {
    if p != [] {
      var q := p[..|p| - 1];
      forall s | 0 <= s < |q|
        ensures q[s] == solve(Request(trial, q[..s], weight)).state
      {
        assert q[..s] == p[..s];
      }
      AcceptedUnique(solve, trial, weight, q);
      assert p == q + [p[|p| - 1]];
    }
  }

  /** An accepted state is never replaced: later states only extend the list. */
  lemma AcceptedPrefix<S>(solve: SolveRequest<S> -> Solution<S>, trial: seq<Spin>, weight: real, m: nat, n: nat)
    requires m <= n
    ensures Accepted(solve, trial, weight, m) == Accepted(solve, trial, weight, n)[..m]
  {
    var p := Accepted(solve, trial, weight, n)[..m];
    forall s | 0 <= s < m
      ensures p[s] == solve(Request(trial, p[..s], weight)).state
    {
      assert p[..s] == Accepted(solve, trial, weight, n)[..s];
    }
    AcceptedUnique(solve, trial, weight, p);
  }

  /**
    The solver calls of a complete run: state 0 is solved with no prior-state
    list, every later state s with exactly the states 0..s-1 and the weight.
  */
  lemma RequestsOfRun<S>(solve: SolveRequest<S> -> Solution<S>, trial: seq<Spin>, weight: real, k: nat, s: nat)
    requires s < k
    ensures var psi := Accepted(solve, trial, weight, k);
            Request(trial, psi[..s], weight)
            == if s == 0 then Ground(trial) else Excited(trial, psi[..s], weight)
  {
  }

  /**
    Entry (i, j) of the overlap matrix once the states in psi are accepted:
    the diagonal is 1, an entry between two accepted states s < t holds
    <psi[s]|psi[t]> on both sides of the diagonal, and every other entry keeps
    the 0 it started with.
  */
  function OverlapEntry<S>(inner: (S, S) -> real, psi: seq<S>, i: nat, j: nat): real
  {
    if i == j then 1.0
    else if i < |psi| && j < |psi| then
      (if i < j then inner(psi[i], psi[j]) else inner(psi[j], psi[i]))
    else 0.0
  }

  /**
    Entry (i, j) of the effective-Hamiltonian matrix: the energy of state i
    on the diagonal, <psi[s]|H|psi[t]> for accepted s < t on both sides, and 0
    wherever nothing has been written yet.
  */
  function HeffEntry<S>(sandwich: (S, S) -> real, psi: seq<S>, energies: seq<real>, i: nat, j: nat): real
    requires |energies| == |psi|
  {
    if i == j then (if i < |psi| then energies[i] else 0.0)
    else if i < |psi| && j < |psi| then
      (if i < j then sandwich(psi[i], psi[j]) else sandwich(psi[j], psi[i]))
    else 0.0
  }

  /** The overlap matrix is symmetric, its diagonal is 1, and above the diagonal it holds <psi[s]|psi[t]>. */
  lemma OverlapShape<S>(inner: (S, S) -> real, psi: seq<S>, i: nat, j: nat)
    ensures OverlapEntry(inner, psi, i, j) == OverlapEntry(inner, psi, j, i)
    ensures OverlapEntry(inner, psi, i, i) == 1.0
    ensures i < j < |psi| ==> OverlapEntry(inner, psi, i, j) == inner(psi[i], psi[j])
  {
  }

  /** The effective-Hamiltonian matrix is symmetric, carries the energies on its diagonal, and <psi[s]|H|psi[t]> above it. */
  lemma HeffShape<S>(sandwich: (S, S) -> real, psi: seq<S>, energies: seq<real>, i: nat, j: nat)
    requires |energies| == |psi|
    ensures HeffEntry(sandwich, psi, energies, i, j) == HeffEntry(sandwich, psi, energies, j, i)
    ensures i < |psi| ==> HeffEntry(sandwich, psi, energies, i, i) == energies[i]
    ensures i < j < |psi| ==> HeffEntry(sandwich, psi, energies, i, j) == sandwich(psi[i], psi[j])
  {
  }

  /**
    Accepting one more state writes only row and column |psi| of either
    matrix: every other entry is the same before and after.
  */
  lemma {:induction false} AppendTouchesOnlyNewRow<S>(inner: (S, S) -> real, sandwich: (S, S) -> real,
                                                     psi: seq<S>, energies: seq<real>, x: S, e: real, i: nat, j: nat)
    requires |energies| == |psi|
    requires i != |psi| && j != |psi|
    ensures OverlapEntry(inner, psi + [x], i, j) == OverlapEntry(inner, psi, i, j)
    ensures HeffEntry(sandwich, psi + [x], energies + [e], i, j) == HeffEntry(sandwich, psi, energies, i, j)
  {
    var p := psi + [x];
    if i < |p| && j < |p| {
      assert i < |psi| && j < |psi|;
      assert p[i] == psi[i] && p[j] == psi[j];
      assert (energies + [e])[i] == energies[i];
    }
  }

  /**
    The state of one orchestration run: the accepted states psi, the energy
    vector (K + 1 slots, started at 1000), the overlap matrix (started as the
    identity) and the effective-Hamiltonian matrix (started at zero), and, as
    a ghost record, every solver call made so far.
  */
  class GapRun<S> {
    const K: nat
    const trial: seq<Spin>
    const weight: real
    const solve: SolveRequest<S> -> Solution<S>
    const inner: (S, S) -> real
    const sandwich: (S, S) -> real

    const energy: array<real>
    const olap: array2<real>
    const heff: array2<real>
    var psi: seq<S>
    ghost var calls: seq<SolveRequest<S>>

    ghost predicate Valid()
      reads this, energy, olap, heff
    {
      && energy.Length == K + 1
      && olap.Length0 == K && olap.Length1 == K
      && heff.Length0 == K && heff.Length1 == K
      && olap != heff
      && |psi| <= K && |calls| == |psi|
      && (forall s :: 0 <= s < |psi| ==> calls[s] == Request(trial, psi[..s], weight))
      && (forall s :: 0 <= s < |psi| ==> psi[s] == solve(calls[s]).state && energy[s] == solve(calls[s]).energy)
      && (forall s :: |psi| <= s <= K ==> energy[s] == InitialEnergy)
      && (forall i, j :: 0 <= i < K && 0 <= j < K ==> olap[i, j] == OverlapEntry(inner, psi, i, j))
      && (forall i, j :: 0 <= i < K && 0 <= j < K ==> heff[i, j] == HeffEntry(sandwich, psi, energy[..|psi|], i, j))
    }

    constructor (K: nat, trial: seq<Spin>, weight: real, solve: SolveRequest<S> -> Solution<S>,
                 inner: (S, S) -> real, sandwich: (S, S) -> real)
      ensures Valid() && fresh(energy) && fresh(olap) && fresh(heff)
      ensures this.K == K && this.trial == trial && this.weight == weight
      ensures this.solve == solve && this.inner == inner && this.sandwich == sandwich
      ensures psi == [] && calls == []
    {
      this.K := K;
      this.trial := trial;
      this.weight := weight;
      this.solve := solve;
      this.inner := inner;
      this.sandwich := sandwich;
      energy := new real[K + 1](_ => InitialEnergy);
      olap := new real[K, K]((i, j) => if i == j then 1.0 else 0.0);
      heff := new real[K, K]((i, j) => 0.0);
      psi := [];
      calls := [];
    }

    /**
      Writes <psi[s]|x> into entries (s, state) and (state, s) for every s < state,
      leaving every other entry as it was (tladder.cc:575-579).
    */
    method WriteOverlap(state: nat, x: S)
      requires olap.Length0 == K && olap.Length1 == K && state < K && state == |psi|
      modifies olap
      ensures forall i, j :: 0 <= i < K && 0 <= j < K ==>
                olap[i, j] == (if (i == state && j < state) || (j == state && i < state)
                               then OverlapEntry(inner, psi + [x], i, j)
                               else old(olap[i, j]))
    {
      for s := 0 to state
        invariant forall i, j :: 0 <= i < K && 0 <= j < K ==>
                    olap[i, j] == (if (i == state && j < s) || (j == state && i < s)
                                   then OverlapEntry(inner, psi + [x], i, j)
                                   else old(olap[i, j]))
      {
        olap[s, state] := inner(psi[s], x);
        olap[state, s] := olap[s, state];
      }
    }

    /**
      Writes <psi[s]|H|x> into entries (s, state) and (state, s) for every
      s < state, then the energy e into (state, state), leaving every other
      entry as it was (tladder.cc:582-587).
    */
    method WriteHeff(state: nat, x: S, ghost energies: seq<real>, e: real)
      requires heff.Length0 == K && heff.Length1 == K && state < K && state == |psi| && |energies| == state
      modifies heff
      ensures forall i, j :: 0 <= i < K && 0 <= j < K ==>
                heff[i, j] == (if (i == state && j <= state) || (j == state && i <= state)
                               then HeffEntry(sandwich, psi + [x], energies + [e], i, j)
                               else old(heff[i, j]))
    {
      for s := 0 to state
        invariant forall i, j :: 0 <= i < K && 0 <= j < K ==>
                    heff[i, j] == (if (i == state && j < s) || (j == state && i < s)
                                   then HeffEntry(sandwich, psi + [x], energies + [e], i, j)
                                   else old(heff[i, j]))
      {
        heff[s, state] := sandwich(psi[s], x);
        heff[state, s] := heff[s, state];
      }
      heff[state, state] := e;
    }

    /** One pass of the state loop: solve for state |psi|, fill its row and column, append it. */
    method Step()
      requires Valid() && |psi| < K
      modifies this, energy, olap, heff
      ensures Valid()
      ensures calls == old(calls) + [Request(trial, old(psi), weight)]
      ensures psi == old(psi) + [solve(Request(trial, old(psi), weight)).state]
      ensures energy[|old(psi)|] == solve(Request(trial, old(psi), weight)).energy
      ensures forall i, j :: 0 <= i < K && 0 <= j < K && i != |old(psi)| && j != |old(psi)| ==>
                olap[i, j] == old(olap[i, j]) && heff[i, j] == old(heff[i, j])
    {
      var state := |psi|;
      var request := if state == 0 then Ground(trial) else Excited(trial, psi, weight);
      assert request == Request(trial, psi, weight);
      var solution := solve(request);
      ghost var energies := energy[..state];
      energy[state] := solution.energy;
      var newpsi := solution.state;

      WriteOverlap(state, newpsi);
      WriteHeff(state, newpsi, energies, energy[state]);

      ghost var next := psi + [newpsi];
      forall i, j | 0 <= i < K && 0 <= j < K && ((i != state && j != state) || i > state || j > state)
        ensures OverlapEntry(inner, next, i, j) == OverlapEntry(inner, psi, i, j)
        ensures HeffEntry(sandwich, next, energies + [solution.energy], i, j) == HeffEntry(sandwich, psi, energies, i, j)
      {
        if i != state && j != state {
          AppendTouchesOnlyNewRow(inner, sandwich, psi, energies, newpsi, solution.energy, i, j);
        }
      }
      assert energy[..state + 1] == energies + [solution.energy];
      assert forall s :: 0 <= s < state ==> next[..s] == psi[..s];
      assert next[..state] == psi;

      psi := psi + [newpsi];
      calls := calls + [request];
    }

    /** The state loop: K passes, starting from no accepted state. */
    method Run()
      requires Valid() && psi == []
      modifies this, energy, olap, heff
      ensures Valid() && |psi| == K
      ensures psi == Accepted(solve, trial, weight, K)
    {
      for state := 0 to K
        invariant Valid() && |psi| == state
      {
        Step();
      }
      AcceptedUnique(solve, trial, weight, psi);
    }
  }

  /**
    A whole "gap" or "noqn_gap" run for a ladder of n sites: the configuration
    checks, the ansatz, and the K-state loop. On a configuration error no run
    object, and therefore no solver call, exists.
  */
  method RunGap<S>(mode: Mode, triplet: bool, nn: bool, n: nat, K: nat, weight: real,
                   solve: SolveRequest<S> -> Solution<S>, inner: (S, S) -> real, sandwich: (S, S) -> real)
    returns (err: Option<ConfigError>, run: GapRun?<S>)
    requires mode == WithQN && triplet ==> n >= 2
    ensures err == Preflight(mode, triplet, nn)
    ensures err.Some? <==> run == null
    ensures run != null ==>
              && fresh(run) && run.Valid()
              && run.K == K && run.weight == weight && run.trial == InitSites(n, triplet)
              && run.solve == solve && run.inner == inner && run.sandwich == sandwich
              && run.psi == Accepted(solve, run.trial, weight, K)
  {
    err := Preflight(mode, triplet, nn);
    if err.Some? {
      run := null;
      return;
    }
    var a := MakeInitState(n, triplet);
    run := new GapRun(K, a[..], weight, solve, inner, sandwich);
    run.Run();
  }
}
