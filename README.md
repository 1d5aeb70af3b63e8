# tladder: excited-state orchestration and transfer-matrix measurements

This project models the bookkeeping core of `tladder`, a driver that runs
variational matrix-product-state (DMRG) calculations for a two-leg spin-1/2
ladder with long-range couplings. The model proves properties of that core.
The tensor-network library is abstract throughout: states are values of an
abstract type, and the solver, overlaps `<a|b>`, sandwiches `<a|H|b>` and
scalar contractions are function parameters.

- `ansatz.dfy` (module `Ansatz`): the Neel product state used to seed every state,
  and the triplet-sector override of sites 1 and 2.
- `gap.dfy` (module `Gap`): the "gap" / "noqn_gap" run modes, modelled once
  because the two copies differ only in the state type and the configuration
  checks. A class `GapRun` holds the accepted states `psi`, the energy vector,
  the overlap matrix `olap` and the effective-Hamiltonian matrix `heff`.
  `GapRun.Valid()` records each solver request and ties every accepted state
  and energy to the solver's answer to it. It ties the two matrices to the
  specification functions `OverlapEntry` and `HeffEntry`. `GapRun.Run` then
  proves that the accepted states are `Accepted(K)`.
- `measure.dfy` (module `Measure`): `printLocalMeasurements` and the two-pass
  transfer-matrix sweep `printOffDiagMeasurements`. A state is a `Chain`
  object whose gauge centre `position` moves. Contraction is modelled on
  words of symbolic site tensors: multiplication is concatenation, and
  commutativity is expressed through multisets. Each site tensor carries the
  gauge centre its state had when the tensor was read, because moving the
  centre rewrites the site tensors.
- `smoothing.dfy` (module `Smoothing`): `TanhSmoothing` (constructor check,
  distance to the ladder's ends, the clamp `y`), with `tanh` as a parameter.
- `driver.dfy` (module `Driver`): the swept-parameter loop of the "solve" and
  "noqn" modes, and the order in which a gap run measures pairs of states.
- `options.dfy` (module `Options`): an `Option` datatype.

Where the source leaves a library's behaviour open, the model makes one choice.
`Matrix olap(n,n); olap = 1;` is read as the identity: the diagonal is 1 and
the rest 0. `Heff = 0;` is the zero matrix. The final matrices do not depend
on this choice, because every off-diagonal entry is written by the end of the
run. Decimals are exact reals.

## Model

| member | source | states |
|---|---|---|
| `Ansatz.MakeInitState` | tladder.cc:531-540 | the filled array is `InitSites(n, triplet)`: site i is Dn for odd i and Up for even i, except that with the triplet option sites 1 and 2 are Up |
| `Ansatz.NeelMagnetisation` | tladder.cc:531-533 | the plain ansatz has (#Up - #Dn) = 0 on an even number of sites and -1 on an odd one |
| `Ansatz.TripletMagnetisation` | tladder.cc:535-540 | the triplet override raises (#Up - #Dn) by exactly 2, so the even ladder starts in the Sz = +1 sector |
| `Ansatz.TripletChangesOnlySiteOne` | tladder.cc:535-540 | the override turns site 1 from Dn to Up; every other site, site 2 included, keeps its Neel value |
| `Gap.Preflight` | tladder.cc:741-750 | without quantum numbers, the triplet sector is refused first and the nearest-neighbour model second; with them nothing is refused (both directions) |
| `Gap.Request` | tladder.cc:558-566 | the request always carries the trial state; it is the ground-state call exactly when no state has been accepted yet, and otherwise carries all prior states and the penalty weight |
| `Gap.Accepted` | tladder.cc:550-566 | n states; state s is the solver's result for the request built from exactly the states 0..s-1 |
| `Gap.AcceptedUnique` | tladder.cc:550-645 | any list in which each state is the solver's answer to its predecessors is the accepted list |
| `Gap.AcceptedPrefix` | tladder.cc:645 | the accepted states of a shorter run are a prefix of those of a longer one: an accepted state is never replaced |
| `Gap.RequestsOfRun` | tladder.cc:558-566 | state 0 is solved with no prior-state list; every state s > 0 with exactly psi[0..s-1] and the penalty weight |
| `Gap.OverlapShape` | tladder.cc:542-579 | the overlap matrix is symmetric, has 1 on the diagonal, and holds `<psi[s]\|psi[t]>` for s < t |
| `Gap.HeffShape` | tladder.cc:544-587 | the effective-Hamiltonian matrix is symmetric, has energy[i] on the diagonal, and holds `<psi[s]\|H\|psi[t]>` for s < t |
| `Gap.AppendTouchesOnlyNewRow` | tladder.cc:575-587 | accepting one more state changes no entry outside its own row and column |
| `Gap.GapRun.constructor` | tladder.cc:526-545 | energy has K + 1 slots at 1000, the overlap matrix is the K x K identity, Heff is zero, no state is accepted |
| `Gap.GapRun.WriteOverlap` | tladder.cc:575-579 | entries (s, state) and (state, s) for s < state get `<psi[s]\|x>`; every other entry is unchanged |
| `Gap.GapRun.WriteHeff` | tladder.cc:582-587 | entries (s, state) and (state, s) get `<psi[s]\|H\|x>`, (state, state) gets the energy; every other entry is unchanged |
| `Gap.GapRun.Step` | tladder.cc:550-646 | one state loop pass: records the solver request for the current prefix, appends exactly one state and its energy, keeps the invariant, changes only row and column `state` |
| `Gap.GapRun.Run` | tladder.cc:550-646 | after K passes, psi has length K and equals `Accepted(K)`, and both matrices are complete and symmetric |
| `Gap.RunGap` | tladder.cc:511-646 | the state loop of both gap modes (also 738-870): a configuration error stops the run before any solver call; otherwise the run starts from the ansatz and ends in the complete valid state |
| `Measure.LocalMeasurements` | tladder.cc:252-270 | for each site j, `sx[j]` and `sz[j]` contract conj(A_j) O_j A_j with both site tensors read while the gauge centre was at j; slots 0 and N+1 keep -100; the centre ends at N |
| `Measure.RightPass` | tladder.cc:292-303 | R[k] for 1 <= k <= N-1 is the product built from the right end, with the tensors read in the states' current gauges: R[N-1] = conj(primelink(B_N)) A_N, R[k-1] = R[k] conj(primelink(B_k)) A_k |
| `Measure.OffDiagMeasurements` | tladder.cc:284-336 | both states are gauged to site 1; one value per site, and the value at j contracts exactly the network `SweepWord(N, j, 1, 1)` (every tensor read in gauge 1) in the order the loop multiplies it |
| `Measure.RightWordFolds` | tladder.cc:297-303 | R[k] contains exactly the folds F_m = A_m conj(primelink(B_m)) of the sites m = k+1..N |
| `Measure.NetworkSplit` | tladder.cc:306-335 | the brute-force network with the operator at site j is the folds of 1..j-1, the sandwiched site j, and the folds of j+1..N |
| `Measure.SweepWordFactors` | tladder.cc:306-335 | the factors of the value at j are those of L_{j-1} = F_1..F_{j-1}, the sandwich A_j Sz_j conj(primed(B_j)), and F_{j+1}..F_N; at j = 1 there is no L and at j = N no R (as multisets, since contraction is commutative) |
| `Measure.SweepIsNetwork` | tladder.cc:306-335 | the value at j contracts the same factors as the full network of both chains with the operator inserted at j |
| `Measure.SweepMatchesBruteForce` | tladder.cc:306-335 | for any contraction that ignores factor order, the sweep's value at j equals the brute-force contraction |
| `Measure.SweepCount` | tladder.cc:306-335 | in the value at j, the ket and link-primed bra of every site other than j occur once each; the site-j ket, operator and primed bra occur once each; no other tensor occurs |
| `Measure.OperatorOnlyAtSite` | tladder.cc:309-321 | the operator occurs once, at site j; every ket occurs once; site j is closed by the primed bra and every other site by the link-primed bra |
| `Measure.SweepSingleGauge` | tladder.cc:289-335 | every tensor in the value at j comes from psiA in gauge ga or from psiB in gauge gb, and no unprimed bra occurs |
| `Measure.TwoSiteBoundary` | tladder.cc:297-335 | on two sites the value at site 1 is R[1] contracted with A_1 Sz_1 conj(primed(B_1)), and the value at site 2 uses L = F_1 and no R |
| `Smoothing.MakeSmoothing` | tladder.cc:76-83 | the stored width is \|xi\| and is positive; construction fails exactly when xi is 0 |
| `Smoothing.DistanceToEnd` | tladder.cc:96 | on whole-numbered rungs dj is 2 plus the number of rungs between j and the nearer end, plus 1 at rung nx/2 of an even ladder |
| `Smoothing.DistanceAtLeastTwo` | tladder.cc:96 | for rungs 1..nx, dj >= 2 |
| `Smoothing.DistanceMirror` | tladder.cc:96 | dj(j) = dj(nx+1-j) everywhere except at the centre of an even ladder, where dj(nx/2) = dj(nx/2+1) + 1 |
| `Smoothing.Y` | tladder.cc:100-109 | y is 1 for x <= 0 and 0 for x >= 1, and at x = 1/2 it is 0.5(1 - tanh(0)) |
| `Smoothing.YInUnitInterval` | tladder.cc:100-109 | y lies within [0, 1] for every x when tanh takes values within [-1, 1] |
| `Smoothing.TanhArgumentMonotone` | tladder.cc:108 | (x - 0.5)/(x(1 - x)) increases on (0, 1) |
| `Smoothing.YNonincreasing` | tladder.cc:100-109 | for a nondecreasing tanh with values in [-1, 1], y never increases |
| `Smoothing.Call` | tladder.cc:93-98 | call(j) is exactly 1 wherever dj >= xi |
| `Smoothing.CallMonotone` | tladder.cc:93-109 | the profile never decreases as dj grows |
| `Smoothing.CallPositive` | tladder.cc:93-109 | on rungs 1..nx the profile lies in (0, 1] when tanh lies strictly within (-1, 1) |
| `Driver.Effective` | tladder.cc:455-460 | a requested sweep keeps its range; otherwise start = end = the current value with a positive step; in both cases the range meets the loop's termination condition when the configured one does |
| `Driver.ParamLoop` | tladder.cc:462 | the loop stops for a positive step, and makes no pass when start - end >= 1E-8 whatever the step; the k-th pass runs at start + k*step, every pass satisfies value - end < 1E-8, and the parameter is left at the first value that fails the test |
| `Driver.SweptValues` | tladder.cc:455-462 | the parameter takes the values start + k*step while value - end < 1E-8, and is left at the first value that fails the test; without a sweep it runs exactly once at its current value |
| `Driver.NoSweepRunsOnce` | tladder.cc:455-462 | with start = end = current and step 1000 the loop body runs once, at the current value |
| `Driver.OffDiagPairs` | tladder.cc:655-662 | every pair state < other < K is measured once, in lexicographic order, K(K-1)/2 pairs in all |

## Left out

- The DMRG solver, `psiphi`, `psiHphi`, `Dot` and tensor contraction internals are library calls. They are function parameters (`solve`, `inner`, `sandwich`, `dot`). `position` is modelled only as the move of a gauge-centre field, because the state it represents does not change.
- `ExpFit`, `makeLongRangeH`, `LongRangeSpinLadder`, `NNSpinLadder`, `Dipole` and `InterLeg` (tladder.cc:28-70, 113-232) are floating-point fitting and library Hamiltonian builders. The `max_p_leg` / `max_p_rung` defaulting (tladder.cc:133-134) feeds only those fits, so it is left out with them.
- `tanh` is a parameter. The model assumes only the bounds and monotonicity stated in the lemmas.
- File I/O (`fexist`, `readFromFile`, `writeToFile`, `writedata`), reading a start wavefunction from disk, and parameter-file parsing in `main` are outside the model.
- All printing, including the formatted matrix dumps (tladder.cc:589-612) and the energy listing (568-572). Measurement values are returned instead of printed.
- The commented-out eigen-decomposition and `HTerms` blocks are dead code.
- The quantum-number variant of `printLocalMeasurements` (tladder.cc:234-249) computes the Sz half of `LocalMeasurements` and prints it without storing it. It is not modelled separately.
- The "solve" and "noqn" run modes are modelled only through their parameter loop (`SweptValues`). The body of each iteration is a Hamiltonian build, one solver call, local measurements and file writes.
- `Driver.SweptValues`: the swept parameter is reached through a pointer that is null unless `sweep_param` is "lambdaxy" (tladder.cc:449-453). The model takes the parameter's current value as an input and does not model the pointer or the null case.
- `Driver.SweptValues`: the source adds `param_step` in floating point, and rounding can change the number of iterations near the 1E-8 tolerance. The model uses exact reals (value k is start + k*step). When a sweep is requested with a non-positive step and the first test passes (start - end < 1E-8), the source loops forever; the model requires that this case does not occur. With start - end >= 1E-8 the loop makes no pass whatever the step, and the model covers that.
- `Gap.RunGap`: `nstates` is a plain `int` in the source. The model takes a natural number. It leaves out negative values, for which the run fails at `psi.reserve` (tladder.cc:527 / 759), after the configuration checks and the Hamiltonian build and before any solver call.
- `Measure.OffDiagMeasurements`: the source does not check that the two states have the same length. It reads psiB on the first N sites of psiA, which on a shorter psiB reads past its end and on a longer psiB ignores its remaining sites. The model requires equal lengths and at least one site.
- The measurement phase of a gap run (tladder.cc:648-662, 873-887) is not composed with `Gap.RunGap`. Its parts are modelled separately: `Measure.LocalMeasurements` for each state, `Driver.OffDiagPairs` for the order of the pairs, and `Measure.OffDiagMeasurements` for each pair. No member runs them over the accepted states, because `Gap` keeps the states abstract and `Measure` works on `Chain` objects.
- Solver non-convergence is not reported separately by the source, so it is not modelled: whatever energy the solver returns is recorded.
