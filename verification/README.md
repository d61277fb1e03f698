# Worldshepherd model

A Dafny model of five parts of the Worldshepherd repository, and proofs of what they promise.

- **Numerical kernels** (`Bits`, `Complex`, `Dft`, `Fft`, `Fft2`, `Grid`, `Arakawa`, `Poisson`, `Mhd`, `MhdRun`,
  `MhdStates`, `MhdEnergy`, `Sor`, `SorSolver`, `Tridiagonal`, `Hartmann`, `HartmannDecay`, `HartmannSteady`, `Allocation`, `Jacobi`).
  The `nsb_*` gates compare floating-point residuals with tolerances. Each rests on an identity that holds exactly for
  every grid, field and number of steps; here the algorithms run over exact reals and the identities are proved: the
  in-place transform is the Fourier sum and is undone by its inverse mode, the Arakawa Jacobian conserves what it
  should, the Poisson inversion inverts, the relaxation solver converges, the Crank-Nicolson run balances its energy,
  the steady profile is bounded and attracting, the allocator is optimal, the Jacobi rotations keep the spectrum.
- **ECHO provenance** (`Merkle`, `Json`, `EchoStore`, `EchoPool`, `EchoReconcile`, `EchoVerify`, `EchoAcceptance`, `EchoLedger`,
  `EchoIntegrity`, `EchoSoundness`).
  The event store, checkpoint creation, the separate verifier and the integrity check form one state machine. Every
  run of ingests and checkpoints satisfies the verifier; a chain's last digest determines all its manifests; a Merkle
  root determines its events.
- **SARA outbox** (`Outbox`, `OutboxEcho`, `OutboxReuse`). Bounded queueing, ordered drain, a crash window between
  audit append and registry commit, and the composition with ECHO's idempotent ingest.
- **Symbolic search** (`Expressions`, `Discovery`). The canonical key is semantically sound, so the beam search never
  loses quality.
- **Market and relay simulator** (`Market`, `Cisnet`). Truthful bidding is dominant on the bid grid; bytes are
  conserved and transfers complete in bounded time.

`Text`, `Sorting`, `Rounding`, `RealArith` and `Wrappers` are shared support. Code that updates arrays, fields or
dictionaries is a method or a class proved against a specification function; pure code is functions and lemmas.

Assumptions carried as parameters, each satisfiable: roots of unity as a tower `w(s)` with `w(s + 1)^2 = w(s)` and
`w(1) = -1` (or cosines and sines obeying the half-angle laws); a square root `r` with `r >= 0` and `r^2 = x`; a hash
whose outputs look like SHA-256 digests and which is free of collisions on the finite set of texts named in each
lemma; a JSON writer and a reader that undoes it; a signer and a signature check; clocks and fresh identifiers as
arguments. Raw digests are written in hexadecimal and base64url text stands for its bytes.

Where the code falls short of a documented promise the exact condition is proved. A clearing price can fall below a
reserve that is finer than eight decimals (`Market.PriceBounds`, `Market.ReserveCanBeUndercut`). Truthful bidding is
dominant for exactly the values on the eight-decimal grid (`Market.TruthIsDominantIff`), and elsewhere costs at most
half a unit (`Market.RoundedTruthRegret`). The improvement ratio of a search is at least one exactly when the baseline
is zero or at least 1e-12 (`Discovery.SearchImprovesIff`). An unsaturated allocation is optimal exactly when its
target is above the norm floor or pulled to zero (`Allocation.AllocationOptimalIff`). The amounts of a transfer stay
non-negative exactly when every step meets its guard, which a negative rate can break (`Cisnet.AmountsNonNegativeIff`,
`Cisnet.NegativeRateTakesBack`). The log of a run is ingested without a conflict exactly when no identifier was logged with two contents that both fit the store (`OutboxEcho.LogConflictFreeIff`), and completely exactly when in addition every record fits the store's format and the identifiers fit its capacity (`OutboxEcho.LogIngestsCompletelyIff`); an identifier that is evicted and queued again with other content reaches the conflict (`OutboxReuse.ReusedIdentifierConflicts`).

Verify the whole project with `dafny verify dfyconfig.toml`.

## Model

| member | source | states |
|---|---|---|
| Bits.AndPredecessorIsPowerOfTwoTest | deployments/sara_verified_local_v1/worldshepherd_sara/nsb_g3_solver.py:132-134 | the length guard `n & (n - 1) == 0` holds exactly for the powers of two |
| Bits.RevSuccessor | deployments/sara_verified_local_v1/worldshepherd_sara/nsb_g3_solver.py:141-149 | carrying a bit from the top digit downwards takes the reversal of i to the reversal of i + 1 |
| Bits.RevInvolution | deployments/sara_verified_local_v1/worldshepherd_sara/nsb_g3_solver.py:141-149 | bit reversal is its own inverse, hence a permutation of the indices |
| Fft.NextReversed | deployments/sara_verified_local_v1/worldshepherd_sara/nsb_g3_solver.py:143-147 | the inner mask loop computes the next bit-reversed index for every index and length |
| Fft.BitReverse | deployments/sara_verified_local_v1/worldshepherd_sara/nsb_g3_solver.py:141-149 | the swapping loop leaves every sample at its bit-reversed position |
| Fft.Butterfly | deployments/sara_verified_local_v1/worldshepherd_sara/nsb_g3_solver.py:158-164 | one butterfly turns two half-length transforms into the two matching entries of the full-length one |
| Fft.Stage | deployments/sara_verified_local_v1/worldshepherd_sara/nsb_g3_solver.py:151-165 | one stage with its running weight turns finished blocks of length 2^s into finished blocks of length 2^(s+1) |
| Fft.Fft1d | deployments/sara_verified_local_v1/worldshepherd_sara/nsb_g3_solver.py:137-168 | the in-place algorithm returns exactly the defining Fourier sums, divided by the length in inverse mode, and reports every length that is not an accepted power of two |
| Dft.EvalSplit | deployments/sara_verified_local_v1/worldshepherd_sara/nsb_g3_solver.py:151-165 | a transform of even length from the transforms of the even and odd samples |
| Dft.EvalIsDftSum | deployments/sara_verified_local_v1/worldshepherd_sara/nsb_g3_solver.py:137-168 | the polynomial form used in the proofs is the textbook double-indexed Fourier sum |
| Dft.GeometricSumVanishes | deployments/sara_verified_local_v1/worldshepherd_sara/nsb_g3_solver.py:137-168 | the powers of a nontrivial root of unity sum to zero |
| Dft.TransformRoundTrip | deployments/sara_verified_local_v1/worldshepherd_sara/nsb_g3_solver.py:137-168 | inverse after forward, and forward after inverse, give back the data for every power-of-two length |
| Dft.PureWave | deployments/sara_verified_local_v1/worldshepherd_sara/nsb_g3_solver.py:152-155 | the forward transform of the powers of z^k0, with z the root of cosine and plus sine, is the length at index k0 and zero elsewhere; the inverse does the same for minus sine, so each mode has its own kernel |
| Fft2.Fft2d | deployments/sara_verified_local_v1/worldshepherd_sara/nsb_g3_solver.py:171-182 | the row pass followed by overwriting each column is the two-dimensional transform |
| Fft2.Transform2IsDoubleSum | deployments/sara_verified_local_v1/worldshepherd_sara/nsb_g3_solver.py:171-182 | the two passes compute the double Fourier sum, scaled by the number of samples in inverse mode |
| Fft2.Transform2RoundTrip | deployments/sara_verified_local_v1/worldshepherd_sara/nsb_g3_solver.py:171-187 | the two-dimensional inverse undoes the forward transform and conversely |
| Fft2.PurePlaneWave | deployments/sara_verified_local_v1/worldshepherd_sara/nsb_g3_solver.py:171-182 | the same for a plane wave and the two-dimensional transform in both modes |
| Grid.LaplacianIsSymmetric | deployments/sara_verified_local_v1/worldshepherd_sara/nsb_g11_independent_nonlinear_mhd.py:132-138 | summation by parts twice: the periodic five-point operator is symmetric under the grid inner product |
| Grid.WrapIsModulo | deployments/sara_verified_local_v1/worldshepherd_sara/nsb_g11_independent_nonlinear_mhd.py:132-138 | the neighbour indices are the source's (i + 1) % n and (i - 1) % n, whose modulus is never negative |
| Grid.HarmonicIsConstant | deployments/sara_verified_local_v1/worldshepherd_sara/nsb_g11_independent_nonlinear_mhd.py:132-138 | a periodic field with vanishing five-point sum everywhere is constant |
| Arakawa.ArakawaJacobian | deployments/sara_verified_local_v1/worldshepherd_sara/nsb_g11_independent_nonlinear_mhd.py:157-183 | the double loop fills in exactly the nine-point stencil field |
| Arakawa.StencilIsConsistent | deployments/sara_verified_local_v1/worldshepherd_sara/nsb_g11_independent_nonlinear_mhd.py:157-183 | where both fields are linear the stencil is twelve times the determinant of their slopes, so with its scale 1/(12 h^2) it is exactly the Jacobian |
| Arakawa.BracketIsCells | deployments/sara_verified_local_v1/worldshepherd_sara/nsb_g11_independent_nonlinear_mhd.py:157-183 | the sum of h times the stencil over points is a sum of corner determinants over grid cells |
| Arakawa.BracketSymmetries | deployments/sara_verified_local_v1/worldshepherd_sara/nsb_g11_independent_nonlinear_mhd.py:157-183 | that sum is cyclic and antisymmetric in its three fields, for every grid size and all fields |
| Arakawa.BracketVanishes | deployments/sara_verified_local_v1/worldshepherd_sara/nsb_g11_independent_nonlinear_mhd.py:157-183 | a repeated field makes it vanish, which is what conserves energy, variance and cross-helicity |
| Poisson.SymbolFloorHitsMeanOnly | deployments/sara_verified_local_v1/worldshepherd_sara/nsb_g11_independent_nonlinear_mhd.py:145-153 | the 1e-15 cut-off on the operator symbol fires at the mean mode and at no other, for every power-of-two grid size |
| Poisson.PoissonSolutionSolves | deployments/sara_verified_local_v1/worldshepherd_sara/nsb_g11_independent_nonlinear_mhd.py:141-154 | the Fourier division solves the periodic five-point equation exactly, up to the mean of the right-hand side |
| Poisson.PoissonSolutionHasZeroSum | deployments/sara_verified_local_v1/worldshepherd_sara/nsb_g11_independent_nonlinear_mhd.py:141-154 | the returned solution sums to zero |
| Poisson.SolveMinusLaplacian | deployments/sara_verified_local_v1/worldshepherd_sara/nsb_g11_independent_nonlinear_mhd.py:141-154 | the loops over modes compute that solution, so the result inverts minus the Laplacian |
| Mhd.EnergyBudget | deployments/sara_verified_local_v1/worldshepherd_sara/nsb_g11_independent_nonlinear_mhd.py:216-232 | psi times the vorticity rate plus current times the potential rate, summed, is exactly minus viscosity times enstrophy minus resistivity times squared current |
| Mhd.QuadraticInvariants | deployments/sara_verified_local_v1/worldshepherd_sara/nsb_g11_independent_nonlinear_mhd.py:216-232 | potential variance and cross-helicity change only through the diffusive terms, so they are constant without them |
| Mhd.RatesSumToZero | deployments/sara_verified_local_v1/worldshepherd_sara/nsb_g11_independent_nonlinear_mhd.py:216-232 | both rates sum to zero over the grid whatever stream function is used |
| Mhd.RatesAt | deployments/sara_verified_local_v1/worldshepherd_sara/nsb_g11_independent_nonlinear_mhd.py:216-232 | at every point the rates are the scaled stencils of psi with vorticity less potential with current, and of psi with potential, plus the five-point diffusion |
| MhdRun.RhsFd | deployments/sara_verified_local_v1/worldshepherd_sara/nsb_g11_independent_nonlinear_mhd.py:216-232 | the right-hand side method returns the specified rates from the stream function it solves for |
| MhdRun.MidpointStepFd | deployments/sara_verified_local_v1/worldshepherd_sara/nsb_g11_independent_nonlinear_mhd.py:235-239 | the two evaluations and updates make one explicit midpoint step |
| MhdRun.AddedAt | deployments/sara_verified_local_v1/worldshepherd_sara/nsb_g11_independent_nonlinear_mhd.py:208-213 | the scaled pair of rates is added to vorticity and potential point by point |
| MhdRun.StepKeepsSums | deployments/sara_verified_local_v1/worldshepherd_sara/nsb_g11_independent_nonlinear_mhd.py:235-239 | a midpoint step leaves total vorticity and total potential unchanged |
| MhdRun.IntegrateFdMhd | deployments/sara_verified_local_v1/worldshepherd_sara/nsb_g11_independent_nonlinear_mhd.py:242-259 | the integrator rejects what the source rejects and otherwise returns the end of a run of midpoint steps whose number is the nearest count to final time over step |
| Rounding.RoundIff | deployments/sara_verified_local_v1/worldshepherd_sara/nsb_g11_independent_nonlinear_mhd.py:251 | rounding gives the nearest whole number and of two equally near ones the even one, and nothing else does |
| Rounding.StepCountIsNearest | deployments/sara_verified_local_v1/worldshepherd_sara/nsb_g11_independent_nonlinear_mhd.py:251 | the step count is positive, within half a step of the final time, one for a time below half a step, and exactly k for a time of k steps |
| MhdRun.RunKeepsSums | deployments/sara_verified_local_v1/worldshepherd_sara/nsb_g11_independent_nonlinear_mhd.py:242-259 | total vorticity and total potential are the same at every state of every run |
| MhdEnergy.EnergyAlongRate | deployments/sara_verified_local_v1/worldshepherd_sara/nsb_g11_independent_nonlinear_mhd.py:216-232 | along the right-hand side the energy is exactly quadratic in the step: its derivative is the budget expression and its second-order term is the energy of the rate |
| MhdEnergy.EnergyNeverGrows | deployments/sara_verified_local_v1/worldshepherd_sara/nsb_g11_independent_nonlinear_mhd.py:216-232 | that derivative is minus the dissipation: never positive with non-negative coefficients, and zero without diffusion |
| MhdEnergy.MidpointEnergyBalance | deployments/sara_verified_local_v1/worldshepherd_sara/nsb_g11_independent_nonlinear_mhd.py:235-239 | over a midpoint step the energy loses exactly what the midpoint dissipates plus the power against a defect that is half a step times the change of the rate |
| MhdEnergy.EnergyIsNonNegative | deployments/sara_verified_local_v1/worldshepherd_sara/nsb_g11_independent_nonlinear_mhd.py:216-232 | the energy is never negative |
| MhdStates.PotentialFieldsAreSolenoidal | deployments/sara_verified_local_v1/worldshepherd_sara/nsb_g11_independent_nonlinear_mhd.py:186-205 | fields built from a potential by the centred differences have exactly zero discrete divergence |
| MhdStates.StreamIsUniqueUpToConstant | deployments/sara_verified_local_v1/worldshepherd_sara/nsb_g11_independent_nonlinear_mhd.py:141-154 | two stream functions of one vorticity differ by a constant |
| MhdStates.AlignedRateIsZero | deployments/sara_verified_local_v1/worldshepherd_sara/nsb_g11_independent_nonlinear_mhd.py:216-232 | a state with potential equal to a stream function of its vorticity has an exactly zero ideal rate |
| MhdStates.AlignedRunIsSteady | deployments/sara_verified_local_v1/worldshepherd_sara/nsb_g11_independent_nonlinear_mhd.py:294-311 | every ideal run from such an aligned state stays there forever, which the aligned case samples |
| Sor.PointUpdateDescent | deployments/sara_verified_local_v1/worldshepherd_sara/nsb_g4_solver.py:190-197 | one relaxation of one point lowers the quadratic functional by exactly 2 w (2 - w) (target - psi)^2 |
| Sor.Sweep | deployments/sara_verified_local_v1/worldshepherd_sara/nsb_g4_solver.py:184-197 | the in-place row-order sweep equals the sequence of point relaxations that each see their relaxed predecessors |
| Sor.SweepDescends | deployments/sara_verified_local_v1/worldshepherd_sara/nsb_g4_solver.py:184-197 | a sweep never raises the functional; if it does not lower it, psi already solves the equation and is not moved |
| Sor.GaugeKeepsFunctional | deployments/sara_verified_local_v1/worldshepherd_sara/nsb_g4_solver.py:199-202 | for zero-sum vorticity subtracting a constant leaves the functional unchanged |
| Sor.SubtractMean | deployments/sara_verified_local_v1/worldshepherd_sara/nsb_g4_solver.py:199-202 | the gauge loop subtracts the grid mean at every point |
| Sor.FunctionalMeasuresError | deployments/sara_verified_local_v1/worldshepherd_sara/nsb_g4_solver.py:160-210 | the functional exceeds its value at a solution by half the squared steps of the error |
| Sor.IterationDescends | deployments/sara_verified_local_v1/worldshepherd_sara/nsb_g4_solver.py:183-202 | sweep and gauge together never raise the functional, and keep it only at a solution |
| Sor.IteratesStayBelowStart | deployments/sara_verified_local_v1/worldshepherd_sara/nsb_g4_solver.py:183-202 | no iterate ever rises above the zero start |
| Sor.PoissonResidualRms | deployments/sara_verified_local_v1/worldshepherd_sara/nsb_g4_solver.py:137-157 | the residual loop returns the root mean square of the five-point residual |
| SorSolver.MeanErrorIsPaidFor | deployments/sara_verified_local_v1/worldshepherd_sara/nsb_g4_solver.py:183-206 | each sweep lowers the functional by at least a fixed share of the mean squared residual it starts from |
| SorSolver.FunctionalBoundedBelow | deployments/sara_verified_local_v1/worldshepherd_sara/nsb_g4_solver.py:160-210 | for zero-sum vorticity the functional has a lower bound fixed by the vorticity alone |
| SorSolver.SweepMeanIsPaidFor | deployments/sara_verified_local_v1/worldshepherd_sara/nsb_g4_solver.py:183-202 | the mean that a sweep of a zero-sum field leaves, and the gauge removes, is bounded by what the sweep takes off the functional |
| SorSolver.SolverConverges | deployments/sara_verified_local_v1/worldshepherd_sara/nsb_g4_solver.py:183-206 | whenever 80 times the sum of the vorticity is below 2 w (2 - w) times the tolerance, some checked iterate within an explicit iteration bound is within tolerance |
| SorSolver.ZeroMeanAllows | deployments/sara_verified_local_v1/worldshepherd_sara/nsb_g4_solver.py:171-172 | for zero-sum vorticity that covers every positive tolerance |
| SorSolver.ResidualCarriesMean | deployments/sara_verified_local_v1/worldshepherd_sara/nsb_g4_solver.py:171-172 | no residual is smaller than the mean of the vorticity |
| SorSolver.SolvePeriodicPoissonFd | deployments/sara_verified_local_v1/worldshepherd_sara/nsb_g4_solver.py:160-210 | the solver returns the first checked iterate within tolerance with its residual, and fails exactly when the input is rejected or there is none; it succeeds whenever the mean is small as above and the limit reaches the bound, and never when the mean exceeds the tolerance |
| Tridiagonal.SolveTridiagonal | deployments/sara_verified_local_v1/worldshepherd_sara/nsb_g6_transient_hartmann.py:135-161 | the Thomas loops return a solution of every equation, or report a pivot within the floor |
| Tridiagonal.System.EliminatedSolves | deployments/sara_verified_local_v1/worldshepherd_sara/nsb_g6_transient_hartmann.py:135-161 | back substitution on the eliminated equations solves the original system |
| Tridiagonal.System.SolutionUnique | deployments/sara_verified_local_v1/worldshepherd_sara/nsb_g6_transient_hartmann.py:135-161 | with nonzero pivots the system has at most one solution |
| Hartmann.StepPivots | deployments/sara_verified_local_v1/worldshepherd_sara/nsb_g6_transient_hartmann.py:135-161 | in every Crank-Nicolson system all pivots are at least one, so the degeneracy error never fires |
| Hartmann.CrankNicolsonStep | deployments/sara_verified_local_v1/worldshepherd_sara/nsb_g6_transient_hartmann.py:211-236 | the step method always succeeds and returns a profile that obeys the scheme with zero walls |
| Hartmann.StepIsUnique | deployments/sara_verified_local_v1/worldshepherd_sara/nsb_g6_transient_hartmann.py:211-236 | the scheme determines the next profile |
| Hartmann.StepEnergyBudget | deployments/sara_verified_local_v1/worldshepherd_sara/nsb_g6_transient_hartmann.py:280-315 | energy change of a step is exactly dt times forcing power minus viscous minus electromagnetic power |
| Hartmann.RunEnergyBudget | deployments/sara_verified_local_v1/worldshepherd_sara/nsb_g6_transient_hartmann.py:280-315 | over any run, energy change is work minus both dissipations, and the dissipations never decrease |
| Hartmann.IntegrateTransientHartmann | deployments/sara_verified_local_v1/worldshepherd_sara/nsb_g6_transient_hartmann.py:258-323 | the run rejects what the source rejects and otherwise makes the nearest number of steps and reports per-step and cumulative budget residuals that are exactly zero |
| Hartmann.MeasuredStep | deployments/sara_verified_local_v1/worldshepherd_sara/nsb_g6_transient_hartmann.py:280-315 | one loop iteration: the new profile, its three powers and a zero residual |
| Hartmann.SteadyIffFixedPoint | deployments/sara_verified_local_v1/worldshepherd_sara/nsb_g6_transient_hartmann.py:211-236 | a profile solves the steady equation exactly when the step leaves it in place, for any time step |
| Hartmann.StepApproachesSteady | deployments/sara_verified_local_v1/worldshepherd_sara/nsb_g6_transient_hartmann.py:211-236 | a step never increases the squared distance to the steady profile, and keeps it only at the steady profile |
| Hartmann.RunApproachesSteady | deployments/sara_verified_local_v1/worldshepherd_sara/nsb_g6_transient_hartmann.py:258-323 | along every run that distance never increases |
| HartmannDecay.SquaresBelowEdges | deployments/sara_verified_local_v1/worldshepherd_sara/nsb_g6_transient_hartmann.py:211-236 | discrete Poincare inequality: for a profile with a zero wall the squares are at most k^2 times the squared steps over k intervals |
| HartmannDecay.StartBelowMidpoint | deployments/sara_verified_local_v1/worldshepherd_sara/nsb_g6_transient_hartmann.py:211-236 | the squared error at the start of a step is at most (1 + 4 r + d)^2 times the squared error at its midpoint |
| HartmannDecay.LossIsShare | deployments/sara_verified_local_v1/worldshepherd_sara/nsb_g6_transient_hartmann.py:211-236 | the loss 4 (r / n^2 + d) / (1 + 4 r + d)^2 lies above zero and at most at one |
| HartmannDecay.StepContracts | deployments/sara_verified_local_v1/worldshepherd_sara/nsb_g6_transient_hartmann.py:211-236 | every step shrinks the squared distance to the steady profile by the factor one minus that loss |
| HartmannDecay.RunContracts | deployments/sara_verified_local_v1/worldshepherd_sara/nsb_g6_transient_hartmann.py:258-323 | along every run the squared distance falls geometrically |
| HartmannDecay.RunConverges | deployments/sara_verified_local_v1/worldshepherd_sara/nsb_g6_transient_hartmann.py:258-323 | every run comes within any tolerance of the steady profile after an explicit number of steps |
| HartmannSteady.SteadyPivots | deployments/sara_verified_local_v1/worldshepherd_sara/nsb_g5_hartmann.py:121-159 | every pivot of the steady solve is at most -1/dy^2, so its degeneracy error never fires |
| HartmannSteady.SolveHartmannFd | deployments/sara_verified_local_v1/worldshepherd_sara/nsb_g5_hartmann.py:121-159 | for every accepted odd grid the solver returns a profile of the steady equation with zero walls |
| HartmannSteady.SteadyBounds | deployments/sara_verified_local_v1/worldshepherd_sara/nsb_g5_hartmann.py:121-159 | the profile lies between zero and (1 - y^2)/2 at every node |
| HartmannSteady.SteadyMonotone | deployments/sara_verified_local_v1/worldshepherd_sara/nsb_g5_hartmann.py:121-159 | a larger Hartmann number gives a pointwise smaller or equal profile |
| HartmannSteady.ZeroFieldIsParabola | deployments/sara_verified_local_v1/worldshepherd_sara/nsb_g5_hartmann.py:107-111 | at Hartmann number zero the discrete profile is exactly the parabola |
| HartmannSteady.SteadySymmetric | deployments/sara_verified_local_v1/worldshepherd_sara/nsb_g5_hartmann.py:121-159 | the profile is symmetric about the centre |
| HartmannSteady.SteadyUnique | deployments/sara_verified_local_v1/worldshepherd_sara/nsb_g5_hartmann.py:121-159 | the steady equation has one zero-wall solution |
| Allocation.Inverse3Solves | deployments/sara_verified_local_v1/worldshepherd_sara/nsb_g13_actuator_forward_map.py:202-213 | when the cofactor inverse is returned it really inverts: applied to t it solves m y = t |
| Allocation.SingularIff | deployments/sara_verified_local_v1/worldshepherd_sara/nsb_g13_actuator_forward_map.py:202-213 | the inverse is refused exactly when the determinant is within 1e-15 of zero |
| Allocation.UnconstrainedIsNormal | deployments/sara_verified_local_v1/worldshepherd_sara/nsb_g13_actuator_forward_map.py:268-276 | the unclipped currents are the transposed matrix applied to a solution of the regularised normal equations |
| Allocation.DeviationCost | deployments/sara_verified_local_v1/worldshepherd_sara/nsb_g13_actuator_forward_map.py:268-276 | changing those currents by d raises the objective by exactly the squared size of A d plus eps times the squared size of d |
| Allocation.PulledIsOptimal | deployments/sara_verified_local_v1/worldshepherd_sara/nsb_g13_actuator_forward_map.py:268-276 | they minimise the squared misfit of A x to the target plus eps times the squared size of x, over all current vectors, uniquely for eps > 0 |
| Allocation.PulledIsLeastNorm | deployments/sara_verified_local_v1/worldshepherd_sara/nsb_g13_actuator_forward_map.py:268-276 | at eps = 0 they hit the target exactly with the least norm, uniquely |
| Allocation.CurrentsWithinLimit | deployments/sara_verified_local_v1/worldshepherd_sara/nsb_g13_actuator_forward_map.py:277 | no commanded current exceeds the actuator limit |
| Allocation.CommandsAreNearest | deployments/sara_verified_local_v1/worldshepherd_sara/nsb_g13_actuator_forward_map.py:277-278 | each returned current is the point of the actuator range nearest to its unconstrained value, with its sign, and the saturated ones are those whose value reaches the limit less 1e-12 |
| Allocation.AllocationAcceptsIff | deployments/sara_verified_local_v1/worldshepherd_sara/nsb_g13_actuator_forward_map.py:258-272 | an allocation is returned exactly for a positive limit, no negative regularisation, three rows of at least four columns and, beyond the norm floor of 1e-15, covered columns and an invertible Gram matrix; up to the floor it is all zeros |
| Allocation.AllocationOptimalIff | deployments/sara_verified_local_v1/worldshepherd_sara/nsb_g13_actuator_forward_map.py:258-283 | an allocation without saturated actuators minimises misfit plus weighted size over all currents if and only if the target norm is above 1e-15 or the transposed matrix sends the target to zero |
| Allocation.AllocationHitsTargetIff | deployments/sara_verified_local_v1/worldshepherd_sara/nsb_g13_actuator_forward_map.py:258-283 | without regularisation it realises the target if and only if the target norm is above 1e-15 or the target is zero |
| Allocation.TinyTargetIsMissed | deployments/sara_verified_local_v1/worldshepherd_sara/nsb_g13_actuator_forward_map.py:264-267 | for a reachable target of norm 1e-16 the answer is reported unsaturated, misses the target and is not optimal |
| Allocation.ResidualIsRelativeMisfit | deployments/sara_verified_local_v1/worldshepherd_sara/nsb_g13_actuator_forward_map.py:279-283 | the residual times the target norm is the distance of the realised command from the target; it is zero exactly when the target is hit |
| Jacobi.AngleAnnihilates | deployments/sara_verified_local_v1/worldshepherd_sara/nsb_g13_actuator_forward_map.py:224-228 | the tangent, cosine and sine computed from tau form a rotation that annihilates the pivot |
| Jacobi.RotationShrinksOff | deployments/sara_verified_local_v1/worldshepherd_sara/nsb_g13_actuator_forward_map.py:231-239 | a rotation lowers the squared off-diagonal sum by exactly the squared pivot |
| Jacobi.RotationKeepsSums | deployments/sara_verified_local_v1/worldshepherd_sara/nsb_g13_actuator_forward_map.py:231-239 | it keeps the trace, the sum of all squared entries and the pivot minor |
| Jacobi.RotationKeepsSpectrum | deployments/sara_verified_local_v1/worldshepherd_sara/nsb_g13_actuator_forward_map.py:231-239 | it keeps the characteristic polynomial at every point, hence the eigenvalues |
| Jacobi.PickPivot | deployments/sara_verified_local_v1/worldshepherd_sara/nsb_g13_actuator_forward_map.py:219-220 | the first largest entry above the diagonal is picked, carrying at least a third of the off-diagonal sum |
| Jacobi.Rotate | deployments/sara_verified_local_v1/worldshepherd_sara/nsb_g13_actuator_forward_map.py:224-239 | the in-place writes perform the specified rotation and keep the matrix symmetric |
| Jacobi.SpectrumApproximated | deployments/sara_verified_local_v1/worldshepherd_sara/nsb_g13_actuator_forward_map.py:216-240 | at every point the characteristic polynomial differs from the cubic with the diagonal as roots by at most the off-diagonal sum times the distances to these roots and its own root |
| Jacobi.JacobiEigenvalues | deployments/sara_verified_local_v1/worldshepherd_sara/nsb_g13_actuator_forward_map.py:216-240 | a run rotates the first largest entry away while it is above 1e-14, forty times at most; the returned triple is sorted, sums to the trace, accounts for all squared entries but a remainder that is negligible or has shrunk by (2/3)^40, and gives the characteristic polynomial of the start up to a bound in that remainder |
| Merkle.MerkleRoot | deployments/sara_verified_local_v1/worldshepherd_sara/echo_checkpoint.py:148-162 | the layer loop computes the hash of the tree whose odd layers repeat their last node, and rejects an empty list or an invalid leaf |
| Merkle.HashInjective | deployments/sara_verified_local_v1/worldshepherd_sara/echo_checkpoint.py:137-162 | equal hashes mean equal trees unless the computation itself contains a collision; leaf and node texts cannot be confused |
| Merkle.RootBindsEvents | deployments/sara_verified_local_v1/worldshepherd_sara/echo_checkpoint.py:137-162 | two ordinal, duplicate-free event lists with equal roots are the same list, whatever their lengths |
| Merkle.RepeatedLastEventKeepsRoot | deployments/sara_verified_local_v1/worldshepherd_sara/echo_checkpoint.py:156-157 | without distinct identifiers the root is ambiguous: repeating the last of three events keeps it |
| EchoStore.DigestIgnoresTimestampOnly | deployments/sara_verified_local_v1/worldshepherd_sara/echo_event_store.py:85-105 | two valid records have the same semantic digest exactly when they differ at most in their timestamps |
| EchoStore.EchoEventStore.Ingest | deployments/sara_verified_local_v1/worldshepherd_sara/echo_event_store.py:227-309 | store, count a duplicate, record a conflict, or fail, with the whole new state of both tables |
| EchoStore.StoredRowHealthy | deployments/sara_verified_local_v1/worldshepherd_sara/echo_event_store.py:227-309 | an accepted record leaves a row that reloads to a valid record with the row's own identifier and digest |
| EchoStore.IngestKeepsHealthy | deployments/sara_verified_local_v1/worldshepherd_sara/echo_event_store.py:227-309 | every ingest keeps the store within capacity and all rows healthy, and never alters what was first stored |
| EchoStore.RunAccounting | deployments/sara_verified_local_v1/worldshepherd_sara/echo_event_store.py:227-309 | after any run of ingests each delivery count is the number of accepted deliveries and the conflict table has one row per conflict |
| EchoStore.AgreeingNeverConflict | deployments/sara_verified_local_v1/worldshepherd_sara/echo_event_store.py:227-309 | deliveries that agree on the digest of each identifier never raise a conflict, in any order and multiplicity |
| EchoStore.AtLeastOnceIngest | deployments/sara_verified_local_v1/worldshepherd_sara/echo_event_store.py:227-309 | valid agreeing deliveries are all accepted, each identifier is stored once, and its count is its number of deliveries |
| EchoStore.EchoEventStore.Health | deployments/sara_verified_local_v1/worldshepherd_sara/echo_event_store.py:375-413 | the loop counts exactly the rows that do not read back as themselves; healthy means none and within capacity |
| EchoReconcile.Reconcile | deployments/sara_verified_local_v1/worldshepherd_sara/echo_event_store.py:333-373 | the window is read, conflicting windows are refused, both sides are classified in identifier order and the classes are tallied |
| EchoReconcile.WindowIff | deployments/sara_verified_local_v1/worldshepherd_sara/echo_event_store.py:333-343 | a window is read if and only if every record is acceptable and any two of one identifier have one digest; it then holds just those digests |
| EchoReconcile.TallyCounts | deployments/sara_verified_local_v1/worldshepherd_sara/echo_event_store.py:360-363 | the tally holds exactly the classes that occur, each with the number of its entries |
| EchoReconcile.TallyAddsUp | deployments/sara_verified_local_v1/worldshepherd_sara/echo_event_store.py:360-363 | the four counts add up to the number of entries |
| EchoReconcile.ReportCovers | deployments/sara_verified_local_v1/worldshepherd_sara/echo_event_store.py:345-357 | the report names every identifier of either side exactly once with its classification |
| EchoReconcile.IngestedWindowMatches | deployments/sara_verified_local_v1/worldshepherd_sara/echo_event_store.py:333-373 | after ingesting a consistent history, any window over it reconciles with no missing and no mismatching event |
| EchoVerify.VerifyBundle | deployments/sara_verified_local_v1/worldshepherd_sara/echo_checkpoint_verify.py:48-164 | all checks in order, with the error of the first one that fails, for any document |
| EchoAcceptance.AcceptedIff | deployments/sara_verified_local_v1/worldshepherd_sara/echo_checkpoint_verify.py:48-164 | a bundle is accepted if and only if its key hashes to the trusted fingerprint, its fields have their fixed values, its events are numbered and sorted, its root and digest are recomputed, and its signature checks against that key and the tagged digest, or the manifest text in the legacy form |
| EchoVerify.ReadItemsSound | deployments/sara_verified_local_v1/worldshepherd_sara/echo_checkpoint_verify.py:104-122 | the one-pass comparison with the previous event yields contiguous ordinals and a strictly sorted, valid list |
| EchoAcceptance.ReadItemsIff | deployments/sara_verified_local_v1/worldshepherd_sara/echo_checkpoint_verify.py:104-122 | the event list is read if and only if every record has the three fields, its position, a fresh larger identifier and a digest |
| EchoVerify.SameRootSameEvents | deployments/sara_verified_local_v1/worldshepherd_sara/echo_checkpoint_verify.py:104-128 | two accepted bundles with one Merkle root certify the same events |
| EchoVerify.VerifyChain | deployments/sara_verified_local_v1/worldshepherd_sara/echo_checkpoint_verify.py:167-205 | the chain loop returns the verified summaries or the first failing check |
| EchoAcceptance.ChainAcceptedIff | deployments/sara_verified_local_v1/worldshepherd_sara/echo_checkpoint_verify.py:167-206 | a chain is accepted if and only if every bundle is, the first opens the chain, and each later one follows in sequence, names the digest before it and keeps its events |
| EchoVerify.LinkAt | deployments/sara_verified_local_v1/worldshepherd_sara/echo_checkpoint_verify.py:172-190 | position k of an accepted chain has sequence k + 1, names the digest of position k - 1 and keeps its events |
| EchoVerify.EventsPersist | deployments/sara_verified_local_v1/worldshepherd_sara/echo_checkpoint_verify.py:182-188 | the event dictionary of a checkpoint is contained in that of every later one |
| EchoVerify.CertifiedForever | deployments/sara_verified_local_v1/worldshepherd_sara/echo_checkpoint_verify.py:182-188 | an event certified once is certified with the same digest by all later checkpoints |
| EchoVerify.LastDigestDeterminesChain | deployments/sara_verified_local_v1/worldshepherd_sara/echo_checkpoint_verify.py:167-190 | two accepted chains with the same last digest have the same length and identical manifests at every position |
| EchoLedger.EchoCheckpointManager.Bind | deployments/sara_verified_local_v1/worldshepherd_sara/echo_checkpoint.py:285-297 | a key identifier is bound on first use and afterwards accepted only for the same key |
| EchoLedger.NewManager | deployments/sara_verified_local_v1/worldshepherd_sara/echo_checkpoint.py:188-212 | a manager is created exactly for a key identifier of 1 to 128 safe characters and a key of 32 bytes, and binds that key |
| EchoLedger.EchoCheckpointManager.CreateCheckpoint | deployments/sara_verified_local_v1/worldshepherd_sara/echo_checkpoint.py:348-469 | revalidation, the provenance check against the last checkpoint, signing, signature check and insertion, with the whole new state and every error |
| EchoIntegrity.NewBundleAccepted | deployments/sara_verified_local_v1/worldshepherd_sara/echo_checkpoint.py:377-425 | whatever checkpoint creation writes, the separately written verifier accepts and reads back |
| JsonDocuments.WholeFloats | deployments/sara_verified_local_v1/worldshepherd_sara/echo_checkpoint_integrity.py:59-60 | a whole float equals the number it prints, of either sign |
| JsonDocuments.SameValueSymmetric | deployments/sara_verified_local_v1/worldshepherd_sara/echo_checkpoint_integrity.py:59-60 | document comparison does not depend on the order of its sides |
| JsonDocuments.PlainSameValue | deployments/sara_verified_local_v1/worldshepherd_sara/echo_checkpoint_integrity.py:59-60 | documents of texts, whole numbers, arrays and objects compare equal only if they are |
| JsonDocuments.CountIsSameValue | deployments/sara_verified_local_v1/worldshepherd_sara/echo_checkpoint_integrity.py:58-60 | comparing a field with a count is comparing documents as the source does, where true and 1.0 equal 1 |
| EchoIntegrity.CheckIntegrity | deployments/sara_verified_local_v1/worldshepherd_sara/echo_checkpoint_integrity.py:11-107 | the stored rows, manifest copies, membership rows and chain are compared, with the first discrepancy reported |
| EchoSoundness.IntegrityIff | deployments/sara_verified_local_v1/worldshepherd_sara/echo_checkpoint_integrity.py:11-107 | the integrity check succeeds if and only if the key is bound and every row has its sequence, a bundle the verifier accepts, the manifest copy and columns of that bundle, and exactly its events as membership rows, in an accepted chain |
| EchoIntegrity.NothingLost | deployments/sara_verified_local_v1/worldshepherd_sara/echo_checkpoint.py:355-375 | in every reachable state revalidation succeeds and the deletion or substitution error is not raised |
| EchoIntegrity.InvariantPassesIntegrity | deployments/sara_verified_local_v1/worldshepherd_sara/echo_checkpoint_integrity.py:43-103 | every state meeting the invariant passes the integrity check and chain verification |
| EchoIntegrity.RunKeepsInvariant | deployments/sara_verified_local_v1/worldshepherd_sara/echo_checkpoint.py:348-463 | every run of ingests and checkpoints under one key keeps the invariant, even with a faulty signer |
| EchoIntegrity.EveryRunVerifies | deployments/sara_verified_local_v1/worldshepherd_sara/echo_checkpoint_integrity.py:11-107 | after every such run integrity succeeds, the verifier accepts all bundles, and a further checkpoint can fail only for an empty store, the signer or a uniqueness violation |
| EchoIntegrity.HonestCheckpointSucceeds | deployments/sara_verified_local_v1/worldshepherd_sara/echo_checkpoint.py:348-463 | with an honest signer and collision-free manifests a checkpoint of a non-empty store always succeeds |
| EchoIntegrity.CheckpointIdsDiffer | deployments/sara_verified_local_v1/worldshepherd_sara/echo_checkpoint.py:379 | the padded number keeps the identifiers of different checkpoints apart |
| Outbox.QueueKeepsLimits | deployments/sara_verified_local_v1/worldshepherd_sara/event_outbox.py:95-138 | queueing keeps all entries valid, at most 32 pending and 47 in all, and appends the new entry to the unchanged pending ones |
| Outbox.EvictKeepsPending | deployments/sara_verified_local_v1/worldshepherd_sara/event_outbox.py:119-126 | eviction leaves the pending entries as they were |
| Outbox.EvictMakesRoom | deployments/sara_verified_local_v1/worldshepherd_sara/event_outbox.py:119-126 | after eviction at most fifteen delivered entries remain |
| Outbox.EvictsOldestDelivered | deployments/sara_verified_local_v1/worldshepherd_sara/event_outbox.py:119-126 | what is evicted was delivered, and not later than any delivered entry that stays |
| Outbox.PendingOldestFirst | deployments/sara_verified_local_v1/worldshepherd_sara/event_outbox.py:163-170 | pending entries are delivered by creation time, and among equal times by identifier |
| Outbox.EventOutbox.QueueEvents | deployments/sara_verified_local_v1/worldshepherd_sara/event_outbox.py:141-160 | several events are queued against one evolving snapshot, all or none |
| Outbox.DeliverAdvancesOrder | deployments/sara_verified_local_v1/worldshepherd_sara/event_outbox.py:163-170 | delivering the first pending event leaves the others pending in the same order |
| Outbox.DeliverKeepsLimits | deployments/sara_verified_local_v1/worldshepherd_sara/event_outbox.py:188-213 | a delivery keeps the outbox valid and within its limits |
| Outbox.DrainedInOrder | deployments/sara_verified_local_v1/worldshepherd_sara/event_outbox.py:216-247 | n deliveries append the first n pending events in order and leave the rest |
| Outbox.EventOutbox.Drain | deployments/sara_verified_local_v1/worldshepherd_sara/event_outbox.py:216-247 | a drain delivers exactly the smaller of the limit and the number pending, in order of creation time and identifier; a limit below one or a malformed entry is refused with nothing changed |
| OutboxEcho.NoEventLost | deployments/sara_verified_local_v1/worldshepherd_sara/event_outbox.py:216-247 | after any calls with valid stamps, under any crashes between append and commit and any reuse of identifiers: no malformed entry, at most 32 pending and 47 in all, and the identifier and content pairs ever queued are exactly the pending and the logged ones, each delivered entry being logged |
| OutboxEcho.QueuedIsKept | deployments/sara_verified_local_v1/worldshepherd_sara/event_outbox.py:141-160 | each queued request is pending or logged at the end of the run with the content it was queued with |
| OutboxEcho.ReplaysAgreeIff | deployments/sara_verified_local_v1/worldshepherd_sara/event_outbox.py:201-208 | records of one identifier differ in nothing but their timestamps if and only if each identifier was logged with one content |
| OutboxEcho.LoggedRecordAcceptedIff | deployments/sara_verified_local_v1/worldshepherd_sara/event_outbox.py:194-213 | an audit record of a run is accepted by the store if and only if the identifier and content it tells of fit the store format and its stamp is valid |
| OutboxEcho.QueuedRequestAcceptedIff | deployments/sara_verified_local_v1/worldshepherd_sara/event_outbox.py:95-138 | the records of a queued request are accepted if and only if its stable identifier, its event and actor names and the stamp fit the store format |
| EchoPool.PoolConflictFreeIff | deployments/sara_verified_local_v1/worldshepherd_sara/echo_event_store.py:227-309 | no sequence of deliveries drawn from a pool of records conflicts if and only if acceptable records of one identifier have one digest |
| EchoPool.PoolIngestsCompletelyIff | deployments/sara_verified_local_v1/worldshepherd_sara/echo_event_store.py:227-309 | every delivery from a pool is accepted if and only if each record is acceptable alone, identifiers have one digest and fit the capacity |
| OutboxEcho.LogIngestsWithoutConflict | deployments/sara_verified_local_v1/worldshepherd_sara/event_outbox.py:219-221 | if identifiers have one storable content, any sequence of audit records ingests without a conflict, with counts equal to accepted deliveries |
| OutboxEcho.LogConflictFreeIff | deployments/sara_verified_local_v1/worldshepherd_sara/event_outbox.py:219-221 | the log of any run ingests without a conflict in every order and multiplicity if and only if no identifier was logged with two contents that fit the store |
| OutboxEcho.DrainedConflictFreeIff | deployments/sara_verified_local_v1/worldshepherd_sara/event_outbox.py:102-126 | once nothing is pending, the same holds if and only if no identifier was queued with two contents that fit the store |
| OutboxEcho.LogIngestsCompletelyIff | deployments/sara_verified_local_v1/worldshepherd_sara/event_outbox.py:219-221 | the log of any run is ingested completely in every order and multiplicity if and only if its identifiers fit the capacity, each record fits the format, and no identifier was logged with two contents |
| OutboxEcho.LogIngestsCompletely | deployments/sara_verified_local_v1/worldshepherd_sara/event_outbox.py:219-221 | such a log is stored once per event, with its number of deliveries |
| OutboxReuse.ReusedIdentifierConflicts | deployments/sara_verified_local_v1/worldshepherd_sara/event_outbox.py:102-126 | a run that evicts a delivered identifier and queues it again with other content logs two acceptable records of different meaning, and the store refuses the second |
| Expressions.KeyReads | deployments/sara_verified_local_v1/worldshepherd_sara/ade.py:58-69 | a key can be parsed back: it determines the top operation and the keys of the operands |
| Expressions.KeySound | deployments/sara_verified_local_v1/worldshepherd_sara/ade.py:58-69 | equal keys imply equal value at every point and equal complexity |
| Expressions.CommutedKeysAgree | deployments/sara_verified_local_v1/worldshepherd_sara/ade.py:66-68 | exchanging the operands of a sum or product does not change the key |
| Expressions.ValueIsPolynomial | deployments/sara_verified_local_v1/worldshepherd_sara/ade.py:15-34 | every expression has at every point the value of a polynomial with whole coefficients, built by adding, subtracting and multiplying coefficient lists |
| Expressions.ComplexityIsTokens | deployments/sara_verified_local_v1/worldshepherd_sara/ade.py:36-43 | the complexity is the number of tokens of the key, one more than its colons |
| Expressions.LeafNotation | deployments/sara_verified_local_v1/worldshepherd_sara/ade.py:44-57 | the key of x is x, and the key of a constant its decimal numeral with a sign if it is negative |
| Expressions.KeyNotation | deployments/sara_verified_local_v1/worldshepherd_sara/ade.py:58-69 | the spelling of the keys of operators, the smaller operand first where they commute |
| Discovery.SameKeySameRank | deployments/sara_verified_local_v1/worldshepherd_sara/ade.py:99-100 | overwriting a candidate by one with the same key never changes its rank |
| Discovery.RankDecides | deployments/sara_verified_local_v1/worldshepherd_sara/ade.py:99-100 | a smaller error ranks first, then a smaller complexity, and different keys are never tied |
| Discovery.BeamIgnoresOrder | deployments/sara_verified_local_v1/worldshepherd_sara/ade.py:140-141 | what a round keeps does not depend on the order in which candidates were entered |
| Discovery.RoundKeepsBest | deployments/sara_verified_local_v1/worldshepherd_sara/ade.py:127-143 | with a beam of at least one, no candidate of a round ranks before the best expression kept |
| Discovery.NextRoundImproves | deployments/sara_verified_local_v1/worldshepherd_sara/ade.py:127-143 | the next round is no worse than any kept expression, its square, and any sum, difference or product of two |
| Discovery.DeeperIsNoWorse | deployments/sara_verified_local_v1/worldshepherd_sara/ade.py:127-146 | a deeper search never has a larger error |
| Discovery.ResultBeatsTerminals | deployments/sara_verified_local_v1/worldshepherd_sara/ade.py:121-146 | the returned error is at most that of x and of every constant |
| Discovery.SearchImprovesIff | deployments/sara_verified_local_v1/worldshepherd_sara/ade.py:121-150 | the ratio the search reports is at least one if and only if the mean squared error of x is zero or at least 1e-12 |
| Discovery.TinyBaselineLosesRatio | deployments/sara_verified_local_v1/worldshepherd_sara/ade.py:147-150 | for one sample that x misses by 1e-7 every search reports a ratio below one |
| Discovery.DiscoverExpression | deployments/sara_verified_local_v1/worldshepherd_sara/ade.py:103-158 | the nested loops return the best of the specified beam search, its errors, and the number of distinct keys tried; its error is at most that of x, and its ratio is at least one exactly as above |
| Market.WinAndPrice | research/ws_market_v0_1/ws_market.py:199-207 | a bidder wins exactly when no other bid ranks before its own and it meets the reserve, and then pays a price set by the others |
| Market.TruthIsDominant | research/ws_market_v0_1/ws_market.py:199-207 | bidding one's value is at least as good as any other bid against every profile, reserve and tie-break, and never loses money |
| Market.TruthIsDominantIff | research/ws_market_v0_1/ws_market.py:36-37 | bidding the rounded value is a best reply to all bids, reserves and alternatives if and only if the value is on the eight-decimal grid, even among grid bids alone |
| Market.OffGridDeviation | research/ws_market_v0_1/ws_market.py:36-37 | for every value off the grid: a reserve at which a lone bidder strictly gains by another grid bid |
| Market.RunTruthIsBest | research/ws_market_v0_1/ws_market.py:152-235 | in a whole run an agent of multiplier one gains by no other multiplier when its value is on the grid, and at most half a unit otherwise |
| Market.RoundedTruthRegret | research/ws_market_v0_1/ws_market.py:36-37 | for a value off the eight-decimal grid the rounded bid is within half a unit of the best |
| Market.RoundedTruthCanLose | research/ws_market_v0_1/ws_market.py:36-37 | that loss is real: a concrete tie is won above the value |
| Market.PriceBounds | research/ws_market_v0_1/ws_market.py:204-207 | the price is at most the winning bid; it is at least the reserve if and only if another bid is, or rounding does not lower the reserve |
| Market.ReserveCanBeUndercut | research/ws_market_v0_1/ws_market.py:207 | a concrete reserve finer than the grid is undercut by its own rounding |
| Market.TruthfulSaleIsEfficient | research/ws_market_v0_1/ws_market.py:209-213 | when all bid their values, a sale goes to a bidder of highest value and reports efficiency one |
| Market.RunSealedBidMarket | research/ws_market_v0_1/ws_market.py:152-235 | the run fails exactly when two ledger identifiers coincide, and otherwise returns the specified bids, sale and efficiency |
| Market.NewsInserted | research/ws_market_v0_1/ws_market.py:32-34 | an item of news anywhere in the list moves the value by its amount if it is about the asset, and not otherwise |
| Sorting.SortStable | research/ws_market_v0_1/ws_market.py:159-160 | sorting keeps the order of elements that the order does not separate |
| Text.LessIff | research/ws_market_v0_1/ws_market.py:199 | strings are compared at their first difference, and a proper prefix comes first |
| Cisnet.NewSimulation | cisnet/simulator.py:53-63 | a simulation is refused for a payload or a time step that is not positive, and otherwise starts with everything at the source |
| Cisnet.SelectIsBest | cisnet/policy.py:35-46 | no route is chosen exactly when none is up, trusted enough and above the survival floor on the leg; otherwise the first of the best scores is |
| Cisnet.OpticalBonus | cisnet/policy.py:40-41 | an optical link scores 1.08 times its rate times its survival probability, any other exactly that product |
| Cisnet.RegisteredIsLast | cisnet/simulator.py:58 | of several links of one name the last is registered, and nothing else is |
| Cisnet.ImpairedMeaning | cisnet/simulator.py:72-91 | a link is up exactly when no fault within its window, start included and end excluded, forces it down; the last such override decides its survival |
| Cisnet.StepsIff | cisnet/simulator.py:130 | step k is made exactly when it starts before the horizon |
| Cisnet.Conservation | cisnet/simulator.py:137-149 | source, relay and destination always add up to the payload, under any fault schedule |
| Cisnet.StepNonNegativeIff | cisnet/simulator.py:137-149 | a step keeps non-negative amounts non-negative if and only if each used leg, capped by what is available, leaves both its ends non-negative |
| Cisnet.AmountsNonNegativeIff | cisnet/simulator.py:127-149 | no amount of a run is ever negative if and only if every step meets that guard |
| Cisnet.FailoversAreChanges | cisnet/simulator.py:109-125 | failovers never outnumber route changes, and these are at most two per step |
| Cisnet.NegativeRateTakesBack | cisnet/simulator.py:137-142 | a run of two steps, from the start, in which a negative rate leaves the destination with minus one byte |
| Cisnet.SnapCreditsAtMostHalf | cisnet/simulator.py:150-151 | the completion snap credits at most half a byte |
| Cisnet.SteadyProgress | cisnet/simulator.py:137-149 | while both legs offer b bytes per step, uploads after k steps reach k b and arrivals (k - 1) b, up to the payload |
| Cisnet.CompletesInTime | cisnet/simulator.py:127-154 | if n steps at the guaranteed rate cover the payload, step n + 1 completes it |
| Cisnet.CisnetSimulation.ApplyFaults | cisnet/simulator.py:68-91 | links are restored and every active fault applied in place, in schedule order; the down nodes are reported |
| Cisnet.CisnetSimulation.SelectLeg | cisnet/simulator.py:109-125 | the chosen route, and the change and failover counts |
| Cisnet.CisnetSimulation.Slice | cisnet/simulator.py:130-149 | one time slice updates amounts, last routes and both counters as the specified step does |
| Cisnet.CisnetSimulation.Run | cisnet/simulator.py:127-158 | from any state of the object, the run reports the first step by which the payload arrived or a timeout, with the counters, the bytes per link and the final state |
| Cisnet.RunCompletes | cisnet/simulator.py:127-158 | a run whose legs always offer b bytes per step, with a long enough horizon, completes by step n + 1 |

## Left out

- Floating point: rounding, tolerances of report gates and non-finite checks; all arithmetic is over exact reals.
- Concrete values of sine, cosine, hyperbolic functions and square roots; closed-form series and exact transient profiles.
- Benchmark reports, convergence-order estimates and their fixed finite runs.
- SHA-256, Ed25519, base64url and JSON text formats themselves; malformed base64 text is not told apart from valid text.
- SQLite, file permissions, transactions' isolation, `fsync` and the registry store: a transaction is atomic, and a crash can fall between audit append and commit.
- Registry size limits outside the outbox module; `DurableStore` is not part of this model.
- Schema-version metadata rows of the databases; only key bindings are modelled.
- The fixed texts of reports.
- Ledgers and hash chains of the market and the relay simulator, and node-restart events: they repeat the checkpoint-chain argument.
- Bid-shading classification, and the closed-loop feedback integration on top of the allocator.
- Condition number and rank estimation on top of the Jacobi eigenvalues.
- Web, messaging, cloud-key and command-line code.
- Fft.Fft1d: the stage roots come from the tower parameter rather than from cosine and sine calls.
- Poisson.SolveMinusLaplacian: the symbol takes its squared half-angle sines from a parameter obeying the half-angle law.
- SorSolver.SolverConverges: for a mean between the tolerance times 2 w (2 - w) / (80 n^2) and the tolerance, whether the iteration reaches the tolerance is not stated.
- MhdEnergy.EnergyAlongRate: the energy pairs the stream function with the vorticity and the potential with its current; the energy report of the source squares centred differences instead, a different functional, for which no budget is stated.
- HartmannSteady.SolveHartmannFd: the Thomas loops written inline in the steady solver are modelled by the one shared `Tridiagonal.SolveTridiagonal`, whose operations are the same.
- MhdRun.IntegrateFdMhd: the source's check that all intermediate values are finite has no counterpart over the reals.
- Allocation.AllocationOptimalIff: rows longer than the first are read only as far as the first, as the source indexes them.
- EchoIntegrity.CheckIntegrity: two floats of a stored manifest copy are compared by their printed text, and a float with a whole number by the text of that number followed by .0.
- The wording of the fixed disclaimer in a manifest.
- EchoLedger.EchoCheckpointManager.CreateCheckpoint: membership rows are grouped by checkpoint in ordinal order rather than kept as one table.
- Expressions.KeySound: constants are whole numbers, as the search creates them; their conversion to floating point is not modelled.
