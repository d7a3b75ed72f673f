# 1D_LAG core in Dafny

This project models the core of a finite-volume solver for the compressible Euler equations (the 1D_LAG hydrocode) and proves properties of that model:

- **One time-marching engine.** `GRP_solver_ALE_source_Undone` is the 1-D GRP scheme on a fixed grid. Each step does the following, in order:
  - fills the boundary ghosts from the boundary code;
  - reconstructs the limited slopes;
  - builds both states of every face and checks them against eps;
  - takes h_S_max, the least signal-crossing time;
  - calls the GRP solver per face;
  - advances by a half-step predictor and evaluates the Euler fluxes;
  - does the forward-Euler conservative update;
  - advances time, tests for termination and copies level nt back into level nt-1.

  It is modelled twice:
  - `AleModel` is a functional reference, with one function per phase and `StepModel`/`RunModel` for a pass and for the main loop;
  - `AleSolver.Solver` is a class holding the caller's arrays and the work buffers, whose methods run the same loops in place and are proved equal to the reference.

  The properties are proved as lemmas in `AleLemmas`: conservation, ghost states by boundary code, the time step, failure handling and the fixed grid.
- **The y-direction face assembly of the 2-D scheme.** `flux_generator_y` is `FluxY.FluxGeneratorY`. It is a nested loop over columns j and faces i. The two interface records ifv_D and ifv_U are declared once, with the normal (0, 1), and carried from face to face. At each face the loop writes their states and slopes, passes both to the 2-D GRP scheme and stores what the scheme leaves in ifv_D into G and Iy.
- **The two drivers.** `Hydrocode1D` and `HydrocodeRadial` model `main` from the configuration table on:
  - the +INFINITY "unset" sentinel (`ConfigTable`);
  - the uniform node grid;
  - the initial specific total energy;
  - the frame flag config[8];
  - the Eulerian grid replication;
  - the offset-1 placement of the radial cell data;
  - the aliasing of the gamma levels;
  - the dispatch on frame, order and dimension, including the radial switch whose case 1 falls through to case 2.

Doubles are `real`. +INFINITY is the `PosInf` case of `ExtReal.Ext`. The routines whose bodies are not part of this model are function-typed parameters of the model:

- `linear_GRP_solver_Edir`, with the argument shape of its call site;
- `minmod2` and `minmod3`;
- `sqrt`, which is assumed positive on positive arguments;
- `GRP_2D_scheme`, which takes both whole records and returns them as it leaves them.

A known quirk of the source, modelled as written: at the last face the right ghost is extrapolated with a plus sign. Under the periodic code -5, face m therefore sees cell 0's right-face value where face 0 sees its left-face value. `AleLemmas.PeriodicFaces` states this, and `AleLemmas.PeriodicConservesMass` shows that the periodic step keeps the total mass when cell 0's slope is zero.

## Model

| member | source | states |
|---|---|---|
| AleModel.ResolveBoundary | src/finite_volume/GRP_solver_ALE_source.c:120-176 | a ghost pair exists exactly for the codes -1, -2, -4, -5, -24; the switch leaves the ghost slopes alone; the widths stay positive |
| AleModel.AdmissibleUpToAll | src/finite_volume/GRP_solver_ALE_source.c:275-279 | the prefix check holds exactly when every face 0..n-1 has reconstructed rho and p at least eps |
| AleModel.FirstInadmissible | src/finite_volume/GRP_solver_ALE_source.c:241-279 | None exactly when every face passes; otherwise the first failing face, after which the face loop stops |
| AleModel.FirstInadmissibleAt | src/finite_volume/GRP_solver_ALE_source.c:275-279 | a failing face after a passing prefix is the face the loop stops at, however many faces follow |
| AleModel.SoundSpeed | src/finite_volume/GRP_solver_ALE_source.c:286-287 | the sound speed of a state with positive rho and p is positive |
| AleModel.MinWaveTime | src/finite_volume/GRP_solver_ALE_source.c:286-289 | h_S_max is still +INFINITY exactly when no face has been seen |
| AleModel.MinWaveTimeIsLeast | src/finite_volume/GRP_solver_ALE_source.c:286-289 | h_S_max is at most every signal time of every face seen, and equals one of them |
| AleModel.SelectTau | src/finite_volume/GRP_solver_ALE_source.c:340-345 | the configured tau outside the CFL branch; otherwise CFL*h_S_max, or t_all - time_c when clipped; time_c + tau never passes a finite t_all |
| AleModel.StarFailureAny | src/finite_volume/GRP_solver_ALE_source.c:319-323 | the star flag is set exactly when some face's star pressure is below eps |
| AleModel.AdvanceHalves | src/finite_volume/GRP_solver_ALE_source.c:348-362 | two half predictor steps make the full step mid + tau*dire |
| AleModel.ConservativeBalances | src/finite_volume/GRP_solver_ALE_source.c:373-379 | the new density, momentum and energy density are the old ones minus nu times the flux differences; the pressure is the one the conserved variables give |
| AleModel.UpdateFailureAny | src/finite_volume/GRP_solver_ALE_source.c:381-385 | the update flag is set exactly when some updated cell has p or rho below eps |
| AleModel.Rebuilt | src/finite_volume/GRP_solver_ALE_source.c:120-239 | the reconstruction keeps the cells and grid of level nt-1, with one slope per cell |
| AleModel.Reconstruct | src/finite_volume/GRP_solver_ALE_source.c:120-279 | a step that passes every check works from a reconstruction whose every face is admissible |
| AleModel.Evolve | src/finite_volume/GRP_solver_ALE_source.c:340-422 | the second half of a step never aborts and keeps the state invariant (sizes, increasing grid, positive ghost widths) |
| AleModel.Integrated | src/finite_volume/GRP_solver_ALE_source.c:340-422 | from the face-loop results, a step yields a state satisfying the invariant and m+1 fluxes |
| AleModel.StepModel | src/finite_volume/GRP_solver_ALE_source.c:114-423 | a pass either aborts or yields a state satisfying the invariant, with m+1 fluxes |
| AleSolver.Solver.constructor | src/finite_volume/GRP_solver_ALE_source.c:68-112 | the set-up: zero slopes, ghosts of width h with zero slopes, find_bound false, time_c = 0, config[5] = N |
| AleSolver.Solver.BoundaryStates | src/finite_volume/GRP_solver_ALE_source.c:120-176 | the ghost states and widths are those of ResolveBoundary on level nt-1 |
| AleSolver.Solver.LimitedSlope | src/finite_volume/GRP_solver_ALE_source.c:179-224 | the slope of cell j is minmod2 (step 1) or minmod3 (later steps) of its two candidates |
| AleSolver.Solver.ReconstructSlopes | src/finite_volume/GRP_solver_ALE_source.c:179-225 | the slope loop leaves CellSlopes of the old level, grid and slopes |
| AleSolver.Solver.BoundarySlopes | src/finite_volume/GRP_solver_ALE_source.c:226-239 | the ghost slopes are those of the second switch on the new slopes |
| AleSolver.Solver.SolveFace | src/finite_volume/GRP_solver_ALE_source.c:286-335 | face j's GRP outputs are stored at j and nowhere else; h_S_max and the star flag advance to j+1 faces |
| AleSolver.Solver.SolveFaces | src/finite_volume/GRP_solver_ALE_source.c:241-336 | the loop stops at the first inadmissible face; otherwise mid/dire hold every face's GRP output, h_S_max is the least signal time, and time_c is t_all on a star failure |
| AleSolver.Solver.TimeStep | src/finite_volume/GRP_solver_ALE_source.c:340-345 | the time step is SelectTau |
| AleSolver.Solver.PredictAndFlux | src/finite_volume/GRP_solver_ALE_source.c:348-364 | the fluxes at mid + tau/2*dire, the face values mid + tau*dire at the end, and X[nt] = X[nt-1] |
| AleSolver.Solver.UpdateCell | src/finite_volume/GRP_solver_ALE_source.c:367-395 | cell j of level nt is updated from faces j and j+1; time_c becomes t_all if the cell is non-physical; the new slope is the face difference over the width; nothing else changes |
| AleSolver.Solver.UpdateCells | src/finite_volume/GRP_solver_ALE_source.c:367-396 | level nt is Updated of level nt-1 with nu = tau/h, the new slopes are NewSlopes, and time_c is flagged on any non-physical cell |
| AleSolver.Solver.CopyBack | src/finite_volume/GRP_solver_ALE_source.c:416-422 | level nt-1 becomes level nt |
| AleSolver.Solver.Predict | src/finite_volume/GRP_solver_ALE_source.c:340-364 | tau is SelectTau, then the predictor and flux loop with that tau |
| AleSolver.Solver.Correct | src/finite_volume/GRP_solver_ALE_source.c:367-422 | update, time_c += tau, stop exactly at the time test, and copy back only when not stopping |
| AleSolver.Solver.Rebuild | src/finite_volume/GRP_solver_ALE_source.c:120-239 | the reconstruction built in place is Rebuilt of the state; find_bound is set on success |
| AleSolver.Solver.Prepare | src/finite_volume/GRP_solver_ALE_source.c:116-336 | the first half of a pass agrees with Reconstruct: the abort reason, or every face's GRP outputs, h_S_max and the star flag; levels and grid untouched |
| AleSolver.Solver.Integrate | src/finite_volume/GRP_solver_ALE_source.c:340-422 | the second half of a pass leaves exactly the state, tau, fluxes and stop flag of Integrated |
| AleSolver.Solver.Step | src/finite_volume/GRP_solver_ALE_source.c:114-423 | one pass leaves exactly the state StepModel gives, or halts with its abort reason and both cell levels and X[nt] untouched; config[5] never changes within a pass |
| AleSolver.Solver.Run | src/finite_volume/GRP_solver_ALE_source.c:114-423 | the main loop ends as RunModel does: at the same step, with the same cell levels and the same X[nt] (X[nt-1] after a completed pass, untouched by an aborted one); config[5] = k when the time test stops it and keeps N otherwise |
| AleLemmas.UpdatedBalanced | src/finite_volume/GRP_solver_ALE_source.c:373-379 | every updated cell balances density, momentum and energy against its two face fluxes |
| AleLemmas.MassTelescopes | src/finite_volume/GRP_solver_ALE_source.c:373 | the mass of balanced cells 0..n-1 changes by -nu(F1[n] - F1[0]) |
| AleLemmas.MomentumTelescopes | src/finite_volume/GRP_solver_ALE_source.c:374 | the same for momentum with F2, where no new density is zero |
| AleLemmas.EnergyTelescopes | src/finite_volume/GRP_solver_ALE_source.c:375 | the same for energy with F3, where no new density is zero |
| AleLemmas.UpdateConserves | src/finite_volume/GRP_solver_ALE_source.c:367-379 | over the m cells the update changes mass, momentum and energy only by the boundary fluxes |
| AleLemmas.UpdatedCellsConsistent | src/finite_volume/GRP_solver_ALE_source.c:377-379 | every updated cell with non-zero density satisfies Ene = P/(gamma-1) + 0.5*Mom*U |
| AleLemmas.EnergySplits | src/finite_volume/GRP_solver_ALE_source.c:379 | a cell whose pressure is recovered from its conserved variables splits its energy into internal and kinetic parts |
| AleLemmas.FaceValuesMatchCell | src/finite_volume/GRP_solver_ALE_source.c:247-274 | the two face values inside a cell average to the cell value, and their difference over the width is the cell slope |
| AleLemmas.PeriodicFaces | src/finite_volume/GRP_solver_ALE_source.c:153-162 | under code -5 faces 0 and m share their left side; face m's right state is cell 0's right-face value; the two faces agree exactly when cell 0's slope is zero |
| AleLemmas.PeriodicReconFaces | src/finite_volume/GRP_solver_ALE_source.c:247-274 | the same face relation for any reconstruction with periodic ghosts |
| AleLemmas.ExtrapolateMatchesRetract | src/finite_volume/GRP_solver_ALE_source.c:247-274 | adding and subtracting half a positive width times a slope agree exactly for a zero slope |
| AleLemmas.EqualBoundaryFluxesConserveMass | src/finite_volume/GRP_solver_ALE_source.c:367-373 | with equal fluxes at faces 0 and m the update keeps the total mass |
| AleLemmas.BalancedKeepsMass | src/finite_volume/GRP_solver_ALE_source.c:373 | balanced cells with equal boundary fluxes keep the total mass |
| AleLemmas.PeriodicConservesMass | src/finite_volume/GRP_solver_ALE_source.c:153-162 | a periodic step with a zero slope in cell 0 has equal boundary fluxes and keeps the total mass |
| AleLemmas.GhostStatesByCode | src/finite_volume/GRP_solver_ALE_source.c:133-172 | -2 mirrors both edges, -4 copies them, -5 swaps the ends with their widths, and -24 mirrors on the left and copies on the right |
| AleLemmas.InitialBoundaryFrozen | src/finite_volume/GRP_solver_ALE_source.c:122-132 | code -1 takes the edge cells with width h on the first step and keeps the ghosts on every later step |
| AleLemmas.UnknownCodeAborts | src/finite_volume/GRP_solver_ALE_source.c:173-175 | an unknown code ends the run at the current step with the state unchanged |
| AleLemmas.GhostSlopesKeepShape | src/finite_volume/GRP_solver_ALE_source.c:226-239 | the second switch changes only the ghost slopes its code names: -2 negates both u slopes, -5 swaps the ends, -24 negates the left u slope; the zero pattern is kept |
| AleLemmas.FaceWidthsPositive | src/finite_volume/GRP_solver_ALE_source.c:247-274 | both widths of every face are positive |
| AleLemmas.FaceTimesPositive | src/finite_volume/GRP_solver_ALE_source.c:286-289 | both signal times of an admissible face are positive |
| AleLemmas.MinWaveTimePositive | src/finite_volume/GRP_solver_ALE_source.c:286-289 | once a face is seen, h_S_max is finite and positive |
| AleLemmas.TauWithinCfl | src/finite_volume/GRP_solver_ALE_source.c:340-345 | in the CFL branch, with time_c within t_all, 0 <= tau < CFL*h_S_max + eps |
| AleLemmas.TauBelowTimes | src/finite_volume/GRP_solver_ALE_source.c:340-345 | tau < CFL times each signal time of any face whose times bound h_S_max, plus eps |
| AleLemmas.TauBelow | src/finite_volume/GRP_solver_ALE_source.c:340-345 | tau < CFL*t + eps for every t at least h_S_max |
| AleLemmas.FailureStops | src/finite_volume/GRP_solver_ALE_source.c:381-422 | a flagged failure stops the run at this step without copying back; without one, time_c stays within t_all |
| AleLemmas.StarFailureStops | src/finite_volume/GRP_solver_ALE_source.c:319-323 | a star pressure below eps does not abort: the step completes, stops the run and skips the copy-back |
| AleLemmas.FailureEndsRun | src/finite_volume/GRP_solver_ALE_source.c:404-413 | the run ends at the step where a star failure is flagged (config[5] = k), with that step's state |
| AleLemmas.GridFixed | src/finite_volume/GRP_solver_ALE_source.c:363 | both node levels after a step are the nodes before it |
| Euler.TotalEnergyRecoversPressure | src/finite_volume/GRP_solver_ALE_source.c:379 | the pressure recovered from the conserved form of (rho, u, p) is p |
| Euler.PressureSplitsEnergy | src/finite_volume/GRP_solver_ALE_source.c:379 | the energy density is p/(gamma-1) plus 0.5*Mom*U |
| Euler.EulerFluxComponents | src/finite_volume/GRP_solver_ALE_source.c:354-357 | the flux is (rho u, rho u^2 + p, (rho E + p) u) |
| ExtReal.Min | src/finite_volume/GRP_solver_ALE_source.c:288-289 | fmin is one of its arguments and at most both |
| ExtReal.Trunc | src/hydrocode_1D/hydrocode.c:167 | (int) of a double truncates toward zero |
| FluxY.AssembleFace | src/flux_calc/flux_generator_y.c:18-104 | the loop body writes the state, t and d fields of the carried records: the down record from cell i-1 (or bfv_D at i = 0), the up record from cell i (or bfv_U at i = n); their normal and output fields keep what the previous call left |
| FluxY.FluxGeneratorY | src/flux_calc/flux_generator_y.c:11-117 | with ifv_D and ifv_U declared once and carried from face to face, entry [j][i] of G and Iy holds what the call of face i of column j leaves in ifv_D, for every j < m and i <= n; every other entry is unchanged |
| FluxY.NormalSetOnce | src/flux_calc/flux_generator_y.c:11-107 | if GRP_2D_scheme keeps n_x and n_y, every call sees the normal (0, 1) set once in the declaration, and the records it receives carry exactly the down and up records of its face |
| FluxY.StoredIsFaceOut | src/flux_calc/flux_generator_y.c:11-117 | if the scheme also reads no field but those the loop sets, what a face stores equals the scheme's outputs on records declared for that face alone |
| FluxY.LeftoverReachesNextFace | src/flux_calc/flux_generator_y.c:11-117 | a scheme that keeps the normal but reads an output the previous call left makes face 1 store 2 in F_rho where records declared for it alone would give 1, so the read-only condition of StoredIsFaceOut is needed |
| FluxY.FaceValuesRecoverCell | src/flux_calc/flux_generator_y.c:18-61 | the up record of face i and the down record of face i+1 share cell i's y-slopes, average to the cell, and differ by h_y times the slope |
| FluxY.TransverseSlopes | src/flux_calc/flux_generator_y.c:63-104 | without Transversa all d fields are zero; with it they are the neighbouring x-slopes or the boundary S fields |
| FluxY.EndFaces | src/flux_calc/flux_generator_y.c:29-61 | face 0 extrapolates bfv_D upward with "+" and face n extrapolates bfv_U downward with "-", each carrying its record's T slopes |
| FluxY.ColumnsIndependent | src/flux_calc/flux_generator_y.c:15-117 | under the same two conditions on the scheme, what column j stores depends only on column j's data |
| ConfigTable.InitConfig | src/hydrocode_1D/hydrocode.c:139-146 | config[0] = 1 and every other entry is +INFINITY; the radial driver runs the same loop at src/hydrocode_Radial_Lag/hydrocode.c:168-175 |
| Hydrocode1D.Dispatch | src/hydrocode_1D/hydrocode.c:222-264 | retval is 4 exactly when the frame is not LAG or EUL or the order is not 1 or 2, and then no solver is called; otherwise the solver matches the frame and order |
| Hydrocode1D.UniformGridIncreasing | src/hydrocode_1D/hydrocode.c:217-218 | with h > 0 the grid h*j is strictly increasing with every cell h wide |
| Hydrocode1D.Start | src/hydrocode_1D/hydrocode.c:216-264 | X[0] is the uniform grid; E[0] is the specific total energy; config[8] and the other levels of X follow the frame; the outcome is Dispatch of the frame and (int)config[9] |
| Hydrocode1D.InitialGrid | src/hydrocode_1D/hydrocode.c:217-218 | X[0][j] = h*j for j = 0..m, other levels unchanged |
| Hydrocode1D.InitialEnergy | src/hydrocode_1D/hydrocode.c:219-220 | E[0][j] = 0.5u^2 + p/(gamma-1)/rho for every cell j < m |
| Hydrocode1D.SelectSolver | src/hydrocode_1D/hydrocode.c:222-264 | LAG sets config[8] = 1; EUL sets config[8] = 0 and copies X[0] to every level; the outcome is Dispatch |
| Hydrocode1D.ReplicateGrid | src/hydrocode_1D/hydrocode.c:242-244 | every level of X becomes a copy of X[0] |
| HydrocodeRadial.ExitCode | src/hydrocode_Radial_Lag/hydrocode.c:191-196 | the exit status is 0 after the solver and 4 otherwise |
| HydrocodeRadial.Decide | src/hydrocode_Radial_Lag/hydrocode.c:268-279 | M outside {1,2,3} is rejected first; then orders 1 and 2 both reach the solver and any other order is rejected with 4 |
| HydrocodeRadial.AlphaAfter | src/hydrocode_Radial_Lag/hydrocode.c:270-271 | config[41] becomes 0 exactly for order 1 with a valid M |
| HydrocodeRadial.Place | src/hydrocode_Radial_Lag/hydrocode.c:144 | input entry j-1 lands in cell j for j = 1..Ncell; both ends are untouched |
| HydrocodeRadial.AliasGamma | src/hydrocode_Radial_Lag/hydrocode.c:235-239 | every level of gamma is the same array as level 0 |
| HydrocodeRadial.SetCellGamma | src/hydrocode_Radial_Lag/hydrocode.c:235-239 | after aliasing, a write through any level is seen at every level |
| HydrocodeRadial.InitialEnergy | src/hydrocode_Radial_Lag/hydrocode.c:258-264 | E[0][j] = 0.5u^2 + p/(gamma_j-1)/rho for j = 1..Ncell, with both ends untouched |
| HydrocodeRadial.PlaceCells | src/hydrocode_Radial_Lag/hydrocode.c:229-240 | U, P, RHO (and gamma when multi-fluid) hold the input at offset 1; gamma levels are aliased; each cell's gamma is known |
| HydrocodeRadial.Start | src/hydrocode_Radial_Lag/hydrocode.c:191-279 | a bad M changes nothing; otherwise offset-1 data, energy with per-cell gamma, config[8] = 1, config[41] per order, and the outcome Decide(M, (int)config[9]) |
| HydrocodeRadial.OrderSwitch | src/hydrocode_Radial_Lag/hydrocode.c:268-279 | order 1 sets config[41] = 0 and falls through to the solver call of order 2; any other order is rejected; no other entry changes |

## Left out

- Memory handling is not modelled: malloc, calloc, free, the NULL checks with retval 5, and the `return_NULL` cleanup. Arrays are given pre-allocated, with the sizes the allocations would have.
- printf, `DispPro`, `clock()` and the cpu_time bookkeeping are left out because they are output and timing only.
- The NaN and infinity checks of `isfinite` on the reconstructed states, the star values and the updated cells are left out: every `real` is finite, so they can never fire.
- Floating-point rounding is not modelled: arithmetic is exact over `real`.
- AleModel.Conservative: where the updated density is exactly 0, C's division gives inf or NaN; the model stores 0 for u and e. That cell is then flagged non-physical and the run stops, as in C.
- linear_GRP_solver_Edir, minmod2, minmod3, sqrt and GRP_2D_scheme are parameters. The engine assumes only that sqrt is positive on positive arguments. FluxY.FluxGeneratorY assumes nothing of GRP_2D_scheme: it receives both whole records and returns them as it leaves them.
- FluxY.NormalSetOnce: holds only for a GRP_2D_scheme that leaves n_x and n_y of both records unchanged (KeepsNormal). The body of GRP_2D_scheme is not part of this model, so this is a hypothesis of the lemma.
- FluxY.StoredIsFaceOut: holds only for a GRP_2D_scheme that also reads no field of ifv_D or ifv_U except those the loop sets and the normal (ReadsOnlySeen). Without it, a value one call leaves in a record can reach the next face's outputs, as FluxY.LeftoverReachesNextFace shows.
- FluxY.ColumnsIndependent: holds under the same two hypotheses on GRP_2D_scheme as FluxY.StoredIsFaceOut.
- The fields of i_f_var other than the state, the slopes, the normal and the outputs F_* and *_int are not modelled, because var_struc.h is not part of this model. The output fields carried from call to call stand for whatever one call leaves to the next.
- The initializer `initialize_1D`, `arg_preprocess`, `radial_mesh_init`/`radial_mesh_update`, the solvers the drivers call and the writers are outside the model. The drivers take, as parameters, the values these leave behind: m or Ncell, h, gamma, config[9], the frame string, M and the level-0 cell data.
- Code after the solver call in the drivers is out of scope: the R copy and the writers.
- The file readers, the headers and the 2-D driver are not modelled; they are I/O plumbing, declarations and a dispatch to unseen code.
- var_struc.h is not part of this model. N_CONF is the length of the config array, required to exceed 41 in the radial driver and 8 in the 1-D driver.
- Preconditions the source does not state, each with the part of the model that needs it:
  - h > 0: the divisor of nu = tau/h, and the width h of the ghosts on step 1;
  - gamma > 1: gamma != 1 for the divisions by gamma - 1 in the flux and the energy; gamma > 0 with eps > 0 for a positive sound speed;
  - eps > 0: every face state that passes the eps test has positive rho and p, so the sound speed is defined and the signal time w/(|u| + c) has a positive divisor;
  - CFL > 0: CFL is never a divisor, but tau >= 0 needs it (AleLemmas.TauWithinCfl, AleLemmas.FailureStops);
  - a strictly increasing grid: positive cell widths, which divide the new slopes and make the signal times positive;
  - m >= 1: the edge cells and the ghost widths X[1] - X[0] and X[m] - X[m-1] exist;
  - in the drivers, gamma != 1 and non-zero initial densities, for the division in the initial energy.
- AleLemmas.TauBelowTimes: the CFL bound is stated per face through h_S_max (with MinWaveTimeIsLeast), not as a single statement over all faces of a step.
- AleLemmas.PeriodicConservesMass: periodic mass conservation is proved only when cell 0's slope is zero, because the source's "+" sign at the last face makes the two boundary fluxes differ otherwise.
- Momentum and energy conservation carry the extra hypothesis that no updated density is zero, because of the division in the update.
