# celestine (seaice3p) in Dafny

This project models the numerical core of *celestine* (formerly *seaice3p*). It is a
one-dimensional simulator of sea ice as a mushy layer: a porous matrix of ice
crystals filled with brine and gas bubbles. The column sits on the non-dimensional
depth interval [-1, 0], with the ocean below and the atmosphere above. The primary
variables in each cell are the bulk enthalpy, the bulk salinity and the bulk gas.
An enthalpy method derives everything else from them, and the right-hand side of
the semi-discrete conservation equations is assembled from fluxes on the cell
edges.

The model covers:

- **Grids** (`grids.dfy`, `legacy_grids.dfy`): the uniform grid of centres, edges
  and ghost-padded centres; the difference matrix; upwinding; the geometric mean;
  averaging onto edges; the timestep count.
- **Phase boundaries** (`phase.dfy`, `reduced_phase.dfy`, `full_phase.dfy`):
  - the reduced four-region classification (liquid, mush, eutectic, solid);
  - the full eight-phase classification, which splits each region into a
    gas-sub-saturated and a gas-super-saturated phase.
- **Enthalpy methods** (`reduced_enthalpy.dfy`, `full_enthalpy.dfy`): for each
  phase, the closed-form temperature, the solid, liquid and gas fractions, the
  liquid salinity and the dissolved gas. Proved for them:
  - the enthalpy, salt and gas balance laws;
  - the square-root root of each quadratic;
  - agreement of the branches across phase boundaries.
- **Boundary conditions** (`boundary_conditions.dfy`, `legacy_bcs.dfy`):
  - ghost-cell padding of every field;
  - the first version's in-place writes of ghost values into arrays;
  - its piecewise inverse of the enthalpy method (enthalpy from temperature).
- **Velocities, fluxes and right-hand side** (`velocities.dfy`,
  `legacy_velocities.dfy`, `flux.dfy`, `spatial.dfy`, `equations.dfy`):
  - Darcy and bubble velocities;
  - the heat, salt and gas fluxes and their divergence;
  - the gas-rise filter and gas nucleation;
  - the stacking of the equilibrium (EQM) and disequilibrium (DISEQ) right-hand
    sides.
- **Brine drainage** (`brine_drainage.dfy`, `brine_sinks.dfy`):
  - the Rees Jones and Worster (2014) permeability, interface depth, mean
    permeability, local and effective Rayleigh numbers and convecting height;
  - the heat, salt and gas sinks through brine channels.
- **State** (`state_records.dfy`, `state_store.dfy`, `solvers_common.dfy`):
  - the frozen EQM and DISEQ records and their stacked vector;
  - the mutable `State`, `StateBCs` and `Solution` objects as classes;
  - the solver's starting arrays and storage.
- **Initial conditions** (`initial_conditions.dfy`): the uniform,
  Barrow 2009 and summer columns.
- **Parameters** (`params.dfy`, `legacy_params.dfy`, `scales.dfy`,
  `dimensional.dfy`, `convert.dfy`, `params_initial_conditions.dfy`):
  - the non-dimensional configuration and its stability checks;
  - the unit conversions (proved mutually inverse);
  - the derivation of the non-dimensional numbers and configuration records from
    the dimensional description.

The repository holds two generations of the code: top-level files such as
`grids.py` and `boundary_conditions.py`, and the `celestine/` package. Where the
two hold the same code (`grids.py` and `celestine/grids.py`, the two sink-term
files, the two gas-rise filters, the two nucleation functions), it is modelled
once and the table cites the package's copy:

- `brine_channel_sink_terms.py` computes the heat, salt and gas sinks of
  `celestine/RJW14/brine_channel_sink_terms.py` with the same formulas. It
  takes the configuration as a second argument instead of reading it from the
  state, and it has no bulk-dissolved-gas sink (that sink exists only in the
  package's copy);
- `celestine/equations/equations.py` and `celestine/equations/nucleation.py`
  repeat the gas-rise filter and the nucleation of `celestine/equations.py`;
- the timestep count, grid construction, difference matrix, upwinding and
  geometric mean of `grids.py` are those of `celestine/grids.py`
  (`LegacyGrids` models only what differs).

Floating-point numbers are modelled as `real`.
Python exceptions are modelled as `Err` values of `Wrappers.Result`.

## Model

| member | source | states |
|---|---|---|
| Grids.NumberOfTimesteps | celestine/grids.py:8-9 | `int(total/dt) + 1`: for a non-negative ratio n-1 ≤ total/dt < n (truncation towards zero), for a negative ratio n-2 < total/dt ≤ n-1 and n ≤ 1 |
| Grids.InitialiseGrids | celestine/grids.py:12-18 | step·I = 1; I centres, I+1 edges, I+2 ghosts; edges run from -1 to 0 in steps of `step`; each centre is the midpoint of its two edges; ghosts are the centres padded by the points half a step outside either end |
| Grids.CentresInside | celestine/grids.py:14 | every centre lies strictly inside (-1, 0) and the centres increase with their index |
| Grids.DifferenceMatrix | celestine/grids.py:21-26 | a size×(size+1) matrix whose row i holds -1/step at column i, +1/step at column i+1 and 0 elsewhere |
| Grids.GetDifferenceMatrix | celestine/grids.py:21-26 | the array filled row by row in the loop has that shape and equals `DifferenceMatrix` entry by entry |
| Grids.DifferenceMatrixApply | celestine/grids.py:21-26 | the matrix applied to x is the forward difference (x[i+1] - x[i]) / step |
| Grids.DifferenceOfConstant | celestine/grids.py:21-26 | the difference of a constant vector is the zero vector |
| Grids.Upwind | celestine/grids.py:29-35 | one value per velocity; a non-negative velocity carries the lower ghost value, a non-positive one the upper (both agree at 0, where the flux is 0) |
| Grids.UpwindOfConstant | celestine/grids.py:29-35 | upwinding a constant field c gives c·velocity on every edge |
| Grids.Geometric | celestine/grids.py:38-42 | one value fewer than the ghost array |
| Grids.GeometricBetween | celestine/grids.py:38-42 | with a true square root, each geometric mean of non-negative neighbours lies between them (so equal neighbours give back their value) |
| Grids.Average | celestine/grids.py:45-53 | one value fewer than the input; each value is equidistant from its two neighbours and lies between them |
| Grids.AddGhostCells | celestine/grids.py:56-67 | length I+2, bottom at index 0, top at the last index, the centres in between unchanged |
| LegacyGrids.AverageMatrix | grids.py:41-46 | an I×(I+2) matrix whose row i holds 0.5 at columns i and i+2 and 0 elsewhere |
| LegacyGrids.GetAverageMatrix | grids.py:41-46 | the array filled in the loop has that shape and equals `AverageMatrix` entry by entry |
| LegacyGrids.Average | grids.py:41-46 | I values |
| LegacyGrids.AverageApply | grids.py:41-46 | entry i is 0.5·(ghosts[i] + ghosts[i+2]), the mean of the two neighbours of ghost cell i+1 |
| Phase.Classify | celestine/enthalpy_method.py:99-102 | the region whose masked write survives in a cell: its mask holds and no mask written after it holds (every cell gets a value whatever the order of the boundaries) |
| Phase.OrderedMasksPartition | celestine/phase_boundaries.py:49-56 | with solidus ≤ eutectic ≤ liquidus a mask holds exactly for the region the cell is classified into |
| Phase.UnorderedMasksOverlap | celestine/phase_boundaries.py:49-52 | with a solidus above the eutectic the mush and solid masks can both hold, and the solid write wins |
| ReducedPhase.EutecticMeetsLiquidus | celestine/phase_boundaries.py:32-38 | the eutectic and the liquidus both equal -1 at bulk salinity 1 |
| ReducedPhase.Liquidus | celestine/phase_boundaries.py:32-33 | the gas-free liquidus temperature `-S`; its meaning is carried by `ReducedPhase.BoundariesOrdered` (liquidus at or above eutectic above solidus) and `ReducedPhase.EutecticMeetsLiquidus` |
| ReducedPhase.Eutectic | celestine/phase_boundaries.py:35-38 | the eutectic enthalpy `-1 - St (1 - phi_E)`; `ReducedPhase.EutecticGaps` and `ReducedPhase.EutecticIsSolidusShift` state how far it lies from the other two boundaries |
| ReducedPhase.Solidus | celestine/phase_boundaries.py:40-42 | the solidus enthalpy `-1 - St` of fully solid ice; ordered below the eutectic by `ReducedPhase.BoundariesOrdered` |
| ReducedPhase.BoundariesOrdered | celestine/phase_boundaries.py:32-42 | solidus ≤ eutectic iff -C ≤ S, and eutectic ≤ liquidus iff S ≤ 1 (St > 0, 1 + C > 0) |
| ReducedPhase.EutecticGaps | celestine/phase_boundaries.py:32-42 | eutectic − solidus = (S + C)·St/(1 + C) and liquidus − eutectic = (1 − S)(1 + St/(1 + C)) |
| ReducedPhase.EutecticIsSolidusShift | celestine/phase_boundaries.py:35-38 | the eutectic is −St(1 − S)/(1 + C) − 1 |
| ReducedPhase.EutecticBelowFreezing | celestine/phase_boundaries.py:35-38 | for S ≤ 1 the eutectic enthalpy is at most −1 |
| ReducedPhase.GetPhaseMasks | celestine/phase_boundaries.py:44-57 | four masks of the column's length, each the interval test of the source against −S, the eutectic and −1 − St; every cell lies in at least one mask and neighbouring masks never overlap |
| ReducedPhase.Regions | celestine/phase_boundaries.py:44-57 | per cell, the region whose mask holds and which no later mask overrides |
| ReducedPhase.MasksPartition | celestine/phase_boundaries.py:49-56 | on −C ≤ S ≤ 1 exactly one mask holds in each cell: the cell's region |
| ReducedEnthalpy.GasFractionIn | celestine/enthalpy_method.py:121-135 | non-negative; G − χ·φl·tol at or above saturation, 0 below |
| ReducedEnthalpy.NonNegativeGasDefined | celestine/enthalpy_method.py:137-151 | non-negative bulk gas never reaches the division by χ·φl unless that product is non-zero |
| ReducedEnthalpy.GasConservation | celestine/enthalpy_method.py:121-151 | χ·φl·dissolved gas + gas fraction = G in every cell where the split is defined |
| ReducedEnthalpy.MushRoot | celestine/enthalpy_method.py:95-100 | in a mushy cell with −C ≤ S the discriminant is non-negative, the source's root solves St·φ² + (H − St − C)φ − (H + S) = 0, and lies in (0, 1] |
| ReducedEnthalpy.MushRootIs | celestine/enthalpy_method.py:95-100 | any root of that quadratic below its vertex is the value the source computes |
| ReducedEnthalpy.EnthalpyBalance | celestine/enthalpy_method.py:99-114 | H = T − St·φs in every region |
| ReducedEnthalpy.MushSaltBalance | celestine/enthalpy_method.py:100-158 | in mush S = φl·Sl − C·φs with Sl = −T |
| ReducedEnthalpy.SolidFractionBounds | celestine/enthalpy_method.py:99-102 | on −C ≤ S ≤ 1 the solid fraction of whichever region a cell is in lies in [0, 1] |
| ReducedEnthalpy.LiquidMushContinuity | celestine/enthalpy_method.py:99-112 | at H = −S (with S + St + C ≥ 0) the mush root is 0 and the mush temperature is the liquid one |
| ReducedEnthalpy.EutecticSolidContinuity | celestine/enthalpy_method.py:101-114 | at H = −1 − St the eutectic formulas give solid fraction 1 and the solid temperature |
| ReducedEnthalpy.MushEutecticContinuity | celestine/enthalpy_method.py:100-113 | at the eutectic enthalpy both the mush root and the eutectic formula give (1 − S)/(1 + C), and the mush temperature is −1 |
| ReducedEnthalpy.CalculateSolidFraction | celestine/enthalpy_method.py:89-104 | per cell, the solid fraction of the cell's region: 0, the mush root, −(1 + H)/St or 1 |
| ReducedEnthalpy.CalculateTemperature | celestine/enthalpy_method.py:106-116 | per cell, H, H + St·φs, −1 or H + St by region |
| ReducedEnthalpy.CalculateLiquidFraction | celestine/enthalpy_method.py:118-119 | φl + φs = 1 in every cell |
| ReducedEnthalpy.CalculateGasFraction | celestine/enthalpy_method.py:121-135 | per cell, the saturation split's free gas |
| ReducedEnthalpy.CalculateDissolvedGas | celestine/enthalpy_method.py:137-151 | per cell, tol at or above saturation, G/(χ·φl) below |
| ReducedEnthalpy.CalculateLiquidSalinity | celestine/enthalpy_method.py:153-162 | per cell, S in liquid, −T in mush, 1 in eutectic and solid |
| ReducedEnthalpy.ReducedEnthalpyMethod | celestine/enthalpy_method.py:164-180 | every derived column has the state's length; φl + φs = 1, H = T − St·φs, gas fraction ≥ 0 and χ·φl·c + φg = G in every cell; in liquid cells φs = 0 and the liquid salinity is the bulk salinity |
| ReducedEnthalpy.ColumnBalances | celestine/enthalpy_method.py:164-180 | the six masked computations, run in the source's order, satisfy that balance |
| ReducedEnthalpy.ReducedSaltBalance | celestine/enthalpy_method.py:100-158 | with a true square root and St > 0, every mush cell with S ≥ −C satisfies S = φl·Sl − C·φs |
| ReducedEnthalpy.DiseqDissolvedGasConsistent | celestine/enthalpy_method.py:196-198 | in liquid and mush, χ·φl·c equals the bulk dissolved gas |
| ReducedEnthalpy.CalculateDiseqDissolvedGas | celestine/enthalpy_method.py:189-204 | per cell, G/χ in liquid, G/(χφl) in mush, G/(χφl + 10⁻⁶) in eutectic, 0 in solid |
| ReducedEnthalpy.DisequilibriumGasFraction | celestine/enthalpy_method.py:186-187 | always a TypeError |
| ReducedEnthalpy.DisequilibriumEnthalpyMethod | celestine/enthalpy_method.py:206-228 | the state's gas fraction is returned unchanged; lengths, φl + φs = 1 and H = T − St·φs hold; in liquid and mush the dissolved gas reproduces the bulk dissolved gas; in liquid cells φs = 0 and the liquid salinity is the bulk salinity |
| ReducedEnthalpy.DiseqColumnBalances | celestine/enthalpy_method.py:206-228 | the masked computations, run in the source's order, satisfy that balance |
| ReducedEnthalpy.DiseqSaltBalance | celestine/enthalpy_method.py:206-228 | with a true square root and St > 0, every mush cell with S ≥ −C satisfies S = φl·Sl − C·φs |
| ReducedEnthalpy.CalculateEnthalpyMethod | celestine/enthalpy_method.py:12-61 | an EQM state gives an EQM full state and a DISEQ state a DISEQ one; the primary fields are copied and the derived fields are the matching method's outputs |
| FullPhase.LiquidusContinuous | phase_boundaries.py:9-17 | the sub-saturated liquidus −S and the super-saturated branch agree at G = χ |
| FullPhase.Liquidus | phase_boundaries.py:9-17 | the liquidus with its two gas branches split at G = chi; `FullPhase.LiquidusContinuous` joins the branches and `FullPhase.GasFreeBoundariesAreReduced` reduces it to `-S` without gas |
| FullPhase.EutecticBoundary | phase_boundaries.py:20-33 | the eutectic boundary with its sub- and super-saturated branches; `FullPhase.EutecticContinuous` joins them and `FullPhase.EutecticSubIsReduced` equates the sub branch with the gas-free eutectic |
| FullPhase.Solidus | phase_boundaries.py:36-43 | `-1 - St` without gas and `(1 - G)(-1 - St)` with gas; `FullPhase.SolidusContinuous` joins the two at G = 0 |
| FullPhase.MaxSalt | phase_boundaries.py:69-77 | 1 up to G = chi and decreasing linearly beyond; `FullPhase.MaxSaltProperties` joins the branches at chi and bounds it by 1 |
| FullPhase.EutecticContinuous | phase_boundaries.py:20-33 | the two eutectic branches agree where G = χ times the eutectic liquid fraction |
| FullPhase.EutecticSubIsReduced | phase_boundaries.py:25-28 | the sub-saturated eutectic −1 − St(1 − (S + C)/(1 + C)) equals the reduced model's St(S − 1)/(1 + C) − 1 |
| FullPhase.SolidusContinuous | phase_boundaries.py:36-43 | the solidus branches −1 − St and (1 − G)(−1 − St) agree at G = 0 |
| FullPhase.Saturation | phase_boundaries.py:46-66 | classified with the gas-free boundaries: χ in liquid, χ(1 + (H + 1)/St) in eutectic, 0 in solid; in mush it is undefined (NaN) exactly when the discriminant is negative |
| FullPhase.GasFreeBoundariesAreReduced | phase_boundaries.py:52-54 | at zero gas (χ ≥ 0, S ≥ −C) the three boundaries are the reduced model's |
| FullPhase.MaxSaltProperties | phase_boundaries.py:69-77 | the two branches agree at G = χ, where the value is 1, and the maximum salt never exceeds 1 |
| FullPhase.PhaseFor | phase_boundaries.py:91-98 | the phase of a thermal region with a given saturation state has that region and that state |
| FullPhase.GetPhaseMasks | phase_boundaries.py:80-99 | eight masks of the column's length, in the order l, L, m, M, e, E, s, S |
| FullPhase.PhaseMasksMeaning | phase_boundaries.py:85-98 | the mask of a phase holds at a cell iff its region's thermal mask holds there and the cell's gas is (not) above its saturation as the phase says |
| FullPhase.EightMasksPartition | phase_boundaries.py:85-98 | wherever exactly one thermal mask holds, exactly one of the eight masks holds |
| FullPhase.Phases | enthalpy_method.py:9-35 | per cell, the phase whose masked writes survive: its region's mask holds, no later thermal mask holds, and its saturation state is the cell's |
| FullPhase.PhasesSelectMasks | phase_boundaries.py:85-98 | the phase chosen for each cell is one whose mask holds there |
| FullPhase.PhaseOf | enthalpy_method.py:9-35 | the same for one cell |
| FullEnthalpy.SuperMushLiquidFraction | enthalpy_method.py:49 | φl·(C − T) = S + C |
| FullEnthalpy.Temperature | enthalpy_method.py:7-33 | the temperature of each phase region; `FullEnthalpy.TemperatureSolves` proves it solves that region's enthalpy equation |
| FullEnthalpy.LiquidFraction | enthalpy_method.py:36-59 | the liquid fraction of each phase region; its value per region is stated by `FullEnthalpy.SuperMushLiquidFraction`, `FullEnthalpy.SubEutecticLiquidFraction`, `FullEnthalpy.SuperEutecticLiquidFraction` and the fractions of `FullEnthalpy.Fields` |
| FullEnthalpy.GasFraction | enthalpy_method.py:62-79 | the gas fraction: zero in the sub-saturated regions, the gas beyond what the brine holds (`G - chi phi_l`) in the super-saturated ones; `FullEnthalpy.Fields` and `FullEnthalpy.CellBalances` (gas balance) carry its meaning |
| FullEnthalpy.DissolvedGas | enthalpy_method.py:87-104 | the dissolved gas: `G / (chi phi_l)` in the sub-saturated regions, 1 (saturated) in the super-saturated ones and in solid ice; `FullEnthalpy.SaturationRatio` and `FullEnthalpy.CellBalances` state it |
| FullEnthalpy.LiquidSalinity | enthalpy_method.py:107-126 | the brine salinity of each phase region; `FullEnthalpy.CellBalances` proves the salt balance it completes |
| FullEnthalpy.SubEutecticLiquidFraction | enthalpy_method.py:51 | (φl − 1)·St = H + 1 |
| FullEnthalpy.SuperEutecticLiquidFraction | enthalpy_method.py:52-54 | φl·(St(1 − χ) − χ) = (1 − G)(1 + St) + H |
| FullEnthalpy.SaturationRatio | enthalpy_method.py:92-98 | the dissolved gas relative to saturation times the liquid's capacity is the bulk gas |
| FullEnthalpy.Fields | enthalpy_method.py:36-126 | once T is known: T is kept and the liquid, gas and solid fractions sum to one |
| FullEnthalpy.CellValues | enthalpy_method.py:129-147 | a cell's six values are the fields derived from the temperature its phase gives |
| FullEnthalpy.TemperatureSolves | enthalpy_method.py:7-33 | the temperature of every phase solves that phase's equation: T = H, H/(1 − φg), −1, H + St or H/(1 − G) + St, or the phase's mush quadratic |
| FullEnthalpy.SuperLiquidTemperatureFits | enthalpy_method.py:14 | super-saturated liquid: T·(1 − φg) = H |
| FullEnthalpy.SuperSolidTemperatureFits | enthalpy_method.py:31 | super-saturated solid: (T − St)(1 − G) = H |
| FullEnthalpy.MushTemperatureRoot | enthalpy_method.py:16-18 | sub-saturated mush: T² − (H + C + St)T + (CH − St·S) = 0 |
| FullEnthalpy.SuperMushTemperatureRoot | enthalpy_method.py:20-25 | super-saturated mush: (1 − G)T² − B·T + C = 0 with the source's coefficients |
| FullEnthalpy.CellBalances | enthalpy_method.py:129-147 | when T solves its phase's equation, H = T(1 − φg) − St·φs in every phase, χ·φl·c + φg = G wherever the gas split is defined, and S = φl·Sl − C(1 − φl) in liquid and mush |
| FullEnthalpy.SubLiquidBalances | enthalpy_method.py:13-113 | in phase l, once T solves the phase's equation: H = T(1 − φg) − St·φs and χ·φl·c + φg = G, and S = φl·Sl − C(1 − φl) |
| FullEnthalpy.SuperLiquidBalances | enthalpy_method.py:14-115 | in phase L, once T solves the phase's equation: H = T(1 − φg) − St·φs and χ·φl·c + φg = G, and S = φl·Sl − C(1 − φl) |
| FullEnthalpy.SubMushBalances | enthalpy_method.py:16-117 | in phase m, once T solves the phase's equation: H = T(1 − φg) − St·φs and χ·φl·c + φg = G, and S = φl·Sl − C(1 − φl) |
| FullEnthalpy.SuperMushBalances | enthalpy_method.py:20-118 | in phase M, once T solves the phase's equation: H = T(1 − φg) − St·φs and χ·φl·c + φg = G, and S = φl·Sl − C(1 − φl) |
| FullEnthalpy.SubEutecticBalances | enthalpy_method.py:27-120 | in phase e, once T solves the phase's equation: H = T(1 − φg) − St·φs and χ·φl·c + φg = G |
| FullEnthalpy.SuperEutecticBalances | enthalpy_method.py:28-121 | in phase E, once T solves the phase's equation: H = T(1 − φg) − St·φs and χ·φl·c + φg = G |
| FullEnthalpy.SubSolidBalances | enthalpy_method.py:30-123 | in phase s, once T solves the phase's equation: H = T(1 − φg) − St·φs, and χ·φl·c + φg = G holds exactly when G = 0 |
| FullEnthalpy.SuperSolidBalances | enthalpy_method.py:31-124 | in phase S, once T solves the phase's equation: H = T(1 − φg) − St·φs and χ·φl·c + φg = G |
| FullEnthalpy.LiquidBranchesAgree | enthalpy_method.py:13-46 | at G = χ the l and L formulas give the same six values |
| FullEnthalpy.SolidBranchesAgree | enthalpy_method.py:30-57 | at G = 0 the s and S formulas give the same six values |
| FullEnthalpy.EutecticBranchesAgree | enthalpy_method.py:27-54 | where G = χ·φl of the eutectic liquid, the e and E formulas give the same six values |
| FullEnthalpy.EnthalpyMethod | enthalpy_method.py:129-147 | defined on any column with given phases and no division by zero; every cell's fractions sum to one, and the balance laws of its phase hold in every cell outside mush and in every mush cell whose quadratic has a real root under a true square root |
| FullEnthalpy.FullColumnsBalanced | enthalpy_method.py:129-147 | the six columns filled cell by cell satisfy those laws, cell by cell, wherever the cell's root is real |
| FullEnthalpy.SubMushRootReal | enthalpy_method.py:16-18 | the sub-saturated mush discriminant is (H − C + St)² + 4·St·(S + C), so with a true square root, St ≥ 0 and S ≥ −C the sub-saturated mush root is real |
| BoundaryConditions.DissolvedGasBCs | celestine/boundary_conditions.py:10-14 | I+2 values, the centres unchanged, `far_gas_sat` below and 1 above |
| BoundaryConditions.GasFractionBCs | celestine/boundary_conditions.py:17-19 | I+2 values, the centres unchanged, 0 at both ends |
| BoundaryConditions.GasBCs | celestine/boundary_conditions.py:22-26 | I+2 values, the centres unchanged, χ·`far_gas_sat` below and χ above |
| BoundaryConditions.LiquidSalinityBCs | celestine/boundary_conditions.py:29-34 | I+2 values, the centres unchanged, `far_bulk_salinity` below, the top ghost equal to the topmost centre (no gradient across the top edge) |
| BoundaryConditions.TemperatureBCs | celestine/boundary_conditions.py:37-43 | I+2 values, the centres unchanged, the bottom and top forcing values at `time` at the ends |
| BoundaryConditions.EnthalpyBCs | celestine/boundary_conditions.py:46-49 | I+2 values, the centres unchanged, `far_temp` below, no gradient across the top edge |
| BoundaryConditions.SaltBCs | celestine/boundary_conditions.py:52-55 | I+2 values, the centres unchanged, `far_bulk_salinity` below, no gradient across the top edge |
| BoundaryConditions.LiquidFractionBCs | celestine/boundary_conditions.py:58-65 | I+2 values, the centres unchanged, no gradient across either end |
| BoundaryConditions.PressureBCs | celestine/boundary_conditions.py:68-70 | I+2 values, the centres unchanged, 0 below, no gradient across the top edge |
| LegacyBoundaryConditions.UnidentifiedOnlyAboveBand | boundary_conditions.py:40-63 | at or below the top of the eutectic band (T ≤ −1 + ε) some phase predicate always matches |
| LegacyBoundaryConditions.EnthalpyFromTemp | boundary_conditions.py:11-89 | the `ValueError("Cannot identify phase in top ghost cell")` is returned exactly when no phase predicate matches; sub-saturated liquid returns T and sub-saturated solid returns T − St; the super-saturated mush branch uses the corrected formula of the Findings row, not lines 73-76 as written |
| LegacyBoundaryConditions.EnthalpyFromTempInverts | boundary_conditions.py:65-87 | outside the eutectic band the result is defined and the imposed T solves the identified phase's temperature equation at that enthalpy, so the enthalpy method gives T back (in mush, up to the choice of root) |
| LegacyBoundaryConditions.BranchFits | boundary_conditions.py:65-87 | each non-eutectic branch's enthalpy solves that phase's temperature equation at T |
| LegacyBoundaryConditions.EutecticBandEnds | boundary_conditions.py:16-81 | across the band the enthalpy runs linearly from the solidus (T = −1 − ε) to the eutectic enthalpy (T = −1 + ε) |
| LegacyBoundaryConditions.MushSuperAsWrittenMisfits | boundary_conditions.py:73-76 | for χ = 0.1, C = 1, St = 2, S = 0, G = 0.2, T = −0.5 the cell is super-saturated mush and the written enthalpy (−13/15) is not one at which the enthalpy method finds T |
| LegacyBoundaryConditions.AddEnthalpyBCs | boundary_conditions.py:92-102 | the top ghost gets the enthalpy of the top temperature, then the bottom ghost that of the bottom temperature; an error leaves the later write undone; nothing else changes |
| LegacyBoundaryConditions.AddSaltBCs | boundary_conditions.py:105-109 | both ends become 0 and every other entry is kept |
| LegacyBoundaryConditions.AddPressureBCs | boundary_conditions.py:112-115 | the bottom becomes 0, the top copies its neighbour, every other entry is kept |
| LegacyBoundaryConditions.AddGasBCs | boundary_conditions.py:118-157 | the bottom becomes χ, the top 0, every other entry is kept |
| LegacyBoundaryConditions.ApplyBoundaryConditions | boundary_conditions.py:160-166 | the four writers in order: enthalpy from the salt and gas ghosts as they were, then salt, gas and pressure; on success each array is its old contents with exactly the two ghost entries rewritten (pressure's top copying its old neighbour, or the new zero when there are only two entries); an enthalpy error stops the rest, leaves the other arrays unchanged and keeps a top enthalpy already written when only the bottom fails |
| Velocities.FrameVelocity | celestine/velocities.py:9-10 | I+1 entries, each the frame velocity |
| Velocities.LiquidDarcyVelocity | celestine/velocities.py:13-28 | one entry per edge, the geometric mean of the neighbouring liquid fractions times U₀/2 |
| Velocities.LiquidDarcyVelocityBounded | celestine/velocities.py:13-28 | for liquid fractions in [0, 1] and U₀ ≥ 0 every entry lies in [0, U₀/2] |
| Velocities.BubbleSizeFraction | celestine/velocities.py:31-42 | λ·(φ^q + reg) = Λ on every edge |
| Velocities.NoBubblesNoSize | celestine/velocities.py:31-42 | Λ = 0 gives size fraction 0 everywhere |
| Velocities.Lag | celestine/velocities.py:45-48 | the lag lies in [0.5, 1], is 1 for a negative size fraction and 1/2 for a size fraction above 1 |
| Velocities.LagLipschitz | celestine/velocities.py:45-48 | the lag never increases with λ, and by at most half the change in λ, so it is continuous |
| Velocities.Drag | celestine/velocities.py:51-56 | 0 for λ > 1 and 1 for λ < 0 |
| Velocities.DragProperties | celestine/velocities.py:51-56 | with a true power law the drag is non-negative, 1 at λ = 0 and (for r > 0) 0 at λ = 1, so it is continuous |
| Velocities.GasInterstitialVelocity | celestine/velocities.py:59-85 | one value per edge |
| Velocities.NoBubblesNoGasVelocity | celestine/velocities.py:59-85 | `bubble_radius_scaled` = 0 gives a zero gas velocity on every edge |
| Velocities.GasVelocityNonNegative | celestine/velocities.py:59-85 | with B ≥ 0 and non-negative liquid fractions bubbles never sink |
| Velocities.CalculateVelocities | celestine/velocities.py:88-94 | from the ghost-grid liquid fraction alone, three velocities of length I+1 |
| LegacyVelocities.FrameVelocity | velocities.py:5-6 | I+1 entries, each the frame velocity |
| LegacyVelocities.AbsolutePermeability | velocities.py:9-10 | Π = φ³ cellwise |
| LegacyVelocities.PermeabilityMonotone | velocities.py:9-10 | on [0, 1] the permeability is non-negative, increases with φ and is at most 1 |
| LegacyVelocities.LiquidDarcyVelocity | velocities.py:13-16 | Wl = −Π(geometric φl)·(D_g p) on every edge |
| LegacyVelocities.UniformPressureNoFlow | velocities.py:13-16 | a uniform pressure drives no liquid flow through any edge |
| LegacyVelocities.BubbleRadius | velocities.py:19-22 | λ·(geometric(φl)^q + reg) = Λ on every edge |
| LegacyVelocities.GasInterstitialVelocity | velocities.py:39-49 | B times the drag on every edge (the liquid velocity and lag the source computes are unused) |
| LegacyVelocities.PointBubblesRiseAtB | velocities.py:39-49 | point bubbles (Λ = 0) feel no drag and rise at B on every edge |
| LegacyVelocities.GasVelocityNonNegative | velocities.py:39-49 | with B ≥ 0 bubbles never sink |
| LegacyVelocities.CalculateVelocities | velocities.py:52-56 | three velocities of length I+1 from the ghost-grid liquid fraction and pressure |
| Flux.ConductiveHeatFlux | celestine/flux.py:5-17 | one value per row of D_g |
| Flux.ConductiveFluxIsGradient | celestine/flux.py:5-17 | with the ghost difference matrix, the flux across edge i is −(T[i+1] − T[i])/step |
| Flux.UniformTemperatureNoConduction | celestine/flux.py:5-17 | a uniform temperature conducts no heat |
| Flux.InsulatedTop | celestine/flux.py:5-17 | a top ghost copying the top cell gives no conductive flux across the top edge |
| Flux.AdvectiveHeatFlux | celestine/flux.py:20-21 | the upwind value of T times Wl on every edge |
| Flux.FrameAdvectionHeatFlux | celestine/flux.py:24-25 | the upwind value of H times V on every edge |
| Flux.UniformAdvection | celestine/flux.py:20-25 | a uniform field c is carried at c·velocity on every edge |
| Spatial.Divergence | spatial.py:32-49 | one value per cell |
| Spatial.EnthalpyRHS | spatial.py:32-36 | one value per cell |
| Spatial.UniformColumnAtRest | spatial.py:32-36 | a uniform column at uniform temperature with no liquid flow has zero enthalpy tendency, whatever the frame velocity |
| Spatial.UniformNoConduction | spatial.py:33 | the conduction term of a uniform temperature vanishes |
| Spatial.UpwindAtRest | spatial.py:34 | the liquid-advection term vanishes when the liquid does not move |
| Spatial.UniformFrameAdvection | spatial.py:35 | frame advection of a uniform enthalpy has zero divergence |
| Spatial.SaltRHS | spatial.py:37-42 | one value per cell |
| Spatial.InfiniteLewisNoSaltDiffusion | spatial.py:37-39 | with the infinite default Lewis number the diffusion term drops out: the edge liquid fraction is not read |
| Spatial.GasRHS | spatial.py:43-49 | one value per cell |
| Spatial.NoBubblesNoBubbleFlux | spatial.py:47 | with no free gas the bubble velocity has no effect on the gas equation |
| Spatial.Derived | spatial.py:13-21 | the enthalpy method's columns have the state's length and the bubble radius is defined on them |
| Spatial.FluxesFrom | spatial.py:28-51 | three right-hand sides of one value per cell |
| Spatial.TopZeroedBlowUp | spatial.py:23-26 | after the top cell is zeroed, some gas fraction exceeds 0.5 iff one below the top cell did |
| Spatial.CalculateDiscretisedFluxes | spatial.py:8-51 | `ValueError("gas fraction blow up")` exactly when a gas fraction below the top cell exceeds 0.5; otherwise three right-hand sides of one value per cell |
| SolversCommon.GenerateInitialSolution | celestine/solvers/common.py:6-23 | a failure of the enthalpy inversion is passed on; otherwise four arrays of the requested length: enthalpy the single value of the far-field temperature, salt and pressure 0, gas χ·`far_gas_sat` |
| SolversCommon.InitialEnthalpyRecoversFarTemp | celestine/solvers/common.py:7-15 | outside the eutectic band every cell's enthalpy is one at which the full enthalpy method finds the far-field temperature |
| SolversCommon.GenerateStorageArrays | celestine/solvers/common.py:26-32 | the stored arrays equal the inputs and the times are [0] |
| BrineDrainage.Heaviside | celestine/brine_drainage.py:27 | the step is 0 or 1 and is 1 exactly for a positive argument (`np.heaviside(x, 0)`) |
| BrineDrainage.Permeability | celestine/brine_drainage.py:10-29 | `phi^3` without the porosity threshold; with it, zero at or below the cutoff and `phi^2 (phi - cutoff)` above, never negative |
| BrineDrainage.PermeabilityMonotone | celestine/brine_drainage.py:10-29 | permeability grows with liquid fraction on non-negative fractions, vanishes at the cutoff and is bounded by `phi^2 abs(phi - cutoff)` |
| BrineDrainage.SearchBelowOne | celestine/brine_drainage.py:83 | finds the first cell from `from` whose liquid fraction is below one, or reports that none is |
| BrineDrainage.ArgmaxBelowOne | celestine/brine_drainage.py:83 | `np.argmax(liquid_fraction < 1)`: the first cell below one when there is one, otherwise 0 |
| BrineDrainage.IceOceanBoundaryDepth | celestine/brine_drainage.py:64-95 | an all-liquid column gives the depth of the bottom edge (`-edges[I]`); otherwise the bottom edge of the first cell below one, a ValueError when that cell is cell 0 (ice at the bottom of the domain) |
| BrineDrainage.IceDepthOnGrid | celestine/brine_drainage.py:64-95 | on the model grid the depth lies in [0, 1] and an all-liquid column has its interface at depth 0 |
| BrineDrainage.IceCells | celestine/brine_drainage.py:55-58 | `liquid_fraction[ice_mask]`: all cells when every centre lies in (-depth, z], none when none does, non-negative data stay non-negative |
| BrineDrainage.ScaledPermeabilities | celestine/brine_drainage.py:56-59 | one permeability per selected cell divided by the cell count, each non-negative |
| BrineDrainage.IntegratedMeanPermeability | celestine/brine_drainage.py:32-61 | zero below the interface; non-negative whenever the harmonic mean keeps non-negative data non-negative |
| BrineDrainage.UniformIceMeanPermeability | celestine/brine_drainage.py:49-61 | when the ice cells up to z all have one scaled permeability p and the harmonic mean of equal values is that value, K(z) is (depth + z + step/2) p / step |
| BrineDrainage.UniformLiquidFractionMeanPermeability | celestine/brine_drainage.py:24-61 | when the ice cells up to z all have liquid fraction phi, K(z) is (depth + z + step/2) times the permeability of phi over the number of ice cells, divided by the step |
| BrineDrainage.SolidIceMeanPermeability | celestine/brine_drainage.py:24-61 | when the ice cells up to z are all solid, K(z) is zero, on both sides of the interface |
| BrineDrainage.IceCellsConstant | celestine/brine_drainage.py:52-53 | when every cell whose centre lies in (-depth, z] has liquid fraction phi, every fraction the ice mask selects is phi, and the mask selects at least one cell when such a centre exists |
| BrineDrainage.Rayleigh | celestine/brine_drainage.py:98-136 | fails exactly when the ice depth fails, with the same ValueError; otherwise one Rayleigh number per cell |
| BrineDrainage.RayleighAt | celestine/brine_drainage.py:131-136 | entry i is `Ra_S (depth + z_i) K(z_i) S_l,i` |
| BrineDrainage.RayleighSigns | celestine/brine_drainage.py:52-53 | the Rayleigh number vanishes below the interface and is non-negative for non-negative salinity, fractions and `Ra_S` |
| BrineDrainage.LastAtLeast | celestine/brine_drainage.py:143 | the last index whose Rayleigh number reaches the critical value, or -1 when none does |
| BrineDrainage.ConvectingRegionHeight | celestine/brine_drainage.py:139-144 | NaN (None) exactly when every Rayleigh number is below critical; otherwise the edge just above the last cell that reaches it |
| BrineDrainage.MaxExcess | celestine/brine_drainage.py:149-153 | the maximum of the clipped excesses: it bounds every one and equals one of them |
| BrineDrainage.EffectiveRayleigh | celestine/brine_drainage.py:147-153 | an error for an empty column (numpy max of nothing); otherwise non-negative, at least every excess over critical and equal to the excess of some cell (the maximum), and zero exactly when no cell exceeds critical |
| BrineDrainage.ConvectionSummariesAgree | celestine/brine_drainage.py:139-153 | no convecting region means an effective Rayleigh number of 0, and a positive effective Rayleigh number means a convecting region exists |
| BrineSinks.HeatSink | celestine/RJW14/brine_channel_sink_terms.py:11-25 | zeros when brine convection is off; otherwise the channel sink rate times the interior temperature, cell by cell |
| BrineSinks.SaltSink | celestine/RJW14/brine_channel_sink_terms.py:28-41 | zeros when off; otherwise the rate times `S_l + C`, cell by cell |
| BrineSinks.LagFactor | celestine/RJW14/brine_channel_sink_terms.py:66-74 | a ValueError exactly when the bubble size distribution is neither "mono" nor "power_law" |
| BrineSinks.BubbleTerm | celestine/RJW14/brine_channel_sink_terms.py:75 | `2 phi_g lag / phi_l` per cell; zero where there is no gas |
| BrineSinks.GasSink | celestine/RJW14/brine_channel_sink_terms.py:44-79 | for a lag law that returns one value per edge (`BrineSinks.CouplingDefined`), fails exactly when convection is on, bubbles are coupled and the distribution type is unknown; zeros when convection is off |
| BrineSinks.BulkDissolvedGasSink | celestine/RJW14/brine_channel_sink_terms.py:82-98 | zeros when off; otherwise the rate times `chi` times the dissolved gas, cell by cell |
| BrineSinks.UncoupledGasSinkIsDissolvedGasSink | celestine/RJW14/brine_channel_sink_terms.py:64-79 | without bubble coupling the equilibrium gas sink equals the disequilibrium dissolved-gas sink |
| BrineSinks.NoDrainageNoSink | celestine/RJW14/brine_channel_sink_terms.py:22-25 | a cell with zero sink rate loses no heat, salt or dissolved gas |
| BrineSinks.StackedSink | celestine/state.py:105-109 | heat, salt and gas sinks stacked in that order, each slice equal to its sink; fails exactly when the gas sink does |
| BrineSinks.ConvectionOffNoStackedSink | celestine/state.py:105-109 | with brine convection off the stacked sink is all zeros |
| Equations.GasRiseFiltered | celestine/equations.py:23-45 | the top edge keeps its gas velocity; every other edge is zeroed exactly when the cell above holds no more liquid than gas (gas plus solid fill it) and kept otherwise |
| Equations.GasRiseFilterIdempotent | celestine/equations/equations.py:12-34 | filtering an already filtered gas velocity changes nothing |
| Equations.PreventGasRiseIntoSaturatedCell | celestine/equations/equations.py:30-34 | the masked array copy with its top entry written back equals the filtered gas velocity |
| Equations.NucleationRate | celestine/equations.py:119-127 | positive above saturation `chi phi_l` (for `Da > 0`), non-positive at or below it (for non-negative gas), zero when `Da = 0` |
| Equations.NucleationRates | celestine/equations/nucleation.py:13-27 | one nucleation rate per interior cell |
| Equations.Nucleation | celestine/equations/nucleation.py:7-38 | zeros in all three EQM equations; for DISEQ zeros in the first two blocks, minus the rate in the dissolved-gas block and the rate in the gas-fraction block; NotImplementedError for any other state |
| Equations.BrineConvectionSink | celestine/equations.py:48-68 | EQM stacks heat, salt and gas sinks and fails when the gas sink does; DISEQ stacks heat, salt, bulk dissolved gas and a zero gas-fraction sink; other states raise NotImplementedError |
| Equations.DzFluxes | celestine/equations.py:141-164 | `D_e` applied to each species' edge flux, stacked in equation order (3 blocks for EQM, 4 for DISEQ); NotImplementedError otherwise |
| Equations.RadiativeHeating | celestine/equations.py:167-193 | the shortwave heating in the enthalpy block and zeros in every other block; NotImplementedError otherwise |
| Equations.Tendency | celestine/equations.py:206-208 | each entry is `-dz - sink + nucleation` |
| Equations.HeatingTerm | celestine/equations.py:205-206 | a heating source of the stacked length that is zero outside the enthalpy block |
| Equations.Combine | celestine/equations.py:205-208 | each entry is `-dz - sink + nucleation + heating` |
| Equations.CalculateEquations | celestine/equations.py:196-208 | fails exactly for an unsupported state or a failing EQM gas sink; otherwise the combination of flux divergence (with the filtered gas velocity), sinks, nucleation and the heating when switched on |
| Equations.NucleationConservesGas | celestine/equations.py:107-138 | in a DISEQ cell the sum of the dissolved-gas and gas-fraction tendencies does not depend on nucleation: it is minus their flux divergence minus the dissolved-gas sink |
| Equations.DISEQSinkAt | celestine/equations.py:63 | the DISEQ gas-fraction equation has no brine-channel sink |
| Equations.NucleationPairCancels | celestine/equations/nucleation.py:29-36 | the two DISEQ nucleation entries of a cell sum to zero |
| Equations.GasPairSum | celestine/equations.py:205-206 | with no gas-fraction sink, cancelling nucleation and no heating in the gas blocks, the two gas tendencies sum to transport minus the dissolved-gas sink |
| Equations.HiddenGasVelocityIgnored | celestine/equations.py:41-45 | changing the gas velocity on an edge below a gas-filled cell leaves the right-hand side unchanged |
| Equations.EQMWithoutSourcesIsTransport | celestine/equations.py:196-208 | an EQM state with brine convection and internal heating off evolves by transport alone: the right-hand side is minus the flux divergence |
| Equations.EQMSinkVanishes | celestine/equations.py:48-58 | without brine convection the EQM sink is all zeros |
| Equations.SourcelessIsTransport | celestine/equations.py:208 | with zero sink, nucleation and heating the assembled right-hand side is minus the flux divergence |
| StateRecords.DISEQState.Gas | celestine/state/disequilibrium_state.py:42-45 | the total bulk gas less the gas fraction is the bulk dissolved gas |
| StateRecords.DISEQStateFull.Gas | celestine/state/disequilibrium_state.py:94-97 | the same relation for the full disequilibrium state |
| StateRecords.GetStackedState | celestine/state/equilibrium_state.py:71-72 | the solver vector is enthalpy, then salt, then gas, each slice equal to its field |
| StateRecords.InitFromStackedState | celestine/state/equilibrium_state.py:65-68 | succeeds exactly when the length divides by three (the `np.split` error otherwise); the result is well shaped, keeps the time and stacks back to the input |
| StateRecords.StackThenSplit | celestine/state/equilibrium_state.py:65-72 | splitting the stacked vector of a well-shaped state gives the state back |
| StateStore.State.constructor | celestine/state.py:25-35 | stores the configuration, time and primary variables; a missing pressure becomes zeros of the enthalpy's length |
| StateStore.State.CalculateEnthalpyMethod | celestine/state.py:54-68 | sets the six derived fields to the reduced enthalpy method's output and nothing else; afterwards the fractions sum to one, `H = T - St phi_s` and free plus dissolved gas is the bulk gas in every cell |
| StateStore.InitFromStackedState | celestine/state.py:40-47 | an error exactly when the length does not divide by three; otherwise a fresh state whose thirds stack back to the vector, with zero pressure and the given time |
| StateStore.StateBCs.constructor | celestine/state.py:77-93 | every field is its state field padded by its own boundary condition |
| StateStore.PadState | celestine/state.py:77-93 | padding fields of I entries puts every field on the I+2 ghost grid and keeps the interior of each |
| StateStore.Solution.constructor | celestine/state.py:122-131 | `1 + int(total_time / savefreq)` save slots of I cells, all zero |
| StateStore.Solution.AddState | celestine/state.py:133-139 | slot `index` (negative counts from the end) receives the state's time and its four columns; every other slot is unchanged |
| InitialConditions.StateOf | celestine/initial_conditions.py:37-44 | a TypeError exactly when the model is neither EQM nor DISEQ; otherwise a state at time 0 with the given enthalpy, salt and total gas, the DISEQ state holding all of its gas dissolved and no gas fraction |
| InitialConditions.UniformProfile | celestine/initial_conditions.py:20-35 | every cell holds the far-field temperature as enthalpy, the far-field bulk salinity and the saturated bulk gas `chi * far_gas_sat` |
| InitialConditions.UniformMatchesOcean | celestine/initial_conditions.py:27-35 | the bottom ghost values of the enthalpy, salt and gas boundary conditions equal every cell of the uniform column |
| InitialConditions.ApplyValueInIceLayer | celestine/initial_conditions.py:47-56 | the ice value strictly above `-depth`, the liquid value at or below it |
| InitialConditions.IceLayerOnTop | celestine/initial_conditions.py:47-56 | on the simulation grid every cell above an ice cell is ice: the layer sits on top |
| InitialConditions.IceLayerExtremes | celestine/initial_conditions.py:47-56 | a layer of no depth leaves the column liquid and a layer of full depth makes it all ice |
| InitialConditions.MushSolidFraction | celestine/initial_conditions.py:100-102 | the solid fraction `phi` satisfies `phi (T - C) = S + T` |
| InitialConditions.IceEnthalpy | celestine/initial_conditions.py:103-108 | the ice enthalpy plus `St phi` is the ice temperature |
| InitialConditions.IceEnthalpyInverts | celestine/initial_conditions.py:100-108 | for ice colder than `C` with salt at least `-C` the solid fraction is at most one, and the enthalpy method recovers that solid fraction and the ice temperature from the initial enthalpy |
| InitialConditions.LayeredProfile | celestine/initial_conditions.py:86-108 | ice cells get the layer's salt, gas and mushy-ice enthalpy; liquid cells get the ocean's salt, gas and temperature |
| InitialConditions.ScalesOf | celestine/initial_conditions.py:72 | the configuration's scales, or an AttributeError when it has none |
| InitialConditions.BarrowSaltInIce | celestine/initial_conditions.py:74-78 | the far-field bulk salinity with brine convection; otherwise the scaled 5.92 g/kg, a ZeroDivisionError for a zero salinity scale |
| InitialConditions.BarrowLayer | celestine/initial_conditions.py:59-95 | fails exactly for missing scales or a zero scale met on the way (length, salinity when used, temperature, cell count); otherwise 0.7 m of ice at -8.15 deg C over a -1.8 deg C ocean, with the configured gas in the ice and saturated ocean gas |
| InitialConditions.SummerLayer | celestine/initial_conditions.py:120-141 | fails exactly for missing scales, a zero salinity scale or no cells; otherwise the configured depth and temperatures, 5.92 g/kg in the ice, the far-field salinity below and no gas |
| InitialConditions.SummerHasNoGas | celestine/initial_conditions.py:140-141 | the summer column holds no gas in any cell |
| InitialConditions.LayeredState | celestine/initial_conditions.py:110-117 | the layer's error propagates; otherwise the model's state built from the layered profile |
| InitialConditions.GetInitialConditions | celestine/initial_conditions.py:10-17 | dispatches "uniform", "barrow_2009" and "summer" to their builders and raises KeyError for any other choice; a state it returns starts at time 0 with one enthalpy per cell |
| Params.InverseLewis | spatial.py:38-44 | `1 / lewis` is exactly zero for an infinite Lewis number (`np.inf`) and the reciprocal of a finite one |
| Params.Step | celestine/params.py:136-138 | the cell width is positive and I cells of it span the unit column |
| Params.CourantScalesWithCells | celestine/params.py:140-143 | the Courant number `timestep / step^2` equals `timestep * I^2` |
| Params.Courant | celestine/params.py:141-143 | the thermal Courant number `timestep / step^2`; `Params.CourantScalesWithCells` equates it with `timestep * I^2` and `Params.ThermalCourantWarning` warns when it reaches 1/2 |
| Params.ThermalCourantWarning | celestine/params.py:185-190 | a warning is logged exactly when `timestep * I^2 > 1/2` |
| Params.CountRecorded | celestine/params.py:27 | the number of temperatures whose magnitude is at most 100, never more than the input length |
| Params.FilterMissingValues | celestine/params.py:25-28 | both filtered arrays have one entry per recorded temperature and every kept temperature is recorded |
| Params.FilterKeepsRecorded | celestine/params.py:25-28 | every recorded (temperature, day) pair of the input appears, still paired, in the output |
| Params.FilterOnlyFromInput | celestine/params.py:25-28 | every output pair is a pair of the input |
| Params.CountRecordedAppend | celestine/params.py:27 | the number of recorded temperatures of two stretches joined is the sum of their counts |
| Params.FilterAppend | celestine/params.py:25-28 | filtering two aligned stretches joined gives the first's kept pairs followed by the second's, so the kept pairs keep their input order and their days |
| Params.FilterSingle | celestine/params.py:25-28 | a single pair is kept exactly when its temperature has magnitude at most 100; with `FilterAppend` this fixes the whole output |
| LegacyParams.Step | params.py:32-34 | the cell width is positive and I cells of it span the unit column |
| LegacyParams.DiffNumScalesWithCells | params.py:36-39 | the diffusion number `timestep / step^2` equals `timestep * I^2` |
| LegacyParams.DiffNum | params.py:37-40 | the diffusion number `timestep / step^2`; `LegacyParams.DiffNumScalesWithCells` equates it with `timestep * I^2` |
| LegacyParams.CourantGas | params.py:42-44 | the gas Courant number `B timestep / step`; `LegacyParams.CourantGasScalesWithCells` equates it with `B timestep I` and `LegacyParams.CheckBuoyancyCFL` flags it above 1 |
| LegacyParams.CourantGasScalesWithCells | params.py:41-44 | the gas Courant number `B timestep / step` equals `B timestep I` |
| LegacyParams.CheckBuoyancyCFL | params.py:56-60 | true exactly when `B timestep I > 1` |
| LegacyParams.CheckThermalDiffusionStability | params.py:62-66 | true exactly when `timestep I^2 > 1/2` |
| Scales.TimescaleNonZero | celestine/dimensional_params.py:27-36 | a domain of non-zero height and diffusivity has a non-zero timescale `L^2 / kappa` (in days), so dividing by it is defined |
| Scales.TimescaleInDays | celestine/dimensional_params.py:27-36 | the thermal diffusion time `L^2 / kappa` in days; `Scales.TimescaleNonZero` shows it is non-zero and `Scales.VelocityScaleInMPerDay` inverts it |
| Scales.Timescale | celestine/dimensional_params.py:455-456 | the timescale of a set of scales, the same quantity as `Scales.TimescaleInDays`; `Scales.TimeRoundTrip` converts times through it both ways |
| Scales.VelocityScaleInMPerDay | celestine/dimensional_params.py:39-49 | the velocity scale times the timescale is the domain height |
| Scales.FromDimensionalTemperature | celestine/dimensional_params.py:464-474 | converting back to deg C gives the input; the ocean freezing temperature maps to 0 and the eutectic end of the range to -1 |
| Scales.ToDimensionalTemperature | celestine/dimensional_params.py:470-474 | `T_i + dT theta` in deg C; `Scales.TemperatureRoundTrip` proves it is inverted by `Scales.FromDimensionalTemperature` |
| Scales.ToDimensionalGrid | celestine/dimensional_params.py:480-482 | depth in metres, the grid times the domain height; inverted by `Scales.FromDimensionalGrid` (`Scales.GridRoundTrip`) |
| Scales.ToDimensionalTime | celestine/dimensional_params.py:488-490 | time in days, the scaled time times the timescale; inverted by `Scales.FromDimensionalTime` (`Scales.TimeRoundTrip`) |
| Scales.ToDimensionalBulkSalinity | celestine/dimensional_params.py:498-500 | bulk salinity in g/kg, `S_i + dS S`; inverted by `Scales.FromDimensionalBulkSalinity` (`Scales.BulkSalinityRoundTrip`) |
| Scales.ToDimensionalBulkGas | celestine/dimensional_params.py:506-508 | bulk gas in kg/m3, the gas density times the scaled gas; inverted by `Scales.FromDimensionalBulkGas` (`Scales.BulkGasRoundTrip`) |
| Scales.ToDimensionalDissolvedGas | celestine/dimensional_params.py:526-529 | dissolved gas as a mass ratio, the saturation concentration times the scaled dissolved gas; inverted by `Scales.FromDimensionalDissolvedGas` (`Scales.DissolvedGasRoundTrip`) |
| Scales.TemperatureRoundTrip | celestine/dimensional_params.py:464-474 | non-dimensionalising a dimensional temperature gives the original value back |
| Scales.FromDimensionalGrid | celestine/dimensional_params.py:476-482 | converting back to metres gives the input |
| Scales.GridRoundTrip | celestine/dimensional_params.py:476-482 | the grid conversion round-trips |
| Scales.FromDimensionalTime | celestine/dimensional_params.py:484-490 | converting back to days gives the input |
| Scales.TimeRoundTrip | celestine/dimensional_params.py:484-490 | the time conversion round-trips |
| Scales.FromDimensionalBulkSalinity | celestine/dimensional_params.py:492-500 | converting back to g/kg gives the input; the ocean salinity maps to 0 and ocean plus the salinity difference to 1 |
| Scales.BulkSalinityRoundTrip | celestine/dimensional_params.py:492-500 | the bulk salinity conversion round-trips |
| Scales.FromDimensionalBulkGas | celestine/dimensional_params.py:502-508 | converting back to kg/m3 gives the input |
| Scales.BulkGasRoundTrip | celestine/dimensional_params.py:502-508 | the bulk gas conversion round-trips |
| Scales.BulkAirToArgonContent | celestine/dimensional_params.py:510-520 | a fixed proportion (0.01288 / 3.9948e-8 / 1000) of the air content, non-negative for non-negative input |
| Scales.FromDimensionalDissolvedGas | celestine/dimensional_params.py:522-529 | converting back to a mass ratio gives the input; the saturation concentration maps to 1 |
| Scales.DissolvedGasRoundTrip | celestine/dimensional_params.py:522-529 | the dissolved gas conversion round-trips |
| Dimensional.ExpansionCoefficient | celestine/dimensional_params.py:136-143 | `chi rho_g = rho_l xi_sat`: chi is the gas volume a saturated unit of liquid holds |
| Dimensional.SalinityDifference | celestine/dimensional_params.py:145-151 | the salinity scale `S_E - S_i`; `Dimensional.GetScales` records `S_i + dS == S_E` and `Dimensional.ScalesFixEutecticAndOcean` maps the eutectic salinity to 1 |
| Dimensional.TemperatureDifference | celestine/dimensional_params.py:164-170 | the temperature scale `T_i - T_E`; `Dimensional.TemperatureDifferenceNonZero` shows it is non-zero away from ocean salinity and `Dimensional.ScalesFixEutecticAndOcean` maps the eutectic to -1 |
| Dimensional.LewisSalt | celestine/dimensional_params.py:204-215 | the salt Lewis number through `Dimensional.LewisNumber`: infinite exactly without salt diffusion; `Dimensional.InverseLewisIsDiffusivityRatio` gives its inverse |
| Dimensional.LewisGas | celestine/dimensional_params.py:217-228 | the gas Lewis number through `Dimensional.LewisNumber`: infinite exactly without gas diffusion; `Dimensional.InverseLewisIsDiffusivityRatio` gives its inverse |
| Dimensional.OceanFreezingTemperature | celestine/dimensional_params.py:154-162 | the ocean freezes on the liquidus through the eutectic: `T_i S_E = T_E S_i` |
| Dimensional.TemperatureDifferenceNonZero | celestine/dimensional_params.py:164-171 | `Delta T S_E = -T_E Delta S`, so the temperature scale is non-zero when the eutectic is away from zero and from the ocean salinity |
| Dimensional.ConcentrationRatio | celestine/dimensional_params.py:173-180 | `C Delta S = S_i` |
| Dimensional.StefanNumber | celestine/dimensional_params.py:182-191 | `St c_p Delta T = L` |
| Dimensional.ThermalDiffusivity | celestine/dimensional_params.py:193-202 | `kappa rho_l c_p = k_l` |
| Dimensional.ThermalDiffusivityNonZero | celestine/dimensional_params.py:193-202 | a conducting liquid has a non-zero thermal diffusivity |
| Dimensional.ConductivityRatio | celestine/dimensional_params.py:314-321 | the ratio times the liquid conductivity is the solid conductivity |
| Dimensional.LewisNumber | celestine/dimensional_params.py:204-228 | infinite (`np.inf`) exactly when the species does not diffuse; otherwise `Le D = kappa` |
| Dimensional.InverseLewisIsDiffusivityRatio | celestine/dimensional_params.py:204-228 | the inverse Lewis number the flux laws use is `D / kappa`, zero for a non-diffusing species |
| Dimensional.DamkohlerNumber | celestine/params/dimensional.py:212-219 | `Da tau = L^2 / kappa` |
| Dimensional.DamkohlerIsTimescaleRatio | celestine/params/dimensional.py:212-219 | the thermal timescale in days is Da nucleation timescales converted from seconds |
| Dimensional.TotalTime | celestine/dimensional_params.py:230-236 | the total time times the timescale is the total time in days |
| Dimensional.Savefreq | celestine/dimensional_params.py:238-244 | the save interval times the timescale is the interval in days |
| Dimensional.FrameVelocity | celestine/dimensional_params.py:246-252 | the frame velocity times the velocity scale is the dimensional frame velocity |
| Dimensional.StokesVelocity | celestine/dimensional_params.py:261-266 | `u 3 mu = rho_l g R_0^2` |
| Dimensional.BuoyancyScale | celestine/dimensional_params.py:254-268 | `B kappa = u L`: the Stokes velocity in units of `kappa / L` |
| Dimensional.BubbleRadiusScaled | celestine/dimensional_params.py:270-277 | the scaled radius times the pore radius is the bubble radius |
| Dimensional.RayleighSalt | celestine/dimensional_params.py:297-312 | `Ra_S kappa mu = rho_l g beta Delta S H K_0` |
| Dimensional.GetScales | celestine/dimensional_params.py:413-425 | all eight scales: the domain height, thermal diffusivity, ocean salinity, ocean freezing temperature, gas density and saturation concentration of the description, and salinity and temperature differences that reach the eutectic salinity and temperature from the ocean values |
| Dimensional.ScalesInvertible | celestine/dimensional_params.py:413-425 | a non-degenerate description gives scales every conversion can divide by |
| Dimensional.ScalesFixEutecticAndOcean | celestine/dimensional_params.py:464-500 | on the derived scales the eutectic temperature is -1, the ocean freezing temperature 0, ocean salinity 0 and eutectic salinity 1 |
| Dimensional.LiquidusBecomesMinusSalinity | celestine/dimensional_params.py:154-171 | the dimensional liquidus `T = T_E S / S_E` becomes `T = -S` for every salinity |
| Dimensional.StefanNumberDefined | celestine/dimensional_params.py:182-191 | a non-degenerate description has a Stefan number |
| Dimensional.GetPhysicalParams | celestine/params/dimensional.py:340-353 | the physical parameters obey the chi and C relations, carry the Damkohler number, the supersaturation fraction and the phase-average-conductivity switch; St·ΔT·c_p = L, the frame velocity times the velocity scale is the dimensional frame velocity, and the conductivity ratio is k_s/k_l; each Lewis number is infinite exactly for a non-diffusing species and otherwise κ/D |
| Dimensional.GetDarcyLawParams | celestine/dimensional_params.py:336-356 | defined when the viscosity, height, pore radius, `rho_l c_p` and the liquid conductivity are non-zero; B, the scaled bubble radius and `Ra_S` obey their defining relations; the distribution type, the convection and both coupling switches, the porosity threshold and its value, the pore-throat scaling, the drag exponent, the critical Rayleigh number and the convection strength are copied; the liquid velocity is the default 0 |
| Dimensional.GetBoundaryConditionsConfig | celestine/dimensional_params.py:358-366 | defined when the quantities it divides by are non-zero (saturation concentration, `dT`, `dS`, height); converting each non-dimensional ocean value (gas, temperature, salinity, and the summer ice values) back gives the dimensional input, and each is the scales' non-dimensional conversion of that input |
| Dimensional.GetForcingConfig | celestine/dimensional_params.py:368-380 | defined when `dT` is non-zero; converting the top temperature back gives the dimensional input, and it is the scales' conversion like every temperature; the sinusoid and Barrow settings are copied |
| Dimensional.GetNumericalParams | celestine/dimensional_params.py:382-388 | the cell count, timestep and regularisation are copied |
| Dimensional.GetConfig | celestine/dimensional_params.py:390-411 | the configuration has invertible scales and is made of the parts above, with total time and save interval converted by those scales |
| Dimensional.ConfigRecoversDimensionalValues | celestine/dimensional_params.py:358-411 | the configuration's own scales turn the ocean values, top temperature and run lengths back into the dimensional inputs, map −1 and 1 back to the eutectic temperature and salinity, and give St·ΔT·c_p = L |
| ForcingConversion.GetDimensionlessForcingConfig | celestine/params/convert.py:15-47 | NotImplementedError exactly for an unknown forcing choice; the constant top temperature converts back to the dimensional value; the yearly, Barrow and radiative settings are copied |
| ForcingConversion.ConstantForcingAgrees | celestine/params/convert.py:19-24 | the constant forcing's temperature equals the one `get_forcing_config` computes and the scales' conversion of the input |
| InitialConditionsConversion.GetDimensionlessInitialConditionsConfig | celestine/params/initial_conditions.py:27-50 | NotImplementedError exactly for an unknown initial condition; uniform and Barrow are copied; the summer depth and temperatures convert back to the dimensional inputs |
| InitialConditionsConversion.SummerConversionAgrees | celestine/params/initial_conditions.py:38-48 | the summer values agree with those `get_boundary_conditions_config` produces |

## Left out

- Time integrators and drivers are not modelled. This covers the Lax–Friedrichs, implicit, lagged, semi-explicit, backward-Euler and reduced solvers, `solver.py`, `run_simulation.py` and the `solve_ivp` wrapper. They call `scipy.optimize.root`, `solve_ivp` and dense linear solves, and retry with floating-point CFL estimates. Their building blocks (right-hand side, boundary conditions, storage) are modelled.
- Temperature forcing (cosine forcing, interpolation of the Barrow 2009 record) is not modelled. The top and bottom temperatures enter `BoundaryConditions` as functions of time, and `LegacyBoundaryConditions` takes them as values.
- Internal shortwave heating comes from the external `oilrad` package and is not modelled. It enters `Equations` as a per-cell array that is added only when `SW_internal_heating` is set. In `celestine/equations.py:196-208` the heating is computed in every call and added only under that flag; the model does not compute it when unused, which changes no result.
- The brine-channel sink rate (`calculate_brine_channel_sink`) and the bubble lag-factor laws are not part of this model. They enter `BrineSinks` as the function parameters `ChannelSink` and `LagLaw`. The power-law bubble-distribution quadratures are likewise not part of this model.
- The staged closures of `get_equations` (`celestine/equations/equations.py:37-59`) are not modelled: `Equations` takes the configuration, the fluxes, the sinks and the heating as arguments. The edge fluxes of the newer package (`get_dz_fluxes`) are not part of this model either; the flux divergence is taken from the older `celestine/flux.py` and `spatial.py` assembly.
- Persistence and logging are not modelled: YAML/JSON serialisation, `Solution.save`, `save_storage`, `np.savez`, loading, the logging configuration and the command line. `Params.ThermalCourantWarning` returns whether the warning is logged.
- Floating point is modelled as exact `real` arithmetic:
  - rounding, overflow and IEEE infinities are not modelled;
  - a NaN written to mark an undefined value becomes `None`; the full model's saturation (`FullPhase.Saturation`) is `None` where the discriminant is negative;
  - an infinite Lewis number becomes the `Infinite` variant of `Params.Lewis`.
- Division by zero that numpy would turn into `inf` or `nan` is a precondition: a non-zero Stefan number, `1 + C`, `C - T`, a positive cell count, a non-zero liquid fraction in coupled gas sinks, non-zero scales in the unit conversions, and a non-zero timestep in `Grids.NumberOfTimesteps`. `LegacyBoundaryConditions.FromTempDefined` requires `chi != 1`, a liquid gas fraction `(G - chi)/(1 - chi)` other than 1, and a eutectic enthalpy that differs from the solidus enthalpy, which means `S != -C`. The last excludes fresh water (`S = -C`): there `boundary_conditions.py:31` divides by a numpy zero, `alpha` becomes `inf`, and the source still returns a finite enthalpy, which the model does not cover. Python raises `ZeroDivisionError` for some of these scalar divisions; the model returns that error only in the Barrow and summer layers (`InitialConditions.BarrowLayer`, `InitialConditions.SummerLayer`).
- Square roots, powers and the harmonic mean are function parameters (`sqrt`, `pow`, `hmean`). The laws they are assumed to obey are predicates (`Numerics.IsSqrt`, `Numerics.IsPow`, `BrineDrainage.HmeanNonNegative`, `BrineDrainage.HmeanOfConstant`), and each is required only by the lemmas that need it. Where numpy's square root of a negative discriminant would give NaN, the model's `sqrt` gives an unspecified value, and no balance law is claimed for that cell.
- Python's duck-typed `match` on state classes becomes closed datatypes. `Equations.StateBCs` has an `OtherStateBCs` variant that stands for any other class and yields `NotImplementedError`, as the source's fall-through does.
- `StateStore.InitFromStackedState` returns a new `State`. The class attributes `cls.cfg` and `cls.time` that `celestine/state.py:40-47` also sets are not modelled.
- `StateStore.StateBCs.constructor`: the branch of `celestine/state.py:84-87` for a missing pressure cannot occur, because every `State` holds a pressure (zeros by default).
- `InitialConditions.IceEnthalpy` requires the ice temperature to differ from `C`, where the source would divide by zero in every cell of the layer.
- `SolversCommon.GenerateInitialSolution` imports `calculate_enthalpy_from_temp` from `celestine/boundary_conditions.py`, which does not define it. The model uses the enthalpy-from-temperature inverse of `boundary_conditions.py` (`LegacyBoundaryConditions.EnthalpyFromTemp`).
- The two generations of the parameter code differ. The model follows the newer code where the older one lacks a field:
  - `Scales` has the eight fields of `celestine/dimensional_params.py`. It omits the liquid thermal conductivity that `celestine/params/dimensional.py:408-421` passes.
  - `Dimensional.GetPhysicalParams` passes the tolerable super-saturation fraction and the Damköhler number, as `celestine/params/dimensional.py:340-353` does.
  - `Dimensional.GetConfig` copies the model name, as `celestine/params/dimensional.py:405` does.
  - The summer initial-condition fields are converted as in `celestine/params/initial_conditions.py`.
- Configuration records keep only the fields the modelled code reads. The Darcy-law record drops the wall-drag-law choice, the bubble-distribution power and the bubble radius bounds. The liquid velocity is the default zero.
- `Params.Step` and `LegacyParams.Step` require `I > 0`, where Python raises `ZeroDivisionError`.
- `LegacyBoundaryConditions.EnthalpyFromTemp`: its super-saturated mush branch is the corrected formula `(1-G)(T-St) + (S+C)(T chi + St(1-chi))/(C-T)`, not the one at `boundary_conditions.py:73-76` (see "## Findings"). `MushSuperAsWrittenMisfits` models the formula as written. `SolversCommon.GenerateInitialSolution` and `LegacyBoundaryConditions.ApplyBoundaryConditions` call the corrected inverse, so in a super-saturated mush ghost cell they differ from the source.
- Some call shapes in the source do not match the definitions they call. The model follows one shape for each:
  - `celestine/initial_conditions.py:38,111,157` build `EQMState(cfg, 0, ...)` and `DISEQState(cfg, 0, ...)`, and `celestine/state/equilibrium_state.py:65-68` calls `cls(cfg, time, ...)`. The frozen records of `celestine/state/equilibrium_state.py` and `celestine/state/disequilibrium_state.py` have no configuration field. The model follows the records: `StateRecords.EQMState` holds the time and the primary fields, and the configuration is passed separately.
  - The top-level `enthalpy_method.py` reads `cfg.physical_params` from a `Config`, but `spatial.py:21` passes the flat legacy `Params`. The model's enthalpy methods take only the three numbers they read (`Phase.PhaseParams`: χ, C and St). `Spatial` builds them from the legacy `Params` fields of the same names.
  - `celestine/RJW14/brine_channel_sink_terms.py` defines the sinks with one argument (the padded state, which carries the configuration), and `brine_channel_sink_terms.py` with two (the state and the configuration). `celestine/equations.py:53-60` calls them with three (state, configuration, grids), and `celestine/state.py:106-108` with two. `BrineSinks` takes the padded fields and the configuration and reads the grid from the configuration, which gives the same values under every call shape.
  - `celestine/velocities.py:27` reads `cfg.darcy_law_params.liquid_velocity`, which the `DarcyLawParams` of `celestine/params.py:42-71` does not declare; `plot_gas_velocity.py:25` passes it as a keyword. The model keeps the field, and `Dimensional.GetDarcyLawParams` sets it to 0.
  - `celestine/params/initial_conditions.py:29-30` reads `dimensional_params.scales` and `dimensional_params.initial_conditions_config`, neither of which `celestine/params/dimensional.py` defines. `InitialConditionsConversion.GetDimensionlessInitialConditionsConfig` takes the initial-condition settings as a parameter and uses the scales of `Dimensional.GetScales`.
- `StateStore.TimeLength` and `StateStore.Solution.constructor` require a non-zero save interval, where `celestine/state.py:122` raises `ZeroDivisionError`. The constructor also requires a non-negative number of saves, where `np.zeros` raises `ValueError` for a negative size. Neither error is modelled as a result.
- `StateStore.Solution.AddState` requires `-timeLength <= index < timeLength`, where numpy raises `IndexError` for an index out of range.
- `celestine/initial_conditions.py:7,86,136` import and call `Grids(...).centers`, but `celestine/grids.py` defines no `Grids`. The model uses the centres of `Grids.InitialiseGrids` (`celestine/grids.py:12-18`) instead.
- `LegacyBoundaryConditions.ApplyBoundaryConditions` requires the four arrays to be distinct. Aliased arrays, which the source would accept, are not modelled.
- `FullPhase.Saturation`: the contract gives the liquid, eutectic and solid saturations, and says when the mush value is defined. It does not restate the mush formula, which `FullPhase.IsSubSaturated` and the enthalpy lemmas use.
- `Velocities.CalculateVelocities` and `LegacyVelocities.CalculateVelocities`: the contracts give only the lengths of the three edge arrays. The meaning is in the lemmas about each component velocity.
- `Velocities.GasInterstitialVelocity`: the contract gives only the length. `Velocities.NoBubblesNoGasVelocity` and `Velocities.GasVelocityNonNegative` carry its meaning.
- `Spatial.EnthalpyRHS`, `Spatial.SaltRHS`, `Spatial.GasRHS`, `Spatial.Divergence` and `Spatial.FluxesFrom`: the contracts give lengths. The lemmas of `Spatial` carry their meaning: a uniform column at rest, no salt diffusion at infinite Lewis number, no bubble flux without bubbles, and the zeroed top gas fraction.
- `Grids.Geometric`: the contract gives only the length. `Grids.GeometricBetween` bounds each value.
- `Equations.NucleationRates`: the contract gives only the length. `Equations.NucleationRate` gives each cell's rate.
- `BrineDrainage.Rayleigh`: the contract gives the error case and the length. `BrineDrainage.RayleighAt` and `BrineDrainage.RayleighSigns` give each value.
- `BrineSinks.GasSink` requires, through `BrineSinks.CouplingDefined`, that the chosen lag law return `I + 1` values, one per edge, so that their geometric mean has one value per cell. The source passes the `I` interior liquid fractions (`celestine/RJW14/brine_channel_sink_terms.py:68-70`), and its docstring at line 47 notes a bug in the bubble coupling to the flow. A lag law that works element by element would return `I` values; line 75 would then raise a numpy broadcast `ValueError`, which the model does not return.
- `BrineSinks.GasSink`: when the bubbles are coupled to the horizontal flow, the contract does not give the sink cell by cell. `BrineSinks.UncoupledGasSinkIsDissolvedGasSink` gives it for the uncoupled case.

## Findings

| source | as written | input that shows it | evidently intended | confidence | as-written member | corrected member |
|---|---|---|---|---|---|---|
| boundary_conditions.py:73-76 | the super-saturated mush enthalpy is `(1-G)(T-St) + (S+C)(T chi + 1 - chi) St / (C-T)`, so the Stefan number multiplies the whole bracket, including the `T chi` term | chi = 0.1, C = 1, St = 2, S = 0, G = 0.2, T = -0.5 gives -13/15. The enthalpy method maps that back to a different temperature than -0.5 | `(1-G)(T-St) + (S+C)(T chi + St (1-chi)) / (C-T)`, which gives -5/6 and is the enthalpy the super-saturated mush equation of `enthalpy_method.py` inverts | not executed | LegacyBoundaryConditions.MushSuperAsWrittenMisfits | LegacyBoundaryConditions.EnthalpyFromTempInverts |
