/**
 * The initial state of a simulation: a uniform liquid column at the
 * far-field values, or a column with an ice layer of given depth on top of
 * the ocean (the Barrow 2009 field study and an idealised summer case).
 */
module InitialConditions {
  import opened Wrappers
  import opened Numerics
  import opened Phase
  import RE = ReducedEnthalpy
  import P = Params
  import Sc = Scales
  import Grids
  import BC = BoundaryConditions
  import SR = StateRecords

  /** Initial enthalpy, bulk salinity and bulk gas on the cell centres. */
  datatype Profile = Profile(enthalpy: seq<real>, salt: seq<real>, gas: seq<real>)

  predicate ProfileShaped(pr: Profile, cells: nat) {
    |pr.enthalpy| == cells && |pr.salt| == cells && |pr.gas| == cells
  }

  // ---------------------------------------------------------------------
  // The state of the configured gas model
  // ---------------------------------------------------------------------

  function Time(st: SR.State): real {
    match st
    case EQM(s) => s.time
    case DISEQ(s) => s.time
  }

  function Enthalpy(st: SR.State): seq<real> {
    match st
    case EQM(s) => s.enthalpy
    case DISEQ(s) => s.enthalpy
  }

  function Salt(st: SR.State): seq<real> {
    match st
    case EQM(s) => s.salt
    case DISEQ(s) => s.salt
  }

  /** Total gas of a state: the EQM bulk gas, or the DISEQ dissolved gas plus gas fraction. */
  function BulkGas(st: SR.State): seq<real>
    requires st.DISEQ? ==> |st.diseq.bulkDissolvedGas| == |st.diseq.gasFraction|
  {
    match st
    case EQM(s) => s.gas
    case DISEQ(s) => s.Gas()
  }

  /**
   * The state at time zero of the configured model. Both models start from
   * the same enthalpy, salt and total gas; the DISEQ model starts with all of
   * its gas dissolved. Any other model is a `TypeError`.
   */
  function StateOf(cfg: P.Config, pr: Profile, profileName: string): (r: Result<SR.State>)
    requires |pr.gas| == |pr.salt|
    ensures r.Err? <==> cfg.model != "EQM" && cfg.model != "DISEQ"
    ensures r.Err? ==> r.error.TypeError?
    ensures r.Ok? ==> (r.value.EQM? <==> cfg.model == "EQM")
    ensures r.Ok? && r.value.DISEQ? ==> |r.value.diseq.bulkDissolvedGas| == |r.value.diseq.gasFraction| &&
                                        r.value.diseq.gasFraction == Zeros(|pr.gas|)
    ensures r.Ok? ==> Time(r.value) == 0.0 && Enthalpy(r.value) == pr.enthalpy && Salt(r.value) == pr.salt &&
                      BulkGas(r.value) == pr.gas
  {
    if cfg.model == "EQM" then
      Ok(SR.EQM(SR.EQMState(0.0, pr.enthalpy, pr.salt, pr.gas)))
    else if cfg.model == "DISEQ" then
      var s := SR.DISEQState(0.0, pr.enthalpy, pr.salt, pr.gas, Zeros(|pr.gas|));
      assert s.Gas() == pr.gas by {
        assert forall i :: 0 <= i < |pr.gas| ==> s.Gas()[i] == pr.gas[i] + 0.0;
      }
      Ok(SR.DISEQ(s))
    else
      Err(TypeError("Cannot provide " + profileName + " initial condition for model choice"))
  }

  // ---------------------------------------------------------------------
  // The uniform liquid column
  // ---------------------------------------------------------------------

  /** The far-field bulk gas: the saturated dissolved gas content `chi * far_gas_sat`. */
  function FarBulkGas(cfg: P.Config): real {
    cfg.boundary.farGasSat * cfg.physical.expansionCoefficient
  }

  /**
   * Every cell holds the far-field temperature (the enthalpy of a liquid),
   * the far-field bulk salinity and the far-field bulk gas.
   */
  function UniformProfile(cfg: P.Config): (pr: Profile)
    ensures ProfileShaped(pr, cfg.numerical.I)
    ensures forall i :: 0 <= i < cfg.numerical.I ==>
              pr.enthalpy[i] == cfg.boundary.farTemp && pr.salt[i] == cfg.boundary.farBulkSalinity &&
              pr.gas[i] == FarBulkGas(cfg)
  {
    var n := cfg.numerical.I;
    Profile(Fill(n, cfg.boundary.farTemp), Fill(n, cfg.boundary.farBulkSalinity), Fill(n, FarBulkGas(cfg)))
  }

  /**
   * The uniform column is in step with its ocean boundary: the bottom ghost
   * value of the enthalpy, salt and gas boundary conditions equals every
   * cell, so nothing is fed in from below at the start.
   */
  lemma UniformMatchesOcean(cfg: P.Config, i: nat)
    requires i < cfg.numerical.I
    ensures var pr := UniformProfile(cfg);
            BC.EnthalpyBCs(pr.enthalpy, cfg)[0] == pr.enthalpy[i] &&
            BC.SaltBCs(pr.salt, cfg)[0] == pr.salt[i] &&
            BC.GasBCs(pr.gas, cfg)[0] == pr.gas[i]
  {
    var pr := UniformProfile(cfg);
    assert pr.gas[i] == cfg.boundary.farGasSat * cfg.physical.expansionCoefficient;
  }

  // ---------------------------------------------------------------------
  // An ice layer over the ocean
  // ---------------------------------------------------------------------

  /** A point of the column lies in the ice layer of depth `depth` when it is above `-depth`. */
  predicate InIce(depth: real, z: real) {
    z > -depth
  }

  /** `apply_value_in_ice_layer`: the ice value in the ice layer, the liquid value below it. */
  function ApplyValueInIceLayer(depth: real, ice: seq<real>, liquid: seq<real>, grid: seq<real>): (r: seq<real>)
    requires |ice| == |grid| && |liquid| == |grid|
    ensures |r| == |grid|
    ensures forall i :: 0 <= i < |grid| && InIce(depth, grid[i]) ==> r[i] == ice[i]
    ensures forall i :: 0 <= i < |grid| && !InIce(depth, grid[i]) ==> r[i] == liquid[i]
  {
    seq(|grid|, i requires 0 <= i < |grid| => if InIce(depth, grid[i]) then ice[i] else liquid[i])
  }

  /**
   * On the simulation grid the ice layer is the top of the column: a cell
   * above an ice cell is ice too.
   */
  lemma IceLayerOnTop(cells: nat, depth: real, i: nat, j: nat)
    requires i <= j < cells && InIce(depth, Grids.InitialiseGrids(cells).centers[i])
    ensures InIce(depth, Grids.InitialiseGrids(cells).centers[j])
  {
    Grids.CentresInside(cells, i, j);
  }

  /** A layer of no depth leaves the whole column liquid; a layer of full depth makes it all ice. */
  lemma IceLayerExtremes(cells: nat, depth: real, ice: seq<real>, liquid: seq<real>)
    requires 0 < cells && |ice| == cells && |liquid| == cells
    ensures var c := Grids.InitialiseGrids(cells).centers;
            (depth <= 0.0 ==> ApplyValueInIceLayer(depth, ice, liquid, c) == liquid) &&
            (1.0 <= depth ==> ApplyValueInIceLayer(depth, ice, liquid, c) == ice)
  {
    var c := Grids.InitialiseGrids(cells).centers;
    var r := ApplyValueInIceLayer(depth, ice, liquid, c);
    forall i | 0 <= i < cells
      ensures depth <= 0.0 ==> r[i] == liquid[i]
      ensures 1.0 <= depth ==> r[i] == ice[i]
    {
      Grids.CentresInside(cells, i, i);
    }
  }

  /** Mushy-layer solid fraction at temperature `t` and bulk salinity `s`: `(s + t) / (t - C)`. */
  function MushSolidFraction(p: PhaseParams, t: real, s: real): (phi: real)
    requires t != p.C
    ensures phi * (t - p.C) == s + t
  {
    (s + t) / (t - p.C)
  }

  /** Enthalpy of mushy ice: sensible heat less the latent heat of its solid fraction. */
  function IceEnthalpy(p: PhaseParams, t: real, s: real): (h: real)
    requires t != p.C
    ensures h + MushSolidFraction(p, t, s) * p.St == t
  {
    t - MushSolidFraction(p, t, s) * p.St
  }

  /**
   * The initial ice enthalpy inverts the enthalpy method: for ice colder than
   * the concentration ratio and salt above `-C`, the mushy-layer solid
   * fraction the enthalpy method solves for is the one the ice was built
   * with, and so the temperature it recovers is `t`.
   */
  lemma IceEnthalpyInverts(p: PhaseParams, sqrt: real -> real, t: real, s: real)
    requires IsSqrt(sqrt) && 0.0 < p.St && t < p.C && -p.C <= s
    ensures var h := IceEnthalpy(p, t, s);
            var phi := MushSolidFraction(p, t, s);
            phi <= 1.0 &&
            RE.MushSolidFraction(p, sqrt, h, s) == phi &&
            RE.TemperatureIn(p, h, phi, Mush) == t
  {
    var h := IceEnthalpy(p, t, s);
    var phi := MushSolidFraction(p, t, s);
    var d := t - p.C;
    assert phi <= 1.0 by {
      if phi > 1.0 {
        MulStrict(1.0, phi, p.C - t);
      }
    }
    assert h == t - phi * p.St;
    assert RE.MushQuadratic(p, h, s, phi) == 0.0 by {
      assert RE.MushQuadratic(p, h, s, phi) == phi * d - (s + t);
    }
    MulMonotone(phi, 1.0, p.St);
    assert -RE.QuadB(p, h) - 2.0 * RE.QuadA(p) * phi == (p.C - t) + (p.St - p.St * phi);
    RE.MushRootIs(p, sqrt, h, s, phi);
  }

  /** The values an ice-layer profile takes above and below the interface. */
  datatype Layer = Layer(
    depth: real,
    saltInIce: real, tempInIce: real, gasInIce: real,
    bottomSalt: real, bottomTemp: real, bottomGas: real)

  /**
   * A column with an ice layer on top: in ice cells the layer's salt and gas
   * and the mushy-ice enthalpy at the ice temperature; in liquid cells the
   * ocean's salt and gas and the ocean temperature as enthalpy.
   */
  function LayeredProfile(p: PhaseParams, cells: nat, l: Layer): (pr: Profile)
    requires 0 < cells && l.tempInIce != p.C
    ensures ProfileShaped(pr, cells)
    ensures forall i :: 0 <= i < cells && InIce(l.depth, Grids.InitialiseGrids(cells).centers[i]) ==>
              pr.salt[i] == l.saltInIce && pr.gas[i] == l.gasInIce &&
              pr.enthalpy[i] == IceEnthalpy(p, l.tempInIce, l.saltInIce)
    ensures forall i :: 0 <= i < cells && !InIce(l.depth, Grids.InitialiseGrids(cells).centers[i]) ==>
              pr.salt[i] == l.bottomSalt && pr.gas[i] == l.bottomGas && pr.enthalpy[i] == l.bottomTemp
  {
    var c := Grids.InitialiseGrids(cells).centers;
    var salt := ApplyValueInIceLayer(l.depth, Fill(cells, l.saltInIce), Fill(cells, l.bottomSalt), c);
    var gas := ApplyValueInIceLayer(l.depth, Fill(cells, l.gasInIce), Fill(cells, l.bottomGas), c);
    var temp := ApplyValueInIceLayer(l.depth, Fill(cells, l.tempInIce), Fill(cells, l.bottomTemp), c);
    var enthalpy := ApplyValueInIceLayer(l.depth, Fill(cells, IceEnthalpy(p, l.tempInIce, l.saltInIce)), temp, c);
    Profile(enthalpy, salt, gas)
  }

  // ---------------------------------------------------------------------
  // Barrow 2009 and summer ice layers
  // ---------------------------------------------------------------------

  /** Initial ice thickness of the Barrow 2009 study, in m. */
  const BarrowIceDepth: real := 0.7
  /** Bulk salinity of the initial ice, in g/kg. */
  const InitialIceSalinity: real := 5.92
  /** Ocean temperature of the Barrow 2009 study, in deg C. */
  const BarrowOceanTemperature: real := -1.8
  /** Initial ice temperature of the Barrow 2009 study, in deg C. */
  const BarrowIceTemperature: real := -8.15

  /** The dimensional scales every layered profile reads; a configuration without them has no such attribute. */
  function ScalesOf(cfg: P.Config): (r: Result<Sc.Scales>)
    ensures r.Ok? <==> cfg.scales.Some?
    ensures r.Ok? ==> r.value == cfg.scales.value
  {
    if cfg.scales.Some? then Ok(cfg.scales.value) else Err(AttributeError("scales"))
  }

  /**
   * Salt in the initial Barrow ice: with brine convection the ice will
   * desalinate on its own, so it starts at the ocean's bulk salinity;
   * otherwise at 5.92 g/kg.
   */
  function BarrowSaltInIce(cfg: P.Config, sc: Sc.Scales): (r: Result<real>)
    ensures cfg.darcy.brineConvectionParameterisation ==> r == Ok(cfg.boundary.farBulkSalinity)
    ensures !cfg.darcy.brineConvectionParameterisation ==>
              (r.Err? <==> sc.salinityDifference == 0.0) &&
              (r.Ok? ==> Sc.ToDimensionalBulkSalinity(sc, r.value) == InitialIceSalinity)
    ensures r.Err? ==> r.error == ZeroDivisionError
  {
    if cfg.darcy.brineConvectionParameterisation then Ok(cfg.boundary.farBulkSalinity)
    else if sc.salinityDifference == 0.0 then Err(ZeroDivisionError)
    else Ok(Sc.FromDimensionalBulkSalinity(sc, InitialIceSalinity))
  }

  /** The Barrow ice temperature is usable as the ice temperature of a layer: it differs from C. */
  predicate BarrowIceAdmissible(cfg: P.Config) {
    cfg.scales.Some? && cfg.scales.value.temperatureDifference != 0.0 ==>
      Sc.FromDimensionalTemperature(cfg.scales.value, BarrowIceTemperature) != cfg.physical.concentrationRatio
  }

  /**
   * The Barrow 2009 layer: 0.7 m of ice at -8.15 deg C over a -1.8 deg C
   * ocean at the far-field bulk salinity; the ice holds the configured
   * initial bulk gas and the ocean is saturated. Every non-dimensionalisation
   * by a zero scale, and a grid of no cells, is a `ZeroDivisionError`.
   */
  function BarrowLayer(cfg: P.Config): (r: Result<Layer>)
    requires BarrowIceAdmissible(cfg)
    ensures r.Err? <==> cfg.scales.None? ||
                        cfg.scales.value.lengthscale == 0.0 ||
                        (!cfg.darcy.brineConvectionParameterisation && cfg.scales.value.salinityDifference == 0.0) ||
                        cfg.scales.value.temperatureDifference == 0.0 ||
                        cfg.numerical.I == 0
    ensures r.Err? ==> r.error == (if cfg.scales.None? then AttributeError("scales") else ZeroDivisionError)
    ensures r.Ok? ==> var sc := cfg.scales.value;
                      var l := r.value;
                      Sc.ToDimensionalGrid(sc, l.depth) == BarrowIceDepth &&
                      Sc.ToDimensionalTemperature(sc, l.tempInIce) == BarrowIceTemperature &&
                      Sc.ToDimensionalTemperature(sc, l.bottomTemp) == BarrowOceanTemperature &&
                      BarrowSaltInIce(cfg, sc) == Ok(l.saltInIce) &&
                      l.bottomSalt == cfg.boundary.farBulkSalinity &&
                      l.gasInIce == cfg.forcing.barrowInitialBulkGasInIce * cfg.physical.expansionCoefficient &&
                      l.bottomGas == FarBulkGas(cfg) &&
                      l.tempInIce != cfg.physical.concentrationRatio
  {
    match ScalesOf(cfg)
    case Err(e) => Err(e)
    case Ok(sc) =>
      if sc.lengthscale == 0.0 then Err(ZeroDivisionError)
      else
        var depth := Sc.FromDimensionalGrid(sc, BarrowIceDepth);
        match BarrowSaltInIce(cfg, sc)
        case Err(e) => Err(e)
        case Ok(saltInIce) =>
          if sc.temperatureDifference == 0.0 || cfg.numerical.I == 0 then Err(ZeroDivisionError)
          else
            var chi := cfg.physical.expansionCoefficient;
            Ok(Layer(depth,
                     saltInIce, Sc.FromDimensionalTemperature(sc, BarrowIceTemperature),
                     cfg.forcing.barrowInitialBulkGasInIce * chi,
                     cfg.boundary.farBulkSalinity, Sc.FromDimensionalTemperature(sc, BarrowOceanTemperature),
                     FarBulkGas(cfg)))
  }

  /**
   * The idealised summer layer: ice of the configured depth and
   * temperature, at 5.92 g/kg, over an ocean at the configured temperature
   * and the far-field bulk salinity, with no gas anywhere.
   */
  function SummerLayer(cfg: P.Config): (r: Result<Layer>)
    requires cfg.boundary.initialSummerIceTemperature != cfg.physical.concentrationRatio
    ensures r.Err? <==> cfg.scales.None? || cfg.scales.value.salinityDifference == 0.0 || cfg.numerical.I == 0
    ensures r.Err? ==> r.error == (if cfg.scales.None? then AttributeError("scales") else ZeroDivisionError)
    ensures r.Ok? ==> var l := r.value;
                      l.depth == cfg.boundary.initialSummerIceDepth &&
                      Sc.ToDimensionalBulkSalinity(cfg.scales.value, l.saltInIce) == InitialIceSalinity &&
                      l.tempInIce == cfg.boundary.initialSummerIceTemperature &&
                      l.bottomTemp == cfg.boundary.initialSummerOceanTemperature &&
                      l.bottomSalt == cfg.boundary.farBulkSalinity &&
                      l.gasInIce == 0.0 && l.bottomGas == 0.0
  {
    match ScalesOf(cfg)
    case Err(e) => Err(e)
    case Ok(sc) =>
      if sc.salinityDifference == 0.0 || cfg.numerical.I == 0 then Err(ZeroDivisionError)
      else
        Ok(Layer(cfg.boundary.initialSummerIceDepth,
                 Sc.FromDimensionalBulkSalinity(sc, InitialIceSalinity), cfg.boundary.initialSummerIceTemperature, 0.0,
                 cfg.boundary.farBulkSalinity, cfg.boundary.initialSummerOceanTemperature, 0.0))
  }

  /** The summer column holds no gas at all. */
  lemma SummerHasNoGas(cfg: P.Config)
    requires cfg.boundary.initialSummerIceTemperature != cfg.physical.concentrationRatio
    requires SummerLayer(cfg).Ok?
    ensures LayeredProfile(P.PhaseParamsOf(cfg.physical), cfg.numerical.I, SummerLayer(cfg).value).gas
            == Zeros(cfg.numerical.I)
  {
    var n := cfg.numerical.I;
    var l := SummerLayer(cfg).value;
    var c := Grids.InitialiseGrids(n).centers;
    var gas := LayeredProfile(P.PhaseParamsOf(cfg.physical), n, l).gas;
    forall i | 0 <= i < n ensures gas[i] == 0.0 {
      if InIce(l.depth, c[i]) {
        assert gas[i] == l.gasInIce;
      } else {
        assert gas[i] == l.bottomGas;
      }
    }
  }

  // ---------------------------------------------------------------------
  // Dispatch
  // ---------------------------------------------------------------------

  function LayeredState(cfg: P.Config, l: Result<Layer>, profileName: string): (r: Result<SR.State>)
    requires l.Ok? ==> 0 < cfg.numerical.I && l.value.tempInIce != cfg.physical.concentrationRatio
    ensures l.Err? ==> r == Err(l.error)
    ensures l.Ok? ==> r == StateOf(cfg, LayeredProfile(P.PhaseParamsOf(cfg.physical), cfg.numerical.I, l.value), profileName)
  {
    match l
    case Err(e) => Err(e)
    case Ok(layer) => StateOf(cfg, LayeredProfile(P.PhaseParamsOf(cfg.physical), cfg.numerical.I, layer), profileName)
  }

  /**
   * `get_initial_conditions`: the uniform, Barrow 2009 or summer initial
   * state by the configured choice; any other choice is a `KeyError`.
   */
  function GetInitialConditions(cfg: P.Config): (r: Result<SR.State>)
    requires cfg.boundary.initialConditionsChoice == "barrow_2009" ==> BarrowIceAdmissible(cfg)
    requires cfg.boundary.initialConditionsChoice == "summer" ==>
               cfg.boundary.initialSummerIceTemperature != cfg.physical.concentrationRatio
    ensures var choice := cfg.boundary.initialConditionsChoice;
            choice != "uniform" && choice != "barrow_2009" && choice != "summer" ==> r == Err(KeyError(choice))
    ensures cfg.boundary.initialConditionsChoice == "uniform" ==> r == StateOf(cfg, UniformProfile(cfg), "uniform")
    ensures cfg.boundary.initialConditionsChoice == "barrow_2009" ==> r == LayeredState(cfg, BarrowLayer(cfg), "barrow")
    ensures cfg.boundary.initialConditionsChoice == "summer" ==> r == LayeredState(cfg, SummerLayer(cfg), "summer")
    ensures r.Ok? ==> Time(r.value) == 0.0 && |Enthalpy(r.value)| == cfg.numerical.I
  {
    var choice := cfg.boundary.initialConditionsChoice;
    if choice == "uniform" then StateOf(cfg, UniformProfile(cfg), "uniform")
    else if choice == "barrow_2009" then LayeredState(cfg, BarrowLayer(cfg), "barrow")
    else if choice == "summer" then LayeredState(cfg, SummerLayer(cfg), "summer")
    else Err(KeyError(choice))
  }
}
