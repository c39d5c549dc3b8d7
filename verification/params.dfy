/**
 * The non-dimensional simulation configuration read by the simulation
 * modules, and the numerical checks made on it.
 */
module Params {
  import opened Wrappers
  import opened Numerics
  import opened Phase
  import Scales

  /** A Lewis number; the source uses `np.inf` when a species does not diffuse. */
  datatype Lewis = Infinite | Finite(value: real)

  /** `1 / lewis`, which is exactly zero for an infinite Lewis number. */
  function InverseLewis(lewis: Lewis): (r: real)
    requires lewis.Finite? ==> lewis.value != 0.0
    ensures lewis.Infinite? ==> r == 0.0
    ensures lewis.Finite? ==> r * lewis.value == 1.0
  {
    match lewis
    case Infinite => 0.0
    case Finite(value) => 1.0 / value
  }

  datatype PhysicalParams = PhysicalParams(
    expansionCoefficient: real,
    concentrationRatio: real,
    stefanNumber: real,
    lewisSalt: Lewis,
    lewisGas: Lewis,
    frameVelocity: real,
    phaseAverageConductivity: bool,
    conductivityRatio: real,
    tolerableSuperSaturationFraction: real,
    damkohlerNumber: real)

  /** The three numbers the phase boundaries depend on. */
  function PhaseParamsOf(p: PhysicalParams): PhaseParams {
    PhaseParams(p.expansionCoefficient, p.concentrationRatio, p.stefanNumber)
  }

  /** Values at the bottom (ocean) boundary and for the initial state. */
  datatype BoundaryConditionsConfig = BoundaryConditionsConfig(
    initialConditionsChoice: string,
    farGasSat: real,
    farTemp: real,
    farBulkSalinity: real,
    initialSummerIceDepth: real,
    initialSummerOceanTemperature: real,
    initialSummerIceTemperature: real)

  /** Parameters of the liquid and gas Darcy velocities and of brine drainage. */
  datatype DarcyLawParams = DarcyLawParams(
    B: real,
    poreThroatScaling: real,
    bubbleSizeDistributionType: string,
    dragExponent: real,
    bubbleRadiusScaled: real,
    porosityThreshold: bool,
    porosityThresholdValue: real,
    brineConvectionParameterisation: bool,
    rayleighSalt: real,
    rayleighCritical: real,
    convectionStrength: real,
    coupleBubbleToHorizontalFlow: bool,
    coupleBubbleToVerticalFlow: bool,
    liquidVelocity: real)

  /** Top (atmospheric) forcing choice and its parameters. */
  datatype ForcingConfig = ForcingConfig(
    temperatureForcingChoice: string,
    constantTopTemperature: real,
    offset: real,
    amplitude: real,
    period: real,
    barrowTopTemperatureDataChoice: string,
    barrowInitialBulkGasInIce: real,
    swInternalHeating: bool)

  datatype NumericalParams = NumericalParams(I: nat, timestep: real, regularisation: real, solver: string)

  datatype Config = Config(
    name: string,
    model: string,
    physical: PhysicalParams,
    boundary: BoundaryConditionsConfig,
    darcy: DarcyLawParams,
    forcing: ForcingConfig,
    numerical: NumericalParams,
    scales: Option<Scales.Scales>,
    totalTime: real,
    savefreq: real)

  /** Cell width of the uniform grid on [-1, 0]. */
  function Step(n: NumericalParams): (step: real)
    requires 0 < n.I
    ensures step * n.I as real == 1.0 && 0.0 < step
  {
    1.0 / n.I as real
  }

  /** Thermal Courant number `timestep / step^2`. */
  function Courant(n: NumericalParams): real
    requires 0 < n.I
  {
    n.timestep / (Step(n) * Step(n))
  }

  /** The Courant number is the timestep times the square of the number of cells. */
  lemma CourantScalesWithCells(n: NumericalParams)
    requires 0 < n.I
    ensures Courant(n) == n.timestep * (n.I as real * n.I as real)
  {
    var h := Step(n);
    var c := n.I as real;
    assert h * c == 1.0;
    assert (h * h) * (c * c) == (h * c) * (h * c);
  }

  /** `check_thermal_Courant_number` logs a warning exactly when the Courant number exceeds 1/2. */
  function ThermalCourantWarning(cfg: Config): (warns: bool)
    requires 0 < cfg.numerical.I
    ensures warns <==> cfg.numerical.timestep * (cfg.numerical.I as real * cfg.numerical.I as real) > 0.5
  {
    var c := Courant(cfg.numerical);
    CourantScalesWithCells(cfg.numerical);
    assert c == cfg.numerical.timestep * (cfg.numerical.I as real * cfg.numerical.I as real);
    c > 0.5
  }

  /** A recorded air temperature is missing when its magnitude exceeds 100. */
  predicate Recorded(t: real) { -100.0 <= t <= 100.0 }

  function CountRecorded(temps: seq<real>): (n: nat)
    ensures n <= |temps|
  {
    if temps == [] then 0 else (if Recorded(temps[0]) then 1 else 0) + CountRecorded(temps[1..])
  }

  /** Counting recorded temperatures distributes over concatenation. */
  lemma {:induction false} CountRecordedAppend(a: seq<real>, b: seq<real>)
    ensures CountRecorded(a + b) == CountRecorded(a) + CountRecorded(b)
  {
    if a != [] {
      assert (a + b)[0] == a[0] && (a + b)[1..] == a[1..] + b;
      CountRecordedAppend(a[1..], b);
    } else {
      assert a + b == b;
    }
  }

  /**
   * Drops the (temperature, day) pairs whose temperature is missing, keeping
   * the order and the pairing of the rest.
   */
  function FilterMissingValues(airTemp: seq<real>, days: seq<real>): (r: (seq<real>, seq<real>))
    requires |airTemp| == |days|
    ensures |r.0| == |r.1| == CountRecorded(airTemp)
    ensures forall k :: 0 <= k < |r.0| ==> Recorded(r.0[k])
  {
    if airTemp == [] then ([], [])
    else
      var rest := FilterMissingValues(airTemp[1..], days[1..]);
      if Recorded(airTemp[0]) then ([airTemp[0]] + rest.0, [days[0]] + rest.1) else rest
  }

  /** Every recorded pair of the input survives the filter, still paired. */
  lemma {:induction false} FilterKeepsRecorded(airTemp: seq<real>, days: seq<real>, i: nat)
    requires |airTemp| == |days| && i < |airTemp| && Recorded(airTemp[i])
    ensures exists k :: (0 <= k < |FilterMissingValues(airTemp, days).0| &&
                         FilterMissingValues(airTemp, days).0[k] == airTemp[i] &&
                         FilterMissingValues(airTemp, days).1[k] == days[i])
  {
    var r := FilterMissingValues(airTemp, days);
    if i == 0 {
      assert r.0[0] == airTemp[0] && r.1[0] == days[0];
    } else {
      var rest := FilterMissingValues(airTemp[1..], days[1..]);
      FilterKeepsRecorded(airTemp[1..], days[1..], i - 1);
      var k :| 0 <= k < |rest.0| && rest.0[k] == airTemp[1..][i - 1] && rest.1[k] == days[1..][i - 1];
      if Recorded(airTemp[0]) {
        assert r.0[k + 1] == rest.0[k] && r.1[k + 1] == rest.1[k];
      } else {
        assert r == rest;
      }
    }
  }

  /** Every pair the filter returns is a pair of the input. */
  lemma {:induction false} FilterOnlyFromInput(airTemp: seq<real>, days: seq<real>, k: nat)
    requires |airTemp| == |days| && k < |FilterMissingValues(airTemp, days).0|
    ensures exists i :: (0 <= i < |airTemp| &&
                         airTemp[i] == FilterMissingValues(airTemp, days).0[k] &&
                         days[i] == FilterMissingValues(airTemp, days).1[k])
  {
    var r := FilterMissingValues(airTemp, days);
    var rest := FilterMissingValues(airTemp[1..], days[1..]);
    if Recorded(airTemp[0]) && k == 0 {
      assert airTemp[0] == r.0[0] && days[0] == r.1[0];
    } else {
      var k' := if Recorded(airTemp[0]) then k - 1 else k;
      assert r.0[k] == rest.0[k'] && r.1[k] == rest.1[k'];
      FilterOnlyFromInput(airTemp[1..], days[1..], k');
      var i :| 0 <= i < |airTemp[1..]| && airTemp[1..][i] == rest.0[k'] && days[1..][i] == rest.1[k'];
      assert airTemp[i + 1] == r.0[k] && days[i + 1] == r.1[k];
    }
  }

  /**
   * The filter works piece by piece: filtering two aligned stretches one
   * after the other gives the filtered first stretch followed by the
   * filtered second, so the kept pairs stay in their input order.
   */
  lemma {:induction false} FilterAppend(a1: seq<real>, d1: seq<real>, a2: seq<real>, d2: seq<real>)
    requires |a1| == |d1| && |a2| == |d2|
    ensures FilterMissingValues(a1 + a2, d1 + d2) ==
      (FilterMissingValues(a1, d1).0 + FilterMissingValues(a2, d2).0,
       FilterMissingValues(a1, d1).1 + FilterMissingValues(a2, d2).1)
  {
    if a1 == [] {
      assert a1 + a2 == a2 && d1 + d2 == d2;
      var r2 := FilterMissingValues(a2, d2);
      assert FilterMissingValues(a1, d1) == ([], []);
      assert [] + r2.0 == r2.0 && [] + r2.1 == r2.1;
    } else {
      assert (a1 + a2)[0] == a1[0] && (d1 + d2)[0] == d1[0];
      assert (a1 + a2)[1..] == a1[1..] + a2 && (d1 + d2)[1..] == d1[1..] + d2;
      FilterAppend(a1[1..], d1[1..], a2, d2);
      var r1, r2 := FilterMissingValues(a1[1..], d1[1..]), FilterMissingValues(a2, d2);
      if Recorded(a1[0]) {
        assert [a1[0]] + (r1.0 + r2.0) == ([a1[0]] + r1.0) + r2.0;
        assert [d1[0]] + (r1.1 + r2.1) == ([d1[0]] + r1.1) + r2.1;
      }
    }
  }

  /** A single pair is kept exactly when its temperature is recorded. */
  lemma FilterSingle(t: real, d: real)
    ensures FilterMissingValues([t], [d]) == if Recorded(t) then ([t], [d]) else ([], [])
  {
    assert [t][1..] == [] && [d][1..] == [];
    assert FilterMissingValues([t][1..], [d][1..]) == ([], []);
    assert [t] + [] == [t] && [d] + [] == [d];
  }
}
