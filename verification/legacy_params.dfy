/**
 * The flat parameter record of the first version of the simulator, with its
 * stability numbers and checks.
 */
module LegacyParams {
  import P = Params

  datatype Params = Params(
    name: string,
    expansionCoefficient: real,
    B: real,
    concentrationRatio: real,
    stefanNumber: real,
    regularisation: real,
    lewisSalt: P.Lewis,
    lewisGas: P.Lewis,
    farGasSat: real,
    farTemp: real,
    I: nat,
    totalTime: real,
    timestep: real,
    savefreq: real,
    solver: string,
    frameVelocity: real,
    poreThroatScaling: real,
    bubbleRadiusScaled: real,
    dragExponent: real,
    liquidVelocity: real,
    temperatureForcingChoice: string,
    constantTopTemperature: real)

  /**
   * Cell width `1/I` of the flat legacy record. The packaged configuration
   * has its own `Params.Step` on `NumericalParams`: the two code generations
   * keep separate parameter records, and so does this model.
   */
  function Step(p: Params): (step: real)
    requires 0 < p.I
    ensures step * p.I as real == 1.0 && 0.0 < step
  {
    1.0 / p.I as real
  }

  /** Diffusion number `timestep / step^2`; must stay below 1/2 for explicit diffusion. */
  function DiffNum(p: Params): real
    requires 0 < p.I
  {
    p.timestep / (Step(p) * Step(p))
  }

  /** Gas Courant number `B * timestep / step`; must stay below 1 for buoyant gas transport. */
  function CourantGas(p: Params): real
    requires 0 < p.I
  {
    p.B * p.timestep / Step(p)
  }

  lemma DiffNumScalesWithCells(p: Params)
    requires 0 < p.I
    ensures DiffNum(p) == p.timestep * (p.I as real * p.I as real)
  {
    var h := Step(p);
    var c := p.I as real;
    assert (h * h) * (c * c) == (h * c) * (h * c);
  }

  lemma CourantGasScalesWithCells(p: Params)
    requires 0 < p.I
    ensures CourantGas(p) == p.B * p.timestep * p.I as real
  {
    var h := Step(p);
    var c := p.I as real;
    assert h * c == 1.0;
    assert (p.B * p.timestep * c) * h == p.B * p.timestep;
  }

  /** True exactly when the gas Courant number `B * timestep * I` exceeds 1. */
  function CheckBuoyancyCFL(p: Params): (violated: bool)
    requires 0 < p.I
    ensures violated <==> p.B * p.timestep * p.I as real > 1.0
  {
    var c := CourantGas(p);
    CourantGasScalesWithCells(p);
    c > 1.0
  }

  /** True exactly when the diffusion number `timestep * I^2` exceeds 1/2. */
  function CheckThermalDiffusionStability(p: Params): (violated: bool)
    requires 0 < p.I
    ensures violated <==> p.timestep * (p.I as real * p.I as real) > 0.5
  {
    var d := DiffNum(p);
    DiffNumScalesWithCells(p);
    d > 0.5
  }
}
