/**
 * Assembly of the right-hand side of the semi-discrete equations: the
 * divergence of the edge fluxes, the brine-channel sinks, gas nucleation and
 * (optionally) internal shortwave heating, stacked block by block for the
 * equilibrium (EQM: enthalpy, salt, bulk gas) and disequilibrium (DISEQ:
 * enthalpy, salt, bulk dissolved gas, gas fraction) models.
 *
 * The edge fluxes of each species, the velocities and the shortwave heating
 * are computed by code outside this model and enter as parameters.
 */
module Equations {
  import opened Wrappers
  import opened Numerics
  import P = Params
  import BS = BrineSinks

  /**
   * A state with its ghost cells filled in. The equilibrium and
   * disequilibrium variants carry their own gas variables; any other state
   * type is not supported by the assembly.
   */
  datatype StateBCs =
    | EQMStateBCs(cfg: P.Config, enthalpy: seq<real>, salt: seq<real>, gas: seq<real>,
                  temperature: seq<real>, liquidSalinity: seq<real>, dissolvedGas: seq<real>,
                  gasFraction: seq<real>, liquidFraction: seq<real>)
    | DISEQStateBCs(cfg: P.Config, enthalpy: seq<real>, salt: seq<real>, bulkDissolvedGas: seq<real>,
                    temperature: seq<real>, liquidSalinity: seq<real>, dissolvedGas: seq<real>,
                    gasFraction: seq<real>, liquidFraction: seq<real>)
    | OtherStateBCs(cfg: P.Config, enthalpy: seq<real>, salt: seq<real>,
                    temperature: seq<real>, liquidSalinity: seq<real>, dissolvedGas: seq<real>,
                    gasFraction: seq<real>, liquidFraction: seq<real>)
  {
    /** Number of cells. */
    function Cells(): nat { cfg.numerical.I }

    /** Every field lies on the ghost grid of the configuration. */
    predicate Shaped() {
      BS.Padded(cfg, enthalpy) && BS.Padded(cfg, salt) && BS.Padded(cfg, temperature) &&
      BS.Padded(cfg, liquidSalinity) && BS.Padded(cfg, dissolvedGas) &&
      BS.Padded(cfg, gasFraction) && BS.Padded(cfg, liquidFraction) &&
      (EQMStateBCs? ==> BS.Padded(cfg, gas)) &&
      (DISEQStateBCs? ==> BS.Padded(cfg, bulkDissolvedGas))
    }

    /** Number of stacked equations per cell: 3 for EQM, 4 for DISEQ. */
    function Blocks(): nat { if DISEQStateBCs? then 4 else 3 }
  }

  // ---------------------------------------------------------------------
  // Gas-rise filter
  // ---------------------------------------------------------------------

  /** Gas plus solid fill the cell: `gas_fraction + (1 - liquid_fraction) >= 1`. */
  predicate FullCell(gasFraction: real, liquidFraction: real) {
    gasFraction + (1.0 - liquidFraction) >= 1.0
  }

  /**
   * The gas velocity with bubble rise stopped on every edge below a full
   * cell, except the top edge, through which gas always leaves.
   */
  function GasRiseFiltered(vg: seq<real>, gasFraction: seq<real>, liquidFraction: seq<real>): (r: seq<real>)
    requires 1 <= |vg| && |gasFraction| == |liquidFraction| == |vg| + 1
    ensures |r| == |vg|
    ensures r[|vg| - 1] == vg[|vg| - 1]
    ensures forall i :: 0 <= i < |vg| - 1 ==>
              (liquidFraction[i + 1] <= gasFraction[i + 1] ==> r[i] == 0.0) &&
              (gasFraction[i + 1] < liquidFraction[i + 1] ==> r[i] == vg[i])
    ensures forall i :: 0 <= i < |r| ==> r[i] == vg[i] || r[i] == 0.0
  {
    seq(|vg|, i requires 0 <= i < |vg| =>
      if i < |vg| - 1 && FullCell(gasFraction[i + 1], liquidFraction[i + 1]) then 0.0 else vg[i])
  }

  /** Filtering twice filters no more than filtering once. */
  lemma GasRiseFilterIdempotent(vg: seq<real>, gasFraction: seq<real>, liquidFraction: seq<real>)
    requires 1 <= |vg| && |gasFraction| == |liquidFraction| == |vg| + 1
    ensures var once := GasRiseFiltered(vg, gasFraction, liquidFraction);
            GasRiseFiltered(once, gasFraction, liquidFraction) == once
  {
    var once := GasRiseFiltered(vg, gasFraction, liquidFraction);
    var twice := GasRiseFiltered(once, gasFraction, liquidFraction);
    forall i | 0 <= i < |vg| ensures twice[i] == once[i] {
      if i < |vg| - 1 && liquidFraction[i + 1] <= gasFraction[i + 1] {
        assert once[i] == 0.0;
      }
    }
  }

  /**
   * `_prevent_gas_rise_into_saturated_cell`: the masked copy of the gas
   * velocity, then its top entry written back from the input.
   */
  method PreventGasRiseIntoSaturatedCell(vg: seq<real>, s: StateBCs) returns (r: seq<real>)
    requires s.Shaped() && |vg| == s.Cells() + 1
    ensures r == GasRiseFiltered(vg, s.gasFraction, s.liquidFraction)
  {
    var n := |vg|;
    var filtered := new real[n](i requires 0 <= i < n =>
      if FullCell(s.gasFraction[i + 1], s.liquidFraction[i + 1]) then 0.0 else vg[i]);
    filtered[n - 1] := vg[n - 1];
    r := filtered[..];
  }

  // ---------------------------------------------------------------------
  // Nucleation
  // ---------------------------------------------------------------------

  /**
   * Nucleation rate in one cell: bubbles nucleate at `Da` times the
   * supersaturation when the bulk dissolved gas exceeds the saturation
   * `chi * liquid_fraction`, and otherwise dissolve at `Da` times the gas
   * fraction.
   */
  function NucleationRate(chi: real, da: real, bulkDissolvedGas: real, liquidFraction: real,
                          gasFraction: real): (n: real)
    ensures 0.0 < da && chi * liquidFraction < bulkDissolvedGas ==> 0.0 < n
    ensures 0.0 <= da && 0.0 <= gasFraction && bulkDissolvedGas <= chi * liquidFraction ==> n <= 0.0
    ensures da == 0.0 ==> n == 0.0
  {
    var saturation := chi * liquidFraction;
    if bulkDissolvedGas > saturation then
      ProductSigns(da, bulkDissolvedGas - saturation);
      da * (bulkDissolvedGas - saturation)
    else
      ProductSigns(da, gasFraction);
      -da * gasFraction
  }

  lemma ProductSigns(a: real, b: real)
    ensures 0.0 <= a && 0.0 <= b ==> 0.0 <= a * b
    ensures 0.0 < a && 0.0 < b ==> 0.0 < a * b
  {
    if 0.0 <= a && 0.0 <= b {
      MulMonotone(0.0, b, a);
      if 0.0 < a && 0.0 < b { MulStrict(0.0, b, a); }
    }
  }

  /** The nucleation rate of every cell of a disequilibrium state. */
  function NucleationRates(s: StateBCs): (n: seq<real>)
    requires s.DISEQStateBCs? && s.Shaped()
    ensures |n| == s.Cells()
  {
    var chi := s.cfg.physical.expansionCoefficient;
    var da := s.cfg.physical.damkohlerNumber;
    seq(s.Cells(), i requires 0 <= i < s.Cells() =>
      NucleationRate(chi, da, s.bulkDissolvedGas[i + 1], s.liquidFraction[i + 1], s.gasFraction[i + 1]))
  }

  /**
   * The nucleation source of every equation: nothing for the equilibrium
   * model; for the disequilibrium model the nucleated gas leaves the
   * dissolved gas and joins the gas fraction, so the two sources cancel in
   * every cell. Other state types are not supported.
   */
  function Nucleation(s: StateBCs): (r: Result<seq<real>>)
    requires s.Shaped()
    ensures r.Err? <==> s.OtherStateBCs?
    ensures r.Err? ==> r.error == NotImplementedError
    ensures s.EQMStateBCs? ==> r == Ok(Zeros(3 * s.Cells()))
    ensures s.DISEQStateBCs? ==> |r.value| == 4 * s.Cells() && r.value[..2 * s.Cells()] == Zeros(2 * s.Cells())
    ensures s.DISEQStateBCs? ==> r.value[2 * s.Cells()..3 * s.Cells()] == Neg(NucleationRates(s)) &&
                                 r.value[3 * s.Cells()..] == NucleationRates(s)
  {
    var zeros := Zeros(s.Cells());
    match s
    case EQMStateBCs(_, _, _, _, _, _, _, _, _) =>
      assert zeros + zeros + zeros == Zeros(3 * s.Cells());
      Ok(zeros + zeros + zeros)
    case DISEQStateBCs(_, _, _, _, _, _, _, _, _) =>
      var n := NucleationRates(s);
      var r := zeros + zeros + Neg(n) + n;
      assert r[..2 * s.Cells()] == Zeros(2 * s.Cells());
      assert r[2 * s.Cells()..3 * s.Cells()] == Neg(n);
      assert r[3 * s.Cells()..] == n;
      Ok(r)
    case OtherStateBCs(_, _, _, _, _, _, _, _) => Err(NotImplementedError)
  }

  // ---------------------------------------------------------------------
  // Brine-channel sinks, flux divergence and heating, by model variant
  // ---------------------------------------------------------------------

  /** What the sinks of a state need: a sink rate per cell and, when bubbles are coupled, a usable lag law. */
  predicate SinksDefined(s: StateBCs, channel: BS.ChannelSink, monoLag: BS.LagLaw, powerLawLag: BS.LagLaw)
    requires s.Shaped()
  {
    BS.RateShaped(s.cfg, s.liquidFraction, s.liquidSalinity, channel) &&
    (s.cfg.darcy.brineConvectionParameterisation && s.cfg.darcy.coupleBubbleToHorizontalFlow ==>
       BS.CouplingDefined(s.cfg, s.liquidFraction, monoLag, powerLawLag))
  }

  /** The equilibrium gas sink of an EQM state. */
  function EQMGasSink(s: StateBCs, channel: BS.ChannelSink, monoLag: BS.LagLaw, powerLawLag: BS.LagLaw,
                      sqrt: real -> real): Result<seq<real>>
    requires s.Shaped() && SinksDefined(s, channel, monoLag, powerLawLag)
  {
    BS.GasSink(s.cfg, s.liquidFraction, s.liquidSalinity, s.dissolvedGas, s.gasFraction,
               channel, monoLag, powerLawLag, sqrt)
  }

  /**
   * The brine-channel sink of every equation: heat, salt and gas for EQM;
   * heat, salt, bulk dissolved gas and a zero gas-fraction sink for DISEQ.
   */
  function BrineConvectionSink(s: StateBCs, channel: BS.ChannelSink, monoLag: BS.LagLaw,
                               powerLawLag: BS.LagLaw, sqrt: real -> real): (r: Result<seq<real>>)
    requires s.Shaped() && SinksDefined(s, channel, monoLag, powerLawLag)
    ensures r.Err? <==> s.OtherStateBCs? || (s.EQMStateBCs? && EQMGasSink(s, channel, monoLag, powerLawLag, sqrt).Err?)
    ensures r.Err? && s.OtherStateBCs? ==> r.error == NotImplementedError
    ensures r.Ok? ==> |r.value| == s.Blocks() * s.Cells()
    ensures r.Ok? ==> r.value[..s.Cells()] == BS.HeatSink(s.cfg, s.liquidFraction, s.liquidSalinity, s.temperature, channel)
    ensures r.Ok? ==> r.value[s.Cells()..2 * s.Cells()] == BS.SaltSink(s.cfg, s.liquidFraction, s.liquidSalinity, channel)
    ensures s.EQMStateBCs? ==>
              r == BS.StackedSink(s.cfg, s.liquidFraction, s.liquidSalinity, s.temperature, s.dissolvedGas, s.gasFraction,
                                  channel, monoLag, powerLawLag, sqrt)
    ensures r.Ok? && s.EQMStateBCs? ==> Ok(r.value[2 * s.Cells()..]) == EQMGasSink(s, channel, monoLag, powerLawLag, sqrt)
    ensures r.Ok? && s.DISEQStateBCs? ==>
              r.value[2 * s.Cells()..3 * s.Cells()] ==
                BS.BulkDissolvedGasSink(s.cfg, s.liquidFraction, s.liquidSalinity, s.dissolvedGas, channel) &&
              r.value[3 * s.Cells()..] == Zeros(s.Cells())
  {
    var heat := BS.HeatSink(s.cfg, s.liquidFraction, s.liquidSalinity, s.temperature, channel);
    var salt := BS.SaltSink(s.cfg, s.liquidFraction, s.liquidSalinity, channel);
    match s
    case EQMStateBCs(_, _, _, _, _, _, _, _, _) =>
      BS.StackedSink(s.cfg, s.liquidFraction, s.liquidSalinity, s.temperature, s.dissolvedGas, s.gasFraction,
                     channel, monoLag, powerLawLag, sqrt)
    case DISEQStateBCs(_, _, _, _, _, _, _, _, _) =>
      var bulk := BS.BulkDissolvedGasSink(s.cfg, s.liquidFraction, s.liquidSalinity, s.dissolvedGas, channel);
      var r := heat + salt + bulk + Zeros(|heat|);
      assert r[..|heat|] == heat;
      assert r[|heat|..2 * |heat|] == salt;
      assert r[2 * |heat|..3 * |heat|] == bulk;
      assert r[3 * |heat|..] == Zeros(|heat|);
      Ok(r)
    case OtherStateBCs(_, _, _, _, _, _, _, _) => Err(NotImplementedError)
  }

  /** The edge fluxes of every species, each with one value per edge. */
  datatype EdgeFluxes = EdgeFluxes(heat: seq<real>, salt: seq<real>, gas: seq<real>,
                                   bulkDissolvedGas: seq<real>, gasFraction: seq<real>)

  /** The flux laws, given the state and the liquid, gas and frame velocities. */
  type FluxLaw = (StateBCs, seq<real>, seq<real>, seq<real>) -> EdgeFluxes

  predicate FluxesShaped(f: EdgeFluxes, edges: nat) {
    |f.heat| == |f.salt| == |f.gas| == |f.bulkDissolvedGas| == |f.gasFraction| == edges
  }

  /** Four blocks of equal length stacked one after another are recovered by slicing. */
  lemma FourBlocks(a: seq<real>, b: seq<real>, c: seq<real>, d: seq<real>)
    requires |a| == |b| == |c| == |d|
    ensures var r, n := a + b + c + d, |a|;
            r[..n] == a && r[n..2 * n] == b && r[2 * n..3 * n] == c && r[3 * n..] == d
  {
    var n := |a|;
    var ab, abc := a + b, a + b + c;
    assert ab[..n] == a && ab[n..] == b;
    assert abc[..2 * n] == ab && abc[2 * n..] == c;
    var r := abc + d;
    assert r[..3 * n] == abc && r[3 * n..] == d;
    assert r[..n] == abc[..n] == ab[..n];
    assert r[n..2 * n] == abc[n..2 * n] == ab[n..];
    assert r[2 * n..3 * n] == abc[2 * n..];
  }

  /** `D_e @ flux` for each species of the state's model, stacked in equation order. */
  function DzFluxes(s: StateBCs, f: EdgeFluxes, de: seq<seq<real>>): (r: Result<seq<real>>)
    requires s.Shaped() && FluxesShaped(f, s.Cells() + 1) && IsMatrix(de, s.Cells(), s.Cells() + 1)
    ensures r.Err? <==> s.OtherStateBCs?
    ensures r.Err? ==> r.error == NotImplementedError
    ensures r.Ok? ==> |r.value| == s.Blocks() * s.Cells()
    ensures r.Ok? ==> r.value[..s.Cells()] == MatVec(de, f.heat) &&
                      r.value[s.Cells()..2 * s.Cells()] == MatVec(de, f.salt)
    ensures r.Ok? && s.EQMStateBCs? ==> r.value[2 * s.Cells()..] == MatVec(de, f.gas)
    ensures r.Ok? && s.DISEQStateBCs? ==>
              r.value[2 * s.Cells()..3 * s.Cells()] == MatVec(de, f.bulkDissolvedGas) &&
              r.value[3 * s.Cells()..] == MatVec(de, f.gasFraction)
  {
    var heat := MatVec(de, f.heat);
    var salt := MatVec(de, f.salt);
    match s
    case EQMStateBCs(_, _, _, _, _, _, _, _, _) =>
      var r := heat + salt + MatVec(de, f.gas);
      assert r[..|heat|] == heat && r[|heat|..2 * |heat|] == salt && r[2 * |heat|..] == MatVec(de, f.gas);
      Ok(r)
    case DISEQStateBCs(_, _, _, _, _, _, _, _, _) =>
      var r := heat + salt + MatVec(de, f.bulkDissolvedGas) + MatVec(de, f.gasFraction);
      FourBlocks(heat, salt, MatVec(de, f.bulkDissolvedGas), MatVec(de, f.gasFraction));
      Ok(r)
    case OtherStateBCs(_, _, _, _, _, _, _, _) => Err(NotImplementedError)
  }

  /** The shortwave heating as a source of the enthalpy equation only. */
  function RadiativeHeating(s: StateBCs, heating: seq<real>): (r: Result<seq<real>>)
    requires s.Shaped() && |heating| == s.Cells()
    ensures r.Err? <==> s.OtherStateBCs?
    ensures r.Err? ==> r.error == NotImplementedError
    ensures r.Ok? ==> |r.value| == s.Blocks() * s.Cells() && r.value[..s.Cells()] == heating &&
                      forall k :: s.Cells() <= k < |r.value| ==> r.value[k] == 0.0
  {
    var zeros := Zeros(|heating|);
    match s
    case EQMStateBCs(_, _, _, _, _, _, _, _, _) =>
      var r := heating + zeros + zeros;
      assert r[..|heating|] == heating;
      Ok(r)
    case DISEQStateBCs(_, _, _, _, _, _, _, _, _) =>
      var r := heating + zeros + zeros + zeros;
      assert r[..|heating|] == heating;
      Ok(r)
    case OtherStateBCs(_, _, _, _, _, _, _, _) => Err(NotImplementedError)
  }

  // ---------------------------------------------------------------------
  // The right-hand side
  // ---------------------------------------------------------------------

  /** Everything the right-hand side of a state needs from outside this model. */
  datatype Inputs = Inputs(
    vg: seq<real>, wl: seq<real>, v: seq<real>,
    fluxes: FluxLaw, de: seq<seq<real>>, heating: seq<real>,
    channel: BS.ChannelSink, monoLag: BS.LagLaw, powerLawLag: BS.LagLaw, sqrt: real -> real)

  /** The gas velocity after the gas-rise filter. */
  function FilteredVg(s: StateBCs, x: Inputs): seq<real>
    requires s.Shaped() && |x.vg| == s.Cells() + 1
  {
    GasRiseFiltered(x.vg, s.gasFraction, s.liquidFraction)
  }

  /** The edge fluxes, built from the filtered gas velocity. */
  function FluxesOf(s: StateBCs, x: Inputs): EdgeFluxes
    requires s.Shaped() && |x.vg| == s.Cells() + 1
  {
    x.fluxes(s, x.wl, FilteredVg(s, x), x.v)
  }

  /** The inputs fit the state: velocities and fluxes on the edges, heating on the cells, defined sinks. */
  predicate InputsFit(s: StateBCs, x: Inputs)
    requires s.Shaped()
  {
    |x.vg| == s.Cells() + 1 && FluxesShaped(FluxesOf(s, x), s.Cells() + 1) &&
    IsMatrix(x.de, s.Cells(), s.Cells() + 1) && |x.heating| == s.Cells() &&
    SinksDefined(s, x.channel, x.monoLag, x.powerLawLag)
  }

  function Sink(s: StateBCs, x: Inputs): Result<seq<real>>
    requires s.Shaped() && InputsFit(s, x)
  {
    BrineConvectionSink(s, x.channel, x.monoLag, x.powerLawLag, x.sqrt)
  }

  /** `-dz - sink + nucleation`, cell by cell across all stacked equations. */
  function Tendency(dz: seq<real>, sink: seq<real>, nucleation: seq<real>): (r: seq<real>)
    requires |dz| == |sink| == |nucleation|
    ensures |r| == |dz| && forall k :: 0 <= k < |r| ==> r[k] == -dz[k] - sink[k] + nucleation[k]
  {
    Add(Sub(Neg(dz), sink), nucleation)
  }

  /** The heating source that enters the equations: the shortwave heating when switched on, else nothing. */
  function HeatingTerm(s: StateBCs, x: Inputs): (h: seq<real>)
    requires s.Shaped() && InputsFit(s, x) && !s.OtherStateBCs?
    ensures |h| == s.Blocks() * s.Cells()
    ensures forall k :: s.Cells() <= k < |h| ==> h[k] == 0.0
  {
    if s.cfg.forcing.swInternalHeating then RadiativeHeating(s, x.heating).value
    else Zeros(s.Blocks() * s.Cells())
  }

  /** `r` is `-dz - sink + nucleation + heating` in every stacked entry. */
  predicate Assembled(r: seq<real>, dz: seq<real>, sink: seq<real>, nucleation: seq<real>, heating: seq<real>) {
    |r| == |dz| == |sink| == |nucleation| == |heating| &&
    forall k :: 0 <= k < |r| ==> r[k] == -dz[k] - sink[k] + nucleation[k] + heating[k]
  }

  /** The stacked terms combined into the right-hand side. */
  function Combine(dz: seq<real>, sink: seq<real>, nucleation: seq<real>, heating: seq<real>): (r: seq<real>)
    requires |dz| == |sink| == |nucleation| == |heating|
    ensures Assembled(r, dz, sink, nucleation, heating)
  {
    Add(Tendency(dz, sink, nucleation), heating)
  }

  /**
   * `calculate_equations`: the flux divergence (built with the filtered gas
   * velocity), minus the brine-channel sinks, plus nucleation, plus the
   * shortwave heating exactly when internal heating is switched on. Other
   * state types are not supported, and an unknown bubble distribution
   * propagates from the gas sink.
   */
  function CalculateEquations(s: StateBCs, x: Inputs): (r: Result<seq<real>>)
    requires s.Shaped() && InputsFit(s, x)
    ensures r.Err? <==> s.OtherStateBCs? || (s.EQMStateBCs? && EQMGasSink(s, x.channel, x.monoLag, x.powerLawLag, x.sqrt).Err?)
    ensures r.Ok? ==> |r.value| == s.Blocks() * s.Cells()
    ensures r.Ok? ==> r.value == Combine(DzFluxes(s, FluxesOf(s, x), x.de).value, Sink(s, x).value,
                                         Nucleation(s).value, HeatingTerm(s, x))
  {
    match DzFluxes(s, FluxesOf(s, x), x.de)
    case Err(e) => Err(e)
    case Ok(dz) =>
      match Sink(s, x)
      case Err(e) => Err(e)
      case Ok(sink) => Ok(Combine(dz, sink, Nucleation(s).value, HeatingTerm(s, x)))
  }

  /**
   * In the disequilibrium model nucleation only moves gas between the
   * dissolved and free phases: in every cell the sum of the two gas
   * equations is the same as it would be without nucleation.
   */
  lemma NucleationConservesGas(s: StateBCs, x: Inputs, i: nat)
    requires s.Shaped() && InputsFit(s, x) && s.DISEQStateBCs? && i < s.Cells()
    ensures var n := s.Cells();
            var r := CalculateEquations(s, x).value;
            var dz := DzFluxes(s, FluxesOf(s, x), x.de).value;
            var sink := Sink(s, x).value;
            r[2 * n + i] + r[3 * n + i] == -(dz[2 * n + i] + dz[3 * n + i]) - sink[2 * n + i]
  {
    var n := s.Cells();
    var r := CalculateEquations(s, x).value;
    var dz := DzFluxes(s, FluxesOf(s, x), x.de).value;
    var sink := Sink(s, x).value;
    var nucleation := Nucleation(s).value;
    var heat := HeatingTerm(s, x);
    DISEQSinkAt(s, x, i);
    NucleationPairCancels(s, i);
    GasPairSum(r, dz, sink, nucleation, heat, n, i);
  }

  /** A DISEQ state has no brine-channel sink in its gas-fraction equation. */
  lemma DISEQSinkAt(s: StateBCs, x: Inputs, i: nat)
    requires s.Shaped() && InputsFit(s, x) && s.DISEQStateBCs? && i < s.Cells()
    ensures Sink(s, x).Ok? && Sink(s, x).value[3 * s.Cells() + i] == 0.0
  {
    var n := s.Cells();
    var sink := Sink(s, x).value;
    assert sink[3 * n..] == Zeros(n);
    assert sink[3 * n + i] == sink[3 * n..][i];
  }

  lemma NucleationPairCancels(s: StateBCs, i: nat)
    requires s.Shaped() && s.DISEQStateBCs? && i < s.Cells()
    ensures |Nucleation(s).value| == 4 * s.Cells()
    ensures Nucleation(s).value[2 * s.Cells() + i] + Nucleation(s).value[3 * s.Cells() + i] == 0.0
  {
    var n := s.Cells();
    var r := Nucleation(s).value;
    assert r[2 * n + i] == r[2 * n..3 * n][i] == -NucleationRates(s)[i];
    assert r[3 * n + i] == r[3 * n..][i] == NucleationRates(s)[i];
  }

  lemma GasPairSum(r: seq<real>, dz: seq<real>, sink: seq<real>, nucleation: seq<real>, heat: seq<real>, n: nat, i: nat)
    requires Assembled(r, dz, sink, nucleation, heat) && |r| == 4 * n && i < n
    requires sink[3 * n + i] == 0.0 && nucleation[2 * n + i] + nucleation[3 * n + i] == 0.0
    requires heat[2 * n + i] == 0.0 && heat[3 * n + i] == 0.0
    ensures r[2 * n + i] + r[3 * n + i] == -(dz[2 * n + i] + dz[3 * n + i]) - sink[2 * n + i]
  {
  }

  /**
   * The right-hand side does not see the gas velocity on an edge below a
   * full cell (other than the top edge): changing it there changes nothing.
   */
  lemma HiddenGasVelocityIgnored(s: StateBCs, x: Inputs, i: nat, w: real)
    requires s.Shaped() && InputsFit(s, x) && i < s.Cells()
    requires s.liquidFraction[i + 1] <= s.gasFraction[i + 1]
    ensures InputsFit(s, x.(vg := x.vg[i := w]))
    ensures CalculateEquations(s, x.(vg := x.vg[i := w])) == CalculateEquations(s, x)
  {
    var y := x.(vg := x.vg[i := w]);
    var a := FilteredVg(s, x);
    var b := FilteredVg(s, y);
    forall k | 0 <= k < |a| ensures a[k] == b[k] {
      if k == i {
        assert a[k] == 0.0 && b[k] == 0.0;
      }
    }
    assert a == b;
    assert FluxesOf(s, x) == FluxesOf(s, y);
  }

  /**
   * With brine convection and internal heating switched off, the
   * equilibrium model is pure transport: the right-hand side is minus the
   * flux divergence.
   */
  lemma EQMWithoutSourcesIsTransport(s: StateBCs, x: Inputs)
    requires s.Shaped() && InputsFit(s, x) && s.EQMStateBCs?
    requires !s.cfg.darcy.brineConvectionParameterisation && !s.cfg.forcing.swInternalHeating
    ensures CalculateEquations(s, x) == Ok(Neg(DzFluxes(s, FluxesOf(s, x), x.de).value))
  {
    var n := s.Cells();
    var dz := DzFluxes(s, FluxesOf(s, x), x.de).value;
    var r := CalculateEquations(s, x).value;
    EQMSinkVanishes(s, x);
    assert HeatingTerm(s, x) == Zeros(3 * n);
    SourcelessIsTransport(r, dz, Sink(s, x).value, Nucleation(s).value, HeatingTerm(s, x));
  }

  /** Without brine convection an EQM state has no brine-channel sink at all. */
  lemma EQMSinkVanishes(s: StateBCs, x: Inputs)
    requires s.Shaped() && InputsFit(s, x) && s.EQMStateBCs? && !s.cfg.darcy.brineConvectionParameterisation
    ensures Sink(s, x) == Ok(Zeros(3 * s.Cells()))
  {
    BS.ConvectionOffNoStackedSink(s.cfg, s.liquidFraction, s.liquidSalinity, s.temperature, s.dissolvedGas,
                                  s.gasFraction, x.channel, x.monoLag, x.powerLawLag, x.sqrt);
  }

  /** With no sink, no nucleation and no heating the assembled right-hand side is minus the flux divergence. */
  lemma SourcelessIsTransport(r: seq<real>, dz: seq<real>, sink: seq<real>, nucleation: seq<real>, heat: seq<real>)
    requires Assembled(r, dz, sink, nucleation, heat)
    requires sink == Zeros(|r|) && nucleation == Zeros(|r|) && heat == Zeros(|r|)
    ensures r == Neg(dz)
  {
  }
}
