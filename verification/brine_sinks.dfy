/**
 * Sink terms that remove heat, salt and gas from the mushy layer through
 * brine channels. Each sink is the brine-channel sink rate times the
 * quantity the brine carries out of the cell; every sink is zero when the
 * brine-convection parameterisation is switched off.
 *
 * The sinks read the ghost-padded fields of a state and strip the two
 * ghost cells. The brine-channel sink rate itself and the bubble lag-factor
 * laws are computed by code outside this model and enter as parameters.
 */
module BrineSinks {
  import opened Wrappers
  import opened Numerics
  import P = Params
  import Grids

  /**
   * The brine-channel sink rate per cell, given the interior liquid fraction
   * and liquid salinity, the cell centres, the cell edges and the
   * configuration.
   */
  type ChannelSink = (seq<real>, seq<real>, seq<real>, seq<real>, P.Config) -> seq<real>

  /** A bubble lag-factor law, given the interior liquid fraction and the configuration. */
  type LagLaw = (seq<real>, P.Config) -> seq<real>

  /** `a` is a field on the ghost grid of the configuration: `I + 2` values, `I >= 1`. */
  predicate Padded(cfg: P.Config, a: seq<real>) {
    1 <= cfg.numerical.I && |a| == cfg.numerical.I + 2
  }

  /** The sink rate for a padded state: the ghosts are stripped and the grid is the configuration's. */
  function ChannelRate(cfg: P.Config, lf: seq<real>, ls: seq<real>, channel: ChannelSink): seq<real>
    requires Padded(cfg, lf) && Padded(cfg, ls)
  {
    var g := Grids.InitialiseGrids(cfg.numerical.I);
    channel(Interior(lf), Interior(ls), Interior(g.ghosts), g.edges, cfg)
  }

  /** The sink rate has one value per cell. */
  predicate RateShaped(cfg: P.Config, lf: seq<real>, ls: seq<real>, channel: ChannelSink)
    requires Padded(cfg, lf) && Padded(cfg, ls)
  {
    |ChannelRate(cfg, lf, ls, channel)| == cfg.numerical.I
  }

  /** The precondition shared by every sink: padded inputs and a sink rate per cell. */
  predicate SinkInputs(cfg: P.Config, lf: seq<real>, ls: seq<real>, channel: ChannelSink) {
    Padded(cfg, lf) && Padded(cfg, ls) && RateShaped(cfg, lf, ls, channel)
  }

  /** The heat sink: the sink rate times the cell temperature. */
  function HeatSink(cfg: P.Config, lf: seq<real>, ls: seq<real>, temperature: seq<real>, channel: ChannelSink): (r: seq<real>)
    requires SinkInputs(cfg, lf, ls, channel) && Padded(cfg, temperature)
    ensures |r| == cfg.numerical.I
    ensures !cfg.darcy.brineConvectionParameterisation ==> r == Zeros(cfg.numerical.I)
    ensures cfg.darcy.brineConvectionParameterisation ==>
              forall i :: 0 <= i < |r| ==> r[i] == ChannelRate(cfg, lf, ls, channel)[i] * temperature[i + 1]
  {
    if !cfg.darcy.brineConvectionParameterisation then Zeros(|lf| - 2)
    else Mul(ChannelRate(cfg, lf, ls, channel), Interior(temperature))
  }

  /** The salt sink: the sink rate times the liquid salinity offset by the concentration ratio. */
  function SaltSink(cfg: P.Config, lf: seq<real>, ls: seq<real>, channel: ChannelSink): (r: seq<real>)
    requires SinkInputs(cfg, lf, ls, channel)
    ensures |r| == cfg.numerical.I
    ensures !cfg.darcy.brineConvectionParameterisation ==> r == Zeros(cfg.numerical.I)
    ensures cfg.darcy.brineConvectionParameterisation ==>
              forall i :: 0 <= i < |r| ==>
                r[i] == ChannelRate(cfg, lf, ls, channel)[i] * (ls[i + 1] + cfg.physical.concentrationRatio)
  {
    if !cfg.darcy.brineConvectionParameterisation then Zeros(|lf| - 2)
    else Mul(ChannelRate(cfg, lf, ls, channel), Shift(Interior(ls), cfg.physical.concentrationRatio))
  }

  /** The bubble lag law chosen by the configuration, or an error for an unknown distribution. */
  function LagFactor(cfg: P.Config, lf: seq<real>, monoLag: LagLaw, powerLawLag: LagLaw): (r: Result<seq<real>>)
    requires Padded(cfg, lf)
    ensures r.Err? <==> cfg.darcy.bubbleSizeDistributionType !in {"mono", "power_law"}
    ensures r.Err? ==> r.error.ValueError?
  {
    if cfg.darcy.bubbleSizeDistributionType == "mono" then Ok(monoLag(Interior(lf), cfg))
    else if cfg.darcy.bubbleSizeDistributionType == "power_law" then Ok(powerLawLag(Interior(lf), cfg))
    else Err(ValueError("Bubble size distribution of type " + cfg.darcy.bubbleSizeDistributionType + " not recognised"))
  }

  /**
   * What the coupled bubble term needs to be defined: the lag factor has one
   * value per edge, so that its geometric mean lands on the cells, and no
   * cell is free of liquid.
   */
  predicate CouplingDefined(cfg: P.Config, lf: seq<real>, monoLag: LagLaw, powerLawLag: LagLaw)
    requires Padded(cfg, lf)
  {
    var lag := LagFactor(cfg, lf, monoLag, powerLawLag);
    (lag.Ok? ==> |lag.value| == cfg.numerical.I + 1) &&
    forall i :: 1 <= i <= cfg.numerical.I ==> lf[i] != 0.0
  }

  /** `2 * gas_fraction * geometric(lag) / liquid_fraction`, cell by cell. */
  function BubbleTerm(gf: seq<real>, lagMean: seq<real>, lf: seq<real>): (r: seq<real>)
    requires |gf| == |lagMean| == |lf|
    requires forall i :: 0 <= i < |lf| ==> lf[i] != 0.0
    ensures |r| == |gf|
    ensures forall i :: 0 <= i < |r| && gf[i] == 0.0 ==> r[i] == 0.0
  {
    seq(|gf|, i requires 0 <= i < |gf| => 2.0 * gf[i] * lagMean[i] / lf[i])
  }

  /**
   * The gas sink of the equilibrium model: the sink rate times the
   * dissolved gas carried by the brine plus, when bubbles are coupled to the
   * horizontal flow, the bubbles it drags along. An unknown bubble size
   * distribution is an error, raised only when the coupling is used.
   */
  function GasSink(cfg: P.Config, lf: seq<real>, ls: seq<real>, dissolvedGas: seq<real>, gasFraction: seq<real>,
                   channel: ChannelSink, monoLag: LagLaw, powerLawLag: LagLaw, sqrt: real -> real): (r: Result<seq<real>>)
    requires SinkInputs(cfg, lf, ls, channel) && Padded(cfg, dissolvedGas) && Padded(cfg, gasFraction)
    requires cfg.darcy.brineConvectionParameterisation && cfg.darcy.coupleBubbleToHorizontalFlow ==>
               CouplingDefined(cfg, lf, monoLag, powerLawLag)
    ensures r.Err? <==> (cfg.darcy.brineConvectionParameterisation && cfg.darcy.coupleBubbleToHorizontalFlow &&
                         cfg.darcy.bubbleSizeDistributionType !in {"mono", "power_law"})
    ensures r.Err? ==> r.error.ValueError?
    ensures r.Ok? ==> |r.value| == cfg.numerical.I
    ensures !cfg.darcy.brineConvectionParameterisation ==> r == Ok(Zeros(cfg.numerical.I))
  {
    if !cfg.darcy.brineConvectionParameterisation then Ok(Zeros(|lf| - 2))
    else
      var sink := ChannelRate(cfg, lf, ls, channel);
      var dissolvedGasTerm := Scale(cfg.physical.expansionCoefficient, Interior(dissolvedGas));
      if cfg.darcy.coupleBubbleToHorizontalFlow then
        match LagFactor(cfg, lf, monoLag, powerLawLag)
        case Err(e) => Err(e)
        case Ok(lag) =>
          var bubbleTerm := BubbleTerm(Interior(gasFraction), Grids.Geometric(lag, sqrt), Interior(lf));
          Ok(Mul(sink, Add(dissolvedGasTerm, bubbleTerm)))
      else
        Ok(Mul(sink, Add(dissolvedGasTerm, Zeros(|lf| - 2))))
  }

  /** The sink of bulk dissolved gas in the disequilibrium model: the sink rate times `chi` times the dissolved gas. */
  function BulkDissolvedGasSink(cfg: P.Config, lf: seq<real>, ls: seq<real>, dissolvedGas: seq<real>,
                                channel: ChannelSink): (r: seq<real>)
    requires SinkInputs(cfg, lf, ls, channel) && Padded(cfg, dissolvedGas)
    ensures |r| == cfg.numerical.I
    ensures !cfg.darcy.brineConvectionParameterisation ==> r == Zeros(cfg.numerical.I)
    ensures cfg.darcy.brineConvectionParameterisation ==>
              forall i :: 0 <= i < |r| ==>
                r[i] == ChannelRate(cfg, lf, ls, channel)[i] * cfg.physical.expansionCoefficient * dissolvedGas[i + 1]
  {
    if !cfg.darcy.brineConvectionParameterisation then Zeros(|lf| - 2)
    else Mul(Scale(cfg.physical.expansionCoefficient, ChannelRate(cfg, lf, ls, channel)), Interior(dissolvedGas))
  }

  /**
   * Without bubble coupling, the equilibrium model's gas sink removes exactly
   * the dissolved gas the disequilibrium model's bulk-dissolved-gas sink
   * removes: both carry out only the gas dissolved in the brine.
   */
  lemma UncoupledGasSinkIsDissolvedGasSink(cfg: P.Config, lf: seq<real>, ls: seq<real>, dissolvedGas: seq<real>,
                                           gasFraction: seq<real>, channel: ChannelSink,
                                           monoLag: LagLaw, powerLawLag: LagLaw, sqrt: real -> real)
    requires SinkInputs(cfg, lf, ls, channel) && Padded(cfg, dissolvedGas) && Padded(cfg, gasFraction)
    requires !cfg.darcy.coupleBubbleToHorizontalFlow
    ensures GasSink(cfg, lf, ls, dissolvedGas, gasFraction, channel, monoLag, powerLawLag, sqrt) ==
            Ok(BulkDissolvedGasSink(cfg, lf, ls, dissolvedGas, channel))
  {
    var r := GasSink(cfg, lf, ls, dissolvedGas, gasFraction, channel, monoLag, powerLawLag, sqrt);
    var b := BulkDissolvedGasSink(cfg, lf, ls, dissolvedGas, channel);
    if cfg.darcy.brineConvectionParameterisation {
      var sink := ChannelRate(cfg, lf, ls, channel);
      var chi := cfg.physical.expansionCoefficient;
      assert r == Ok(Mul(sink, Add(Scale(chi, Interior(dissolvedGas)), Zeros(|lf| - 2))));
      assert |r.value| == |b|;
      forall i | 0 <= i < |b| ensures r.value[i] == b[i] {
        var d := dissolvedGas[i + 1];
        assert r.value[i] == sink[i] * (chi * d + 0.0);
        assert b[i] == sink[i] * chi * d;
      }
      assert r.value == b;
    }
  }

  /**
   * Where the brine does not drain (a zero sink rate) nothing is removed:
   * the heat, salt and bulk-dissolved-gas sinks all vanish in that cell.
   */
  lemma NoDrainageNoSink(cfg: P.Config, lf: seq<real>, ls: seq<real>, temperature: seq<real>,
                         dissolvedGas: seq<real>, channel: ChannelSink, i: nat)
    requires SinkInputs(cfg, lf, ls, channel) && Padded(cfg, temperature) && Padded(cfg, dissolvedGas)
    requires i < cfg.numerical.I && ChannelRate(cfg, lf, ls, channel)[i] == 0.0
    ensures HeatSink(cfg, lf, ls, temperature, channel)[i] == 0.0
    ensures SaltSink(cfg, lf, ls, channel)[i] == 0.0
    ensures BulkDissolvedGasSink(cfg, lf, ls, dissolvedGas, channel)[i] == 0.0
  {
  }

  /**
   * `StateBCs.calculate_brine_convection_sink`: the heat, salt and gas sinks
   * stacked in that order; the gas sink's error propagates.
   */
  function StackedSink(cfg: P.Config, lf: seq<real>, ls: seq<real>, temperature: seq<real>,
                       dissolvedGas: seq<real>, gasFraction: seq<real>,
                       channel: ChannelSink, monoLag: LagLaw, powerLawLag: LagLaw, sqrt: real -> real): (r: Result<seq<real>>)
    requires SinkInputs(cfg, lf, ls, channel) && Padded(cfg, temperature)
    requires Padded(cfg, dissolvedGas) && Padded(cfg, gasFraction)
    requires cfg.darcy.brineConvectionParameterisation && cfg.darcy.coupleBubbleToHorizontalFlow ==>
               CouplingDefined(cfg, lf, monoLag, powerLawLag)
    ensures r.Err? <==> GasSink(cfg, lf, ls, dissolvedGas, gasFraction, channel, monoLag, powerLawLag, sqrt).Err?
    ensures r.Ok? ==> |r.value| == 3 * cfg.numerical.I
    ensures r.Ok? ==> var n := cfg.numerical.I;
                      r.value[..n] == HeatSink(cfg, lf, ls, temperature, channel) &&
                      r.value[n..2 * n] == SaltSink(cfg, lf, ls, channel) &&
                      Ok(r.value[2 * n..]) == GasSink(cfg, lf, ls, dissolvedGas, gasFraction, channel, monoLag, powerLawLag, sqrt)
  {
    var heat := HeatSink(cfg, lf, ls, temperature, channel);
    var salt := SaltSink(cfg, lf, ls, channel);
    match GasSink(cfg, lf, ls, dissolvedGas, gasFraction, channel, monoLag, powerLawLag, sqrt)
    case Err(e) => Err(e)
    case Ok(gas) =>
      assert (heat + salt + gas)[..|heat|] == heat;
      assert (heat + salt + gas)[|heat|..2 * |heat|] == salt;
      assert (heat + salt + gas)[2 * |heat|..] == gas;
      Ok(heat + salt + gas)
  }

  /** With brine convection switched off the stacked sink vanishes in every equation. */
  lemma ConvectionOffNoStackedSink(cfg: P.Config, lf: seq<real>, ls: seq<real>, temperature: seq<real>,
                                   dissolvedGas: seq<real>, gasFraction: seq<real>,
                                   channel: ChannelSink, monoLag: LagLaw, powerLawLag: LagLaw, sqrt: real -> real)
    requires SinkInputs(cfg, lf, ls, channel) && Padded(cfg, temperature)
    requires Padded(cfg, dissolvedGas) && Padded(cfg, gasFraction)
    requires !cfg.darcy.brineConvectionParameterisation
    ensures StackedSink(cfg, lf, ls, temperature, dissolvedGas, gasFraction, channel, monoLag, powerLawLag, sqrt)
            == Ok(Zeros(3 * cfg.numerical.I))
  {
    var n := cfg.numerical.I;
    var z := Zeros(n);
    assert z + z + z == Zeros(3 * n);
  }
}
