/**
 * Spatial discretisation of the first version of the simulator: from the
 * bulk enthalpy, salt and gas on the ghost grid to the divergence of the
 * enthalpy, salt and gas fluxes in each cell.
 */
module Spatial {
  import opened Wrappers
  import opened Numerics
  import opened Phase
  import opened Grids
  import P = Params
  import LP = LegacyParams
  import FP = FullPhase
  import FE = FullEnthalpy
  import LBC = LegacyBoundaryConditions
  import LV = LegacyVelocities

  /** The three right-hand sides, one value per cell. */
  datatype Fluxes = Fluxes(enthalpy: seq<real>, salt: seq<real>, gas: seq<real>)

  /** `D_g` maps the n ghost values to the n - 1 edges and `D_e` maps edges to cells. */
  predicate OperatorsShaped(de: seq<seq<real>>, dg: seq<seq<real>>, n: nat) {
    1 <= n && IsMatrix(dg, n - 1, n) && IsMatrix(de, |de|, n - 1)
  }

  /** Cell-wise divergence `D_e q` of an edge quantity. */
  function Divergence(de: seq<seq<real>>, q: seq<real>): (r: seq<real>)
    requires forall i :: 0 <= i < |de| ==> |de[i]| == |q|
    ensures |r| == |de|
  {
    MatVec(de, q)
  }

  /** Conduction minus liquid advection minus frame advection of heat. */
  function EnthalpyRHS(de: seq<seq<real>>, dg: seq<seq<real>>, temperature: seq<real>, enthalpy: seq<real>,
                       liquidVelocity: seq<real>, frameVelocity: seq<real>): (r: seq<real>)
    requires |temperature| == |enthalpy| && OperatorsShaped(de, dg, |temperature|)
    requires |liquidVelocity| == |frameVelocity| == |temperature| - 1
    ensures |r| == |de|
  {
    Sub(Sub(Divergence(de, MatVec(dg, temperature)), Divergence(de, Upwind(temperature, liquidVelocity))),
        Divergence(de, Upwind(enthalpy, frameVelocity)))
  }

  /**
   * A uniform column of uniform temperature with no liquid flow is at rest:
   * its enthalpy does not change, whatever the frame velocity.
   */
  lemma UniformColumnAtRest(cells: nat, step: real, t: real, h: real, v: real)
    requires step != 0.0
    ensures EnthalpyRHS(DifferenceMatrix(cells, step), DifferenceMatrix(cells + 1, step),
                        Fill(cells + 2, t), Fill(cells + 2, h), Zeros(cells + 1), Fill(cells + 1, v)) == Zeros(cells)
  {
    var de, dg := DifferenceMatrix(cells, step), DifferenceMatrix(cells + 1, step);
    UniformNoConduction(cells, step, t);
    UpwindAtRest(cells, step, t);
    UniformFrameAdvection(cells, step, h, v);
    var z := Zeros(cells);
    assert Sub(Sub(z, z), z) == z;
  }

  lemma UniformNoConduction(cells: nat, step: real, t: real)
    requires step != 0.0
    ensures Divergence(DifferenceMatrix(cells, step), MatVec(DifferenceMatrix(cells + 1, step), Fill(cells + 2, t)))
      == Zeros(cells)
  {
    DifferenceOfConstant(cells + 1, step, t);
    MatVecZero(DifferenceMatrix(cells, step), cells + 1);
  }

  lemma UpwindAtRest(cells: nat, step: real, t: real)
    requires step != 0.0
    ensures Divergence(DifferenceMatrix(cells, step), Upwind(Fill(cells + 2, t), Zeros(cells + 1))) == Zeros(cells)
  {
    assert Upwind(Fill(cells + 2, t), Zeros(cells + 1)) == Zeros(cells + 1);
    MatVecZero(DifferenceMatrix(cells, step), cells + 1);
  }

  lemma UniformFrameAdvection(cells: nat, step: real, h: real, v: real)
    requires step != 0.0
    ensures Divergence(DifferenceMatrix(cells, step), Upwind(Fill(cells + 2, h), Fill(cells + 1, v))) == Zeros(cells)
  {
    var u := Upwind(Fill(cells + 2, h), Fill(cells + 1, v));
    forall i | 0 <= i < cells + 1 ensures u[i] == v * h {
      if 0.0 <= v { assert u[i] == v * h; } else { assert u[i] == v * h; }
    }
    assert u == Fill(cells + 1, v * h);
    DifferenceOfConstant(cells, step, v * h);
  }

  /** Salt diffusion (scaled by 1 / Lewis) minus frame and liquid advection of salt. */
  function SaltRHS(de: seq<seq<real>>, dg: seq<seq<real>>, inverseLewis: real, edgeLiquidFraction: seq<real>,
                   liquidSalinity: seq<real>, salt: seq<real>, liquidVelocity: seq<real>,
                   frameVelocity: seq<real>, C: real): (r: seq<real>)
    requires |liquidSalinity| == |salt| && OperatorsShaped(de, dg, |salt|)
    requires |edgeLiquidFraction| == |liquidVelocity| == |frameVelocity| == |salt| - 1
    ensures |r| == |de|
  {
    Sub(Sub(Scale(inverseLewis, Divergence(de, Mul(edgeLiquidFraction, MatVec(dg, liquidSalinity)))),
            Divergence(de, Upwind(salt, frameVelocity))),
        Divergence(de, Upwind(Shift(liquidSalinity, C), liquidVelocity)))
  }

  /** With an infinite Lewis number salt does not diffuse: the liquid fraction on the edges is not read. */
  lemma InfiniteLewisNoSaltDiffusion(de: seq<seq<real>>, dg: seq<seq<real>>, phi1: seq<real>, phi2: seq<real>,
                                     liquidSalinity: seq<real>, salt: seq<real>, liquidVelocity: seq<real>,
                                     frameVelocity: seq<real>, C: real)
    requires |liquidSalinity| == |salt| && OperatorsShaped(de, dg, |salt|)
    requires |phi1| == |phi2| == |liquidVelocity| == |frameVelocity| == |salt| - 1
    ensures SaltRHS(de, dg, P.InverseLewis(P.Infinite), phi1, liquidSalinity, salt, liquidVelocity, frameVelocity, C)
         == SaltRHS(de, dg, P.InverseLewis(P.Infinite), phi2, liquidSalinity, salt, liquidVelocity, frameVelocity, C)
  {
  }

  /**
   * Dissolved-gas diffusion minus frame advection of bulk gas, bubble
   * advection of free gas and liquid advection of dissolved gas.
   */
  function GasRHS(de: seq<seq<real>>, dg: seq<seq<real>>, chi: real, inverseLewis: real,
                  edgeLiquidFraction: seq<real>, dissolvedGas: seq<real>, gas: seq<real>, gasFraction: seq<real>,
                  liquidVelocity: seq<real>, frameVelocity: seq<real>, gasVelocity: seq<real>): (r: seq<real>)
    requires |dissolvedGas| == |gas| == |gasFraction| && OperatorsShaped(de, dg, |gas|)
    requires |edgeLiquidFraction| == |liquidVelocity| == |frameVelocity| == |gasVelocity| == |gas| - 1
    ensures |r| == |de|
  {
    Sub(Sub(Sub(Scale(chi * inverseLewis, Divergence(de, Mul(edgeLiquidFraction, MatVec(dg, dissolvedGas)))),
                Divergence(de, Upwind(gas, frameVelocity))),
            Divergence(de, Upwind(gasFraction, gasVelocity))),
        Divergence(de, Upwind(Scale(chi, dissolvedGas), liquidVelocity)))
  }

  /** Without bubbles the bubble velocity has no effect on the gas equation. */
  lemma NoBubblesNoBubbleFlux(de: seq<seq<real>>, dg: seq<seq<real>>, chi: real, inverseLewis: real,
                              edgeLiquidFraction: seq<real>, dissolvedGas: seq<real>, gas: seq<real>,
                              liquidVelocity: seq<real>, frameVelocity: seq<real>, vg1: seq<real>, vg2: seq<real>)
    requires |dissolvedGas| == |gas| && OperatorsShaped(de, dg, |gas|)
    requires |edgeLiquidFraction| == |liquidVelocity| == |frameVelocity| == |vg1| == |vg2| == |gas| - 1
    ensures GasRHS(de, dg, chi, inverseLewis, edgeLiquidFraction, dissolvedGas, gas, Zeros(|gas|),
                   liquidVelocity, frameVelocity, vg1)
         == GasRHS(de, dg, chi, inverseLewis, edgeLiquidFraction, dissolvedGas, gas, Zeros(|gas|),
                   liquidVelocity, frameVelocity, vg2)
  {
    var n := |gas|;
    assert Upwind(Zeros(n), vg1) == Zeros(n - 1);
    assert Upwind(Zeros(n), vg2) == Zeros(n - 1);
  }

  /** What the flux computation needs of its inputs. */
  ghost predicate FluxesDefined(enthalpy: seq<real>, salt: seq<real>, gas: seq<real>, pressure: seq<real>,
                          params: LP.Params, de: seq<seq<real>>, dg: seq<seq<real>>,
                          sqrt: real -> real, pow: (real, real) -> real)
  {
    var p := LBC.PhaseParamsOf(params);
    |enthalpy| == |salt| == |gas| == |pressure| == params.I + 2 && OperatorsShaped(de, dg, |enthalpy|) &&
    p.chi != 1.0 && 1.0 + p.C != 0.0 && p.St != 0.0 &&
    (params.lewisSalt.Finite? ==> params.lewisSalt.value != 0.0) &&
    (params.lewisGas.Finite? ==> params.lewisGas.value != 0.0) &&
    var phases := FP.Phases(p, sqrt, enthalpy, salt, gas);
    FE.ColumnDefined(p, sqrt, phases, enthalpy, salt, gas) &&
    LV.BubbleRadiusDefined(FE.EnthalpyMethod(p, sqrt, phases, enthalpy, salt, gas).liquidFraction, params, sqrt, pow)
  }

  /** The derived fields the fluxes are built from. */
  function Derived(enthalpy: seq<real>, salt: seq<real>, gas: seq<real>, pressure: seq<real>,
                   params: LP.Params, de: seq<seq<real>>, dg: seq<seq<real>>,
                   sqrt: real -> real, pow: (real, real) -> real): (d: FE.RE.Derived)
    requires FluxesDefined(enthalpy, salt, gas, pressure, params, de, dg, sqrt, pow)
    ensures FE.DerivedShaped(d, |enthalpy|)
    ensures LV.BubbleRadiusDefined(d.liquidFraction, params, sqrt, pow)
  {
    var p := LBC.PhaseParamsOf(params);
    FE.EnthalpyMethod(p, sqrt, FP.Phases(p, sqrt, enthalpy, salt, gas), enthalpy, salt, gas)
  }

  /** The three right-hand sides from the derived fields and the gas fraction with its top cell zeroed. */
  function FluxesFrom(d: FE.RE.Derived, enthalpy: seq<real>, salt: seq<real>, gas: seq<real>, pressure: seq<real>,
                      gasFraction: seq<real>, params: LP.Params, de: seq<seq<real>>, dg: seq<seq<real>>,
                      sqrt: real -> real, pow: (real, real) -> real): (r: Fluxes)
    requires |enthalpy| == |salt| == |gas| == |pressure| == |gasFraction| == params.I + 2
    requires OperatorsShaped(de, dg, |enthalpy|) && FE.DerivedShaped(d, |enthalpy|)
    requires (params.lewisSalt.Finite? ==> params.lewisSalt.value != 0.0)
    requires (params.lewisGas.Finite? ==> params.lewisGas.value != 0.0)
    requires LV.BubbleRadiusDefined(d.liquidFraction, params, sqrt, pow)
    ensures |r.enthalpy| == |r.salt| == |r.gas| == |de|
  {
    var p := LBC.PhaseParamsOf(params);
    var v := LV.CalculateVelocities(d.liquidFraction, pressure, dg, params, sqrt, pow);
    var phi := Geometric(d.liquidFraction, sqrt);
    Fluxes(
      EnthalpyRHS(de, dg, d.temperature, enthalpy, v.liquid, v.frame),
      SaltRHS(de, dg, P.InverseLewis(params.lewisSalt), phi, d.liquidSalinity, salt, v.liquid, v.frame, p.C),
      GasRHS(de, dg, p.chi, P.InverseLewis(params.lewisGas), phi, d.dissolvedGas, gas, gasFraction,
             v.liquid, v.frame, v.gas))
  }

  /** Once the top cell is zeroed, only the cells below it can exceed one half. */
  lemma TopZeroedBlowUp(gasFraction: seq<real>, zeroed: seq<real>)
    requires 1 <= |gasFraction| && zeroed == gasFraction[|gasFraction| - 1 := 0.0]
    ensures (exists i :: 0 <= i < |zeroed| && zeroed[i] > 0.5) <==>
            (exists i :: 0 <= i < |gasFraction| - 1 && gasFraction[i] > 0.5)
  {
    if i :| 0 <= i < |zeroed| && zeroed[i] > 0.5 {
      assert i < |gasFraction| - 1 && gasFraction[i] > 0.5;
    }
    if i :| 0 <= i < |gasFraction| - 1 && gasFraction[i] > 0.5 {
      assert zeroed[i] > 0.5;
    }
  }

  /**
   * The three right-hand sides. The top cell's gas fraction is zeroed first
   * so that bubbles are not drawn in from above; any remaining gas fraction
   * above one half is reported as a blow-up.
   */
  function CalculateDiscretisedFluxes(enthalpy: seq<real>, salt: seq<real>, gas: seq<real>, pressure: seq<real>,
                                      params: LP.Params, de: seq<seq<real>>, dg: seq<seq<real>>,
                                      sqrt: real -> real, pow: (real, real) -> real): (r: Result<Fluxes>)
    requires FluxesDefined(enthalpy, salt, gas, pressure, params, de, dg, sqrt, pow)
    ensures var d := Derived(enthalpy, salt, gas, pressure, params, de, dg, sqrt, pow);
      r.Err? <==> exists i :: 0 <= i < |enthalpy| - 1 && d.gasFraction[i] > 0.5
    ensures r.Err? ==> r.error == ValueError("gas fraction blow up")
    ensures r.Ok? ==> |r.value.enthalpy| == |r.value.salt| == |r.value.gas| == |de|
  {
    var d := Derived(enthalpy, salt, gas, pressure, params, de, dg, sqrt, pow);
    var n := |enthalpy|;
    var gasFraction := d.gasFraction[n - 1 := 0.0];
    TopZeroedBlowUp(d.gasFraction, gasFraction);
    if exists i :: 0 <= i < n && gasFraction[i] > 0.5 then
      Err(ValueError("gas fraction blow up"))
    else
      Ok(FluxesFrom(d, enthalpy, salt, gas, pressure, gasFraction, params, de, dg, sqrt, pow))
  }
}
