/**
 * Heat fluxes on the cell edges, from temperature and enthalpy on the
 * ghost grid (I + 2 values) to the edge grid (I + 1 values).
 */
module Flux {
  import opened Numerics
  import opened Grids
  import BC = BoundaryConditions

  /** Conductive heat flux `-D_g T`: heat flows down the temperature gradient. */
  function ConductiveHeatFlux(temperature: seq<real>, dg: seq<seq<real>>): (q: seq<real>)
    requires forall i :: 0 <= i < |dg| ==> |dg[i]| == |temperature|
    ensures |q| == |dg|
  {
    Neg(MatVec(dg, temperature))
  }

  /**
   * With the ghost-grid difference matrix the conductive flux across edge i
   * is minus the temperature difference of its two cells over the cell width.
   */
  lemma ConductiveFluxIsGradient(temperature: seq<real>, step: real)
    requires 2 <= |temperature| && step != 0.0
    ensures var n := |temperature| - 1;
      var q := ConductiveHeatFlux(temperature, DifferenceMatrix(n, step));
      |q| == n && forall i :: 0 <= i < n ==> q[i] == -((temperature[i + 1] - temperature[i]) / step)
  {
    DifferenceMatrixApply(|temperature| - 1, step, temperature);
  }

  /** A uniform temperature conducts no heat. */
  lemma UniformTemperatureNoConduction(n: nat, c: real, step: real)
    requires step != 0.0
    ensures ConductiveHeatFlux(Fill(n + 1, c), DifferenceMatrix(n, step)) == Zeros(n)
  {
    DifferenceOfConstant(n, step, c);
  }

  /** A top ghost that copies the top cell (as the enthalpy and salt padders do) insulates the top edge. */
  lemma InsulatedTop(temperature: seq<real>, step: real)
    requires 2 <= |temperature| && step != 0.0 && BC.NoFluxAtTop(temperature)
    ensures ConductiveHeatFlux(temperature, DifferenceMatrix(|temperature| - 1, step))[|temperature| - 2] == 0.0
  {
    ConductiveFluxIsGradient(temperature, step);
  }

  /** Heat carried by the liquid Darcy velocity, taken from the upstream cell. */
  function AdvectiveHeatFlux(temperature: seq<real>, liquidVelocity: seq<real>): (q: seq<real>)
    requires 1 <= |temperature| && |liquidVelocity| == |temperature| - 1
    ensures |q| == |liquidVelocity|
    ensures forall i :: 0 <= i < |q| && 0.0 <= liquidVelocity[i] ==> q[i] == liquidVelocity[i] * temperature[i]
    ensures forall i :: 0 <= i < |q| && liquidVelocity[i] <= 0.0 ==> q[i] == liquidVelocity[i] * temperature[i + 1]
  {
    Upwind(temperature, liquidVelocity)
  }

  /** Enthalpy carried by the frame velocity, taken from the upstream cell. */
  function FrameAdvectionHeatFlux(enthalpy: seq<real>, frameVelocity: seq<real>): (q: seq<real>)
    requires 1 <= |enthalpy| && |frameVelocity| == |enthalpy| - 1
    ensures |q| == |frameVelocity|
    ensures forall i :: 0 <= i < |q| && 0.0 <= frameVelocity[i] ==> q[i] == frameVelocity[i] * enthalpy[i]
    ensures forall i :: 0 <= i < |q| && frameVelocity[i] <= 0.0 ==> q[i] == frameVelocity[i] * enthalpy[i + 1]
  {
    Upwind(enthalpy, frameVelocity)
  }

  /** A uniform field is advected at its own value times the velocity on every edge. */
  lemma UniformAdvection(velocity: seq<real>, c: real)
    ensures AdvectiveHeatFlux(Fill(|velocity| + 1, c), velocity) == Scale(c, velocity)
    ensures FrameAdvectionHeatFlux(Fill(|velocity| + 1, c), velocity) == Scale(c, velocity)
  {
    UpwindOfConstant(velocity, c);
  }
}
