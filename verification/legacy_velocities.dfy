/**
 * Velocities of the first version of the simulator: the liquid flows down
 * the pressure gradient through a cubic permeability, and bubbles rise at
 * the buoyancy velocity reduced by drag.
 */
module LegacyVelocities {
  import opened Numerics
  import opened Grids
  import LP = LegacyParams
  import V = Velocities

  function FrameVelocity(params: LP.Params): (v: seq<real>)
    ensures |v| == params.I + 1
    ensures forall i :: 0 <= i < |v| ==> v[i] == params.frameVelocity
  {
    Fill(params.I + 1, params.frameVelocity)
  }

  /** Absolute permeability of the porous ice: the cube of the liquid fraction. */
  function AbsolutePermeability(liquidFraction: seq<real>): (k: seq<real>)
    ensures |k| == |liquidFraction|
    ensures forall i :: 0 <= i < |k| ==> k[i] == liquidFraction[i] * liquidFraction[i] * liquidFraction[i]
  {
    seq(|liquidFraction|, i requires 0 <= i < |liquidFraction| =>
      liquidFraction[i] * liquidFraction[i] * liquidFraction[i])
  }

  /** A more liquid cell is more permeable, from zero for solid ice to one for liquid. */
  lemma PermeabilityMonotone(a: real, b: real)
    requires 0.0 <= a <= b
    ensures 0.0 <= a * a * a <= b * b * b
    ensures b <= 1.0 ==> b * b * b <= 1.0
  {
    CubeMonotone(a, b);
    if b <= 1.0 {
      CubeMonotone(b, 1.0);
    }
  }

  /** Cubing preserves order on the non-negative reals. */
  lemma CubeMonotone(a: real, b: real)
    requires 0.0 <= a <= b
    ensures 0.0 <= a * a * a <= b * b * b
  {
    var a2, b2 := a * a, b * b;
    MulMonotone(a, b, a);
    MulMonotone(a, b, b);
    assert 0.0 <= a2 <= b2;
    MulMonotone(a2, b2, a);
    MulMonotone(a, b, b2);
    assert a * a * a == a2 * a && b * b * b == b2 * b;
  }

  /**
   * Liquid Darcy velocity `-Pi * (D_g p)`: the liquid flows from high to low
   * pressure at a rate set by the permeability of the edge.
   */
  function LiquidDarcyVelocity(liquidFraction: seq<real>, pressure: seq<real>, dg: seq<seq<real>>,
                               sqrt: real -> real): (w: seq<real>)
    requires 1 <= |liquidFraction| && IsMatrix(dg, |liquidFraction| - 1, |pressure|)
    ensures |w| == |liquidFraction| - 1
    ensures forall i :: 0 <= i < |w| ==>
      w[i] == -AbsolutePermeability(Geometric(liquidFraction, sqrt))[i] * MatVec(dg, pressure)[i]
  {
    var k := AbsolutePermeability(Geometric(liquidFraction, sqrt));
    var gradient := MatVec(dg, pressure);
    seq(|k|, i requires 0 <= i < |k| => -k[i] * gradient[i])
  }

  /** A uniform pressure drives no liquid flow through any edge. */
  lemma UniformPressureNoFlow(liquidFraction: seq<real>, c: real, step: real, sqrt: real -> real)
    requires 2 <= |liquidFraction| && step != 0.0
    ensures var n := |liquidFraction| - 1;
      LiquidDarcyVelocity(liquidFraction, Fill(n + 1, c), DifferenceMatrix(n, step), sqrt) == Zeros(n)
  {
    var n := |liquidFraction| - 1;
    DifferenceOfConstant(n, step, c);
  }

  /** Every value the bubble radius divides by is non-zero. */
  predicate BubbleRadiusDefined(liquidFraction: seq<real>, params: LP.Params, sqrt: real -> real,
                                pow: (real, real) -> real)
    requires 1 <= |liquidFraction|
  {
    forall i :: 0 <= i < |liquidFraction| - 1 ==>
      pow(Geometric(liquidFraction, sqrt)[i], params.poreThroatScaling) + params.regularisation != 0.0
  }

  /** Bubble radius relative to the pore throat on each edge: `Lambda / (phi^q + reg)`. */
  function BubbleRadius(liquidFraction: seq<real>, params: LP.Params, sqrt: real -> real,
                        pow: (real, real) -> real): (lambda: seq<real>)
    requires 1 <= |liquidFraction| && BubbleRadiusDefined(liquidFraction, params, sqrt, pow)
    ensures |lambda| == |liquidFraction| - 1
    ensures forall i :: 0 <= i < |lambda| ==>
      lambda[i] * (pow(Geometric(liquidFraction, sqrt)[i], params.poreThroatScaling) + params.regularisation)
        == params.bubbleRadiusScaled
  {
    var phi := Geometric(liquidFraction, sqrt);
    seq(|phi|, i requires 0 <= i < |phi| =>
      params.bubbleRadiusScaled / (pow(phi[i], params.poreThroatScaling) + params.regularisation))
  }

  /**
   * Gas interstitial velocity: the buoyancy velocity B reduced by drag. The
   * source also computes the liquid velocity and the lag here but does not
   * use them.
   */
  function GasInterstitialVelocity(liquidFraction: seq<real>, params: LP.Params, sqrt: real -> real,
                                   pow: (real, real) -> real): (vg: seq<real>)
    requires 1 <= |liquidFraction| && BubbleRadiusDefined(liquidFraction, params, sqrt, pow)
    ensures |vg| == |liquidFraction| - 1
    ensures forall i :: 0 <= i < |vg| ==>
      vg[i] == params.B * V.Drag(BubbleRadius(liquidFraction, params, sqrt, pow)[i], params.dragExponent, pow)
  {
    var lambda := BubbleRadius(liquidFraction, params, sqrt, pow);
    seq(|lambda|, i requires 0 <= i < |lambda| => params.B * V.Drag(lambda[i], params.dragExponent, pow))
  }

  /**
   * Point bubbles feel no drag and rise at the full buoyancy velocity B on
   * every edge; bubbles larger than every throat do not move.
   */
  lemma PointBubblesRiseAtB(liquidFraction: seq<real>, params: LP.Params, sqrt: real -> real,
                            pow: (real, real) -> real)
    requires IsPow(pow) && 1 <= |liquidFraction| && BubbleRadiusDefined(liquidFraction, params, sqrt, pow)
    requires params.bubbleRadiusScaled == 0.0
    ensures GasInterstitialVelocity(liquidFraction, params, sqrt, pow) == Fill(|liquidFraction| - 1, params.B)
  {
    var lambda := BubbleRadius(liquidFraction, params, sqrt, pow);
    forall i | 0 <= i < |lambda| ensures V.Drag(lambda[i], params.dragExponent, pow) == 1.0 {
      var d := pow(Geometric(liquidFraction, sqrt)[i], params.poreThroatScaling) + params.regularisation;
      ProductZero(d, lambda[i]);
      V.DragProperties(lambda[i], params.dragExponent, pow);
    }
  }

  /** Bubbles never sink when the buoyancy velocity is non-negative. */
  lemma GasVelocityNonNegative(liquidFraction: seq<real>, params: LP.Params, sqrt: real -> real,
                               pow: (real, real) -> real, i: nat)
    requires IsPow(pow) && 0.0 <= params.B && i + 1 < |liquidFraction|
    requires BubbleRadiusDefined(liquidFraction, params, sqrt, pow)
    ensures 0.0 <= GasInterstitialVelocity(liquidFraction, params, sqrt, pow)[i]
  {
    var lambda := BubbleRadius(liquidFraction, params, sqrt, pow);
    V.DragProperties(lambda[i], params.dragExponent, pow);
    MulMonotone(0.0, V.Drag(lambda[i], params.dragExponent, pow), params.B);
  }

  /** The three edge velocities from the liquid fraction and pressure on the ghost grid. */
  function CalculateVelocities(liquidFraction: seq<real>, pressure: seq<real>, dg: seq<seq<real>>,
                               params: LP.Params, sqrt: real -> real, pow: (real, real) -> real): (v: V.EdgeVelocities)
    requires 1 <= |liquidFraction| && IsMatrix(dg, |liquidFraction| - 1, |pressure|)
    requires BubbleRadiusDefined(liquidFraction, params, sqrt, pow)
    ensures |liquidFraction| == params.I + 2 ==> |v.gas| == |v.liquid| == |v.frame| == params.I + 1
  {
    V.EdgeVelocities(
      GasInterstitialVelocity(liquidFraction, params, sqrt, pow),
      LiquidDarcyVelocity(liquidFraction, pressure, dg, sqrt),
      FrameVelocity(params))
  }
}
