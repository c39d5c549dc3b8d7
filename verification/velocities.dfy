/**
 * Darcy velocities on the cell edges: the frame velocity, the liquid Darcy
 * velocity and the interstitial velocity of gas bubbles, which are slowed
 * by drag against the pore walls as they fill the pore throats.
 */
module Velocities {
  import opened Numerics
  import opened Grids
  import opened Params

  /** The frame (pulling) velocity: one constant value on each of the I + 1 edges. */
  function FrameVelocity(cfg: Config): (v: seq<real>)
    ensures |v| == cfg.numerical.I + 1
    ensures forall i :: 0 <= i < |v| ==> v[i] == cfg.physical.frameVelocity
  {
    Fill(cfg.numerical.I + 1, cfg.physical.frameVelocity)
  }

  /**
   * Liquid Darcy velocity: half the prescribed interstitial liquid velocity,
   * weighted by the geometric mean of the liquid fraction across each edge.
   */
  function LiquidDarcyVelocity(liquidFraction: seq<real>, cfg: Config, sqrt: real -> real): (w: seq<real>)
    requires 1 <= |liquidFraction|
    ensures |w| == |liquidFraction| - 1
    ensures forall i :: 0 <= i < |w| ==>
      w[i] == Geometric(liquidFraction, sqrt)[i] * cfg.darcy.liquidVelocity / 2.0
  {
    Scale(cfg.darcy.liquidVelocity / 2.0, Geometric(liquidFraction, sqrt))
  }

  /**
   * For liquid fractions in [0, 1] and a non-negative prescribed velocity U
   * the liquid Darcy velocity lies between 0 and U / 2 on every edge.
   */
  lemma LiquidDarcyVelocityBounded(liquidFraction: seq<real>, cfg: Config, sqrt: real -> real, i: nat)
    requires IsSqrt(sqrt) && 0.0 <= cfg.darcy.liquidVelocity && i + 1 < |liquidFraction|
    requires 0.0 <= liquidFraction[i] <= 1.0 && 0.0 <= liquidFraction[i + 1] <= 1.0
    ensures 0.0 <= LiquidDarcyVelocity(liquidFraction, cfg, sqrt)[i] <= cfg.darcy.liquidVelocity / 2.0
  {
    GeometricBetween(liquidFraction, sqrt, i);
    var g := Geometric(liquidFraction, sqrt)[i];
    var u := cfg.darcy.liquidVelocity;
    assert 0.0 <= g <= 1.0;
    MulMonotone(0.0, g, u);
    MulMonotone(g, 1.0, u);
    assert LiquidDarcyVelocity(liquidFraction, cfg, sqrt)[i] == (g * u) / 2.0;
  }

  /** Effective pore-throat radius: `phi^q + reg`, never zero where the bubble size is taken. */
  predicate TubeRadiiNonZero(liquidFraction: seq<real>, q: real, reg: real, pow: (real, real) -> real) {
    forall i :: 0 <= i < |liquidFraction| ==> pow(liquidFraction[i], q) + reg != 0.0
  }

  /** Bubble size relative to the pore throat: `Lambda / (phi^q + reg)` on each edge. */
  function BubbleSizeFraction(bubbleRadiusScaled: real, liquidFraction: seq<real>, cfg: Config,
                              pow: (real, real) -> real): (lambda: seq<real>)
    requires TubeRadiiNonZero(liquidFraction, cfg.darcy.poreThroatScaling, cfg.numerical.regularisation, pow)
    ensures |lambda| == |liquidFraction|
    ensures forall i :: 0 <= i < |lambda| ==>
      lambda[i] * (pow(liquidFraction[i], cfg.darcy.poreThroatScaling) + cfg.numerical.regularisation) == bubbleRadiusScaled
  {
    var q, reg := cfg.darcy.poreThroatScaling, cfg.numerical.regularisation;
    seq(|liquidFraction|, i requires 0 <= i < |liquidFraction| => bubbleRadiusScaled / (pow(liquidFraction[i], q) + reg))
  }

  /** Bubbles of zero radius have zero size fraction everywhere. */
  lemma NoBubblesNoSize(liquidFraction: seq<real>, cfg: Config, pow: (real, real) -> real)
    requires TubeRadiiNonZero(liquidFraction, cfg.darcy.poreThroatScaling, cfg.numerical.regularisation, pow)
    ensures BubbleSizeFraction(0.0, liquidFraction, cfg, pow) == Zeros(|liquidFraction|)
  {
    var lambda := BubbleSizeFraction(0.0, liquidFraction, cfg, pow);
    forall i | 0 <= i < |lambda| ensures lambda[i] == 0.0 {
      var d := pow(liquidFraction[i], cfg.darcy.poreThroatScaling) + cfg.numerical.regularisation;
      ProductZero(d, lambda[i]);
    }
  }

  /**
   * Lag of a bubble of size fraction `lambda` behind the liquid: 1 for
   * bubbles of negative size, 1/2 for bubbles larger than the throat and
   * linear in between.
   */
  function Lag(lambda: real): (r: real)
    ensures 0.5 <= r <= 1.0
    ensures lambda < 0.0 ==> r == 1.0
    ensures lambda > 1.0 ==> r == 0.5
  {
    if lambda > 1.0 then 0.5 else if lambda < 0.0 then 1.0 else 1.0 - 0.5 * lambda
  }

  /** The lag never increases with size, and by at most half the change in size, so it is continuous. */
  lemma LagLipschitz(a: real, b: real)
    ensures a <= b ==> 0.0 <= Lag(a) - Lag(b) <= 0.5 * (b - a)
  {
  }

  /**
   * Drag on a bubble of size fraction `lambda`: none for bubbles larger
   * than the throat, full for bubbles of negative size, `(1 - lambda)^r`
   * in between.
   */
  function Drag(lambda: real, exponent: real, pow: (real, real) -> real): (r: real)
    ensures lambda > 1.0 ==> r == 0.0
    ensures lambda < 0.0 ==> r == 1.0
  {
    if lambda > 1.0 then 0.0 else if lambda < 0.0 then 1.0 else pow(1.0 - lambda, exponent)
  }

  /**
   * With a true power law the drag is non-negative and meets its constant
   * branches at both ends of [0, 1] (for a positive exponent), so it is
   * continuous there.
   */
  lemma DragProperties(lambda: real, exponent: real, pow: (real, real) -> real)
    requires IsPow(pow)
    ensures 0.0 <= Drag(lambda, exponent, pow)
    ensures Drag(0.0, exponent, pow) == 1.0
    ensures 0.0 < exponent ==> Drag(1.0, exponent, pow) == 0.0
  {
    assert pow(1.0 - 0.0, exponent) == 1.0;
    assert 0.0 < exponent ==> pow(1.0 - 1.0, exponent) == 0.0;
  }

  /** Every value the gas velocity divides by is non-zero. */
  predicate GasVelocityDefined(liquidFraction: seq<real>, cfg: Config, sqrt: real -> real, pow: (real, real) -> real)
    requires 1 <= |liquidFraction|
  {
    TubeRadiiNonZero(Geometric(liquidFraction, sqrt), cfg.darcy.poreThroatScaling, cfg.numerical.regularisation, pow)
  }

  /** Buoyant rise of bubbles against drag: `B * drag * phi^(2q) * lambda^2` on each edge. */
  function GasInterstitialVelocity(liquidFraction: seq<real>, cfg: Config, sqrt: real -> real,
                                   pow: (real, real) -> real): (vg: seq<real>)
    requires 1 <= |liquidFraction| && GasVelocityDefined(liquidFraction, cfg, sqrt, pow)
    ensures |vg| == |liquidFraction| - 1
  {
    var phi := Geometric(liquidFraction, sqrt);
    var lambda := BubbleSizeFraction(cfg.darcy.bubbleRadiusScaled, phi, cfg, pow);
    seq(|phi|, i requires 0 <= i < |phi| =>
      cfg.darcy.B * Drag(lambda[i], cfg.darcy.dragExponent, pow) *
      pow(phi[i], 2.0 * cfg.darcy.poreThroatScaling) * (lambda[i] * lambda[i]))
  }

  /** Bubbles of zero radius do not move. */
  lemma NoBubblesNoGasVelocity(liquidFraction: seq<real>, cfg: Config, sqrt: real -> real, pow: (real, real) -> real)
    requires 1 <= |liquidFraction| && GasVelocityDefined(liquidFraction, cfg, sqrt, pow)
    requires cfg.darcy.bubbleRadiusScaled == 0.0
    ensures GasInterstitialVelocity(liquidFraction, cfg, sqrt, pow) == Zeros(|liquidFraction| - 1)
  {
    var phi := Geometric(liquidFraction, sqrt);
    NoBubblesNoSize(phi, cfg, pow);
  }

  /**
   * Bubbles never sink: with non-negative buoyancy B, a true square root and
   * power, and non-negative liquid fractions, the gas velocity is
   * non-negative on every edge.
   */
  lemma GasVelocityNonNegative(liquidFraction: seq<real>, cfg: Config, sqrt: real -> real,
                               pow: (real, real) -> real, i: nat)
    requires IsSqrt(sqrt) && IsPow(pow) && 0.0 <= cfg.darcy.B
    requires i + 1 < |liquidFraction| && 0.0 <= liquidFraction[i] && 0.0 <= liquidFraction[i + 1]
    requires GasVelocityDefined(liquidFraction, cfg, sqrt, pow)
    ensures 0.0 <= GasInterstitialVelocity(liquidFraction, cfg, sqrt, pow)[i]
  {
    var phi := Geometric(liquidFraction, sqrt);
    var lambda := BubbleSizeFraction(cfg.darcy.bubbleRadiusScaled, phi, cfg, pow);
    GeometricBetween(liquidFraction, sqrt, i);
    DragProperties(lambda[i], cfg.darcy.dragExponent, pow);
    var d := Drag(lambda[i], cfg.darcy.dragExponent, pow);
    var w := pow(phi[i], 2.0 * cfg.darcy.poreThroatScaling);
    assert 0.0 <= w;
    MulMonotone(0.0, d, cfg.darcy.B);
    MulMonotone(0.0, cfg.darcy.B * d, w);
    MulMonotone(0.0, cfg.darcy.B * d * w, lambda[i] * lambda[i]);
  }

  /** The three edge velocities. */
  datatype EdgeVelocities = EdgeVelocities(gas: seq<real>, liquid: seq<real>, frame: seq<real>)

  /**
   * All three velocities from the liquid fraction on the ghost grid; no
   * other field of the state is read.
   */
  function CalculateVelocities(liquidFraction: seq<real>, cfg: Config, sqrt: real -> real,
                               pow: (real, real) -> real): (v: EdgeVelocities)
    requires 1 <= |liquidFraction| && GasVelocityDefined(liquidFraction, cfg, sqrt, pow)
    ensures |liquidFraction| == cfg.numerical.I + 2 ==>
      |v.gas| == |v.liquid| == |v.frame| == cfg.numerical.I + 1
  {
    EdgeVelocities(
      GasInterstitialVelocity(liquidFraction, cfg, sqrt, pow),
      LiquidDarcyVelocity(liquidFraction, cfg, sqrt),
      FrameVelocity(cfg))
  }
}
