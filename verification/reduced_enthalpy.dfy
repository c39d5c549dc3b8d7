/**
 * The reduced enthalpy method: from bulk enthalpy, salt and gas it derives
 * temperature, solid, liquid and gas fractions, liquid salinity and
 * dissolved gas, one phase region at a time.
 */
module ReducedEnthalpy {
  import opened Wrappers
  import opened Numerics
  import opened Phase
  import RP = ReducedPhase
  import opened StateRecords

  // ---------------------------------------------------------------------
  // The mush solid fraction solves St*phi^2 + (h - St - C)*phi - (h + s) = 0
  // ---------------------------------------------------------------------

  function QuadA(p: PhaseParams): real { p.St }
  function QuadB(p: PhaseParams, h: real): real { h - p.St - p.C }
  function QuadC(h: real, s: real): real { -(h + s) }

  /** The quadratic whose smaller root is the mush solid fraction, at `phi`. */
  function MushQuadratic(p: PhaseParams, h: real, s: real, phi: real): real {
    QuadA(p) * (phi * phi) + QuadB(p, h) * phi + QuadC(h, s)
  }

  function Discriminant(p: PhaseParams, h: real, s: real): real {
    QuadB(p, h) * QuadB(p, h) - 4.0 * QuadA(p) * QuadC(h, s)
  }

  /** `(1 / 2A) * (-B - sqrt(B^2 - 4AC))`, the root the source takes in mushy cells. */
  function MushSolidFraction(p: PhaseParams, sqrt: real -> real, h: real, s: real): real
    requires p.St != 0.0
  {
    (1.0 / (2.0 * QuadA(p))) * (-QuadB(p, h) - sqrt(Discriminant(p, h, s)))
  }

  // ---------------------------------------------------------------------
  // Per-cell formulas, by region
  // ---------------------------------------------------------------------

  function SolidFractionIn(p: PhaseParams, sqrt: real -> real, h: real, s: real, r: Region): real
    requires p.St != 0.0
  {
    match r
    case Liquid => 0.0
    case Mush => MushSolidFraction(p, sqrt, h, s)
    case Eutectic => -(1.0 + h) / p.St
    case Solid => 1.0
  }

  function TemperatureIn(p: PhaseParams, h: real, solidFraction: real, r: Region): real {
    match r
    case Liquid => h
    case Mush => h + solidFraction * p.St
    case Eutectic => -1.0
    case Solid => h + p.St
  }

  function LiquidSalinityIn(s: real, temperature: real, r: Region): real {
    match r
    case Liquid => s
    case Mush => -temperature
    case Eutectic => 1.0
    case Solid => 1.0
  }

  /** Gas the liquid can hold before bubbles form: `chi * liquid fraction * tolerance`. */
  function GasSaturation(p: PhaseParams, tolerance: real, liquidFraction: real): real {
    p.chi * liquidFraction * tolerance
  }

  function GasFractionIn(p: PhaseParams, tolerance: real, g: real, liquidFraction: real): (gf: real)
    ensures 0.0 <= gf
    ensures g >= GasSaturation(p, tolerance, liquidFraction) ==> gf == g - GasSaturation(p, tolerance, liquidFraction)
    ensures g < GasSaturation(p, tolerance, liquidFraction) ==> gf == 0.0
  {
    var sat := GasSaturation(p, tolerance, liquidFraction);
    if g >= sat then g - sat else 0.0
  }

  /** Sub-saturated cells divide by `chi * liquid fraction`, which must then be non-zero. */
  predicate DissolvedGasDefined(p: PhaseParams, tolerance: real, g: real, liquidFraction: real) {
    g >= GasSaturation(p, tolerance, liquidFraction) || p.chi * liquidFraction != 0.0
  }

  function DissolvedGasIn(p: PhaseParams, tolerance: real, g: real, liquidFraction: real): real
    requires DissolvedGasDefined(p, tolerance, g, liquidFraction)
  {
    if g >= GasSaturation(p, tolerance, liquidFraction) then tolerance else g / (p.chi * liquidFraction)
  }

  /** Non-negative bulk gas always gives a defined dissolved gas concentration. */
  lemma NonNegativeGasDefined(p: PhaseParams, tolerance: real, g: real, liquidFraction: real)
    requires 0.0 <= g
    ensures DissolvedGasDefined(p, tolerance, g, liquidFraction)
  {
    if p.chi * liquidFraction == 0.0 {
      assert GasSaturation(p, tolerance, liquidFraction) == 0.0;
    }
  }

  /**
   * Gas is conserved by the split: the dissolved part `chi * phi_l * c` and
   * the free part add up to the bulk gas, whatever the tolerance.
   */
  lemma GasConservation(p: PhaseParams, tolerance: real, g: real, liquidFraction: real)
    requires DissolvedGasDefined(p, tolerance, g, liquidFraction)
    ensures p.chi * liquidFraction * DissolvedGasIn(p, tolerance, g, liquidFraction)
            + GasFractionIn(p, tolerance, g, liquidFraction) == g
  {
    if g < GasSaturation(p, tolerance, liquidFraction) {
      var d := p.chi * liquidFraction;
      assert d * (g / d) == g;
    }
  }

  // ---------------------------------------------------------------------
  // Properties of the mush root
  // ---------------------------------------------------------------------

  /**
   * In a mushy cell on the physical salinity range (-C <= s) the discriminant
   * is non-negative, the root the source takes solves the quadratic, and it
   * lies in (0, 1].
   */
  lemma MushRoot(p: PhaseParams, sqrt: real -> real, h: real, s: real)
    requires IsSqrt(sqrt) && 0.0 < p.St && h < RP.Liquidus(s) && -p.C <= s
    ensures 0.0 <= Discriminant(p, h, s)
    ensures MushQuadratic(p, h, s, MushSolidFraction(p, sqrt, h, s)) == 0.0
    ensures 0.0 < MushSolidFraction(p, sqrt, h, s) <= 1.0
  {
    var a, b, c := QuadA(p), QuadB(p, h), QuadC(h, s);
    assert 0.0 < c && 0.0 < a + c && a + c <= -b;
    DiscriminantNonNegative(a, b, c);
    var d := Discriminant(p, h, s);
    var q := sqrt(d);
    assert 0.0 <= q && q * q == d;
    SmallerRootBounds(a, b, c, q);
    var u := -b - q;
    var phi := MushSolidFraction(p, sqrt, h, s);
    assert phi == (1.0 / (2.0 * a)) * u;
    QuotientPositive(1.0, 2.0 * a);
    MulStrict(0.0, u, 1.0 / (2.0 * a));
    MulMonotone(u, 2.0 * a, 1.0 / (2.0 * a));
    HalfInverse(a);
    RootSolvesQuadratic(a, b, c, q, phi);
  }

  /** With `0 < c` and `0 < a + c <= -b` the quadratic has real roots. */
  lemma DiscriminantNonNegative(a: real, b: real, c: real)
    requires 0.0 < c && 0.0 < a + c && a + c <= -b
    ensures 0.0 <= b * b - 4.0 * a * c
  {
    MulMonotone(a + c, -b, a + c);
    MulMonotone(a + c, -b, -b);
    assert (a + c) * (a + c) <= b * b;
    assert (a + c) * (a + c) - 4.0 * a * c == (a - c) * (a - c);
  }

  /** The smaller root's numerator `-b - q` lies in (0, 2a]. */
  lemma SmallerRootBounds(a: real, b: real, c: real, q: real)
    requires 0.0 < a && 0.0 < c && a + c <= -b && 0.0 <= q && q * q == b * b - 4.0 * a * c
    ensures 0.0 < -b - q <= 2.0 * a
  {
    FourProductPositive(a, c);
    assert q < -b by {
      if -b <= q {
        MulMonotone(-b, q, -b);
        MulMonotone(-b, q, q);
      }
    }
    var w := -b - 2.0 * a;
    if 0.0 < w {
      assert w * w == b * b + 4.0 * a * (a + b);
      AddedProduct(a, a + b + c);
      assert w * w <= q * q;
      SquareMonotone(w, q);
    }
  }

  /**
   * The source's root is the one below the vertex: any root phi with
   * -B - 2A*phi >= 0 is the value it computes.
   */
  lemma MushRootIs(p: PhaseParams, sqrt: real -> real, h: real, s: real, phi: real)
    requires IsSqrt(sqrt) && 0.0 < p.St
    requires MushQuadratic(p, h, s, phi) == 0.0 && 0.0 <= -QuadB(p, h) - 2.0 * QuadA(p) * phi
    ensures MushSolidFraction(p, sqrt, h, s) == phi
  {
    var a, b, c := QuadA(p), QuadB(p, h), QuadC(h, s);
    var w := -b - 2.0 * a * phi;
    assert w * w == b * b + 4.0 * a * (a * (phi * phi) + b * phi);
    assert a * (phi * phi) + b * phi == -c;
    var d := Discriminant(p, h, s);
    assert w * w == d;
    RootOfSquare(sqrt(d), w);
    HalfInverse(a);
    assert -b - sqrt(d) == (2.0 * a) * phi;
    assert (1.0 / (2.0 * a)) * ((2.0 * a) * phi) == phi;
  }

  // ---------------------------------------------------------------------
  // Balances and bounds, cell by cell
  // ---------------------------------------------------------------------

  /**
   * Enthalpy is sensible heat less latent heat, h = T - St * phi_s, in every
   * region.
   */
  lemma EnthalpyBalance(p: PhaseParams, sqrt: real -> real, h: real, s: real, r: Region)
    requires p.St != 0.0
    ensures h == TemperatureIn(p, h, SolidFractionIn(p, sqrt, h, s, r), r)
                 - SolidFractionIn(p, sqrt, h, s, r) * p.St
  {
    if r == Eutectic {
      assert (-(1.0 + h) / p.St) * p.St == -(1.0 + h);
    }
  }

  /**
   * In mush the bulk salinity is carried by the brine less the solid's share,
   * s = phi_l * S_l - C * phi_s, because the solid fraction solves the quadratic.
   */
  lemma MushSaltBalance(p: PhaseParams, sqrt: real -> real, h: real, s: real)
    requires IsSqrt(sqrt) && 0.0 < p.St && h < RP.Liquidus(s) && -p.C <= s
    ensures var phi := SolidFractionIn(p, sqrt, h, s, Mush);
            s == (1.0 - phi) * LiquidSalinityIn(s, TemperatureIn(p, h, phi, Mush), Mush) - p.C * phi
  {
    MushRoot(p, sqrt, h, s);
    var phi := MushSolidFraction(p, sqrt, h, s);
    assert (1.0 - phi) * -(h + phi * p.St) - p.C * phi == MushQuadratic(p, h, s, phi) + s;
  }

  lemma QuotientAtMostOne(x: real, d: real)
    requires x <= d && 0.0 < d
    ensures x / d <= 1.0
  {
    MulMonotone(x, d, 1.0 / d);
    assert d * (1.0 / d) == 1.0;
    assert x / d == x * (1.0 / d);
  }

  lemma QuotientInUnit(x: real, d: real)
    requires 0.0 <= x <= d && 0.0 < d
    ensures 0.0 <= x / d <= 1.0
  {
    MulMonotone(x, d, 1.0 / d);
    assert d * (1.0 / d) == 1.0;
    MulMonotone(0.0, x, 1.0 / d);
  }

  /**
   * On the physical salinity range every region's solid fraction lies in
   * [0, 1].
   */
  lemma SolidFractionBounds(p: PhaseParams, sqrt: real -> real, h: real, s: real)
    requires IsSqrt(sqrt) && 0.0 < p.St && 0.0 < 1.0 + p.C && -p.C <= s <= 1.0
    ensures var r := Classify(h, RP.Liquidus(s), RP.Eutectic(p, s), RP.Solidus(p));
            0.0 <= SolidFractionIn(p, sqrt, h, s, r) <= 1.0
  {
    RP.BoundariesOrdered(p, s);
    var r := Classify(h, RP.Liquidus(s), RP.Eutectic(p, s), RP.Solidus(p));
    match r
    case Liquid =>
    case Mush =>
      MushRoot(p, sqrt, h, s);
    case Eutectic =>
      RP.EutecticBelowFreezing(p, s);
      assert -(1.0 + h) <= p.St;
      QuotientInUnit(-(1.0 + h), p.St);
    case Solid =>
  }

  // ---------------------------------------------------------------------
  // Continuity across the region boundaries
  // ---------------------------------------------------------------------

  /**
   * At the liquidus h = -s the mush root vanishes (when s + St + C >= 0), so
   * solid fraction and temperature agree with the liquid formulas.
   */
  lemma LiquidMushContinuity(p: PhaseParams, sqrt: real -> real, s: real)
    requires IsSqrt(sqrt) && 0.0 < p.St && 0.0 <= s + p.St + p.C
    ensures SolidFractionIn(p, sqrt, RP.Liquidus(s), s, Mush) == SolidFractionIn(p, sqrt, RP.Liquidus(s), s, Liquid)
    ensures TemperatureIn(p, RP.Liquidus(s), 0.0, Mush) == TemperatureIn(p, RP.Liquidus(s), 0.0, Liquid)
  {
    MushRootIs(p, sqrt, RP.Liquidus(s), s, 0.0);
  }

  /**
   * At the solidus h = -1 - St the eutectic formulas give solid fraction 1
   * and temperature -1, as the solid formulas do.
   */
  lemma EutecticSolidContinuity(p: PhaseParams, sqrt: real -> real, s: real)
    requires p.St != 0.0
    ensures SolidFractionIn(p, sqrt, RP.Solidus(p), s, Eutectic) == SolidFractionIn(p, sqrt, RP.Solidus(p), s, Solid)
    ensures TemperatureIn(p, RP.Solidus(p), 1.0, Eutectic) == TemperatureIn(p, RP.Solidus(p), 1.0, Solid)
  {
    assert -(1.0 + RP.Solidus(p)) == p.St;
    assert p.St / p.St == 1.0;
  }

  /**
   * At the eutectic h = eut(s), on the physical salinity range, the mush root
   * and the eutectic formula both give (1 - s)/(1 + C), and the mush
   * temperature is the eutectic temperature -1.
   */
  lemma MushEutecticContinuity(p: PhaseParams, sqrt: real -> real, s: real)
    requires IsSqrt(sqrt) && 0.0 < p.St && 0.0 < 1.0 + p.C && -p.C <= s
    ensures SolidFractionIn(p, sqrt, RP.Eutectic(p, s), s, Mush) == (1.0 - s) / (1.0 + p.C)
    ensures SolidFractionIn(p, sqrt, RP.Eutectic(p, s), s, Eutectic) == (1.0 - s) / (1.0 + p.C)
    ensures TemperatureIn(p, RP.Eutectic(p, s), (1.0 - s) / (1.0 + p.C), Mush) == -1.0
  {
    var phi := (1.0 - s) / (1.0 + p.C);
    var h := RP.Eutectic(p, s);
    RP.EutecticIsSolidusShift(p, s);
    assert h == -p.St * phi - 1.0;
    assert (1.0 + p.C) * phi == 1.0 - s;
    assert MushQuadratic(p, h, s, phi) == -(1.0 + p.C) * phi + 1.0 - s;
    QuotientAtMostOne(1.0 - s, 1.0 + p.C);
    MulMonotone(phi, 1.0, p.St);
    assert p.St * (1.0 - phi) == p.St - phi * p.St;
    assert -QuadB(p, h) - 2.0 * QuadA(p) * phi == p.St * (1.0 - phi) + (1.0 + p.C);
    MushRootIs(p, sqrt, h, s, phi);
    assert -(1.0 + h) == p.St * phi;
    assert (p.St * phi) / p.St == phi;
  }

  // ---------------------------------------------------------------------
  // Whole columns: masked writes become a per-cell case on the region
  // ---------------------------------------------------------------------

  /** The six fields the enthalpy method derives, in the order the source returns them. */
  datatype Derived = Derived(
    temperature: seq<real>,
    liquidFraction: seq<real>,
    gasFraction: seq<real>,
    solidFraction: seq<real>,
    liquidSalinity: seq<real>,
    dissolvedGas: seq<real>)

  function CalculateSolidFraction(p: PhaseParams, sqrt: real -> real, enthalpy: seq<real>, salt: seq<real>,
                                  regions: seq<Region>): (phi: seq<real>)
    requires |enthalpy| == |salt| == |regions| && p.St != 0.0
    ensures |phi| == |enthalpy|
    ensures forall i :: 0 <= i < |phi| ==> phi[i] == SolidFractionIn(p, sqrt, enthalpy[i], salt[i], regions[i])
  {
    seq(|enthalpy|, i requires 0 <= i < |enthalpy| => SolidFractionIn(p, sqrt, enthalpy[i], salt[i], regions[i]))
  }

  function CalculateTemperature(p: PhaseParams, enthalpy: seq<real>, solidFraction: seq<real>,
                                regions: seq<Region>): (t: seq<real>)
    requires |enthalpy| == |solidFraction| == |regions|
    ensures |t| == |enthalpy|
    ensures forall i :: 0 <= i < |t| ==> t[i] == TemperatureIn(p, enthalpy[i], solidFraction[i], regions[i])
  {
    seq(|enthalpy|, i requires 0 <= i < |enthalpy| => TemperatureIn(p, enthalpy[i], solidFraction[i], regions[i]))
  }

  /** Gas is neglected in the reduced model, so liquid and solid fractions sum to one. */
  function CalculateLiquidFraction(solidFraction: seq<real>): (lf: seq<real>)
    ensures |lf| == |solidFraction|
    ensures forall i :: 0 <= i < |lf| ==> lf[i] + solidFraction[i] == 1.0
  {
    seq(|solidFraction|, i requires 0 <= i < |solidFraction| => 1.0 - solidFraction[i])
  }

  function CalculateGasFraction(p: PhaseParams, tolerance: real, gas: seq<real>, liquidFraction: seq<real>): (gf: seq<real>)
    requires |gas| == |liquidFraction|
    ensures |gf| == |gas|
    ensures forall i :: 0 <= i < |gf| ==> gf[i] == GasFractionIn(p, tolerance, gas[i], liquidFraction[i])
  {
    seq(|gas|, i requires 0 <= i < |gas| => GasFractionIn(p, tolerance, gas[i], liquidFraction[i]))
  }

  predicate AllDissolvedGasDefined(p: PhaseParams, tolerance: real, gas: seq<real>, liquidFraction: seq<real>)
    requires |gas| == |liquidFraction|
  {
    forall i :: 0 <= i < |gas| ==> DissolvedGasDefined(p, tolerance, gas[i], liquidFraction[i])
  }

  function CalculateDissolvedGas(p: PhaseParams, tolerance: real, gas: seq<real>, liquidFraction: seq<real>): (c: seq<real>)
    requires |gas| == |liquidFraction| && AllDissolvedGasDefined(p, tolerance, gas, liquidFraction)
    ensures |c| == |gas|
    ensures forall i :: 0 <= i < |c| ==> c[i] == DissolvedGasIn(p, tolerance, gas[i], liquidFraction[i])
  {
    seq(|gas|, i requires 0 <= i < |gas| => DissolvedGasIn(p, tolerance, gas[i], liquidFraction[i]))
  }

  function CalculateLiquidSalinity(salt: seq<real>, temperature: seq<real>, regions: seq<Region>): (sl: seq<real>)
    requires |salt| == |temperature| == |regions|
    ensures |sl| == |salt|
    ensures forall i :: 0 <= i < |sl| ==> sl[i] == LiquidSalinityIn(salt[i], temperature[i], regions[i])
  {
    seq(|salt|, i requires 0 <= i < |salt| => LiquidSalinityIn(salt[i], temperature[i], regions[i]))
  }

  /** The liquid fraction the EQM method computes for a column. */
  function ColumnLiquidFraction(p: PhaseParams, sqrt: real -> real, enthalpy: seq<real>, salt: seq<real>): seq<real>
    requires |enthalpy| == |salt| && p.St != 0.0 && 1.0 + p.C != 0.0
  {
    CalculateLiquidFraction(CalculateSolidFraction(p, sqrt, enthalpy, salt, RP.Regions(p, enthalpy, salt)))
  }

  /** What the EQM method needs of its inputs so that no division by zero occurs. */
  predicate EQMAdmissible(p: PhaseParams, tolerance: real, sqrt: real -> real, s: EQMState) {
    WellShaped(s) && p.St != 0.0 && 1.0 + p.C != 0.0 &&
    AllDissolvedGasDefined(p, tolerance, s.gas, ColumnLiquidFraction(p, sqrt, s.enthalpy, s.salt))
  }

  /**
   * The reduced (equilibrium gas) enthalpy method. Every derived column has
   * the state's length; in every cell liquid and solid fractions sum to one,
   * the enthalpy is T - St * phi_s, the gas fraction is non-negative, and
   * dissolved and free gas add up to the bulk gas.
   */
  function ReducedEnthalpyMethod(p: PhaseParams, tolerance: real, sqrt: real -> real, s: EQMState): (d: Derived)
    requires EQMAdmissible(p, tolerance, sqrt, s)
    ensures EQMBalanced(p, s, d)
  {
    var d := ReducedColumns(p, tolerance, sqrt, s);
    ColumnBalances(p, tolerance, sqrt, s, d);
    d
  }

  /** The six masked computations of the reduced method, in the source's order. */
  function ReducedColumns(p: PhaseParams, tolerance: real, sqrt: real -> real, s: EQMState): Derived
    requires EQMAdmissible(p, tolerance, sqrt, s)
  {
    var regions := RP.Regions(p, s.enthalpy, s.salt);
    var solid := CalculateSolidFraction(p, sqrt, s.enthalpy, s.salt, regions);
    var liquid := CalculateLiquidFraction(solid);
    var temperature := CalculateTemperature(p, s.enthalpy, solid, regions);
    var gasFraction := CalculateGasFraction(p, tolerance, s.gas, liquid);
    var salinity := CalculateLiquidSalinity(s.salt, temperature, regions);
    var dissolved := CalculateDissolvedGas(p, tolerance, s.gas, liquid);
    Derived(temperature, liquid, gasFraction, solid, salinity, dissolved)
  }

  /** In liquid cells of the column there is no solid and the liquid salinity is the bulk salinity. */
  predicate LiquidCellsCarrySalt(p: PhaseParams, enthalpy: seq<real>, salt: seq<real>, d: Derived)
    requires |enthalpy| == |salt| && 1.0 + p.C != 0.0
  {
    |d.solidFraction| == |d.liquidSalinity| == |salt| &&
    forall i :: 0 <= i < |salt| && RP.Regions(p, enthalpy, salt)[i] == Liquid ==>
      d.solidFraction[i] == 0.0 && d.liquidSalinity[i] == salt[i]
  }

  /**
   * The salt balance in mush: the bulk salinity is the brine's salt less the
   * solid's share, S = phi_l * S_l - C * phi_s, in every mush cell whose
   * salinity is physical (at least -C).
   */
  predicate MushCellsBalanceSalt(p: PhaseParams, enthalpy: seq<real>, salt: seq<real>, d: Derived)
    requires |enthalpy| == |salt| && 1.0 + p.C != 0.0
  {
    |d.liquidFraction| == |d.solidFraction| == |d.liquidSalinity| == |salt| &&
    forall i :: 0 <= i < |salt| && RP.Regions(p, enthalpy, salt)[i] == Mush && -p.C <= salt[i] ==>
      salt[i] == d.liquidFraction[i] * d.liquidSalinity[i] - p.C * d.solidFraction[i]
  }

  /** The thermal columns both enthalpy methods compute, masked in the source's order. */
  predicate ThermalColumns(p: PhaseParams, sqrt: real -> real, enthalpy: seq<real>, salt: seq<real>, d: Derived)
    requires |enthalpy| == |salt| && p.St != 0.0 && 1.0 + p.C != 0.0
  {
    var regions := RP.Regions(p, enthalpy, salt);
    d.solidFraction == CalculateSolidFraction(p, sqrt, enthalpy, salt, regions) &&
    d.liquidFraction == CalculateLiquidFraction(d.solidFraction) &&
    d.temperature == CalculateTemperature(p, enthalpy, d.solidFraction, regions) &&
    d.liquidSalinity == CalculateLiquidSalinity(salt, d.temperature, regions)
  }

  lemma ThermalColumnsCarrySalt(p: PhaseParams, sqrt: real -> real, enthalpy: seq<real>, salt: seq<real>, d: Derived)
    requires |enthalpy| == |salt| && p.St != 0.0 && 1.0 + p.C != 0.0
    requires ThermalColumns(p, sqrt, enthalpy, salt, d)
    ensures LiquidCellsCarrySalt(p, enthalpy, salt, d)
  {
  }

  /** With a true square root and a positive Stefan number the mush cells of the thermal columns balance salt. */
  lemma ThermalColumnsBalanceSalt(p: PhaseParams, sqrt: real -> real, enthalpy: seq<real>, salt: seq<real>, d: Derived)
    requires |enthalpy| == |salt| && IsSqrt(sqrt) && 0.0 < p.St && 1.0 + p.C != 0.0
    requires ThermalColumns(p, sqrt, enthalpy, salt, d)
    ensures MushCellsBalanceSalt(p, enthalpy, salt, d)
  {
    var regions := RP.Regions(p, enthalpy, salt);
    forall i | 0 <= i < |salt| && regions[i] == Mush && -p.C <= salt[i]
      ensures salt[i] == d.liquidFraction[i] * d.liquidSalinity[i] - p.C * d.solidFraction[i]
    {
      var m := RP.GetPhaseMasks(p, enthalpy, salt);
      assert Holds(RP.MasksAt(m, i), Mush);
      MushSaltBalance(p, sqrt, enthalpy[i], salt[i]);
    }
  }

  /** The reduced method balances salt in every mush cell. */
  lemma ReducedSaltBalance(p: PhaseParams, tolerance: real, sqrt: real -> real, s: EQMState)
    requires EQMAdmissible(p, tolerance, sqrt, s) && IsSqrt(sqrt) && 0.0 < p.St
    ensures MushCellsBalanceSalt(p, s.enthalpy, s.salt, ReducedEnthalpyMethod(p, tolerance, sqrt, s))
  {
    ThermalColumnsBalanceSalt(p, sqrt, s.enthalpy, s.salt, ReducedColumns(p, tolerance, sqrt, s));
  }

  /**
   * What the reduced method guarantees of a column: every derived field has
   * the state's length; in every cell liquid and solid fractions sum to one,
   * the enthalpy is T - St * phi_s, the gas fraction is non-negative, and
   * dissolved and free gas add up to the bulk gas; in liquid cells there is
   * no solid and the brine carries the bulk salinity.
   */
  predicate EQMBalanced(p: PhaseParams, s: EQMState, d: Derived)
    requires |s.enthalpy| == |s.salt| && 1.0 + p.C != 0.0
  {
    |d.temperature| == |d.liquidFraction| == |d.gasFraction| == |s.enthalpy| &&
    |d.solidFraction| == |d.liquidSalinity| == |d.dissolvedGas| == |s.enthalpy| && |s.gas| == |s.enthalpy| &&
    LiquidCellsCarrySalt(p, s.enthalpy, s.salt, d) &&
    (forall i :: 0 <= i < |s.enthalpy| ==> d.liquidFraction[i] + d.solidFraction[i] == 1.0) &&
    (forall i :: 0 <= i < |s.enthalpy| ==> s.enthalpy[i] == d.temperature[i] - d.solidFraction[i] * p.St) &&
    (forall i :: 0 <= i < |s.enthalpy| ==> 0.0 <= d.gasFraction[i]) &&
    (forall i :: 0 <= i < |s.enthalpy| ==> p.chi * d.liquidFraction[i] * d.dissolvedGas[i] + d.gasFraction[i] == s.gas[i])
  }

  lemma ColumnBalances(p: PhaseParams, tolerance: real, sqrt: real -> real, s: EQMState, d: Derived)
    requires EQMAdmissible(p, tolerance, sqrt, s) && d == ReducedColumns(p, tolerance, sqrt, s)
    ensures EQMBalanced(p, s, d)
  {
    ThermalColumnsCarrySalt(p, sqrt, s.enthalpy, s.salt, d);
    ReducedColumnsBalanceEnthalpy(p, tolerance, sqrt, s, d);
    ReducedColumnsConserveGas(p, tolerance, sqrt, s, d);
  }

  /** Cell by cell, the reduced columns give back the enthalpy. */
  lemma ReducedColumnsBalanceEnthalpy(p: PhaseParams, tolerance: real, sqrt: real -> real, s: EQMState, d: Derived)
    requires EQMAdmissible(p, tolerance, sqrt, s) && d == ReducedColumns(p, tolerance, sqrt, s)
    ensures |d.temperature| == |d.solidFraction| == |s.enthalpy|
    ensures forall i :: 0 <= i < |s.enthalpy| ==> s.enthalpy[i] == d.temperature[i] - d.solidFraction[i] * p.St
  {
    var regions := RP.Regions(p, s.enthalpy, s.salt);
    ColumnEnthalpyBalance(p, sqrt, s.enthalpy, s.salt, regions, d.solidFraction, d.temperature);
  }

  /** Cell by cell, dissolved and free gas of the reduced columns add up to the bulk gas. */
  lemma ReducedColumnsConserveGas(p: PhaseParams, tolerance: real, sqrt: real -> real, s: EQMState, d: Derived)
    requires EQMAdmissible(p, tolerance, sqrt, s) && d == ReducedColumns(p, tolerance, sqrt, s)
    ensures |d.liquidFraction| == |d.dissolvedGas| == |d.gasFraction| == |s.enthalpy|
    ensures forall i :: 0 <= i < |s.enthalpy| ==> p.chi * d.liquidFraction[i] * d.dissolvedGas[i] + d.gasFraction[i] == s.gas[i]
  {
    assert d.liquidFraction == ColumnLiquidFraction(p, sqrt, s.enthalpy, s.salt);
    ColumnGasConserved(p, tolerance, s.gas, d.liquidFraction, d.dissolvedGas, d.gasFraction);
  }

  /** Cell by cell, the temperature and solid fraction of a column give back its enthalpy. */
  lemma ColumnEnthalpyBalance(p: PhaseParams, sqrt: real -> real, enthalpy: seq<real>, salt: seq<real>,
                              regions: seq<Region>, solid: seq<real>, temperature: seq<real>)
    requires |enthalpy| == |salt| == |regions| && p.St != 0.0
    requires solid == CalculateSolidFraction(p, sqrt, enthalpy, salt, regions)
    requires temperature == CalculateTemperature(p, enthalpy, solid, regions)
    ensures forall i :: 0 <= i < |enthalpy| ==> enthalpy[i] == temperature[i] - solid[i] * p.St
  {
    forall i | 0 <= i < |enthalpy|
      ensures enthalpy[i] == temperature[i] - solid[i] * p.St
    {
      EnthalpyBalance(p, sqrt, enthalpy[i], salt[i], regions[i]);
    }
  }

  /** Cell by cell, dissolved and free gas of a column add up to its bulk gas. */
  lemma ColumnGasConserved(p: PhaseParams, tolerance: real, gas: seq<real>, liquid: seq<real>,
                           dissolved: seq<real>, gasFraction: seq<real>)
    requires |gas| == |liquid| && AllDissolvedGasDefined(p, tolerance, gas, liquid)
    requires dissolved == CalculateDissolvedGas(p, tolerance, gas, liquid)
    requires gasFraction == CalculateGasFraction(p, tolerance, gas, liquid)
    ensures forall i :: 0 <= i < |gas| ==> p.chi * liquid[i] * dissolved[i] + gasFraction[i] == gas[i]
  {
    forall i | 0 <= i < |gas|
      ensures p.chi * liquid[i] * dissolved[i] + gasFraction[i] == gas[i]
    {
      GasConservation(p, tolerance, gas[i], liquid[i]);
    }
  }

  // ---------------------------------------------------------------------
  // The disequilibrium variant: gas fraction is a primary variable
  // ---------------------------------------------------------------------

  /** Keeps the dissolved gas finite as the eutectic freezes completely. */
  const Regularisation: real := 0.000001

  predicate DiseqDissolvedGasDefined(p: PhaseParams, liquidFraction: real, r: Region) {
    match r
    case Liquid => p.chi != 0.0
    case Mush => p.chi * liquidFraction != 0.0
    case Eutectic => p.chi * liquidFraction + Regularisation != 0.0
    case Solid => true
  }

  function DiseqDissolvedGasIn(p: PhaseParams, bulkDissolvedGas: real, liquidFraction: real, r: Region): real
    requires DiseqDissolvedGasDefined(p, liquidFraction, r)
  {
    match r
    case Liquid => bulkDissolvedGas / p.chi
    case Mush => bulkDissolvedGas / (p.chi * liquidFraction)
    case Eutectic => bulkDissolvedGas / (p.chi * liquidFraction + Regularisation)
    case Solid => 0.0
  }

  /**
   * In liquid (where the liquid fraction is 1) and in mush, the dissolved gas
   * concentration reproduces the bulk dissolved gas: chi * phi_l * c = bulk.
   */
  lemma DiseqDissolvedGasConsistent(p: PhaseParams, bulkDissolvedGas: real, liquidFraction: real, r: Region)
    requires r == Liquid || r == Mush
    requires r == Liquid ==> liquidFraction == 1.0
    requires DiseqDissolvedGasDefined(p, liquidFraction, r)
    ensures p.chi * liquidFraction * DiseqDissolvedGasIn(p, bulkDissolvedGas, liquidFraction, r) == bulkDissolvedGas
  {
    var d := p.chi * liquidFraction;
    if r == Liquid {
      assert d == p.chi;
    }
    assert d * (bulkDissolvedGas / d) == bulkDissolvedGas;
  }

  function CalculateDiseqDissolvedGas(p: PhaseParams, bulkDissolvedGas: seq<real>, liquidFraction: seq<real>,
                                      regions: seq<Region>): (c: seq<real>)
    requires |bulkDissolvedGas| == |liquidFraction| == |regions|
    requires forall i :: 0 <= i < |regions| ==> DiseqDissolvedGasDefined(p, liquidFraction[i], regions[i])
    ensures |c| == |bulkDissolvedGas|
    ensures forall i :: 0 <= i < |c| ==> c[i] == DiseqDissolvedGasIn(p, bulkDissolvedGas[i], liquidFraction[i], regions[i])
  {
    seq(|regions|, i requires 0 <= i < |regions| =>
      DiseqDissolvedGasIn(p, bulkDissolvedGas[i], liquidFraction[i], regions[i]))
  }

  /** The disequilibrium method refuses to compute a gas fraction: it is a primary variable. */
  function DisequilibriumGasFraction(): (r: Result<seq<real>>)
    ensures r.Err? && r.error.TypeError?
  {
    Err(TypeError("No need to call this as gas fraction is a primary variable"))
  }

  predicate DISEQAdmissible(p: PhaseParams, sqrt: real -> real, s: DISEQState) {
    |s.enthalpy| == |s.salt| == |s.bulkDissolvedGas| == |s.gasFraction| && p.St != 0.0 && 1.0 + p.C != 0.0 &&
    var regions := RP.Regions(p, s.enthalpy, s.salt);
    var lf := ColumnLiquidFraction(p, sqrt, s.enthalpy, s.salt);
    forall i :: 0 <= i < |regions| ==> DiseqDissolvedGasDefined(p, lf[i], regions[i])
  }

  /**
   * The disequilibrium enthalpy method: the same thermal fields as the
   * reduced method, the state's own gas fraction passed through, and the
   * dissolved gas consistent with the bulk dissolved gas in liquid and mush.
   */
  function DisequilibriumEnthalpyMethod(p: PhaseParams, sqrt: real -> real, s: DISEQState): (d: Derived)
    requires DISEQAdmissible(p, sqrt, s)
    ensures d.gasFraction == s.gasFraction
    ensures DISEQBalanced(p, s, d)
  {
    var d := DiseqColumns(p, sqrt, s);
    DiseqColumnBalances(p, sqrt, s, d);
    d
  }

  function DiseqColumns(p: PhaseParams, sqrt: real -> real, s: DISEQState): Derived
    requires DISEQAdmissible(p, sqrt, s)
  {
    var regions := RP.Regions(p, s.enthalpy, s.salt);
    var solid := CalculateSolidFraction(p, sqrt, s.enthalpy, s.salt, regions);
    var liquid := CalculateLiquidFraction(solid);
    var temperature := CalculateTemperature(p, s.enthalpy, solid, regions);
    var salinity := CalculateLiquidSalinity(s.salt, temperature, regions);
    var dissolved := CalculateDiseqDissolvedGas(p, s.bulkDissolvedGas, liquid, regions);
    Derived(temperature, liquid, s.gasFraction, solid, salinity, dissolved)
  }

  /**
   * What the disequilibrium method guarantees of a column: every derived
   * field has the state's length; liquid and solid fractions sum to one, the
   * enthalpy is T - St * phi_s, and in liquid and mush cells the dissolved
   * gas reproduces the bulk dissolved gas, chi * phi_l * c = bulk; in liquid
   * cells there is no solid and the brine carries the bulk salinity.
   */
  predicate DISEQBalanced(p: PhaseParams, s: DISEQState, d: Derived)
    requires |s.enthalpy| == |s.salt| && 1.0 + p.C != 0.0
  {
    |d.temperature| == |d.liquidFraction| == |d.solidFraction| == |d.liquidSalinity| == |d.dissolvedGas| == |s.enthalpy| &&
    |s.bulkDissolvedGas| == |s.enthalpy| &&
    LiquidCellsCarrySalt(p, s.enthalpy, s.salt, d) &&
    (forall i :: 0 <= i < |s.enthalpy| ==> d.liquidFraction[i] + d.solidFraction[i] == 1.0) &&
    (forall i :: 0 <= i < |s.enthalpy| ==> s.enthalpy[i] == d.temperature[i] - d.solidFraction[i] * p.St) &&
    (forall i :: 0 <= i < |s.enthalpy| && RP.Regions(p, s.enthalpy, s.salt)[i] in {Liquid, Mush} ==>
      p.chi * d.liquidFraction[i] * d.dissolvedGas[i] == s.bulkDissolvedGas[i])
  }

  lemma DiseqColumnBalances(p: PhaseParams, sqrt: real -> real, s: DISEQState, d: Derived)
    requires DISEQAdmissible(p, sqrt, s) && d == DiseqColumns(p, sqrt, s)
    ensures d.gasFraction == s.gasFraction && DISEQBalanced(p, s, d)
  {
    ThermalColumnsCarrySalt(p, sqrt, s.enthalpy, s.salt, d);
    var regions := RP.Regions(p, s.enthalpy, s.salt);
    forall i | 0 <= i < |s.enthalpy|
      ensures s.enthalpy[i] == d.temperature[i] - d.solidFraction[i] * p.St
      ensures regions[i] in {Liquid, Mush} ==> p.chi * d.liquidFraction[i] * d.dissolvedGas[i] == s.bulkDissolvedGas[i]
    {
      EnthalpyBalance(p, sqrt, s.enthalpy[i], s.salt[i], regions[i]);
      if regions[i] in {Liquid, Mush} {
        DiseqDissolvedGasConsistent(p, s.bulkDissolvedGas[i], d.liquidFraction[i], regions[i]);
      }
    }
  }

  /** The disequilibrium method balances salt in every mush cell. */
  lemma DiseqSaltBalance(p: PhaseParams, sqrt: real -> real, s: DISEQState)
    requires DISEQAdmissible(p, sqrt, s) && IsSqrt(sqrt) && 0.0 < p.St
    ensures MushCellsBalanceSalt(p, s.enthalpy, s.salt, DisequilibriumEnthalpyMethod(p, sqrt, s))
  {
    ThermalColumnsBalanceSalt(p, sqrt, s.enthalpy, s.salt, DiseqColumns(p, sqrt, s));
  }

  // ---------------------------------------------------------------------
  // Dispatch on the kind of state
  // ---------------------------------------------------------------------

  predicate Admissible(p: PhaseParams, tolerance: real, sqrt: real -> real, state: State) {
    match state
    case EQM(s) => EQMAdmissible(p, tolerance, sqrt, s)
    case DISEQ(s) => DISEQAdmissible(p, sqrt, s)
  }

  /**
   * Runs the enthalpy method matching the state's kind and returns the full
   * state of the same kind: the primary fields are copied unchanged and the
   * derived fields are the method's outputs.
   */
  function CalculateEnthalpyMethod(p: PhaseParams, tolerance: real, sqrt: real -> real, state: State): (r: StateFull)
    requires Admissible(p, tolerance, sqrt, state)
    ensures state.EQM? <==> r.EQMFull?
    ensures state.EQM? ==>
      var s, f := state.eqm, r.eqmFull;
      var d := ReducedEnthalpyMethod(p, tolerance, sqrt, s);
      f.time == s.time && f.enthalpy == s.enthalpy && f.salt == s.salt && f.gas == s.gas &&
      f.temperature == d.temperature && f.liquidFraction == d.liquidFraction &&
      f.solidFraction == d.solidFraction && f.liquidSalinity == d.liquidSalinity &&
      f.dissolvedGas == d.dissolvedGas && f.gasFraction == d.gasFraction
    ensures state.DISEQ? ==>
      var s, f := state.diseq, r.diseqFull;
      var d := DisequilibriumEnthalpyMethod(p, sqrt, s);
      f.time == s.time && f.enthalpy == s.enthalpy && f.salt == s.salt &&
      f.bulkDissolvedGas == s.bulkDissolvedGas && f.gasFraction == s.gasFraction &&
      f.temperature == d.temperature && f.liquidFraction == d.liquidFraction &&
      f.solidFraction == d.solidFraction && f.liquidSalinity == d.liquidSalinity &&
      f.dissolvedGas == d.dissolvedGas
  {
    match state
    case EQM(s) =>
      var d := ReducedEnthalpyMethod(p, tolerance, sqrt, s);
      EQMFull(EQMStateFull(s.time, s.enthalpy, s.salt, s.gas, d.temperature, d.liquidFraction,
                           d.solidFraction, d.liquidSalinity, d.dissolvedGas, d.gasFraction))
    case DISEQ(s) =>
      var d := DisequilibriumEnthalpyMethod(p, sqrt, s);
      DISEQFull(DISEQStateFull(s.time, s.enthalpy, s.salt, s.bulkDissolvedGas, s.gasFraction, d.temperature,
                               d.liquidFraction, d.solidFraction, d.liquidSalinity, d.dissolvedGas))
  }
}
