/**
 * Phase boundaries of the full model, in which bulk gas shifts the liquidus,
 * eutectic and solidus and each thermal region splits into a sub-saturated
 * and a super-saturated phase: eight phases l, L, m, M, e, E, s, S.
 */
module FullPhase {
  import opened Wrappers
  import opened Numerics
  import opened Phase
  import RP = ReducedPhase

  /** The liquidus for gas at most the saturation value chi. */
  function LiquidusSub(salt: real): real { -salt }

  /** The liquidus once the liquid is super-saturated with gas. */
  function LiquidusSuper(p: PhaseParams, salt: real, gas: real): real
    requires p.chi != 1.0
  {
    -(salt + p.C * ((gas - p.chi) / (1.0 - p.chi)))
  }

  function Liquidus(p: PhaseParams, salt: real, gas: real): real
    requires p.chi != 1.0
  {
    if gas <= p.chi then LiquidusSub(salt) else LiquidusSuper(p, salt, gas)
  }

  /** The two liquidus branches meet where the gas equals chi. */
  lemma LiquidusContinuous(p: PhaseParams, salt: real)
    requires p.chi != 1.0
    ensures LiquidusSuper(p, salt, p.chi) == LiquidusSub(salt) == Liquidus(p, salt, p.chi)
  {
    assert (p.chi - p.chi) / (1.0 - p.chi) == 0.0;
  }

  /** Liquid fraction of the eutectic at the start of eutectic solidification. */
  function EutecticLiquidFraction(p: PhaseParams, salt: real): real
    requires 1.0 + p.C != 0.0
  {
    (salt + p.C) / (1.0 + p.C)
  }

  function EutecticSub(p: PhaseParams, salt: real): real
    requires 1.0 + p.C != 0.0
  {
    -1.0 - p.St * (1.0 - EutecticLiquidFraction(p, salt))
  }

  function EutecticSuper(p: PhaseParams, salt: real, gas: real): real
    requires 1.0 + p.C != 0.0
  {
    var f := EutecticLiquidFraction(p, salt);
    -(1.0 - gas + p.chi * f) - (1.0 - gas + f * (p.chi - 1.0)) * p.St
  }

  function EutecticBoundary(p: PhaseParams, salt: real, gas: real): real
    requires 1.0 + p.C != 0.0
  {
    if gas <= p.chi * EutecticLiquidFraction(p, salt) then EutecticSub(p, salt) else EutecticSuper(p, salt, gas)
  }

  /** The eutectic branches meet where the gas saturates the eutectic liquid. */
  lemma EutecticContinuous(p: PhaseParams, salt: real)
    requires 1.0 + p.C != 0.0
    ensures EutecticSuper(p, salt, p.chi * EutecticLiquidFraction(p, salt)) == EutecticSub(p, salt)
  {
  }

  /** Without excess gas the eutectic is the reduced model's eutectic. */
  lemma EutecticSubIsReduced(p: PhaseParams, salt: real)
    requires 1.0 + p.C != 0.0
    ensures EutecticSub(p, salt) == RP.Eutectic(p, salt)
  {
    RP.EutecticIsSolidusShift(p, salt);
    var d := 1.0 + p.C;
    assert 1.0 - (salt + p.C) / d == (1.0 - salt) / d by {
      QuotientOfSelf(d);
      QuotientOfDifference(d, salt + p.C, d);
    }
  }

  function SolidusSub(p: PhaseParams): real { -1.0 - p.St }

  function SolidusSuper(p: PhaseParams, gas: real): real { (1.0 - gas) * (-1.0 - p.St) }

  function Solidus(p: PhaseParams, gas: real): real {
    if gas <= 0.0 then SolidusSub(p) else SolidusSuper(p, gas)
  }

  /** The solidus branches meet at zero gas. */
  lemma SolidusContinuous(p: PhaseParams)
    ensures SolidusSuper(p, 0.0) == SolidusSub(p) == Solidus(p, 0.0)
  {
  }

  /** Thermal masks of a cell from the gas-aware boundaries. */
  function GasMasks(p: PhaseParams, h: real, salt: real, gas: real): CellMasks
    requires p.chi != 1.0 && 1.0 + p.C != 0.0
  {
    ThermalMasks(h, Liquidus(p, salt, gas), EutecticBoundary(p, salt, gas), Solidus(p, gas))
  }

  /** Mush temperature of a gas-free cell: the smaller root of T^2 - B*T + A = 0. */
  function GasFreeMushB(p: PhaseParams, h: real): real { h + p.C + p.St }
  function GasFreeMushA(p: PhaseParams, h: real, salt: real): real { p.C * h - p.St * salt }
  function GasFreeMushDiscriminant(p: PhaseParams, h: real, salt: real): real {
    GasFreeMushB(p, h) * GasFreeMushB(p, h) - 4.0 * GasFreeMushA(p, h, salt)
  }

  /**
   * The gas content at which the liquid of a cell saturates, classified with
   * the gas-free boundaries. `None` stands for the NaN a negative
   * discriminant produces in a mushy cell.
   */
  function Saturation(p: PhaseParams, sqrt: real -> real, h: real, salt: real): (sat: Option<real>)
    requires p.chi != 1.0 && 1.0 + p.C != 0.0 && p.St != 0.0
    ensures var r := Classify(h, Liquidus(p, salt, 0.0), EutecticBoundary(p, salt, 0.0), Solidus(p, 0.0));
      (r == Liquid ==> sat == Some(p.chi)) &&
      (r == Eutectic ==> sat == Some(p.chi * (1.0 + (h + 1.0) / p.St))) &&
      (r == Solid ==> sat == Some(0.0)) &&
      (r == Mush ==> (sat.None? <==> GasFreeMushDiscriminant(p, h, salt) < 0.0))
  {
    match Classify(h, Liquidus(p, salt, 0.0), EutecticBoundary(p, salt, 0.0), Solidus(p, 0.0))
    case Liquid => Some(p.chi)
    case Mush =>
      var d := GasFreeMushDiscriminant(p, h, salt);
      if d < 0.0 then None
      else
        var t := (1.0 / 2.0) * (GasFreeMushB(p, h) - sqrt(d));
        Some(p.chi * (1.0 - (t - h) / p.St))
    case Eutectic => Some(p.chi * (1.0 + (h + 1.0) / p.St))
    case Solid => Some(0.0)
  }

  /** The gas-free boundaries of Saturation are the reduced model's boundaries when chi >= 0 and C > -1 with salt >= -C. */
  lemma GasFreeBoundariesAreReduced(p: PhaseParams, salt: real)
    requires p.chi != 1.0 && 0.0 <= p.chi && 0.0 < 1.0 + p.C && -p.C <= salt
    ensures Liquidus(p, salt, 0.0) == RP.Liquidus(salt)
    ensures EutecticBoundary(p, salt, 0.0) == RP.Eutectic(p, salt)
    ensures Solidus(p, 0.0) == RP.Solidus(p)
  {
    QuotientNonNegative(salt + p.C, 1.0 + p.C);
    MulMonotone(0.0, EutecticLiquidFraction(p, salt), p.chi);
    EutecticSubIsReduced(p, salt);
  }

  lemma QuotientNonNegative(a: real, b: real)
    requires 0.0 <= a && 0.0 < b
    ensures 0.0 <= a / b
  {
    if a != 0.0 { QuotientPositive(a, b); }
  }

  /** Largest bulk salinity for which the cell can still be liquid, at this gas content. */
  function MaxSalt(p: PhaseParams, gas: real): real
    requires p.chi != 1.0
  {
    if gas <= p.chi then 1.0 else 1.0 - (gas - p.chi) / (1.0 - p.chi) * (1.0 + p.C)
  }

  /** The two branches of MaxSalt meet at gas = chi, and excess gas lowers it below 1. */
  lemma MaxSaltProperties(p: PhaseParams, gas: real)
    requires p.chi < 1.0 && 0.0 < 1.0 + p.C
    ensures 1.0 - (p.chi - p.chi) / (1.0 - p.chi) * (1.0 + p.C) == MaxSalt(p, p.chi) == 1.0
    ensures MaxSalt(p, gas) <= 1.0
  {
    assert (p.chi - p.chi) / (1.0 - p.chi) == 0.0;
    if p.chi < gas {
      QuotientPositive(gas - p.chi, 1.0 - p.chi);
      MulStrict(0.0, (gas - p.chi) / (1.0 - p.chi), 1.0 + p.C);
    }
  }

  // ---------------------------------------------------------------------
  // The eight phase masks
  // ---------------------------------------------------------------------

  /**
   * A phase of the full model, in the source's mask order l, L, m, M, e, E,
   * s, S: a thermal region split by whether the gas is at most saturation.
   */
  datatype GasPhase =
    | SubLiquid | SuperLiquid | SubMush | SuperMush
    | SubEutectic | SuperEutectic | SubSolid | SuperSolid
  {
    function ThermalRegion(): Region {
      match this
      case SubLiquid | SuperLiquid => Liquid
      case SubMush | SuperMush => Mush
      case SubEutectic | SuperEutectic => Eutectic
      case SubSolid | SuperSolid => Solid
    }

    predicate SubSaturated() {
      this == SubLiquid || this == SubMush || this == SubEutectic || this == SubSolid
    }
  }

  /** The phase of a region with the given saturation state. */
  function PhaseFor(r: Region, sub: bool): (ph: GasPhase)
    ensures ph.ThermalRegion() == r && ph.SubSaturated() == sub
  {
    match r
    case Liquid => if sub then SubLiquid else SuperLiquid
    case Mush => if sub then SubMush else SuperMush
    case Eutectic => if sub then SubEutectic else SuperEutectic
    case Solid => if sub then SubSolid else SuperSolid
  }

  /** Sub-saturated when the gas does not exceed a defined saturation; NaN compares false. */
  function IsSubSaturated(p: PhaseParams, sqrt: real -> real, h: real, salt: real, gas: real): bool
    requires p.chi != 1.0 && 1.0 + p.C != 0.0 && p.St != 0.0
  {
    match Saturation(p, sqrt, h, salt)
    case None => false
    case Some(sat) => gas <= sat
  }

  /** The eight masks over a column, in the order l, L, m, M, e, E, s, S. */
  datatype FullMasks = FullMasks(
    l: seq<bool>, L: seq<bool>, m: seq<bool>, M: seq<bool>,
    e: seq<bool>, E: seq<bool>, s: seq<bool>, S: seq<bool>)

  predicate MasksShaped(fm: FullMasks, n: nat) {
    |fm.l| == |fm.L| == |fm.m| == |fm.M| == |fm.e| == |fm.E| == |fm.s| == |fm.S| == n
  }

  /** Whether the mask of phase `ph` holds at cell `i`. */
  function HoldsAt(fm: FullMasks, i: nat, ph: GasPhase): bool
    requires MasksShaped(fm, |fm.l|) && i < |fm.l|
  {
    match ph
    case SubLiquid => fm.l[i]
    case SuperLiquid => fm.L[i]
    case SubMush => fm.m[i]
    case SuperMush => fm.M[i]
    case SubEutectic => fm.e[i]
    case SuperEutectic => fm.E[i]
    case SubSolid => fm.s[i]
    case SuperSolid => fm.S[i]
  }

  /**
   * The eight masks of a column: each thermal mask split by whether the
   * cell's gas is at or below its saturation.
   */
  function GetPhaseMasks(p: PhaseParams, sqrt: real -> real, enthalpy: seq<real>, salt: seq<real>, gas: seq<real>)
    : (fm: FullMasks)
    requires |enthalpy| == |salt| == |gas| && p.chi != 1.0 && 1.0 + p.C != 0.0 && p.St != 0.0
    ensures MasksShaped(fm, |enthalpy|)
  {
    var n := |enthalpy|;
    var tm := i requires 0 <= i < n => GasMasks(p, enthalpy[i], salt[i], gas[i]);
    var sub := i requires 0 <= i < n => IsSubSaturated(p, sqrt, enthalpy[i], salt[i], gas[i]);
    FullMasks(
      seq(n, i requires 0 <= i < n => tm(i).liquid && sub(i)),
      seq(n, i requires 0 <= i < n => tm(i).liquid && !sub(i)),
      seq(n, i requires 0 <= i < n => tm(i).mush && sub(i)),
      seq(n, i requires 0 <= i < n => tm(i).mush && !sub(i)),
      seq(n, i requires 0 <= i < n => tm(i).eutectic && sub(i)),
      seq(n, i requires 0 <= i < n => tm(i).eutectic && !sub(i)),
      seq(n, i requires 0 <= i < n => tm(i).solid && sub(i)),
      seq(n, i requires 0 <= i < n => tm(i).solid && !sub(i)))
  }

  /**
   * The mask of phase `ph` holds at a cell exactly when the thermal mask of
   * its region holds there and its saturation state is the cell's.
   */
  lemma PhaseMasksMeaning(p: PhaseParams, sqrt: real -> real, enthalpy: seq<real>, salt: seq<real>, gas: seq<real>,
                          i: nat, ph: GasPhase)
    requires |enthalpy| == |salt| == |gas| && p.chi != 1.0 && 1.0 + p.C != 0.0 && p.St != 0.0
    requires i < |enthalpy|
    ensures HoldsAt(GetPhaseMasks(p, sqrt, enthalpy, salt, gas), i, ph) <==>
      Holds(GasMasks(p, enthalpy[i], salt[i], gas[i]), ph.ThermalRegion()) &&
      ph.SubSaturated() == IsSubSaturated(p, sqrt, enthalpy[i], salt[i], gas[i])
  {
  }

  /**
   * Wherever exactly one thermal mask holds, exactly one of the eight masks
   * holds: the phase of that region with the cell's saturation state.
   */
  lemma EightMasksPartition(p: PhaseParams, sqrt: real -> real, enthalpy: seq<real>, salt: seq<real>,
                            gas: seq<real>, i: nat, r: Region, ph: GasPhase)
    requires |enthalpy| == |salt| == |gas| && p.chi != 1.0 && 1.0 + p.C != 0.0 && p.St != 0.0
    requires i < |enthalpy|
    requires forall r' :: Holds(GasMasks(p, enthalpy[i], salt[i], gas[i]), r') <==> r' == r
    ensures HoldsAt(GetPhaseMasks(p, sqrt, enthalpy, salt, gas), i, ph) <==>
      ph == PhaseFor(r, IsSubSaturated(p, sqrt, enthalpy[i], salt[i], gas[i]))
  {
    PhaseMasksMeaning(p, sqrt, enthalpy, salt, gas, i, ph);
  }

  /** The phase of every cell of a column, as the eight masked writes select it. */
  function Phases(p: PhaseParams, sqrt: real -> real, enthalpy: seq<real>, salt: seq<real>, gas: seq<real>)
    : (r: seq<GasPhase>)
    requires |enthalpy| == |salt| == |gas| && p.chi != 1.0 && 1.0 + p.C != 0.0 && p.St != 0.0
    ensures |r| == |enthalpy|
    ensures forall i :: 0 <= i < |r| ==>
      Holds(GasMasks(p, enthalpy[i], salt[i], gas[i]), r[i].ThermalRegion()) &&
      NoLaterMask(GasMasks(p, enthalpy[i], salt[i], gas[i]), r[i].ThermalRegion()) &&
      r[i].SubSaturated() == IsSubSaturated(p, sqrt, enthalpy[i], salt[i], gas[i])
  {
    seq(|enthalpy|, i requires 0 <= i < |enthalpy| => PhaseOf(p, sqrt, enthalpy[i], salt[i], gas[i]))
  }

  /** The phase chosen for each cell is one whose mask holds there. */
  lemma PhasesSelectMasks(p: PhaseParams, sqrt: real -> real, enthalpy: seq<real>, salt: seq<real>, gas: seq<real>,
                          i: nat)
    requires |enthalpy| == |salt| == |gas| && p.chi != 1.0 && 1.0 + p.C != 0.0 && p.St != 0.0
    requires i < |enthalpy|
    ensures HoldsAt(GetPhaseMasks(p, sqrt, enthalpy, salt, gas), i, Phases(p, sqrt, enthalpy, salt, gas)[i])
  {
    PhaseMasksMeaning(p, sqrt, enthalpy, salt, gas, i, Phases(p, sqrt, enthalpy, salt, gas)[i]);
  }

  /**
   * The phase whose values survive the eight masked writes in a cell: the
   * last thermal region that holds, with the cell's saturation state.
   */
  function PhaseOf(p: PhaseParams, sqrt: real -> real, h: real, salt: real, gas: real): (ph: GasPhase)
    requires p.chi != 1.0 && 1.0 + p.C != 0.0 && p.St != 0.0
    ensures Holds(GasMasks(p, h, salt, gas), ph.ThermalRegion()) && NoLaterMask(GasMasks(p, h, salt, gas), ph.ThermalRegion())
    ensures ph.SubSaturated() == IsSubSaturated(p, sqrt, h, salt, gas)
  {
    PhaseFor(Classify(h, Liquidus(p, salt, gas), EutecticBoundary(p, salt, gas), Solidus(p, gas)),
             IsSubSaturated(p, sqrt, h, salt, gas))
  }
}
