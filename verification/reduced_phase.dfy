/**
 * Phase boundaries of the reduced model, which neglects the gas fraction so
 * that solid and liquid fractions sum to one.
 */
module ReducedPhase {
  import opened Phase
  import opened Numerics

  function Liquidus(salt: real): real { -salt }

  /** Enthalpy at which the eutectic begins to solidify at bulk salinity `salt`. */
  function Eutectic(p: PhaseParams, salt: real): real
    requires 1.0 + p.C != 0.0
  {
    p.St * (salt - 1.0) / (1.0 + p.C) - 1.0
  }

  /** The eutectic meets the liquidus, at enthalpy -1, where the bulk salinity is 1. */
  lemma EutecticMeetsLiquidus(p: PhaseParams)
    requires 1.0 + p.C != 0.0
    ensures Eutectic(p, 1.0) == Liquidus(1.0) == -1.0
  {
    assert p.St * (1.0 - 1.0) == 0.0;
  }

  function Solidus(p: PhaseParams): real { -1.0 - p.St }

  /**
   * For positive Stefan number and concentration ratio above -1 the
   * boundaries are ordered solidus <= eutectic <= liquidus exactly on the
   * physical salinity range -C <= salt <= 1.
   */
  lemma BoundariesOrdered(p: PhaseParams, salt: real)
    requires 0.0 < p.St && 0.0 < 1.0 + p.C
    ensures Solidus(p) <= Eutectic(p, salt) <==> -p.C <= salt
    ensures Eutectic(p, salt) <= Liquidus(salt) <==> salt <= 1.0
  {
    var k := p.St / (1.0 + p.C);
    QuotientPositive(p.St, 1.0 + p.C);
    EutecticGaps(p, salt);
    SignOfProduct(salt + p.C, k);
    SignOfProduct(1.0 - salt, 1.0 + k);
  }

  /** The gaps between neighbouring boundaries, with k = St / (1 + C). */
  lemma EutecticGaps(p: PhaseParams, salt: real)
    requires 1.0 + p.C != 0.0
    ensures Eutectic(p, salt) - Solidus(p) == (salt + p.C) * (p.St / (1.0 + p.C))
    ensures Liquidus(salt) - Eutectic(p, salt) == (1.0 - salt) * (1.0 + p.St / (1.0 + p.C))
  {
    var d := 1.0 + p.C;
    var k := p.St / d;
    var e := Eutectic(p, salt);
    assert (e + 1.0) * d == p.St * (salt - 1.0);
    assert k * d == p.St;
    assert d * ((e + 1.0) - k * (salt - 1.0)) == 0.0;
    ProductZero(d, (e + 1.0) - k * (salt - 1.0));
    assert e - Solidus(p) == k * (salt - 1.0) + k * d;
    assert Liquidus(salt) - e == (1.0 - salt) - k * (salt - 1.0);
  }

  lemma SignOfProduct(x: real, k: real)
    requires 0.0 < k
    ensures 0.0 <= x * k <==> 0.0 <= x
  {
    if x < 0.0 {
      assert x * k < 0.0;
    }
  }

  /** eut(s) = -St * (1 - s)/(1 + C) - 1. */
  lemma EutecticIsSolidusShift(p: PhaseParams, s: real)
    requires 1.0 + p.C != 0.0
    ensures Eutectic(p, s) == -p.St * ((1.0 - s) / (1.0 + p.C)) - 1.0
  {
    MulDiv(p.St, s - 1.0, 1.0 + p.C);
    MulDiv(1.0, s - 1.0, 1.0 + p.C);
    assert (s - 1.0) / (1.0 + p.C) == -((1.0 - s) / (1.0 + p.C));
  }

  /** On the physical range s <= 1 the eutectic lies at or below the freezing enthalpy -1. */
  lemma EutecticBelowFreezing(p: PhaseParams, s: real)
    requires 0.0 < p.St && 0.0 < 1.0 + p.C && s <= 1.0
    ensures Eutectic(p, s) <= -1.0
  {
    EutecticIsSolidusShift(p, s);
    QuotientPositive(p.St, 1.0 + p.C);
    var k := (1.0 - s) / (1.0 + p.C);
    assert 0.0 <= k by {
      if s < 1.0 { QuotientPositive(1.0 - s, 1.0 + p.C); }
    }
    MulMonotone(0.0, k, p.St);
  }

  /** The four masks over a column of cells. */
  datatype PhaseMasks = PhaseMasks(liquid: seq<bool>, mush: seq<bool>, eutectic: seq<bool>, solid: seq<bool>)

  function MasksAt(m: PhaseMasks, i: nat): CellMasks
    requires i < |m.liquid| && i < |m.mush| && i < |m.eutectic| && i < |m.solid|
  {
    CellMasks(m.liquid[i], m.mush[i], m.eutectic[i], m.solid[i])
  }

  function CellBoundaryMasks(p: PhaseParams, h: real, s: real): CellMasks
    requires 1.0 + p.C != 0.0
  {
    ThermalMasks(h, Liquidus(s), Eutectic(p, s), Solidus(p))
  }

  /**
   * The liquid, mush, eutectic and solid masks of a column, from enthalpy and
   * salt only. Each cell lies in at least one mask and neighbouring regions
   * never overlap.
   */
  function GetPhaseMasks(p: PhaseParams, enthalpy: seq<real>, salt: seq<real>): (m: PhaseMasks)
    requires |enthalpy| == |salt| && 1.0 + p.C != 0.0
    ensures |m.liquid| == |m.mush| == |m.eutectic| == |m.solid| == |enthalpy|
    ensures forall i :: 0 <= i < |enthalpy| ==>
      (m.liquid[i] <==> enthalpy[i] >= Liquidus(salt[i])) &&
      (m.solid[i] <==> enthalpy[i] < Solidus(p)) &&
      (m.mush[i] <==> Eutectic(p, salt[i]) <= enthalpy[i] < Liquidus(salt[i])) &&
      (m.eutectic[i] <==> Solidus(p) <= enthalpy[i] < Eutectic(p, salt[i]))
    ensures forall i :: 0 <= i < |enthalpy| ==> m.liquid[i] || m.mush[i] || m.eutectic[i] || m.solid[i]
    ensures forall i :: 0 <= i < |enthalpy| ==>
      !(m.liquid[i] && m.mush[i]) && !(m.mush[i] && m.eutectic[i]) && !(m.eutectic[i] && m.solid[i])
  {
    var n := |enthalpy|;
    PhaseMasks(
      seq(n, i requires 0 <= i < n => enthalpy[i] >= Liquidus(salt[i])),
      seq(n, i requires 0 <= i < n => enthalpy[i] >= Eutectic(p, salt[i]) && enthalpy[i] < Liquidus(salt[i])),
      seq(n, i requires 0 <= i < n => enthalpy[i] >= Solidus(p) && enthalpy[i] < Eutectic(p, salt[i])),
      seq(n, i requires 0 <= i < n => enthalpy[i] < Solidus(p)))
  }

  /**
   * The region each cell's derived values come from: the last of the
   * liquid, mush, eutectic, solid masks that holds for it.
   */
  function Regions(p: PhaseParams, enthalpy: seq<real>, salt: seq<real>): (r: seq<Region>)
    requires |enthalpy| == |salt| && 1.0 + p.C != 0.0
    ensures |r| == |enthalpy|
    ensures forall i :: 0 <= i < |r| ==>
      Holds(MasksAt(GetPhaseMasks(p, enthalpy, salt), i), r[i]) &&
      NoLaterMask(MasksAt(GetPhaseMasks(p, enthalpy, salt), i), r[i])
  {
    var m := GetPhaseMasks(p, enthalpy, salt);
    seq(|enthalpy|, i requires 0 <= i < |enthalpy| =>
      assert MasksAt(m, i) == CellBoundaryMasks(p, enthalpy[i], salt[i]);
      Classify(enthalpy[i], Liquidus(salt[i]), Eutectic(p, salt[i]), Solidus(p)))
  }

  /**
   * On the physical salinity range exactly one mask holds in each cell, so
   * the order of the masked writes does not matter there.
   */
  lemma MasksPartition(p: PhaseParams, enthalpy: seq<real>, salt: seq<real>, i: nat, r: Region)
    requires |enthalpy| == |salt| && i < |enthalpy|
    requires 0.0 < p.St && 0.0 < 1.0 + p.C && -p.C <= salt[i] <= 1.0
    ensures Holds(MasksAt(GetPhaseMasks(p, enthalpy, salt), i), r) <==> r == Regions(p, enthalpy, salt)[i]
  {
    BoundariesOrdered(p, salt[i]);
    var m := GetPhaseMasks(p, enthalpy, salt);
    assert MasksAt(m, i) == CellBoundaryMasks(p, enthalpy[i], salt[i]);
    OrderedMasksPartition(enthalpy[i], Liquidus(salt[i]), Eutectic(p, salt[i]), Solidus(p), r);
  }
}
