/**
 * Boundary conditions of the first version of the simulator, which writes
 * the ghost values of arrays that already live on the ghost grid. The top
 * and bottom enthalpy ghosts come from imposed temperatures through the
 * piecewise inverse of the full enthalpy method.
 */
module LegacyBoundaryConditions {
  import opened Wrappers
  import opened Numerics
  import opened Phase
  import opened FullPhase
  import FE = FullEnthalpy
  import LP = LegacyParams

  /** Half-width of the temperature band that stands in for the eutectic. */
  const BandHalfWidth: real := 0.001

  function PhaseParamsOf(params: LP.Params): PhaseParams {
    PhaseParams(params.expansionCoefficient, params.concentrationRatio, params.stefanNumber)
  }

  /** Enthalpy where a gas-free column of bulk salinity `s` starts eutectic solidification. */
  function EutecticEnthalpy(p: PhaseParams, s: real): real
    requires 1.0 + p.C != 0.0
  {
    EutecticBoundary(p, s, 0.0)
  }

  /** Everything the source divides by is non-zero. */
  predicate FromTempDefined(p: PhaseParams, s: real, g: real, t: real) {
    p.chi != 1.0 && 1.0 - FE.LiquidGasFraction(p, g) != 0.0 && p.C - t != 0.0 &&
    p.St != 0.0 && 1.0 + p.C != 0.0 && EutecticEnthalpy(p, s) - SolidusSub(p) != 0.0
  }

  /** Liquidus temperature of liquid holding the gas above saturation as bubbles. */
  function LiquidTemperatureSuper(p: PhaseParams, s: real, g: real): real
    requires p.chi != 1.0 && 1.0 - FE.LiquidGasFraction(p, g) != 0.0
  {
    -(s + FE.LiquidGasFraction(p, g) * p.C) / (1.0 - FE.LiquidGasFraction(p, g))
  }

  /** Liquid fraction of mush at temperature `t` (liquid salinity -t). */
  function MushLiquidFraction(p: PhaseParams, s: real, t: real): real
    requires p.C - t != 0.0
  {
    (s + p.C) / (p.C - t)
  }

  function MushSaturation(p: PhaseParams, s: real, t: real): real
    requires p.C - t != 0.0
  {
    p.chi * MushLiquidFraction(p, s, t)
  }

  /** Slope of the band: temperature `-1 + eps` maps to the eutectic, `-1 - eps` to the solidus. */
  function Alpha(p: PhaseParams, s: real): real
    requires 1.0 + p.C != 0.0 && EutecticEnthalpy(p, s) - SolidusSub(p) != 0.0
  {
    BandHalfWidth / (EutecticEnthalpy(p, s) - SolidusSub(p))
  }

  /** Linear interpolation of enthalpy across the eutectic band. */
  function EutecticBandEnthalpy(p: PhaseParams, s: real, t: real): real
    requires 1.0 + p.C != 0.0 && EutecticEnthalpy(p, s) - SolidusSub(p) != 0.0
  {
    (t + 1.0) / (2.0 * Alpha(p, s)) + 0.5 * (EutecticEnthalpy(p, s) + SolidusSub(p))
  }

  function EutecticSaturation(p: PhaseParams, s: real, t: real): real
    requires p.St != 0.0 && 1.0 + p.C != 0.0 && EutecticEnthalpy(p, s) - SolidusSub(p) != 0.0
  {
    (p.chi / p.St) * (EutecticBandEnthalpy(p, s, t) + p.St - t)
  }

  /**
   * The phase of a ghost cell at imposed temperature `t`, checked in the
   * order liquid, mush, eutectic band, solid, each split by saturation.
   * The band of width `2 * eps` around -1 is reported as eutectic.
   */
  function IdentifyPhase(p: PhaseParams, s: real, g: real, t: real): Option<GasPhase>
    requires FromTempDefined(p, s, g, t)
  {
    var eps := BandHalfWidth;
    if t > -s && g <= p.chi then Some(SubLiquid)
    else if t > LiquidTemperatureSuper(p, s, g) && g > p.chi then Some(SuperLiquid)
    else if t > -1.0 + eps && t <= -s && g <= MushSaturation(p, s, t) then Some(SubMush)
    else if t > -1.0 + eps && t <= LiquidTemperatureSuper(p, s, g) && g > MushSaturation(p, s, t) then Some(SuperMush)
    else if t > -1.0 - eps && t <= -1.0 + eps then
      (if g <= EutecticSaturation(p, s, t) then Some(SubEutectic) else Some(SuperEutectic))
    else if t <= -1.0 - eps && g <= 0.0 then Some(SubSolid)
    else if t <= -1.0 - eps && g > 0.0 then Some(SuperSolid)
    else None
  }

  /**
   * At or below the top of the eutectic band some phase always matches, so
   * the "no phase" error can only arise above it.
   */
  lemma UnidentifiedOnlyAboveBand(p: PhaseParams, s: real, g: real, t: real)
    requires FromTempDefined(p, s, g, t)
    ensures t <= -1.0 + BandHalfWidth ==> IdentifyPhase(p, s, g, t).Some?
  {
  }

  /** Enthalpy of super-saturated mush at temperature `t`, as the source writes it. */
  function MushSuperEnthalpyAsWritten(p: PhaseParams, s: real, g: real, t: real): real
    requires p.C - t != 0.0
  {
    (1.0 - g) * (t - p.St) + (s + p.C) * (t * p.chi + 1.0 - p.chi) * p.St / (p.C - t)
  }

  /**
   * Enthalpy of super-saturated mush at temperature `t`: liquid fraction
   * `f = (s + C) / (C - t)`, gas fraction `g - chi * f`, and enthalpy
   * `t * (1 - gas fraction) - St * solid fraction`.
   */
  function MushSuperEnthalpy(p: PhaseParams, s: real, g: real, t: real): real
    requires p.C - t != 0.0
  {
    (1.0 - g) * (t - p.St) + (s + p.C) * (t * p.chi + p.St * (1.0 - p.chi)) / (p.C - t)
  }

  /** The enthalpy the source returns for phase `ph` at temperature `t`. */
  function BranchEnthalpy(p: PhaseParams, ph: GasPhase, s: real, g: real, t: real): real
    requires FromTempDefined(p, s, g, t)
  {
    match ph
    case SubLiquid => t
    case SuperLiquid => (1.0 - FE.LiquidGasFraction(p, g)) * t
    case SubMush => t - (1.0 - MushLiquidFraction(p, s, t)) * p.St
    case SuperMush => MushSuperEnthalpy(p, s, g, t)
    case SubEutectic | SuperEutectic => EutecticBandEnthalpy(p, s, t)
    case SubSolid => t - p.St
    case SuperSolid => (1.0 - g) * (t - p.St)
  }

  /**
   * `calculate_enthalpy_from_temp`: the enthalpy of a ghost cell of bulk
   * salinity `s` and bulk gas `g` held at temperature `t`.
   */
  function EnthalpyFromTemp(p: PhaseParams, s: real, g: real, t: real): (r: Result<real>)
    requires FromTempDefined(p, s, g, t)
    ensures r.Err? <==> IdentifyPhase(p, s, g, t).None?
    ensures r.Err? ==> r.error == ValueError("Cannot identify phase in top ghost cell")
    ensures t > -s && g <= p.chi ==> r == Ok(t)
    ensures t <= -1.0 - BandHalfWidth && t <= -s && g <= 0.0 <= p.chi ==> r == Ok(t - p.St)
  {
    match IdentifyPhase(p, s, g, t)
    case None => Err(ValueError("Cannot identify phase in top ghost cell"))
    case Some(ph) => Ok(BranchEnthalpy(p, ph, s, g, t))
  }

  /**
   * Outside the eutectic band the returned enthalpy inverts the enthalpy
   * method: `t` solves the temperature equation of the identified phase at
   * that enthalpy, so the enthalpy method gives back the imposed temperature
   * (for the mush phases, up to the choice of root).
   */
  lemma EnthalpyFromTempInverts(p: PhaseParams, s: real, g: real, t: real)
    requires FromTempDefined(p, s, g, t)
    requires IdentifyPhase(p, s, g, t).Some?
    requires IdentifyPhase(p, s, g, t).value.ThermalRegion() != Eutectic
    ensures EnthalpyFromTemp(p, s, g, t).Ok?
    ensures FE.TemperatureFits(p, IdentifyPhase(p, s, g, t).value, EnthalpyFromTemp(p, s, g, t).value, s, g, t)
  {
    BranchFits(p, IdentifyPhase(p, s, g, t).value, s, g, t);
  }

  /** Each non-eutectic branch's enthalpy solves that phase's temperature equation at `t`. */
  lemma BranchFits(p: PhaseParams, ph: GasPhase, s: real, g: real, t: real)
    requires FromTempDefined(p, s, g, t) && ph.ThermalRegion() != Eutectic
    ensures FE.TemperatureFits(p, ph, BranchEnthalpy(p, ph, s, g, t), s, g, t)
  {
    var h := BranchEnthalpy(p, ph, s, g, t);
    var f := MushLiquidFraction(p, s, t);
    if ph == SubMush {
      assert f * (p.C - t) == s + p.C;
      SubMushFits(p, s, t, f, h);
    } else if ph == SuperMush {
      assert f * (p.C - t) == s + p.C;
      MushSuperEnthalpyFactored(p, s, g, t);
      SuperMushFits(p, s, g, t, f, h);
    }
  }

  lemma SubMushFits(p: PhaseParams, s: real, t: real, f: real, h: real)
    requires f * (p.C - t) == s + p.C && h == t - (1.0 - f) * p.St
    ensures forall g :: FE.TemperatureFits(p, SubMush, h, s, g, t)
  {
    assert t * t - GasFreeMushB(p, h) * t + GasFreeMushA(p, h, s) == 0.0;
  }

  lemma MushSuperEnthalpyFactored(p: PhaseParams, s: real, g: real, t: real)
    requires p.C - t != 0.0
    ensures MushSuperEnthalpy(p, s, g, t) ==
      (1.0 - g) * (t - p.St) + MushLiquidFraction(p, s, t) * (t * p.chi + p.St * (1.0 - p.chi))
  {
    MulDiv(s + p.C, t * p.chi + p.St * (1.0 - p.chi), p.C - t);
  }

  lemma SuperMushFits(p: PhaseParams, s: real, g: real, t: real, f: real, h: real)
    requires f * (p.C - t) == s + p.C
    requires h == (1.0 - g) * (t - p.St) + f * (t * p.chi + p.St * (1.0 - p.chi))
    ensures FE.TemperatureFits(p, SuperMush, h, s, g, t)
  {
    assert FE.SuperMushA(g) * (t * t) - FE.SuperMushB(p, h, s, g) * t + FE.SuperMushC(p, h, s, g) == 0.0;
  }

  /** Across the eutectic band the enthalpy runs linearly from the solidus to the eutectic. */
  lemma EutecticBandEnds(p: PhaseParams, s: real)
    requires 1.0 + p.C != 0.0 && EutecticEnthalpy(p, s) - SolidusSub(p) != 0.0
    ensures EutecticBandEnthalpy(p, s, -1.0 + BandHalfWidth) == EutecticEnthalpy(p, s)
    ensures EutecticBandEnthalpy(p, s, -1.0 - BandHalfWidth) == SolidusSub(p)
  {
    var d := EutecticEnthalpy(p, s) - SolidusSub(p);
    var a := Alpha(p, s);
    assert a * d == BandHalfWidth;
    QuotientUnique(BandHalfWidth, 2.0 * a, 0.5 * d);
    QuotientUnique(-BandHalfWidth, 2.0 * a, -0.5 * d);
  }

  /**
   * The mush-super branch as the source writes it multiplies `chi * t` by
   * the Stefan number as well, so for St != 1 the enthalpy it returns is not
   * one at which the enthalpy method finds temperature `t`.
   */
  lemma MushSuperAsWrittenMisfits()
    ensures var p := PhaseParams(0.1, 1.0, 2.0);
      FromTempDefined(p, 0.0, 0.2, -0.5) &&
      IdentifyPhase(p, 0.0, 0.2, -0.5) == Some(SuperMush) &&
      !FE.TemperatureFits(p, SuperMush, MushSuperEnthalpyAsWritten(p, 0.0, 0.2, -0.5), 0.0, 0.2, -0.5)
  {
    var p := PhaseParams(0.1, 1.0, 2.0);
    assert FE.LiquidGasFraction(p, 0.2) == 1.0 / 9.0;
    assert LiquidTemperatureSuper(p, 0.0, 0.2) == -0.125;
    assert MushLiquidFraction(p, 0.0, -0.5) == 2.0 / 3.0;
    assert EutecticLiquidFraction(p, 0.0) == 0.5;
    assert MushSuperEnthalpyAsWritten(p, 0.0, 0.2, -0.5) == -13.0 / 15.0;
  }

  // ---------------------------------------------------------------------
  // In-place writes of the ghost entries of arrays on the ghost grid
  // ---------------------------------------------------------------------

  /**
   * Writes the enthalpies of the imposed top and bottom temperatures into
   * the two ghost entries, top first. An unidentifiable phase raises before
   * the remaining write, so a failure at the bottom leaves the top written.
   */
  method AddEnthalpyBCs(enthalpy: array<real>, salt: array<real>, gas: array<real>,
                        topTemp: real, bottomTemp: real, p: PhaseParams) returns (err: Option<Error>)
    requires 1 <= enthalpy.Length && 1 <= salt.Length && 1 <= gas.Length
    requires enthalpy != salt && enthalpy != gas
    requires FromTempDefined(p, salt[salt.Length - 1], gas[gas.Length - 1], topTemp)
    requires EnthalpyFromTemp(p, salt[salt.Length - 1], gas[gas.Length - 1], topTemp).Ok? ==>
      FromTempDefined(p, salt[0], gas[0], bottomTemp)
    modifies enthalpy
    ensures var top := EnthalpyFromTemp(p, salt[salt.Length - 1], gas[gas.Length - 1], topTemp);
      if top.Err? then err == Some(top.error) && enthalpy[..] == old(enthalpy[..])
      else
        var bottom := EnthalpyFromTemp(p, salt[0], gas[0], bottomTemp);
        if bottom.Err? then
          err == Some(bottom.error) && enthalpy[..] == old(enthalpy[..])[enthalpy.Length - 1 := top.value]
        else
          err == None && enthalpy[..] == old(enthalpy[..])[enthalpy.Length - 1 := top.value][0 := bottom.value]
  {
    var top := EnthalpyFromTemp(p, salt[salt.Length - 1], gas[gas.Length - 1], topTemp);
    if top.Err? {
      return Some(top.error);
    }
    enthalpy[enthalpy.Length - 1] := top.value;
    var bottom := EnthalpyFromTemp(p, salt[0], gas[0], bottomTemp);
    if bottom.Err? {
      return Some(bottom.error);
    }
    enthalpy[0] := bottom.value;
    err := None;
  }

  /** Zero bulk salinity in both ghost cells; every interior entry is kept. */
  method AddSaltBCs(salt: array<real>)
    requires 1 <= salt.Length
    modifies salt
    ensures salt[..] == old(salt[..])[0 := 0.0][salt.Length - 1 := 0.0]
    ensures salt[0] == 0.0 && salt[salt.Length - 1] == 0.0
    ensures forall i :: 0 < i < salt.Length - 1 ==> salt[i] == old(salt[i])
  {
    salt[0] := 0.0;
    salt[salt.Length - 1] := 0.0;
  }

  /**
   * Zero pressure in the ocean ghost and zero gradient at the top. The top
   * ghost copies its neighbour after the bottom write, so with only two
   * entries it copies the new zero.
   */
  method AddPressureBCs(pressure: array<real>)
    requires 2 <= pressure.Length
    modifies pressure
    ensures pressure[..] == old(pressure[..])[0 := 0.0]
      [pressure.Length - 1 := if pressure.Length == 2 then 0.0 else old(pressure[pressure.Length - 2])]
    ensures pressure[0] == 0.0 && pressure[pressure.Length - 1] == pressure[pressure.Length - 2]
    ensures forall i :: 0 < i < pressure.Length - 1 ==> pressure[i] == old(pressure[i])
  {
    pressure[0] := 0.0;
    pressure[pressure.Length - 1] := pressure[pressure.Length - 2];
  }

  /**
   * Saturated liquid (bulk gas chi) in the ocean ghost and no gas in the
   * top ghost. The imposed temperatures the source also receives are unused.
   */
  method AddGasBCs(gas: array<real>, chi: real)
    requires 1 <= gas.Length
    modifies gas
    ensures gas[..] == old(gas[..])[0 := chi][gas.Length - 1 := 0.0]
    ensures gas[gas.Length - 1] == 0.0 && (1 < gas.Length ==> gas[0] == chi)
    ensures forall i :: 0 < i < gas.Length - 1 ==> gas[i] == old(gas[i])
  {
    gas[0] := chi;
    gas[gas.Length - 1] := 0.0;
  }

  /**
   * All ghost values of the four ghost-grid arrays at once. The enthalpy
   * ghosts are computed from the salt and gas ghosts as they were on entry,
   * before those are overwritten; an error from the enthalpy stops the rest.
   * The top temperature is the forcing's value at the current time.
   */
  method ApplyBoundaryConditions(enthalpy: array<real>, salt: array<real>, gas: array<real>,
                                 pressure: array<real>, topTemperature: real, params: LP.Params)
    returns (err: Option<Error>)
    requires 1 <= enthalpy.Length && 1 <= salt.Length && 1 <= gas.Length && 2 <= pressure.Length
    requires enthalpy != salt && enthalpy != gas && enthalpy != pressure
    requires salt != gas && salt != pressure && gas != pressure
    requires FromTempDefined(PhaseParamsOf(params), salt[salt.Length - 1], gas[gas.Length - 1], topTemperature)
    requires EnthalpyFromTemp(PhaseParamsOf(params), salt[salt.Length - 1], gas[gas.Length - 1], topTemperature).Ok? ==>
      FromTempDefined(PhaseParamsOf(params), salt[0], gas[0], params.farTemp)
    modifies enthalpy, salt, gas, pressure
    ensures var p := PhaseParamsOf(params);
      var top := EnthalpyFromTemp(p, old(salt[salt.Length - 1]), old(gas[gas.Length - 1]), topTemperature);
      var bottom := if top.Ok? then EnthalpyFromTemp(p, old(salt[0]), old(gas[0]), params.farTemp) else top;
      (err.None? <==> top.Ok? && bottom.Ok?) &&
      (err.None? ==>
        enthalpy[..] == old(enthalpy[..])[enthalpy.Length - 1 := top.value][0 := bottom.value] &&
        salt[..] == old(salt[..])[0 := 0.0][salt.Length - 1 := 0.0] &&
        gas[..] == old(gas[..])[0 := params.expansionCoefficient][gas.Length - 1 := 0.0] &&
        pressure[..] == old(pressure[..])[0 := 0.0]
          [pressure.Length - 1 := if pressure.Length == 2 then 0.0 else old(pressure[pressure.Length - 2])]) &&
      (err.Some? ==>
        enthalpy[..] == (if top.Ok? then old(enthalpy[..])[enthalpy.Length - 1 := top.value] else old(enthalpy[..])) &&
        salt[..] == old(salt[..]) && gas[..] == old(gas[..]) && pressure[..] == old(pressure[..]))
  {
    err := AddEnthalpyBCs(enthalpy, salt, gas, topTemperature, params.farTemp, PhaseParamsOf(params));
    if err.Some? {
      return;
    }
    AddSaltBCs(salt);
    AddGasBCs(gas, params.expansionCoefficient);
    AddPressureBCs(pressure);
  }
}
