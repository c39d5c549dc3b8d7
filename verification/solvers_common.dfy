/**
 * Construction of the solver's starting arrays on the ghost grid and of the
 * storage for saved solutions.
 */
module SolversCommon {
  import opened Wrappers
  import opened Numerics
  import opened Phase
  import LBC = LegacyBoundaryConditions

  /** Bulk gas of ocean water saturated at the far-field dissolved gas `farGasSat`. */
  function FarBulkGas(p: PhaseParams, farGasSat: real): real {
    p.chi * farGasSat
  }

  /** Four ghost-grid arrays: enthalpy, bulk salinity, bulk gas and pressure. */
  datatype InitialSolution = InitialSolution(enthalpy: seq<real>, salt: seq<real>, gas: seq<real>, pressure: seq<real>)

  /**
   * A column of ocean water: every cell has the enthalpy of the far-field
   * temperature (found with bulk salinity C and bulk gas chi * farGasSat),
   * zero salt and pressure, and bulk gas chi * farGasSat. A failure to
   * identify the phase of that enthalpy is passed on.
   */
  function GenerateInitialSolution(p: PhaseParams, farGasSat: real, farTemp: real, length: nat): (r: Result<InitialSolution>)
    requires LBC.FromTempDefined(p, p.C, FarBulkGas(p, farGasSat), farTemp)
    ensures var bottom := LBC.EnthalpyFromTemp(p, p.C, FarBulkGas(p, farGasSat), farTemp);
      (r.Err? <==> bottom.Err?) && (r.Err? ==> r.error == bottom.error)
    ensures r.Ok? ==>
      |r.value.enthalpy| == |r.value.salt| == |r.value.gas| == |r.value.pressure| == length &&
      (forall i :: 0 <= i < length ==> r.value.salt[i] == 0.0 && r.value.pressure[i] == 0.0) &&
      (forall i :: 0 <= i < length ==> r.value.gas[i] == FarBulkGas(p, farGasSat)) &&
      (forall i :: 0 <= i < length ==>
         r.value.enthalpy[i] == LBC.EnthalpyFromTemp(p, p.C, FarBulkGas(p, farGasSat), farTemp).value)
  {
    var bottom := LBC.EnthalpyFromTemp(p, p.C, FarBulkGas(p, farGasSat), farTemp);
    if bottom.Err? then Err(bottom.error)
    else Ok(InitialSolution(Fill(length, bottom.value), Zeros(length), Fill(length, FarBulkGas(p, farGasSat)), Zeros(length)))
  }

  /**
   * Outside the eutectic band the initial enthalpy is one at which the full
   * enthalpy method recovers the far-field temperature, in every cell.
   */
  lemma InitialEnthalpyRecoversFarTemp(p: PhaseParams, farGasSat: real, farTemp: real, length: nat)
    requires LBC.FromTempDefined(p, p.C, FarBulkGas(p, farGasSat), farTemp)
    requires LBC.IdentifyPhase(p, p.C, FarBulkGas(p, farGasSat), farTemp).Some?
    requires LBC.IdentifyPhase(p, p.C, FarBulkGas(p, farGasSat), farTemp).value.ThermalRegion() != Eutectic
    ensures GenerateInitialSolution(p, farGasSat, farTemp, length).Ok?
    ensures forall i :: 0 <= i < length ==>
      LBC.FE.TemperatureFits(p, LBC.IdentifyPhase(p, p.C, FarBulkGas(p, farGasSat), farTemp).value,
        GenerateInitialSolution(p, farGasSat, farTemp, length).value.enthalpy[i], p.C, FarBulkGas(p, farGasSat), farTemp)
  {
    var s, g := p.C, FarBulkGas(p, farGasSat);
    var bottom := LBC.EnthalpyFromTemp(p, s, g, farTemp);
    assert bottom.Ok? && LBC.FE.TemperatureFits(p, LBC.IdentifyPhase(p, s, g, farTemp).value, bottom.value, s, g, farTemp) by {
      LBC.EnthalpyFromTempInverts(p, s, g, farTemp);
    }
    var r := GenerateInitialSolution(p, farGasSat, farTemp, length);
    assert r.Err? <==> bottom.Err?;
    assert forall i :: 0 <= i < length ==> r.value.enthalpy[i] == bottom.value;
  }

  /**
   * The solver's storage: a copy of the initial arrays and a single save time, 0.
   * `GenerateStorageArrays` does nothing more (celestine/solvers/common.py:26-32),
   * so its contract is its whole behaviour.
   */
  datatype Storage = Storage(times: seq<real>, enthalpy: seq<real>, salt: seq<real>, gas: seq<real>, pressure: seq<real>)

  function GenerateStorageArrays(enthalpy: seq<real>, salt: seq<real>, gas: seq<real>, pressure: seq<real>): (s: Storage)
    ensures s.times == [0.0]
    ensures s.enthalpy == enthalpy && s.salt == salt && s.gas == gas && s.pressure == pressure
  {
    Storage([0.0], enthalpy, salt, gas, pressure)
  }
}
