/**
 * The dimensionless top-forcing configuration built from the dimensional
 * description, one record type per forcing choice.
 */
module ForcingConversion {
  import opened Wrappers
  import Sc = Scales
  import D = Dimensional

  /** The forcing records of the newer configuration layout; the ocean values keep their defaults. */
  datatype Forcing =
    | ConstantForcing(constantTopTemperature: real)
    | YearlyForcing(offset: real, amplitude: real, period: real)
    | BRW09Forcing(barrowTopTemperatureDataChoice: string, barrowInitialBulkGasInIce: real)
    | RadForcing(
        surfaceEnergyBalanceForcing: bool,
        swInternalHeating: bool,
        swForcingChoice: string,
        constantSWIrradiance: real,
        swRadiationModelChoice: string,
        constantOilMassRatio: real,
        swScatteringIceType: string)

  /** The constant choice divides by the temperature scale, so it needs a non-zero one. */
  predicate ConvertibleForcing(d: D.DimensionalParams) {
    d.temperatureForcingChoice == "constant" ==>
      d.eutecticSalinity != 0.0 && D.TemperatureDifference(d) != 0.0
  }

  /**
   * `get_dimensionless_forcing_config`: "constant" non-dimensionalises the
   * top temperature; "yearly", "barrow_2009" and "rad" copy their settings;
   * any other choice is not implemented.
   */
  function GetDimensionlessForcingConfig(d: D.DimensionalParams): (r: Result<Forcing>)
    requires ConvertibleForcing(d)
    ensures r.Err? <==> d.temperatureForcingChoice !in {"constant", "yearly", "barrow_2009", "rad"}
    ensures r.Err? ==> r.error == NotImplementedError
    ensures d.temperatureForcingChoice == "constant" ==>
              r.Ok? && r.value.ConstantForcing? &&
              D.TemperatureDifference(d) * r.value.constantTopTemperature + D.OceanFreezingTemperature(d) ==
              d.constantTopTemperature
    ensures d.temperatureForcingChoice == "yearly" ==>
              r == Ok(YearlyForcing(d.offset, d.amplitude, d.period))
    ensures d.temperatureForcingChoice == "barrow_2009" ==>
              r == Ok(BRW09Forcing(d.barrowTopTemperatureDataChoice, d.barrowInitialBulkGasInIce))
    ensures d.temperatureForcingChoice == "rad" ==>
              r == Ok(RadForcing(d.surfaceEnergyBalanceForcing, d.swInternalHeating, d.swForcingChoice,
                                 d.constantSWIrradiance, d.swRadiationModelChoice, d.constantOilMassRatio,
                                 d.swScatteringIceType))
  {
    match d.temperatureForcingChoice
    case "constant" =>
      var topTemp := (d.constantTopTemperature - D.OceanFreezingTemperature(d)) / D.TemperatureDifference(d);
      Ok(ConstantForcing(topTemp))
    case "yearly" => Ok(YearlyForcing(d.offset, d.amplitude, d.period))
    case "barrow_2009" => Ok(BRW09Forcing(d.barrowTopTemperatureDataChoice, d.barrowInitialBulkGasInIce))
    case "rad" =>
      Ok(RadForcing(d.surfaceEnergyBalanceForcing, d.swInternalHeating, d.swForcingChoice,
                    d.constantSWIrradiance, d.swRadiationModelChoice, d.constantOilMassRatio,
                    d.swScatteringIceType))
    case _ => Err(NotImplementedError)
  }

  /**
   * The two configuration layouts agree on the constant top temperature:
   * the forcing record holds the value the older flat forcing configuration
   * holds, and both equal the scales' conversion.
   */
  lemma ConstantForcingAgrees(d: D.DimensionalParams)
    requires D.Nondegenerate(d) && d.temperatureForcingChoice == "constant"
    ensures D.TemperatureDifference(d) != 0.0
    ensures var r := GetDimensionlessForcingConfig(d);
            r.Ok? && r.value.constantTopTemperature == D.GetForcingConfig(d).constantTopTemperature &&
            r.value.constantTopTemperature == Sc.FromDimensionalTemperature(D.GetScales(d), d.constantTopTemperature)
  {
    D.TemperatureDifferenceNonZero(d);
  }
}
