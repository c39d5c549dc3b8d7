/**
 * The dimensionless initial-condition configuration built from its
 * dimensional counterpart: only the summer layer carries values that need
 * non-dimensionalising.
 */
module InitialConditionsConversion {
  import opened Wrappers
  import Sc = Scales
  import D = Dimensional

  /** The dimensional initial-condition settings; `Other` is any further configuration type. */
  datatype DimensionalInitialConditions =
    | DimensionalUniform
    | DimensionalBRW09(barrowInitialBulkGasInIce: real)
    | DimensionalSummer(iceDepth: real, oceanTemperature: real, iceTemperature: real)  // m, deg C, deg C
    | Other(typeName: string)

  datatype InitialConditionsConfig =
    | UniformInitialConditions
    | BRW09InitialConditions(barrowInitialBulkGasInIce: real)
    | SummerInitialConditions(initialSummerIceDepth: real, initialSummerOceanTemperature: real,
                              initialSummerIceTemperature: real)

  /** The summer layer divides by the height and the temperature scale. */
  predicate ConvertibleInitialConditions(d: D.DimensionalParams, ic: DimensionalInitialConditions) {
    ic.DimensionalSummer? ==>
      d.lengthscale != 0.0 && d.eutecticSalinity != 0.0 && d.liquidDensity * d.specificHeatCapacity != 0.0 &&
      D.TemperatureDifference(d) != 0.0
  }

  /**
   * `get_dimensionless_initial_conditions_config`: uniform stays uniform;
   * Barrow 2009 keeps its initial gas in ice; the summer layer's depth is
   * divided by the height and both temperatures are non-dimensionalised;
   * any other type is not implemented.
   */
  function GetDimensionlessInitialConditionsConfig(d: D.DimensionalParams, ic: DimensionalInitialConditions)
    : (r: Result<InitialConditionsConfig>)
    requires ConvertibleInitialConditions(d, ic)
    ensures r.Err? <==> ic.Other?
    ensures r.Err? ==> r.error == NotImplementedError
    ensures ic.DimensionalUniform? ==> r == Ok(UniformInitialConditions)
    ensures ic.DimensionalBRW09? ==> r == Ok(BRW09InitialConditions(ic.barrowInitialBulkGasInIce))
    ensures ic.DimensionalSummer? ==>
              var sc := D.GetScales(d);
              r.Ok? && r.value.SummerInitialConditions? &&
              Sc.ToDimensionalGrid(sc, r.value.initialSummerIceDepth) == ic.iceDepth &&
              Sc.ToDimensionalTemperature(sc, r.value.initialSummerOceanTemperature) == ic.oceanTemperature &&
              Sc.ToDimensionalTemperature(sc, r.value.initialSummerIceTemperature) == ic.iceTemperature
  {
    match ic
    case DimensionalUniform => Ok(UniformInitialConditions)
    case DimensionalBRW09(gas) => Ok(BRW09InitialConditions(gas))
    case DimensionalSummer(depth, oceanTemperature, iceTemperature) =>
      var sc := D.GetScales(d);
      Ok(SummerInitialConditions(depth / d.lengthscale,
                                 Sc.FromDimensionalTemperature(sc, oceanTemperature),
                                 Sc.FromDimensionalTemperature(sc, iceTemperature)))
    case Other(_) => Err(NotImplementedError)
  }

  /**
   * The summer layer converts the same way in both configuration layouts:
   * the summer record holds the values the older flat boundary
   * configuration holds for the same dimensional settings.
   */
  lemma SummerConversionAgrees(d: D.DimensionalParams)
    requires D.Nondegenerate(d)
    ensures D.TemperatureDifference(d) != 0.0
    ensures var ic := DimensionalSummer(d.initialSummerIceDepth, d.initialSummerOceanTemperature,
                                        d.initialSummerIceTemperature);
            var r := GetDimensionlessInitialConditionsConfig(d, ic);
            var b := D.GetBoundaryConditionsConfig(d);
            r == Ok(SummerInitialConditions(b.initialSummerIceDepth, b.initialSummerOceanTemperature,
                                            b.initialSummerIceTemperature))
  {
    D.TemperatureDifferenceNonZero(d);
  }
}
