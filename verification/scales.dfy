/**
 * Conversion between physical units and the non-dimensional variables of the
 * simulation: temperatures scaled by the eutectic-to-freezing range, salinity
 * by the eutectic-to-ocean difference, depths by the domain height, times by
 * the thermal diffusion timescale.
 */
module Scales {
  import opened Numerics

  const SecondsToDays: real := 1.0 / (60.0 * 60.0 * 24.0)

  /** Thermal diffusion time across the domain, in days: L^2 / kappa. */
  function TimescaleInDays(lengthscale: real, thermalDiffusivity: real): real
    requires thermalDiffusivity != 0.0
  {
    SecondsToDays * lengthscale * lengthscale / thermalDiffusivity
  }

  /** A domain of non-zero height has a non-zero timescale. */
  lemma TimescaleNonZero(lengthscale: real, thermalDiffusivity: real)
    requires lengthscale != 0.0 && thermalDiffusivity != 0.0
    ensures TimescaleInDays(lengthscale, thermalDiffusivity) != 0.0
  {
    var c := SecondsToDays;
    var a := c * lengthscale;
    ProductNonZero(c, lengthscale);
    ProductNonZero(a, lengthscale);
    QuotientNonZero(a * lengthscale, thermalDiffusivity);
  }

  /** Domain height per timescale, in m/day. */
  function VelocityScaleInMPerDay(lengthscale: real, thermalDiffusivity: real): (v: real)
    requires thermalDiffusivity != 0.0 && lengthscale != 0.0
    ensures v * TimescaleInDays(lengthscale, thermalDiffusivity) == lengthscale
  {
    TimescaleNonZero(lengthscale, thermalDiffusivity);
    lengthscale / TimescaleInDays(lengthscale, thermalDiffusivity)
  }

  datatype Scales = Scales(
    lengthscale: real,               // domain height in m
    thermalDiffusivity: real,        // m2/s
    oceanSalinity: real,             // g/kg
    salinityDifference: real,        // g/kg
    oceanFreezingTemperature: real,  // deg C
    temperatureDifference: real,     // deg C
    gasDensity: real,                // kg/m3
    saturationConcentration: real)   // kg(gas)/kg(liquid)

  /** Every scale that is divided by is non-zero. */
  predicate Invertible(sc: Scales) {
    sc.lengthscale != 0.0 && sc.thermalDiffusivity != 0.0 && sc.salinityDifference != 0.0 &&
    sc.temperatureDifference != 0.0 && sc.gasDensity != 0.0 && sc.saturationConcentration != 0.0
  }

  function Timescale(sc: Scales): real
    requires sc.thermalDiffusivity != 0.0
  {
    TimescaleInDays(sc.lengthscale, sc.thermalDiffusivity)
  }

  function ToDimensionalTemperature(sc: Scales, temperature: real): real {
    sc.temperatureDifference * temperature + sc.oceanFreezingTemperature
  }

  function FromDimensionalTemperature(sc: Scales, celsius: real): (temperature: real)
    requires sc.temperatureDifference != 0.0
    ensures ToDimensionalTemperature(sc, temperature) == celsius
    ensures celsius == sc.oceanFreezingTemperature ==> temperature == 0.0
    ensures celsius == sc.oceanFreezingTemperature - sc.temperatureDifference ==> temperature == -1.0
  {
    QuotientOfSelf(sc.temperatureDifference);
    (celsius - sc.oceanFreezingTemperature) / sc.temperatureDifference
  }

  lemma TemperatureRoundTrip(sc: Scales, temperature: real)
    requires sc.temperatureDifference != 0.0
    ensures FromDimensionalTemperature(sc, ToDimensionalTemperature(sc, temperature)) == temperature
  {
  }

  function ToDimensionalGrid(sc: Scales, grid: real): real {
    sc.lengthscale * grid
  }

  function FromDimensionalGrid(sc: Scales, metres: real): (grid: real)
    requires sc.lengthscale != 0.0
    ensures ToDimensionalGrid(sc, grid) == metres
  {
    metres / sc.lengthscale
  }

  lemma GridRoundTrip(sc: Scales, grid: real)
    requires sc.lengthscale != 0.0
    ensures FromDimensionalGrid(sc, ToDimensionalGrid(sc, grid)) == grid
  {
  }

  function ToDimensionalTime(sc: Scales, time: real): real
    requires sc.thermalDiffusivity != 0.0
  {
    Timescale(sc) * time
  }

  function FromDimensionalTime(sc: Scales, days: real): (time: real)
    requires sc.thermalDiffusivity != 0.0 && sc.lengthscale != 0.0
    ensures ToDimensionalTime(sc, time) == days
  {
    TimescaleNonZero(sc.lengthscale, sc.thermalDiffusivity);
    days / Timescale(sc)
  }

  lemma TimeRoundTrip(sc: Scales, time: real)
    requires sc.thermalDiffusivity != 0.0 && sc.lengthscale != 0.0
    ensures FromDimensionalTime(sc, ToDimensionalTime(sc, time)) == time
  {
    TimescaleNonZero(sc.lengthscale, sc.thermalDiffusivity);
  }

  function ToDimensionalBulkSalinity(sc: Scales, salt: real): real {
    sc.salinityDifference * salt + sc.oceanSalinity
  }

  function FromDimensionalBulkSalinity(sc: Scales, gramsPerKg: real): (salt: real)
    requires sc.salinityDifference != 0.0
    ensures ToDimensionalBulkSalinity(sc, salt) == gramsPerKg
    ensures gramsPerKg == sc.oceanSalinity ==> salt == 0.0
    ensures gramsPerKg == sc.oceanSalinity + sc.salinityDifference ==> salt == 1.0
  {
    QuotientOfSelf(sc.salinityDifference);
    (gramsPerKg - sc.oceanSalinity) / sc.salinityDifference
  }

  lemma BulkSalinityRoundTrip(sc: Scales, salt: real)
    requires sc.salinityDifference != 0.0
    ensures FromDimensionalBulkSalinity(sc, ToDimensionalBulkSalinity(sc, salt)) == salt
  {
  }

  function ToDimensionalBulkGas(sc: Scales, gas: real): real {
    sc.gasDensity * gas
  }

  function FromDimensionalBulkGas(sc: Scales, kgPerM3: real): (gas: real)
    requires sc.gasDensity != 0.0
    ensures ToDimensionalBulkGas(sc, gas) == kgPerM3
  {
    kgPerM3 / sc.gasDensity
  }

  lemma BulkGasRoundTrip(sc: Scales, gas: real)
    requires sc.gasDensity != 0.0
    ensures FromDimensionalBulkGas(sc, ToDimensionalBulkGas(sc, gas)) == gas
  {
  }

  /** Micromoles of argon per litre of ice in one kg/m3 of air. */
  const ArgonPerAir: real := 0.01288 * (1.0 / 0.000000039948) / 1000.0

  /** kg/m3 of air to micromoles of argon per litre of ice: a fixed proportion. */
  function BulkAirToArgonContent(kgPerM3: real): (argon: real)
    ensures argon == ArgonPerAir * kgPerM3
    ensures 0.0 <= kgPerM3 ==> 0.0 <= argon
  {
    kgPerM3 * 0.01288 * (1.0 / 0.000000039948) / 1000.0
  }

  function ToDimensionalDissolvedGas(sc: Scales, dissolved: real): real {
    sc.saturationConcentration * dissolved
  }

  function FromDimensionalDissolvedGas(sc: Scales, massRatio: real): (dissolved: real)
    requires sc.saturationConcentration != 0.0
    ensures ToDimensionalDissolvedGas(sc, dissolved) == massRatio
    ensures massRatio == sc.saturationConcentration ==> dissolved == 1.0
  {
    QuotientOfSelf(sc.saturationConcentration);
    massRatio / sc.saturationConcentration
  }

  lemma DissolvedGasRoundTrip(sc: Scales, dissolved: real)
    requires sc.saturationConcentration != 0.0
    ensures FromDimensionalDissolvedGas(sc, ToDimensionalDissolvedGas(sc, dissolved)) == dissolved
  {
  }
}
