/**
 * The dimensional description of a simulation (physical constants in SI
 * units, degrees Celsius and g/kg), the non-dimensional numbers derived from
 * it, and the configuration and conversion scales built from them.
 */
module Dimensional {
  import opened Wrappers
  import opened Numerics
  import P = Params
  import Sc = Scales

  datatype DimensionalParams = DimensionalParams(
    name: string,
    model: string,
    totalTimeInDays: real,
    savefreqInDays: real,
    lengthscale: real,                   // m
    liquidDensity: real,                 // kg/m3
    gasDensity: real,                    // kg/m3
    saturationConcentration: real,       // kg(gas)/kg(liquid)
    oceanSalinity: real,                 // g/kg
    eutecticSalinity: real,              // g/kg
    eutecticTemperature: real,           // deg C
    latentHeat: real,                    // J/kg
    specificHeatCapacity: real,          // J/kg degC
    phaseAverageConductivity: bool,
    liquidThermalConductivity: real,     // W/m degC
    solidThermalConductivity: real,      // W/m degC
    saltDiffusivity: real,               // m2/s
    gasDiffusivity: real,                // m2/s
    frameVelocityDimensional: real,      // m/day
    gravity: real,                       // m/s2
    liquidViscosity: real,               // Pa s
    bubbleRadius: real,                  // m
    poreRadius: real,                    // m
    poreThroatScaling: real,
    dragExponent: real,
    bubbleSizeDistributionType: string,
    porosityThreshold: bool,
    porosityThresholdValue: real,
    brineConvectionParameterisation: bool,
    coupleBubbleToHorizontalFlow: bool,
    coupleBubbleToVerticalFlow: bool,
    rayleighCritical: real,
    convectionStrength: real,
    halineContractionCoefficient: real,
    referencePermeability: real,         // m2
    tolerableSuperSaturationFraction: real,
    nucleationTimescale: real,           // s
    initialConditionsChoice: string,
    farGasSat: real,                     // kg(gas)/kg(liquid)
    farTemp: real,                       // deg C
    farBulkSalinity: real,               // g/kg
    initialSummerIceDepth: real,         // m
    initialSummerOceanTemperature: real, // deg C
    initialSummerIceTemperature: real,   // deg C
    temperatureForcingChoice: string,
    constantTopTemperature: real,        // deg C
    barrowTopTemperatureDataChoice: string,
    barrowInitialBulkGasInIce: real,
    swInternalHeating: bool,
    swForcingChoice: string,
    constantSWIrradiance: real,          // W/m2
    swRadiationModelChoice: string,
    constantOilMassRatio: real,          // ng/g
    swScatteringIceType: string,
    surfaceEnergyBalanceForcing: bool,
    offset: real,
    amplitude: real,
    period: real,
    I: nat,
    timestep: real,
    regularisation: real,
    solver: string)

  // ---------------------------------------------------------------------
  // Material scales
  // ---------------------------------------------------------------------

  /** chi = rho_l * xi_sat / rho_g: the gas volume the saturated liquid holds. */
  function ExpansionCoefficient(d: DimensionalParams): (chi: real)
    requires d.gasDensity != 0.0
    ensures chi * d.gasDensity == d.liquidDensity * d.saturationConcentration
  {
    d.liquidDensity * d.saturationConcentration / d.gasDensity
  }

  /** Delta S = S_E - S_i. */
  function SalinityDifference(d: DimensionalParams): real {
    d.eutecticSalinity - d.oceanSalinity
  }

  /** Freezing temperature of the ocean on the linear liquidus through the eutectic: T_i = T_E S_i / S_E. */
  function OceanFreezingTemperature(d: DimensionalParams): (t: real)
    requires d.eutecticSalinity != 0.0
    ensures t * d.eutecticSalinity == d.eutecticTemperature * d.oceanSalinity
  {
    d.eutecticTemperature * d.oceanSalinity / d.eutecticSalinity
  }

  /** Delta T = T_i - T_E. */
  function TemperatureDifference(d: DimensionalParams): real
    requires d.eutecticSalinity != 0.0
  {
    OceanFreezingTemperature(d) - d.eutecticTemperature
  }

  /** The temperature scale is non-zero for a non-zero eutectic temperature away from ocean salinity. */
  lemma TemperatureDifferenceNonZero(d: DimensionalParams)
    requires d.eutecticSalinity != 0.0 && d.eutecticTemperature != 0.0 && d.eutecticSalinity != d.oceanSalinity
    ensures TemperatureDifference(d) != 0.0
    ensures TemperatureDifference(d) * d.eutecticSalinity == -d.eutecticTemperature * SalinityDifference(d)
  {
    var t := OceanFreezingTemperature(d);
    assert TemperatureDifference(d) * d.eutecticSalinity == t * d.eutecticSalinity - d.eutecticTemperature * d.eutecticSalinity;
    ProductNonZero(-d.eutecticTemperature, SalinityDifference(d));
  }

  /** C = S_i / Delta S. */
  function ConcentrationRatio(d: DimensionalParams): (c: real)
    requires SalinityDifference(d) != 0.0
    ensures c * SalinityDifference(d) == d.oceanSalinity
  {
    d.oceanSalinity / SalinityDifference(d)
  }

  /** St = L / (c_p Delta T). */
  function StefanNumber(d: DimensionalParams): (st: real)
    requires d.eutecticSalinity != 0.0 && TemperatureDifference(d) * d.specificHeatCapacity != 0.0
    ensures st * (TemperatureDifference(d) * d.specificHeatCapacity) == d.latentHeat
  {
    d.latentHeat / (TemperatureDifference(d) * d.specificHeatCapacity)
  }

  /** kappa = k_l / (rho_l c_p), in m2/s. */
  function ThermalDiffusivity(d: DimensionalParams): (kappa: real)
    requires d.liquidDensity * d.specificHeatCapacity != 0.0
    ensures kappa * (d.liquidDensity * d.specificHeatCapacity) == d.liquidThermalConductivity
  {
    d.liquidThermalConductivity / (d.liquidDensity * d.specificHeatCapacity)
  }

  /** A thermally diffusive liquid has a non-zero thermal diffusivity. */
  lemma ThermalDiffusivityNonZero(d: DimensionalParams)
    requires d.liquidDensity * d.specificHeatCapacity != 0.0 && d.liquidThermalConductivity != 0.0
    ensures ThermalDiffusivity(d) != 0.0
  {
  }

  /** Ratio of solid to liquid thermal conductivity. */
  function ConductivityRatio(d: DimensionalParams): (r: real)
    requires d.liquidThermalConductivity != 0.0
    ensures r * d.liquidThermalConductivity == d.solidThermalConductivity
  {
    d.solidThermalConductivity / d.liquidThermalConductivity
  }

  // ---------------------------------------------------------------------
  // Diffusion, nucleation and time
  // ---------------------------------------------------------------------

  /**
   * Le = kappa / D for a diffusing species; a species that does not
   * diffuse has an infinite Lewis number.
   */
  function LewisNumber(kappa: real, diffusivity: real): (le: P.Lewis)
    ensures le.Infinite? <==> diffusivity == 0.0
    ensures le.Finite? ==> le.value * diffusivity == kappa
  {
    if diffusivity == 0.0 then P.Infinite else P.Finite(kappa / diffusivity)
  }

  /**
   * The flux law's inverse Lewis number is D / kappa: the ratio of the
   * species' diffusivity to the thermal one, and zero for no diffusion.
   */
  lemma InverseLewisIsDiffusivityRatio(kappa: real, diffusivity: real)
    requires kappa != 0.0
    ensures var le := LewisNumber(kappa, diffusivity);
            (le.Finite? ==> le.value != 0.0) && P.InverseLewis(le) * kappa == diffusivity
  {
    var le := LewisNumber(kappa, diffusivity);
    if le.Finite? {
      var r := P.InverseLewis(le);
      assert r * le.value == 1.0;
      assert r * (le.value * diffusivity) == diffusivity;
    }
  }

  function LewisSalt(d: DimensionalParams): P.Lewis
    requires d.liquidDensity * d.specificHeatCapacity != 0.0
  {
    LewisNumber(ThermalDiffusivity(d), d.saltDiffusivity)
  }

  function LewisGas(d: DimensionalParams): P.Lewis
    requires d.liquidDensity * d.specificHeatCapacity != 0.0
  {
    LewisNumber(ThermalDiffusivity(d), d.gasDiffusivity)
  }

  /** Da = (L^2 / kappa) / tau: the thermal timescale in nucleation timescales. */
  function DamkohlerNumber(d: DimensionalParams): (da: real)
    requires d.liquidDensity * d.specificHeatCapacity != 0.0 && d.liquidThermalConductivity != 0.0
    requires d.nucleationTimescale != 0.0
    ensures da * d.nucleationTimescale == d.lengthscale * d.lengthscale / ThermalDiffusivity(d)
  {
    ThermalDiffusivityNonZero(d);
    d.lengthscale * d.lengthscale / ThermalDiffusivity(d) / d.nucleationTimescale
  }

  /** The thermal timescale in days is Da nucleation timescales, converted from seconds. */
  lemma DamkohlerIsTimescaleRatio(d: DimensionalParams)
    requires d.liquidDensity * d.specificHeatCapacity != 0.0 && d.liquidThermalConductivity != 0.0
    requires d.nucleationTimescale != 0.0
    ensures Sc.TimescaleInDays(d.lengthscale, ThermalDiffusivity(d)) ==
            Sc.SecondsToDays * (DamkohlerNumber(d) * d.nucleationTimescale)
  {
    ThermalDiffusivityNonZero(d);
    var kappa := ThermalDiffusivity(d);
    var l2 := d.lengthscale * d.lengthscale;
    MulDiv(Sc.SecondsToDays, l2, kappa);
    assert Sc.SecondsToDays * d.lengthscale * d.lengthscale == Sc.SecondsToDays * l2;
  }

  /** Total simulated time, in thermal timescales. */
  function TotalTime(d: DimensionalParams): (t: real)
    requires d.liquidDensity * d.specificHeatCapacity != 0.0 && d.liquidThermalConductivity != 0.0
    requires d.lengthscale != 0.0
    ensures t * Sc.TimescaleInDays(d.lengthscale, ThermalDiffusivity(d)) == d.totalTimeInDays
  {
    ThermalDiffusivityNonZero(d);
    Sc.TimescaleNonZero(d.lengthscale, ThermalDiffusivity(d));
    d.totalTimeInDays / Sc.TimescaleInDays(d.lengthscale, ThermalDiffusivity(d))
  }

  /** Interval between saved states, in thermal timescales. */
  function Savefreq(d: DimensionalParams): (t: real)
    requires d.liquidDensity * d.specificHeatCapacity != 0.0 && d.liquidThermalConductivity != 0.0
    requires d.lengthscale != 0.0
    ensures t * Sc.TimescaleInDays(d.lengthscale, ThermalDiffusivity(d)) == d.savefreqInDays
  {
    ThermalDiffusivityNonZero(d);
    Sc.TimescaleNonZero(d.lengthscale, ThermalDiffusivity(d));
    d.savefreqInDays / Sc.TimescaleInDays(d.lengthscale, ThermalDiffusivity(d))
  }

  /** Frame velocity in units of the velocity scale L / timescale. */
  function FrameVelocity(d: DimensionalParams): (v: real)
    requires d.liquidDensity * d.specificHeatCapacity != 0.0 && d.liquidThermalConductivity != 0.0
    requires d.lengthscale != 0.0
    ensures v * Sc.VelocityScaleInMPerDay(d.lengthscale, ThermalDiffusivity(d)) == d.frameVelocityDimensional
  {
    ThermalDiffusivityNonZero(d);
    var vs := Sc.VelocityScaleInMPerDay(d.lengthscale, ThermalDiffusivity(d));
    assert vs != 0.0;
    d.frameVelocityDimensional / vs
  }

  // ---------------------------------------------------------------------
  // Bubbles and brine convection
  // ---------------------------------------------------------------------

  /** Stokes rise velocity at the pore scale: rho_l g R_0^2 / (3 mu), in m/s. */
  function StokesVelocity(d: DimensionalParams): (u: real)
    requires d.liquidViscosity != 0.0
    ensures u * (3.0 * d.liquidViscosity) == d.liquidDensity * d.gravity * (d.poreRadius * d.poreRadius)
  {
    d.liquidDensity * d.gravity * (d.poreRadius * d.poreRadius) / (3.0 * d.liquidViscosity)
  }

  /** B: the Stokes velocity in units of the thermal velocity kappa / L. */
  function BuoyancyScale(d: DimensionalParams): (b: real)
    requires d.liquidViscosity != 0.0 && d.lengthscale != 0.0
    requires d.liquidDensity * d.specificHeatCapacity != 0.0 && d.liquidThermalConductivity != 0.0
    ensures b * ThermalDiffusivity(d) == StokesVelocity(d) * d.lengthscale
  {
    ThermalDiffusivityNonZero(d);
    var kappa := ThermalDiffusivity(d);
    var u := StokesVelocity(d);
    var vs := kappa / d.lengthscale;
    assert vs * d.lengthscale == kappa;
    QuotientNonZero(kappa, d.lengthscale);
    var b := u / vs;
    assert b * vs == u;
    assert b * kappa == (b * vs) * d.lengthscale;
    b
  }

  /** Bubble radius over the pore throat radius. */
  function BubbleRadiusScaled(d: DimensionalParams): (lambda: real)
    requires d.poreRadius != 0.0
    ensures lambda * d.poreRadius == d.bubbleRadius
  {
    d.bubbleRadius / d.poreRadius
  }

  /** Numerator of the haline Rayleigh number: rho_l g beta Delta S H K_0. */
  function RayleighNumerator(d: DimensionalParams): real {
    d.liquidDensity * d.gravity * d.halineContractionCoefficient * SalinityDifference(d) * d.lengthscale *
    d.referencePermeability
  }

  /** Ra_S = rho_l g beta Delta S H K_0 / (kappa mu). */
  function RayleighSalt(d: DimensionalParams): (ra: real)
    requires d.liquidDensity * d.specificHeatCapacity != 0.0 && d.liquidThermalConductivity != 0.0
    requires d.liquidViscosity != 0.0
    ensures ra * (ThermalDiffusivity(d) * d.liquidViscosity) == RayleighNumerator(d)
  {
    ThermalDiffusivityNonZero(d);
    ProductNonZero(ThermalDiffusivity(d), d.liquidViscosity);
    RayleighNumerator(d) / (ThermalDiffusivity(d) * d.liquidViscosity)
  }

  // ---------------------------------------------------------------------
  // Scales and the non-dimensional configuration
  // ---------------------------------------------------------------------

  /** Every quantity divided by while deriving the configuration is non-zero. */
  predicate Nondegenerate(d: DimensionalParams) {
    d.gasDensity != 0.0 && d.saturationConcentration != 0.0 &&
    d.eutecticSalinity != 0.0 && d.eutecticSalinity != d.oceanSalinity && d.eutecticTemperature != 0.0 &&
    d.liquidDensity * d.specificHeatCapacity != 0.0 && d.liquidThermalConductivity != 0.0 &&
    d.lengthscale != 0.0 && d.nucleationTimescale != 0.0 && d.liquidViscosity != 0.0 && d.poreRadius != 0.0
  }

  function GetScales(d: DimensionalParams): (sc: Sc.Scales)
    requires d.eutecticSalinity != 0.0 && d.liquidDensity * d.specificHeatCapacity != 0.0
    ensures sc.lengthscale == d.lengthscale && sc.oceanSalinity == d.oceanSalinity
    ensures sc.thermalDiffusivity == ThermalDiffusivity(d)
    ensures sc.oceanFreezingTemperature == OceanFreezingTemperature(d)
    ensures sc.oceanSalinity + sc.salinityDifference == d.eutecticSalinity
    ensures sc.oceanFreezingTemperature - sc.temperatureDifference == d.eutecticTemperature
    ensures sc.gasDensity == d.gasDensity && sc.saturationConcentration == d.saturationConcentration
  {
    Sc.Scales(d.lengthscale, ThermalDiffusivity(d), d.oceanSalinity, SalinityDifference(d),
              OceanFreezingTemperature(d), TemperatureDifference(d), d.gasDensity, d.saturationConcentration)
  }

  /** A non-degenerate description gives scales that can be divided by. */
  lemma ScalesInvertible(d: DimensionalParams)
    requires Nondegenerate(d)
    ensures Sc.Invertible(GetScales(d))
  {
    TemperatureDifferenceNonZero(d);
    ThermalDiffusivityNonZero(d);
  }

  /**
   * On the derived scales the eutectic temperature is -1 and the ocean
   * freezing temperature 0; ocean salinity is 0 and eutectic salinity 1.
   */
  lemma ScalesFixEutecticAndOcean(d: DimensionalParams)
    requires Nondegenerate(d)
    ensures var sc := GetScales(d);
            Sc.FromDimensionalTemperature(sc, d.eutecticTemperature) == -1.0 &&
            Sc.FromDimensionalTemperature(sc, OceanFreezingTemperature(d)) == 0.0 &&
            Sc.FromDimensionalBulkSalinity(sc, d.oceanSalinity) == 0.0 &&
            Sc.FromDimensionalBulkSalinity(sc, d.eutecticSalinity) == 1.0
  {
    ScalesInvertible(d);
    var sc := GetScales(d);
    assert d.eutecticTemperature == sc.oceanFreezingTemperature - sc.temperatureDifference;
    assert d.eutecticSalinity == sc.oceanSalinity + sc.salinityDifference;
  }

  /** The dimensional liquidus through the origin and the eutectic point: T_L(S) = T_E S / S_E. */
  function LiquidusTemperature(d: DimensionalParams, salinity: real): (t: real)
    requires d.eutecticSalinity != 0.0
    ensures t * d.eutecticSalinity == d.eutecticTemperature * salinity
  {
    d.eutecticTemperature * salinity / d.eutecticSalinity
  }

  /**
   * The dimensional liquidus T = T_E S / S_E becomes the non-dimensional
   * liquidus T = -S on these scales, for every salinity.
   */
  lemma LiquidusBecomesMinusSalinity(d: DimensionalParams, salinity: real)
    requires Nondegenerate(d)
    ensures var sc := GetScales(d);
            Sc.FromDimensionalTemperature(sc, LiquidusTemperature(d, salinity)) ==
            -Sc.FromDimensionalBulkSalinity(sc, salinity)
  {
    ScalesInvertible(d);
    var sc := GetScales(d);
    assert sc.oceanFreezingTemperature * d.eutecticSalinity == d.eutecticTemperature * sc.oceanSalinity;
    LiquidusScaledOn(sc, d.eutecticTemperature, d.eutecticSalinity, salinity, LiquidusTemperature(d, salinity));
  }

  /** On scales whose freezing point lies on the liquidus through (S_E, T_E), the liquidus becomes T = -S. */
  lemma LiquidusScaledOn(sc: Sc.Scales, te: real, se: real, salinity: real, tl: real)
    requires se != 0.0 && sc.temperatureDifference != 0.0 && sc.salinityDifference != 0.0
    requires tl * se == te * salinity
    requires sc.oceanFreezingTemperature * se == te * sc.oceanSalinity
    requires sc.temperatureDifference == sc.oceanFreezingTemperature - te
    requires sc.salinityDifference == se - sc.oceanSalinity
    ensures Sc.FromDimensionalTemperature(sc, tl) == -Sc.FromDimensionalBulkSalinity(sc, salinity)
  {
    var t := Sc.FromDimensionalTemperature(sc, tl);
    var s := Sc.FromDimensionalBulkSalinity(sc, salinity);
    LinearLiquidusScaling(t, s, tl, sc.oceanFreezingTemperature, te, se, sc.oceanSalinity, salinity,
                          sc.temperatureDifference, sc.salinityDifference);
  }

  /**
   * The arithmetic behind the liquidus scaling: with `T_L S_E = T_E S`,
   * `T_i S_E = T_E S_i`, `dT = T_i - T_E` and `dS = S_E - S_i`, the scaled
   * temperature `(T_L - T_i) / dT` is minus the scaled salinity `(S - S_i) / dS`.
   */
  lemma LinearLiquidusScaling(t: real, s: real, tl: real, ti: real, te: real, se: real, so: real, x: real,
                              dT: real, dS: real)
    requires se != 0.0 && dT != 0.0
    requires tl * se == te * x && ti * se == te * so
    requires dT == ti - te && dS == se - so
    requires t * dT == tl - ti && s * dS == x - so
    ensures t == -s
  {
    assert (t * dT) * se == te * (s * dS);
    assert (-s * dT) * se == -s * (te * so - te * se);
    assert -s * (te * so - te * se) == te * (s * dS);
    ProductNonZero(dT, se);
    assert t * (dT * se) == -s * (dT * se);
    CancelNonZero(t, -s, dT * se);
  }

  /** A non-degenerate description has a Stefan number. */
  lemma StefanNumberDefined(d: DimensionalParams)
    requires Nondegenerate(d)
    ensures TemperatureDifference(d) * d.specificHeatCapacity != 0.0
  {
    TemperatureDifferenceNonZero(d);
    assert d.specificHeatCapacity != 0.0;
    ProductNonZero(TemperatureDifference(d), d.specificHeatCapacity);
  }

  function GetPhysicalParams(d: DimensionalParams): (p: P.PhysicalParams)
    requires Nondegenerate(d)
    ensures p.tolerableSuperSaturationFraction == d.tolerableSuperSaturationFraction
    ensures p.damkohlerNumber == DamkohlerNumber(d)
    ensures p.expansionCoefficient * d.gasDensity == d.liquidDensity * d.saturationConcentration
    ensures p.concentrationRatio * SalinityDifference(d) == d.oceanSalinity
    ensures p.lewisSalt.Infinite? <==> d.saltDiffusivity == 0.0
    ensures p.lewisGas.Infinite? <==> d.gasDiffusivity == 0.0
    ensures p.lewisSalt.Finite? ==> p.lewisSalt.value * d.saltDiffusivity == ThermalDiffusivity(d)
    ensures p.lewisGas.Finite? ==> p.lewisGas.value * d.gasDiffusivity == ThermalDiffusivity(d)
    ensures p.stefanNumber * (TemperatureDifference(d) * d.specificHeatCapacity) == d.latentHeat
    ensures p.frameVelocity * Sc.VelocityScaleInMPerDay(d.lengthscale, ThermalDiffusivity(d)) == d.frameVelocityDimensional
    ensures p.conductivityRatio * d.liquidThermalConductivity == d.solidThermalConductivity
    ensures p.phaseAverageConductivity == d.phaseAverageConductivity
  {
    StefanNumberDefined(d);
    P.PhysicalParams(
      ExpansionCoefficient(d), ConcentrationRatio(d), StefanNumber(d), LewisSalt(d), LewisGas(d),
      FrameVelocity(d), d.phaseAverageConductivity, ConductivityRatio(d),
      d.tolerableSuperSaturationFraction, DamkohlerNumber(d))
  }

  /** The liquid Darcy velocity of the Darcy law parameters is not derived from dimensional input and stays zero. */
  const DefaultLiquidVelocity: real := 0.0

  function GetDarcyLawParams(d: DimensionalParams): (p: P.DarcyLawParams)
    requires d.liquidViscosity != 0.0 && d.lengthscale != 0.0 && d.poreRadius != 0.0
    requires d.liquidDensity * d.specificHeatCapacity != 0.0 && d.liquidThermalConductivity != 0.0
    ensures p.B * ThermalDiffusivity(d) == StokesVelocity(d) * d.lengthscale
    ensures p.bubbleRadiusScaled * d.poreRadius == d.bubbleRadius
    ensures p.rayleighSalt * (ThermalDiffusivity(d) * d.liquidViscosity) == RayleighNumerator(d)
    ensures p.bubbleSizeDistributionType == d.bubbleSizeDistributionType
    ensures p.brineConvectionParameterisation == d.brineConvectionParameterisation
    ensures p.liquidVelocity == DefaultLiquidVelocity
    ensures p.poreThroatScaling == d.poreThroatScaling && p.dragExponent == d.dragExponent
    ensures p.porosityThreshold == d.porosityThreshold && p.porosityThresholdValue == d.porosityThresholdValue
    ensures p.rayleighCritical == d.rayleighCritical && p.convectionStrength == d.convectionStrength
    ensures p.coupleBubbleToHorizontalFlow == d.coupleBubbleToHorizontalFlow
    ensures p.coupleBubbleToVerticalFlow == d.coupleBubbleToVerticalFlow
  {
    P.DarcyLawParams(
      BuoyancyScale(d), d.poreThroatScaling, d.bubbleSizeDistributionType, d.dragExponent,
      BubbleRadiusScaled(d), d.porosityThreshold, d.porosityThresholdValue,
      d.brineConvectionParameterisation, RayleighSalt(d), d.rayleighCritical, d.convectionStrength,
      d.coupleBubbleToHorizontalFlow, d.coupleBubbleToVerticalFlow, DefaultLiquidVelocity)
  }

  /**
   * The ocean values, non-dimensionalised by the formulas of the scales:
   * gas by the saturation concentration, temperature and salinity by their
   * ocean values and differences, and the summer ice depth by the height.
   */
  function GetBoundaryConditionsConfig(d: DimensionalParams): (b: P.BoundaryConditionsConfig)
    requires d.saturationConcentration != 0.0 && d.lengthscale != 0.0
    requires d.eutecticSalinity != 0.0 && TemperatureDifference(d) != 0.0 && SalinityDifference(d) != 0.0
    ensures b.initialConditionsChoice == d.initialConditionsChoice
    ensures b.farGasSat * d.saturationConcentration == d.farGasSat
    ensures b.farTemp * TemperatureDifference(d) + OceanFreezingTemperature(d) == d.farTemp
    ensures b.farBulkSalinity * SalinityDifference(d) + d.oceanSalinity == d.farBulkSalinity
    ensures b.initialSummerIceDepth * d.lengthscale == d.initialSummerIceDepth
    ensures b.initialSummerOceanTemperature * TemperatureDifference(d) + OceanFreezingTemperature(d) == d.initialSummerOceanTemperature
    ensures b.initialSummerIceTemperature * TemperatureDifference(d) + OceanFreezingTemperature(d) == d.initialSummerIceTemperature
    ensures Nondegenerate(d) ==> Sc.Invertible(GetScales(d))
    ensures d.liquidDensity * d.specificHeatCapacity != 0.0 ==>
            var sc := GetScales(d);
            b.farGasSat == Sc.FromDimensionalDissolvedGas(sc, d.farGasSat) &&
            b.farTemp == Sc.FromDimensionalTemperature(sc, d.farTemp) &&
            b.farBulkSalinity == Sc.FromDimensionalBulkSalinity(sc, d.farBulkSalinity) &&
            b.initialSummerIceDepth == Sc.FromDimensionalGrid(sc, d.initialSummerIceDepth) &&
            b.initialSummerOceanTemperature == Sc.FromDimensionalTemperature(sc, d.initialSummerOceanTemperature) &&
            b.initialSummerIceTemperature == Sc.FromDimensionalTemperature(sc, d.initialSummerIceTemperature)
  {
    assert Nondegenerate(d) ==> Sc.Invertible(GetScales(d)) by {
      if Nondegenerate(d) {
        ScalesInvertible(d);
      }
    }
    var ti, dt := OceanFreezingTemperature(d), TemperatureDifference(d);
    P.BoundaryConditionsConfig(
      d.initialConditionsChoice,
      d.farGasSat / d.saturationConcentration,
      (d.farTemp - ti) / dt,
      (d.farBulkSalinity - d.oceanSalinity) / SalinityDifference(d),
      d.initialSummerIceDepth / d.lengthscale,
      (d.initialSummerOceanTemperature - ti) / dt,
      (d.initialSummerIceTemperature - ti) / dt)
  }

  /** The top temperature non-dimensionalised like every temperature; the sinusoid and Barrow settings copied. */
  function GetForcingConfig(d: DimensionalParams): (f: P.ForcingConfig)
    requires d.eutecticSalinity != 0.0 && TemperatureDifference(d) != 0.0
    ensures f.temperatureForcingChoice == d.temperatureForcingChoice
    ensures f.constantTopTemperature * TemperatureDifference(d) + OceanFreezingTemperature(d) == d.constantTopTemperature
    ensures Nondegenerate(d) ==> Sc.Invertible(GetScales(d))
    ensures d.liquidDensity * d.specificHeatCapacity != 0.0 ==>
            f.constantTopTemperature == Sc.FromDimensionalTemperature(GetScales(d), d.constantTopTemperature)
    ensures f.offset == d.offset && f.amplitude == d.amplitude && f.period == d.period
    ensures f.barrowTopTemperatureDataChoice == d.barrowTopTemperatureDataChoice
    ensures f.barrowInitialBulkGasInIce == d.barrowInitialBulkGasInIce
  {
    assert Nondegenerate(d) ==> Sc.Invertible(GetScales(d)) by {
      if Nondegenerate(d) {
        ScalesInvertible(d);
      }
    }
    P.ForcingConfig(
      d.temperatureForcingChoice,
      (d.constantTopTemperature - OceanFreezingTemperature(d)) / TemperatureDifference(d),
      d.offset, d.amplitude, d.period,
      d.barrowTopTemperatureDataChoice, d.barrowInitialBulkGasInIce, d.swInternalHeating)
  }

  function GetNumericalParams(d: DimensionalParams): (n: P.NumericalParams)
    ensures n.I == d.I && n.timestep == d.timestep && n.regularisation == d.regularisation
  {
    P.NumericalParams(d.I, d.timestep, d.regularisation, d.solver)
  }

  /** `get_config`: the simulation configuration with its scales, name and model. */
  function GetConfig(d: DimensionalParams): (cfg: P.Config)
    requires Nondegenerate(d)
    ensures cfg.name == d.name && cfg.model == d.model
    ensures cfg.scales == Some(GetScales(d)) && Sc.Invertible(cfg.scales.value)
    ensures cfg.physical == GetPhysicalParams(d) && cfg.darcy == GetDarcyLawParams(d)
    ensures cfg.boundary == GetBoundaryConditionsConfig(d) && cfg.forcing == GetForcingConfig(d)
    ensures cfg.numerical == GetNumericalParams(d)
    ensures cfg.totalTime == Sc.FromDimensionalTime(cfg.scales.value, d.totalTimeInDays)
    ensures cfg.savefreq == Sc.FromDimensionalTime(cfg.scales.value, d.savefreqInDays)
  {
    ScalesInvertible(d);
    P.Config(d.name, d.model, GetPhysicalParams(d), GetBoundaryConditionsConfig(d), GetDarcyLawParams(d),
             GetForcingConfig(d), GetNumericalParams(d), Some(GetScales(d)), TotalTime(d), Savefreq(d))
  }

  /**
   * The configuration carries its way back: its own scales turn the ocean
   * values, the top temperature and the run lengths back into the
   * dimensional inputs.
   */
  lemma ConfigRecoversDimensionalValues(d: DimensionalParams)
    requires Nondegenerate(d)
    ensures var cfg := GetConfig(d);
            var sc := cfg.scales.value;
            Sc.ToDimensionalTemperature(sc, cfg.boundary.farTemp) == d.farTemp &&
            Sc.ToDimensionalBulkSalinity(sc, cfg.boundary.farBulkSalinity) == d.farBulkSalinity &&
            Sc.ToDimensionalDissolvedGas(sc, cfg.boundary.farGasSat) == d.farGasSat &&
            Sc.ToDimensionalTemperature(sc, cfg.forcing.constantTopTemperature) == d.constantTopTemperature &&
            Sc.ToDimensionalTime(sc, cfg.totalTime) == d.totalTimeInDays &&
            Sc.ToDimensionalTime(sc, cfg.savefreq) == d.savefreqInDays &&
            Sc.ToDimensionalTemperature(sc, -1.0) == d.eutecticTemperature &&
            Sc.ToDimensionalBulkSalinity(sc, 1.0) == d.eutecticSalinity &&
            cfg.physical.stefanNumber * (sc.temperatureDifference * d.specificHeatCapacity) == d.latentHeat
  {
  }
}
