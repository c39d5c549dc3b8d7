/**
 * The enthalpy method of the full model: in each of the eight phases a
 * closed-form expression gives temperature, liquid and gas fraction,
 * dissolved gas and liquid salinity; the solid fraction is what remains.
 */
module FullEnthalpy {
  import opened Numerics
  import opened Phase
  import opened FullPhase
  import RE = ReducedEnthalpy

  /** Gas fraction of super-saturated liquid: the excess over chi, per unit of non-gas volume. */
  function LiquidGasFraction(p: PhaseParams, g: real): real
    requires p.chi != 1.0
  {
    (g - p.chi) / (1.0 - p.chi)
  }

  /** Coefficients of the super-saturated mush quadratic A*T^2 - B*T + C = 0. */
  function SuperMushA(g: real): real { 1.0 - g }
  function SuperMushB(p: PhaseParams, h: real, s: real, g: real): real {
    (p.C + p.St) * (1.0 - g) + h + s * p.chi + p.C * p.chi
  }
  function SuperMushC(p: PhaseParams, h: real, s: real, g: real): real {
    p.C * h - (1.0 - p.chi) * p.St * s - p.C * p.St * (g - p.chi)
  }
  function SuperMushDiscriminant(p: PhaseParams, h: real, s: real, g: real): real {
    SuperMushB(p, h, s, g) * SuperMushB(p, h, s, g) - 4.0 * SuperMushA(g) * SuperMushC(p, h, s, g)
  }

  // ---------------------------------------------------------------------
  // Per-cell formulas, one case per phase (the masked writes of the source)
  // ---------------------------------------------------------------------

  /** Temperature of super-saturated liquid: enthalpy per unit of non-gas volume. */
  function SuperLiquidTemperature(p: PhaseParams, h: real, g: real): real
    requires p.chi != 1.0 && 1.0 - LiquidGasFraction(p, g) != 0.0
  {
    h / (1.0 - LiquidGasFraction(p, g))
  }

  /** Temperature of sub-saturated mush: the smaller root of the gas-free mush quadratic. */
  function SubMushTemperature(p: PhaseParams, sqrt: real -> real, h: real, s: real): real {
    (1.0 / 2.0) * (GasFreeMushB(p, h) - sqrt(GasFreeMushDiscriminant(p, h, s)))
  }

  /** Temperature of super-saturated mush: the smaller root of the super-saturated quadratic. */
  function SuperMushTemperature(p: PhaseParams, sqrt: real -> real, h: real, s: real, g: real): real
    requires SuperMushA(g) != 0.0
  {
    (1.0 / (2.0 * SuperMushA(g))) * (SuperMushB(p, h, s, g) - sqrt(SuperMushDiscriminant(p, h, s, g)))
  }

  /** Temperature of super-saturated solid. */
  function SuperSolidTemperature(p: PhaseParams, h: real, g: real): real
    requires 1.0 - g != 0.0
  {
    h / (1.0 - g) + p.St
  }

  predicate TemperatureDefined(p: PhaseParams, ph: GasPhase, g: real) {
    match ph
    case SuperLiquid => p.chi != 1.0 && 1.0 - LiquidGasFraction(p, g) != 0.0
    case SuperMush => SuperMushA(g) != 0.0
    case SuperSolid => 1.0 - g != 0.0
    case _ => true
  }

  /** The temperature of a cell of phase `ph`. */
  function Temperature(p: PhaseParams, sqrt: real -> real, ph: GasPhase, h: real, s: real, g: real): real
    requires TemperatureDefined(p, ph, g)
  {
    match ph
    case SubLiquid => h
    case SuperLiquid => SuperLiquidTemperature(p, h, g)
    case SubMush => SubMushTemperature(p, sqrt, h, s)
    case SuperMush => SuperMushTemperature(p, sqrt, h, s, g)
    case SubEutectic | SuperEutectic => -1.0
    case SubSolid => h + p.St
    case SuperSolid => SuperSolidTemperature(p, h, g)
  }

  /** Liquid fraction of sub-saturated mush, from the temperature and the definition of enthalpy. */
  function SubMushLiquidFraction(p: PhaseParams, h: real, t: real): real
    requires p.St != 0.0
  {
    1.0 - (t - h) / p.St
  }

  /** Liquid fraction of super-saturated mush, from salt balance with liquid salinity -T. */
  function SuperMushLiquidFraction(p: PhaseParams, s: real, t: real): (lf: real)
    requires p.C - t != 0.0
    ensures lf * (p.C - t) == s + p.C
  {
    (s + p.C) / (p.C - t)
  }

  /** Liquid fraction of sub-saturated eutectic. */
  function SubEutecticLiquidFraction(p: PhaseParams, h: real): (lf: real)
    requires p.St != 0.0
    ensures (lf - 1.0) * p.St == h + 1.0
  {
    (h + 1.0) / p.St + 1.0
  }

  /** Liquid fraction of super-saturated eutectic. */
  function SuperEutecticLiquidFraction(p: PhaseParams, h: real, g: real): (lf: real)
    requires p.St * (1.0 - p.chi) - p.chi != 0.0
    ensures lf * (p.St * (1.0 - p.chi) - p.chi) == (1.0 - g) * (1.0 + p.St) + h
  {
    ((1.0 - g) * (1.0 + p.St) + h) / (p.St * (1.0 - p.chi) - p.chi)
  }

  predicate LiquidFractionDefined(p: PhaseParams, ph: GasPhase, t: real) {
    match ph
    case SuperLiquid => p.chi != 1.0
    case SubMush => p.St != 0.0
    case SuperMush => p.C - t != 0.0
    case SubEutectic => p.St != 0.0
    case SuperEutectic => p.St * (1.0 - p.chi) - p.chi != 0.0
    case _ => true
  }

  /** The liquid fraction of a cell of phase `ph` at temperature `t`. */
  function LiquidFraction(p: PhaseParams, ph: GasPhase, h: real, s: real, g: real, t: real): real
    requires LiquidFractionDefined(p, ph, t)
  {
    match ph
    case SubLiquid => 1.0
    case SuperLiquid => 1.0 - LiquidGasFraction(p, g)
    case SubMush => SubMushLiquidFraction(p, h, t)
    case SuperMush => SuperMushLiquidFraction(p, s, t)
    case SubEutectic => SubEutecticLiquidFraction(p, h)
    case SuperEutectic => SuperEutecticLiquidFraction(p, h, g)
    case SubSolid | SuperSolid => 0.0
  }

  /** The gas fraction: zero when sub-saturated, otherwise the gas not dissolved in the liquid. */
  function GasFraction(p: PhaseParams, ph: GasPhase, g: real, lf: real): real
    requires ph == SuperLiquid ==> p.chi != 1.0
  {
    match ph
    case SuperLiquid => LiquidGasFraction(p, g)
    case SuperMush => g - p.chi * lf
    case SuperEutectic => g - p.chi * lf
    case SuperSolid => g
    case SubLiquid | SubMush | SubEutectic | SubSolid => 0.0
  }

  /** Bulk gas relative to the saturation capacity `capacity` of the liquid. */
  function SaturationRatio(g: real, capacity: real): (r: real)
    requires capacity != 0.0
    ensures r * capacity == g
  {
    g / capacity
  }

  predicate DissolvedGasDefined(p: PhaseParams, ph: GasPhase, lf: real) {
    match ph
    case SubLiquid => p.chi != 0.0
    case SubMush => p.chi * lf != 0.0
    case SubEutectic => p.chi * lf != 0.0
    case _ => true
  }

  /** Dissolved gas relative to saturation: 1 wherever bubbles are present, and in the solid. */
  function DissolvedGas(p: PhaseParams, ph: GasPhase, g: real, lf: real): real
    requires DissolvedGasDefined(p, ph, lf)
  {
    match ph
    case SubLiquid => SaturationRatio(g, p.chi)
    case SubMush => SaturationRatio(g, p.chi * lf)
    case SubEutectic => SaturationRatio(g, p.chi * lf)
    case _ => 1.0
  }

  /** Liquid salinity of super-saturated liquid: the salt of the cell in its non-gas volume. */
  function SuperLiquidSalinity(p: PhaseParams, s: real, g: real): real
    requires p.chi != 1.0 && 1.0 - LiquidGasFraction(p, g) != 0.0
  {
    var gf := LiquidGasFraction(p, g);
    (s + gf * p.C) / (1.0 - gf)
  }

  /** The liquid salinity: the bulk salinity in sub-saturated liquid, -T in mush, 1 elsewhere. */
  function LiquidSalinity(p: PhaseParams, ph: GasPhase, s: real, g: real, t: real): real
    requires ph == SuperLiquid ==> p.chi != 1.0 && 1.0 - LiquidGasFraction(p, g) != 0.0
  {
    match ph
    case SubLiquid => s
    case SuperLiquid => SuperLiquidSalinity(p, s, g)
    case SubMush | SuperMush => -t
    case _ => 1.0
  }

  /** The six derived values of one cell. */
  datatype Cell = Cell(temperature: real, liquidFraction: real, gasFraction: real, solidFraction: real,
                       liquidSalinity: real, dissolvedGas: real)

  /** Whether no division by zero occurs in the fields derived from temperature `t`. */
  predicate FieldsDefined(p: PhaseParams, ph: GasPhase, h: real, s: real, g: real, t: real) {
    LiquidFractionDefined(p, ph, t) &&
    DissolvedGasDefined(p, ph, LiquidFraction(p, ph, h, s, g, t)) &&
    (ph == SuperLiquid ==> 1.0 - LiquidGasFraction(p, g) != 0.0)
  }

  /**
   * The fields the source derives once the temperature `t` is known, in its
   * order: liquid fraction, gas fraction, solid fraction as the rest, liquid
   * salinity, dissolved gas. The three volume fractions sum to one.
   */
  function Fields(p: PhaseParams, ph: GasPhase, h: real, s: real, g: real, t: real): (c: Cell)
    requires FieldsDefined(p, ph, h, s, g, t)
    ensures c.temperature == t
    ensures c.liquidFraction + c.gasFraction + c.solidFraction == 1.0
  {
    var lf := LiquidFraction(p, ph, h, s, g, t);
    var gf := GasFraction(p, ph, g, lf);
    Cell(t, lf, gf, 1.0 - lf - gf, LiquidSalinity(p, ph, s, g, t), DissolvedGas(p, ph, g, lf))
  }

  /** Whether no division by zero occurs anywhere in a cell of phase `ph`. */
  predicate CellDefined(p: PhaseParams, sqrt: real -> real, ph: GasPhase, h: real, s: real, g: real) {
    TemperatureDefined(p, ph, g) && FieldsDefined(p, ph, h, s, g, Temperature(p, sqrt, ph, h, s, g))
  }

  /** The enthalpy method on one cell. */
  function CellValues(p: PhaseParams, sqrt: real -> real, ph: GasPhase, h: real, s: real, g: real): (c: Cell)
    requires CellDefined(p, sqrt, ph, h, s, g)
    ensures c == Fields(p, ph, h, s, g, Temperature(p, sqrt, ph, h, s, g))
  {
    Fields(p, ph, h, s, g, Temperature(p, sqrt, ph, h, s, g))
  }

  // ---------------------------------------------------------------------
  // The temperature solves its phase's equation
  // ---------------------------------------------------------------------

  /**
   * The equation the temperature of each phase satisfies: the definition of
   * enthalpy solved for T in liquid and solid, the eutectic temperature -1,
   * and in mush the quadratic that combines enthalpy and salt balance.
   */
  predicate TemperatureFits(p: PhaseParams, ph: GasPhase, h: real, s: real, g: real, t: real) {
    match ph
    case SubLiquid => t == h
    case SuperLiquid => p.chi != 1.0 && t * (1.0 - LiquidGasFraction(p, g)) == h
    case SubMush => t * t - GasFreeMushB(p, h) * t + GasFreeMushA(p, h, s) == 0.0
    case SuperMush => SuperMushA(g) * (t * t) - SuperMushB(p, h, s, g) * t + SuperMushC(p, h, s, g) == 0.0
    case SubEutectic | SuperEutectic => t == -1.0
    case SubSolid => t == h + p.St
    case SuperSolid => (t - p.St) * (1.0 - g) == h
  }

  /** What the mush roots need: a true square root of a non-negative discriminant. */
  ghost predicate RootsReal(p: PhaseParams, sqrt: real -> real, ph: GasPhase, h: real, s: real, g: real) {
    (ph == SubMush ==> IsSqrt(sqrt) && 0.0 <= GasFreeMushDiscriminant(p, h, s)) &&
    (ph == SuperMush ==> IsSqrt(sqrt) && 0.0 <= SuperMushDiscriminant(p, h, s, g))
  }

  /**
   * The sub-saturated mush discriminant is `(H - C + St)^2 + 4 St (S + C)`,
   * so with a true square root, a non-negative Stefan number and a physical
   * salinity (at least `-C`) the sub-saturated mush root is real.
   */
  lemma SubMushRootReal(p: PhaseParams, sqrt: real -> real, h: real, s: real, g: real)
    ensures GasFreeMushDiscriminant(p, h, s) == (h - p.C + p.St) * (h - p.C + p.St) + 4.0 * p.St * (s + p.C)
    ensures IsSqrt(sqrt) && 0.0 <= p.St && -p.C <= s ==> RootsReal(p, sqrt, SubMush, h, s, g)
  {
    var e := h - p.C + p.St;
    assert GasFreeMushDiscriminant(p, h, s) == e * e + 4.0 * p.St * (s + p.C);
    if 0.0 <= p.St && -p.C <= s {
      MulNonNegative(p.St, s + p.C);
      MulNonNegative(e, e);
    }
  }

  lemma MulNonNegative(a: real, b: real)
    requires (0.0 <= a && 0.0 <= b) || a == b
    ensures 0.0 <= a * b
  {
  }

  /** The computed temperature of every phase solves that phase's equation. */
  lemma TemperatureSolves(p: PhaseParams, sqrt: real -> real, ph: GasPhase, h: real, s: real, g: real)
    requires TemperatureDefined(p, ph, g) && RootsReal(p, sqrt, ph, h, s, g)
    ensures TemperatureFits(p, ph, h, s, g, Temperature(p, sqrt, ph, h, s, g))
  {
    match ph
    case SubMush => MushTemperatureRoot(p, sqrt, h, s, g);
    case SuperMush => SuperMushTemperatureRoot(p, sqrt, h, s, g);
    case SuperLiquid => SuperLiquidTemperatureFits(p, sqrt, h, s, g);
    case SuperSolid => SuperSolidTemperatureFits(p, sqrt, h, s, g);
    case _ =>
  }

  lemma SuperLiquidTemperatureFits(p: PhaseParams, sqrt: real -> real, h: real, s: real, g: real)
    requires TemperatureDefined(p, SuperLiquid, g)
    ensures TemperatureFits(p, SuperLiquid, h, s, g, Temperature(p, sqrt, SuperLiquid, h, s, g))
  {
    ShiftedQuotient(h, 1.0 - LiquidGasFraction(p, g), 0.0);
  }

  lemma SuperSolidTemperatureFits(p: PhaseParams, sqrt: real -> real, h: real, s: real, g: real)
    requires TemperatureDefined(p, SuperSolid, g)
    ensures TemperatureFits(p, SuperSolid, h, s, g, Temperature(p, sqrt, SuperSolid, h, s, g))
  {
    ShiftedQuotient(h, 1.0 - g, p.St);
  }

  lemma ShiftedQuotient(a: real, b: real, c: real)
    requires b != 0.0
    ensures ((a / b + c) - c) * b == a && (a / b) * b == a
  {
  }

  /** In sub-saturated mush, T^2 - (H + C + St) T + (C H - St S) = 0. */
  lemma MushTemperatureRoot(p: PhaseParams, sqrt: real -> real, h: real, s: real, g: real)
    requires IsSqrt(sqrt) && 0.0 <= GasFreeMushDiscriminant(p, h, s)
    ensures TemperatureFits(p, SubMush, h, s, g, Temperature(p, sqrt, SubMush, h, s, g))
  {
    var b := GasFreeMushB(p, h);
    var q := sqrt(GasFreeMushDiscriminant(p, h, s));
    var t := SubMushTemperature(p, sqrt, h, s);
    assert q * q == (-b) * (-b) - 4.0 * 1.0 * GasFreeMushA(p, h, s);
    assert t == (1.0 / (2.0 * 1.0)) * (-(-b) - q);
    RootSolvesQuadratic(1.0, -b, GasFreeMushA(p, h, s), q, t);
  }

  /** In super-saturated mush, (1 - G) T^2 - B T + C = 0 with the source's coefficients. */
  lemma SuperMushTemperatureRoot(p: PhaseParams, sqrt: real -> real, h: real, s: real, g: real)
    requires IsSqrt(sqrt) && SuperMushA(g) != 0.0 && 0.0 <= SuperMushDiscriminant(p, h, s, g)
    ensures TemperatureFits(p, SuperMush, h, s, g, Temperature(p, sqrt, SuperMush, h, s, g))
  {
    var a, b, c := SuperMushA(g), SuperMushB(p, h, s, g), SuperMushC(p, h, s, g);
    var q := sqrt(SuperMushDiscriminant(p, h, s, g));
    var t := SuperMushTemperature(p, sqrt, h, s, g);
    assert q * q == (-b) * (-b) - 4.0 * a * c;
    assert t == (1.0 / (2.0 * a)) * (-(-b) - q);
    RootSolvesQuadratic(a, -b, c, q, t);
  }

  // ---------------------------------------------------------------------
  // Balance laws: the method inverts the definitions of the bulk variables.
  // The helpers below take each quotient `q = n / d` of a formula as a
  // value with its defining product `q * d == n`.
  // ---------------------------------------------------------------------

  /** Dissolved gas in the liquid plus free gas is the bulk gas. */
  predicate GasConserved(p: PhaseParams, g: real, c: Cell) {
    p.chi * c.liquidFraction * c.dissolvedGas + c.gasFraction == g
  }

  /** The bulk salinity is the liquid's salt less the salt displaced by the non-liquid volume. */
  predicate SaltBalanced(p: PhaseParams, s: real, c: Cell) {
    s == c.liquidFraction * c.liquidSalinity - p.C * (1.0 - c.liquidFraction)
  }

  /**
   * The balance laws the derived values of a cell of phase `ph` satisfy:
   * the bulk enthalpy is H = T (1 - gas fraction) - St (solid fraction) in
   * every phase; gas is conserved in every phase but sub-saturated solid,
   * where it is conserved exactly when there is no gas; and salt is balanced
   * in liquid and mush.
   */
  predicate CellBalanced(p: PhaseParams, ph: GasPhase, h: real, s: real, g: real, c: Cell) {
    h == c.temperature * (1.0 - c.gasFraction) - p.St * c.solidFraction &&
    (ph != SubSolid ==> GasConserved(p, g, c)) &&
    (ph == SubSolid ==> (GasConserved(p, g, c) <==> g == 0.0)) &&
    ((ph.ThermalRegion() == Liquid || ph.ThermalRegion() == Mush) ==> SaltBalanced(p, s, c))
  }

  /**
   * Once the temperature solves its phase's equation, the derived values
   * balance enthalpy, gas and salt: the enthalpy method inverts the
   * definitions of the three bulk variables.
   */
  lemma CellBalances(p: PhaseParams, ph: GasPhase, h: real, s: real, g: real, t: real)
    requires FieldsDefined(p, ph, h, s, g, t) && TemperatureFits(p, ph, h, s, g, t)
    ensures CellBalanced(p, ph, h, s, g, Fields(p, ph, h, s, g, t))
  {
    match ph
    case SubLiquid => SubLiquidBalances(p, h, s, g, t);
    case SuperLiquid => SuperLiquidBalances(p, h, s, g, t);
    case SubMush => SubMushBalances(p, h, s, g, t);
    case SuperMush => SuperMushBalances(p, h, s, g, t);
    case SubEutectic => SubEutecticBalances(p, h, s, g, t);
    case SuperEutectic => SuperEutecticBalances(p, h, s, g, t);
    case SubSolid => SubSolidBalances(p, h, s, g, t);
    case SuperSolid => SuperSolidBalances(p, h, s, g, t);
  }

  lemma SubLiquidBalances(p: PhaseParams, h: real, s: real, g: real, t: real)
    requires FieldsDefined(p, SubLiquid, h, s, g, t) && TemperatureFits(p, SubLiquid, h, s, g, t)
    ensures CellBalanced(p, SubLiquid, h, s, g, Fields(p, SubLiquid, h, s, g, t))
  {
    var c := Fields(p, SubLiquid, h, s, g, t);
    FractionBalance(p.St, h, t, 1.0, 0.0, c.liquidFraction, c.gasFraction, c.solidFraction);
    DissolvedShare(p.chi, g, c.liquidFraction, c.gasFraction, c.dissolvedGas);
    LiquidSalt(p.C, s, 0.0, c.liquidFraction, c.liquidSalinity);
  }

  lemma SuperLiquidBalances(p: PhaseParams, h: real, s: real, g: real, t: real)
    requires FieldsDefined(p, SuperLiquid, h, s, g, t) && TemperatureFits(p, SuperLiquid, h, s, g, t)
    ensures CellBalanced(p, SuperLiquid, h, s, g, Fields(p, SuperLiquid, h, s, g, t))
  {
    var c := Fields(p, SuperLiquid, h, s, g, t);
    var q := LiquidGasFraction(p, g);
    FractionBalance(p.St, h, t, 1.0 - q, q, c.liquidFraction, c.gasFraction, c.solidFraction);
    LiquidSuperGas(p.chi, g, q, c.liquidFraction, c.gasFraction, c.dissolvedGas);
    LiquidSalt(p.C, s, q, c.liquidFraction, c.liquidSalinity);
  }

  lemma SubMushBalances(p: PhaseParams, h: real, s: real, g: real, t: real)
    requires FieldsDefined(p, SubMush, h, s, g, t) && TemperatureFits(p, SubMush, h, s, g, t)
    ensures CellBalanced(p, SubMush, h, s, g, Fields(p, SubMush, h, s, g, t))
  {
    var c := Fields(p, SubMush, h, s, g, t);
    var q := (t - h) / p.St;
    MushSubBalance(p.St, h, t, q, c.liquidFraction, c.gasFraction, c.solidFraction);
    DissolvedShare(p.chi, g, c.liquidFraction, c.gasFraction, c.dissolvedGas);
    SubMushSaltBalance(p, h, s, t, q, c.liquidFraction, c.liquidSalinity);
  }

  lemma SuperMushBalances(p: PhaseParams, h: real, s: real, g: real, t: real)
    requires FieldsDefined(p, SuperMush, h, s, g, t) && TemperatureFits(p, SuperMush, h, s, g, t)
    ensures CellBalanced(p, SuperMush, h, s, g, Fields(p, SuperMush, h, s, g, t))
  {
    var lf := SuperMushFields(p, h, s, g, t);
    SuperMushCellBalanced(p, h, s, g, t, lf);
  }

  /** The fields of a super-saturated mush cell, named. */
  lemma SuperMushFields(p: PhaseParams, h: real, s: real, g: real, t: real) returns (lf: real)
    requires p.C - t != 0.0
    ensures lf * (p.C - t) == s + p.C
    ensures Fields(p, SuperMush, h, s, g, t) == Cell(t, lf, g - p.chi * lf, 1.0 - lf - (g - p.chi * lf), -t, 1.0)
  {
    lf := SuperMushLiquidFraction(p, s, t);
  }

  lemma SuperMushCellBalanced(p: PhaseParams, h: real, s: real, g: real, t: real, lf: real)
    requires p.C - t != 0.0 && lf * (p.C - t) == s + p.C
    requires SuperMushA(g) * (t * t) - SuperMushB(p, h, s, g) * t + SuperMushC(p, h, s, g) == 0.0
    ensures CellBalanced(p, SuperMush, h, s, g, Cell(t, lf, g - p.chi * lf, 1.0 - lf - (g - p.chi * lf), -t, 1.0))
  {
    var gf := g - p.chi * lf;
    var c := Cell(t, lf, gf, 1.0 - lf - gf, -t, 1.0);
    SuperMushBalance(p, h, s, g, t, lf, gf, 1.0 - lf - gf);
    SaturatedGas(p.chi, g, lf, gf, 1.0);
    SuperMushSalt(p.C, s, t, lf, -t);
    assert GasConserved(p, g, c) && SaltBalanced(p, s, c);
  }

  lemma SubEutecticBalances(p: PhaseParams, h: real, s: real, g: real, t: real)
    requires FieldsDefined(p, SubEutectic, h, s, g, t) && TemperatureFits(p, SubEutectic, h, s, g, t)
    ensures CellBalanced(p, SubEutectic, h, s, g, Fields(p, SubEutectic, h, s, g, t))
  {
    var c := Fields(p, SubEutectic, h, s, g, t);
    EutecticSubBalance(p.St, h, t, (h + 1.0) / p.St, c.liquidFraction, c.gasFraction, c.solidFraction);
    DissolvedShare(p.chi, g, c.liquidFraction, c.gasFraction, c.dissolvedGas);
  }

  lemma SuperEutecticBalances(p: PhaseParams, h: real, s: real, g: real, t: real)
    requires FieldsDefined(p, SuperEutectic, h, s, g, t) && TemperatureFits(p, SuperEutectic, h, s, g, t)
    ensures CellBalanced(p, SuperEutectic, h, s, g, Fields(p, SuperEutectic, h, s, g, t))
  {
    var c := Fields(p, SuperEutectic, h, s, g, t);
    EutecticSuperBalance(p, h, g, t, c.liquidFraction, c.gasFraction, c.solidFraction);
    SaturatedGas(p.chi, g, c.liquidFraction, c.gasFraction, c.dissolvedGas);
  }

  lemma SubSolidBalances(p: PhaseParams, h: real, s: real, g: real, t: real)
    requires FieldsDefined(p, SubSolid, h, s, g, t) && TemperatureFits(p, SubSolid, h, s, g, t)
    ensures CellBalanced(p, SubSolid, h, s, g, Fields(p, SubSolid, h, s, g, t))
  {
    var c := Fields(p, SubSolid, h, s, g, t);
    FractionBalance(p.St, h, t, 0.0, 0.0, c.liquidFraction, c.gasFraction, c.solidFraction);
    SaturatedGas(p.chi, 0.0, c.liquidFraction, c.gasFraction, c.dissolvedGas);
  }

  lemma SuperSolidBalances(p: PhaseParams, h: real, s: real, g: real, t: real)
    requires FieldsDefined(p, SuperSolid, h, s, g, t) && TemperatureFits(p, SuperSolid, h, s, g, t)
    ensures CellBalanced(p, SuperSolid, h, s, g, Fields(p, SuperSolid, h, s, g, t))
  {
    var c := Fields(p, SuperSolid, h, s, g, t);
    SolidSuperBalance(p.St, h, g, t, c.liquidFraction, c.gasFraction, c.solidFraction);
    SaturatedGas(p.chi, g, c.liquidFraction, c.gasFraction, c.dissolvedGas);
  }

  /** Liquid and sub-saturated solid: no phase change term beyond the solid's latent heat. */
  lemma FractionBalance(st: real, h: real, t: real, l: real, q: real, lf: real, gf: real, sf: real)
    requires lf == l && gf == q && sf == 1.0 - lf - gf
    requires (l == 1.0 - q && t * (1.0 - q) == h) || (l == 0.0 && q == 0.0 && t == h + st)
    ensures h == t * (1.0 - gf) - st * sf
  {
  }

  lemma MushSubBalance(st: real, h: real, t: real, q: real, lf: real, gf: real, sf: real)
    requires q * st == t - h && lf == 1.0 - q && gf == 0.0 && sf == 1.0 - lf - gf
    ensures h == t * (1.0 - gf) - st * sf
  {
  }

  lemma EutecticSubBalance(st: real, h: real, t: real, q: real, lf: real, gf: real, sf: real)
    requires q * st == h + 1.0 && t == -1.0 && lf == q + 1.0 && gf == 0.0 && sf == 1.0 - lf - gf
    ensures h == t * (1.0 - gf) - st * sf
  {
  }

  lemma SolidSuperBalance(st: real, h: real, g: real, t: real, lf: real, gf: real, sf: real)
    requires (t - st) * (1.0 - g) == h && lf == 0.0 && gf == g && sf == 1.0 - lf - gf
    ensures h == t * (1.0 - gf) - st * sf
  {
  }

  /** The super-saturated mush temperature, being a root of its quadratic, balances the enthalpy. */
  lemma SuperMushBalance(p: PhaseParams, h: real, s: real, g: real, t: real, lf: real, gf: real, sf: real)
    requires p.C - t != 0.0
    requires SuperMushA(g) * (t * t) - SuperMushB(p, h, s, g) * t + SuperMushC(p, h, s, g) == 0.0
    requires lf * (p.C - t) == s + p.C && gf == g - p.chi * lf && sf == 1.0 - lf - gf
    ensures h == t * (1.0 - gf) - p.St * sf
  {
    var d := p.C - t;
    var e := t * (1.0 - gf) - p.St * sf - h;
    var u := t * (1.0 - g) - p.St * (1.0 - g) - h;
    var v := p.chi * t + p.St * (1.0 - p.chi);
    assert e == u + v * lf;
    assert e * d == u * d + v * (lf * d);
    assert u * d + v * (s + p.C) ==
      -(SuperMushA(g) * (t * t) - SuperMushB(p, h, s, g) * t + SuperMushC(p, h, s, g));
    ProductZero(d, e);
  }

  lemma EutecticSuperBalance(p: PhaseParams, h: real, g: real, t: real, lf: real, gf: real, sf: real)
    requires t == -1.0
    requires lf * (p.St * (1.0 - p.chi) - p.chi) == (1.0 - g) * (1.0 + p.St) + h
    requires gf == g - p.chi * lf && sf == 1.0 - lf - gf
    ensures h == t * (1.0 - gf) - p.St * sf
  {
    assert t * (1.0 - gf) - p.St * sf == -(1.0 - g) * (1.0 + p.St) + lf * (p.St * (1.0 - p.chi) - p.chi);
  }

  /** All the gas of a bubble-free cell is dissolved in its liquid. */
  lemma DissolvedShare(chi: real, g: real, lf: real, gf: real, dg: real)
    requires (dg * (chi * lf) == g || (lf == 1.0 && dg * chi == g)) && gf == 0.0
    ensures chi * lf * dg + gf == g
  {
  }

  lemma LiquidSuperGas(chi: real, g: real, q: real, lf: real, gf: real, dg: real)
    requires q * (1.0 - chi) == g - chi && gf == q && lf == 1.0 - q && dg == 1.0
    ensures chi * lf * dg + gf == g
  {
    assert chi * lf * dg + gf == chi + q * (1.0 - chi);
  }

  /** Saturated liquid holds chi * lf of the gas; the rest is bubbles. */
  lemma SaturatedGas(chi: real, g: real, lf: real, gf: real, dg: real)
    requires gf == g - chi * lf && dg == 1.0
    ensures chi * lf * dg + gf == g
  {
  }

  lemma LiquidSalt(c: real, s: real, q: real, lf: real, sl: real)
    requires lf == 1.0 - q && (sl * (1.0 - q) == s + q * c || (q == 0.0 && sl == s))
    ensures s == lf * sl - c * (1.0 - lf)
  {
  }

  lemma SuperMushSalt(c: real, s: real, t: real, lf: real, sl: real)
    requires lf * (c - t) == s + c && sl == -t
    ensures s == lf * sl - c * (1.0 - lf)
  {
    assert lf * sl - c * (1.0 - lf) == lf * (c - t) - c;
  }

  /** In sub-saturated mush the quadratic for T is the salt balance. */
  lemma SubMushSaltBalance(p: PhaseParams, h: real, s: real, t: real, q: real, lf: real, sl: real)
    requires p.St != 0.0
    requires t * t - GasFreeMushB(p, h) * t + GasFreeMushA(p, h, s) == 0.0
    requires q * p.St == t - h && lf == 1.0 - q && sl == -t
    ensures s == lf * sl - p.C * (1.0 - lf)
  {
    var e := lf * (p.C - t) - (s + p.C);
    assert p.St * e == (p.St - (t - h)) * (p.C - t) - p.St * (s + p.C);
    assert p.St * e == t * t - GasFreeMushB(p, h) * t + GasFreeMushA(p, h, s);
    ProductZero(p.St, e);
    assert lf * sl - p.C * (1.0 - lf) == lf * (p.C - t) - p.C;
  }

  // ---------------------------------------------------------------------
  // Continuity across the saturation boundary
  // ---------------------------------------------------------------------

  /** At G = chi the sub- and super-saturated liquid formulas give the same six values. */
  lemma LiquidBranchesAgree(p: PhaseParams, sqrt: real -> real, h: real, s: real)
    requires p.chi != 0.0 && p.chi != 1.0
    ensures CellDefined(p, sqrt, SubLiquid, h, s, p.chi)
    ensures CellDefined(p, sqrt, SuperLiquid, h, s, p.chi)
    ensures CellValues(p, sqrt, SuperLiquid, h, s, p.chi) == CellValues(p, sqrt, SubLiquid, h, s, p.chi)
  {
    var q := LiquidGasFraction(p, p.chi);
    QuotientUnique(p.chi - p.chi, 1.0 - p.chi, 0.0);
    QuotientUnique(h, 1.0 - q, h);
    QuotientUnique(s + q * p.C, 1.0 - q, s);
    QuotientUnique(p.chi, p.chi, 1.0);
    var sup := CellValues(p, sqrt, SuperLiquid, h, s, p.chi);
    var sub := CellValues(p, sqrt, SubLiquid, h, s, p.chi);
    assert sup.temperature == sub.temperature;
    assert sup.liquidSalinity == sub.liquidSalinity;
    assert sup.dissolvedGas == sub.dissolvedGas;
  }

  /** At G = 0 the sub- and super-saturated solid formulas give the same six values. */
  lemma SolidBranchesAgree(p: PhaseParams, sqrt: real -> real, h: real, s: real)
    ensures CellDefined(p, sqrt, SubSolid, h, s, 0.0)
    ensures CellDefined(p, sqrt, SuperSolid, h, s, 0.0)
    ensures CellValues(p, sqrt, SuperSolid, h, s, 0.0) == CellValues(p, sqrt, SubSolid, h, s, 0.0)
  {
    QuotientUnique(h, 1.0 - 0.0, h);
  }

  /**
   * Where the gas exactly saturates the eutectic liquid, G = chi * lf, the
   * sub- and super-saturated eutectic formulas give the same six values.
   */
  lemma EutecticBranchesAgree(p: PhaseParams, sqrt: real -> real, h: real, s: real)
    requires p.St != 0.0 && p.St * (1.0 - p.chi) - p.chi != 0.0
    requires p.chi * SubEutecticLiquidFraction(p, h) != 0.0
    ensures var g := p.chi * SubEutecticLiquidFraction(p, h);
      CellDefined(p, sqrt, SubEutectic, h, s, g) &&
      CellDefined(p, sqrt, SuperEutectic, h, s, g) &&
      CellValues(p, sqrt, SuperEutectic, h, s, g) == CellValues(p, sqrt, SubEutectic, h, s, g)
  {
    var g := p.chi * SubEutecticLiquidFraction(p, h);
    EutecticFieldsAgree(p, h, s, g);
  }

  lemma EutecticFieldsAgree(p: PhaseParams, h: real, s: real, g: real)
    requires p.St != 0.0 && p.St * (1.0 - p.chi) - p.chi != 0.0
    requires g == p.chi * SubEutecticLiquidFraction(p, h) && g != 0.0
    ensures FieldsDefined(p, SubEutectic, h, s, g, -1.0) && FieldsDefined(p, SuperEutectic, h, s, g, -1.0)
    ensures Fields(p, SuperEutectic, h, s, g, -1.0) == Fields(p, SubEutectic, h, s, g, -1.0)
  {
    var x := SubEutecticFields(p, h, s, g);
    var y := SuperEutecticFields(p, h, s, g);
    EutecticSaturatedAlgebra(p, h, g, x, y);
  }

  /** The fields of a sub-saturated eutectic cell whose liquid is exactly saturated, named. */
  lemma SubEutecticFields(p: PhaseParams, h: real, s: real, g: real) returns (x: real)
    requires p.St != 0.0 && g == p.chi * SubEutecticLiquidFraction(p, h) && g != 0.0
    ensures x == SubEutecticLiquidFraction(p, h) && (x - 1.0) * p.St == h + 1.0
    ensures FieldsDefined(p, SubEutectic, h, s, g, -1.0)
    ensures Fields(p, SubEutectic, h, s, g, -1.0) == Cell(-1.0, x, 0.0, 1.0 - x - 0.0, 1.0, 1.0)
  {
    x := SubEutecticLiquidFraction(p, h);
    var r := SaturationRatio(g, g);
    UnitFactor(r, g);
    assert p.chi * x == g;
    assert DissolvedGas(p, SubEutectic, g, x) == r;
  }

  /** The fields of a super-saturated eutectic cell, named. */
  lemma SuperEutecticFields(p: PhaseParams, h: real, s: real, g: real) returns (y: real)
    requires p.St * (1.0 - p.chi) - p.chi != 0.0
    ensures y * (p.St * (1.0 - p.chi) - p.chi) == (1.0 - g) * (1.0 + p.St) + h
    ensures FieldsDefined(p, SuperEutectic, h, s, g, -1.0)
    ensures Fields(p, SuperEutectic, h, s, g, -1.0) == Cell(-1.0, y, g - p.chi * y, 1.0 - y - (g - p.chi * y), 1.0, 1.0)
  {
    y := SuperEutecticLiquidFraction(p, h, g);
  }

  /** At saturation the two eutectic liquid fractions coincide and no gas is free. */
  lemma EutecticSaturatedAlgebra(p: PhaseParams, h: real, g: real, x: real, y: real)
    requires p.St * (1.0 - p.chi) - p.chi != 0.0
    requires (x - 1.0) * p.St == h + 1.0 && g == p.chi * x
    requires y * (p.St * (1.0 - p.chi) - p.chi) == (1.0 - g) * (1.0 + p.St) + h
    ensures y == x && g - p.chi * y == 0.0
  {
    EutecticSaturatedNumerator(p, h, x - 1.0, x, g);
    CancelNonZero(y, x, p.St * (1.0 - p.chi) - p.chi);
  }

  /** At saturation the numerator of the super-saturated eutectic liquid fraction is x times its denominator. */
  lemma EutecticSaturatedNumerator(p: PhaseParams, h: real, q: real, x: real, g: real)
    requires q * p.St == h + 1.0 && x == q + 1.0 && g == p.chi * x
    ensures (1.0 - g) * (1.0 + p.St) + h == x * (p.St * (1.0 - p.chi) - p.chi)
  {
    assert h == p.St * (x - 1.0) - 1.0;
  }

  // ---------------------------------------------------------------------
  // The column method
  // ---------------------------------------------------------------------

  /** What the method needs of a column: equal lengths and no division by zero in any cell. */
  predicate ColumnDefined(p: PhaseParams, sqrt: real -> real, phases: seq<GasPhase>,
                          enthalpy: seq<real>, salt: seq<real>, gas: seq<real>) {
    |phases| == |enthalpy| == |salt| == |gas| &&
    forall i :: 0 <= i < |phases| ==> CellDefined(p, sqrt, phases[i], enthalpy[i], salt[i], gas[i])
  }

  /** Every derived column has one entry per cell. */
  predicate DerivedShaped(d: RE.Derived, n: nat) {
    |d.temperature| == |d.liquidFraction| == |d.gasFraction| == n &&
    |d.solidFraction| == |d.liquidSalinity| == |d.dissolvedGas| == n
  }

  /** The six derived values of cell `i` of a column. */
  function CellAt(d: RE.Derived, i: nat): Cell
    requires DerivedShaped(d, |d.temperature|) && i < |d.temperature|
  {
    Cell(d.temperature[i], d.liquidFraction[i], d.gasFraction[i], d.solidFraction[i],
         d.liquidSalinity[i], d.dissolvedGas[i])
  }

  /**
   * What the full method guarantees of a column: in every cell the three
   * volume fractions sum to one, and the balance laws of its phase hold in
   * every cell whose mush root is real (in every cell not in mush).
   */
  ghost predicate FullBalanced(p: PhaseParams, sqrt: real -> real, phases: seq<GasPhase>, enthalpy: seq<real>,
                               salt: seq<real>, gas: seq<real>, d: RE.Derived) {
    |phases| == |enthalpy| == |salt| == |gas| && DerivedShaped(d, |enthalpy|) &&
    forall i :: 0 <= i < |enthalpy| ==>
      CellAt(d, i).liquidFraction + CellAt(d, i).gasFraction + CellAt(d, i).solidFraction == 1.0 &&
      (RootsReal(p, sqrt, phases[i], enthalpy[i], salt[i], gas[i]) ==>
         CellBalanced(p, phases[i], enthalpy[i], salt[i], gas[i], CellAt(d, i)))
  }

  /** The six columns, each filled cell by cell from the cell's phase. */
  function FullColumns(p: PhaseParams, sqrt: real -> real, phases: seq<GasPhase>,
                       enthalpy: seq<real>, salt: seq<real>, gas: seq<real>): RE.Derived
    requires ColumnDefined(p, sqrt, phases, enthalpy, salt, gas)
  {
    var n := |phases|;
    var cells := seq(n, i requires 0 <= i < n => CellValues(p, sqrt, phases[i], enthalpy[i], salt[i], gas[i]));
    RE.Derived(
      seq(n, i requires 0 <= i < n => cells[i].temperature),
      seq(n, i requires 0 <= i < n => cells[i].liquidFraction),
      seq(n, i requires 0 <= i < n => cells[i].gasFraction),
      seq(n, i requires 0 <= i < n => cells[i].solidFraction),
      seq(n, i requires 0 <= i < n => cells[i].liquidSalinity),
      seq(n, i requires 0 <= i < n => cells[i].dissolvedGas))
  }

  /**
   * The full enthalpy method on a column whose cells have the given phases
   * (the phases the eight masks select, `FullPhase.Phases`).
   */
  function EnthalpyMethod(p: PhaseParams, sqrt: real -> real, phases: seq<GasPhase>,
                          enthalpy: seq<real>, salt: seq<real>, gas: seq<real>): (d: RE.Derived)
    requires ColumnDefined(p, sqrt, phases, enthalpy, salt, gas)
    ensures FullBalanced(p, sqrt, phases, enthalpy, salt, gas, d)
  {
    var d := FullColumns(p, sqrt, phases, enthalpy, salt, gas);
    FullColumnsBalanced(p, sqrt, phases, enthalpy, salt, gas, d);
    d
  }

  lemma FullColumnsBalanced(p: PhaseParams, sqrt: real -> real, phases: seq<GasPhase>,
                            enthalpy: seq<real>, salt: seq<real>, gas: seq<real>, d: RE.Derived)
    requires ColumnDefined(p, sqrt, phases, enthalpy, salt, gas)
    requires d == FullColumns(p, sqrt, phases, enthalpy, salt, gas)
    ensures FullBalanced(p, sqrt, phases, enthalpy, salt, gas, d)
  {
    forall i | 0 <= i < |phases|
      ensures CellAt(d, i).liquidFraction + CellAt(d, i).gasFraction + CellAt(d, i).solidFraction == 1.0
      ensures RootsReal(p, sqrt, phases[i], enthalpy[i], salt[i], gas[i]) ==>
                CellBalanced(p, phases[i], enthalpy[i], salt[i], gas[i], CellAt(d, i))
    {
      assert CellAt(d, i) == CellValues(p, sqrt, phases[i], enthalpy[i], salt[i], gas[i]);
      if RootsReal(p, sqrt, phases[i], enthalpy[i], salt[i], gas[i]) {
        var t := Temperature(p, sqrt, phases[i], enthalpy[i], salt[i], gas[i]);
        TemperatureSolves(p, sqrt, phases[i], enthalpy[i], salt[i], gas[i]);
        CellBalances(p, phases[i], enthalpy[i], salt[i], gas[i], t);
      }
    }
  }
}
