/**
 * The mutable state objects of the simulation: a `State` of the primary
 * variables on the cell centres, which the enthalpy method extends with six
 * derived fields; a `StateBCs` holding the same fields padded onto the
 * ghost grid; and a `Solution` that stores the primary variables at each
 * save time.
 */
module StateStore {
  import opened Wrappers
  import opened Numerics
  import opened Phase
  import P = Params
  import BC = BoundaryConditions
  import SR = StateRecords
  import RE = ReducedEnthalpy

  /** The primary variables at one time, on the cell centres. */
  class State {
    const cfg: P.Config
    const time: real
    const enthalpy: seq<real>
    const salt: seq<real>
    const gas: seq<real>
    const pressure: seq<real>
    // Derived by the enthalpy method; empty until it has run.
    var temperature: seq<real>
    var liquidFraction: seq<real>
    var gasFraction: seq<real>
    var solidFraction: seq<real>
    var liquidSalinity: seq<real>
    var dissolvedGas: seq<real>

    /** A pressure that is not given defaults to zero in every cell. */
    constructor (cfg: P.Config, time: real, enthalpy: seq<real>, salt: seq<real>, gas: seq<real>,
                 pressure: Option<seq<real>>)
      ensures this.cfg == cfg && this.time == time
      ensures this.enthalpy == enthalpy && this.salt == salt && this.gas == gas
      ensures this.pressure == if pressure.Some? then pressure.value else Zeros(|enthalpy|)
      ensures temperature == liquidFraction == gasFraction == solidFraction == liquidSalinity == dissolvedGas == []
    {
      this.cfg := cfg;
      this.time := time;
      this.enthalpy := enthalpy;
      this.salt := salt;
      this.gas := gas;
      this.pressure := if pressure.Some? then pressure.value else Zeros(|enthalpy|);
      temperature, liquidFraction, gasFraction := [], [], [];
      solidFraction, liquidSalinity, dissolvedGas := [], [], [];
    }

    /** The primary variables as an equilibrium record. */
    function Record(): SR.EQMState {
      SR.EQMState(time, enthalpy, salt, gas)
    }

    function PhaseParamsOf(): PhaseParams {
      P.PhaseParamsOf(cfg.physical)
    }

    /**
     * Runs the reduced enthalpy method on the primary variables and sets the
     * six derived fields; nothing else changes. In every cell the fractions
     * then sum to one, the enthalpy is T - St * phi_s and free plus dissolved
     * gas is the bulk gas.
     */
    method CalculateEnthalpyMethod(sqrt: real -> real)
      requires RE.EQMAdmissible(PhaseParamsOf(), cfg.physical.tolerableSuperSaturationFraction, sqrt, Record())
      modifies this
      ensures var d := RE.ReducedEnthalpyMethod(PhaseParamsOf(), cfg.physical.tolerableSuperSaturationFraction, sqrt, Record());
        temperature == d.temperature && liquidFraction == d.liquidFraction && gasFraction == d.gasFraction &&
        solidFraction == d.solidFraction && liquidSalinity == d.liquidSalinity && dissolvedGas == d.dissolvedGas
      ensures RE.EQMBalanced(PhaseParamsOf(), Record(),
        RE.Derived(temperature, liquidFraction, gasFraction, solidFraction, liquidSalinity, dissolvedGas))
    {
      var d := RE.ReducedEnthalpyMethod(PhaseParamsOf(), cfg.physical.tolerableSuperSaturationFraction, sqrt, Record());
      temperature := d.temperature;
      liquidFraction := d.liquidFraction;
      gasFraction := d.gasFraction;
      solidFraction := d.solidFraction;
      liquidSalinity := d.liquidSalinity;
      dissolvedGas := d.dissolvedGas;
    }
  }

  /**
   * A state from the solver's stacked vector, split into equal thirds
   * (enthalpy, salt, gas), with zero pressure; a length not divisible by
   * three is an error.
   */
  method InitFromStackedState(cfg: P.Config, time: real, stacked: seq<real>) returns (r: Result<State>)
    ensures r.Err? <==> |stacked| % 3 != 0
    ensures r.Ok? ==> (fresh(r.value) &&
      r.value.enthalpy + r.value.salt + r.value.gas == stacked &&
      |r.value.enthalpy| == |r.value.salt| == |r.value.gas| &&
      r.value.pressure == Zeros(|stacked| / 3) && r.value.time == time && r.value.cfg == cfg)
  {
    var split := SR.InitFromStackedState(time, stacked);
    if split.Err? {
      return Err(split.error);
    }
    var s := new State(cfg, time, split.value.enthalpy, split.value.salt, split.value.gas, None);
    return Ok(s);
  }

  /** Every field of a state padded with its boundary conditions. */
  class StateBCs {
    const cfg: P.Config
    const time: real
    const enthalpy: seq<real>
    const salt: seq<real>
    const gas: seq<real>
    const pressure: seq<real>
    const temperature: seq<real>
    const liquidSalinity: seq<real>
    const dissolvedGas: seq<real>
    const gasFraction: seq<real>
    const liquidFraction: seq<real>

    /**
     * Pads each field of `state` with its own padder. The forced top and
     * bottom temperatures at the state's time are parameters.
     */
    constructor (state: State, bottomForcing: real -> real, topForcing: real -> real)
      requires 1 <= |state.enthalpy| && 1 <= |state.salt| && 1 <= |state.pressure|
      requires 1 <= |state.liquidSalinity| && 1 <= |state.liquidFraction|
      ensures cfg == state.cfg && time == state.time
      ensures enthalpy == BC.EnthalpyBCs(state.enthalpy, state.cfg)
      ensures salt == BC.SaltBCs(state.salt, state.cfg)
      ensures gas == BC.GasBCs(state.gas, state.cfg)
      ensures pressure == BC.PressureBCs(state.pressure, state.cfg)
      ensures temperature == BC.TemperatureBCs(state.temperature, state.time, bottomForcing, topForcing)
      ensures liquidSalinity == BC.LiquidSalinityBCs(state.liquidSalinity, state.cfg)
      ensures dissolvedGas == BC.DissolvedGasBCs(state.dissolvedGas, state.cfg)
      ensures gasFraction == BC.GasFractionBCs(state.gasFraction, state.cfg)
      ensures liquidFraction == BC.LiquidFractionBCs(state.liquidFraction, state.cfg)
    {
      cfg := state.cfg;
      time := state.time;
      enthalpy := BC.EnthalpyBCs(state.enthalpy, state.cfg);
      salt := BC.SaltBCs(state.salt, state.cfg);
      gas := BC.GasBCs(state.gas, state.cfg);
      pressure := BC.PressureBCs(state.pressure, state.cfg);
      temperature := BC.TemperatureBCs(state.temperature, state.time, bottomForcing, topForcing);
      liquidSalinity := BC.LiquidSalinityBCs(state.liquidSalinity, state.cfg);
      dissolvedGas := BC.DissolvedGasBCs(state.dissolvedGas, state.cfg);
      gasFraction := BC.GasFractionBCs(state.gasFraction, state.cfg);
      liquidFraction := BC.LiquidFractionBCs(state.liquidFraction, state.cfg);
    }

    /** Every field lies on the ghost grid of `cells + 2` points when the state's fields have `cells` entries. */
    predicate OnGhostGrid(cells: nat) {
      |enthalpy| == |salt| == |gas| == |pressure| == |temperature| == cells + 2 &&
      |liquidSalinity| == |dissolvedGas| == |gasFraction| == |liquidFraction| == cells + 2
    }
  }

  /** Padding a state whose eleven fields all have I entries puts every field on the ghost grid. */
  method PadState(state: State, bottomForcing: real -> real, topForcing: real -> real) returns (s: StateBCs)
    requires 1 <= state.cfg.numerical.I
    requires |state.enthalpy| == |state.salt| == |state.gas| == |state.pressure| == |state.temperature| == state.cfg.numerical.I
    requires |state.liquidSalinity| == |state.dissolvedGas| == |state.gasFraction| == |state.liquidFraction| == state.cfg.numerical.I
    ensures s.OnGhostGrid(state.cfg.numerical.I)
    ensures Interior(s.enthalpy) == state.enthalpy && Interior(s.liquidFraction) == state.liquidFraction
  {
    s := new StateBCs(state, bottomForcing, topForcing);
  }

  /** Number of save times: the initial time and one per whole save interval. */
  function TimeLength(cfg: P.Config): int
    requires cfg.savefreq != 0.0
  {
    1 + Trunc(cfg.totalTime / cfg.savefreq)
  }

  /**
   * Storage for the primary variables at each save time: column `j` of each
   * I x timeLength array holds the column of cells at save `j`.
   */
  class Solution {
    const timeLength: nat
    const cells: nat
    const name: string
    const times: array<real>
    const enthalpy: array2<real>
    const salt: array2<real>
    const gas: array2<real>
    const pressure: array2<real>

    predicate Valid() {
      times.Length == timeLength &&
      enthalpy.Length0 == salt.Length0 == gas.Length0 == pressure.Length0 == cells &&
      enthalpy.Length1 == salt.Length1 == gas.Length1 == pressure.Length1 == timeLength &&
      enthalpy != salt && enthalpy != gas && enthalpy != pressure &&
      salt != gas && salt != pressure && gas != pressure
    }

    /** Column `j` of a stored array. */
    static function Column(a: array2<real>, j: nat): (c: seq<real>)
      requires j < a.Length1
      reads a
      ensures |c| == a.Length0
    {
      seq(a.Length0, i requires 0 <= i < a.Length0 reads a => a[i, j])
    }

    /** All save times and stored values start at zero. */
    constructor (cfg: P.Config)
      requires cfg.savefreq != 0.0 && 0 <= TimeLength(cfg)
      ensures Valid() && fresh(times) && fresh(enthalpy) && fresh(salt) && fresh(gas) && fresh(pressure)
      ensures timeLength == TimeLength(cfg) && cells == cfg.numerical.I && name == cfg.name
      ensures times[..] == Zeros(timeLength)
      ensures forall i, j :: 0 <= i < cells && 0 <= j < timeLength ==>
        enthalpy[i, j] == 0.0 && salt[i, j] == 0.0 && gas[i, j] == 0.0 && pressure[i, j] == 0.0
    {
      var n := TimeLength(cfg);
      var cells := cfg.numerical.I;
      timeLength := n;
      this.cells := cells;
      name := cfg.name;
      times := new real[n](_ => 0.0);
      enthalpy := new real[cells, n]((_, _) => 0.0);
      salt := new real[cells, n]((_, _) => 0.0);
      gas := new real[cells, n]((_, _) => 0.0);
      pressure := new real[cells, n]((_, _) => 0.0);
      new;
      assert times[..] == Zeros(n);
    }

    /**
     * Writes `state` into save slot `index` (a negative index counts from the
     * end): its time into `times` and its columns of cells into column
     * `index` of the four arrays. Every other slot is unchanged.
     */
    method AddState(state: State, index: int)
      requires Valid() && -(timeLength as int) <= index < timeLength
      requires |state.enthalpy| == |state.salt| == |state.gas| == |state.pressure| == cells
      modifies times, enthalpy, salt, gas, pressure
      ensures Valid()
      ensures var j := if index < 0 then index + timeLength else index;
        times[..] == old(times[..])[j := state.time] &&
        Column(enthalpy, j) == state.enthalpy && Column(salt, j) == state.salt &&
        Column(gas, j) == state.gas && Column(pressure, j) == state.pressure
      ensures var j := if index < 0 then index + timeLength else index;
        forall i, k :: 0 <= i < cells && 0 <= k < timeLength && k != j ==>
          enthalpy[i, k] == old(enthalpy[i, k]) && salt[i, k] == old(salt[i, k]) &&
          gas[i, k] == old(gas[i, k]) && pressure[i, k] == old(pressure[i, k])
    {
      var j := if index < 0 then index + timeLength else index;
      times[j] := state.time;
      forall i | 0 <= i < cells {
        enthalpy[i, j] := state.enthalpy[i];
      }
      forall i | 0 <= i < cells {
        salt[i, j] := state.salt[i];
      }
      forall i | 0 <= i < cells {
        gas[i, j] := state.gas[i];
      }
      forall i | 0 <= i < cells {
        pressure[i, j] := state.pressure[i];
      }
    }
  }
}
