/**
 * The immutable state records of the equilibrium (EQM) and disequilibrium
 * (DISEQ) gas models, and the stacked vector the time integrator works on.
 */
module StateRecords {
  import opened Wrappers
  import opened Numerics

  /** Primary variables with gas in equilibrium: bulk enthalpy, salt and gas on the centres. */
  datatype EQMState = EQMState(time: real, enthalpy: seq<real>, salt: seq<real>, gas: seq<real>)

  /** An EQM state together with the six fields the enthalpy method derives from it. */
  datatype EQMStateFull = EQMStateFull(
    time: real,
    enthalpy: seq<real>,
    salt: seq<real>,
    gas: seq<real>,
    temperature: seq<real>,
    liquidFraction: seq<real>,
    solidFraction: seq<real>,
    liquidSalinity: seq<real>,
    dissolvedGas: seq<real>,
    gasFraction: seq<real>)

  /**
   * Primary variables with a finite nucleation rate: the bulk gas is split
   * into bulk dissolved gas and free gas fraction, both evolved.
   */
  datatype DISEQState = DISEQState(
    time: real,
    enthalpy: seq<real>,
    salt: seq<real>,
    bulkDissolvedGas: seq<real>,
    gasFraction: seq<real>)
  {
    /** Total bulk gas, under the name the EQM state uses. */
    function Gas(): (g: seq<real>)
      requires |bulkDissolvedGas| == |gasFraction|
      ensures |g| == |gasFraction|
      ensures Sub(g, gasFraction) == bulkDissolvedGas
    {
      var g := Add(bulkDissolvedGas, gasFraction);
      assert forall i :: 0 <= i < |g| ==> g[i] - gasFraction[i] == bulkDissolvedGas[i];
      g
    }
  }

  datatype DISEQStateFull = DISEQStateFull(
    time: real,
    enthalpy: seq<real>,
    salt: seq<real>,
    bulkDissolvedGas: seq<real>,
    gasFraction: seq<real>,
    temperature: seq<real>,
    liquidFraction: seq<real>,
    solidFraction: seq<real>,
    liquidSalinity: seq<real>,
    dissolvedGas: seq<real>)
  {
    function Gas(): (g: seq<real>)
      requires |bulkDissolvedGas| == |gasFraction|
      ensures |g| == |gasFraction|
      ensures Sub(g, gasFraction) == bulkDissolvedGas
    {
      var g := Add(bulkDissolvedGas, gasFraction);
      assert forall i :: 0 <= i < |g| ==> g[i] - gasFraction[i] == bulkDissolvedGas[i];
      g
    }
  }

  /** A primary state of either model; the solver dispatches on its kind. */
  datatype State = EQM(eqm: EQMState) | DISEQ(diseq: DISEQState)

  datatype StateFull = EQMFull(eqmFull: EQMStateFull) | DISEQFull(diseqFull: DISEQStateFull)

  predicate WellShaped(s: EQMState) {
    |s.enthalpy| == |s.salt| == |s.gas|
  }

  /** The solver's vector: enthalpy, then salt, then gas. */
  function GetStackedState(s: EQMState): (v: seq<real>)
    ensures |v| == |s.enthalpy| + |s.salt| + |s.gas|
    ensures v[..|s.enthalpy|] == s.enthalpy
    ensures v[|s.enthalpy|..|s.enthalpy| + |s.salt|] == s.salt
    ensures v[|s.enthalpy| + |s.salt|..] == s.gas
  {
    s.enthalpy + s.salt + s.gas
  }

  /**
   * Splits a solver vector into equal thirds (enthalpy, salt, gas). A length
   * not divisible by three is the error `np.split` raises.
   */
  function InitFromStackedState(time: real, v: seq<real>): (r: Result<EQMState>)
    ensures r.Ok? <==> |v| % 3 == 0
    ensures r.Ok? ==> WellShaped(r.value) && r.value.time == time && GetStackedState(r.value) == v
  {
    if |v| % 3 != 0 then Err(ValueError("array split does not result in an equal division"))
    else
      var n := |v| / 3;
      var s := EQMState(time, v[..n], v[n..2 * n], v[2 * n..]);
      assert GetStackedState(s) == v;
      Ok(s)
  }

  /** Stacking a well-shaped state and splitting it again gives the state back. */
  lemma StackThenSplit(s: EQMState)
    requires WellShaped(s)
    ensures InitFromStackedState(s.time, GetStackedState(s)) == Ok(s)
  {
    var v := GetStackedState(s);
    var n := |s.enthalpy|;
    assert |v| == 3 * n;
    assert v[..n] == s.enthalpy && v[n..2 * n] == s.salt && v[2 * n..] == s.gas;
  }
}
