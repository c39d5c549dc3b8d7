/**
 * The Rees Jones and Worster (2014) brine-convection diagnostics: the
 * permeability law, the depth of the ice-ocean interface, the integrated
 * mean permeability, the local Rayleigh number, and the two summaries of it
 * (the height of the convecting region and the effective Rayleigh number).
 *
 * The harmonic mean (`scipy.stats.hmean`) is a parameter of the model; the
 * only law used about it is that it keeps non-negative data non-negative.
 */
module BrineDrainage {
  import opened Wrappers
  import opened Numerics
  import P = Params
  import Grids

  // ---------------------------------------------------------------------
  // Permeability
  // ---------------------------------------------------------------------

  /** `np.heaviside(x, 0)`: the step function taking the value 0 at 0. */
  function Heaviside(x: real): (h: real)
    ensures h == 0.0 || h == 1.0
    ensures h == 1.0 <==> 0.0 < x
  {
    if 0.0 < x then 1.0 else 0.0
  }

  /**
   * Absolute permeability of a cell with liquid fraction `phi`: `phi^3`, or
   * `phi^2 (phi - cutoff)` switched on only above the porosity threshold.
   */
  function Permeability(phi: real, threshold: bool, cutoff: real): (k: real)
    ensures !threshold ==> k == phi * phi * phi
    ensures threshold && phi <= cutoff ==> k == 0.0
    ensures threshold && cutoff < phi ==> k == phi * phi * (phi - cutoff)
    ensures threshold ==> 0.0 <= k
  {
    if threshold then
      var k := phi * phi * (phi - cutoff) * Heaviside(phi - cutoff);
      assert 0.0 <= k by {
        if cutoff < phi {
          MulMonotone(0.0, phi * phi, phi - cutoff);
        }
      }
      k
    else phi * phi * phi
  }

  /**
   * Permeability grows with the liquid fraction and is continuous at the
   * porosity threshold: it vanishes there and its distance from that value
   * is at most `phi^2 |phi - cutoff|`.
   */
  lemma PermeabilityMonotone(a: real, b: real, threshold: bool, cutoff: real)
    requires 0.0 <= a <= b
    ensures 0.0 <= Permeability(a, threshold, cutoff) <= Permeability(b, threshold, cutoff)
    ensures threshold ==> Permeability(cutoff, threshold, cutoff) == 0.0
    ensures threshold ==> Permeability(a, threshold, cutoff) <= a * a * Abs(a - cutoff)
  {
    var a2 := a * a;
    var b2 := b * b;
    SquareGrows(a, b);
    if !threshold {
      ProductGrows(a2, b2, a, b);
    } else if cutoff < a {
      ProductGrows(a2, b2, a - cutoff, b - cutoff);
    } else if cutoff < b {
      MulMonotone(0.0, b2, b - cutoff);
    }
  }

  lemma SquareGrows(a: real, b: real)
    requires 0.0 <= a <= b
    ensures 0.0 <= a * a <= b * b
  {
    MulMonotone(a, b, a);
    MulMonotone(a, b, b);
    MulMonotone(0.0, a, a);
  }

  /** Products of ordered non-negative factors are ordered. */
  lemma ProductGrows(x: real, y: real, u: real, v: real)
    requires 0.0 <= x <= y && 0.0 <= u <= v
    ensures 0.0 <= x * u <= y * v
  {
    MulMonotone(x, y, u);
    MulMonotone(u, v, y);
    MulMonotone(0.0, x, u);
  }

  function Abs(x: real): real { if x < 0.0 then -x else x }

  // ---------------------------------------------------------------------
  // Depth of the ice-ocean interface
  // ---------------------------------------------------------------------

  /** Every cell of the column is completely liquid. */
  predicate AllLiquid(lf: seq<real>) {
    forall i :: 0 <= i < |lf| ==> lf[i] == 1.0
  }

  /** `k` is the lowest cell whose liquid fraction is below one. */
  predicate FirstBelowOne(lf: seq<real>, k: int) {
    0 <= k < |lf| && lf[k] < 1.0 && forall j :: 0 <= j < k ==> 1.0 <= lf[j]
  }

  /** The first index at or above `from` whose liquid fraction is below one, or `|lf|`. */
  function SearchBelowOne(lf: seq<real>, from: nat): (k: nat)
    requires from <= |lf|
    requires forall j :: 0 <= j < from ==> 1.0 <= lf[j]
    ensures from <= k <= |lf|
    ensures k < |lf| ==> FirstBelowOne(lf, k)
    ensures k == |lf| ==> forall j :: 0 <= j < |lf| ==> 1.0 <= lf[j]
    decreases |lf| - from
  {
    if from == |lf| then from
    else if lf[from] < 1.0 then from
    else SearchBelowOne(lf, from + 1)
  }

  /** `np.argmax(liquid_fraction < 1)`: the first cell below one, or 0 when there is none. */
  function ArgmaxBelowOne(lf: seq<real>): (k: nat)
    requires 1 <= |lf|
    ensures k < |lf|
    ensures (exists i :: 0 <= i < |lf| && lf[i] < 1.0) ==> FirstBelowOne(lf, k)
    ensures (forall i :: 0 <= i < |lf| ==> 1.0 <= lf[i]) ==> k == 0
  {
    var k := SearchBelowOne(lf, 0);
    if k == |lf| then 0 else k
  }

  /**
   * The positive depth of the ice-ocean interface: minus the coordinate of
   * the lower edge of the first cell (from the bottom) that is not completely
   * liquid, minus the top edge for a fully liquid column, and an error when
   * the ice has reached the bottom cell.
   */
  function IceOceanBoundaryDepth(lf: seq<real>, edges: seq<real>): (r: Result<real>)
    requires |edges| == |lf| + 1
    ensures |lf| == 0 ==> r.Err?
    ensures 1 <= |lf| && AllLiquid(lf) ==> r == Ok(-edges[|lf|])
    ensures forall k :: FirstBelowOne(lf, k) ==> (r.Ok? <==> 0 < k) && (0 < k ==> r == Ok(-edges[k]))
    ensures !AllLiquid(lf) && (forall i :: 0 <= i < |lf| ==> 1.0 <= lf[i]) ==> r.Err?
    ensures r.Err? ==> r.error.ValueError?
  {
    if |lf| == 0 then Err(ValueError("attempt to get argmax of an empty sequence"))
    else
      var index := if AllLiquid(lf) then |edges| - 1 else ArgmaxBelowOne(lf);
      if index == 0 then Err(ValueError("Ice ocean interface has reached bottom of domain"))
      else Ok(-edges[index])
  }

  /**
   * On the simulation grid the interface depth lies in [0, 1], and a fully
   * liquid column has its interface at depth zero.
   */
  lemma IceDepthOnGrid(lf: seq<real>, cells: nat)
    requires 0 < cells && |lf| == cells
    ensures var g := Grids.InitialiseGrids(cells);
            var r := IceOceanBoundaryDepth(lf, g.edges);
            (r.Ok? ==> 0.0 <= r.value <= 1.0) && (AllLiquid(lf) ==> r == Ok(0.0))
  {
    var g := Grids.InitialiseGrids(cells);
    var r := IceOceanBoundaryDepth(lf, g.edges);
    assert 0.0 < g.step by {
      if g.step <= 0.0 {
        MulMonotone(g.step, 0.0, cells as real);
      }
    }
    if r.Ok? && !AllLiquid(lf) {
      assert exists i :: 0 <= i < |lf| && lf[i] < 1.0;
      var k := ArgmaxBelowOne(lf);
      assert r == Ok(-g.edges[k]);
      Grids.EdgesIncrease(g.edges, g.step, 0, k);
      Grids.EdgesIncrease(g.edges, g.step, k, cells);
    }
  }

  // ---------------------------------------------------------------------
  // Integrated mean permeability and the local Rayleigh number
  // ---------------------------------------------------------------------

  /** The law assumed of the harmonic mean: non-negative data have a non-negative mean. */
  ghost predicate HmeanNonNegative(hmean: seq<real> -> real) {
    forall s :: (forall i :: 0 <= i < |s| ==> 0.0 <= s[i]) ==> 0.0 <= hmean(s)
  }

  /** A cell centre lies in the ice between the interface and height `z`. */
  predicate InIceBelow(centre: real, depth: real, z: real) {
    -depth < centre <= z
  }

  /** `liquid_fraction[ice_mask]`: the liquid fractions of the cells in (-depth, z], in order. */
  function IceCells(lf: seq<real>, centres: seq<real>, depth: real, z: real): (r: seq<real>)
    requires |lf| == |centres|
    ensures |r| <= |lf|
    ensures (forall i :: 0 <= i < |lf| ==> InIceBelow(centres[i], depth, z)) ==> r == lf
    ensures (forall i :: 0 <= i < |lf| ==> !InIceBelow(centres[i], depth, z)) ==> r == []
    ensures (forall i :: 0 <= i < |lf| ==> 0.0 <= lf[i]) ==> forall k :: 0 <= k < |r| ==> 0.0 <= r[k]
  {
    if |lf| == 0 then []
    else
      var rest := IceCells(lf[1..], centres[1..], depth, z);
      if InIceBelow(centres[0], depth, z) then [lf[0]] + rest else rest
  }

  /** The permeabilities of the selected cells, each divided by their number. */
  function ScaledPermeabilities(cells: seq<real>, darcy: P.DarcyLawParams): (r: seq<real>)
    ensures |r| == |cells|
    ensures darcy.porosityThreshold || (forall k :: 0 <= k < |cells| ==> 0.0 <= cells[k]) ==>
              forall k :: 0 <= k < |r| ==> 0.0 <= r[k]
  {
    var n := |cells| as real;
    seq(|cells|, k requires 0 <= k < |cells| =>
      PermeabilityQuotient(cells[k], darcy.porosityThreshold, darcy.porosityThresholdValue, n))
  }

  function PermeabilityQuotient(phi: real, threshold: bool, cutoff: real, n: real): (q: real)
    requires 1.0 <= n
    ensures threshold || 0.0 <= phi ==> 0.0 <= q
  {
    var k := Permeability(phi, threshold, cutoff);
    assert threshold || 0.0 <= phi ==> 0.0 <= k by {
      if !threshold && 0.0 <= phi {
        PermeabilityMonotone(0.0, phi, threshold, cutoff);
      }
    }
    assert 0.0 <= k ==> 0.0 <= k / n by {
      if 0.0 < k { QuotientPositive(k, n); }
    }
    k / n
  }

  /**
   * `K(z)`: zero below the interface; otherwise `(depth + z + step/2)` times
   * the harmonic mean of the scaled permeabilities of the ice cells up to
   * `z`, divided by the step.
   */
  function IntegratedMeanPermeability(z: real, lf: seq<real>, depth: real, centres: seq<real>,
                                      cfg: P.Config, hmean: seq<real> -> real): (k: real)
    requires |lf| == |centres| && 0 < cfg.numerical.I
    ensures z < -depth ==> k == 0.0
    ensures HmeanNonNegative(hmean) && (forall i :: 0 <= i < |lf| ==> 0.0 <= lf[i]) ==> 0.0 <= k
  {
    if z < -depth then 0.0
    else
      var step := P.Step(cfg.numerical);
      var mean := hmean(ScaledPermeabilities(IceCells(lf, centres, depth, z), cfg.darcy));
      HeightWeighted(depth + z + step / 2.0, mean, step)
  }

  /** `height * mean / step`: a mean permeability weighted by the height of ice it covers, in cells. */
  function HeightWeighted(height: real, mean: real, step: real): (k: real)
    requires 0.0 < step
    ensures 0.0 <= height && 0.0 <= mean ==> 0.0 <= k
  {
    MeanPermeabilityNonNegative(height, mean, step);
    height * mean / step
  }

  lemma MeanPermeabilityNonNegative(height: real, mean: real, step: real)
    requires 0.0 < step
    ensures 0.0 <= height && 0.0 <= mean ==> 0.0 <= height * mean / step
  {
    if 0.0 <= height && 0.0 <= mean {
      MulMonotone(0.0, height, mean);
      if 0.0 < height * mean { QuotientPositive(height * mean, step); }
    }
  }

  /** The law assumed of the harmonic mean: the mean of equal values is that value. */
  ghost predicate HmeanOfConstant(hmean: seq<real> -> real) {
    forall s :: 0 < |s| && (forall i :: 0 <= i < |s| ==> s[i] == s[0]) ==> hmean(s) == s[0]
  }

  /** Cells that all hold `phi` all have the scaled permeability of `phi`: its permeability over their number. */
  lemma ScaledPermeabilitiesUniform(cells: seq<real>, darcy: P.DarcyLawParams, phi: real)
    requires forall k :: 0 <= k < |cells| ==> cells[k] == phi
    ensures forall k :: 0 <= k < |ScaledPermeabilities(cells, darcy)| ==>
              ScaledPermeabilities(cells, darcy)[k] ==
                Permeability(phi, darcy.porosityThreshold, darcy.porosityThresholdValue) / (|cells| as real)
  {
  }

  /**
   * Uniform ice: when every ice cell up to `z` has the same scaled
   * permeability `p`, `K(z)` is `(depth + z + step/2) p / step`.
   */
  lemma UniformIceMeanPermeability(z: real, lf: seq<real>, depth: real, centres: seq<real>,
                                   cfg: P.Config, hmean: seq<real> -> real, p: real)
    requires |lf| == |centres| && 0 < cfg.numerical.I && -depth <= z
    requires HmeanOfConstant(hmean)
    requires 0 < |IceCells(lf, centres, depth, z)|
    requires var perms := ScaledPermeabilities(IceCells(lf, centres, depth, z), cfg.darcy);
             forall k :: 0 <= k < |perms| ==> perms[k] == p
    ensures var step := P.Step(cfg.numerical);
            IntegratedMeanPermeability(z, lf, depth, centres, cfg, hmean) == HeightWeighted(depth + z + step / 2.0, p, step)
  {
    IntegratedMeanPermeabilityInIce(z, lf, depth, centres, cfg, hmean);
    var perms := ScaledPermeabilities(IceCells(lf, centres, depth, z), cfg.darcy);
    assert forall k :: 0 <= k < |perms| ==> perms[k] == perms[0];
    assert hmean(perms) == p;
  }

  /** Above the interface `K(z)` is the height-weighted harmonic mean of the ice cells' scaled permeabilities. */
  lemma IntegratedMeanPermeabilityInIce(z: real, lf: seq<real>, depth: real, centres: seq<real>,
                                        cfg: P.Config, hmean: seq<real> -> real)
    requires |lf| == |centres| && 0 < cfg.numerical.I && -depth <= z
    ensures var step := P.Step(cfg.numerical);
            IntegratedMeanPermeability(z, lf, depth, centres, cfg, hmean) ==
              HeightWeighted(depth + z + step / 2.0, hmean(ScaledPermeabilities(IceCells(lf, centres, depth, z), cfg.darcy)), step)
  {
  }

  /**
   * Ice of one liquid fraction `phi` up to `z`: `K(z)` weights the
   * permeability of `phi`, over the number of ice cells, by the height.
   */
  lemma UniformLiquidFractionMeanPermeability(z: real, lf: seq<real>, depth: real, centres: seq<real>,
                                              cfg: P.Config, hmean: seq<real> -> real, phi: real)
    requires |lf| == |centres| && 0 < cfg.numerical.I && -depth <= z
    requires HmeanOfConstant(hmean)
    requires 0 < |IceCells(lf, centres, depth, z)|
    requires forall k :: 0 <= k < |IceCells(lf, centres, depth, z)| ==> IceCells(lf, centres, depth, z)[k] == phi
    ensures var step := P.Step(cfg.numerical);
            var n := |IceCells(lf, centres, depth, z)| as real;
            IntegratedMeanPermeability(z, lf, depth, centres, cfg, hmean) ==
              HeightWeighted(depth + z + step / 2.0,
                             Permeability(phi, cfg.darcy.porosityThreshold, cfg.darcy.porosityThresholdValue) / n, step)
  {
    var cells := IceCells(lf, centres, depth, z);
    ScaledPermeabilitiesUniform(cells, cfg.darcy, phi);
    UniformIceMeanPermeability(z, lf, depth, centres, cfg, hmean,
      Permeability(phi, cfg.darcy.porosityThreshold, cfg.darcy.porosityThresholdValue) / (|cells| as real));
  }

  /** Solid ice: when the ice cells up to `z` all have liquid fraction zero, `K(z)` is zero. */
  lemma SolidIceMeanPermeability(z: real, lf: seq<real>, depth: real, centres: seq<real>,
                                 cfg: P.Config, hmean: seq<real> -> real)
    requires |lf| == |centres| && 0 < cfg.numerical.I
    requires HmeanOfConstant(hmean)
    requires 0 < |IceCells(lf, centres, depth, z)|
    requires forall k :: 0 <= k < |IceCells(lf, centres, depth, z)| ==> IceCells(lf, centres, depth, z)[k] == 0.0
    ensures IntegratedMeanPermeability(z, lf, depth, centres, cfg, hmean) == 0.0
  {
    if -depth <= z {
      var cells := IceCells(lf, centres, depth, z);
      ScaledPermeabilitiesUniform(cells, cfg.darcy, 0.0);
      assert Permeability(0.0, cfg.darcy.porosityThreshold, cfg.darcy.porosityThresholdValue) == 0.0;
      UniformIceMeanPermeability(z, lf, depth, centres, cfg, hmean, 0.0);
    }
  }

  /**
   * The ice cells of a column whose ice centres up to `z` all have liquid
   * fraction `phi` all hold `phi`, and there is one when some centre lies
   * in the ice: the column-wise reading of the hypotheses above.
   */
  lemma {:induction false} IceCellsConstant(lf: seq<real>, centres: seq<real>, depth: real, z: real, phi: real)
    requires |lf| == |centres|
    requires forall i :: 0 <= i < |lf| && InIceBelow(centres[i], depth, z) ==> lf[i] == phi
    ensures forall k :: 0 <= k < |IceCells(lf, centres, depth, z)| ==> IceCells(lf, centres, depth, z)[k] == phi
    ensures (exists i :: 0 <= i < |lf| && InIceBelow(centres[i], depth, z)) ==> 0 < |IceCells(lf, centres, depth, z)|
  {
    if |lf| > 0 {
      IceCellsConstant(lf[1..], centres[1..], depth, z, phi);
      if exists i :: 0 <= i < |lf| && InIceBelow(centres[i], depth, z) {
        var i :| 0 <= i < |lf| && InIceBelow(centres[i], depth, z);
        if i > 0 {
          assert InIceBelow(centres[1..][i - 1], depth, z);
        }
      }
    }
  }

  /** `Ra_S (depth + z) K(z) S_l` at one cell centre. */
  function LocalRayleigh(ras: real, height: real, k: real, ls: real): real {
    ras * height * k * ls
  }

  /**
   * The local Rayleigh number at every cell centre; the interface-depth
   * error propagates.
   */
  function Rayleigh(centres: seq<real>, edges: seq<real>, ls: seq<real>, lf: seq<real>,
                    cfg: P.Config, hmean: seq<real> -> real): (r: Result<seq<real>>)
    requires |centres| == |ls| == |lf| && |edges| == |lf| + 1 && 0 < cfg.numerical.I
    ensures r.Err? <==> IceOceanBoundaryDepth(lf, edges).Err?
    ensures r.Err? ==> r.error == IceOceanBoundaryDepth(lf, edges).error
    ensures r.Ok? ==> |r.value| == |lf|
  {
    match IceOceanBoundaryDepth(lf, edges)
    case Err(e) => Err(e)
    case Ok(depth) =>
      Ok(seq(|lf|, i requires 0 <= i < |lf| =>
        LocalRayleigh(cfg.darcy.rayleighSalt, depth + centres[i],
                      IntegratedMeanPermeability(centres[i], lf, depth, centres, cfg, hmean), ls[i])))
  }

  /**
   * Below the interface the Rayleigh number vanishes, and with a
   * non-negative salt Rayleigh number, liquid fractions and liquid
   * salinities it is non-negative everywhere.
   */
  lemma RayleighSigns(centres: seq<real>, edges: seq<real>, ls: seq<real>, lf: seq<real>,
                      cfg: P.Config, hmean: seq<real> -> real, i: nat)
    requires |centres| == |ls| == |lf| && |edges| == |lf| + 1 && 0 < cfg.numerical.I
    requires Rayleigh(centres, edges, ls, lf, cfg, hmean).Ok? && i < |lf|
    ensures var depth := IceOceanBoundaryDepth(lf, edges).value;
            centres[i] < -depth ==> Rayleigh(centres, edges, ls, lf, cfg, hmean).value[i] == 0.0
    ensures HmeanNonNegative(hmean) && 0.0 <= cfg.darcy.rayleighSalt &&
            (forall j :: 0 <= j < |lf| ==> 0.0 <= lf[j]) && 0.0 <= ls[i] ==>
              0.0 <= Rayleigh(centres, edges, ls, lf, cfg, hmean).value[i]
  {
    var depth := IceOceanBoundaryDepth(lf, edges).value;
    var k := IntegratedMeanPermeability(centres[i], lf, depth, centres, cfg, hmean);
    var ra := RayleighAt(centres, edges, ls, lf, cfg, hmean, i);
    LocalRayleighSigns(cfg.darcy.rayleighSalt, depth + centres[i], k, ls[i]);
  }

  lemma LocalRayleighSigns(ras: real, height: real, k: real, ls: real)
    ensures k == 0.0 ==> LocalRayleigh(ras, height, k, ls) == 0.0
    ensures 0.0 <= ras && 0.0 <= height && 0.0 <= k && 0.0 <= ls ==> 0.0 <= LocalRayleigh(ras, height, k, ls)
  {
    if 0.0 <= ras && 0.0 <= height && 0.0 <= k && 0.0 <= ls {
      FourFactorsNonNegative(ras, height, k, ls);
    }
  }

  /** Entry `i` of the Rayleigh number is the local formula at centre `i`. */
  lemma RayleighAt(centres: seq<real>, edges: seq<real>, ls: seq<real>, lf: seq<real>,
                   cfg: P.Config, hmean: seq<real> -> real, i: nat) returns (ra: real)
    requires |centres| == |ls| == |lf| && |edges| == |lf| + 1 && 0 < cfg.numerical.I
    requires Rayleigh(centres, edges, ls, lf, cfg, hmean).Ok? && i < |lf|
    ensures ra == Rayleigh(centres, edges, ls, lf, cfg, hmean).value[i]
    ensures var depth := IceOceanBoundaryDepth(lf, edges).value;
            ra == LocalRayleigh(cfg.darcy.rayleighSalt, depth + centres[i],
                                IntegratedMeanPermeability(centres[i], lf, depth, centres, cfg, hmean), ls[i])
  {
    ra := Rayleigh(centres, edges, ls, lf, cfg, hmean).value[i];
  }

  lemma FourFactorsNonNegative(a: real, b: real, c: real, d: real)
    requires 0.0 <= a && 0.0 <= b && 0.0 <= c && 0.0 <= d
    ensures 0.0 <= a * b * c * d
  {
    MulMonotone(0.0, a, b);
    MulMonotone(0.0, a * b, c);
    MulMonotone(0.0, a * b * c, d);
  }

  // ---------------------------------------------------------------------
  // Summaries of the Rayleigh number
  // ---------------------------------------------------------------------

  /** `j` is the highest cell whose Rayleigh number reaches `critical`. */
  predicate LastReaching(ra: seq<real>, critical: real, j: int) {
    0 <= j < |ra| && critical <= ra[j] && forall k :: j < k < |ra| ==> ra[k] < critical
  }

  /** The last cell whose Rayleigh number reaches `critical`, or -1 when none does. */
  function LastAtLeast(ra: seq<real>, critical: real): (j: int)
    ensures -1 <= j < |ra|
    ensures 0 <= j ==> LastReaching(ra, critical, j)
    ensures j == -1 ==> forall k :: 0 <= k < |ra| ==> ra[k] < critical
  {
    if |ra| == 0 then -1
    else if critical <= ra[|ra| - 1] then |ra| - 1
    else LastAtLeast(ra[..|ra| - 1], critical)
  }

  /**
   * The height of the top of the convecting region: the upper edge of the
   * highest cell at or above the critical Rayleigh number, and no value (the
   * source's NaN) when every cell is below it.
   */
  function ConvectingRegionHeight(ra: seq<real>, edges: seq<real>, critical: real): (h: Option<real>)
    requires |edges| == |ra| + 1
    ensures h.None? <==> forall i :: 0 <= i < |ra| ==> ra[i] < critical
    ensures h.Some? ==> exists j :: LastReaching(ra, critical, j) && h.value == edges[j + 1]
  {
    if forall i :: 0 <= i < |ra| ==> ra[i] - critical < 0.0 then None
    else
      var j := LastAtLeast(ra, critical);
      assert LastReaching(ra, critical, j);
      Some(edges[j + 1])
  }

  /** By how much one Rayleigh number exceeds the critical value (0 when it does not). */
  function Excess(ra: real, critical: real): real {
    if critical <= ra then ra - critical else 0.0
  }

  /** The largest excess over a non-empty sequence of Rayleigh numbers. */
  function MaxExcess(ra: seq<real>, critical: real): (m: real)
    requires 1 <= |ra|
    ensures forall i :: 0 <= i < |ra| ==> Excess(ra[i], critical) <= m
    ensures exists i :: 0 <= i < |ra| && m == Excess(ra[i], critical)
  {
    if |ra| == 1 then Excess(ra[0], critical)
    else
      var rest := MaxExcess(ra[1..], critical);
      assert forall i :: 1 <= i < |ra| ==> Excess(ra[i], critical) <= rest by {
        forall i | 1 <= i < |ra| ensures Excess(ra[i], critical) <= rest {
          assert ra[i] == ra[1..][i - 1];
        }
      }
      var i :| 0 <= i < |ra[1..]| && rest == Excess(ra[1..][i], critical);
      assert ra[1..][i] == ra[i + 1];
      Max(Excess(ra[0], critical), rest)
  }

  /**
   * The effective Rayleigh number: the largest amount by which a cell
   * exceeds the critical value, never negative, and zero exactly when no
   * cell exceeds it. The maximum of no cells is an error.
   */
  function EffectiveRayleigh(ra: seq<real>, critical: real): (r: Result<real>)
    ensures r.Err? <==> |ra| == 0
    ensures r.Ok? ==> 0.0 <= r.value
    ensures r.Ok? ==> forall i :: 0 <= i < |ra| && critical <= ra[i] ==> ra[i] - critical <= r.value
    ensures r.Ok? ==> (r.value == 0.0 <==> forall i :: 0 <= i < |ra| ==> ra[i] <= critical)
    ensures r.Ok? ==> exists i :: 0 <= i < |ra| && r.value == Excess(ra[i], critical)
  {
    if |ra| == 0 then Err(ValueError("zero-size array to reduction operation maximum which has no identity"))
    else
      var m := MaxExcess(ra, critical);
      assert 0.0 <= m by { assert 0.0 <= Excess(ra[0], critical); }
      Ok(m)
  }

  /**
   * The two summaries agree: when no cell reaches the critical value there is
   * no convecting region and the effective Rayleigh number is zero, and a
   * positive effective Rayleigh number comes with a convecting region.
   */
  lemma ConvectionSummariesAgree(ra: seq<real>, edges: seq<real>, critical: real)
    requires 1 <= |ra| && |edges| == |ra| + 1
    ensures ConvectingRegionHeight(ra, edges, critical).None? ==> EffectiveRayleigh(ra, critical) == Ok(0.0)
    ensures 0.0 < EffectiveRayleigh(ra, critical).value ==> ConvectingRegionHeight(ra, edges, critical).Some?
  {
  }
}
