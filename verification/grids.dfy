/**
 * The uniform 1-D grid on [-1, 0] and the operators that move values between
 * its cell centres, cell edges and ghost-padded centres.
 */
module Grids {
  import opened Numerics

  /** Number of solver steps: `int(total_time / timestep) + 1`. */
  function NumberOfTimesteps(totalTime: real, timestep: real): (n: int)
    requires timestep != 0.0
    ensures 0.0 <= totalTime / timestep ==> 1 <= n && (n - 1) as real <= totalTime / timestep < n as real
    ensures totalTime / timestep < 0.0 ==> n <= 1 && (n - 2) as real < totalTime / timestep <= (n - 1) as real
  {
    Trunc(totalTime / timestep) + 1
  }

  /** The grid spacing and the centre, edge and ghost coordinates of `I` cells. */
  datatype Grid = Grid(step: real, centers: seq<real>, edges: seq<real>, ghosts: seq<real>)

  function InitialiseGrids(cells: nat): (g: Grid)
    requires 0 < cells
    ensures g.step * cells as real == 1.0
    ensures |g.centers| == cells && |g.edges| == cells + 1 && |g.ghosts| == cells + 2
    ensures g.edges[0] == -1.0 && g.edges[cells] == 0.0
    ensures forall i :: 0 <= i < cells ==> g.edges[i + 1] - g.edges[i] == g.step
    ensures forall i :: 0 <= i < cells ==> g.centers[i] == (g.edges[i] + g.edges[i + 1]) / 2.0
    ensures g.ghosts == [g.edges[0] - g.step / 2.0] + g.centers + [g.edges[cells] + g.step / 2.0]
  {
    var step := 1.0 / cells as real;
    var centers := seq(cells, i => -1.0 + (2 * i + 1) as real * step / 2.0);
    var edges := seq(cells + 1, i => -1.0 + i as real * step);
    assert edges[cells] == 0.0 by {
      assert cells as real * step == 1.0;
    }
    Grid(step, centers, edges, [-1.0 - step / 2.0] + centers + [step / 2.0])
  }

  // ---------------------------------------------------------------------
  // The edge-difference operator D (size x size+1), built as the source
  // builds it: a zero matrix, -1 and +1 written row by row, divided by step.
  // ---------------------------------------------------------------------

  /** Edges a constant `step` apart increase along the grid. */
  lemma {:induction false} EdgesIncrease(edges: seq<real>, step: real, i: nat, j: nat)
    requires 0.0 < step && i <= j < |edges|
    requires forall k :: 0 <= k < |edges| - 1 ==> edges[k + 1] - edges[k] == step
    ensures edges[i] <= edges[j]
    decreases j - i
  {
    if i < j {
      EdgesIncrease(edges, step, i, j - 1);
      assert edges[j] - edges[j - 1] == step;
    }
  }

  /** The simulation grid has a positive cell width. */
  lemma StepPositive(cells: nat)
    requires 0 < cells
    ensures 0.0 < InitialiseGrids(cells).step
  {
    var g := InitialiseGrids(cells);
    if g.step <= 0.0 {
      MulMonotone(g.step, 0.0, cells as real);
    }
  }

  /** The cell centres lie strictly inside (-1, 0) and increase upwards. */
  lemma CentresInside(cells: nat, i: nat, j: nat)
    requires i <= j < cells
    ensures var c := InitialiseGrids(cells).centers;
            -1.0 < c[i] <= c[j] < 0.0
  {
    var g := InitialiseGrids(cells);
    StepPositive(cells);
    EdgesIncrease(g.edges, g.step, 0, i);
    EdgesIncrease(g.edges, g.step, i, j);
    EdgesIncrease(g.edges, g.step, i + 1, j + 1);
    EdgesIncrease(g.edges, g.step, j + 1, cells);
    var lo, hi := g.edges[i], g.edges[j + 1];
    assert g.edges[i + 1] == lo + g.step;
    assert g.edges[j] == hi - g.step;
    assert g.centers[i] == (lo + g.edges[i + 1]) / 2.0;
    assert g.centers[j] == (g.edges[j] + hi) / 2.0;
  }

  function DifferenceEntry(i: int, j: int, step: real): real
    requires step != 0.0
  {
    if j == i then -1.0 / step else if j == i + 1 then 1.0 / step else 0.0
  }

  function DifferenceMatrix(size: nat, step: real): (d: seq<seq<real>>)
    requires step != 0.0
    ensures IsMatrix(d, size, size + 1)
    ensures forall i :: 0 <= i < size ==> TwoPointRow(d[i], i, -1.0 / step, i + 1, 1.0 / step)
  {
    seq(size, i => seq(size + 1, j => DifferenceEntry(i, j, step)))
  }

  /** `(x[i+1] - x[i]) / step` on every edge between consecutive entries. */
  function ForwardDifference(x: seq<real>, step: real): seq<real>
    requires 1 <= |x| && step != 0.0
  {
    seq(|x| - 1, i requires 0 <= i < |x| - 1 => (x[i + 1] - x[i]) / step)
  }

  method GetDifferenceMatrix(size: nat, step: real) returns (d: array2<real>)
    requires step != 0.0
    ensures d.Length0 == size && d.Length1 == size + 1
    ensures forall i, j :: 0 <= i < size && 0 <= j <= size ==>
      d[i, j] == DifferenceMatrix(size, step)[i][j]
  {
    var z := new real[size, size + 1]((_, _) => 0.0);
    var i := 0;
    while i < size
      invariant 0 <= i <= size
      invariant forall r, c :: 0 <= r < size && 0 <= c <= size ==>
        z[r, c] == (if r < i && c == r then -1.0 else if r < i && c == r + 1 then 1.0 else 0.0)
    {
      z[i, i] := -1.0;
      z[i, i + 1] := 1.0;
      i := i + 1;
    }
    d := new real[size, size + 1];
    var r := 0;
    while r < size
      modifies d
      invariant 0 <= r <= size
      invariant forall a, b :: 0 <= a < r && 0 <= b <= size ==> d[a, b] == z[a, b] / step
    {
      var c := 0;
      while c <= size
        modifies d
        invariant 0 <= c <= size + 1
        invariant forall a, b :: 0 <= a < r && 0 <= b <= size ==> d[a, b] == z[a, b] / step
        invariant forall b :: 0 <= b < c ==> d[r, b] == z[r, b] / step
      {
        d[r, c] := z[r, c] / step;
        c := c + 1;
      }
      r := r + 1;
    }
    forall i, j | 0 <= i < size && 0 <= j <= size
      ensures d[i, j] == DifferenceMatrix(size, step)[i][j]
    {
      assert DifferenceMatrix(size, step)[i][j] == DifferenceEntry(i, j, step);
    }
  }

  /** Applying D to any vector of the ghost or edge grid takes forward differences. */
  lemma DifferenceMatrixApply(size: nat, step: real, x: seq<real>)
    requires step != 0.0 && |x| == size + 1
    ensures MatVec(DifferenceMatrix(size, step), x) == ForwardDifference(x, step)
  {
    var d := DifferenceMatrix(size, step);
    forall i | 0 <= i < size
      ensures MatVec(d, x)[i] == ForwardDifference(x, step)[i]
    {
      DotTwoPoint(d[i], x, i, -1.0 / step, i + 1, 1.0 / step);
      assert -1.0 / step * x[i] + 1.0 / step * x[i + 1] == (x[i + 1] - x[i]) / step;
    }
  }

  /** D annihilates constant vectors: a uniform field has no gradient. */
  lemma DifferenceOfConstant(size: nat, step: real, c: real)
    requires step != 0.0
    ensures MatVec(DifferenceMatrix(size, step), Fill(size + 1, c)) == Zeros(size)
  {
    DifferenceMatrixApply(size, step, Fill(size + 1, c));
  }

  // ---------------------------------------------------------------------
  // Interpolation from the ghost grid (length n) onto the edges between
  // (length n - 1).
  // ---------------------------------------------------------------------

  /**
   * First-order upwinding: each edge takes the value from the side the
   * velocity comes from.
   */
  function Upwind(ghosts: seq<real>, velocity: seq<real>): (r: seq<real>)
    requires 1 <= |ghosts| && |velocity| == |ghosts| - 1
    ensures |r| == |velocity|
    ensures forall i :: 0 <= i < |r| && 0.0 <= velocity[i] ==> r[i] == velocity[i] * ghosts[i]
    ensures forall i :: 0 <= i < |r| && velocity[i] <= 0.0 ==> r[i] == velocity[i] * ghosts[i + 1]
  {
    seq(|velocity|, i requires 0 <= i < |velocity| =>
      Max(velocity[i], 0.0) * ghosts[i] + Min(velocity[i], 0.0) * ghosts[i + 1])
  }

  /** Upwinding a uniform field gives velocity times that value on every edge. */
  lemma UpwindOfConstant(velocity: seq<real>, c: real)
    ensures Upwind(Fill(|velocity| + 1, c), velocity) == Scale(c, velocity)
  {
    var f := Fill(|velocity| + 1, c);
    var u := Upwind(f, velocity);
    forall i | 0 <= i < |velocity| ensures u[i] == c * velocity[i] {
      assert f[i] == c && f[i + 1] == c;
      UpwindEdgeOfConstant(velocity[i], c, u[i]);
    }
  }

  lemma UpwindEdgeOfConstant(v: real, c: real, r: real)
    requires 0.0 <= v ==> r == v * c
    requires v <= 0.0 ==> r == v * c
    ensures r == c * v
  {
  }

  /** Pairwise geometric mean of neighbouring ghost values. */
  function Geometric(ghosts: seq<real>, sqrt: real -> real): (r: seq<real>)
    requires 1 <= |ghosts|
    ensures |r| == |ghosts| - 1
  {
    seq(|ghosts| - 1, i requires 0 <= i < |ghosts| - 1 => sqrt(ghosts[i + 1] * ghosts[i]))
  }

  /** With a true square root, the geometric mean lies between its two non-negative neighbours. */
  lemma GeometricBetween(ghosts: seq<real>, sqrt: real -> real, i: nat)
    requires IsSqrt(sqrt) && i + 1 < |ghosts| && 0.0 <= ghosts[i] && 0.0 <= ghosts[i + 1]
    ensures Min(ghosts[i], ghosts[i + 1]) <= Geometric(ghosts, sqrt)[i] <= Max(ghosts[i], ghosts[i + 1])
  {
    var a, b := ghosts[i], ghosts[i + 1];
    var g := Geometric(ghosts, sqrt)[i];
    assert 0.0 <= b * a;
    assert 0.0 <= g && g * g == b * a;
    var lo, hi := Min(a, b), Max(a, b);
    assert lo * hi == b * a;
    MulMonotone(lo, hi, lo);
    MulMonotone(lo, hi, hi);
    SquareMonotone(lo, g);
    SquareMonotone(g, hi);
  }

  /** Pairwise arithmetic mean of neighbouring ghost values. */
  function Average(ghosts: seq<real>): (r: seq<real>)
    requires 1 <= |ghosts|
    ensures |r| == |ghosts| - 1
    ensures forall i :: 0 <= i < |r| ==> r[i] - ghosts[i] == ghosts[i + 1] - r[i]
    ensures forall i :: 0 <= i < |r| ==>
      Min(ghosts[i], ghosts[i + 1]) <= r[i] <= Max(ghosts[i], ghosts[i + 1])
  {
    seq(|ghosts| - 1, i requires 0 <= i < |ghosts| - 1 => 0.5 * (ghosts[i + 1] + ghosts[i]))
  }

  /** Pads a centre array with a bottom value (index 0) and a top value (index -1). */
  function AddGhostCells(centers: seq<real>, bottom: real, top: real): (r: seq<real>)
    ensures |r| == |centers| + 2
    ensures r[0] == bottom && r[|r| - 1] == top
    ensures Interior(r) == centers
  {
    [bottom] + centers + [top]
  }
}
