/**
 * The older grid module. Its timestep count, grid construction, difference
 * matrix, upwinding and geometric mean are the same code as in `Grids`; what
 * differs is `average`, which builds an I x (I+2) matrix and multiplies.
 */
module LegacyGrids {
  import opened Numerics

  /** Entry (i, j) of the averaging matrix: one half at columns i and i + 2. */
  function AverageEntry(i: int, j: int): real {
    if j == i || j == i + 2 then 0.5 else 0.0
  }

  function AverageMatrix(cells: nat): (a: seq<seq<real>>)
    ensures IsMatrix(a, cells, cells + 2)
    ensures forall i :: 0 <= i < cells ==> TwoPointRow(a[i], i, 0.5, i + 2, 0.5)
  {
    seq(cells, i => seq(cells + 2, j => AverageEntry(i, j)))
  }

  /** The matrix built row by row as the source builds it. */
  method GetAverageMatrix(cells: nat) returns (a: array2<real>)
    ensures a.Length0 == cells && a.Length1 == cells + 2
    ensures forall i, j :: 0 <= i < cells && 0 <= j < cells + 2 ==> a[i, j] == AverageMatrix(cells)[i][j]
  {
    a := new real[cells, cells + 2]((_, _) => 0.0);
    var i := 0;
    while i < cells
      invariant 0 <= i <= cells
      invariant forall r, c :: 0 <= r < cells && 0 <= c < cells + 2 ==>
        a[r, c] == (if r < i then AverageEntry(r, c) else 0.0)
    {
      a[i, i] := 0.5;
      a[i, i + 2] := 0.5;
      i := i + 1;
    }
  }

  /** `average(ghosts, params)`: the matrix product with ghost values. */
  function Average(ghosts: seq<real>, cells: nat): (r: seq<real>)
    requires |ghosts| == cells + 2
    ensures |r| == cells
  {
    MatVec(AverageMatrix(cells), ghosts)
  }

  /**
   * Each output is the mean of the two ghost values either side of centre i,
   * i.e. of its lower and upper neighbouring cells.
   */
  lemma AverageApply(ghosts: seq<real>, cells: nat)
    requires |ghosts| == cells + 2
    ensures forall i :: 0 <= i < cells ==> Average(ghosts, cells)[i] == 0.5 * (ghosts[i] + ghosts[i + 2])
  {
    var a := AverageMatrix(cells);
    forall i | 0 <= i < cells ensures Average(ghosts, cells)[i] == 0.5 * (ghosts[i] + ghosts[i + 2]) {
      DotTwoPoint(a[i], ghosts, i, 0.5, i + 2, 0.5);
    }
  }
}
