/** Grids of materials as values: rows top to bottom, each row left to right. */
module Grid {
  import opened Materials

  type Cells = seq<seq<MaterialType>>

  /** The width of a grid is the length of its first row, as the engine reads it. */
  function Width(g: Cells): nat
  {
    if |g| == 0 then 0 else |g[0]|
  }

  /** Every row has the same length. */
  predicate Rectangular(g: Cells)
  {
    forall i :: 0 <= i < |g| ==> |g[i]| == Width(g)
  }

  predicate SameShape(a: Cells, b: Cells)
  {
    |a| == |b| && forall i :: 0 <= i < |a| ==> |a[i]| == |b[i]|
  }

  predicate InBounds(g: Cells, i: int, j: int)
  {
    0 <= i < |g| && 0 <= j < |g[i]|
  }

  predicate AllEmpty(g: Cells)
  {
    forall i, j :: 0 <= i < |g| && 0 <= j < |g[i]| ==> g[i][j] == Empty
  }

  /** The grid with the single cell at row `i`, column `j` overwritten by `v`. */
  function Set(g: Cells, i: int, j: int, v: MaterialType): (r: Cells)
    requires InBounds(g, i, j)
    ensures SameShape(r, g)
    ensures r[i][j] == v
    ensures forall a, b {:trigger r[a][b]} :: InBounds(g, a, b) && (a != i || b != j) ==> r[a][b] == g[a][b]
  {
    g[i := g[i][j := v]]
  }

  /** A grid of `height` rows of `width` empty cells. */
  function InitializeGrid(width: nat, height: nat): (g: Cells)
    ensures |g| == height
    ensures forall i :: 0 <= i < height ==> |g[i]| == width
    ensures Rectangular(g) && AllEmpty(g)
  {
    seq(height, _ => seq(width, _ => Empty))
  }
}
