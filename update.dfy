/**
 * The tick as the program runs it: the input grid is only read, a fresh
 * two-dimensional buffer is cloned from it and patched in place while the
 * cells are scanned bottom to top and right to left, and the draw index is
 * threaded through the loops. Each method is proved to compute the
 * value-level specification of module Rules.
 */
module Update {
  import opened Materials
  import opened Grid
  import opened Rules

  /** The buffer `a` holds exactly the cells `c`. */
  ghost predicate Mirrors(a: array2<MaterialType>, c: Cells)
    reads a
  {
    |c| == a.Length0 &&
    forall i :: 0 <= i < |c| ==> |c[i]| == a.Length1 && forall j :: 0 <= j < a.Length1 ==> a[i, j] == c[i][j]
  }

  /** One write `newGrid[i][j] = v`, with the ghost view of the buffer kept in step. */
  method Write(a: array2<MaterialType>, ghost c: Cells, i: int, j: int, v: MaterialType) returns (ghost c': Cells)
    requires Mirrors(a, c) && 0 <= i < a.Length0 && 0 <= j < a.Length1
    modifies a
    ensures InBounds(c, i, j) && c' == Set(c, i, j, v) && Mirrors(a, c')
  {
    a[i, j] := v;
    c' := Set(c, i, j, v);
  }

  /**
   * The body of the scan loops for the cell at (y, x); each `return` before
   * the end is the source's `continue`. Draws are taken from `rng` starting at
   * index `k`, and `k'` is the index of the first draw left unconsumed.
   */
  method UpdateCell(grid: Cells, newGrid: array2<MaterialType>, ghost buf: Cells, y: int, x: int, rng: Rng, k: nat)
    returns (ghost buf': Cells, k': nat)
    requires Site(grid, buf, y, x) && Mirrors(newGrid, buf)
    modifies newGrid
    ensures Mirrors(newGrid, buf')
    ensures Tick(buf', k') == CellStep(grid, Tick(buf, k), y, x, rng)
  {
    var height := |grid|;
    var width := Width(grid);
    buf', k' := buf, k;
    var current := grid[y][x];
    if current == Empty {
      return;
    }
    ghost var st := Tick(buf, k);

    // falling, and spreading when the fall is blocked
    if y < height - 1 && Density(current) > 0.0 {
      var below := grid[y + 1][x];
      if below == Empty || (Density(below) < Density(current) && below != Stone) {
        buf' := Write(newGrid, buf', y, x, below);
        buf' := Write(newGrid, buf', y + 1, x, current);
        return;
      }
      if Spreads(current) {
        buf', k' := SpreadDiagonally(grid, newGrid, buf', y, x, rng, k');
      }
    }
    assert Tick(buf', k') == SpreadStep(grid, st, y, x, rng);
    buf', k' := Evaporate(grid, newGrid, buf', y, x, rng, k');
    buf', k' := CorrodeBelow(grid, newGrid, buf', y, x, rng, k');
    if current == Fire {
      buf', k' := Burn(grid, newGrid, buf', y, x, rng, k');
    }
  }

  /** Evaporation: a material that evaporates draws once and vanishes when the draw is below 0.1. */
  method Evaporate(grid: Cells, newGrid: array2<MaterialType>, ghost buf: Cells, y: int, x: int, rng: Rng, k: nat)
    returns (ghost buf': Cells, k': nat)
    requires Site(grid, buf, y, x) && Mirrors(newGrid, buf)
    modifies newGrid
    ensures Mirrors(newGrid, buf')
    ensures Tick(buf', k') == EvaporateStep(grid, Tick(buf, k), y, x, rng)
  {
    buf', k' := buf, k;
    if Evaporates(grid[y][x]) {
      if rng(k') < 0.1 {
        buf' := Write(newGrid, buf', y, x, Empty);
      }
      k' := k' + 1;
    }
  }

  /** Corrosion: a corrosive cell draws once for a cell below that is neither empty nor acid, and empties it below 0.1. */
  method CorrodeBelow(grid: Cells, newGrid: array2<MaterialType>, ghost buf: Cells, y: int, x: int, rng: Rng, k: nat)
    returns (ghost buf': Cells, k': nat)
    requires Site(grid, buf, y, x) && Mirrors(newGrid, buf)
    modifies newGrid
    ensures Mirrors(newGrid, buf')
    ensures Tick(buf', k') == CorrodeStep(grid, Tick(buf, k), y, x, rng)
  {
    buf', k' := buf, k;
    if Corrosive(grid[y][x]) && y < |grid| - 1 {
      var below := grid[y + 1][x];
      if below != Empty && below != Acid {
        if rng(k') < 0.1 {
          buf' := Write(newGrid, buf', y + 1, x, Empty);
        }
        k' := k' + 1;
      }
    }
  }

  /** A fire cell: ignite flammable neighbours, then make smoke above with a draw below 0.2. */
  method Burn(grid: Cells, newGrid: array2<MaterialType>, ghost buf: Cells, y: int, x: int, rng: Rng, k: nat)
    returns (ghost buf': Cells, k': nat)
    requires Site(grid, buf, y, x) && Mirrors(newGrid, buf)
    modifies newGrid
    ensures Mirrors(newGrid, buf')
    ensures Tick(buf', k') == SmokeStep(grid, IgniteUpTo(grid, Tick(buf, k), y, x, 9, rng), y, x, rng)
  {
    buf', k' := IgniteNeighbours(grid, newGrid, buf, y, x, rng, k);
    if y > 0 && grid[y - 1][x] == Empty {
      if rng(k') < 0.2 {
        buf' := Write(newGrid, buf', y - 1, x, Smoke);
      }
      k' := k' + 1;
    }
  }

  /** Spreading of a cell whose fall is blocked: one draw picks the side tried first, then the first open diagonal wins. */
  method SpreadDiagonally(grid: Cells, newGrid: array2<MaterialType>, ghost buf: Cells, y: int, x: int, rng: Rng, k: nat)
    returns (ghost buf': Cells, k': nat)
    requires Site(grid, buf, y, x) && Mirrors(newGrid, buf) && ReachesSpread(grid, y, x)
    modifies newGrid
    ensures Mirrors(newGrid, buf')
    ensures Tick(buf', k') == SpreadStep(grid, Tick(buf, k), y, x, rng)
  {
    var width := Width(grid);
    var current := grid[y][x];
    buf' := buf;
    var directions := if rng(k) < 0.5 then [-1, 1] else [1, -1];
    k' := k + 1;
    for i := 0 to 2
      invariant buf' == buf && k' == k + 1 && Mirrors(newGrid, buf')
      invariant forall m :: 0 <= m < i ==> !OpenDiagonal(grid, y, x, directions[m])
    {
      var dx := directions[i];
      if x + dx >= 0 && x + dx < width && grid[y + 1][x + dx] == Empty {
        buf' := Write(newGrid, buf', y, x, Empty);
        buf' := Write(newGrid, buf', y + 1, x + dx, current);
        assert buf' == Slide(grid, buf, y, x, dx);
        assert i == 1 ==> !OpenDiagonal(grid, y, x, directions[0]);
        return;
      }
    }
  }

  /** The n-th offset of the scan is the pair the two nested loops are at. */
  lemma OffsetOfScan(n: nat, dy: int, dx: int)
    requires -1 <= dy <= 1 && -1 <= dx <= 1 && n == 3 * (dy + 1) + (dx + 1)
    ensures OffsetRow(n) == dy && OffsetCol(n) == dx
  {
  }

  /** One neighbour (i, j) of the fire scan: an in-bounds flammable cell draws once and catches fire below 0.1. */
  method Kindle(grid: Cells, newGrid: array2<MaterialType>, ghost buf: Cells, i: int, j: int, rng: Rng, k: nat)
    returns (ghost buf': Cells, k': nat)
    requires Rectangular(grid) && SameShape(buf, grid) && Mirrors(newGrid, buf)
    modifies newGrid
    ensures Mirrors(newGrid, buf')
    ensures Tick(buf', k') == IgniteAt(grid, Tick(buf, k), i, j, rng)
  {
    buf', k' := buf, k;
    if j >= 0 && j < Width(grid) && i >= 0 && i < |grid| {
      assert InBounds(grid, i, j);
      var neighbor := grid[i][j];
      if Flammable(neighbor) {
        if rng(k') < 0.1 {
          buf' := Write(newGrid, buf', i, j, Fire);
        }
        k' := k' + 1;
      }
    } else {
      assert !InBounds(grid, i, j);
    }
  }

  /** The 3x3 scan of a fire cell: each in-bounds flammable neighbour draws and may catch fire. */
  method IgniteNeighbours(grid: Cells, newGrid: array2<MaterialType>, ghost buf: Cells, y: int, x: int, rng: Rng, k: nat)
    returns (ghost buf': Cells, k': nat)
    requires Site(grid, buf, y, x) && Mirrors(newGrid, buf)
    modifies newGrid
    ensures Mirrors(newGrid, buf')
    ensures Tick(buf', k') == IgniteUpTo(grid, Tick(buf, k), y, x, 9, rng)
  {
    buf', k' := buf, k;
    ghost var n: nat := 0;  // offsets visited so far, in scan order
    for dy := -1 to 2
      invariant n == 3 * (dy + 1)
      invariant Mirrors(newGrid, buf')
      invariant Tick(buf', k') == IgniteUpTo(grid, Tick(buf, k), y, x, n, rng)
    {
      for dx := -1 to 2
        invariant n == 3 * (dy + 1) + (dx + 1)
        invariant Mirrors(newGrid, buf')
        invariant Tick(buf', k') == IgniteUpTo(grid, Tick(buf, k), y, x, n, rng)
      {
        OffsetOfScan(n, dy, dx);
        ghost var m: nat := n + 1;
        IgniteUpToNext(grid, Tick(buf, k), y, x, n, m, rng);
        buf', k' := Kindle(grid, newGrid, buf', y + dy, x + dx, rng, k');
        n := m;
      }
    }
  }

  /** One row of the scan, right to left: each cell's rule chain patches the buffer in turn. */
  method UpdateRow(grid: Cells, newGrid: array2<MaterialType>, ghost buf: Cells, y: int, rng: Rng, k: nat)
    returns (ghost buf': Cells, k': nat)
    requires Rectangular(grid) && SameShape(buf, grid) && 0 <= y < |grid| && Mirrors(newGrid, buf)
    modifies newGrid
    ensures Mirrors(newGrid, buf')
    ensures Tick(buf', k') == RowFrom(grid, Tick(buf, k), y, 0, rng)
  {
    var width := |grid[0]|;
    buf', k' := buf, k;
    for x := width downto 0
      invariant Mirrors(newGrid, buf')
      invariant Tick(buf', k') == RowFrom(grid, Tick(buf, k), y, x, rng)
    {
      RowFromNext(grid, Tick(buf, k), y, x, rng);
      buf', k' := UpdateCell(grid, newGrid, buf', y, x, rng, k');
    }
  }

  /** The copy `grid.map(row => [...row])`: a fresh buffer holding exactly the cells of the grid. */
  method CloneGrid(grid: Cells) returns (a: array2<MaterialType>)
    requires Rectangular(grid) && |grid| >= 1
    ensures fresh(a)
    ensures a.Length0 == |grid| && a.Length1 == Width(grid)
    ensures Mirrors(a, grid)
  {
    var height := |grid|;
    var width := |grid[0]|;
    a := new MaterialType[height, width]((i, j) requires 0 <= i < height && 0 <= j < width => grid[i][j]);
  }

  /**
   * One tick: returns the new grid, a fresh buffer holding exactly the cells
   * of `Step(grid, rng)`, and the number of draws consumed. The input is only
   * read, and every index the scan uses is in bounds.
   */
  method UpdateGrid(grid: Cells, rng: Rng) returns (newGrid: array2<MaterialType>, used: nat)
    requires Rectangular(grid) && |grid| >= 1
    ensures fresh(newGrid)
    ensures newGrid.Length0 == |grid| && newGrid.Length1 == Width(grid)
    ensures Mirrors(newGrid, Step(grid, rng).cells)
    ensures used == Step(grid, rng).next
  {
    newGrid := CloneGrid(grid);
    ghost var buf := grid;
    used := 0;
    ghost var start := Tick(grid, 0);
    for y := |grid| downto 0
      invariant Mirrors(newGrid, buf)
      invariant Tick(buf, used) == RowsFrom(grid, start, y, rng)
    {
      RowsFromNext(grid, start, y, rng);
      buf, used := UpdateRow(grid, newGrid, buf, y, rng, used);
    }
  }
}
