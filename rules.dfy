/**
 * One tick of the automaton as a value-level specification.
 *
 * Every neighbour test reads the original `grid`; every write goes to the
 * output buffer of a `Tick`, the last write winning. Draws come from an
 * injected stream `rng` and are consumed in order: `next` is the index of the
 * next draw, so a tick is a deterministic function of the grid and the stream.
 */
module Rules {
  import opened Materials
  import opened Grid

  /** The injected random source: `rng(k)` is the value of the k-th call. */
  type Rng = nat -> real

  /** The output buffer so far and the index of the next unconsumed draw. */
  datatype Tick = Tick(cells: Cells, next: nat)

  /** `c` is a buffer shaped like the rectangular `grid`, and (y, x) is one of its cells. */
  predicate Site(grid: Cells, c: Cells, y: int, x: int)
  {
    Rectangular(grid) && SameShape(c, grid) && 0 <= y < |grid| && 0 <= x < Width(grid)
  }

  // ---------------------------------------------------------------- falling

  /** The fall guard: not on the last row, positive density, and the cell below empty or lighter and not stone. */
  predicate Falls(grid: Cells, y: int, x: int)
    requires Rectangular(grid) && 0 <= y < |grid| && 0 <= x < Width(grid)
    ensures Falls(grid, y, x) <==>
              y + 1 < |grid| && 0.0 < Density(grid[y][x]) &&
              Density(grid[y + 1][x]) < Density(grid[y][x]) && grid[y + 1][x] != Stone
  {
    y < |grid| - 1 && Density(grid[y][x]) > 0.0 &&
    (grid[y + 1][x] == Empty ||
     (Density(grid[y + 1][x]) < Density(grid[y][x]) && grid[y + 1][x] != Stone))
  }

  /** The swap of a falling cell with the one below it. */
  function FallStep(grid: Cells, st: Tick, y: int, x: int): (r: Tick)
    requires Site(grid, st.cells, y, x) && y + 1 < |grid|
    ensures SameShape(r.cells, grid) && r.next == st.next
    ensures r.cells[y][x] == grid[y + 1][x] && r.cells[y + 1][x] == grid[y][x]
    ensures forall i, j {:trigger r.cells[i][j]} :: InBounds(grid, i, j) && (j != x || (i != y && i != y + 1)) ==>
              r.cells[i][j] == st.cells[i][j]
  {
    Tick(Set(Set(st.cells, y, x, grid[y + 1][x]), y + 1, x, grid[y][x]), st.next)
  }

  // -------------------------------------------------------------- spreading

  /** The spreading branch is entered: the cell could have fallen by row and density, and spreads. */
  predicate ReachesSpread(grid: Cells, y: int, x: int)
    requires Rectangular(grid) && 0 <= y < |grid| && 0 <= x < Width(grid)
  {
    y < |grid| - 1 && Density(grid[y][x]) > 0.0 && Spreads(grid[y][x])
  }

  /** The diagonal-below cell on side `dx` exists and was empty in the original grid. */
  predicate OpenDiagonal(grid: Cells, y: int, x: int, dx: int)
    requires Rectangular(grid) && 0 <= y < |grid|
  {
    y + 1 < |grid| && 0 <= x + dx < Width(grid) && grid[y + 1][x + dx] == Empty
  }

  /** The cell at (y, x) leaves an empty cell behind and moves to the diagonal-below cell on side `dx`. */
  function Slide(grid: Cells, c: Cells, y: int, x: int, dx: int): (r: Cells)
    requires Site(grid, c, y, x) && OpenDiagonal(grid, y, x, dx)
    ensures SameShape(r, grid)
  {
    Set(Set(c, y, x, Empty), y + 1, x + dx, grid[y][x])
  }

  /**
   * Spreading: one draw picks the side tried first; the cell moves to the first
   * open diagonal-below cell, if any.
   */
  function SpreadStep(grid: Cells, st: Tick, y: int, x: int, rng: Rng): (r: Tick)
    requires Site(grid, st.cells, y, x)
    ensures SameShape(r.cells, grid)
    ensures !ReachesSpread(grid, y, x) ==> r == st
    ensures ReachesSpread(grid, y, x) ==>
              r.next == st.next + 1 &&
              ((!OpenDiagonal(grid, y, x, -1) && !OpenDiagonal(grid, y, x, 1) && r.cells == st.cells) ||
               (OpenDiagonal(grid, y, x, -1) && r.cells == Slide(grid, st.cells, y, x, -1)) ||
               (OpenDiagonal(grid, y, x, 1) && r.cells == Slide(grid, st.cells, y, x, 1)))
  {
    if ReachesSpread(grid, y, x) then
      var directions := if rng(st.next) < 0.5 then [-1, 1] else [1, -1];
      var cells :=
        if OpenDiagonal(grid, y, x, directions[0]) then Slide(grid, st.cells, y, x, directions[0])
        else if OpenDiagonal(grid, y, x, directions[1]) then Slide(grid, st.cells, y, x, directions[1])
        else st.cells;
      Tick(cells, st.next + 1)
    else
      st
  }

  /** The draw picks the side: below 0.5 the left diagonal is tried first, otherwise the right one. */
  lemma SpreadOutcome(grid: Cells, st: Tick, y: int, x: int, rng: Rng)
    requires Site(grid, st.cells, y, x) && ReachesSpread(grid, y, x)
    ensures rng(st.next) < 0.5 ==>
              SpreadStep(grid, st, y, x, rng).cells ==
                (if OpenDiagonal(grid, y, x, -1) then Slide(grid, st.cells, y, x, -1)
                 else if OpenDiagonal(grid, y, x, 1) then Slide(grid, st.cells, y, x, 1)
                 else st.cells)
    ensures rng(st.next) >= 0.5 ==>
              SpreadStep(grid, st, y, x, rng).cells ==
                (if OpenDiagonal(grid, y, x, 1) then Slide(grid, st.cells, y, x, 1)
                 else if OpenDiagonal(grid, y, x, -1) then Slide(grid, st.cells, y, x, -1)
                 else st.cells)
  {
  }

  // ------------------------------------------------------------ evaporation

  /** Evaporation: a material that evaporates draws once and vanishes when the draw is below 0.1. */
  function EvaporateStep(grid: Cells, st: Tick, y: int, x: int, rng: Rng): (r: Tick)
    requires Site(grid, st.cells, y, x)
    ensures SameShape(r.cells, grid)
    ensures r.next == st.next + (if Evaporates(grid[y][x]) then 1 else 0)
    ensures r.cells == st.cells || (Evaporates(grid[y][x]) && r.cells == Set(st.cells, y, x, Empty))
  {
    if Evaporates(grid[y][x]) then
      Tick(if rng(st.next) < 0.1 then Set(st.cells, y, x, Empty) else st.cells, st.next + 1)
    else
      st
  }

  /** The cell empties exactly when it evaporates and its draw is below 0.1. */
  lemma EvaporateOutcome(grid: Cells, st: Tick, y: int, x: int, rng: Rng)
    requires Site(grid, st.cells, y, x)
    ensures Evaporates(grid[y][x]) && rng(st.next) < 0.1 ==>
              EvaporateStep(grid, st, y, x, rng).cells == Set(st.cells, y, x, Empty)
    ensures !(Evaporates(grid[y][x]) && rng(st.next) < 0.1) ==>
              EvaporateStep(grid, st, y, x, rng).cells == st.cells
  {
  }

  // -------------------------------------------------------------- corrosion

  /** The corrosion draw is made: a corrosive cell above a cell that is neither empty nor acid. */
  predicate CanCorrode(grid: Cells, y: int, x: int)
    requires Rectangular(grid) && 0 <= y < |grid| && 0 <= x < Width(grid)
  {
    Corrosive(grid[y][x]) && y < |grid| - 1 && grid[y + 1][x] != Empty && grid[y + 1][x] != Acid
  }

  /** Corrosion: with a draw below 0.1 the cell below is emptied; the corrosive cell stays. */
  function CorrodeStep(grid: Cells, st: Tick, y: int, x: int, rng: Rng): (r: Tick)
    requires Site(grid, st.cells, y, x)
    ensures SameShape(r.cells, grid)
    ensures r.next == st.next + (if CanCorrode(grid, y, x) then 1 else 0)
    ensures r.cells == st.cells || (CanCorrode(grid, y, x) && r.cells == Set(st.cells, y + 1, x, Empty))
  {
    if CanCorrode(grid, y, x) then
      Tick(if rng(st.next) < 0.1 then Set(st.cells, y + 1, x, Empty) else st.cells, st.next + 1)
    else
      st
  }

  /** The cell below is emptied exactly when the corrosion guard holds and the draw is below 0.1. */
  lemma CorrodeOutcome(grid: Cells, st: Tick, y: int, x: int, rng: Rng)
    requires Site(grid, st.cells, y, x)
    ensures CanCorrode(grid, y, x) && rng(st.next) < 0.1 ==>
              CorrodeStep(grid, st, y, x, rng).cells == Set(st.cells, y + 1, x, Empty)
    ensures !(CanCorrode(grid, y, x) && rng(st.next) < 0.1) ==>
              CorrodeStep(grid, st, y, x, rng).cells == st.cells
  {
  }

  // ------------------------------------------------------------------- fire

  /** The k-th of the nine offsets of the 3x3 scan, rows outer and columns inner, both from -1 to 1. */
  function OffsetRow(k: nat): int { k / 3 - 1 }
  function OffsetCol(k: nat): int { k % 3 - 1 }

  /** The cell (i, j) exists and is flammable in the original grid, so a fire next to it draws for it. */
  predicate Kindles(grid: Cells, i: int, j: int)
  {
    InBounds(grid, i, j) && Flammable(grid[i][j])
  }

  /** One neighbour of the fire scan: a flammable cell catches fire when its draw is below 0.1. */
  function IgniteAt(grid: Cells, st: Tick, i: int, j: int, rng: Rng): (r: Tick)
    requires Rectangular(grid) && SameShape(st.cells, grid)
    ensures SameShape(r.cells, grid)
    ensures r.next == st.next + (if Kindles(grid, i, j) then 1 else 0)
    ensures r.cells == st.cells || (Kindles(grid, i, j) && r.cells == Set(st.cells, i, j, Fire))
  {
    if Kindles(grid, i, j) then
      Tick(if rng(st.next) < 0.1 then Set(st.cells, i, j, Fire) else st.cells, st.next + 1)
    else
      st
  }

  /** A neighbour catches fire exactly when it is an in-bounds flammable cell and its draw is below 0.1. */
  lemma IgniteOutcome(grid: Cells, st: Tick, i: int, j: int, rng: Rng)
    requires Rectangular(grid) && SameShape(st.cells, grid)
    ensures Kindles(grid, i, j) && rng(st.next) < 0.1 ==>
              IgniteAt(grid, st, i, j, rng).cells == Set(st.cells, i, j, Fire)
    ensures !(Kindles(grid, i, j) && rng(st.next) < 0.1) ==>
              IgniteAt(grid, st, i, j, rng).cells == st.cells
  {
  }

  /** How many of the first `k` offsets around (y, x) are flammable cells of the grid. */
  function KindlingCount(grid: Cells, y: int, x: int, k: nat): (n: nat)
    requires k <= 9
    ensures n <= k
  {
    if k == 0 then 0
    else KindlingCount(grid, y, x, k - 1) +
         (if Kindles(grid, y + OffsetRow(k - 1), x + OffsetCol(k - 1)) then 1 else 0)
  }

  /**
   * The first `k` steps of the 3x3 fire scan around (y, x). It draws once per
   * flammable neighbour, and writes only fire, only onto cells of the 3x3
   * neighbourhood that were flammable in the original grid.
   */
  function IgniteUpTo(grid: Cells, st: Tick, y: int, x: int, k: nat, rng: Rng): (r: Tick)
    requires Site(grid, st.cells, y, x) && k <= 9
    ensures SameShape(r.cells, grid)
    ensures r.next == st.next + KindlingCount(grid, y, x, k)
    decreases k
  {
    if k == 0 then st
    else IgniteAt(grid, IgniteUpTo(grid, st, y, x, k - 1, rng), y + OffsetRow(k - 1), x + OffsetCol(k - 1), rng)
  }

  /**
   * The scan writes only fire, only onto cells of the 3x3 neighbourhood that
   * were flammable in the original grid.
   */
  lemma {:induction false} IgniteUpToWrites(grid: Cells, st: Tick, y: int, x: int, k: nat, rng: Rng)
    requires Site(grid, st.cells, y, x) && k <= 9
    ensures forall i, j :: InBounds(grid, i, j) && IgniteUpTo(grid, st, y, x, k, rng).cells[i][j] != st.cells[i][j] ==>
              IgniteUpTo(grid, st, y, x, k, rng).cells[i][j] == Fire && Flammable(grid[i][j]) &&
              y - 1 <= i <= y + 1 && x - 1 <= j <= x + 1
    decreases k
  {
    if k > 0 {
      IgniteUpToWrites(grid, st, y, x, k - 1, rng);
      var before := IgniteUpTo(grid, st, y, x, k - 1, rng);
      var r := IgniteUpTo(grid, st, y, x, k, rng);
      var ni, nj := y + OffsetRow(k - 1), x + OffsetCol(k - 1);
      assert r == IgniteAt(grid, before, ni, nj, rng);
      assert -1 <= OffsetRow(k - 1) <= 1 && -1 <= OffsetCol(k - 1) <= 1;
      forall i, j | InBounds(grid, i, j) && r.cells[i][j] != st.cells[i][j]
        ensures r.cells[i][j] == Fire && Flammable(grid[i][j]) && y - 1 <= i <= y + 1 && x - 1 <= j <= x + 1
      {
        if r.cells[i][j] != before.cells[i][j] {
          assert r.cells == Set(before.cells, ni, nj, Fire) && Kindles(grid, ni, nj);
          assert i == ni && j == nj;
        }
      }
    }
  }

  /** One more offset of the scan. */
  lemma IgniteUpToStep(grid: Cells, st: Tick, y: int, x: int, n: nat, rng: Rng)
    requires Site(grid, st.cells, y, x) && n < 9
    ensures IgniteUpTo(grid, st, y, x, n + 1, rng) ==
            IgniteAt(grid, IgniteUpTo(grid, st, y, x, n, rng), y + OffsetRow(n), x + OffsetCol(n), rng)
  {
  }

  /** The same step with the successor named `m`, as a loop counting offsets in a variable needs it. */
  lemma IgniteUpToNext(grid: Cells, st: Tick, y: int, x: int, n: nat, m: nat, rng: Rng)
    requires Site(grid, st.cells, y, x) && n < 9 && m == n + 1
    ensures IgniteUpTo(grid, st, y, x, m, rng) ==
            IgniteAt(grid, IgniteUpTo(grid, st, y, x, n, rng), y + OffsetRow(n), x + OffsetCol(n), rng)
  {
    IgniteUpToStep(grid, st, y, x, n, rng);
  }

  /** Smoke is drawn for only when the cell above exists and was empty in the original grid. */
  predicate CanSmoke(grid: Cells, y: int, x: int)
    requires Rectangular(grid) && 0 <= y < |grid| && 0 <= x < Width(grid)
  {
    y > 0 && grid[y - 1][x] == Empty
  }

  /** Smoke: with a draw below 0.2 the empty cell above a fire becomes smoke. */
  function SmokeStep(grid: Cells, st: Tick, y: int, x: int, rng: Rng): (r: Tick)
    requires Site(grid, st.cells, y, x)
    ensures SameShape(r.cells, grid)
    ensures r.next == st.next + (if CanSmoke(grid, y, x) then 1 else 0)
    ensures r.cells == st.cells || (CanSmoke(grid, y, x) && r.cells == Set(st.cells, y - 1, x, Smoke))
  {
    if CanSmoke(grid, y, x) then
      Tick(if rng(st.next) < 0.2 then Set(st.cells, y - 1, x, Smoke) else st.cells, st.next + 1)
    else
      st
  }

  /** The cell above becomes smoke exactly when it exists, was originally empty, and the draw is below 0.2. */
  lemma SmokeOutcome(grid: Cells, st: Tick, y: int, x: int, rng: Rng)
    requires Site(grid, st.cells, y, x)
    ensures CanSmoke(grid, y, x) && rng(st.next) < 0.2 ==>
              SmokeStep(grid, st, y, x, rng).cells == Set(st.cells, y - 1, x, Smoke)
    ensures !(CanSmoke(grid, y, x) && rng(st.next) < 0.2) ==>
              SmokeStep(grid, st, y, x, rng).cells == st.cells
  {
  }

  /**
   * A fire's own cell is the fifth offset of its scan and is not flammable, so
   * from the fifth offset on the scan has met at most `k - 1` flammable cells.
   */
  lemma {:induction false} KindlingSkipsSelf(grid: Cells, y: int, x: int, k: nat)
    requires Rectangular(grid) && 0 <= y < |grid| && 0 <= x < Width(grid) && grid[y][x] == Fire
    requires 5 <= k <= 9
    ensures KindlingCount(grid, y, x, k) <= k - 1
    decreases k
  {
    if k == 5 {
      assert OffsetRow(4) == 0 && OffsetCol(4) == 0;
      assert !Flammable(Fire);
    } else {
      KindlingSkipsSelf(grid, y, x, k - 1);
    }
  }

  // --------------------------------------------------------- one whole cell

  /**
   * How many draws the cell at (y, x) consumes. It depends on the original grid
   * alone: neither on the values drawn nor on what earlier cells wrote. At most
   * ten: spreading needs a positive density, which no evaporating material has,
   * and a fire draws at most 8 ignitions, one evaporation and one smoke.
   */
  function DrawCount(grid: Cells, y: int, x: int): (n: nat)
    requires Rectangular(grid) && 0 <= y < |grid| && 0 <= x < Width(grid)
    ensures n <= 10
    ensures grid[y][x] == Empty || Falls(grid, y, x) ==> n == 0
  {
    var current := grid[y][x];
    if current == Empty || Falls(grid, y, x) then 0
    else
      FlagsOfMaterials(current);
      (if ReachesSpread(grid, y, x) then 1 else 0) +
      (if Evaporates(current) then 1 else 0) +
      (if CanCorrode(grid, y, x) then 1 else 0) +
      (if current == Fire then
         KindlingSkipsSelf(grid, y, x, 9);
         KindlingCount(grid, y, x, 9) + (if CanSmoke(grid, y, x) then 1 else 0) else 0)
  }

  /** The rule chain of one cell: skip empty cells; a fall ends the chain; otherwise spread, evaporate, corrode, burn. */
  function CellStep(grid: Cells, st: Tick, y: int, x: int, rng: Rng): (r: Tick)
    requires Site(grid, st.cells, y, x)
    ensures SameShape(r.cells, grid)
  {
    var current := grid[y][x];
    if current == Empty then st
    else if Falls(grid, y, x) then FallStep(grid, st, y, x)
    else
      var moved := SpreadStep(grid, st, y, x, rng);
      var special := CorrodeStep(grid, EvaporateStep(grid, moved, y, x, rng), y, x, rng);
      if current == Fire then SmokeStep(grid, IgniteUpTo(grid, special, y, x, 9, rng), y, x, rng)
      else special
  }

  /** A cell's rule chain consumes exactly `DrawCount` draws, whatever values are drawn. */
  lemma CellStepDraws(grid: Cells, st: Tick, y: int, x: int, rng: Rng)
    requires Site(grid, st.cells, y, x)
    ensures CellStep(grid, st, y, x, rng).next == st.next + DrawCount(grid, y, x)
  {
  }

  // ------------------------------------------------------------ scan order

  /** Draws consumed by columns `x` to the last of row `y`. */
  function RowDraws(grid: Cells, y: int, x: int): nat
    requires Rectangular(grid) && 0 <= y < |grid| && 0 <= x <= Width(grid)
    decreases Width(grid) - x
  {
    if x == Width(grid) then 0 else RowDraws(grid, y, x + 1) + DrawCount(grid, y, x)
  }

  /** Draws consumed by rows `y` to the last. */
  function GridDraws(grid: Cells, y: int): nat
    requires Rectangular(grid) && 0 <= y <= |grid|
    decreases |grid| - y
  {
    if y == |grid| then 0 else GridDraws(grid, y + 1) + RowDraws(grid, y, 0)
  }

  /** Row `y` processed right to left, from the last column down to column `x`. */
  function RowFrom(grid: Cells, st: Tick, y: int, x: int, rng: Rng): (r: Tick)
    requires Rectangular(grid) && SameShape(st.cells, grid) && 0 <= y < |grid| && 0 <= x <= Width(grid)
    ensures SameShape(r.cells, grid)
    decreases Width(grid) - x
  {
    if x == Width(grid) then st else CellStep(grid, RowFrom(grid, st, y, x + 1, rng), y, x, rng)
  }

  /** Rows processed bottom to top, from the last row up to row `y`. */
  function RowsFrom(grid: Cells, st: Tick, y: int, rng: Rng): (r: Tick)
    requires Rectangular(grid) && SameShape(st.cells, grid) && 0 <= y <= |grid|
    ensures SameShape(r.cells, grid)
    decreases |grid| - y
  {
    if y == |grid| then st else RowFrom(grid, RowsFrom(grid, st, y + 1, rng), y, 0, rng)
  }

  /** Column `x` is processed after the columns to its right. */
  lemma RowFromNext(grid: Cells, st: Tick, y: int, x: int, rng: Rng)
    requires Rectangular(grid) && SameShape(st.cells, grid) && 0 <= y < |grid| && 0 <= x < Width(grid)
    ensures RowFrom(grid, st, y, x, rng) == CellStep(grid, RowFrom(grid, st, y, x + 1, rng), y, x, rng)
  {
  }

  /** Row `y` is scanned on top of the rows below it. */
  lemma RowsFromNext(grid: Cells, st: Tick, y: int, rng: Rng)
    requires Rectangular(grid) && SameShape(st.cells, grid) && 0 <= y < |grid|
    ensures RowsFrom(grid, st, y, rng) == RowFrom(grid, RowsFrom(grid, st, y + 1, rng), y, 0, rng)
  {
  }

  /** One tick: the output starts as a copy of the grid and every cell is processed in scan order. */
  function Step(grid: Cells, rng: Rng): (r: Tick)
    requires Rectangular(grid) && |grid| >= 1
    ensures SameShape(r.cells, grid)
  {
    RowsFrom(grid, Tick(grid, 0), 0, rng)
  }

  /** The cells of a row from column `x` on consume exactly the draws the grid fixes for them. */
  lemma {:induction false} RowFromDraws(grid: Cells, st: Tick, y: int, x: int, rng: Rng)
    requires Rectangular(grid) && SameShape(st.cells, grid) && 0 <= y < |grid| && 0 <= x <= Width(grid)
    ensures RowFrom(grid, st, y, x, rng).next == st.next + RowDraws(grid, y, x)
    decreases Width(grid) - x
  {
    if x < Width(grid) {
      RowFromDraws(grid, st, y, x + 1, rng);
      CellStepDraws(grid, RowFrom(grid, st, y, x + 1, rng), y, x, rng);
    }
  }

  /** The rows from `y` on, scanned from the start of a tick, consume exactly the draws the grid fixes for them. */
  lemma {:induction false} RowsFromDraws(grid: Cells, y: int, rng: Rng)
    requires Rectangular(grid) && 0 <= y <= |grid|
    ensures RowsFrom(grid, Tick(grid, 0), y, rng).next == GridDraws(grid, y)
    decreases |grid| - y
  {
    if y < |grid| {
      RowsFromDraws(grid, y + 1, rng);
      RowFromDraws(grid, RowsFrom(grid, Tick(grid, 0), y + 1, rng), y, 0, rng);
    }
  }

  /**
   * The number of draws a tick consumes is fixed by the grid alone: a function
   * of the input that does not depend on the values drawn.
   */
  lemma StepDraws(grid: Cells, rng: Rng)
    requires Rectangular(grid) && |grid| >= 1
    ensures Step(grid, rng).next == GridDraws(grid, 0)
  {
    RowsFromDraws(grid, 0, rng);
  }
}
