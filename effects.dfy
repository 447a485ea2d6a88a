/**
 * What one tick can and cannot do: which cells a single cell's rules may
 * write and with what, the locality of a whole tick, and the grids a tick
 * leaves unchanged.
 */
module Effects {
  import opened Materials
  import opened Grid
  import opened Rules

  /**
   * The writes the rules let the cell at (y, x) make into cell (i, j), with
   * each rule's guard. Every guard is read in the original grid.
   */
  predicate Allowed(grid: Cells, y: int, x: int, i: int, j: int, v: MaterialType)
    requires Rectangular(grid) && 0 <= y < |grid| && 0 <= x < Width(grid) && InBounds(grid, i, j)
  {
    var current := grid[y][x];
    // falling: swap with the cell below
    (Falls(grid, y, x) && i == y && j == x && v == grid[y + 1][x]) ||
    (Falls(grid, y, x) && i == y + 1 && j == x && v == current) ||
    // spreading: leave the cell empty and move into an open diagonal-below cell
    (!Falls(grid, y, x) && ReachesSpread(grid, y, x) && i == y && j == x && v == Empty) ||
    (!Falls(grid, y, x) && ReachesSpread(grid, y, x) && i == y + 1 && (j == x - 1 || j == x + 1) &&
     grid[i][j] == Empty && v == current) ||
    // evaporation: the cell itself vanishes
    (!Falls(grid, y, x) && Evaporates(current) && i == y && j == x && v == Empty) ||
    // corrosion: the cell below vanishes
    (!Falls(grid, y, x) && CanCorrode(grid, y, x) && i == y + 1 && j == x && v == Empty) ||
    // fire: flammable neighbours catch fire, the empty cell above turns to smoke
    (!Falls(grid, y, x) && current == Fire && y - 1 <= i <= y + 1 && x - 1 <= j <= x + 1 &&
     Flammable(grid[i][j]) && v == Fire) ||
    (!Falls(grid, y, x) && current == Fire && CanSmoke(grid, y, x) && i == y - 1 && j == x && v == Smoke)
  }

  /** Each cell of `after` keeps its value in `before` or holds a value (y, x) may write there. */
  ghost predicate Explains(grid: Cells, y: int, x: int, before: Cells, after: Cells)
    requires Site(grid, before, y, x) && SameShape(after, grid)
  {
    forall i, j {:trigger after[i][j]} :: InBounds(grid, i, j) ==> after[i][j] == before[i][j] || Allowed(grid, y, x, i, j, after[i][j])
  }

  lemma ExplainsChain(grid: Cells, y: int, x: int, b0: Cells, b1: Cells, b2: Cells)
    requires Site(grid, b0, y, x) && Site(grid, b1, y, x) && SameShape(b2, grid)
    requires Explains(grid, y, x, b0, b1) && Explains(grid, y, x, b1, b2)
    ensures Explains(grid, y, x, b0, b2)
  {
    forall i, j | InBounds(grid, i, j)
      ensures b2[i][j] == b0[i][j] || Allowed(grid, y, x, i, j, b2[i][j])
    {
      if b2[i][j] == b1[i][j] {
        assert b1[i][j] == b0[i][j] || Allowed(grid, y, x, i, j, b1[i][j]);
      }
    }
  }

  lemma ExplainsSet(grid: Cells, y: int, x: int, c: Cells, i: int, j: int, v: MaterialType)
    requires Site(grid, c, y, x) && InBounds(grid, i, j) && Allowed(grid, y, x, i, j, v)
    ensures Explains(grid, y, x, c, Set(c, i, j, v))
  {
  }

  lemma SpreadExplained(grid: Cells, st: Tick, y: int, x: int, rng: Rng)
    requires Site(grid, st.cells, y, x) && !Falls(grid, y, x)
    ensures Explains(grid, y, x, st.cells, SpreadStep(grid, st, y, x, rng).cells)
  {
    if ReachesSpread(grid, y, x) {
      forall dx | (dx == -1 || dx == 1) && OpenDiagonal(grid, y, x, dx)
        ensures Explains(grid, y, x, st.cells, Slide(grid, st.cells, y, x, dx))
      {
        var c1 := Set(st.cells, y, x, Empty);
        ExplainsSet(grid, y, x, st.cells, y, x, Empty);
        ExplainsSet(grid, y, x, c1, y + 1, x + dx, grid[y][x]);
        ExplainsChain(grid, y, x, st.cells, c1, Set(c1, y + 1, x + dx, grid[y][x]));
      }
    }
  }

  lemma EvaporateExplained(grid: Cells, st: Tick, y: int, x: int, rng: Rng)
    requires Site(grid, st.cells, y, x) && !Falls(grid, y, x)
    ensures Explains(grid, y, x, st.cells, EvaporateStep(grid, st, y, x, rng).cells)
  {
    if Evaporates(grid[y][x]) {
      ExplainsSet(grid, y, x, st.cells, y, x, Empty);
    }
  }

  lemma CorrodeExplained(grid: Cells, st: Tick, y: int, x: int, rng: Rng)
    requires Site(grid, st.cells, y, x) && !Falls(grid, y, x)
    ensures Explains(grid, y, x, st.cells, CorrodeStep(grid, st, y, x, rng).cells)
  {
    if CanCorrode(grid, y, x) {
      ExplainsSet(grid, y, x, st.cells, y + 1, x, Empty);
    }
  }

  lemma IgniteExplained(grid: Cells, st: Tick, y: int, x: int, rng: Rng)
    requires Site(grid, st.cells, y, x) && grid[y][x] == Fire
    ensures !Falls(grid, y, x)
    ensures Explains(grid, y, x, st.cells, IgniteUpTo(grid, st, y, x, 9, rng).cells)
  {
    var r := IgniteUpTo(grid, st, y, x, 9, rng).cells;
    IgniteUpToWrites(grid, st, y, x, 9, rng);
    assert !Falls(grid, y, x);
    forall i, j | InBounds(grid, i, j) && r[i][j] != st.cells[i][j]
      ensures Allowed(grid, y, x, i, j, r[i][j])
    {
      assert r[i][j] == Fire && Flammable(grid[i][j]) && y - 1 <= i <= y + 1 && x - 1 <= j <= x + 1;
    }
  }

  lemma SmokeExplained(grid: Cells, st: Tick, y: int, x: int, rng: Rng)
    requires Site(grid, st.cells, y, x) && grid[y][x] == Fire
    ensures Explains(grid, y, x, st.cells, SmokeStep(grid, st, y, x, rng).cells)
  {
    assert !Falls(grid, y, x);
    if CanSmoke(grid, y, x) {
      ExplainsSet(grid, y, x, st.cells, y - 1, x, Smoke);
    }
  }

  /**
   * The write footprint of one cell's rule chain: every cell it changes is
   * changed by one of the rules of `Allowed`, under that rule's guard.
   */
  lemma CellEffects(grid: Cells, st: Tick, y: int, x: int, rng: Rng)
    requires Site(grid, st.cells, y, x)
    ensures Explains(grid, y, x, st.cells, CellStep(grid, st, y, x, rng).cells)
  {
    var current := grid[y][x];
    if current == Empty || Falls(grid, y, x) {
      return;
    }
    var s1 := SpreadStep(grid, st, y, x, rng);
    SpreadExplained(grid, st, y, x, rng);
    var s2 := EvaporateStep(grid, s1, y, x, rng);
    EvaporateExplained(grid, s1, y, x, rng);
    ExplainsChain(grid, y, x, st.cells, s1.cells, s2.cells);
    var s3 := CorrodeStep(grid, s2, y, x, rng);
    CorrodeExplained(grid, s2, y, x, rng);
    ExplainsChain(grid, y, x, st.cells, s2.cells, s3.cells);
    if current == Fire {
      var s4 := IgniteUpTo(grid, s3, y, x, 9, rng);
      IgniteExplained(grid, s3, y, x, rng);
      ExplainsChain(grid, y, x, st.cells, s3.cells, s4.cells);
      SmokeExplained(grid, s4, y, x, rng);
      ExplainsChain(grid, y, x, st.cells, s4.cells, SmokeStep(grid, s4, y, x, rng).cells);
    }
  }

  // ------------------------------------------------- rule-level corollaries

  /**
   * A fall ends the cell's rule chain: the two cells are swapped in the output,
   * nothing else is written, and no draw is consumed.
   */
  lemma FallShortCircuit(grid: Cells, st: Tick, y: int, x: int, rng: Rng)
    requires Site(grid, st.cells, y, x) && Falls(grid, y, x)
    ensures CellStep(grid, st, y, x, rng).next == st.next
    ensures CellStep(grid, st, y, x, rng).cells[y][x] == grid[y + 1][x]
    ensures CellStep(grid, st, y, x, rng).cells[y + 1][x] == grid[y][x]
    ensures forall i, j :: InBounds(grid, i, j) && (j != x || (i != y && i != y + 1)) ==>
              CellStep(grid, st, y, x, rng).cells[i][j] == st.cells[i][j]
  {
  }

  /** Equal density never swaps, and a stone below always blocks the fall. */
  lemma FallBlocked(grid: Cells, y: int, x: int)
    requires Rectangular(grid) && 0 <= y < |grid| - 1 && 0 <= x < Width(grid)
    requires grid[y + 1][x] == Stone ||
             (grid[y + 1][x] != Empty && Density(grid[y + 1][x]) >= Density(grid[y][x]))
    ensures !Falls(grid, y, x)
  {
  }

  /**
   * Empty, fire and smoke (density at most zero) never fall or spread: the only
   * change they make to the row below is fire set by a burning cell onto a
   * flammable cell, and their own cell can only become empty.
   */
  lemma LightCellsStay(grid: Cells, st: Tick, y: int, x: int, rng: Rng)
    requires Site(grid, st.cells, y, x) && Density(grid[y][x]) <= 0.0
    ensures !Falls(grid, y, x) && !ReachesSpread(grid, y, x)
    ensures forall i, j :: (InBounds(grid, i, j) && i == y + 1 &&
                            CellStep(grid, st, y, x, rng).cells[i][j] != st.cells[i][j]) ==>
              grid[y][x] == Fire && CellStep(grid, st, y, x, rng).cells[i][j] == Fire && Flammable(grid[i][j])
    ensures CellStep(grid, st, y, x, rng).cells[y][x] == st.cells[y][x] ||
            CellStep(grid, st, y, x, rng).cells[y][x] == Empty
  {
    assert !Falls(grid, y, x) && !ReachesSpread(grid, y, x);
    CellEffects(grid, st, y, x, rng);
    var r := CellStep(grid, st, y, x, rng);
    assert InBounds(grid, y, x);
    forall i, j | InBounds(grid, i, j) && i == y + 1 && r.cells[i][j] != st.cells[i][j]
      ensures grid[y][x] == Fire && r.cells[i][j] == Fire && Flammable(grid[i][j])
    {
      assert Allowed(grid, y, x, i, j, r.cells[i][j]);
    }
  }

  /**
   * Stone is a floor: the cell above it never moves into it; only acid above it
   * can change it, and only to empty.
   */
  lemma StoneIsAFloor(grid: Cells, st: Tick, y: int, x: int, rng: Rng)
    requires Site(grid, st.cells, y, x) && y + 1 < |grid| && grid[y + 1][x] == Stone
    ensures CellStep(grid, st, y, x, rng).cells[y + 1][x] == st.cells[y + 1][x] ||
            (grid[y][x] == Acid && CellStep(grid, st, y, x, rng).cells[y + 1][x] == Empty)
  {
    CellEffects(grid, st, y, x, rng);
    var r := CellStep(grid, st, y, x, rng).cells;
    assert InBounds(grid, y + 1, x);
    if r[y + 1][x] != st.cells[y + 1][x] {
      assert Allowed(grid, y, x, y + 1, x, r[y + 1][x]);
      assert !Falls(grid, y, x) && !Flammable(Stone);
      FlagsOfMaterials(grid[y][x]);
    }
  }

  /**
   * When the acid does not fall, its chain leaves the acid's own cell as it was
   * or empty (acid may spread away, but corrosion never changes that cell); the
   * cell below is emptied only when it was neither empty nor acid in the
   * original grid.
   */
  lemma CorrosionOnlyBelow(grid: Cells, st: Tick, y: int, x: int, rng: Rng)
    requires Site(grid, st.cells, y, x) && grid[y][x] == Acid && !Falls(grid, y, x)
    ensures CellStep(grid, st, y, x, rng).cells[y][x] == st.cells[y][x] ||
            CellStep(grid, st, y, x, rng).cells[y][x] == Empty
    ensures y + 1 < |grid| && CellStep(grid, st, y, x, rng).cells[y + 1][x] == Empty &&
            st.cells[y + 1][x] != Empty ==>
              grid[y + 1][x] != Empty && grid[y + 1][x] != Acid
  {
    CellEffects(grid, st, y, x, rng);
    assert InBounds(grid, y, x);
    if y + 1 < |grid| {
      assert InBounds(grid, y + 1, x);
    }
  }

  // ------------------------------------------------------ a whole tick

  /** Some non-empty cell of the original grid, in whose rules' footprint `v` at (i, j) lies. */
  ghost predicate WrittenBy(grid: Cells, i: int, j: int, v: MaterialType)
    requires Rectangular(grid) && InBounds(grid, i, j)
  {
    exists y, x {:trigger Allowed(grid, y, x, i, j, v)} ::
      0 <= y < |grid| && 0 <= x < Width(grid) && grid[y][x] != Empty && Allowed(grid, y, x, i, j, v)
  }

  ghost predicate ExplainedAt(grid: Cells, c: Cells, i: int, j: int)
    requires Rectangular(grid) && SameShape(c, grid) && InBounds(grid, i, j)
  {
    c[i][j] == grid[i][j] || WrittenBy(grid, i, j, c[i][j])
  }

  /** Every cell of `c` holds its original value or one some non-empty cell's rules may write there. */
  ghost predicate Explained(grid: Cells, c: Cells)
    requires Rectangular(grid) && SameShape(c, grid)
  {
    forall i, j {:trigger ExplainedAt(grid, c, i, j)} :: InBounds(grid, i, j) ==> ExplainedAt(grid, c, i, j)
  }

  lemma CellKeepsExplained(grid: Cells, st: Tick, y: int, x: int, rng: Rng)
    requires Site(grid, st.cells, y, x) && Explained(grid, st.cells)
    ensures Explained(grid, CellStep(grid, st, y, x, rng).cells)
  {
    var r := CellStep(grid, st, y, x, rng);
    if grid[y][x] != Empty {
      CellEffects(grid, st, y, x, rng);
      forall i, j | InBounds(grid, i, j)
        ensures ExplainedAt(grid, r.cells, i, j)
      {
        if r.cells[i][j] != st.cells[i][j] {
          assert Allowed(grid, y, x, i, j, r.cells[i][j]);
        } else {
          assert ExplainedAt(grid, st.cells, i, j);
        }
      }
    }
  }

  lemma {:induction false} RowKeepsExplained(grid: Cells, st: Tick, y: int, x: int, rng: Rng)
    requires Rectangular(grid) && SameShape(st.cells, grid) && 0 <= y < |grid| && 0 <= x <= Width(grid)
    requires Explained(grid, st.cells)
    ensures Explained(grid, RowFrom(grid, st, y, x, rng).cells)
    decreases Width(grid) - x
  {
    if x < Width(grid) {
      var right := RowFrom(grid, st, y, x + 1, rng);
      RowKeepsExplained(grid, st, y, x + 1, rng);
      CellKeepsExplained(grid, right, y, x, rng);
      assert RowFrom(grid, st, y, x, rng) == CellStep(grid, right, y, x, rng);
    }
  }

  lemma NextRowKeepsExplained(grid: Cells, below: Tick, r: Tick, y: int, rng: Rng)
    requires Rectangular(grid) && SameShape(below.cells, grid) && 0 <= y < |grid|
    requires Explained(grid, below.cells) && r == RowFrom(grid, below, y, 0, rng)
    ensures Explained(grid, r.cells)
  {
    RowKeepsExplained(grid, below, y, 0, rng);
  }

  lemma {:induction false} RowsKeepExplained(grid: Cells, y: int, rng: Rng)
    requires Rectangular(grid) && 0 <= y <= |grid|
    ensures Explained(grid, RowsFrom(grid, Tick(grid, 0), y, rng).cells)
    decreases |grid| - y
  {
    if y < |grid| {
      RowsKeepExplained(grid, y + 1, rng);
      NextRowKeepsExplained(grid, RowsFrom(grid, Tick(grid, 0), y + 1, rng), RowsFrom(grid, Tick(grid, 0), y, rng), y, rng);
    } else {
      assert RowsFrom(grid, Tick(grid, 0), y, rng) == Tick(grid, 0);
    }
  }

  /** Every cell changed by a tick was lastly written by some non-empty cell under one of its rules. */
  lemma StepExplained(grid: Cells, rng: Rng)
    requires Rectangular(grid) && |grid| >= 1
    ensures Explained(grid, Step(grid, rng).cells)
  {
    RowsKeepExplained(grid, 0, rng);
  }

  /** Some non-empty cell of the original grid lies in the 3x3 neighbourhood of (i, j). */
  ghost predicate NearNonEmpty(grid: Cells, i: int, j: int)
    requires Rectangular(grid)
  {
    exists y, x :: 0 <= y < |grid| && 0 <= x < Width(grid) && grid[y][x] != Empty &&
                   i - 1 <= y <= i + 1 && j - 1 <= x <= j + 1
  }

  /**
   * The values a tick may leave in (i, j): empty, fire, smoke, the original
   * material of the cell below, or that of one of the three cells above.
   */
  predicate Produced(grid: Cells, i: int, j: int, v: MaterialType)
    requires Rectangular(grid) && InBounds(grid, i, j)
  {
    v == Empty || v == Fire || v == Smoke ||
    (i + 1 < |grid| && v == grid[i + 1][j]) ||
    (0 < i && ((0 < j && v == grid[i - 1][j - 1]) || v == grid[i - 1][j] ||
               (j + 1 < Width(grid) && v == grid[i - 1][j + 1])))
  }

  lemma AllowedIsLocal(grid: Cells, y: int, x: int, i: int, j: int, v: MaterialType)
    requires Rectangular(grid) && 0 <= y < |grid| && 0 <= x < Width(grid) && InBounds(grid, i, j)
    requires Allowed(grid, y, x, i, j, v)
    ensures i - 1 <= y <= i + 1 && j - 1 <= x <= j + 1
    ensures Produced(grid, i, j, v)
  {
  }

  /**
   * Locality of a tick: every cell whose value changed lies in the 3x3
   * neighbourhood of a non-empty cell of the input, and holds empty, fire,
   * smoke, or material that moved there by one row.
   */
  lemma StepLocality(grid: Cells, rng: Rng)
    requires Rectangular(grid) && |grid| >= 1
    ensures forall i, j :: InBounds(grid, i, j) && Step(grid, rng).cells[i][j] != grid[i][j] ==>
              NearNonEmpty(grid, i, j) && Produced(grid, i, j, Step(grid, rng).cells[i][j])
  {
    var out := Step(grid, rng).cells;
    StepExplained(grid, rng);
    forall i, j | InBounds(grid, i, j) && out[i][j] != grid[i][j]
      ensures NearNonEmpty(grid, i, j) && Produced(grid, i, j, out[i][j])
    {
      assert ExplainedAt(grid, out, i, j);
      var y, x :| 0 <= y < |grid| && 0 <= x < Width(grid) && grid[y][x] != Empty &&
                  Allowed(grid, y, x, i, j, out[i][j]);
      AllowedIsLocal(grid, y, x, i, j, out[i][j]);
    }
  }

  // ------------------------------------------------------ inert grids

  lemma {:induction false} EmptyRowInert(grid: Cells, st: Tick, y: int, x: int, rng: Rng)
    requires Rectangular(grid) && AllEmpty(grid) && SameShape(st.cells, grid)
    requires 0 <= y < |grid| && 0 <= x <= Width(grid)
    ensures RowFrom(grid, st, y, x, rng) == st
    decreases Width(grid) - x
  {
    if x < Width(grid) {
      EmptyRowInert(grid, st, y, x + 1, rng);
    }
  }

  lemma {:induction false} EmptyRowsInert(grid: Cells, st: Tick, y: int, rng: Rng)
    requires Rectangular(grid) && AllEmpty(grid) && SameShape(st.cells, grid) && 0 <= y <= |grid|
    ensures RowsFrom(grid, st, y, rng) == st
    decreases |grid| - y
  {
    if y < |grid| {
      EmptyRowsInert(grid, st, y + 1, rng);
      EmptyRowInert(grid, st, y, 0, rng);
    }
  }

  /** An all-empty grid is returned unchanged, whatever the draws, and consumes none of them. */
  lemma EmptyGridUnchanged(grid: Cells, rng: Rng)
    requires Rectangular(grid) && |grid| >= 1 && AllEmpty(grid)
    ensures Step(grid, rng) == Tick(grid, 0)
  {
    EmptyRowsInert(grid, Tick(grid, 0), 0, rng);
  }

  /** A freshly initialised grid is a fixed point of a tick. */
  lemma InitialGridUnchanged(width: nat, height: nat, rng: Rng)
    requires height >= 1
    ensures Step(InitializeGrid(width, height), rng) == Tick(InitializeGrid(width, height), 0)
  {
    EmptyGridUnchanged(InitializeGrid(width, height), rng);
  }
}
