# Falling-sand rule engine

A model of `materials.ts`, the core of a grid-based falling-sand automaton.

A grid is a list of rows, top to bottom. Each cell holds one of ten materials:
empty, sand, water, stone, wood, fire, smoke, oil, acid or lava. A fixed
property table gives each material:

- a density;
- four flags: flammable, spreads, evaporates and corrosive.

One tick (`updateGrid`) clones the grid into a new buffer. It then scans the
cells bottom to top and, within a row, right to left. Every neighbour test reads
the original grid and every write goes to the new buffer, so the last write
wins. Each non-empty cell runs this rule chain:

1. It falls, swapping with the cell below, and ends its chain.
2. If the fall is blocked, a spreading material slides into an empty
   diagonal-below cell. One draw picks which side is tried first.
3. Fire and smoke evaporate.
4. Acid corrodes the cell below it.
5. Fire ignites flammable cells in its 3x3 neighbourhood and makes smoke above
   itself.

The project has six modules:

- `Materials` (`materials.dfy`): the enumeration and the total property table
  `Lookup`. The table is assembled from its physical columns (density and
  flags) and its display columns (name and colour).
- `Grid` (`grid.dfy`): grids as values, single-cell update, and
  `initializeGrid`.
- `Rules` (`rules.dfy`): one tick as a value-level specification.
  - One function per rule, chained by `CellStep`.
  - `RowFrom` and `RowsFrom` give the scan order.
  - `Step` is the whole tick.
  - Randomness is an injected stream `rng: nat -> real`, and `rng(k)` is the
    value of the k-th call to the random source. A `Tick` carries the output
    buffer and the index of the next unused draw, so a tick is a deterministic
    function of the grid and the stream.
- `Effects` (`effects.dfy`): what a tick can do. This covers:
  - the write footprint of each rule;
  - locality of the whole tick;
  - the rule-level facts about falling, stone, light materials and corrosion;
  - the fact that the empty grid is a fixed point.
- `Update` (`update.dfy`): the tick as the program runs it.
  - The input grid is only read.
  - A fresh `array2` is cloned from it and patched in place by the nested scan
    loops, the spreading loop with its `break` and the 3x3 fire loop.
  - The draw index is threaded through all of them.
  - Every method is proved to compute the `Rules` specification, and every
    index it uses is in bounds.
- `Examples` (`examples.dfy`): complete outcomes of single ticks on small grids.

Three consequences of the code are worth stating, because a reader might
expect otherwise:

- **Oil is flammable** (materials.ts:67), as well as wood.
- **Stone over sand.** In the grid `[stone, sand, empty]` (top to bottom), the
  sand's fall is written first. The stone then reads the original grid, still
  sees sand below it, and swaps with that sand. The result is
  `[sand, stone, sand]`, not `[empty, stone, sand]`: the sand is duplicated
  (`Examples.StoneOverSandDuplicatesSand`).
- **Water on stone.** Spreading only ever moves a cell to a diagonal-below
  cell, so water resting on a full stone row never moves sideways
  (`Examples.WaterOnStoneStays`).

## Model

| member | source | states |
|---|---|---|
| Materials.Lookup | materials.ts:23-83 | The table is total over the ten materials. Each entry's density and flags are the ones the rules consult, and each has a non-empty name and a colour of seven characters: `#` followed by six lower-case hexadecimal digits. Which materials carry which flags and densities is stated by the next two rows. |
| Materials.FlagsOfMaterials | materials.ts:13-83 | Exactly wood and oil are flammable. Exactly water, oil, acid and lava spread. Exactly fire and smoke evaporate. Only acid is corrosive. |
| Materials.DensityOfMaterials | materials.ts:23-83 | Only empty, fire and smoke have density at most zero. No material is denser than stone, and only stone is as dense. |
| Grid.InitializeGrid | materials.ts:85-89 | The result has exactly `height` rows of `width` cells each, so it is rectangular, and every cell is empty. |
| Rules.Falls | materials.ts:105-107 | A cell falls exactly when it is not on the last row, has positive density, is strictly denser than the original cell below, and that cell is not stone. The test for an empty cell below is subsumed, since empty has density zero. |
| Rules.FallStep | materials.ts:105-110 | The cell and the one below it are swapped in the output, every other cell is untouched, and no draw is consumed. |
| Rules.SpreadStep | materials.ts:113-123 | If the spreading branch is not reached, nothing changes and nothing is drawn. Otherwise one draw is consumed. Then the cell moves to an open diagonal-below cell on the left or on the right, or, when neither diagonal is open, nothing changes. |
| Rules.SpreadOutcome | materials.ts:114-121 | With a draw below 0.5 the left diagonal is tried first and the right one second; otherwise the right first and the left second. The first open one receives the cell, and the cell is unchanged when neither is open. |
| Rules.EvaporateStep | materials.ts:126-129 | A draw is consumed exactly when the material evaporates. The only possible change is the cell itself becoming empty. |
| Rules.EvaporateOutcome | materials.ts:126-129 | The cell becomes empty exactly when its material evaporates and its draw is below 0.1. In every other case the buffer is unchanged. |
| Rules.CorrodeStep | materials.ts:131-136 | A draw is consumed exactly when the cell is corrosive and the original cell below is neither empty nor acid. The only possible change is the cell below becoming empty. |
| Rules.CorrodeOutcome | materials.ts:131-136 | The cell below becomes empty exactly when the corrosion guard holds and the draw is below 0.1. In every other case the buffer is unchanged. |
| Rules.IgniteAt | materials.ts:145-152 | A draw is consumed exactly when the neighbour is in bounds and flammable. The only possible change is that neighbour becoming fire. |
| Rules.IgniteOutcome | materials.ts:145-152 | A neighbour becomes fire exactly when it is in bounds, was flammable in the original grid, and its draw is below 0.1. In every other case the buffer is unchanged. |
| Rules.IgniteUpTo | materials.ts:139-155 | The scan of the nine offsets, rows outer and columns inner, consumes one draw per flammable in-bounds neighbour visited. |
| Rules.IgniteUpToWrites | materials.ts:139-155 | Every cell the scan changes becomes fire, was flammable in the original grid, and lies in the 3x3 neighbourhood of the fire. |
| Rules.SmokeStep | materials.ts:157-160 | A draw is consumed exactly when the cell above exists and was originally empty. The only possible change is that cell becoming smoke. |
| Rules.SmokeOutcome | materials.ts:157-160 | The cell above becomes smoke exactly when it exists, was originally empty, and the draw is below 0.2. In every other case the buffer is unchanged. |
| Rules.DrawCount | materials.ts:99-161 | A cell consumes at most 10 draws, and none when it is empty or falls. The count depends on the original grid alone. |
| Rules.CellStep | materials.ts:99-161 | One cell's rule chain keeps the buffer's shape. What it may write is stated by `Effects.CellEffects` and how many draws it uses by `Rules.CellStepDraws`. |
| Rules.CellStepDraws | materials.ts:99-161 | One cell's rule chain consumes exactly `DrawCount` draws for that cell, whatever values are drawn. |
| Rules.RowFrom | materials.ts:98-161 | The right-to-left scan of one row from a given column keeps the buffer's shape. Its effects and draws are stated by `Effects.RowKeepsExplained` and `Rules.RowFromDraws`. |
| Rules.RowFromDraws | materials.ts:98-161 | Scanning a row right to left from a column consumes exactly the draws of the cells scanned. |
| Rules.RowsFrom | materials.ts:97-163 | The bottom-to-top scan of the rows from a given row keeps the buffer's shape. Its effects and draws are stated by `Effects.RowsKeepExplained` and `Rules.RowsFromDraws`. |
| Rules.RowsFromDraws | materials.ts:97-163 | Scanning the rows bottom to top from the start of a tick consumes exactly the draws of the rows scanned. |
| Rules.Step | materials.ts:91-166 | A tick returns a grid with the same number of rows as the input, each of the same length. |
| Rules.StepDraws | materials.ts:91-166 | The number of draws a tick consumes is fixed by the input grid alone, whatever values are drawn. |
| Effects.SpreadExplained | materials.ts:113-123 | Every cell that spreading changes receives one of the writes `Allowed` grants this cell. The rule's own footprint, a move into an open diagonal-below cell, is stated by `Rules.SpreadStep` and `Rules.SpreadOutcome`. |
| Effects.EvaporateExplained | materials.ts:127-129 | Every cell that evaporation changes receives one of the writes `Allowed` grants this cell. The rule's own footprint, the cell itself becoming empty, is stated by `Rules.EvaporateStep` and `Rules.EvaporateOutcome`. |
| Effects.CorrodeExplained | materials.ts:131-136 | Every cell that corrosion changes receives one of the writes `Allowed` grants this cell. The rule's own footprint, the cell below becoming empty, is stated by `Rules.CorrodeStep` and `Rules.CorrodeOutcome`. |
| Effects.IgniteExplained | materials.ts:139-155 | A fire never falls, and every cell its 3x3 scan changes receives one of the writes `Allowed` grants this cell. The scan's own footprint, fire onto originally flammable neighbours, is stated by `Rules.IgniteUpToWrites`. |
| Effects.SmokeExplained | materials.ts:157-160 | Every cell that a fire's smoke rule changes receives one of the writes `Allowed` grants this cell. The rule's own footprint, smoke into the originally empty cell above, is stated by `Rules.SmokeStep` and `Rules.SmokeOutcome`. |
| Effects.CellEffects | materials.ts:99-161 | Every cell changed by one cell's rule chain is changed by one of the rules, under that rule's guard, with that rule's value. |
| Effects.FallShortCircuit | materials.ts:105-111 | When the fall guard holds, the cell's chain is the swap alone: no other cell is touched and no draw is consumed. |
| Effects.FallBlocked | materials.ts:105-107 | A stone below, or a non-empty cell below of equal or greater density, blocks the fall. |
| Effects.LightCellsStay | materials.ts:105-161 | Empty, fire and smoke neither fall nor spread. The only change they make to the row below is fire set onto a flammable cell, and their own cell can only become empty. |
| Effects.StoneIsAFloor | materials.ts:105-136 | The cell above a stone never moves into it. Only acid above the stone can change it, and only to empty. |
| Effects.CorrosionOnlyBelow | materials.ts:113-136 | When the acid does not fall, its chain leaves the acid's own cell as it was or empty (spreading may empty it; corrosion never touches it), and when the cell below becomes empty, that cell was originally neither empty nor acid. A falling acid is covered by `Effects.FallShortCircuit`. |
| Effects.AllowedIsLocal | materials.ts:104-161 | Every write a cell's rules allow lands in the cell's 3x3 neighbourhood. Its value is empty, fire, smoke, the original material of the cell below (the swap of a fall moves it up one row), or that of one of the three cells above (a fall or a spread moves it down one row). |
| Effects.CellKeepsExplained | materials.ts:99-161 | One cell's chain preserves the invariant that each cell of the buffer is original or was written by some non-empty cell under its rules. |
| Effects.RowKeepsExplained | materials.ts:98-161 | Scanning a row preserves the same invariant. |
| Effects.RowsKeepExplained | materials.ts:97-163 | Scanning the rows preserves the same invariant. |
| Effects.StepExplained | materials.ts:91-166 | After a tick, every changed cell holds a value that some non-empty input cell's rules may write there. |
| Effects.StepLocality | materials.ts:91-166 | Every cell changed by a tick lies in the 3x3 neighbourhood of a non-empty input cell. It holds empty, fire, smoke, the original material below it, or that of one of the three cells above it. |
| Effects.EmptyRowInert | materials.ts:98-100 | On an all-empty grid, scanning a row changes nothing and draws nothing. |
| Effects.EmptyRowsInert | materials.ts:97-100 | On an all-empty grid, scanning the rows changes nothing and draws nothing. |
| Effects.EmptyGridUnchanged | materials.ts:91-100 | An all-empty grid is returned unchanged, whatever the draws, and no draw is consumed. |
| Effects.InitialGridUnchanged | materials.ts:85-100 | A freshly initialised grid of height at least one is a fixed point of a tick. |
| Update.Write | materials.ts:108-109 | A single write to the buffer changes exactly that cell and keeps the ghost view in step. |
| Update.UpdateCell | materials.ts:99-161 | The loop body for one cell, with `continue` as an early return, computes exactly `CellStep` on the buffer and the draw index. |
| Update.SpreadDiagonally | materials.ts:113-123 | The directions loop with its `break` computes exactly `SpreadStep`. |
| Update.Evaporate | materials.ts:127-129 | It computes exactly `EvaporateStep`. |
| Update.CorrodeBelow | materials.ts:131-136 | It computes exactly `CorrodeStep`. |
| Update.Kindle | materials.ts:145-152 | One neighbour of the fire scan computes exactly `IgniteAt`, with its bounds test guarding the grid read. |
| Update.IgniteNeighbours | materials.ts:141-155 | The `dy`/`dx` double loop computes exactly the nine-offset scan `IgniteUpTo`. |
| Update.Burn | materials.ts:139-161 | The fire block computes the 3x3 scan followed by the smoke rule. |
| Update.UpdateRow | materials.ts:98-161 | The column loop of one row, right to left, computes exactly `RowFrom` from the last column on. |
| Update.CloneGrid | materials.ts:94 | The copy of the grid is a fresh buffer of the grid's height and width holding exactly its cells. |
| Update.UpdateGrid | materials.ts:91-166 | It returns a fresh buffer with the input's height and width holding exactly the cells of `Step`, and uses exactly `Step`'s number of draws. Every array and sequence index is in bounds, and the input is only read. |
| Examples.SandFallsOntoStone | materials.ts:104-111 | `[sand, empty, stone]` becomes `[empty, sand, stone]` with no draws. |
| Examples.StoneOverSandDuplicatesSand | materials.ts:97-111 | `[stone, sand, empty]` becomes `[sand, stone, sand]` with no draws. |
| Examples.WaterOnStoneStays | materials.ts:105-123 | Water on a full stone row is unchanged after one draw. |
| Examples.ScanBesideWood | materials.ts:141-155 | For fire beside wood in one row, the 3x3 scan reduces to the single draw for the wood. |
| Examples.WaterOverwritesOil | materials.ts:97-123 | `[water, empty, oil]` over `[stone, empty, stone]`, scanned right to left, ends with all of the top row empty and water in the gap: the oil slides in first and the water's later write destroys it. Two draws are used whatever their values. |
| Examples.FireIgnitesWood | materials.ts:126-160 | For `[fire, wood]` with both draws below 0.1, the fire evaporates, the wood ignites, and two draws are used. |
| Examples.FireSparesWood | materials.ts:126-160 | For `[fire, wood]` with both draws at 0.1 or above, nothing changes and the same two draws are used. |

## Left out

- `Math.random()` is not modelled. It is replaced by the injected stream
  `rng`, and each call site reads `rng` at the current draw index.
- Statistical claims, such as the evaporation rate approaching 0.1, are left
  out. They are about distributions over many runs, not about one tick.
- Mass conservation is not claimed. Last-write-wins can duplicate or destroy
  material within a tick, and the model keeps that behaviour
  (`Examples.StoneOverSandDuplicatesSand`).
- The `name` and `color` strings are kept in the table. Only their form is
  stated (a non-empty name; a colour of `#` and six lower-case hexadecimal digits), since they are display data.
- IEEE floating point is not modelled. Densities and thresholds are exact
  reals, and the code only compares them with `<` and `> 0`.
- A grid of height 0 is excluded by precondition. The code crashes reading the
  first row's length.
- Non-rectangular grids are excluded by precondition. The code takes every
  row's width from the first row.
- Rendering, user input and the animation loop are not modelled. They are not
  in this file.
- Effects.FallShortCircuit, Effects.LightCellsStay, Effects.StoneIsAFloor and
  Effects.CorrosionOnlyBelow are stated for the cell's own rule chain
  (`CellStep`), not for the final grid. A later cell in the scan may overwrite
  those writes. `Effects.StepLocality` is the whole-tick statement.
- Effects.SpreadExplained: states only that spreading's writes are among the
  cell's `Allowed` writes, the form `Effects.CellEffects` combines. The exact
  footprint is stated once, by `Rules.SpreadStep` and `Rules.SpreadOutcome`.
- Effects.EvaporateExplained: states only membership in `Allowed`, for the same
  reason. The exact footprint is `Rules.EvaporateStep` and
  `Rules.EvaporateOutcome`.
- Effects.CorrodeExplained: states only membership in `Allowed`, for the same
  reason. The exact footprint is `Rules.CorrodeStep` and `Rules.CorrodeOutcome`.
- Effects.IgniteExplained: states only membership in `Allowed` (and that a fire
  never falls), for the same reason. The exact footprint is
  `Rules.IgniteUpToWrites`.
- Effects.SmokeExplained: states only membership in `Allowed`, for the same
  reason. The exact footprint is `Rules.SmokeStep` and `Rules.SmokeOutcome`.
