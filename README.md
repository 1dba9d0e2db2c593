# Verified model of the grid-simulation prototypes

This project is a Dafny model of the non-graphical logic of three small
browser prototypes. It proves properties of that model.

- **The Life cell** (`src/cell.ts`), module `LifeCell` in `cell.dfy`.
  A `Cell` holds an `active` flag and a list of neighbor slots. A slot
  holds another cell or nothing (`undefined`). `step` counts the active
  neighbors and stops once the count passes four. It then applies
  Conway's rule B3/S23 to its own flag, in place.
- **The bounded grid** (`src/main.ts`), modules `LifeBoard` (`board.dfy`)
  and `LifeGrid` (`grid.dfy`).
  - The construction loops build an r-by-r array `cells[x][y]`.
  - `getCell` looks a cell up and never wraps around.
  - The wiring loop gives each cell its eight slots in the order
    ul, u, ur, ml, mr, bl, b, br.
  - `step` visits every cell once, column by column, and steps it.
  - `LifeGrid.Grid` is a class over the real cells. `LifeBoard` is the
    same grid seen as a value, a board of flags. The methods of `Grid` are
    proved against functions on boards.
- **The streaming world** (`src/main2.ts`), modules `BlockKey`
  (`block_key.dfy`) and `StreamingWorld` (`world.dfy`).
  - `World.generate` walks the `visibleRadius`-square window anchored at
    the world's position.
  - It looks each position up in a map keyed by `` `${posX}-${posY}` ``.
    It creates a block only for a missing key, then moves the block to its
    grid position.
  - The ticker regenerates only when the input position has moved.
  - The arrow keys move the input position by one.

Where the code departs from the usual reading of what it draws, the model follows the code:

- **In-place update.** Conway's Life is usually defined by a synchronous
  update, where every cell's next flag comes from one snapshot of the
  board. The code instead updates each cell in place during a single sweep. Cells visited
  later therefore count neighbors that have already changed.
  - `LifeBoard.Generation` is that sweep, and `LifeGrid.Grid.Step` is
    proved to compute it.
  - `LifeBoard.SweepIsOrderDependent` exhibits a board where the sweep
    and the synchronous rule (`LifeBoard.Synchronous`) differ: a three-cell
    blinker.
- **Anchored window.** The window of blocks is anchored at the world's
  position, not centred on it: it is [x, x + 3) by [y, y + 3), and that is
  what `StreamingWorld.World.Generate` covers.
- **Block coordinates.** A new block is made with pixel coordinates
  (`posX * 64`). `updatePos` overwrites them at once with grid coordinates.
  After `generate`, every block of the window therefore sits at its grid
  position. `StreamingWorld.World.Valid` records that each block's id names
  where it sits.

Randomness becomes parameters:

- the initial `active` flag of each cell is `initial(x, y)`;
- the floored draw behind a block's `mine` flag is `draws(posX, posY)`.

## Model

| member | source | states |
|---|---|---|
| LifeCell.Live | src/cell.ts:64-74 | the number of slots holding an active cell, never more than the number of slots |
| LifeCell.NextState | src/cell.ts:76-93 | an active cell stays active exactly with 2 or 3 active neighbors; an inactive one becomes active exactly with 3 |
| LifeCell.LiveInsert | src/cell.ts:71 | a slot adds one to the count exactly when it holds an active cell; an empty (`undefined`) or inactive slot adds nothing, wherever it sits in the list |
| LifeCell.LiveAppend | src/cell.ts:64-74 | the count of active neighbors over two parts of a list is the sum of their counts |
| LifeCell.CappedCountAgrees | src/cell.ts:67-69 | stopping the count at five gives the same next state as the full count |
| LifeCell.Slots | src/cell.ts:71 | the rule sees, slot by slot, nothing for a missing neighbor and the neighbor's flag otherwise |
| LifeCell.Cell.constructor | src/cell.ts:17-26 | the options are copied, the flag is the given initial value and the neighbor list is empty |
| LifeCell.Cell.SetNeighbors | src/cell.ts:56-58 | the neighbor list is replaced wholesale by the given one; nothing else changes |
| LifeCell.Cell.CountActiveNeighbors | src/cell.ts:62-74 | the counting loop with its early exit returns the true number of active neighbors capped at five |
| LifeCell.Cell.Step | src/cell.ts:60-103 | only the cell's own flag changes, and it becomes the B3/S23 successor under the full count of its neighbors before the call |
| LifeBoard.At | src/main.ts:36-46 | the lookup on flags holds a cell exactly on the grid, with that cell's flag, and nothing off it |
| LifeBoard.Neighborhood | src/main.ts:56-69 | each cell has exactly eight neighbor slots |
| LifeBoard.OffsetsOpposite | src/main.ts:58-69 | slot 7 - k holds the opposite offset of slot k, and no slot is the cell itself |
| LifeBoard.PresentNeighbors | src/main.ts:58-69 | of the eight slots, three hold a cell at a corner, five on the rest of the border, eight inside |
| LifeBoard.UpdateCell | src/main.ts:82-84 | visiting a cell sets its flag to the successor counted on the board as it stands |
| LifeBoard.UpdateCellElsewhere | src/main.ts:82-84 | visiting a cell leaves every other cell's flag as it was |
| LifeBoard.Columns | src/main.ts:76-86 | the board after the first x columns of the in-place sweep, still r-by-r; `LifeBoard.ColumnsCell` says what each cell holds |
| LifeBoard.Cells | src/main.ts:77-85 | the board after the first y cells of column x, still r-by-r; `LifeBoard.CellsCell` says what each cell holds |
| LifeBoard.Generation | src/main.ts:75-87 | one call of `step`: the whole in-place sweep, still r-by-r |
| LifeBoard.ColumnsCell | src/main.ts:76-86 | after the first x columns of the sweep, the cells already visited hold their successor as counted at their turn, and the others still hold their first flag |
| LifeBoard.CellsCell | src/main.ts:77-85 | the same within a column: cells before row y are visited once and never again, and the later ones are untouched |
| LifeBoard.WiringPosition | src/main.ts:53-54 | step i of the wiring loop handles a position on the grid |
| LifeBoard.WiringPositionOnto | src/main.ts:51-54 | every grid position (x, y) is handled, at step y * r + x |
| LifeBoard.WiringPositionInjective | src/main.ts:51-54 | no two steps of the wiring loop handle the same position |
| LifeBoard.SweepIsOrderDependent | src/main.ts:75-87 | on a blinker, cell (1, 0) is born under the snapshot update but not under the in-place sweep that `step` performs |
| LifeGrid.Grid.Get | src/main.ts:36-46 | the lookup returns the cell at (x, y) on the grid and nothing off it, with no wrap-around |
| LifeGrid.Grid.NeighborCells | src/main.ts:56-69 | the list built for a cell has eight slots |
| LifeGrid.Grid.NeighborList | src/main.ts:58-69 | the slots are the lookups at ul, u, ur, ml, mr, bl, b, br, in that order |
| LifeGrid.Grid.constructor | src/main.ts:19-34 | r columns of r distinct fresh cells, each with its initial flag and an empty neighbor list |
| LifeGrid.Grid.WireNeighbors | src/main.ts:51-73 | after the wiring loop, every cell holds the eight-slot list of its own position |
| LifeGrid.Grid.NeighborSlots | src/main.ts:56-71 | a wired cell's list shows the rule exactly the neighborhood of its position on the board |
| LifeGrid.Grid.NeighborCount | src/main.ts:36-69 | a wired cell has eight slots, of which three, five or eight hold a cell (corner, border, inside) |
| LifeGrid.Grid.NeighborSymmetric | src/main.ts:58-69 | if slot k of a cell holds another cell, slot 7 - k of that cell holds the first one, and no cell is its own neighbor |
| LifeGrid.Grid.StepCell | src/main.ts:82-84 | stepping one cell in place turns the grid's board into that board with only that cell updated; the wiring is untouched |
| LifeGrid.Grid.StepColumn | src/main.ts:77-86 | the inner loop turns the sweep's board after x columns into the board after x + 1 columns |
| LifeGrid.Grid.Step | src/main.ts:75-87 | the new board is the in-place sweep of the old one, and the wiring is untouched |
| BlockKey.NatToDecimal | src/main2.ts:98 | a coordinate prints as decimal digits with no leading zero |
| BlockKey.IntToDecimal | src/main2.ts:98 | a coordinate prints with a leading '-' exactly when it is negative, and with no other '-' |
| BlockKey.BlockId | src/main2.ts:98 | the id `${posX}-${posY}`: two numerals around a '-', so at least three characters; `BlockKey.BlockIdRoundTrip` reads it back |
| BlockKey.NatRoundTrip | src/main2.ts:98 | reading back a printed natural gives the number |
| BlockKey.IntRoundTrip | src/main2.ts:98 | reading back a printed integer gives the number |
| BlockKey.BlockIdRoundTrip | src/main2.ts:98 | reading back a block id gives the position it was made for |
| BlockKey.BlockIdInjective | src/main2.ts:98 | two positions share an id exactly when they are the same position |
| StreamingWorld.ColumnKeys | src/main2.ts:93-98 | the ids of the first n rows of one column of the window |
| StreamingWorld.WindowKeys | src/main2.ts:92-98 | the ids of the first m columns of the window, one column after another as the outer loop runs |
| StreamingWorld.Window | src/main2.ts:92-98 | the ids of the whole r-by-r window anchored at (x, y); `StreamingWorld.WindowCovers`, `WindowKeysNamed` and `WindowKeysSize` say which they are |
| StreamingWorld.WindowCovers | src/main2.ts:92-98 | the window's id set holds the id of each of its positions |
| StreamingWorld.WindowKeysNamed | src/main2.ts:92-98 | every id in the window's id set names a position of the window |
| StreamingWorld.WindowKeysSize | src/main2.ts:92-98 | an r-by-r window has exactly r * r distinct ids |
| StreamingWorld.WindowGrowth | src/main2.ts:100-116 | the map grows by exactly the window ids it did not hold, so by at most r * r |
| StreamingWorld.IsMine | src/main2.ts:21 | a block is a mine exactly when its floored draw out of twenty is 1 |
| StreamingWorld.Block.constructor | src/main2.ts:21-34 | a block copies its options, and its mine flag is fixed by its draw |
| StreamingWorld.Block.UpdatePos | src/main2.ts:58-61 | moves the block to the given coordinates; nothing else changes, the mine flag included |
| StreamingWorld.World.constructor | src/main2.ts:78-88 | a world starts valid, with no blocks, radius 3 and the given position |
| StreamingWorld.World.HeldWindowPlaced | src/main2.ts:98-118 | in a valid world every block of a window it holds sits at its own position |
| StreamingWorld.World.Visit | src/main2.ts:95-118 | one position: the id is added if missing, and only a missing id gets a new block; existing blocks are kept unchanged; the block ends at that position |
| StreamingWorld.World.VisitColumn | src/main2.ts:93-119 | one column of the window: its ids are added, old entries are kept, new blocks are fresh and made from their draws |
| StreamingWorld.World.Generate | src/main2.ts:90-123 | the keys become the old keys plus the window's ids. Old entries keep the same unchanged block. New blocks are fresh, sized 64, with the mine of their draw. Every window block sits at its position. A second call at the same position changes nothing |
| StreamingWorld.World.Tick | src/main2.ts:177-181 | the world takes the input position; it regenerates only when that position moved, and otherwise the map is untouched; blocks it adds are fresh and made from their draws |
| StreamingWorld.Start | src/main2.ts:135-172 | the first world sits at (0, 0) and holds exactly the nine blocks of its window, each fresh, made from its draw and placed at its position |
| StreamingWorld.KeyDelta | src/main2.ts:153-167 | each arrow key moves one step on one axis (right +x, left -x, up -y, down +y), and every other key none |
| StreamingWorld.Input.constructor | src/main2.ts:135-136 | the input position starts at (0, 0) |
| StreamingWorld.Input.KeyDown | src/main2.ts:150-170 | the listener adds the key's step to the input position |

## Left out

- Rendering is not modelled: `draw`, PIXI graphics and sprites, `Block.create`, texture loading, `hide`/`show`/`destroy`, adding children to containers, and application and canvas setup. These are calls into a drawing library with no logic to check.
- Pixel layout is not modelled: the container offsets at src/main2.ts:143-144 and 183-184. Note that line 143 subtracts `x` where line 183 subtracts `x * blockSize`; the two agree only because `x` is 0 at line 143.
- The cells' screen geometry (`vWidth / r`) uses exact real division here, where JavaScript uses floating point; the rule never reads it.
- The `pointerover`/`pointerout` handlers of src/cell.ts:30-42 are left out. They are user-interface callbacks.
- Randomness is not modelled. `Math.random()` for a cell's flag becomes the parameter `initial`, and the draw behind a block's `mine` flag becomes the parameter `draws`.
- Asynchrony is left out. `generate` awaits `create` before inserting a block, and the ticker's async callbacks can overlap. The model runs each `generate` to completion, sequentially, with no overlap.
- Event plumbing is left out: the animation-frame loop, ticker control, listener registration and `preventDefault`. Only the effect of a key or a tick is modelled.
- BlockKey.IntToDecimal: prints integers as JavaScript does only below 10^21 in magnitude, where JavaScript switches to exponent notation. Positions are also unbounded integers rather than doubles exact up to 2^53. Both bounds are far beyond positions reached one key press at a time.
- StreamingWorld.World.Tick: takes the input position as parameters rather than reading the closure's variables.
