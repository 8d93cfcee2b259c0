# SandBlast board engine in Dafny

This project models the sand board of SandBlastCopy, a falling-block game in
which every landed block dissolves into grains of sand.

- A block is one of seven tetromino templates, blown up by a scale factor into
  a mask of grains, in one of four colours.
- When it lands, its grains are written ("sandified") onto a width x height
  board of materials. Row 0 is the top row.
- The board then runs its physics loop:
  - Gravity steps move each grain one row down, straight down when possible,
    otherwise diagonally.
  - When nothing moves any more, a clearing pass removes every same-colour
    4-connected group that reaches both the left and the right wall.
  - The loop repeats until a settled board has nothing to clear.

The model has a layer of values and a layer of objects:

- `GridModel.Grid` is the board as a value. `Get` returns Empty off the board,
  and `Set` off the board changes nothing.
- `Gravity` defines one gravity step as a function on that value (`Step`,
  built from `Decide` and `Apply` per cell). It also proves:
  - mass conservation;
  - that each step lowers a height potential (`Weight`);
  - that a step moves something iff the board changes, iff some grain can move;
  - that every grain moves at most one row per step, and never out of the
    bottom row.
- `Clearing` defines what a clearing pass removes, with no search in it:
  - `Component` is the set of cells reachable through same-colour edge
    neighbours.
  - `Cleared` is every grain whose component touches column 0 and column
    width - 1.
- `Physics` defines the whole physics run as a value, `Settle`. It proves:
  - that the run terminates, because each round lowers the height potential;
  - that it ends on a board where nothing can move and nothing spans;
  - that the grains left plus the grains of every reported clear are the
    grains it started with, and that every reported clear is non-empty.
- `SandBoard.Board` is the board as an object over an `array2`:
  - `UpdateStep`, `ClearSand` and `FindConnectedGroup` are loops proved
    against the `Gravity` and `Clearing` functions.
  - The physics loop is proved against `Settle`: it leaves the board `Settle`
    computes and reports exactly its clears, in order.
- `Blocks` covers blocks:
  - template scaling: `Scale`, with its per-entry meaning, dimensions and
    k*k grain count, and `CreateScaledMatrix` over an `array2`;
  - stamping onto the board: `Stamp`, `Block.Sandify`;
  - `Block.Initialize`.
- `Game` covers the game manager's rules:
  - the placement test `CanPlaceBlockAt`, characterised exactly;
  - spawning a block;
  - the consequence of the shipped constants: no scaled shape fits on the
    board anywhere (see Findings).

The board size and the scale factor are parameters throughout. The shipped
values (10 x 20, scale 7) appear only in `Constants` and in the lemmas about
the shipped catalog. The random choices become parameters:
- the diagonal tie-break `Random.Range(0, 2)` becomes `pickLeft(x, y)`, or
  `pickLeft(n, x, y)` in the physics loop, where n counts the gravity steps
  of the run that moved something;
- the spawn rolls become the arguments of `SpawnNewBlock`.

Two consequences of the code that the model keeps:

- Placement and stamping clip to the board. On the 10-column board an I block
  stamped at (0, 0) occupies 7 rows x 10 columns.
- Non-positive board dimensions and ragged templates are not rejected. The
  model accepts any dimensions, and requires rectangular templates only where
  an `int[,]` is.

## Model

| member | source | states |
|---|---|---|
| Constants.FromOrdinal | Assets/Scripts/Utils/Constants.cs:19-26 | the enum cast of 0..4 yields the member with that value; Empty is exactly value 0 |
| Constants.OrdinalRoundTrip | Assets/Scripts/Utils/Constants.cs:19-26 | casting an enum member to its value and back gives the member again |
| Constants.TetrisShapes | Assets/Scripts/Utils/Constants.cs:29-71 | the catalog has 7 templates, each a rectangular 0/1 mask with 4 occupied cells, at most 4 x 4, occupied in its first and last column |
| Constants.CatalogShape | Assets/Scripts/Utils/Constants.cs:29-71 | every catalog entry is such a tetromino template |
| GridModel.Grid.Get | Assets/Scripts/Core/Board.cs:34-38 | any coordinate off the board reads as Empty |
| GridModel.Grid.Set | Assets/Scripts/Core/Board.cs:40-46 | writing changes exactly the written cell when it is on the board, and nothing at all when it is off |
| GridModel.Blank | Assets/Scripts/Core/Board.cs:13-27 | the board Awake creates has every cell Empty |
| GridModel.SetContents | Assets/Scripts/Core/Board.cs:40-46 | a write swaps one occurrence of the old material for the new one in the board's multiset of materials |
| GridModel.SetWeight | Assets/Scripts/Core/Board.cs:40-46 | a write changes the height potential by the weight of the new cell minus that of the old one |
| SandBoard.Board.constructor | Assets/Scripts/Core/Board.cs:13-27 | the new board is blank and the physics flag is off |
| SandBoard.Board.IsValidPosition | Assets/Scripts/Core/Board.cs:29-32 | true exactly for the cells of the board |
| SandBoard.Board.GetCell | Assets/Scripts/Core/Board.cs:34-38 | the array's material on the board, Empty off it |
| SandBoard.Board.SetCell | Assets/Scripts/Core/Board.cs:40-46 | the new board is the old board with that one cell set, or unchanged if the cell is off the board |
| Gravity.Decide | Assets/Scripts/Core/Board.cs:124-163 | a grain moves iff it can; straight down has priority; the left slide needs only the down-left cell empty, the right slide also needs (x+1, y) empty; pickLeft chooses when both are open; every target is an empty cell one row lower; the bottom row never moves |
| Gravity.MoveContents | Assets/Scripts/Core/Board.cs:128-163 | moving one grain leaves the count of every material unchanged |
| Gravity.MoveWeight | Assets/Scripts/Core/Board.cs:128-163 | moving one grain lowers the height potential by exactly 1 |
| Gravity.StepConservesMaterial | Assets/Scripts/Core/Board.cs:115-168 | a whole gravity step keeps the count of every material (mass conservation) |
| Gravity.StepLowersPotential | Assets/Scripts/Core/Board.cs:115-168 | the height potential drops by exactly the number of moves the step made |
| Gravity.StepMovedIffChanged | Assets/Scripts/Core/Board.cs:115-168 | the step made a move iff the board changed |
| Gravity.StepSettledIff | Assets/Scripts/Core/Board.cs:115-168 | the step made no move iff no grain on the board could move, whatever the random bits |
| Gravity.StepMovesEachGrainOnce | Assets/Scripts/Core/Board.cs:120-122 | every move is a one-row drop to the same or a neighbouring column, from a row above the bottom one; no move starts where an earlier move of the step started or ended |
| SandBoard.Board.UpdateStep | Assets/Scripts/Core/Board.cs:115-168 | the array afterwards is Step of the old board, and the result is true iff Step made a move |
| SandBoard.Board.MoveCell | Assets/Scripts/Core/Board.cs:124-163 | one cell's decision, carried out on the array; reports whether the grain moved |
| SandBoard.Board.MoveGrain | Assets/Scripts/Core/Board.cs:130-131 | the target cell is written before the source is emptied |
| Clearing.DirectionsAreNeighbours | Assets/Scripts/Core/Board.cs:226-229 | the four direction offsets reach exactly the edge neighbours of a cell |
| Clearing.ComponentShared | Assets/Scripts/Core/Board.cs:205-247 | cells of one group have one colour and one and the same group |
| Clearing.ErasePreservesComponent | Assets/Scripts/Core/Board.cs:173-203 | emptying whole groups leaves every other grain and its group as they were, so groups found later in the pass are groups of the original board |
| Clearing.ClearedOccupied | Assets/Scripts/Core/Board.cs:182-197 | a pass only clears cells of the board that hold a grain |
| Clearing.ClearedWholeGroups | Assets/Scripts/Core/Board.cs:189-197 | what a pass clears is a union of whole groups of grains, each touching both walls |
| Clearing.ClearIdempotent | Assets/Scripts/Core/Board.cs:173-203 | after one pass no group spans any more, so a second pass clears nothing |
| SandBoard.Board.FindConnectedGroup | Assets/Scripts/Core/Board.cs:205-247 | the BFS lists exactly the start cell's group, without repeats; it adds exactly those cells to visited; the two flags say whether the group reaches column 0 and column width - 1 |
| SandBoard.Board.EnqueueNeighbours | Assets/Scripts/Core/Board.cs:231-243 | every on-board, unvisited, same-colour edge neighbour is queued once and marked visited; nothing else is queued |
| SandBoard.Board.ClearSand | Assets/Scripts/Core/Board.cs:173-203 | the new board is the old one with exactly the spanning groups emptied; the result lists exactly those cells, each once |
| SandBoard.Board.SweepCell | Assets/Scripts/Core/Board.cs:182-198 | after cell (x, y), visited holds the groups met so far and the list holds the spanning ones among them |
| SandBoard.Board.ClearGroup | Assets/Scripts/Core/Board.cs:192-196 | every cell of the group is emptied and appended, in group order |
| GridModel.EraseGrains | Assets/Scripts/Core/Board.cs:192-196 | emptying a set of grains lowers the grain count by the size of the set and the height potential by at least as much |
| Physics.ClearLowersWeight | Assets/Scripts/Core/Board.cs:91-97 | a clearing pass that removes something lowers the height potential and removes exactly as many grains as it lists |
| Physics.Settle | Assets/Scripts/Core/Board.cs:81-110 | the run, as a value: gravity steps until one moves nothing, then a clearing pass; a pass that clears something is reported and the run goes on, otherwise it ends; the board keeps its size |
| Physics.SettleQuiet | Assets/Scripts/Core/Board.cs:81-110 | the run ends on a board where no grain can move and no group spans the board |
| Physics.SettleGrains | Assets/Scripts/Core/Board.cs:81-110 | the grains left at the end plus the grains of every reported clear are the grains the run started with |
| Physics.SettleClearsNonEmpty | Assets/Scripts/Core/Board.cs:91-97 | every clear the run reports removed at least one cell |
| Physics.SettleWeight | Assets/Scripts/Core/Board.cs:81-110 | the final height potential plus the number of reported clears is at most the starting potential, so the run terminates |
| SandBoard.Board.PhysicsSimulation | Assets/Scripts/Core/Board.cs:81-110 | the loop leaves the board Settle computes from the starting board; it reports exactly Settle's clears, in order, each listing its cells once; the flag is off again |
| SandBoard.Board.StartPhysicsSimulation | Assets/Scripts/Core/Board.cs:73-79 | a start while a run is going changes nothing; otherwise the board ends as Settle computes, with Settle's clears reported, each non-empty and repeat-free, on a board where nothing moves and nothing spans |
| Blocks.Scale | Assets/Scripts/Core/Block.cs:31-52 | a scaled template has rows * k rows (its entries are given by ScaleAt, its grain count by ScaleOnes) |
| Blocks.ScaleAt | Assets/Scripts/Core/Block.cs:41-49 | scaled entry [r][c] is template entry [r / k][c / k] |
| Blocks.ScaleDims | Assets/Scripts/Core/Block.cs:33-39 | a scaled template has rows * k rows of cols * k entries |
| Blocks.ScaleSquare | Assets/Scripts/Core/Block.cs:41-49 | every cell of the k x k square of template cell [b][j] holds that cell's value |
| Blocks.ScaleMask | Assets/Scripts/Core/Block.cs:31-52 | scaling a 0/1 mask gives a 0/1 mask |
| Blocks.ScaleOnes | Assets/Scripts/Core/Block.cs:31-52 | scaling by k multiplies the number of occupied cells by k * k |
| Blocks.CreateScaledMatrix | Assets/Scripts/Core/Block.cs:31-52 | a fresh array of |m| * k by cols * k whose contents are Scale(m, k) |
| Blocks.FillScaledRow | Assets/Scripts/Core/Block.cs:43-48 | fills row r of the scaled array from the template and leaves the other rows alone |
| Blocks.Stamp | Assets/Scripts/Core/Block.cs:81-98 | every board cell under an occupied mask cell gets the colour; occupied cells off the board are skipped; every other cell keeps its material |
| Blocks.Block.Initialize | Assets/Scripts/Core/Block.cs:15-26 | records the shape index and colour; the mask is the catalog template scaled by k |
| Blocks.Block.Sandify | Assets/Scripts/Core/Block.cs:81-102 | the board afterwards is Stamp of the old board with the block's mask, position and colour |
| Game.PlacementScanIff | Assets/Scripts/Core/GameManager.cs:103-128 | the nested scan from mask cell (r, c) succeeds iff every remaining occupied cell lands on the board on an empty cell |
| Game.CanPlaceBlockAt | Assets/Scripts/Core/GameManager.cs:97-129 | placement succeeds iff there is a current block and every occupied cell of its mask lands on the board on an empty cell; with no current block it fails |
| Game.PlacedStampKeepsGrains | Assets/Scripts/Core/GameManager.cs:97-129 | stamping a block where it may be placed overwrites no grain, and every occupied mask cell ends on the board in the block's colour |
| Game.WideShapeNeverFits | Assets/Scripts/Core/GameManager.cs:113-117 | a template occupied in its first and last column, scaled wider than the board, fits nowhere |
| Game.NoShippedShapeFits | Assets/Scripts/Core/GameManager.cs:113-117 | with the shipped width 10 and scale 7, CanPlaceBlockAt is false for every catalog shape at every position |
| Game.ScaledShapeFitsBlank | Assets/Scripts/Core/GameManager.cs:103-128 | on an empty board at least as large as the scaled mask, the block may be placed at the corner |
| Game.ShapesFitGrainBoard | Assets/Scripts/Core/GameManager.cs:113-117 | on an empty board of 70 x 140 grains, every catalog shape may be placed |
| Game.ScaledTetromino | Assets/Scripts/Core/Block.cs:31-52 | a scaled tetromino is a 0/1 mask of k * k * 4 grains, rows * k by cols * k |
| Game.SpawnedBlock | Assets/Scripts/Core/GameManager.cs:158-162 | a colour roll in 1..4 is never Empty, and the spawned mask has k * k * 4 grains |
| Game.SpawnNewBlock | Assets/Scripts/Core/GameManager.cs:150-163 | the new block has the rolled shape index and colour, that colour is not Empty, and its mask is the scaled catalog template |

## Left out

- Rendering is not modelled: `visualBoard`, `UpdateVisualCell`, the particle
  prefabs, `CreateSandParticles` and `Destroy`. These objects never affect the
  material array.
- The `WaitForSeconds` pause between physics rounds is left out. The
  coroutine is modelled as a loop that runs to completion, so
  `StartPhysicsSimulation`'s guard can only be seen set from outside.
- `Random.Range` is left out. Its results are parameters: a bit function for
  the diagonal tie-break, and the two rolls of `SpawnNewBlock`.
- The `OnSandCleared` event is not modelled. Each non-empty clear is returned
  in order in `PhysicsSimulation`'s result.
- The follow-up spawn after a clear (`WaitAndSpawnNewBlock`) is not modelled.
- Input handling (`HandleInput`), the drop timer (`HandleDrop`), `MoveBlock`
  and `LandBlock` are not modelled. They use floating-point world positions
  and `Mathf.RoundToInt`, so the model takes the grid position as given.
- The visited set keyed by `"x,y"` strings is modelled as a set of positions.
  Lists and queues are modelled as sequences.
- CanPlaceBlockAt: bounds-checks against the board's own width and height
  rather than the constants. The board is allocated with exactly those
  constants, so the two are the same.
- SandBoard.Board.FindConnectedGroup: requires the start cell's group to be
  disjoint from `visited`. The source does not check this, but ClearSand
  only calls it on an unvisited grain, and that group's cells are then all
  unvisited (proved in `Clearing.MeetGroup`).
- Blocks.Block.Initialize: requires a shape index inside the catalog. In C#
  an index outside it throws.
- Game.SpawnNewBlock: requires the rolls to lie in the ranges
  `Random.Range(0, 7)` and `Random.Range(1, 5)` produce.
- The inner loops of UpdateStep, FindConnectedGroup, ClearSand and
  CreateScaledMatrix are split into their own methods: MoveCell, MoveGrain,
  EnqueueNeighbours, SweepCell, ClearGroup and FillScaledRow. Their
  statements are unchanged and in the same order.

## Findings

| source | as written | input that shows it | evidently intended | confidence | as-written member | corrected member |
|---|---|---|---|---|---|---|
| Assets/Scripts/Core/GameManager.cs:113-117 | Bounds are checked against a 10-column board, but every template scaled by 7 is at least 14 grains wide and occupied in its first and last column. So CanPlaceBlockAt is false for every shape at every position: a block can never move and lands where it spawns. | any shape index 0..6, any position (px, py) | a board measured in grains (BOARD_WIDTH * SCALE_FACTOR by BOARD_HEIGHT * SCALE_FACTOR), on which every shape fits | not executed; the arithmetic is proved, the intended board size is inferred | Game.NoShippedShapeFits | Game.ShapesFitGrainBoard |
