# Tile-grid engine of an edge-matching sliding puzzle

This project is a model of the engine of a sliding, edge-matching tile puzzle.

The board is `w` by `h` squares. The puzzle lives in the interior and holds `(w-2) * (h-2)` tiles. Around it runs a one-square border that starts empty. Each tile has four edge patterns: left, right, top and bottom.

The game controller builds the board in three steps:

1. It makes an empty grid.
2. It generates a solved layout of new tiles, column by column. Each new tile copies the edges of its left and upper neighbours. The last column closes each row around to the first column, and the last row closes each column around to the first row.
3. It shuffles the interior. Each interior square is exchanged with a randomly chosen interior square.

The player presses on a tile and drags along a row or a column. When the pointer is released:

1. The controller scans the squares of the drag from the far end back towards the start, looking for an empty one.
2. The tiles in front of that square are pushed onto it, in their order.
3. The move is counted.
4. The solved test runs. It looks for the first tile in a column-by-column scan (the anchor). Then it checks the interior-sized block from the anchor: it has no gap, each tile's left and top edges match its neighbours, and the block matches around its rows and columns as the generated layout does.

Steps 2 and 4 describe the corrected behaviour that the classes model, not the program as written (see "## Findings"):

- As written, the push walk starts one square before the drag's end, not one square before the empty square found (TileSwipeController.cs:159). When that empty square lies two or more squares before the drag's end, tiles behind it are pulled back over other tiles and the walk writes before the drag's start. This is `Compaction.PushAsWritten`.
- As written, the two wraparound comparisons of the solved test fire only on the column and row just past the block, which its loops never reach (GameController.cs:175-176). So the wraparound is never compared. This is `Solved.SolvedAsWritten`.

In the model:

- The grid is an `array2<int>` in the class `GameController.Board`. A square holds a tile id, an index into the board's `tiles`, or `Empty` (-1), which stands for a null square.
- The swipe controller is the class `TileSwipe.SwipeController`. It holds the drag's start square and its movement in squares.
- Every method is proved against a specification function on the column-by-column view of the board, `Board.Columns()`:
  - `Shuffled` for the shuffle;
  - `Generating` for generation;
  - `WalkFrom` and `Compact` for the push on release;
  - `SolvedTorus` for the solved test;
  - `DumpText` for the debugging dump.
- Lemmas then state what those functions mean:
  - the shuffle and the push keep the multiset of tiles;
  - the push keeps the tiles' order and empties the drag's start square;
  - a freshly generated board passes the solved test;
  - the dump has a mark per square and a newline per row.

Modules:

- `Grid`: tiles, boards as values, and the multiset facts.
- `Compaction`: the push on one line of squares.
- `Shuffle`: the shuffle as a function.
- `Generation`: the invariant of the generation loops.
- `Solved`: the anchor and the verdict.
- `Dump`: the debugging text.
- `GameController`: the class `Board` and the score.
- `TileSwipe`: the pointer arithmetic and the class `SwipeController`.

Facts of the source that the model keeps, except where "## Findings" says otherwise:

- The anchor scan goes column by column, and within a column row by row (GameController.cs:142-156).
- The row bound of the anchor scan is the board's width, not its height (GameController.cs:144).
- When the scan finds no tile, the anchor stays (0, 0) (GameController.cs:139).
  - If the board is at least 3 squares wide (and, as the model requires, at least as high as wide), the block from (0, 0) contains square (0, 0), which is empty. So a board with no tile fails the test (`Solved.EmptyBoardFails`).
  - If the board is at most 2 squares wide, the block has no column, so the test passes with no square checked, whatever the board holds. For example, an empty 2 by 2 board passes both `Solved.SolvedAsWritten` and `Solved.SolvedTorus` (`Solved.NarrowBoardPasses`).

## Model

| member | source | states |
|---|---|---|
| GameController.Board.constructor | GameController.cs:34-52 | The start of a game: a valid board of the given size with no move played, one tile per interior square, generated in a solved layout whose neighbouring edges match, then shuffled by the given random picks, with the same multiset of squares as the solved layout |
| GameController.Board.GenerateSolvedBoard | GameController.cs:47-48 | A fresh, valid grid: the tile list grew by one tile per interior square, every interior square holds a tile id, every border square is empty, and neighbouring edges match, including around each row and column |
| GameController.Board.GenerateEmptyTileGrid | GameController.cs:54-68 | A fresh grid of the board's size in which every square is empty; tiles and move count untouched |
| GameController.Board.GeneratePuzzleTiles | GameController.cs:70-103 | One new tile per interior square, appended after the existing tiles, with ids given column by column; border squares keep their value; every left/top edge equals its neighbour's right/bottom edge and the last column/row closes around to the first; the edges not copied from a neighbour are the random ones drawn for that square |
| GameController.Board.GenerateColumn | GameController.cs:77-101 | The inner generation loop takes the generation state from the start of column `i` to the start of column `i + 1` |
| GameController.Board.PlaceNewTile | GameController.cs:81-100 | One visit keeps the generation state and advances it to the next square |
| GameController.Board.SetNewTile | GameController.cs:84-98 | Square (i, j) gets the next tile id, no other square changes, and the tile appended is the random tile with its left/top edges copied from its neighbours and its right/bottom edges closed around to the first interior column/row on the last column/row |
| GameController.Board.ValidNeighbours | GameController.cs:91-98 | The squares a visit copies edges from already hold valid tile ids |
| GameController.Board.SwapSquares | GameController.cs:124-126 | The board after the exchange is the old board with the two squares swapped |
| GameController.Board.ShufflePuzzleTiles | GameController.cs:105-135 | The new board is the shuffle function applied to the old one and keeps its multiset of squares |
| GameController.Board.ShuffleColumn | GameController.cs:116-133 | The inner shuffle loop performs the shuffle function's steps for column `i` |
| GameController.Board.ShuffleSquare | GameController.cs:118-126 | One visit exchanges square (i, j) with its random partner, or changes nothing when the partner is the square itself |
| GameController.Board.IsPuzzleSolved | GameController.cs:137-184 | The verdict is the intended solved test: from the anchor of the scan, the interior-sized block fits, has no gap, matches left/top edges inside and matches around its rows and columns |
| GameController.Board.CheckFromAnchor | GameController.cs:158-183 | From a given anchor: false when the block would run off the board (the early-out), otherwise the block scans' verdict |
| GameController.Board.CheckFittedBlock | GameController.cs:165-183 | A block that fits passes exactly when it has no gap, its inner edges match and its wraparound edges match |
| GameController.Board.CheckWraps | GameController.cs:175-176 | The wraparound scan succeeds exactly when every right edge of the block's last column equals the left edge at the anchor's column in its row, and every bottom edge of the last row the top edge at the anchor's row in its column |
| GameController.Board.FindAnchor | GameController.cs:139-156 | The scan returns the first tile of the column-by-column scan bounded by the width, or (0, 0) when it finds none |
| GameController.Board.CheckBlock | GameController.cs:165-183 | The block scan succeeds exactly when the block has no empty square and every tile's left and top edges match their neighbours inside the block |
| GameController.Board.BlockOkAt | GameController.cs:169-177 | A filled and matching block passes the per-square test at every square |
| GameController.Board.BlockSuccess | GameController.cs:165-183 | Passing the per-square test everywhere means the block is filled and matching |
| GameController.Board.OnMovePlayed | GameController.cs:252-268 | The move counter goes up by one, the board is unchanged, and the result is the intended solved verdict |
| Dump.DumpLayout | GameController.cs:285-299 | The dump is `h` lines of `2w + 1` characters: for each square of the row, `X` when it is empty or `O` when it holds a tile, then a space; then a newline |
| GameController.Board.PrintTileGrid | GameController.cs:285-299 | The text produced is the dump of the board, row by row |
| GameController.Board.AppendRow | GameController.cs:290-296 | One pass of the outer loop appends row `i`'s line: its tokens and a newline |
| GameController.TruncateToInt | GameController.cs:197 | The cast of the timer drops the fraction towards zero |
| GameController.CalculateScore | GameController.cs:194-199 | The score is at least 50 per column; with a non-negative timer it is at most 300 more; it reaches that maximum exactly when no move was played and under a second has passed; from 100 moves and 100 seconds on, only the column points remain |
| GameController.ScoreMonotone | GameController.cs:196-197 | More moves or more time never raise the score |
| GameController.TruncateMonotone | GameController.cs:197 | The truncating cast of the timer never decreases as the time grows |
| Grid.BagPut | GameController.cs:124-126 | Writing a square takes its old value out of the board's multiset and puts the new one in |
| Grid.SwapKeepsBag | GameController.cs:124-126 | Exchanging two squares keeps the board's multiset |
| Grid.MoveKeepsBag | TileSwipeController.cs:164-168 | Moving a tile onto an empty square and emptying its old square keeps the board's multiset |
| Shuffle.SwapStepKeepsBag | GameController.cs:121-126 | One shuffle step keeps the board's multiset, including when the partner is the square itself |
| Shuffle.ShuffleKeepsBag | GameController.cs:114-134 | The whole shuffle keeps the board's multiset |
| Shuffle.SwapThenShuffleKeepsBag | GameController.cs:116-133 | The shuffle from an interior square keeps the multiset: its swap, then the rest |
| Shuffle.ShuffleKeepsBorder | GameController.cs:114-134 | The shuffle never changes a border square |
| Shuffle.ShuffleKeepsInteriorFilled | GameController.cs:114-134 | A fully occupied interior stays fully occupied after the shuffle |
| Shuffle.ShuffleKeepsWellFormed | GameController.cs:114-134 | After the shuffle every square is still empty or one of the board's tiles |
| Generation.NewTile | GameController.cs:84-98 | The tile made for a square keeps the random left/top edges in the first interior column/row and the random right/bottom edges off the last one. On the last column/row its right/bottom edge is the left/top edge of the row's/column's first tile, and when the interior is one square wide or high, that tile is itself, so its right edge equals its left edge, or its bottom edge its top edge |
| Generation.GeneratedIdBelow | GameController.cs:75-77 | Squares visited earlier got smaller tile ids, all at least the first new id |
| Generation.StepTiles | GameController.cs:84-88 | A visit leaves every earlier square showing its tile, and the new square shows the new tile |
| Generation.StepEdges | GameController.cs:91-98 | The new tile satisfies its square's edge relations: copied left/top edges, closed right/bottom edges on the last column/row, random ones elsewhere |
| Generation.StepKeepsEdges | GameController.cs:91-98 | The edge relations of earlier squares survive the visit |
| Generation.GenerateStep | GameController.cs:77-101 | A visit keeps the generation state and advances it by one square |
| Generation.GenerateNextColumn | GameController.cs:75-77 | Finishing a column is starting the next one |
| Generation.GenerateDone | GameController.cs:70-103 | After the loops every interior square holds its own new tile, the border is as before, the interior matches, and the free edges are the random ones |
| Generation.GenerateDoneLayout | GameController.cs:75-88 | After the loops the tile count grew by the interior size and each interior square holds its generated id |
| Generation.GenerateDoneEdges | GameController.cs:91-98 | After the loops the interior's neighbouring edges match and the free edges are random |
| Generation.EdgesMatch | GameController.cs:91-98 | Edge relations on every interior square make every left/top edge equal its neighbour's right/bottom edge and close the rows and columns around |
| Generation.EdgesRandom | GameController.cs:85-98 | Edge relations on every interior square leave the edges no rule copies equal to the random draw |
| Solved.AnchorFrom | GameController.cs:142-156 | The anchor found holds a tile and lies in the scanned range, and every square scanned before it is empty |
| Solved.WrapClausesNeverFire | GameController.cs:165-177 | Inside a filled block, the source's four comparisons at a square (`MismatchAsWritten`, including the two wraparound comparisons against column 1 and row 1) find no mismatch exactly when the left and top edges match: the wraparound comparisons never fire |
| Solved.SolvedAsWritten | GameController.cs:137-184 | The test as written, with all four comparisons, passes exactly when the block from the anchor fits, has no gap and matches its left and top edges |
| Solved.TorusFromFitted | GameController.cs:158-183 | For a block that fits, the intended verdict from its anchor is the conjunction of the three block scans |
| Solved.AnchorOfLayout | GameController.cs:139-156 | On a freshly generated board the anchor is interior square (1, 1) |
| Solved.GeneratedIsSolved | GameController.cs:48 | A freshly generated board passes the solved test as written and the intended wraparound test |
| Solved.EmptyBoardFails | GameController.cs:139-163 | A board at least 3 squares wide with no tile fails the test as written and the intended one |
| Solved.NarrowBoardPasses | GameController.cs:158-183 | A board at most 2 squares wide passes the test as written and the intended one, whatever it holds |
| Solved.WrapMismatchAccepted | GameController.cs:173-177 | A 5 by 5 board with a mismatched row wraparound passes the test as written and fails the intended one |
| Solved.TorusImpliesAsWritten | GameController.cs:173-177 | Passing the intended test implies passing the test as written |
| Compaction.FarthestFree | TileSwipeController.cs:149-153 | The scan stops at the farthest empty square in `1..n`, every square past it holds a tile, and 0 means none was empty |
| Compaction.PushPacks | TileSwipeController.cs:159-171 | The walk from offset `j` with the cursor on an empty square leaves the tiles up to `j`, in order, packed against the cursor, blanks before them, and the rest of the line as it was |
| Compaction.PushPacksDone | TileSwipeController.cs:159 | The walk that has passed offset 0 leaves the line as it is |
| Compaction.PushPacksSkip | TileSwipeController.cs:162 | The walk passes over an empty square |
| Compaction.PushPacksTile | TileSwipeController.cs:162-169 | The walk moves a tile to the cursor and moves the cursor back |
| Compaction.PushPacksMove | TileSwipeController.cs:164-169 | One move of the walk preserves the closed form of the walk's result |
| Compaction.PushAsWritten | TileSwipeController.cs:159-170 | The walk as written, started one offset before the drag's end: with the free square at the drag's end or just before it, it is the intended push; with the farthest free square any earlier, it writes off the drag line |
| Compaction.PushIsCompact | TileSwipeController.cs:156-171 | The walk started one offset before the free square computes the compaction onto that square |
| Compaction.AsWrittenAgreesNearEnd | TileSwipeController.cs:159 | When the free square is the drag's end or the one before it, the walk as written computes the same compaction |
| Compaction.PushLeavesLine | TileSwipeController.cs:159-171 | Once a tile lies between the cursor and the walk, the walk writes below offset 0 |
| Compaction.AsWrittenLeavesLine | TileSwipeController.cs:149-171 | When the free square lies two or more squares before the drag's end, the walk as written writes off the drag line |
| Compaction.AsWrittenLosesTile | TileSwipeController.cs:149-171 | For the line 7, empty, 8, 9 dragged three squares, the walk as written puts tile 8 where tile 7 was, leaving 8, empty, empty, 9 with the cursor before the line, and then leaves the line; the intended push gives empty, 7, 8, 9 |
| Compaction.CompactKeepsBag | TileSwipeController.cs:159-171 | Pushing keeps the line's multiset |
| Compaction.TilesAroundGap | TileSwipeController.cs:149-153 | The tiles of a line are those before the free square, then those after it |
| Compaction.TilesOfCompact | TileSwipeController.cs:159-171 | The tiles of the pushed line are those before and after the free square |
| Compaction.CompactKeepsOrder | TileSwipeController.cs:159-171 | Pushing keeps the order of the tiles along the line |
| Compaction.CompactPacks | TileSwipeController.cs:156-171 | After a push the drag's start square is empty, the squares past the free one are unchanged, and the tiles end right at the free square |
| TileSwipe.GetClickedGridPosition | TileSwipeController.cs:232-243 | Off the board exactly when the pixel lies outside the board's rectangle; otherwise a square of the grid whose pixel rectangle contains the point |
| TileSwipe.DivBounds | TileSwipeController.cs:234-235 | The floor division that turns a pixel offset into a square index is in range exactly when the offset is inside the board |
| TileSwipe.ClampEnd | TileSwipeController.cs:81-86 | The clamped end lies on the grid; an end on the grid is kept; an end off the grid goes to the first column/row when the pointer is before the board's corner, and to the last otherwise |
| TileSwipe.AxisMovement | TileSwipeController.cs:88-123 | The movement is along the shared column, the shared row, or, for a diagonal end, the axis of longer travel; it is zero exactly when the end is the start |
| TileSwipe.OnLineOffsets | TileSwipeController.cs:149-151 | A square is on the drag line exactly when it is at some offset `0..n` from the start |
| TileSwipe.LineAfterMove | TileSwipeController.cs:164-168 | A move on the board moves the tile along the line the same way |
| TileSwipe.PushStep | TileSwipeController.cs:161-170 | One step of the walk keeps the walk's outcome and the empty run up to the cursor |
| TileSwipe.WalkMoveFacts | TileSwipeController.cs:162-169 | A board step acts on the drag line as the line step does, leaves the rest of the board alone, and keeps the multiset |
| TileSwipe.WalkFromFacts | TileSwipeController.cs:159-171 | The whole walk on the board ends with the line the line walk gives, the rest of the board as it was, and the same multiset |
| TileSwipe.WalkPushes | TileSwipeController.cs:156-171 | The walk from one square before a free square pushes the line onto it, leaving the rest of the board and the multiset unchanged |
| TileSwipe.ReleasedByPush | TileSwipeController.cs:149-173 | A release is the push onto the farthest free square, or no change when none was found |
| TileSwipe.ReleasedFacts | TileSwipeController.cs:149-173 | After a release that moved tiles the drag's start is empty; in any case the tiles on the line keep their order, the line keeps its multiset of squares, and the board keeps its multiset |
| TileSwipe.SwipeController.constructor | TileSwipeController.cs:17-22 | No drag is in progress |
| TileSwipe.SwipeController.OnPress | TileSwipeController.cs:49-71 | The movement is cleared; the drag starts on the clicked square when it holds a tile, otherwise the old start is kept |
| TileSwipe.SwipeController.OnHold | TileSwipeController.cs:73-126 | Without a drag or with the pointer on the start square the movement is kept; otherwise it is the axis movement to the clamped end |
| TileSwipe.SwipeController.MoveTile | TileSwipeController.cs:164-168 | The tile moves to the target square and the source square becomes empty |
| TileSwipe.SwipeController.PushTiles | TileSwipeController.cs:156-171 | The board after the loop is the walk from one offset before the free square |
| TileSwipe.SwipeController.WalkStep | TileSwipeController.cs:162-170 | One step moves a tile found at `j` to the free square and moves the free square back by one |
| TileSwipe.SwipeController.FindFreeSquare | TileSwipeController.cs:149-153 | The scan returns the farthest empty square of the drag, or 0 when there is none |
| TileSwipe.SwipeController.ReleaseDrag | TileSwipeController.cs:144-211 | The board is released along the line; one move is counted exactly when tiles moved; the result reports whether that move solved the puzzle |
| TileSwipe.SwipeController.ReleaseIfDragging | TileSwipeController.cs:134-212 | A release acts only when a drag is in progress, the pointer is off its start square and the drag has a movement, along the row for a horizontal movement and the column otherwise |
| TileSwipe.SwipeController.EndDrag | TileSwipeController.cs:222-227 | The drag is cleared, a solving move disables the controller, and the board is unchanged |
| TileSwipe.SwipeController.OnRelease | TileSwipeController.cs:134-227 | The whole release: the push when one applies, a counted move, the controller disabled after a solving move, and the drag cleared |

## Left out

- Rendering is left out, because positions in world space carry no game state. This covers sprites, the highlighter, the marker arrow, camera conversions and tile transforms.
- Audio is left out, because it carries no game state. This includes the release-sound branch (TileSwipeController.cs:213-220).
- The scene, the pause menu, the debug hot keys and FinalizeLevelClearing are left out, because they are scene wiring.
- The level timer coroutine is left out, because it is a clock. The elapsed time is a parameter of `CalculateScore`.
- Tile.cs and GameData are not part of this model.
  - The random patterns of `GenerateRandomTilePatterns` are the parameter `rnd(c, r)`.
  - The two `Random.Range` draws of the shuffle are the parameter `pick(c, r)`, which names an interior square.
  - The grid size is the constructor's parameters.
- Pointer input is left out. Pixel positions become integer parameters, and the diagonal-axis choice, which compares travel in world space, becomes the boolean `diagonalHorizontal`.
- Tiles are values, not objects. A square holds a tile id, and two squares never share a tile because every move empties its source square.
- GameController.Board.IsPuzzleSolved: requires width <= height. The anchor scan bounds rows by the width, so on a wider board it can index past the last row. That case is not modelled as an error.
- GameController.Board.OnMovePlayed: does not disable the swipe controller itself. The disabling of the swipe controller is done by `TileSwipe.SwipeController.EndDrag`, fed by the verdict that `OnMovePlayed` returns.
- TileSwipe.SwipeController.OnRelease: requires the controller to be enabled. A disabled component gets no frame updates.
- GameController.Board.constructor: states the generated layout and the shuffle. That the generated layout is solved is stated by `Solved.GeneratedIsSolved`.
- GameController.Board.GeneratePuzzleTiles: does not restate the board's validity, which `GameController.Board.GenerateSolvedBoard` states.

## Findings

| source | as written | input that shows it | evidently intended | confidence | as-written member | corrected member |
|---|---|---|---|---|---|---|
| TileSwipeController.cs:159 | The push walk starts one square before the drag's end, whatever empty square the scan found | A drag over 7, empty, 8, 9 to its third square: tile 8 moves back onto the empty square, then onto tile 7, and the walk writes before the drag's start | The walk starts one square before the empty square found, pushing the tiles onto it | not executed | Compaction.AsWrittenLosesTile | TileSwipe.SwipeController.PushTiles |
| GameController.cs:175-176 | The wraparound checks compare `i` with the last column plus one and `j` with the last row plus one, values the loops never reach, so the wraparound is never checked (and its comparisons name column 1 and row 1 rather than the anchor's) | A 5 by 5 board whose interior matches inside but not around a row passes the test | The block's last column's right edges equal the left edges of the anchor's column, and its last row's bottom edges the top edges of the anchor's row, as generation leaves them | not executed | Solved.WrapMismatchAccepted | GameController.Board.IsPuzzleSolved |
