# 2048 engine

A model of the engine of a 2048 game (game/models.py) and proofs about it.

The board is an N×N grid of tiles (`Item`). Each tile holds a value, where 0 means empty, and a merge marker. The marker is set when the tile is doubled during a move. A `Field` holds the grid and a running score. A move in one of the four directions works like this:

- split the grid into rows (LEFT, RIGHT) or columns (UP, DOWN);
- reverse each line for RIGHT and DOWN;
- run the compaction-and-merge pass `_move_row` toward index 0;
- reverse back and write each line into the grid;
- if anything changed, spawn a 2 in a random free cell;
- clear every marker.

`is_over` is the end-of-game test. It holds when no cell is empty and no two adjacent cells are equal. `equal_in_row` and `equal_in_column` are lookaheads. They report whether a LEFT or UP pass would change some line.

Files:

- `items.dfy` (module `Items`): the tile, `__eq__`, `increase` and `can_merge`.
- `row_pass.dfy` (module `RowPass`): `_move_row` as functions on a line.
  - `Pack` is the nonempty prefix the pass builds.
  - `Slide` is the returned line.
  - `Moved` is the returned flag.
  - `Gain` is what the pass adds to the score.
  - `Origins` records which input index each packed tile came from.
  - `Touched` is the state each input Item is left in.
  - The lemmas state what the pass promises.
- `board.dfy` (module `Board`): the grid as a value.
  - `Direction`, and the reading of a line along a direction.
  - `Slid`, the grid after all lines are passed over.
  - `Changed` and `MoveGain`, the OR of the line flags and the sum of the line gains.
  - The free-cell list, `Spawn`, `Cleared` and `MoveResult`.
  - The end-of-game test `Stuck`.
  - `Bumped`, the grid after the lookahead.
  - Lemmas about all of these.
- `field.dfy` (module `Models`): class `Field`.
  - An `array2<Item>` grid and a `score` field.
  - One method per method of the Python class, each proved against the functions above.
  - `MoveRow` rewrites an `array<Item>` in place with the loops of `_move_row`.

Values are unbounded integers, as in Python. `random.choice(free_cells)` becomes a parameter `pick`, and the chosen cell is `free[pick % |free|]`.

## Model

| member | source | states |
|---|---|---|
| Items.IncreaseSpendsTile | game/models.py:32-37 | `increase` doubles the value and sets the marker. The doubled tile stays nonempty and a power of two, and it can no longer merge with anything. |
| Models.Field.MoveRow | game/models.py:59-76 | The row is rewritten in place into `Slide` of the old row. The flag is `Moved` of the old row. The score rises by `Gain` of the old row. Each kept tile's origin index is returned. |
| Models.Field.Visit | game/models.py:61-75 | One turn of the outer loop. An empty item is skipped. Otherwise the item sinks and the packed prefix becomes `Settle(prefix, item)`, with flag and score updated to match. |
| Models.Field.SinkTile | game/models.py:64-75 | The inner loop, which has no `break` after a merge. The item ends just after the packed prefix, or it merges into the prefix's last tile. The flag is set exactly when the item shifted or merged. |
| RowPass.PackHasNoEmpty | game/models.py:61-75 | Every tile of the packed prefix is nonempty: empty items are skipped, and a tile only ever moves into an empty cell or merges into a tile. |
| RowPass.OriginsIncrease | game/models.py:61-75 | The kept tiles stay in input order: their origin indices strictly increase along the packed prefix. |
| RowPass.SlideIsCompacted | game/models.py:59-76 | The returned row keeps its length. Its nonempty tiles form a prefix followed only by empties, and no empty tile is marked. |
| RowPass.MovedIffChanged | game/models.py:60-76 | The flag is true iff the returned values differ from the input values. |
| RowPass.UnmovedLineIsFixed | game/models.py:60-76 | A row whose pass returns false comes back identical. |
| RowPass.MovedLineChanges | game/models.py:65-73 | A row whose pass returns true comes back with different values. |
| RowPass.MovedLeavesRoom | game/models.py:65-73 | A shift or merge frees the last cell of the row. |
| RowPass.DistinctNeighboursDoNotMove | game/models.py:64-75 | A full row with no two equal neighbours is left packed and unmoved. |
| RowPass.GapBeforeTileMoves | game/models.py:64-68 | An empty cell before a tile makes the pass move. |
| RowPass.TwinNeighboursMove | game/models.py:64-73 | A tile followed by a neighbour of equal value, neither of them marked, makes the pass move, whatever the rest of the line holds. |
| RowPass.PackIsPairwiseMerge | game/models.py:64-75 | With all markers clear, the packed values are the nonzero input values with each run of equal values merged pairwise from the front, each tile at most once. |
| RowPass.ThreeEqualTiles | game/models.py:64-75 | [2,2,2,0] becomes [4,2,0,0], gains 4 and reports a move. |
| RowPass.DoubledTileKeepsItsNeighbour | game/models.py:64-75 | [2,2,4,0] becomes [4,4,0,0]. The new 4 does not merge again. |
| RowPass.PackedDistinctRow | game/models.py:64-76 | [2,4,8,16] comes back unchanged with flag false and no gain. |
| RowPass.SlideKeepsSum | game/models.py:64-75 | The pass preserves the sum of the row's values. |
| RowPass.GainIsMergedTotal | game/models.py:69-73 | With all markers clear, the score rises by the sum of the doubled tiles, that is, the marked tiles of the result. |
| RowPass.GainIsPositiveIffMerge | game/models.py:69-73 | With nonnegative values the pass earns something exactly when it takes the `can_merge` branch for some tile. |
| RowPass.GainIsNonNegative | game/models.py:71-72 | With nonnegative values the gain is nonnegative. |
| RowPass.NoMergeNoGain | game/models.py:60-76 | A pass that reports no move earns nothing. |
| RowPass.SlideKeepsPowersOfTwo | game/models.py:32-34 | If every nonzero value is a power of two of at least 2, the same holds after the pass. |
| RowPass.PackedTilesComeFromInput | game/models.py:64-75 | Each packed tile is the input Item it came from, or that Item doubled, unmarked and nonempty before. |
| RowPass.TouchedAtOrigins | game/models.py:66-72 | Each packed tile is the new state of the Item object at its origin. |
| RowPass.TouchedKeepsOthers | game/models.py:66-73 | An Item object that is not kept in the packed prefix is left as it was. |
| RowPass.TouchedDoublesAtMostOnce | game/models.py:71 | Every Item object is left as it was, or is doubled once and was nonempty. |
| RowPass.UnmovedLineIsUntouched | game/models.py:64-75 | A pass that reports no move changes no Item object. |
| RowPass.TouchedSum | game/models.py:71-72 | Twice the sum over the Item objects after the pass equals twice the sum before plus the gain. |
| Board.ChangedMeansSomeLineMoved | game/models.py:134-135 | The flag of `_move` is true iff the pass over some line returned true. |
| Board.UnchangedBoardIsFixed | game/models.py:118-141 | If no line moved, the written-back grid is the old grid. |
| Board.ChangedBoardHasFreeCell | game/models.py:118-142 | After a move that changed something a free cell always exists. |
| Board.UnchangedMoveKeepsBoard | game/models.py:118-145 | A move that changes nothing leaves an unmarked board as it was and spawns nothing. |
| Board.UnchangedMoveKeepsValues | game/models.py:118-145 | On any board, marked or not, a move that changes nothing keeps every value, spawns nothing and leaves no marker set. |
| Board.ChangedMoveSpawnsOneTwo | game/models.py:118-145 | After a changing move exactly one cell that was empty after the pass holds a 2. Every other cell keeps its value, and no marker is left set. |
| Board.MoveKeepsPowersOfTwo | game/models.py:105-145 | A move keeps every nonzero value a power of two of at least 2. |
| Board.MoveGainIsNonNegative | game/models.py:69-73 | With nonnegative values a move never lowers the score. |
| Board.FreeListMembers | game/models.py:78-84 | A cell is in the free list iff it is empty. |
| Board.FreeListIsSorted | game/models.py:78-84 | The free list is in row-major order, without repetition. |
| Board.SpawnFillsOneFreeCell | game/models.py:105-111 | With a free cell, the chosen free cell becomes a 2 and no other cell changes. |
| Board.StuckBoardCannotMove | game/models.py:91-99 | When `is_over` holds, no direction changes the board. |
| Board.GapBoardCanMove | game/models.py:91-94 | A board with a tile and an empty cell can move in some direction. |
| Board.TwinBoardCanMove | game/models.py:95-99 | With markers clear, a full board with two equal neighbours can move UP or LEFT. |
| Board.StuckIffNoEqualNeighbours | game/models.py:91-99 | `is_over` holds iff every cell holds a tile and no cell equals, by `__eq__`, its right or its lower neighbour. |
| Board.StuckIffNoMove | game/models.py:91-99 | Take a board with markers clear and at least one tile. `is_over` holds iff no direction changes the board. |
| Board.NewBoardHasOneTwo | game/models.py:41-49 | An empty board after one spawn holds exactly one 2, in the cell at row-major index `pick mod N²`. Every other cell is empty. |
| Board.BumpedDoublesAtMostOnce | game/models.py:156-166 | After the lookahead, each cell is as it was, or holds its nonempty tile doubled and marked. |
| Board.BumpedLine | game/models.py:160-163 | Within one line of the lookahead, each kept tile's new state lands on the cell it came from, and every other cell is untouched. |
| Board.BumpedKeepsNormal | game/models.py:156-166 | The lookahead leaves no empty cell marked. |
| Board.UnmovedBoardIsUntouched | game/models.py:156-166 | If no line would move, the lookahead leaves the board unchanged. |
| Board.EqualInRowChangesTheBoard | game/models.py:156-166 | On [[2,2],[0,0]] the row lookahead answers true, adds 4 to the score, and turns the first tile into a marked 4. |
| Board.MoveGainIsPositiveIffMerge | game/models.py:156-166 | With nonnegative values the pass over all lines along a direction raises the score iff some line merges. |
| Board.EqualInRowCountsASlide | game/models.py:156-166 | On [[0,2],[0,0]] the row lookahead answers true, although no line merges and the score does not rise. |
| Models.Field.constructor | game/models.py:41-49 | `Field(size)` holds one 2 spawned on an empty board and the given score, and it is well formed. |
| Models.Field.WithValues | game/models.py:41-49 | `Field(values=..., init_score=s)` uses the given grid as is, spawns nothing and has score `s`. |
| Models.Field.FreeCells | game/models.py:78-84 | Returns exactly the free list of the grid. |
| Models.Field.IsOver | game/models.py:91-99 | True iff no cell is empty and every vertically and horizontally adjacent pair differs in value. |
| Models.Field.GenerateNewItem | game/models.py:105-111 | The grid becomes `Spawn(old grid, pick)`. A full grid is left alone. |
| Models.Field.ResetCells | game/models.py:113-116 | Every marker is cleared and every value kept. |
| Models.Reverse | game/models.py:127-129 | `list.reverse` in place. |
| Models.Field.ReadLine | game/models.py:120-128 | `crow` is line `index` of the board, reversed for RIGHT and DOWN. |
| Models.Field.StoreLine | game/models.py:137-141 | The write-back loop puts the resolved line into line `index` and leaves every other line alone. |
| Models.Field.MoveLine | game/models.py:120-141 | One line is read, passed over, reversed back and written into the board. The flag and the score change as that line's pass says. |
| Models.Field.MoveLines | game/models.py:118-141 | The loop over all lines. The board becomes `Slid`, the flag is `Changed` and the score rises by `MoveGain`. |
| Models.Field.Move | game/models.py:118-145 | The grid becomes `MoveResult` of the old grid. The flag is `Changed`, the score rises by `MoveGain`, and the field stays well formed. |
| Models.Field.Copy | game/models.py:147-149 | A fresh field over a fresh copy of the grid, with the same size and score. |
| Models.Field.GetMoved | game/models.py:151-154 | Returns a new field over a fresh grid of its own (the deep copy), holding `MoveResult` and the raised score, and the flag. The receiver is not modified. |
| Models.Field.WriteBack | game/models.py:160-163 | Each Item object a line's pass changed is seen in the board cell it came from. |
| Models.Field.BumpLine | game/models.py:157-165 | One line of the lookahead: the board takes that line's Item states, and the flag and the score change as the pass says. |
| Models.Field.BumpLines | game/models.py:157-166 | The loop of the lookahead over all lines. |
| Models.Field.EqualInRowOrColumn | game/models.py:156-166 | The result is `Changed` for LEFT (rows) or UP (columns). The score rises by `MoveGain`, the board becomes `Bumped`, and nothing is spawned or cleared. |
| Models.Field.EqualInRow | game/models.py:168-170 | The row lookahead, with its effect on board and score. |
| Models.Field.EqualInColumn | game/models.py:172-174 | The column lookahead, with its effect on board and score. |
| Models.Field.MergeAhead | game/models.py:156-174 | The merge-only lookahead, run on a copy. It answers whether a pass along the rows or the columns would merge two tiles in some line. |
| Models.Field.LookAhead | game/models.py:156-166 | The corrected lookahead runs on a copy. It returns the same answer and leaves the board and the score unchanged. |

## Left out

- The distribution of `random.choice`. Only which free cell is chosen is modelled, through the `pick` parameter.
- `copy.deepcopy` is modelled as allocating a fresh grid. Item objects are values, because no Item object is ever shared between two cells.
- Object identity of Items in `equal_in_row_or_clmn`, where `crow` holds the grid's own objects. It is modelled by `MoveRow` returning each kept tile's origin index, and by `WriteBack` storing the new states at those origins.
- `Field.print`, `Item.__str__` and the `size`, `score` and `values` getters. These are text formatting or plain field reads.
- main.py, game/visualize.py and game/_2048_console.py. These are the search harness, the UI and the console loop, and are not part of this model.
- Models.Field.WithValues: requires a square grid of `size` whose empty Items are unmarked. The Python constructor accepts any nested list, and the other methods then index it as `size`×`size`.
- The default arguments of `Field(size=4, values=None, init_score=0)` are not modelled as defaults. `Field()` is the unnamed constructor called with size 4 and score 0.
- The lookahead is used as a read-only query that asks whether a merge is possible (main.py:75-82). The code changes grid and score, and it answers whether a pass would shift or merge. The model follows the code; see Findings.
- Models.Field.MergeAhead: requires every value to be nonnegative, which holds on every board the program builds (tiles start at 0 or 2 and are only doubled). The answer is read off the score, and a negative value could cancel a gain.

## Findings

| source | as written | input that shows it | evidently intended | confidence | as-written member | corrected member |
|---|---|---|---|---|---|---|
| game/models.py:156-166 | `equal_in_row_or_clmn` runs `_move_row` on lists holding the grid's own Items. Each merge doubles and marks a grid tile and adds to the score, and nothing clears the marker afterwards. | 2×2 grid [[2,2],[0,0]], `equal_in_row`: answers true, the score rises by 4, and cell (0,0) becomes a marked 4 | A read-only lookahead: the same answer, with grid and score untouched. It is used as a condition in main.py:75-82. | not executed; high | Board.EqualInRowChangesTheBoard, Models.Field.EqualInRowOrColumn | Models.Field.LookAhead |
| game/models.py:156-166 | `equal_in_row_or_clmn` returns the `modified` flag of `_move_row`, which is set by a shift as well as by a merge. | 2×2 grid [[0,2],[0,0]], `equal_in_row`: answers true, although no two tiles can merge and the score does not rise | True only when some line would merge, as the callers in main.py:75-82 use it. | not executed; medium | Board.EqualInRowCountsASlide | Models.Field.MergeAhead |
