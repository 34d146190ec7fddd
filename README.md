# 2048 game engine, modelled in Dafny

This project models the engine of a 4×4 sliding-tile game ("2048"), written in
Python as `2048_modified_version.py`. The program keeps three module globals:

- `board`: four rows of four integers, where 0 is an empty cell;
- `score`;
- `undo_stack`: a list of `(board, score)` pairs.

An arrow key does four things in order:

1. It pushes a deep copy of `(board, score)` onto `undo_stack`.
2. It slides every row (Left/Right) or column (Up/Down). Each line drops its
   empty cells, makes one merging pass, drops the zeros again and pads back to 4.
3. If anything moved, it drops a 2 or 4 into a random empty cell.
4. If no move is left, it resets the board.

Undo pops the most recent pair. Restart calls `reset_board`.

Files and modules:

- `tiles.dfy` (`Tiles`): tile values. A cell is 0 or a power of two of at least 2. A new tile is 2 or 4.
- `line.dfy` (`Line`): the reference semantics of one line, with their properties.
  - `Merge` merges toward index 0 and `MergeR` toward the last index. Each has a gain function for the score.
  - `SlideLeft`/`SlideRight` add filtering and padding.
  - The lemmas cover sum conservation, "no tile merges twice" (`MergeOnce` and `MergeSplit`), the mirror relation, and when a line is stuck.
- `slide.dfy` (`Slide`): the imperative per-line code of the four move functions.
  - These are the single merging pass that zeroes the consumed neighbour, and the padding loops.
  - Each is proved to compute exactly the reference function of `Line`.
- `board.dfy` (`Board`): the board as a value.
  - `Move(g, d)` and `Gain(g, d)` give the result and score of each direction.
  - `CanMove` and its scanning method `ScanCanMove` model `can_move`.
  - `SpawnAt`/`Spawned` relate a board to the boards `add_random_tile` may produce.
  - The grid-level lemmas are here.
- `game.dfy` (`Controller`): class `Game`. It holds the fields `board`, `score` and `undoStack`.
  - Its methods are the source's commands: `MoveLeft`, `MoveRight`, `MoveUp`, `MoveDown`, `AddRandomTile`, `ResetBoard`, `Undo`, `ArrowKey` and `Restart`.
  - Every command (`MoveLeft` … `Restart`) keeps the invariant `Valid()`: a well-formed board of tiles, a non-negative score, and well-formed snapshots.

The board is a `seq<seq<int>>` field that the methods reassign. Rows are replaced as in lines 97 and 115. Single cells are overwritten as in lines 134 and 153. The Python rows are never shared between `board` and the history, because the history holds deep copies. A value sequence therefore behaves like the Python lists. A snapshot is a `Snapshot(board, score)` value, so it is independent of the live board by construction.

The random spawn is a nondeterministic choice. `:|` picks any empty cell, and `if *` picks the value 2 or 4.

Two points about the program's control flow:

- **Undo history.** The undo history is an unbounded stack. Every arrow key appends, including keys that move nothing (line 188), and each undo pops one entry (lines 169-170). So `undoStack` is a sequence of snapshots and consecutive undos walk further back (`UndoWalksBack`).
- **Game over.** There is no game-over state. On a stuck board the program shows a message, waits, and calls `reset_board` (lines 199-206). `ArrowKey` returns a `gameOver` flag for the caller and has already reset the state when the flag is true.

## Model

| member | source | states |
|---|---|---|
| `Tiles.DoubleIsTile` | 2048_modified_version.py:88-89 | doubling a non-empty tile gives a tile (a power of two), so merges keep the board well-formed |
| `Tiles.SeedIsTile` | 2048_modified_version.py:53 | a spawned 2 or 4 is a positive tile |
| `Line.NonZero` | 2048_modified_version.py:86 | the list comprehension that keeps the non-zero cells in order (also line 92); never longer than its input |
| `Line.Merge` | 2048_modified_version.py:87-91 | reference single pass from index 0: an equal pair becomes one doubled tile, otherwise the tile is kept; never longer than its input |
| `Line.MergeGain` | 2048_modified_version.py:90 | the points that pass adds to the score: the sum of the doubled tiles |
| `Line.MergeR` | 2048_modified_version.py:105-109 | reference single pass from the last index, mirrored; never longer than its input |
| `Line.MergeGainR` | 2048_modified_version.py:108 | the points of the backward pass |
| `Line.SlideLeft` | 2048_modified_version.py:85-97 | one row of move_left (one column of move_up): filter, merge, pad with zeros at the back to exactly GRID_SIZE cells |
| `Line.SlideRight` | 2048_modified_version.py:103-115 | one row of move_right (one column of move_down): filter, backward merge, pad with zeros at the front to exactly GRID_SIZE cells |
| `Line.NonZeroElements` | 2048_modified_version.py:86 | the filtered list holds only non-zero values, all taken from the row |
| `Line.MergeSum` | 2048_modified_version.py:88-91 | merging keeps the sum of the tile values |
| `Line.MergeNonZero` | 2048_modified_version.py:87-92 | merging non-empty tiles yields only non-empty tiles |
| `Line.MergeOnce` | 2048_modified_version.py:87-91 | the values a merge produces: every merged tile is an input tile or the double of one pair of equal neighbours in the input (so 2,2,4 never gives 8), and the merged line is at least half as long as its input; `MergeSplit` adds the order |
| `Line.MergeSplit` | 2048_modified_version.py:87-91 | merging is local: a line cut between two different neighbours merges as its two parts merged separately, with the points added; with `MergeOnce` this is "no tile merges twice" |
| `Line.ExampleNoChainMerge` | 2048_modified_version.py:87-91 | [2,2,4,4] merges to [4,8] for 12 points, not to [8,4] |
| `Line.MergeUnchanged` | 2048_modified_version.py:87-91 | the pass changes the line (and shortens it) if and only if two neighbours are equal |
| `Line.MergeGainSign` | 2048_modified_version.py:90 | with positive tiles the points earned are non-negative, and zero exactly when no pair merges |
| `Line.MergeMirror` | 2048_modified_version.py:105-109 | the pass from the back equals the pass from the front on the reversed line, reversed, with the same points |
| `Line.SlideRightMirror` | 2048_modified_version.py:100-116 | move_right on a row is move_left on the reversed row, reversed, with the same points |
| `Line.SlideLeftSum` | 2048_modified_version.py:85-97 | a left slide keeps the row's sum |
| `Line.SlideRightSum` | 2048_modified_version.py:103-115 | a right slide keeps the row's sum |
| `Line.SlideLeftTiles` | 2048_modified_version.py:85-97 | a left slide of tiles yields tiles |
| `Line.SlideRightTiles` | 2048_modified_version.py:103-115 | a right slide of tiles yields tiles |
| `Line.LineGainNonNegative` | 2048_modified_version.py:90 | the points a line earns are never negative |
| `Line.SlideLeftFull` | 2048_modified_version.py:85-97 | if the slid row has no empty cell, the row did not change |
| `Line.SlideRightFull` | 2048_modified_version.py:103-115 | likewise for the right slide |
| `Line.StuckLine` | 2048_modified_version.py:156-165 | a full line with no equal neighbours is unchanged by both slides |
| `Line.SlideLeftSettled` | 2048_modified_version.py:85-97 | sliding left a second time changes nothing if and only if the merged line has no equal neighbours |
| `Line.SlideRightSettled` | 2048_modified_version.py:103-115 | sliding right a second time changes nothing if and only if the backward-merged line has no equal neighbours |
| `Line.PackedIsSettled` | 2048_modified_version.py:92-94 | a packed, zero-padded line of non-empty tiles is a fixed point of the left slide if and only if it has no equal neighbours |
| `Line.FillOne` | 2048_modified_version.py:53 | filling one empty cell adds exactly one non-empty cell to the line |
| `Line.ExampleLeftFourTwos` | 2048_modified_version.py:85-97 | [2,2,2,2] slides left to [4,4,0,0] for 8 points, not to [8,0,0,0] |
| `Line.ExampleRightGap` | 2048_modified_version.py:103-115 | [0,2,0,2] slides right to [0,0,0,4] for 4 points |
| `Line.ExampleRightThreeTwos` | 2048_modified_version.py:103-115 | [2,2,2,0] slides right to [0,0,2,4] |
| `Slide.MergePassLeft` | 2048_modified_version.py:87-91 | the in-place pass that zeroes the consumed neighbour leaves, after filtering, exactly the reference merge, and adds exactly its points |
| `Slide.MergePassRight` | 2048_modified_version.py:105-109 | the same for the backward pass and the backward reference merge |
| `Slide.PadBack` | 2048_modified_version.py:93-94 | appending zeros yields GRID_SIZE cells: the input followed by zeros |
| `Slide.PadFront` | 2048_modified_version.py:111-112 | inserting zeros at the front yields GRID_SIZE cells: zeros followed by the input |
| `Slide.SlideLineLeft` | 2048_modified_version.py:86-94 | filter, pass, filter and pad compute exactly SlideLeft of the row and its points |
| `Slide.SlideLineRight` | 2048_modified_version.py:104-112 | the same for SlideRight |
| `Board.Move` | 2048_modified_version.py:82-154 | the board after each of the four moves: every row (Left/Right) or column (Up/Down) slid; always a 4x4 grid |
| `Board.Gain` | 2048_modified_version.py:82-154 | the points a move adds to the score: the sum of the points of its four lines |
| `Board.CanMove` | 2048_modified_version.py:156-165 | some cell is empty, or two horizontal or vertical neighbours are equal |
| `Board.SpawnAt` | 2048_modified_version.py:49-53 | the board after add_random_tile put a 2 or 4 into empty cell (r, c), every other cell unchanged |
| `Board.Spawned` | 2048_modified_version.py:49-53 | the boards add_random_tile may produce: a spawn at some empty cell, or the same board when none is empty |
| `Board.ScanCanMove` | 2048_modified_version.py:156-165 | the nested scan with early return answers true iff some cell is empty or two horizontal or vertical neighbours are equal |
| `Board.MoveLines` | 2048_modified_version.py:121-134 | each row (Left/Right) or column (Up/Down) of the result is that line of the input, slid |
| `Board.ColumnIndependent` | 2048_modified_version.py:121-134 | after Up or Down, column c depends only on column c of the input |
| `Board.MoveKeepsTiles` | 2048_modified_version.py:82-154 | a move maps a board of tiles to a board of tiles |
| `Board.MoveGainNonNegative` | 2048_modified_version.py:90 | the points of a move are never negative, so the score never decreases |
| `Board.GridSumCells` | 2048_modified_version.py:36 | the board total is the sum of its 16 cells |
| `Board.MoveKeepsSum` | 2048_modified_version.py:89-91 | every move keeps the sum of all tile values on the board |
| `Board.RightIsMirroredLeft` | 2048_modified_version.py:100-116 | move_right is move_left on the mirrored board, mirrored back, with the same points |
| `Board.DownIsFlippedUp` | 2048_modified_version.py:137-154 | move_down is move_up on the upside-down board, turned back, with the same points |
| `Board.MoveSettled` | 2048_modified_version.py:82-154 | for every direction, a second move changes nothing if and only if every line of the first move has no equal neighbours left |
| `Board.StuckRow` | 2048_modified_version.py:159-162 | when can_move is false, every row is fixed by both horizontal slides |
| `Board.StuckColumn` | 2048_modified_version.py:159-163 | when can_move is false, every column is fixed by both vertical slides |
| `Board.StuckBoard` | 2048_modified_version.py:156-165 | when can_move is false, no direction changes the board |
| `Board.FullMoveUnchanged` | 2048_modified_version.py:95-97 | a move whose result has no empty cell did not change the board |
| `Board.ChangedMoveLeavesRoom` | 2048_modified_version.py:197-198 | after a move that changed the board there is an empty cell, so the spawn always places a tile |
| `Board.SpawnCountUpTo` | 2048_modified_version.py:50-53 | filling an empty cell with 2 or 4 adds one to the tile count of every row prefix that contains it |
| `Board.SpawnAddsOne` | 2048_modified_version.py:49-53 | a spawn on a board with room keeps it a board of tiles and adds exactly one tile |
| `Board.EmptyGridFacts` | 2048_modified_version.py:43 | the fresh board is well-formed and holds no tiles |
| `Board.ExampleStuckBoard` | 2048_modified_version.py:156-165 | a full board with no equal neighbours cannot move |
| `Controller.AfterSpawn` | 2048_modified_version.py:197-198 | after a move, a tile is spawned exactly when the move changed the board |
| `Controller.Game.constructor` | 2048_modified_version.py:36-38 | the game starts in the state reset_board leaves (the script calls it at line 176) |
| `Controller.Game.ResetBoard` | 2048_modified_version.py:41-47 | score 0, empty history, exactly two non-empty cells, each 2 or 4 |
| `Controller.Game.AddRandomTile` | 2048_modified_version.py:49-53 | with an empty cell: exactly one empty cell becomes 2 or 4, the rest is unchanged and the count grows by one; on a full board nothing changes |
| `Controller.Game.MoveLeft` | 2048_modified_version.py:82-98 | the board becomes Move(old, Left), the score grows by Gain(old, Left), and moved is true iff the board changed |
| `Controller.Game.MoveRight` | 2048_modified_version.py:100-116 | the same for Right |
| `Controller.Game.WriteColumn` | 2048_modified_version.py:133-134 | writing a column changes only that column's cells |
| `Controller.Game.MoveUp` | 2048_modified_version.py:118-135 | the same for Up, column by column |
| `Controller.Game.MoveDown` | 2048_modified_version.py:137-154 | the same for Down |
| `Controller.Game.Undo` | 2048_modified_version.py:167-170 | restores board and score from the most recent snapshot and pops it; with an empty history nothing changes |
| `Controller.Game.ArrowKey` | 2048_modified_version.py:187-206 | it pushes the pre-move (board, score) even when nothing moves, and moved is true iff the move changes the board. The ghost result `spawned` is the board after the move and the spawn: exactly one new 2 or 4 when something moved, the moved board otherwise. gameOver is true iff that board cannot move. If play goes on, the board is that board, the score grows by the move's points and the history gained the snapshot; on game over the state is a fresh reset |
| `Controller.Game.Restart` | 2048_modified_version.py:211-212 | the Restart button leaves a fresh reset state |
| `Controller.UndoWalksBack` | 2048_modified_version.py:167-170 | two arrow keys and two undos restore the original state: the history is a LIFO stack and each undo pops one more entry |
| `Controller.SpawnKeepsSeeds` | 2048_modified_version.py:53 | a spawn on a board of 0s, 2s and 4s leaves such a board |
| `Controller.FullBoardCount` | 2048_modified_version.py:50-51 | a board without an empty cell holds 16 tiles |
| `Controller.NotFullHasEmpty` | 2048_modified_version.py:50-51 | a board with fewer than 16 tiles has an empty cell |

## Left out

- `draw_board`, fonts, colours and pixel constants (lines 9-33, 55-80): rendering only.
- pygame set-up, the event loop, and the mouse hit-testing of the Restart and Undo buttons (lines 173-185, 207-216): input and display. Restart and undo are plain methods (`Restart`, `Undo`).
- The game-over screen and the three-second `pygame.time.wait` (lines 200-205): presentation timing. Only the transition "reset when no move is left" is kept.
- The spawn probabilities: a uniform choice of cell, and 4 with probability 0.1 (lines 52-53). Both are floating-point randomness. The model picks any empty cell and either value nondeterministically, so it captures the possible outcomes but not their likelihoods.
- Score accumulation: the source adds each merged value to `score` inside the merging loop. The model's line methods return the line's total gain, and the move methods add it once per line. The final score is the same. The intermediate values of `score` during one move are not modelled.
- Integer width: Python integers are unbounded, and so are Dafny's `int`. There is no overflow to model.
