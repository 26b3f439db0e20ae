# A verified model of a 2048 rules engine

This project models the rules engine of a 2048-style sliding-tile puzzle on a
fixed 4x4 grid, written in Rust, and proves properties of it in Dafny. Each
cell holds a `BoardValue`, where 0 marks an empty cell and any other value is
a tile. The model covers:

- the row compactor: `move_and_merge_row_left` with its helpers `pull`,
  `merge`, `find_next_value` and `shift_values`. These are methods with
  loops, proved against an independent reference definition:
  - take the tiles of the row;
  - merge equal neighbours pairwise from the left;
  - pad the result with empty cells.
- the left and right moves of a whole field, in both copies (the field mover
  and the game mover);
- the two quarter turns of the grid;
- the score heuristic, exactly as written;
- the tile spawner and its list of empty cells;
- the game-over detector built on the 24 neighbour pairs;
- the map-based `Board` in both of its copies, as classes with a mutable
  `map` field;
- one turn of the game (`move_board`, the four directions, `initialize`),
  as methods on a `Board`;
- the two-state placeholder `Game`, as a class.

Modules follow the source files:

| file | module | models |
|---|---|---|
| board_value.dfy | `BoardValues` | src/board_value.rs |
| field.dfy | `Fields` | src/field.rs, plus the coordinate pair and helpers on cells |
| field_rotate.dfy | `FieldRotate` | src/field_rotate.rs |
| field_move_and_merge.dfy | `FieldMoveAndMerge` | src/field_move_and_merge.rs |
| game_mover.dfy | `GameMover` | src/game_mover.rs |
| highscore_calculator.dfy | `Highscore` | src/highscore_calculator.rs |
| field_add_random_value.dfy | `RandomValue` | src/field_add_random_value.rs |
| field_gameover.dfy | `Gameover` | src/field_gameover.rs |
| board.dfy | `BoardMap` | src/board.rs |
| lib_board.dfy | `LibBoard` | src/lib.rs |
| game_actions.dfy | `GameActions` | src/game_actions.rs |
| game.dfy | `GameStub` | src/game.rs |

### Modelling decisions

- **Rows and fields are `seq`s of length 4.** A `Row` or `Field` is a subset
  type. Rust's arrays are values that are copied on assignment, so the
  source's helpers that change a local copy become methods that reassign a
  local `seq`.
- **One shared row pass.** The row pass and its four helpers in
  src/game_mover.rs:14-64 are, line for line, those of
  src/field_move_and_merge.rs:27-77. They are modelled once.
  `GameMover.MoveAndMergeLeft` applies that shared pass to each row.
- **Items defined outside the modelled files.** `duplicate`, `Coordinate`
  and the random draws are used by the modelled files but defined
  elsewhere. They are modelled as follows:
  - `duplicate` is doubling, so zero doubles to zero;
  - `Coordinate` is a (row, column) pair of indices 0..3;
  - a random draw is a `real`.
- **Storing a field in a `Board`.** `Board::from_field` and
  `save_representation` are called in src/game_actions.rs and defined
  outside the modelled files. Both are modelled as storing all 16 cells, the
  empty ones included.
- **The score.** The score is the position heuristic of
  src/highscore_calculator.rs:24-42, not a per-merge sum.
- **The spawn position.** The spawner always writes into the first empty
  cell and ignores the position draw.
  `GameActions.LeftTurnExample` proves what the code does for the test at
  src/game_actions.rs:262-280. That test expects the 4 at (3, 3); the code
  puts it at (0, 2).

## Model

| member | source | states |
|---|---|---|
| BoardValues.New | src/board_value.rs:7-13 | `get_value(new(v)) == v` for every v, 0 included; a value is empty exactly when it is 0 |
| BoardValues.Default | src/board_value.rs:16-20 | the default value is `new(2)`, a tile |
| BoardValues.EqualIffSameValue | src/board_value.rs:1-4 | two values are equal iff their numbers are |
| BoardValues.BoardValue.Duplicate | src/field_move_and_merge.rs:47-56 | merging doubles a tile; doubling keeps empty and non-empty apart |
| Fields.SetCell | src/field_add_random_value.rs:13-16 | writing one cell sets that cell and leaves the other 15 unchanged |
| Fields.NonZero | src/highscore_calculator.rs:50-58 | the tiles of a row form a sequence of non-empty values no longer than the row |
| Fields.NonZeroAppend | src/highscore_calculator.rs:50-58 | taking the tiles distributes over concatenation |
| Fields.NonZeroNone | src/highscore_calculator.rs:50-58 | a row has no tiles iff every cell is empty |
| FieldRotate.ColumnsAreReverses | src/field_rotate.rs:13-38 | `extract_column` reads the column `extract_column_reversed` reads, in the opposite order, so clockwise row i is counterclockwise row 3 - i reversed |
| FieldRotate.RotateCounterclockwise | src/field_rotate.rs:4-20 | `r[i][j] == f[j][3-i]` for all i, j |
| FieldRotate.RotateClockwise | src/field_rotate.rs:22-38 | `r[i][j] == f[3-j][i]` for all i, j |
| FieldRotate.RotationsAreInverse | src/field_rotate.rs:4-38 | the two rotations undo each other, in both orders |
| FieldRotate.FourClockwiseRotations | src/field_rotate.rs:22-38 | four clockwise turns give back the field |
| FieldRotate.RotateEmptyField | src/field_rotate.rs:54-57 | the empty field is fixed by both rotations |
| FieldRotate.RotateTopLeftTile | src/field_rotate.rs:58-64 | clockwise takes the top-left tile to the top right; counterclockwise takes it to the bottom left |
| FieldRotate.ClockwiseMultiplicity | src/field_rotate.rs:22-38 | a clockwise turn keeps the number of cells holding each value |
| FieldRotate.CounterclockwiseMultiplicity | src/field_rotate.rs:4-20 | a counterclockwise turn keeps the number of cells holding each value |
| FieldRotate.ClockwisePreservesCells | src/field_rotate.rs:22-38 | a clockwise turn keeps the multiset of cell values, so also the number of empty cells |
| FieldRotate.CounterclockwisePreservesCells | src/field_rotate.rs:4-20 | a counterclockwise turn keeps the multiset of cell values |
| FieldMoveAndMerge.FindNextValue | src/field_move_and_merge.rs:58-67 | the result k is at least the start; either `row[k]` is a tile with only empty cells between the start and k, or k is the start and every cell from the start on is empty |
| FieldMoveAndMerge.ShiftValues | src/field_move_and_merge.rs:69-77 | cells before the start are kept, cell i gets cell i+1 from the start up to 2, and the last cell is emptied |
| FieldMoveAndMerge.Pull | src/field_move_and_merge.rs:37-45 | a tile at the index leaves the row unchanged; an empty cell at the index swaps with the first tile after it, every other cell unchanged, and stays empty only if the rest is empty; so the cells before the index and the tiles from the index on, in order, are kept |
| FieldMoveAndMerge.Merge | src/field_move_and_merge.rs:47-56 | if the first tile after the index equals the tile at the index, the cell doubles, that tile is emptied and the cells from index + 2 shift one place left with an empty last cell, so that tile leaves the rest of the tiles; otherwise the row is unchanged (the 0 == 0 case included) |
| FieldMoveAndMerge.MoveAndMergeRowLeft | src/field_move_and_merge.rs:27-35 | the pass over positions 0, 1, 2 computes exactly the reference left move (tiles, pairwise merge, padding) |
| FieldMoveAndMerge.Collapse | src/field_move_and_merge.rs:27-56 | the pairwise merge of a tile sequence is no longer than it and holds only tiles |
| FieldMoveAndMerge.PadRow | src/field_move_and_merge.rs:69-77 | a padded row starts with the given tiles and is empty after them |
| FieldMoveAndMerge.LeftMergedTiles | src/field_move_and_merge.rs:27-56 | the tiles of the moved row are the pairwise merge of the tiles of the row |
| FieldMoveAndMerge.LeftMergedPacked | src/field_move_and_merge.rs:27-56 | the moved row is packed (every tile before every empty cell) and keeps the total of its values |
| FieldMoveAndMerge.LeftMergedTileCount | src/field_move_and_merge.rs:27-56 | the move never adds a tile, and it removes one iff two equal tiles meet |
| FieldMoveAndMerge.CollapseShrinks | src/field_move_and_merge.rs:47-56 | the merge shortens a tile sequence iff it has two equal neighbours |
| FieldMoveAndMerge.CollapseNoPair | src/field_move_and_merge.rs:47-56 | without equal neighbours nothing merges |
| FieldMoveAndMerge.TotalCollapse | src/field_move_and_merge.rs:47-56 | merging keeps the total of the values |
| FieldMoveAndMerge.LeftMergedSlides | src/field_move_and_merge.rs:228-250 | without equal neighbours the tiles only slide, in order |
| FieldMoveAndMerge.LeftMergedChangedHasEmpty | src/field_move_and_merge.rs:27-56 | a row that the move changes has an empty cell afterwards |
| FieldMoveAndMerge.Reverse | src/field_move_and_merge.rs:23-25 | cell i of the result is cell 3 - i of the row |
| FieldMoveAndMerge.ReverseInvolution | src/field_move_and_merge.rs:23-25 | reversing twice gives back the row |
| FieldMoveAndMerge.MoveAndMergeLeft | src/field_move_and_merge.rs:5-12 | each row of the result is the left move of the same row |
| FieldMoveAndMerge.MoveAndMergeRight | src/field_move_and_merge.rs:14-21 | each row of the result is reverse, left move, reverse of the same row |
| FieldMoveAndMerge.MoveLeftChangedHasEmpty | src/field_move_and_merge.rs:5-12 | a field changed by the left move has an empty cell afterwards |
| FieldMoveAndMerge.MoveRightChangedHasEmpty | src/field_move_and_merge.rs:14-21 | a field changed by the right move has an empty cell afterwards |
| FieldMoveAndMerge.RowMovesKeepTotal | src/field_move_and_merge.rs:5-21 | left and right moves keep the total of a row |
| FieldMoveAndMerge.EmptyIsFixed | src/field_move_and_merge.rs:90-97 | the empty row and the empty field are left unchanged by both moves |
| FieldMoveAndMerge.SingleTileMovesToFront | src/field_move_and_merge.rs:209-226 | a single tile anywhere in a row moves to index 0 |
| FieldMoveAndMerge.PairExamples | src/field_move_and_merge.rs:253-274 | [2,2,X,X], [2,X,X,2] and [X,2,X,2] all become [4,X,X,X] |
| FieldMoveAndMerge.ThreeEqualExamples | src/field_move_and_merge.rs:276-290 | [2,2,2,X] and [X,2,2,2] become [4,2,X,X] |
| FieldMoveAndMerge.PairBeforeTileExample | src/field_move_and_merge.rs:276-290 | [2,2,X,2] and [2,X,2,2] become [4,2,X,X] |
| FieldMoveAndMerge.FourEqualExample | src/field_move_and_merge.rs:292-299 | [2,2,2,2] becomes [4,4,X,X] |
| FieldMoveAndMerge.MergedTileStaysExample | src/field_move_and_merge.rs:325-331 | a freshly merged tile does not merge again: [4,2,2,4] becomes [4,4,4,X] |
| FieldMoveAndMerge.SlideExamples | src/field_move_and_merge.rs:228-250 | distinct tiles only slide: [X,2,4,X] becomes [2,4,X,X]; [2,4,8,16] is unchanged |
| FieldMoveAndMerge.PairMovesToFront | src/field_move_and_merge.rs:301-323 | [X,X,v,v] becomes [2v,X,X,X] |
| FieldMoveAndMerge.FieldExamples | src/field_move_and_merge.rs:116-132 | the field tests of both moves: pairs at one end merge into one tile at the other end, row by row |
| GameMover.MoveAndMergeLeft | src/game_mover.rs:5-22 | the row pass applied to each of the four rows gives the left move of src/field_move_and_merge.rs |
| Highscore.GetVectorWithoutZeros | src/highscore_calculator.rs:50-58 | the result is exactly the tiles of the row, in order |
| Highscore.HasSameValues | src/highscore_calculator.rs:44-48 | true iff both rows hold the same tiles in the same order |
| Highscore.CalculateAddedPointsPerRowLeft | src/highscore_calculator.rs:24-42 | the result is the row heuristic: 0 when the tiles are the same, else the new values at the changed positions among 0, 1, 2 |
| Highscore.CalculateAddedPoints | src/highscore_calculator.rs:7-22 | the result is the field heuristic on `to[0][0]` and `to[1][0]` |
| Highscore.RowPointsCases | src/highscore_calculator.rs:24-42 | an unchanged or only slid row scores 0; the score is at most `to[0]+to[1]+to[2]` |
| Highscore.RowPointsIgnoresLastCell | src/highscore_calculator.rs:28-41 | index 3 is never read: rows agreeing on 0..2 score alike once tiles changed |
| Highscore.SameTilesAfterLeftMove | src/highscore_calculator.rs:24-48 | against the left move: a row only slides iff no two equal tiles meet, and then it scores 0 |
| Highscore.SameTilesExamples | src/highscore_calculator.rs:73-87 | tiles moved to the left without a merge count as the same values |
| Highscore.MergedTilesExamples | src/highscore_calculator.rs:88-102 | rows where a pair merged do not count as the same values |
| Highscore.RowPointsExamples | src/highscore_calculator.rs:122-193 | the merge tests score 4, 8, 4, 4 and 4 |
| Highscore.RowPointsSlideExamples | src/highscore_calculator.rs:138-161 | equal rows and a slid single tile score 0 |
| Highscore.RowPointsLongerSlideExamples | src/highscore_calculator.rs:162-178 | two or three distinct tiles slid left score 0 |
| Highscore.RowPointsCountsMovedTile | src/highscore_calculator.rs:195-201 | [X,2,2,4] to [4,4,X,X] scores 8 under the heuristic |
| Highscore.FieldPointsProperties | src/highscore_calculator.rs:7-22 | the field score ignores `from` and every cell but `to[0][0]` and `to[1][0]`, is at most 16, and is 0 iff neither of those cells is 4 or 8 |
| Highscore.FieldPointsExamples | src/highscore_calculator.rs:203-240 | equal empty fields give 0; one 4 gives 4; two 4s give 8 |
| RandomValue.GetNewNumber | src/field_add_random_value.rs:32-43 | a 2 iff the draw is below 0.9, a 4 iff it is at least 0.9 |
| RandomValue.GetCoordinatesOfEmptyCells | src/field_add_random_value.rs:19-30 | the nested loops list exactly the row-major list of empty cells |
| RandomValue.AddValue | src/field_add_random_value.rs:6-17 | requires an empty cell (the source fails on `vec[0]` otherwise); the result is the spawn, whatever the position draw |
| RandomValue.EmptyCellsMembers | src/field_add_random_value.rs:19-30 | a coordinate is listed iff its cell is empty; the list is non-empty iff the field has an empty cell |
| RandomValue.EmptyInRowsOrdered | src/field_add_random_value.rs:19-30 | the list is in strictly increasing row-major order |
| RandomValue.FirstEmptyCell | src/field_add_random_value.rs:14 | the first listed cell is empty and no empty cell comes before it |
| RandomValue.SpawnFillsFirstEmptyCell | src/field_add_random_value.rs:6-17 | the new number goes into the first empty cell, every other cell is unchanged, and exactly one empty cell fewer remains |
| RandomValue.FirstEmptyCellIs | src/field_add_random_value.rs:19-30 | an empty cell with only tiles before it is listed first |
| RandomValue.SpawnIntoCorner | src/field_add_random_value.rs:73-83 | an empty top-left cell receives the new number |
| RandomValue.SpawnNextToCornerTile | src/field_add_random_value.rs:84-94 | with a tile in the corner and (0,1) empty, the number goes to (0,1) |
| RandomValue.SpawnLastCell | src/field_add_random_value.rs:95-103 | when (3,3) is the only empty cell it receives the number, and no empty cell remains |
| Gameover.GetAllCellNeighbours | src/field_gameover.rs:17-31 | the nested loops produce exactly the reference list of pairs, vertical before horizontal, in row-major order |
| Gameover.PairCount | src/field_gameover.rs:17-31 | there are exactly 24 pairs |
| Gameover.PairsAreAdjacent | src/field_gameover.rs:17-31 | every listed pair is a cell with its lower or right neighbour |
| Gameover.AdjacentAreListed | src/field_gameover.rs:17-31 | every cell with its lower and its right neighbour is listed |
| Gameover.IsGameOver | src/field_gameover.rs:4-15 | true iff every pair has a tile first that differs from its neighbour |
| Gameover.ReportedOverMeans | src/field_gameover.rs:4-31 | the detector says over iff every cell but (3,3) holds a tile and no two adjacent cells are equal |
| Gameover.EmptyCellNotOver | src/field_gameover.rs:7-9 | an empty cell other than (3,3) means not over |
| Gameover.EqualNeighboursNotOver | src/field_gameover.rs:10-12 | two equal adjacent cells mean not over |
| Gameover.ChequeredIsOver | src/field_gameover.rs:54-63 | a full field of two alternating distinct tiles is over |
| Gameover.CheckerboardIsOver | src/field_gameover.rs:54-63 | the 2/4 checkerboard of the test is over |
| Gameover.LastCellOverlooked | src/field_gameover.rs:4-31 | with only (3,3) empty and no equal neighbours, the detector says over, although the game is not over and a right move changes the field |
| Gameover.HoledCheckerboardReportedOver | src/field_gameover.rs:4-31 | the checkerboard with (3,3) emptied is reported over, and a right move changes it |
| Gameover.GameOverMeans | src/field_gameover.rs:4-15 | the corrected check holds iff the field is full and no two adjacent cells are equal |
| Gameover.IsGameOverCorrected | src/field_gameover.rs:4-15 | the loop with both cells of each pair tested computes the corrected check |
| Gameover.GameOverIsStuck | src/field_gameover.rs:4-15 | when the corrected check holds, the left and right moves change nothing |
| BoardMap.RepresentationOf | src/board.rs:31-45 | cell c of the representation is the stored value, or empty without one |
| BoardMap.FieldMap | src/game_actions.rs:77 | storing a field puts every coordinate in the map, with the cell of the field |
| BoardMap.Board.constructor | src/board.rs:13-17 | a new board has no value at any coordinate |
| BoardMap.Board.FromField | src/game_actions.rs:108-124 | a board built from a field stores all of it and shows it back |
| BoardMap.Board.SetValue | src/board.rs:23-25 | the value is then present and returned; no other coordinate gains, loses or changes a value |
| BoardMap.Board.GetRepresentation | src/board.rs:31-45 | the loops give the stored value where present, else empty, at every coordinate |
| BoardMap.Board.SaveRepresentation | src/game_actions.rs:77 | the board stores all of the field and shows it back |
| BoardMap.EmptyMapShowsEmptyField | src/board.rs:32-34 | a new board shows the empty field |
| BoardMap.FieldRoundTrip | src/board.rs:31-45 | storing a field and reading it back gives the field |
| BoardMap.MapRoundTrip | src/board.rs:31-45 | reading back a map that has every coordinate and storing it gives the map |
| BoardMap.SetValueShowsCell | src/board.rs:23-45 | setting a value changes exactly that cell of the representation |
| BoardMap.FirstCoordinateExample | src/board.rs:137-162 | a value at (0,0) shows at the top left |
| BoardMap.TwoCoordinatesExample | src/board.rs:178-211 | values at (0,0) and (1,0) show at the start of the first two rows |
| BoardMap.LastRowExample | src/board.rs:214-230 | values at (3,0) and (3,3) show at both ends of the last row |
| LibBoard.Board.constructor | src/lib.rs:12-16 | a new board has no value at any coordinate |
| LibBoard.Board.SetValue | src/lib.rs:22-24 | the value is then present and returned; no other coordinate gains, loses or changes a value |
| LibBoard.TwoValues | src/lib.rs:66-100 | after setting (0,0) and then (1,0), both hold their values and no other coordinate has one |
| GameActions.MoveBoard | src/game_actions.rs:64-79 | the points are the score of the old and the moved field, independent of both draws; the board then stores the moved field, with a spawn iff the move changed it |
| GameActions.MoveLeft | src/game_actions.rs:50-62 | one turn with the left move |
| GameActions.MoveRight | src/game_actions.rs:22-34 | one turn with the right move |
| GameActions.MoveUp | src/game_actions.rs:36-48 | one turn with the up move, passed in |
| GameActions.MoveDown | src/game_actions.rs:8-20 | one turn with the down move, passed in |
| GameActions.Initialize | src/game_actions.rs:81-91 | the board stores the spawn on its current field |
| GameActions.LeftHasRoom | src/game_actions.rs:74-76 | a left move that changes the field leaves room for the spawn |
| GameActions.RightHasRoom | src/game_actions.rs:74-76 | a right move that changes the field leaves room for the spawn |
| GameActions.UnchangedTurn | src/game_actions.rs:74-77 | a move that changes nothing leaves the field as it was, with no spawn |
| GameActions.ChangedTurn | src/game_actions.rs:74-77 | a move that changes the field is followed by exactly one new tile, in its first empty cell |
| GameActions.MovesKeepFieldTotal | src/game_actions.rs:72 | the left and right moves keep the total of the field |
| GameActions.SpawnAddsToTotal | src/game_actions.rs:75 | the spawn adds the new number to the total |
| GameActions.TurnTotal | src/game_actions.rs:71-77 | a turn whose move keeps the total adds the new number iff the move changed the field |
| GameActions.LeftTurnTotal | src/game_actions.rs:50-79 | the same for the left move |
| GameActions.RightTurnTotal | src/game_actions.rs:22-34 | the same for the right move |
| GameActions.NothingChangedLeftExample | src/game_actions.rs:282-301 | a lone tile at the bottom left is not moved by a left turn, and nothing is spawned |
| GameActions.NothingChangedRightExample | src/game_actions.rs:181-200 | a lone tile at the top right is not moved by a right turn, and nothing is spawned |
| GameActions.RightTurnExample | src/game_actions.rs:160-179 | the right turn of the test field with draw 0.0 gives the expected board |
| GameActions.LeftTurnExample | src/game_actions.rs:261-280 | the left turn of the same field with draw 0.99 spawns a 4 into (0,2), the first empty cell |
| GameActions.InitializeEmptyExample | src/game_actions.rs:323-340 | initializing an empty board with draw 0.0 puts a 2 at (0,0) |
| GameStub.Game.constructor | src/game.rs:8-10 | a new game is not moved and shows a single 2 in row 2 |
| GameStub.Game.GetScore | src/game.rs:12-14 | the score is 0 in every state |
| GameStub.Game.GetField | src/game.rs:16-22 | the field shows a single 2 in the first column: in row 3 once moved, in row 2 before |
| GameStub.Game.MoveDown | src/game.rs:24-26 | after a move down the game is moved and shows the 2 in row 3 |
| GameStub.MoveDownTwice | src/game.rs:24-26 | a second move down shows the same field as the first |
| GameStub.NewGame | src/game.rs:41-63 | a new game shows its 2 in row 2 and scores 0 |

## Left out

- BoardValues.BoardValue.Duplicate: does not model the `u32` overflow of doubling a tile at or above 2^31, because values are unbounded `nat`s.
- Highscore.CalculateAddedPoints: the `u64` score is an unbounded `nat`; with at most 16 points per call it cannot overflow.
- src/random.rs: the random source is not part of this model; the two draws are `real` parameters, and only the value draw is compared with 0.9.
- RandomValue.AddValue: on a field without an empty cell the source panics at `vec[0]`; the requires `EmptyCells(f) != []` excludes that case instead of modelling the panic.
- GameActions.Initialize: on a full board the source panics in `add_value`, at the same `vec[0]`; the requires `EmptyCells(board.Representation()) != []` excludes that case.
- GameActions.MoveBoard: when a move changes the field and leaves no empty cell, the source panics in `add_value`; the requires `RoomAfterChange` excludes that case. For the left and right moves it is proved (`GameActions.LeftHasRoom`, `GameActions.RightHasRoom`), so `MoveLeft` and `MoveRight` have no requires.
- GameActions.MoveUp: `move_and_merge_up` and `calculate_added_points_up` are defined outside the modelled files, so the move and the scorer are parameters; the requires asks that a changed field has an empty cell, which the source would otherwise fail on in `add_value`.
- GameActions.MoveDown: likewise for `move_and_merge_down` and `calculate_added_points_down`.
- GameActions.MoveLeft: the scorer `calculate_added_points_left` is defined outside the modelled files, so it is a parameter.
- GameActions.MoveRight: the scorer `calculate_added_points_right` is defined outside the modelled files, so it is a parameter.
- The points tests at src/game_actions.rs:143-156, 202-215 and 303-317 depend on the scorers defined outside the modelled files, and are not modelled.
- The move-down test at src/game_actions.rs:107-124 depends on `move_and_merge_down`, which is defined outside the modelled files, and is not modelled.
- The test at src/game_actions.rs:261-280 expects the spawned 4 at (3,3). The code writes it into the first empty cell, (0,2). `GameActions.LeftTurnExample` states the code's result.
- The commented-out score test at src/highscore_calculator.rs:195-201 expects 4; the heuristic gives 8 (`Highscore.RowPointsCountsMovedTile`).
- `Board::from_field` and `save_representation` are defined outside the modelled files; both are modelled as storing all 16 cells, empty ones included.
- `Default` for `BoardValue`, `Board` and `Game` is the same as `new`, so it has no member of its own.
- Hashing of `Coordinate` and the `Debug` derivations are not modelled; the maps are Dafny `map`s.
- The test constants of src/field.rs are the constants `Empty`, `Two`, `Four`, `Eight`, `Sixteen`, `EmptyRow` and `EmptyField`.
- `get_value` on a coordinate without a value panics in the source; here it has the precondition `HasValue`.

## Findings

| source | as written | input that shows it | evidently intended | confidence | as-written member | corrected member |
|---|---|---|---|---|---|---|
| src/field_gameover.rs:4-31 | only the first cell of each neighbour pair is tested for 0; (3,3) is never a first cell, so an empty (3,3) goes unnoticed | [[4,2,4,2],[2,4,2,4],[4,2,4,2],[2,4,2,0]] is reported over, yet a right move changes it | the game is over only when the field is full and no two adjacent cells are equal | not executed | Gameover.LastCellOverlooked | Gameover.IsGameOverCorrected |
