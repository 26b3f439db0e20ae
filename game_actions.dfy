/** One turn of the game on a board: read the field, move it, score the
    move, spawn a tile when the move changed something, store the result.
    The move and score functions are parameters; the left and right moves
    are the ones of `FieldMoveAndMerge`. The up and down moves and the
    per-direction scorers are not part of this model and are passed in. */
module GameActions {
  import opened BoardValues
  import opened Fields
  import opened FieldMoveAndMerge
  import opened RandomValue
  import opened BoardMap

  /** A changed field has room for the spawn that follows. */
  predicate RoomAfterChange(move: Field -> Field, f: Field) {
    move(f) != f ==> EmptyCells(move(f)) != []
  }

  /** The field a turn leaves: the moved field, with a new tile when the
      move changed something. */
  function Turn(move: Field -> Field, f: Field, valueDraw: real): Field
    requires RoomAfterChange(move, f)
  {
    var moved := move(f);
    if f != moved then Spawn(moved, valueDraw) else moved
  }

  /** `move_board`. The points are computed from the field before the
      spawn, and neither draw affects them. */
  method MoveBoard(board: Board, move: Field -> Field, score: (Field, Field) -> nat,
                   valueDraw: real, positionDraw: real) returns (points: nat)
    requires RoomAfterChange(move, board.Representation())
    modifies board
    ensures points == score(old(board.Representation()), move(old(board.Representation())))
    ensures board.cells == FieldMap(Turn(move, old(board.Representation()), valueDraw))
    ensures board.Representation() == Turn(move, old(board.Representation()), valueDraw)
  {
    var oldField := board.GetRepresentation();
    var moved := move(oldField);
    var gainedPoints := score(oldField, moved);
    if oldField != moved {
      moved := AddValue(moved, valueDraw, positionDraw);
    }
    board.SaveRepresentation(moved);
    points := gainedPoints;
  }

  /** `move_left`. */
  method MoveLeft(board: Board, score: (Field, Field) -> nat, valueDraw: real, positionDraw: real)
    returns (points: nat)
    modifies board
    ensures points == score(old(board.Representation()), MoveAndMergeLeft(old(board.Representation())))
    ensures RoomAfterChange(MoveAndMergeLeft, old(board.Representation()))
    ensures board.cells == FieldMap(Turn(MoveAndMergeLeft, old(board.Representation()), valueDraw))
  {
    LeftHasRoom(board.Representation());
    points := MoveBoard(board, MoveAndMergeLeft, score, valueDraw, positionDraw);
  }

  /** `move_right`. */
  method MoveRight(board: Board, score: (Field, Field) -> nat, valueDraw: real, positionDraw: real)
    returns (points: nat)
    modifies board
    ensures points == score(old(board.Representation()), MoveAndMergeRight(old(board.Representation())))
    ensures RoomAfterChange(MoveAndMergeRight, old(board.Representation()))
    ensures board.cells == FieldMap(Turn(MoveAndMergeRight, old(board.Representation()), valueDraw))
  {
    RightHasRoom(board.Representation());
    points := MoveBoard(board, MoveAndMergeRight, score, valueDraw, positionDraw);
  }

  /** `move_up`, with the move and its scorer passed in. */
  method MoveUp(board: Board, moveUp: Field -> Field, score: (Field, Field) -> nat,
                valueDraw: real, positionDraw: real) returns (points: nat)
    requires RoomAfterChange(moveUp, board.Representation())
    modifies board
    ensures points == score(old(board.Representation()), moveUp(old(board.Representation())))
    ensures board.cells == FieldMap(Turn(moveUp, old(board.Representation()), valueDraw))
  {
    points := MoveBoard(board, moveUp, score, valueDraw, positionDraw);
  }

  /** `move_down`, with the move and its scorer passed in. */
  method MoveDown(board: Board, moveDown: Field -> Field, score: (Field, Field) -> nat,
                  valueDraw: real, positionDraw: real) returns (points: nat)
    requires RoomAfterChange(moveDown, board.Representation())
    modifies board
    ensures points == score(old(board.Representation()), moveDown(old(board.Representation())))
    ensures board.cells == FieldMap(Turn(moveDown, old(board.Representation()), valueDraw))
  {
    points := MoveBoard(board, moveDown, score, valueDraw, positionDraw);
  }

  /** `initialize`: a tile spawned into the current field. */
  method Initialize(board: Board, valueDraw: real, positionDraw: real)
    requires EmptyCells(board.Representation()) != []
    modifies board
    ensures board.cells == FieldMap(Spawn(old(board.Representation()), valueDraw))
  {
    var current := board.GetRepresentation();
    var spawned := AddValue(current, valueDraw, positionDraw);
    board.SaveRepresentation(spawned);
  }

  // ---------------------------------------------------------------------
  // Properties of a turn
  // ---------------------------------------------------------------------

  /** A left move that changes the field leaves an empty cell for the spawn. */
  lemma {:induction false} LeftHasRoom(f: Field)
    ensures RoomAfterChange(MoveAndMergeLeft, f)
  {
    if MoveAndMergeLeft(f) != f {
      MoveLeftChangedHasEmpty(f);
      EmptyCellsMembers(MoveAndMergeLeft(f));
    }
  }

  /** A right move that changes the field leaves an empty cell for the spawn. */
  lemma {:induction false} RightHasRoom(f: Field)
    ensures RoomAfterChange(MoveAndMergeRight, f)
  {
    if MoveAndMergeRight(f) != f {
      MoveRightChangedHasEmpty(f);
      EmptyCellsMembers(MoveAndMergeRight(f));
    }
  }

  /** A move that changes nothing leaves the field as it is: no tile is
      spawned. */
  lemma {:induction false} UnchangedTurn(move: Field -> Field, f: Field, valueDraw: real)
    requires move(f) == f
    ensures RoomAfterChange(move, f)
    ensures Turn(move, f, valueDraw) == f
  {
  }

  /** A move that changes the field is followed by exactly one new tile, a
      2 or a 4, in the first empty cell of the moved field; every other
      cell keeps its moved value. */
  lemma {:induction false} ChangedTurn(move: Field -> Field, f: Field, valueDraw: real)
    requires RoomAfterChange(move, f) && move(f) != f
    ensures var moved := move(f); var c := EmptyCells(moved)[0];
      At(moved, c).IsEmpty()
      && At(Turn(move, f, valueDraw), c) == GetNewNumber(valueDraw)
      && (GetNewNumber(valueDraw) == Two || GetNewNumber(valueDraw) == Four)
      && (forall d: Coordinate | d != c :: At(Turn(move, f, valueDraw), d) == At(moved, d))
      && |EmptyCells(Turn(move, f, valueDraw))| == |EmptyCells(moved)| - 1
  {
    SpawnFillsFirstEmptyCell(move(f), valueDraw);
  }

  /** The sum of all values on the field. */
  function FieldTotal(f: Field): nat {
    Total(f[0]) + Total(f[1]) + Total(f[2]) + Total(f[3])
  }

  /** Filling an empty cell adds the new value to the field total. */
  lemma {:induction false} FillAddsToTotal(f: Field, c: Coordinate, v: BoardValue)
    requires At(f, c).IsEmpty()
    ensures FieldTotal(SetCell(f, c, v)) == FieldTotal(f) + v.value
  {
    var g := SetCell(f, c, v);
    RowTotal(f[c.row]);
    RowTotal(g[c.row]);
    assert forall i: Index | i != c.row :: g[i] == f[i];
  }

  /** Both moves keep the field total. */
  lemma {:induction false} MovesKeepFieldTotal(f: Field)
    ensures FieldTotal(MoveAndMergeLeft(f)) == FieldTotal(f)
    ensures FieldTotal(MoveAndMergeRight(f)) == FieldTotal(f)
  {
    var l := MoveAndMergeLeft(f);
    var r := MoveAndMergeRight(f);
    forall i: Index ensures Total(l[i]) == Total(f[i]) && Total(r[i]) == Total(f[i]) {
      RowMovesKeepTotal(f[i]);
    }
  }

  /** A spawn adds the new value to the field total. */
  lemma {:induction false} SpawnAddsToTotal(f: Field, valueDraw: real)
    requires EmptyCells(f) != []
    ensures FieldTotal(Spawn(f, valueDraw)) == FieldTotal(f) + GetNewNumber(valueDraw).value
  {
    SpawnFillsFirstEmptyCell(f, valueDraw);
    FillAddsToTotal(f, EmptyCells(f)[0], GetNewNumber(valueDraw));
  }

  /** A turn whose move keeps the field total adds exactly the spawned
      value to it, and only when the move changed the field. */
  lemma {:induction false} TurnTotal(move: Field -> Field, f: Field, valueDraw: real)
    requires RoomAfterChange(move, f)
    requires FieldTotal(move(f)) == FieldTotal(f)
    ensures FieldTotal(Turn(move, f, valueDraw))
         == FieldTotal(f) + (if move(f) == f then 0 else GetNewNumber(valueDraw).value)
  {
    if move(f) != f {
      SpawnAddsToTotal(move(f), valueDraw);
    }
  }

  /** A left turn keeps every value on the field and adds the spawned tile
      when the field changed. */
  lemma {:induction false} LeftTurnTotal(f: Field, valueDraw: real)
    ensures RoomAfterChange(MoveAndMergeLeft, f)
    ensures FieldTotal(Turn(MoveAndMergeLeft, f, valueDraw))
         == FieldTotal(f) + (if MoveAndMergeLeft(f) == f then 0 else GetNewNumber(valueDraw).value)
  {
    LeftHasRoom(f);
    MovesKeepFieldTotal(f);
    TurnTotal(MoveAndMergeLeft, f, valueDraw);
  }

  /** A right turn keeps every value on the field and adds the spawned tile
      when the field changed. */
  lemma {:induction false} RightTurnTotal(f: Field, valueDraw: real)
    ensures RoomAfterChange(MoveAndMergeRight, f)
    ensures FieldTotal(Turn(MoveAndMergeRight, f, valueDraw))
         == FieldTotal(f) + (if MoveAndMergeRight(f) == f then 0 else GetNewNumber(valueDraw).value)
  {
    RightHasRoom(f);
    MovesKeepFieldTotal(f);
    TurnTotal(MoveAndMergeRight, f, valueDraw);
  }

  // ---------------------------------------------------------------------
  // The fields of the tests
  // ---------------------------------------------------------------------

  /** A single tile v in the bottom-left corner. */
  function CornerTile(v: BoardValue): Field {
    [EmptyRow, EmptyRow, EmptyRow, [v, Empty, Empty, Empty]]
  }

  /** A single tile v in the top-right corner. */
  function RightCornerTile(v: BoardValue): Field {
    [[Empty, Empty, Empty, v], EmptyRow, EmptyRow, EmptyRow]
  }

  /** A field whose every row is left as it is by a left move is a fixed
      point of the left move. */
  lemma {:induction false} LeftFixed(f: Field)
    requires forall i: Index :: LeftMerged(f[i]) == f[i]
    ensures MoveAndMergeLeft(f) == f
  {
    RowwiseEqual(MoveAndMergeLeft(f), f);
  }

  /** The same for the right move. */
  lemma {:induction false} RightFixed(f: Field)
    requires forall i: Index :: LeftMerged(Reverse(f[i])) == Reverse(f[i])
    ensures MoveAndMergeRight(f) == f
  {
    forall i: Index ensures RightMerged(f[i]) == f[i] {
      ReverseInvolution(f[i]);
    }
    RowwiseEqual(MoveAndMergeRight(f), f);
  }

  /** A tile in the bottom-left corner does not move left, so no tile is
      spawned (the test uses a 2). */
  lemma {:induction false} NothingChangedLeftExample(v: BoardValue, valueDraw: real)
    requires !v.IsEmpty()
    ensures MoveAndMergeLeft(CornerTile(v)) == CornerTile(v)
    ensures Turn(MoveAndMergeLeft, CornerTile(v), valueDraw) == CornerTile(v)
  {
    var f := CornerTile(v);
    assert MoveAndMergeLeft(f) == f by {
      assert LeftMerged(f[3]) == f[3] by {
        SingleTileMovesToFront(0, v);
        assert EmptyRow[0 := v] == f[3];
      }
      assert LeftMerged(EmptyRow) == EmptyRow by {
        EmptyIsFixed();
      }
      LeftFixed(f);
    }
    UnchangedTurn(MoveAndMergeLeft, f, valueDraw);
  }

  /** A tile in the top-right corner does not move right, so no tile is
      spawned (the test uses a 2). */
  lemma {:induction false} NothingChangedRightExample(v: BoardValue, valueDraw: real)
    requires !v.IsEmpty()
    ensures MoveAndMergeRight(RightCornerTile(v)) == RightCornerTile(v)
    ensures Turn(MoveAndMergeRight, RightCornerTile(v), valueDraw) == RightCornerTile(v)
  {
    var f := RightCornerTile(v);
    assert MoveAndMergeRight(f) == f by {
      RightEndTileStays(v);
      EmptyRowStays();
      forall i: Index ensures RightMerged(f[i]) == f[i] {
        if i > 0 {
          assert f[i] == EmptyRow;
        }
      }
      RowwiseEqual(MoveAndMergeRight(f), f);
    }
    UnchangedTurn(MoveAndMergeRight, f, valueDraw);
  }

  /** A row whose only tile is at its right end is not changed by a right move. */
  lemma {:induction false} RightEndTileStays(v: BoardValue)
    requires !v.IsEmpty()
    ensures RightMerged([Empty, Empty, Empty, v]) == [Empty, Empty, Empty, v]
  {
    SingleTileMovesToFront(0, v);
    assert EmptyRow[0 := v] == Reverse([Empty, Empty, Empty, v]);
  }

  /** The empty row is not changed by a right move. */
  lemma EmptyRowStays()
    ensures RightMerged(EmptyRow) == EmptyRow
  {
    EmptyIsFixed();
    assert Reverse(EmptyRow) == EmptyRow;
  }

  /** Initializing an empty board with the value draw 0.0 puts a 2 in the
      top-left corner. */
  lemma InitializeEmptyExample()
    ensures EmptyCells(EmptyField) != []
    ensures Spawn(EmptyField, 0.0) == EmptyField[0 := [Two, Empty, Empty, Empty]]
  {
    SpawnIntoCorner(EmptyField, 0.0);
    assert GetNewNumber(0.0) == Two;
    assert EmptyRow[0 := Two] == [Two, Empty, Empty, Empty];
    assert SetCell(EmptyField, Coordinate(0, 0), Two) == EmptyField[0 := EmptyRow[0 := Two]];
  }

  /** The field of the tests of a left or right move that changes every row. */
  const LeftTestField: Field :=
    [[Two, Two, Empty, Two], [Two, Empty, Empty, Two], [Empty, Empty, Empty, Two], [Empty, Empty, Two, Two]]

  /** That field after the left move, before the spawn. */
  const LeftTestMoved: Field :=
    [[Four, Two, Empty, Empty], [Four, Empty, Empty, Empty], [Two, Empty, Empty, Empty], [Four, Empty, Empty, Empty]]

  /** Every row of the test field changes under the left move. */
  lemma LeftTestMove()
    ensures MoveAndMergeLeft(LeftTestField) == LeftTestMoved
  {
    var f, m := LeftTestField, LeftTestMoved;
    assert LeftMerged(f[0]) == m[0] by {
      PairBeforeTileExample();
    }
    assert LeftMerged(f[1]) == m[1] by {
      PairExamples();
    }
    assert LeftMerged(f[2]) == m[2] by {
      SingleTileMovesToFront(3, Two);
      assert EmptyRow[3 := Two] == f[2];
    }
    assert LeftMerged(f[3]) == m[3] by {
      PairMovesToFront(Two);
    }
    RowwiseEqual(MoveAndMergeLeft(f), m);
  }

  /** The first empty cell of the moved test field is (0, 2). */
  lemma {:induction false} LeftTestSpawn(valueDraw: real)
    ensures EmptyCells(LeftTestMoved) != []
    ensures Spawn(LeftTestMoved, valueDraw) == LeftTestMoved[0 := [Four, Two, GetNewNumber(valueDraw), Empty]]
  {
    var c := Coordinate(0, 2);
    forall d: Coordinate | Pos(d) < Pos(c) ensures !At(LeftTestMoved, d).IsEmpty() {
      assert d.row == 0 && d.column < 2;
    }
    FirstEmptyCellIs(LeftTestMoved, c);
    assert LeftTestMoved[0][2 := GetNewNumber(valueDraw)] == [Four, Two, GetNewNumber(valueDraw), Empty];
  }

  /** With the value draw 0.99 the left move spawns a 4, and it goes into
      the first empty cell, (0, 2), whatever the position draw. */
  lemma LeftTurnExample()
    ensures MoveAndMergeLeft(LeftTestField) == LeftTestMoved
    ensures EmptyCells(LeftTestMoved) != []
    ensures Turn(MoveAndMergeLeft, LeftTestField, 0.99) == LeftTestMoved[0 := [Four, Two, Four, Empty]]
  {
    LeftTestMove();
    LeftTestSpawn(0.99);
    assert GetNewNumber(0.99) == Four;
  }

  /** The same test field after the right move, before the spawn. */
  const RightTestMoved: Field :=
    [[Empty, Empty, Two, Four], [Empty, Empty, Empty, Four], [Empty, Empty, Empty, Two], [Empty, Empty, Empty, Four]]

  /** Every row of the test field moves to its right end. */
  lemma RightTestMove()
    ensures MoveAndMergeRight(LeftTestField) == RightTestMoved
  {
    var f, m := LeftTestField, RightTestMoved;
    assert RightMerged(f[0]) == m[0] by {
      PairBeforeTileExample();
      assert Reverse(f[0]) == [Two, Empty, Two, Two];
      assert Reverse([Four, Two, Empty, Empty]) == m[0];
    }
    assert RightMerged(f[1]) == m[1] by {
      PairExamples();
      assert Reverse(f[1]) == f[1];
      assert Reverse([Four, Empty, Empty, Empty]) == m[1];
    }
    assert RightMerged(f[2]) == m[2] by {
      RightEndTileStays(Two);
    }
    assert RightMerged(f[3]) == m[3] by {
      PairExamples();
      assert Reverse(f[3]) == [Two, Two, Empty, Empty];
      assert Reverse([Four, Empty, Empty, Empty]) == m[3];
    }
    RowwiseEqual(MoveAndMergeRight(f), m);
  }

  /** With the value draw 0.0 the right move spawns a 2 into the empty
      top-left corner. */
  lemma RightTurnExample()
    ensures MoveAndMergeRight(LeftTestField) == RightTestMoved
    ensures EmptyCells(RightTestMoved) != []
    ensures Turn(MoveAndMergeRight, LeftTestField, 0.0) == RightTestMoved[0 := [Two, Empty, Two, Four]]
  {
    RightTestMove();
    RightTestSpawn(0.0);
    assert GetNewNumber(0.0) == Two;
  }

  /** The moved test field has its first empty cell in the top-left corner. */
  lemma {:induction false} RightTestSpawn(valueDraw: real)
    ensures EmptyCells(RightTestMoved) != []
    ensures Spawn(RightTestMoved, valueDraw) == RightTestMoved[0 := [GetNewNumber(valueDraw), Empty, Two, Four]]
  {
    SpawnIntoCorner(RightTestMoved, valueDraw);
    assert RightTestMoved[0][0 := GetNewNumber(valueDraw)] == [GetNewNumber(valueDraw), Empty, Two, Four];
  }
}
