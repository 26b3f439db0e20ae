/** Game-over detection. The field is scanned in row-major order; every cell
    contributes a pair with the cell below it (rows 0..2) and a pair with the
    cell to its right (columns 0..2), 24 pairs in all. The game counts as
    over when no pair has an empty first cell and no pair holds two equal
    cells. The bottom-right cell is never the first cell of a pair, so its
    emptiness goes unnoticed; `ReportedOver` models that, `GameOver` is the
    intended test. */
module Gameover {
  import opened BoardValues
  import opened Fields
  import opened FieldMoveAndMerge

  /** A cell and the neighbour it is compared with. */
  type Neighbours = (BoardValue, BoardValue)

  function Below(c: Coordinate): Coordinate
    requires c.row < 3
  {
    Coordinate(c.row + 1, c.column)
  }

  function RightOf(c: Coordinate): Coordinate
    requires c.column < 3
  {
    Coordinate(c.row, c.column + 1)
  }

  // ---------------------------------------------------------------------
  // The pairs, as a reference list
  // ---------------------------------------------------------------------

  /** The pairs pushed for the cell at (row, column): with the cell below,
      then with the cell to the right, each where it exists. */
  function CellNeighbours(f: Field, row: Index, column: Index): seq<Neighbours> {
    (if row < 3 then [(f[row][column], f[row + 1][column])] else [])
    + (if column < 3 then [(f[row][column], f[row][column + 1])] else [])
  }

  /** The pairs of the first n cells of row `row`. */
  function NeighboursInRow(f: Field, row: Index, n: nat): seq<Neighbours>
    requires n <= 4
  {
    if n == 0 then [] else NeighboursInRow(f, row, n - 1) + CellNeighbours(f, row, n - 1)
  }

  /** The pairs of the first m rows. */
  function NeighboursInRows(f: Field, m: nat): seq<Neighbours>
    requires m <= 4
  {
    if m == 0 then [] else NeighboursInRows(f, m - 1) + NeighboursInRow(f, m - 1, 4)
  }

  /** All pairs of the field, in the order the scan produces them. */
  function AllCellNeighbours(f: Field): seq<Neighbours> {
    NeighboursInRows(f, 4)
  }

  /** `get_all_cell_neighbours`. */
  method GetAllCellNeighbours(f: Field) returns (tuples: seq<Neighbours>)
    ensures tuples == AllCellNeighbours(f)
  {
    tuples := [];
    for row := 0 to 4
      invariant tuples == NeighboursInRows(f, row)
    {
      for column := 0 to 4
        invariant tuples == NeighboursInRows(f, row) + NeighboursInRow(f, row, column)
      {
        var current := f[row][column];
        if row < 3 {
          tuples := tuples + [(current, f[row + 1][column])];
        }
        if column < 3 {
          tuples := tuples + [(current, f[row][column + 1])];
        }
      }
    }
  }

  // ---------------------------------------------------------------------
  // The test as written and the test as intended
  // ---------------------------------------------------------------------

  /** A pair that rules out a move, as the scan checks it: the first cell
      holds a tile and differs from its neighbour. */
  predicate Blocked(p: Neighbours) {
    !p.0.IsEmpty() && p.0 != p.1
  }

  /** What `is_game_over` reports: every pair is blocked. */
  predicate ReportedOver(f: Field) {
    var ps := AllCellNeighbours(f);
    forall i | 0 <= i < |ps| :: Blocked(ps[i])
  }

  /** `is_game_over`: the scan with its early exits. */
  method IsGameOver(f: Field) returns (over: bool)
    ensures over == ReportedOver(f)
  {
    var tuples := GetAllCellNeighbours(f);
    for i := 0 to |tuples|
      invariant forall j | 0 <= j < i :: Blocked(tuples[j])
    {
      var (current, neighbour) := tuples[i];
      if current == New(0) {
        return false;
      }
      if current == neighbour {
        return false;
      }
    }
    return true;
  }

  /** A pair that rules out a move: both cells hold tiles and they differ. */
  predicate BlockedBoth(p: Neighbours) {
    !p.0.IsEmpty() && !p.1.IsEmpty() && p.0 != p.1
  }

  /** The intended test: every pair is blocked on both sides. */
  predicate GameOver(f: Field) {
    var ps := AllCellNeighbours(f);
    forall i | 0 <= i < |ps| :: BlockedBoth(ps[i])
  }

  /** The intended test with the same scan and early exits. */
  method IsGameOverCorrected(f: Field) returns (over: bool)
    ensures over == GameOver(f)
  {
    var tuples := GetAllCellNeighbours(f);
    for i := 0 to |tuples|
      invariant forall j | 0 <= j < i :: BlockedBoth(tuples[j])
    {
      var (current, neighbour) := tuples[i];
      if current == New(0) || neighbour == New(0) {
        return false;
      }
      if current == neighbour {
        return false;
      }
    }
    return true;
  }

  // ---------------------------------------------------------------------
  // Independent descriptions of the field
  // ---------------------------------------------------------------------

  /** No two horizontally or vertically adjacent cells are equal. */
  ghost predicate NoEqualNeighbours(f: Field) {
    (forall c: Coordinate | c.row < 3 :: At(f, c) != At(f, Below(c)))
    && (forall c: Coordinate | c.column < 3 :: At(f, c) != At(f, RightOf(c)))
  }

  /** Every cell except possibly the bottom-right one holds a tile. */
  ghost predicate FullExceptLast(f: Field) {
    forall c: Coordinate | c != Coordinate(3, 3) :: !At(f, c).IsEmpty()
  }

  /** Every cell holds a tile. */
  ghost predicate Full(f: Field) {
    forall c: Coordinate :: !At(f, c).IsEmpty()
  }

  /** A pair is one of the field's adjacencies. */
  ghost predicate Adjacent(f: Field, p: Neighbours) {
    exists c: Coordinate ::
      (c.row < 3 && p == (At(f, c), At(f, Below(c))))
      || (c.column < 3 && p == (At(f, c), At(f, RightOf(c))))
  }

  // ---------------------------------------------------------------------
  // The list of pairs
  // ---------------------------------------------------------------------

  lemma {:induction false} NeighboursInRowLength(f: Field, row: Index, n: nat)
    requires n <= 4
    ensures |NeighboursInRow(f, row, n)| == (if row < 3 then n else 0) + (if n == 4 then 3 else n)
  {
    if n > 0 {
      NeighboursInRowLength(f, row, n - 1);
    }
  }

  /** `get_all_cell_neighbours` yields exactly 24 pairs. */
  lemma {:induction false} PairCount(f: Field)
    ensures |AllCellNeighbours(f)| == 24
  {
    NeighboursInRowLength(f, 0, 4);
    NeighboursInRowLength(f, 1, 4);
    NeighboursInRowLength(f, 2, 4);
    NeighboursInRowLength(f, 3, 4);
    assert |NeighboursInRows(f, 1)| == 7;
    assert |NeighboursInRows(f, 2)| == 14;
    assert |NeighboursInRows(f, 3)| == 21;
  }

  lemma {:induction false} NeighboursInRowAdjacent(f: Field, row: Index, n: nat)
    requires n <= 4
    ensures forall p | p in NeighboursInRow(f, row, n) :: Adjacent(f, p)
  {
    if n > 0 {
      NeighboursInRowAdjacent(f, row, n - 1);
      var c := Coordinate(row, n - 1);
      forall p | p in CellNeighbours(f, row, n - 1) ensures Adjacent(f, p) {
        assert (c.row < 3 && p == (At(f, c), At(f, Below(c))))
          || (c.column < 3 && p == (At(f, c), At(f, RightOf(c))));
      }
    }
  }

  lemma {:induction false} NeighboursInRowsAdjacent(f: Field, m: nat)
    requires m <= 4
    ensures forall p | p in NeighboursInRows(f, m) :: Adjacent(f, p)
  {
    if m > 0 {
      NeighboursInRowsAdjacent(f, m - 1);
      NeighboursInRowAdjacent(f, m - 1, 4);
    }
  }

  /** Every listed pair is an adjacency of the field. */
  lemma {:induction false} PairsAreAdjacent(f: Field)
    ensures forall p | p in AllCellNeighbours(f) :: Adjacent(f, p)
  {
    NeighboursInRowsAdjacent(f, 4);
  }

  lemma {:induction false} VerticalInRow(f: Field, c: Coordinate, n: nat)
    requires c.row < 3 && c.column < n <= 4
    ensures (At(f, c), At(f, Below(c))) in NeighboursInRow(f, c.row, n)
  {
    if n - 1 > c.column {
      VerticalInRow(f, c, n - 1);
    } else {
      assert (At(f, c), At(f, Below(c))) == CellNeighbours(f, c.row, c.column)[0];
    }
  }

  lemma {:induction false} HorizontalInRow(f: Field, c: Coordinate, n: nat)
    requires c.column < 3 && c.column < n <= 4
    ensures (At(f, c), At(f, RightOf(c))) in NeighboursInRow(f, c.row, n)
  {
    if n - 1 > c.column {
      HorizontalInRow(f, c, n - 1);
    } else {
      var ps := CellNeighbours(f, c.row, c.column);
      assert (At(f, c), At(f, RightOf(c))) == ps[|ps| - 1];
    }
  }

  lemma {:induction false} RowInRows(f: Field, row: Index, m: nat)
    requires row < m <= 4
    ensures forall p | p in NeighboursInRow(f, row, 4) :: p in NeighboursInRows(f, m)
  {
    if m - 1 > row {
      RowInRows(f, row, m - 1);
    }
  }

  /** Every adjacency of the field is listed. */
  lemma {:induction false} AdjacentAreListed(f: Field, c: Coordinate)
    ensures c.row < 3 ==> (At(f, c), At(f, Below(c))) in AllCellNeighbours(f)
    ensures c.column < 3 ==> (At(f, c), At(f, RightOf(c))) in AllCellNeighbours(f)
  {
    RowInRows(f, c.row, 4);
    if c.row < 3 {
      VerticalInRow(f, c, 4);
    }
    if c.column < 3 {
      HorizontalInRow(f, c, 4);
    }
  }

  // ---------------------------------------------------------------------
  // What the scan decides
  // ---------------------------------------------------------------------

  /** `is_game_over` holds exactly when every cell but the bottom-right one
      holds a tile and no two adjacent cells are equal. */
  lemma {:induction false} ReportedOverMeans(f: Field)
    ensures ReportedOver(f) <==> (FullExceptLast(f) && NoEqualNeighbours(f))
  {
    var ps := AllCellNeighbours(f);
    if ReportedOver(f) {
      forall p | p in ps ensures Blocked(p) {
        var i :| 0 <= i < |ps| && ps[i] == p;
      }
      forall c: Coordinate
        ensures c != Coordinate(3, 3) ==> !At(f, c).IsEmpty()
        ensures c.row < 3 ==> At(f, c) != At(f, Below(c))
        ensures c.column < 3 ==> At(f, c) != At(f, RightOf(c))
      {
        AdjacentAreListed(f, c);
      }
    }
    if FullExceptLast(f) && NoEqualNeighbours(f) {
      PairsAreAdjacent(f);
      forall i | 0 <= i < |ps| ensures Blocked(ps[i]) {
        assert ps[i] in ps;
        var c: Coordinate :| (c.row < 3 && ps[i] == (At(f, c), At(f, Below(c))))
          || (c.column < 3 && ps[i] == (At(f, c), At(f, RightOf(c))));
      }
    }
  }

  /** The intended test holds exactly when every cell holds a tile and no
      two adjacent cells are equal. */
  lemma {:induction false} GameOverMeans(f: Field)
    ensures GameOver(f) <==> (Full(f) && NoEqualNeighbours(f))
  {
    var ps := AllCellNeighbours(f);
    if GameOver(f) {
      forall p | p in ps ensures BlockedBoth(p) {
        var i :| 0 <= i < |ps| && ps[i] == p;
      }
      forall c: Coordinate
        ensures c.row < 3 ==> !At(f, c).IsEmpty() && !At(f, Below(c)).IsEmpty() && At(f, c) != At(f, Below(c))
        ensures c.column < 3 ==> !At(f, c).IsEmpty() && !At(f, RightOf(c)).IsEmpty() && At(f, c) != At(f, RightOf(c))
      {
        AdjacentAreListed(f, c);
      }
      forall c: Coordinate ensures !At(f, c).IsEmpty() {
        if c.row < 3 {
          assert !At(f, c).IsEmpty();
        } else {
          assert c == Below(Coordinate(2, c.column));
        }
      }
    }
    if Full(f) && NoEqualNeighbours(f) {
      PairsAreAdjacent(f);
      forall i | 0 <= i < |ps| ensures BlockedBoth(ps[i]) {
        assert ps[i] in ps;
        var c: Coordinate :| (c.row < 3 && ps[i] == (At(f, c), At(f, Below(c))))
          || (c.column < 3 && ps[i] == (At(f, c), At(f, RightOf(c))));
      }
    }
  }

  /** Any empty cell other than the bottom-right one means the game goes on. */
  lemma {:induction false} EmptyCellNotOver(f: Field, c: Coordinate)
    requires c != Coordinate(3, 3) && At(f, c).IsEmpty()
    ensures !ReportedOver(f)
  {
    ReportedOverMeans(f);
  }

  /** Two equal adjacent cells mean the game goes on. */
  lemma {:induction false} EqualNeighboursNotOver(f: Field, c: Coordinate)
    requires (c.row < 3 && At(f, c) == At(f, Below(c)))
          || (c.column < 3 && At(f, c) == At(f, RightOf(c)))
    ensures !ReportedOver(f)
  {
    ReportedOverMeans(f);
  }

  // ---------------------------------------------------------------------
  // Fields nothing can move on
  // ---------------------------------------------------------------------

  /** A full row without equal neighbours is left as it is by a left move. */
  lemma {:induction false} StuckRow(row: Row)
    requires forall i: Index :: !row[i].IsEmpty()
    requires forall i: Index | i < 3 :: row[i] != row[i + 1]
    ensures LeftMerged(row) == row
  {
    NonZeroOfTiles(row);
    CollapseNoPair(row);
    assert LeftMerged(row)[..4] == row;
  }

  /** A full row without equal neighbours is left as it is by a right move too. */
  lemma {:induction false} StuckRowBothWays(row: Row)
    requires forall i: Index :: !row[i].IsEmpty()
    requires forall i: Index | i < 3 :: row[i] != row[i + 1]
    ensures LeftMerged(row) == row
    ensures RightMerged(row) == row
  {
    StuckRow(row);
    var reversed := Reverse(row);
    assert forall i: Index :: !reversed[i].IsEmpty();
    assert forall i: Index | i < 3 :: reversed[i] != reversed[i + 1] by {
      forall i: Index | i < 3 ensures reversed[i] != reversed[i + 1] {
        assert reversed[i] == row[3 - i] && reversed[i + 1] == row[3 - (i + 1)];
      }
    }
    StuckRow(reversed);
    ReverseInvolution(row);
  }

  /** Each row of a full field without equal neighbours is full and has no
      equal neighbours. */
  lemma {:induction false} StuckRowOfField(f: Field, i: Index)
    requires Full(f) && NoEqualNeighbours(f)
    ensures forall j: Index :: !f[i][j].IsEmpty()
    ensures forall j: Index | j < 3 :: f[i][j] != f[i][j + 1]
  {
    forall j: Index ensures !f[i][j].IsEmpty() {
      assert f[i][j] == At(f, Coordinate(i, j));
    }
    forall j: Index | j < 3 ensures f[i][j] != f[i][j + 1] {
      assert f[i][j + 1] == At(f, RightOf(Coordinate(i, j)));
    }
  }

  /** On a field the intended test calls over, left and right moves change
      nothing. */
  lemma {:induction false} GameOverIsStuck(f: Field)
    requires GameOver(f)
    ensures MoveAndMergeLeft(f) == f
    ensures MoveAndMergeRight(f) == f
  {
    assert Full(f) && NoEqualNeighbours(f) by {
      GameOverMeans(f);
    }
    forall i: Index ensures LeftMerged(f[i]) == f[i] && RightMerged(f[i]) == f[i] {
      StuckRowOfField(f, i);
      StuckRowBothWays(f[i]);
    }
    RowwiseEqual(MoveAndMergeLeft(f), f);
    RowwiseEqual(MoveAndMergeRight(f), f);
  }

  /** A row with a tile keeps a tile in its first cell after a left move. */
  lemma {:induction false} LeftMergedFirstIsTile(row: Row, i: Index)
    requires !row[i].IsEmpty()
    ensures !LeftMerged(row)[0].IsEmpty()
  {
    NonZeroNone(row);
    var s := NonZero(row);
    assert Collapse(s)[0] in Collapse(s);
  }

  /** The scan as written reports a field as over although a right move
      still changes it, whenever the only empty cell is the bottom-right
      one and no adjacent cells are equal. */
  lemma {:induction false} LastCellOverlooked(f: Field)
    requires FullExceptLast(f) && NoEqualNeighbours(f)
    requires At(f, Coordinate(3, 3)).IsEmpty()
    ensures ReportedOver(f)
    ensures !GameOver(f)
    ensures MoveAndMergeRight(f) != f
  {
    ReportedOverMeans(f);
    GameOverMeans(f);
    assert Reverse(f[3])[1] == At(f, Coordinate(3, 2));
    LeftMergedFirstIsTile(Reverse(f[3]), 1);
    assert MoveAndMergeRight(f)[3][3] != f[3][3];
  }

  // ---------------------------------------------------------------------
  // The fields of the tests
  // ---------------------------------------------------------------------

  /** Two different tiles laid out like a chessboard. */
  ghost predicate Chequered(f: Field, a: BoardValue, b: BoardValue) {
    forall c: Coordinate :: At(f, c) == (if (c.row + c.column) % 2 == 0 then a else b)
  }

  /** A chessboard of two different tiles is over. */
  lemma {:induction false} ChequeredIsOver(f: Field, a: BoardValue, b: BoardValue)
    requires !a.IsEmpty() && !b.IsEmpty() && a != b
    requires Chequered(f, a, b)
    ensures ReportedOver(f) && GameOver(f)
  {
    forall c: Coordinate | c.row < 3 ensures At(f, c) != At(f, Below(c)) {
      assert At(f, Below(c)) == (if (c.row + 1 + c.column) % 2 == 0 then a else b);
    }
    forall c: Coordinate | c.column < 3 ensures At(f, c) != At(f, RightOf(c)) {
      assert At(f, RightOf(c)) == (if (c.row + c.column + 1) % 2 == 0 then a else b);
    }
    ReportedOverMeans(f);
    GameOverMeans(f);
  }

  const Checkerboard: Field :=
    [[Four, Two, Four, Two], [Two, Four, Two, Four], [Four, Two, Four, Two], [Two, Four, Two, Four]]

  /** The checkerboard with its bottom-right tile removed. */
  const HoledCheckerboard: Field :=
    [[Four, Two, Four, Two], [Two, Four, Two, Four], [Four, Two, Four, Two], [Two, Four, Two, Empty]]

  /** The full 2/4 checkerboard is over. */
  lemma CheckerboardIsOver()
    ensures ReportedOver(Checkerboard)
  {
    forall c: Coordinate ensures At(Checkerboard, c) == (if (c.row + c.column) % 2 == 0 then Four else Two) {
    }
    ChequeredIsOver(Checkerboard, Four, Two);
  }

  /** The checkerboard with an empty bottom-right cell is reported over,
      though a right move changes it. */
  lemma HoledCheckerboardReportedOver()
    ensures ReportedOver(HoledCheckerboard)
    ensures MoveAndMergeRight(HoledCheckerboard) != HoledCheckerboard
  {
    var f := HoledCheckerboard;
    forall c: Coordinate | c.row < 3 ensures At(f, c) != At(f, Below(c)) {
    }
    forall c: Coordinate | c.column < 3 ensures At(f, c) != At(f, RightOf(c)) {
    }
    LastCellOverlooked(f);
  }
}
