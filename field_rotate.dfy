/** Quarter turns of the grid, written as the source writes them: each new row
    is a column of the old field read in one direction. */
module FieldRotate {
  import opened BoardValues
  import opened Fields

  /** `extract_column_reversed`: column `column` read from top to bottom. */
  function ExtractColumnReversed(f: Field, column: Index): (r: Row)
    ensures forall i: Index :: r[i] == f[i][column]
  {
    [f[0][column], f[1][column], f[2][column], f[3][column]]
  }

  /** `extract_column`: column `column` read from bottom to top. */
  function ExtractColumn(f: Field, column: Index): (r: Row)
    ensures forall i: Index :: r[i] == f[3 - i][column]
  {
    [f[3][column], f[2][column], f[1][column], f[0][column]]
  }

  /** The two column readers read the same column in opposite directions, so
      a clockwise row reversed is the matching counterclockwise row. */
  lemma {:induction false} ColumnsAreReverses(f: Field, column: Index)
    ensures ExtractColumn(f, column)
      == [ExtractColumnReversed(f, column)[3], ExtractColumnReversed(f, column)[2],
          ExtractColumnReversed(f, column)[1], ExtractColumnReversed(f, column)[0]]
    ensures RotateClockwise(f)[column]
      == [RotateCounterclockwise(f)[3 - column][3], RotateCounterclockwise(f)[3 - column][2],
          RotateCounterclockwise(f)[3 - column][1], RotateCounterclockwise(f)[3 - column][0]]
  {
  }

  /** `rotate_counterclockwise`: new row i is old column 3 - i, top to bottom. */
  function RotateCounterclockwise(f: Field): (r: Field)
    ensures forall i: Index, j: Index :: r[i][j] == f[j][3 - i]
  {
    [ExtractColumnReversed(f, 3), ExtractColumnReversed(f, 2),
     ExtractColumnReversed(f, 1), ExtractColumnReversed(f, 0)]
  }

  /** `rotate_clockwise`: new row i is old column i, bottom to top. */
  function RotateClockwise(f: Field): (r: Field)
    ensures forall i: Index, j: Index :: r[i][j] == f[3 - j][i]
  {
    [ExtractColumn(f, 0), ExtractColumn(f, 1), ExtractColumn(f, 2), ExtractColumn(f, 3)]
  }

  /** The two rotations undo each other, in either order. */
  lemma {:induction false} RotationsAreInverse(f: Field)
    ensures RotateCounterclockwise(RotateClockwise(f)) == f
    ensures RotateClockwise(RotateCounterclockwise(f)) == f
  {
    FieldExtensionality(RotateCounterclockwise(RotateClockwise(f)), f);
    FieldExtensionality(RotateClockwise(RotateCounterclockwise(f)), f);
  }

  /** Four clockwise quarter turns are the identity. */
  lemma {:induction false} FourClockwiseRotations(f: Field)
    ensures RotateClockwise(RotateClockwise(RotateClockwise(RotateClockwise(f)))) == f
  {
    var g := RotateClockwise(RotateClockwise(RotateClockwise(RotateClockwise(f))));
    FieldExtensionality(g, f);
  }

  /** The empty field is fixed by both rotations. */
  lemma RotateEmptyField()
    ensures RotateClockwise(EmptyField) == EmptyField
    ensures RotateCounterclockwise(EmptyField) == EmptyField
  {
    FieldExtensionality(RotateClockwise(EmptyField), EmptyField);
    FieldExtensionality(RotateCounterclockwise(EmptyField), EmptyField);
  }

  /** The tests' single tile: clockwise takes the top-left tile to the top
      right, counterclockwise to the bottom left. */
  lemma RotateTopLeftTile()
    ensures var f := SetCell(EmptyField, Coordinate(0, 0), Two);
      RotateClockwise(f) == SetCell(EmptyField, Coordinate(0, 3), Two)
      && RotateCounterclockwise(f) == SetCell(EmptyField, Coordinate(3, 0), Two)
  {
    var f := SetCell(EmptyField, Coordinate(0, 0), Two);
    FieldExtensionality(RotateClockwise(f), SetCell(EmptyField, Coordinate(0, 3), Two));
    FieldExtensionality(RotateCounterclockwise(f), SetCell(EmptyField, Coordinate(3, 0), Two));
  }

  /** 1 when the cell holds v, else 0. */
  function Hit(b: BoardValue, v: BoardValue): nat {
    if b == v then 1 else 0
  }

  /** The number of cells of a row that hold v. */
  function RowCount(r: Row, v: BoardValue): nat {
    Hit(r[0], v) + Hit(r[1], v) + Hit(r[2], v) + Hit(r[3], v)
  }

  lemma {:induction false} RowCountIsMultiplicity(r: Row, v: BoardValue)
    ensures multiset(r)[v] == RowCount(r, v)
  {
    assert r == [r[0], r[1], r[2], r[3]];
  }

  lemma {:induction false} CellsMultiplicity(f: Field, v: BoardValue)
    ensures multiset(Cells(f))[v] == RowCount(f[0], v) + RowCount(f[1], v) + RowCount(f[2], v) + RowCount(f[3], v)
  {
    var top: seq<BoardValue> := f[0];
    assert Cells(f) == top + f[1] + f[2] + f[3];
    RowCountIsMultiplicity(f[0], v);
    RowCountIsMultiplicity(f[1], v);
    RowCountIsMultiplicity(f[2], v);
    RowCountIsMultiplicity(f[3], v);
  }

  /** The number of cells of column j that hold v. */
  function ColumnCount(f: Field, j: Index, v: BoardValue): nat {
    Hit(f[0][j], v) + Hit(f[1][j], v) + Hit(f[2][j], v) + Hit(f[3][j], v)
  }

  lemma {:induction false} RowsAndColumnsCountAlike(f: Field, v: BoardValue)
    ensures ColumnCount(f, 0, v) + ColumnCount(f, 1, v) + ColumnCount(f, 2, v) + ColumnCount(f, 3, v)
      == RowCount(f[0], v) + RowCount(f[1], v) + RowCount(f[2], v) + RowCount(f[3], v)
  {
  }

  /** Row i after a clockwise turn holds the cells of column i. */
  lemma {:induction false} ClockwiseRowCounts(f: Field, v: BoardValue)
    ensures forall i: Index :: RowCount(RotateClockwise(f)[i], v) == ColumnCount(f, i, v)
  {
    forall i: Index ensures RowCount(RotateClockwise(f)[i], v) == ColumnCount(f, i, v) {
      var r := RotateClockwise(f)[i];
      assert r[0] == f[3][i] && r[1] == f[2][i] && r[2] == f[1][i] && r[3] == f[0][i];
    }
  }

  /** Row i after a counterclockwise turn holds the cells of column 3 - i. */
  lemma {:induction false} CounterclockwiseRowCounts(f: Field, v: BoardValue)
    ensures forall i: Index :: RowCount(RotateCounterclockwise(f)[i], v) == ColumnCount(f, 3 - i, v)
  {
    forall i: Index ensures RowCount(RotateCounterclockwise(f)[i], v) == ColumnCount(f, 3 - i, v) {
      var r := RotateCounterclockwise(f)[i];
      assert r[0] == f[0][3 - i] && r[1] == f[1][3 - i] && r[2] == f[2][3 - i] && r[3] == f[3][3 - i];
    }
  }

  /** Two fields whose rows hold v equally often in total hold v equally
      often among their cells. */
  lemma {:induction false} SameRowCounts(f: Field, g: Field, v: BoardValue)
    requires RowCount(g[0], v) + RowCount(g[1], v) + RowCount(g[2], v) + RowCount(g[3], v)
          == RowCount(f[0], v) + RowCount(f[1], v) + RowCount(f[2], v) + RowCount(f[3], v)
    ensures multiset(Cells(g))[v] == multiset(Cells(f))[v]
  {
    CellsMultiplicity(f, v);
    CellsMultiplicity(g, v);
  }

  lemma {:induction false} ClockwiseMultiplicity(f: Field, v: BoardValue)
    ensures multiset(Cells(RotateClockwise(f)))[v] == multiset(Cells(f))[v]
  {
    ClockwiseRowCounts(f, v);
    RowsAndColumnsCountAlike(f, v);
    SameRowCounts(f, RotateClockwise(f), v);
  }

  lemma {:induction false} CounterclockwiseMultiplicity(f: Field, v: BoardValue)
    ensures multiset(Cells(RotateCounterclockwise(f)))[v] == multiset(Cells(f))[v]
  {
    CounterclockwiseRowCounts(f, v);
    RowsAndColumnsCountAlike(f, v);
    SameRowCounts(f, RotateCounterclockwise(f), v);
  }

  /** Multisets are equal when every multiplicity is. */
  lemma {:induction false} SameMultiplicities(a: multiset<BoardValue>, b: multiset<BoardValue>)
    requires forall v :: a[v] == b[v]
    ensures a == b
  {
  }

  /** A clockwise turn only moves cells: the multiset of cell values, and so
      the number of empty cells, is unchanged. */
  lemma {:induction false} ClockwisePreservesCells(f: Field)
    ensures multiset(Cells(RotateClockwise(f))) == multiset(Cells(f))
  {
    forall v ensures multiset(Cells(RotateClockwise(f)))[v] == multiset(Cells(f))[v] {
      ClockwiseMultiplicity(f, v);
    }
    SameMultiplicities(multiset(Cells(RotateClockwise(f))), multiset(Cells(f)));
  }

  /** Likewise for a counterclockwise turn. */
  lemma {:induction false} CounterclockwisePreservesCells(f: Field)
    ensures multiset(Cells(RotateCounterclockwise(f))) == multiset(Cells(f))
  {
    forall v ensures multiset(Cells(RotateCounterclockwise(f)))[v] == multiset(Cells(f))[v] {
      CounterclockwiseMultiplicity(f, v);
    }
    SameMultiplicities(multiset(Cells(RotateCounterclockwise(f))), multiset(Cells(f)));
  }
}
