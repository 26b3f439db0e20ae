/** Spawning a new tile: a 2 or a 4, chosen by a draw, written into the
    first empty cell in row-major order. Random draws are parameters. */
module RandomValue {
  import opened BoardValues
  import opened Fields

  /** The empty cells among the first n cells of row `row`, left to right. */
  function EmptyInRow(f: Field, row: Index, n: nat): seq<Coordinate>
    requires n <= 4
  {
    if n == 0 then []
    else EmptyInRow(f, row, n - 1) + (if f[row][n - 1].IsEmpty() then [Coordinate(row, n - 1)] else [])
  }

  /** The empty cells of the first m rows, in row-major order. */
  function EmptyInRows(f: Field, m: nat): seq<Coordinate>
    requires m <= 4
  {
    if m == 0 then [] else EmptyInRows(f, m - 1) + EmptyInRow(f, m - 1, |f[m - 1]|)
  }

  /** All empty cells of the field, in row-major order. (The bounds are
      written as lengths rather than as the number 4.) */
  function EmptyCells(f: Field): seq<Coordinate> {
    EmptyInRows(f, |f|)
  }

  /** `get_new_number`: a 2 below the threshold 0.9, a 4 from it on. */
  function GetNewNumber(draw: real): (v: BoardValue)
    ensures v == Two <==> draw < 0.9
    ensures v == Four <==> draw >= 0.9
  {
    if draw < 0.9 then Two else Four
  }

  /** The field after a spawn with value draw `draw`. */
  function Spawn(f: Field, draw: real): Field
    requires EmptyCells(f) != []
  {
    SetCell(f, EmptyCells(f)[0], GetNewNumber(draw))
  }

  /** `get_coordinates_of_empty_cells`. */
  method GetCoordinatesOfEmptyCells(f: Field) returns (vec: seq<Coordinate>)
    ensures vec == EmptyCells(f)
  {
    vec := [];
    for row := 0 to 4
      invariant vec == EmptyInRows(f, row)
    {
      for column := 0 to 4
        invariant vec == EmptyInRows(f, row) + EmptyInRow(f, row, column)
      {
        if f[row][column] == New(0) {
          vec := vec + [Coordinate(row, column)];
        }
      }
    }
  }

  /** `add_value`: the position draw is not used; the source fails on a
      field without an empty cell. */
  method AddValue(f: Field, valueDraw: real, positionDraw: real) returns (r: Field)
    requires EmptyCells(f) != []
    ensures r == Spawn(f, valueDraw)
  {
    var newNumber := GetNewNumber(valueDraw);
    var vec := GetCoordinatesOfEmptyCells(f);
    r := f;
    var first := vec[0];
    r := r[first.row := r[first.row][first.column := newNumber]];
  }

  // ---------------------------------------------------------------------
  // Properties
  // ---------------------------------------------------------------------

  /** A coordinate is listed for a row prefix exactly when it lies in it
      and its cell is empty. */
  lemma {:induction false} EmptyInRowMembers(f: Field, row: Index, n: nat, c: Coordinate)
    requires n <= 4
    ensures c in EmptyInRow(f, row, n) <==> c.row == row && c.column < n && At(f, c).IsEmpty()
  {
    if n > 0 {
      var prefix := EmptyInRow(f, row, n - 1);
      var last := if f[row][n - 1].IsEmpty() then [Coordinate(row, n - 1)] else [];
      assert EmptyInRow(f, row, n) == prefix + last;
      assert c in prefix <==> c.row == row && c.column < n - 1 && At(f, c).IsEmpty() by {
        EmptyInRowMembers(f, row, n - 1, c);
      }
      assert c in last <==> c == Coordinate(row, n - 1) && At(f, c).IsEmpty();
    }
  }

  /** A coordinate is listed for the first m rows exactly when it lies in
      them and its cell is empty. */
  lemma {:induction false} EmptyInRowsMembers(f: Field, m: nat, c: Coordinate)
    requires m <= 4
    ensures c in EmptyInRows(f, m) <==> c.row < m && At(f, c).IsEmpty()
  {
    if m > 0 {
      EmptyInRowsMembers(f, m - 1, c);
      EmptyInRowMembers(f, m - 1, 4, c);
    }
  }

  /** The list holds exactly the empty cells. */
  lemma {:induction false} EmptyCellsMembers(f: Field)
    ensures forall c: Coordinate :: c in EmptyCells(f) <==> At(f, c).IsEmpty()
    ensures EmptyCells(f) != [] <==> HasEmptyCell(f)
  {
    forall c: Coordinate ensures c in EmptyCells(f) <==> At(f, c).IsEmpty() {
      EmptyInRowsMembers(f, 4, c);
    }
    if HasEmptyCell(f) {
      var c: Coordinate :| At(f, c).IsEmpty();
      assert c in EmptyCells(f);
    }
    if EmptyCells(f) != [] {
      assert EmptyCells(f)[0] in EmptyCells(f);
    }
  }

  /** Strictly increasing row-major positions. */
  predicate RowMajor(cs: seq<Coordinate>) {
    forall i, j | 0 <= i < j < |cs| :: Pos(cs[i]) < Pos(cs[j])
  }

  /** Two row-major lists, the first entirely before the second, join into
      a row-major list. */
  lemma {:induction false} RowMajorAppend(a: seq<Coordinate>, b: seq<Coordinate>)
    requires RowMajor(a) && RowMajor(b)
    requires forall x, y | x in a && y in b :: Pos(x) < Pos(y)
    ensures RowMajor(a + b)
  {
    forall i, j | 0 <= i < j < |a + b| ensures Pos((a + b)[i]) < Pos((a + b)[j]) {
      if j < |a| {
        assert (a + b)[i] == a[i] && (a + b)[j] == a[j];
      } else if i < |a| {
        assert (a + b)[i] in a && (a + b)[j] in b;
      } else {
        assert (a + b)[i] == b[i - |a|] && (a + b)[j] == b[j - |a|];
      }
    }
  }

  lemma {:induction false} EmptyInRowOrdered(f: Field, row: Index, n: nat)
    requires n <= 4
    ensures RowMajor(EmptyInRow(f, row, n))
  {
    if n > 0 {
      EmptyInRowOrdered(f, row, n - 1);
      forall x | x in EmptyInRow(f, row, n - 1) ensures Pos(x) < Pos(Coordinate(row, n - 1)) {
        EmptyInRowMembers(f, row, n - 1, x);
      }
      RowMajorAppend(EmptyInRow(f, row, n - 1),
                     if f[row][n - 1].IsEmpty() then [Coordinate(row, n - 1)] else []);
    }
  }

  lemma {:induction false} EmptyInRowsOrdered(f: Field, m: nat)
    requires m <= 4
    ensures RowMajor(EmptyInRows(f, m))
  {
    if m > 0 {
      var done, last := EmptyInRows(f, m - 1), EmptyInRow(f, m - 1, 4);
      assert RowMajor(done) by {
        EmptyInRowsOrdered(f, m - 1);
      }
      assert RowMajor(last) by {
        EmptyInRowOrdered(f, m - 1, 4);
      }
      forall x, y | x in done && y in last ensures Pos(x) < Pos(y) {
        EmptyInRowsMembers(f, m - 1, x);
        EmptyInRowMembers(f, m - 1, 4, y);
      }
      assert EmptyInRows(f, m) == done + last;
      RowMajorAppend(done, last);
    }
  }

  /** The first listed cell is the first empty cell in row-major order. */
  lemma {:induction false} FirstEmptyCell(f: Field)
    requires EmptyCells(f) != []
    ensures At(f, EmptyCells(f)[0]).IsEmpty()
    ensures forall c: Coordinate | At(f, c).IsEmpty() :: Pos(EmptyCells(f)[0]) <= Pos(c)
  {
    EmptyCellsMembers(f);
    EmptyInRowsOrdered(f, 4);
    var r := EmptyCells(f);
    forall c: Coordinate | At(f, c).IsEmpty() ensures Pos(r[0]) <= Pos(c) {
      var i :| 0 <= i < |r| && r[i] == c;
      if i > 0 {
        assert Pos(r[0]) < Pos(r[i]);
      }
    }
  }

  /** Filling an empty cell with a tile removes exactly that cell from the
      empty cells of a row prefix. */
  lemma {:induction false} FillOneCellRow(f: Field, c: Coordinate, v: BoardValue, row: Index, n: nat)
    requires n <= 4
    requires At(f, c).IsEmpty() && !v.IsEmpty()
    ensures |EmptyInRow(SetCell(f, c, v), row, n)| + (if c.row == row && c.column < n then 1 else 0)
         == |EmptyInRow(f, row, n)|
  {
    if n > 0 {
      FillOneCellRow(f, c, v, row, n - 1);
      assert At(SetCell(f, c, v), Coordinate(row, n - 1)) == SetCell(f, c, v)[row][n - 1];
    }
  }

  /** The same for the first m rows. */
  lemma {:induction false} FillOneCell(f: Field, c: Coordinate, v: BoardValue, m: nat)
    requires m <= 4
    requires At(f, c).IsEmpty() && !v.IsEmpty()
    ensures |EmptyInRows(SetCell(f, c, v), m)| + (if c.row < m then 1 else 0) == |EmptyInRows(f, m)|
  {
    if m > 0 {
      FillOneCell(f, c, v, m - 1);
      FillOneCellRow(f, c, v, m - 1, 4);
    }
  }

  /** `add_value` writes the drawn number into the first empty cell in
      row-major order, leaves every other cell as it was, and so leaves one
      empty cell fewer. */
  lemma {:induction false} SpawnFillsFirstEmptyCell(f: Field, draw: real)
    requires EmptyCells(f) != []
    ensures var c := EmptyCells(f)[0];
      At(f, c).IsEmpty()
      && (forall d: Coordinate | At(f, d).IsEmpty() :: Pos(c) <= Pos(d))
      && At(Spawn(f, draw), c) == GetNewNumber(draw)
      && (forall d: Coordinate | d != c :: At(Spawn(f, draw), d) == At(f, d))
    ensures |EmptyCells(Spawn(f, draw))| == |EmptyCells(f)| - 1
  {
    FirstEmptyCell(f);
    FillOneCell(f, EmptyCells(f)[0], GetNewNumber(draw), 4);
  }

  /** An empty cell preceded only by tiles is the first listed. */
  lemma {:induction false} FirstEmptyCellIs(f: Field, c: Coordinate)
    requires At(f, c).IsEmpty()
    requires forall d: Coordinate | Pos(d) < Pos(c) :: !At(f, d).IsEmpty()
    ensures EmptyCells(f) != [] && EmptyCells(f)[0] == c
  {
    EmptyCellsMembers(f);
    assert c in EmptyCells(f);
    FirstEmptyCell(f);
  }

  /** A field whose top-left cell is empty (the empty field, say) gets the
      new tile there. */
  lemma {:induction false} SpawnIntoCorner(f: Field, draw: real)
    requires At(f, Coordinate(0, 0)).IsEmpty()
    ensures EmptyCells(f) != []
    ensures Spawn(f, draw) == SetCell(f, Coordinate(0, 0), GetNewNumber(draw))
  {
    FirstEmptyCellIs(f, Coordinate(0, 0));
  }

  /** A tile in the top-left corner pushes the spawn one cell to the right. */
  lemma {:induction false} SpawnNextToCornerTile(f: Field, draw: real)
    requires !At(f, Coordinate(0, 0)).IsEmpty() && At(f, Coordinate(0, 1)).IsEmpty()
    ensures EmptyCells(f) != []
    ensures Spawn(f, draw) == SetCell(f, Coordinate(0, 1), GetNewNumber(draw))
  {
    assert forall d: Coordinate | Pos(d) < 1 :: d == Coordinate(0, 0);
    FirstEmptyCellIs(f, Coordinate(0, 1));
  }

  /** A row prefix without empty cells contributes no coordinate. */
  lemma {:induction false} EmptyInRowNone(f: Field, row: Index, n: nat)
    requires n <= 4
    requires forall k: Index | k < n :: !At(f, Coordinate(row, k)).IsEmpty()
    ensures EmptyInRow(f, row, n) == []
  {
    if n > 0 {
      EmptyInRowNone(f, row, n - 1);
      assert !At(f, Coordinate(row, n - 1)).IsEmpty();
    }
  }

  /** Rows without empty cells contribute no coordinate. */
  lemma {:induction false} EmptyInRowsNone(f: Field, m: nat)
    requires m <= 4
    requires forall d: Coordinate | d.row < m :: !At(f, d).IsEmpty()
    ensures EmptyInRows(f, m) == []
  {
    if m > 0 {
      EmptyInRowsNone(f, m - 1);
      EmptyInRowNone(f, m - 1, 4);
    }
  }

  /** With the bottom-right cell as the only empty cell, the spawn fills it
      and leaves no empty cell. */
  lemma {:induction false} SpawnLastCell(f: Field, draw: real)
    requires At(f, Coordinate(3, 3)).IsEmpty()
    requires forall d: Coordinate | d != Coordinate(3, 3) :: !At(f, d).IsEmpty()
    ensures EmptyCells(f) == [Coordinate(3, 3)]
    ensures Spawn(f, draw) == SetCell(f, Coordinate(3, 3), GetNewNumber(draw))
    ensures EmptyCells(Spawn(f, draw)) == []
  {
    EmptyInRowsNone(f, 3);
    EmptyInRowNone(f, 3, 3);
    assert EmptyCells(f) == EmptyInRows(f, 3) + EmptyInRow(f, 3, 3) + [Coordinate(3, 3)];
    SpawnFillsFirstEmptyCell(f, draw);
  }
}
