/** The map-based board: a mutable map from coordinates to values, and its
    conversion to and from the 4x4 field representation. A coordinate
    without an entry reads as an empty cell. */
module BoardMap {
  import opened BoardValues
  import opened Fields

  /** The value a map shows at c: its entry, or empty when there is none. */
  function CellOf(m: map<Coordinate, BoardValue>, c: Coordinate): BoardValue {
    if c in m then m[c] else Empty
  }

  /** The 4x4 field a map shows. */
  function RepresentationOf(m: map<Coordinate, BoardValue>): (f: Field)
    ensures forall c: Coordinate :: At(f, c) == CellOf(m, c)
  {
    [[CellOf(m, Coordinate(0, 0)), CellOf(m, Coordinate(0, 1)), CellOf(m, Coordinate(0, 2)), CellOf(m, Coordinate(0, 3))],
     [CellOf(m, Coordinate(1, 0)), CellOf(m, Coordinate(1, 1)), CellOf(m, Coordinate(1, 2)), CellOf(m, Coordinate(1, 3))],
     [CellOf(m, Coordinate(2, 0)), CellOf(m, Coordinate(2, 1)), CellOf(m, Coordinate(2, 2)), CellOf(m, Coordinate(2, 3))],
     [CellOf(m, Coordinate(3, 0)), CellOf(m, Coordinate(3, 1)), CellOf(m, Coordinate(3, 2)), CellOf(m, Coordinate(3, 3))]]
  }

  /** The 16 coordinates of the grid. */
  function AllCoordinates(): set<Coordinate> {
    set r: nat, c: nat | r < 4 && c < 4 :: Coordinate(r, c)
  }

  /** The map that stores every cell of f, empty ones included. */
  function FieldMap(f: Field): (m: map<Coordinate, BoardValue>)
    ensures forall c: Coordinate :: c in m && m[c] == At(f, c)
  {
    assert forall c: Coordinate :: c in AllCoordinates() by {
      forall c: Coordinate ensures c in AllCoordinates() {
        var r: nat, k: nat := c.row, c.column;
        assert c == Coordinate(r, k);
      }
    }
    map c | c in AllCoordinates() :: At(f, c)
  }

  class Board {
    var cells: map<Coordinate, BoardValue>

    /** `Board::new` (and `Default`): no coordinate holds a value. */
    constructor ()
      ensures cells == map[]
      ensures forall c: Coordinate :: !HasValue(c)
    {
      cells := map[];
    }

    /** `Board::from_field`: every cell of f stored. */
    constructor FromField(f: Field)
      ensures cells == FieldMap(f)
      ensures Representation() == f
    {
      cells := FieldMap(f);
      new;
      FieldRoundTrip(f);
    }

    /** `has_value`. */
    predicate HasValue(c: Coordinate)
      reads this
    {
      c in cells
    }

    /** `set_value`: the entry at c is inserted or replaced. */
    method SetValue(c: Coordinate, v: BoardValue)
      modifies this
      ensures cells == old(cells)[c := v]
      ensures HasValue(c) && GetValue(c) == v
      ensures forall d: Coordinate | d != c :: HasValue(d) == old(HasValue(d))
      ensures forall d: Coordinate | d != c && HasValue(d) :: GetValue(d) == old(GetValue(d))
    {
      cells := cells[c := v];
    }

    /** `get_value`, which fails on a coordinate without an entry. */
    function GetValue(c: Coordinate): BoardValue
      requires HasValue(c)
      reads this
    {
      cells[c]
    }

    /** The field this board shows. */
    function Representation(): Field
      reads this
    {
      RepresentationOf(cells)
    }

    /** `get_representation`: a field of empty cells, overwritten at every
        coordinate that has an entry. */
    method GetRepresentation() returns (result: Field)
      ensures result == Representation()
      ensures forall c: Coordinate :: At(result, c) == (if HasValue(c) then GetValue(c) else Empty)
    {
      result := EmptyField;
      for row := 0 to 4
        invariant forall c: Coordinate | c.row < row :: At(result, c) == CellOf(cells, c)
        invariant forall c: Coordinate | c.row >= row :: At(result, c) == Empty
      {
        for column := 0 to 4
          invariant forall c: Coordinate | c.row < row :: At(result, c) == CellOf(cells, c)
          invariant forall c: Coordinate | c.row == row && c.column < column :: At(result, c) == CellOf(cells, c)
          invariant forall c: Coordinate | c.row == row && c.column >= column :: At(result, c) == Empty
          invariant forall c: Coordinate | c.row > row :: At(result, c) == Empty
        {
          var coordinate := Coordinate(row, column);
          if HasValue(coordinate) {
            result := SetCell(result, coordinate, GetValue(coordinate));
          }
        }
      }
      CellwiseEqual(result, Representation());
    }

    /** `save_representation`: the board now stores every cell of f. */
    method SaveRepresentation(f: Field)
      modifies this
      ensures cells == FieldMap(f)
      ensures Representation() == f
    {
      cells := FieldMap(f);
      FieldRoundTrip(f);
    }
  }

  // ---------------------------------------------------------------------
  // Properties of the representation
  // ---------------------------------------------------------------------

  /** A new board shows the empty field. */
  lemma EmptyMapShowsEmptyField()
    ensures RepresentationOf(map[]) == EmptyField
  {
    CellwiseEqual(RepresentationOf(map[]), EmptyField);
  }

  /** Storing a field and reading it back gives the same field. */
  lemma {:induction false} FieldRoundTrip(f: Field)
    ensures RepresentationOf(FieldMap(f)) == f
  {
    CellwiseEqual(RepresentationOf(FieldMap(f)), f);
  }

  /** Reading back a stored representation gives the same map, when the map
      already had every coordinate. */
  lemma {:induction false} MapRoundTrip(m: map<Coordinate, BoardValue>)
    requires forall c: Coordinate :: c in m
    ensures FieldMap(RepresentationOf(m)) == m
  {
  }

  /** Setting a value changes exactly that cell of the representation. */
  lemma {:induction false} SetValueShowsCell(m: map<Coordinate, BoardValue>, c: Coordinate, v: BoardValue)
    ensures RepresentationOf(m[c := v]) == SetCell(RepresentationOf(m), c, v)
  {
    CellwiseEqual(RepresentationOf(m[c := v]), SetCell(RepresentationOf(m), c, v));
  }

  /** A board with one value at (0,0) shows it in the top-left corner. */
  lemma {:induction false} FirstCoordinateExample(a: BoardValue)
    ensures RepresentationOf(map[Coordinate(0, 0) := a]) == EmptyField[0 := [a, Empty, Empty, Empty]]
  {
    EmptyMapShowsEmptyField();
    SetValueShowsCell(map[], Coordinate(0, 0), a);
    assert EmptyRow[0 := a] == [a, Empty, Empty, Empty];
  }

  /** Values at (0,0) and (1,0) show up at the start of the first two rows. */
  lemma {:induction false} TwoCoordinatesExample(a: BoardValue, b: BoardValue)
    ensures RepresentationOf(map[Coordinate(0, 0) := a, Coordinate(1, 0) := b])
         == EmptyField[0 := [a, Empty, Empty, Empty]][1 := [b, Empty, Empty, Empty]]
  {
    FirstCoordinateExample(a);
    var m := map[Coordinate(0, 0) := a];
    SetValueShowsCell(m, Coordinate(1, 0), b);
    assert EmptyRow[0 := b] == [b, Empty, Empty, Empty];
  }

  /** Values at (3,0) and (3,3) show up at both ends of the last row. */
  lemma {:induction false} LastRowExample(a: BoardValue, b: BoardValue)
    ensures RepresentationOf(map[Coordinate(3, 0) := a, Coordinate(3, 3) := b])
         == EmptyField[3 := [a, Empty, Empty, b]]
  {
    EmptyMapShowsEmptyField();
    var m := map[Coordinate(3, 0) := a];
    SetValueShowsCell(map[], Coordinate(3, 0), a);
    SetValueShowsCell(m, Coordinate(3, 3), b);
    assert EmptyRow[0 := a][3 := b] == [a, Empty, Empty, b];
  }
}
