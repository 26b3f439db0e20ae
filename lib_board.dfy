/** The earlier map-only board of the library root: values stored per
    coordinate, without a field representation. */
module LibBoard {
  import opened BoardValues
  import opened Fields

  class Board {
    var cells: map<Coordinate, BoardValue>

    /** `Board::new` (and `Default`): no coordinate holds a value. */
    constructor ()
      ensures cells == map[]
      ensures forall c: Coordinate :: !HasValue(c)
    {
      cells := map[];
    }

    /** `has_value`. */
    predicate HasValue(c: Coordinate)
      reads this
    {
      c in cells
    }

    /** `set_value`: the entry at c is inserted or replaced; no other
        coordinate gains, loses or changes a value. */
    method SetValue(c: Coordinate, v: BoardValue)
      modifies this
      ensures cells == old(cells)[c := v]
      ensures HasValue(c) && GetValue(c) == v
      ensures forall d: Coordinate | d != c :: HasValue(d) == old(HasValue(d))
      ensures forall d: Coordinate | d != c && HasValue(d) :: GetValue(d) == old(GetValue(d))
    {
      cells := cells[c := v];
    }

    /** `get_value`, which fails on a coordinate without an entry. */
    function GetValue(c: Coordinate): BoardValue
      requires HasValue(c)
      reads this
    {
      cells[c]
    }
  }

  /** The scenario of the tests: a default value at (0,0), then at (1,0);
      both are present and hold what was set, and nothing else is. */
  method TwoValues(first: BoardValue, second: BoardValue) returns (b: Board)
    ensures b.HasValue(Coordinate(0, 0)) && b.GetValue(Coordinate(0, 0)) == first
    ensures b.HasValue(Coordinate(1, 0)) && b.GetValue(Coordinate(1, 0)) == second
    ensures forall c: Coordinate | c != Coordinate(0, 0) && c != Coordinate(1, 0) :: !b.HasValue(c)
  {
    b := new Board();
    b.SetValue(Coordinate(0, 0), first);
    assert !b.HasValue(Coordinate(1, 0));
    b.SetValue(Coordinate(1, 0), second);
  }
}
