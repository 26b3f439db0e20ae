/** The value of one cell of the grid: zero marks an empty cell, any other
    value is a tile. */
module BoardValues {

  datatype BoardValue = BoardValue(value: nat) {

    /** A cell is empty exactly when it holds zero. */
    predicate IsEmpty() {
      value == 0
    }

    /** `duplicate`: the tile produced when two equal tiles merge. Doubling
        keeps zero at zero, so the zero-with-zero "merge" of an empty tail
        changes nothing. */
    function Duplicate(): (d: BoardValue)
      ensures d.value == value + value
      ensures d.IsEmpty() <==> IsEmpty()
    {
      BoardValue(2 * value)
    }
  }

  const Empty: BoardValue := BoardValue(0)
  const Two: BoardValue := BoardValue(2)
  const Four: BoardValue := BoardValue(4)
  const Eight: BoardValue := BoardValue(8)
  const Sixteen: BoardValue := BoardValue(16)

  /** `BoardValue::new`: every value is accepted, zero included. */
  function New(value: nat): (b: BoardValue)
    ensures GetValue(b) == value
    ensures b.IsEmpty() <==> value == 0
  {
    BoardValue(value)
  }

  /** `get_value`: the wrapped number. */
  function GetValue(b: BoardValue): nat {
    b.value
  }

  /** `Default::default`: a fresh tile is a 2. */
  function Default(): (b: BoardValue)
    ensures b == New(2) && GetValue(b) == 2
    ensures !b.IsEmpty()
  {
    New(2)
  }

  /** Equality is structural: two values are equal iff their numbers are. */
  lemma {:induction false} EqualIffSameValue(a: BoardValue, b: BoardValue)
    ensures a == b <==> GetValue(a) == GetValue(b)
  {
  }
}
