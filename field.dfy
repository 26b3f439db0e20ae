/** The grid: four rows of four cells, addressed by (row, column). */
module Fields {
  import opened BoardValues

  /** A row or column number, 0..3. */
  type Index = i: nat | i < 4

  /** `Row`: four cells, copied by value. */
  type Row = r: seq<BoardValue> | |r| == 4
    witness [BoardValue(0), BoardValue(0), BoardValue(0), BoardValue(0)]

  /** `Field` (also `FieldRepresentation`): four rows. */
  type Field = f: seq<Row> | |f| == 4
    witness [[BoardValue(0), BoardValue(0), BoardValue(0), BoardValue(0)],
             [BoardValue(0), BoardValue(0), BoardValue(0), BoardValue(0)],
             [BoardValue(0), BoardValue(0), BoardValue(0), BoardValue(0)],
             [BoardValue(0), BoardValue(0), BoardValue(0), BoardValue(0)]]

  const EmptyRow: Row := [Empty, Empty, Empty, Empty]
  const EmptyField: Field := [EmptyRow, EmptyRow, EmptyRow, EmptyRow]

  /** `Coordinate`: a (row, column) pair. */
  datatype Coordinate = Coordinate(row: Index, column: Index)

  /** The position of a coordinate in row-major order, 0..15. */
  function Pos(c: Coordinate): nat {
    4 * c.row + c.column
  }

  /** The coordinate at row-major position k. */
  function CoordOf(k: nat): (c: Coordinate)
    requires k < 16
    ensures Pos(c) == k
  {
    Coordinate(k / 4, k % 4)
  }

  lemma {:induction false} CoordOfPos(c: Coordinate)
    ensures CoordOf(Pos(c)) == c
  {
  }

  function At(f: Field, c: Coordinate): BoardValue {
    f[c.row][c.column]
  }

  /** Two fields with the same rows are equal. */
  lemma {:induction false} RowwiseEqual(f: Field, g: Field)
    requires forall i: Index :: f[i] == g[i]
    ensures f == g
  {
  }

  /** Two fields are equal when all 16 cells are. */
  lemma {:induction false} FieldExtensionality(f: Field, g: Field)
    requires forall i: Index, j: Index :: f[i][j] == g[i][j]
    ensures f == g
  {
    forall i: Index ensures f[i] == g[i] {
      assert forall j: Index :: f[i][j] == g[i][j];
    }
  }

  /** Two fields agreeing at every coordinate are equal. */
  lemma {:induction false} CellwiseEqual(f: Field, g: Field)
    requires forall c: Coordinate :: At(f, c) == At(g, c)
    ensures f == g
  {
    forall i: Index, j: Index ensures f[i][j] == g[i][j] {
      assert At(f, Coordinate(i, j)) == At(g, Coordinate(i, j));
    }
    FieldExtensionality(f, g);
  }

  /** Some cell of the field is empty. */
  ghost predicate HasEmptyCell(f: Field) {
    exists c: Coordinate :: At(f, c).IsEmpty()
  }

  /** The field with the cell at c replaced by v. */
  function SetCell(f: Field, c: Coordinate, v: BoardValue): (r: Field)
    ensures At(r, c) == v
    ensures forall d: Coordinate | d != c :: At(r, d) == At(f, d)
  {
    f[c.row := f[c.row][c.column := v]]
  }

  /** The tiles of s (its non-empty cells), in their original order. */
  function NonZero(s: seq<BoardValue>): (r: seq<BoardValue>)
    ensures |r| <= |s|
    ensures forall v | v in r :: !v.IsEmpty()
  {
    if s == [] then []
    else if s[0].IsEmpty() then NonZero(s[1..])
    else [s[0]] + NonZero(s[1..])
  }

  /** NonZero distributes over concatenation. */
  lemma {:induction false} NonZeroAppend(a: seq<BoardValue>, b: seq<BoardValue>)
    ensures NonZero(a + b) == NonZero(a) + NonZero(b)
  {
    if a == [] {
      assert a + b == b;
    } else {
      assert (a + b)[0] == a[0];
      assert (a + b)[1..] == a[1..] + b;
      NonZeroAppend(a[1..], b);
    }
  }

  /** A sequence has no tiles exactly when every cell is empty. */
  lemma {:induction false} NonZeroNone(s: seq<BoardValue>)
    ensures NonZero(s) == [] <==> forall j | 0 <= j < |s| :: s[j].IsEmpty()
  {
    if s != [] {
      NonZeroNone(s[1..]);
      assert forall j | 0 <= j < |s[1..]| :: s[1..][j] == s[j + 1];
    }
  }

  /** The tiles of the suffix starting at i: the cell at i (if a tile), then the rest. */
  lemma {:induction false} NonZeroAt(s: seq<BoardValue>, i: nat)
    requires i < |s|
    ensures NonZero(s[i..]) == (if s[i].IsEmpty() then [] else [s[i]]) + NonZero(s[i + 1..])
  {
    assert s[i..][0] == s[i];
    assert s[i..][1..] == s[i + 1..];
  }

  /** Empty cells between i and k do not contribute tiles. */
  lemma {:induction false} NonZeroSkip(s: seq<BoardValue>, i: nat, k: nat)
    requires i <= k <= |s|
    requires forall j | i <= j < k :: s[j].IsEmpty()
    ensures NonZero(s[i..]) == NonZero(s[k..])
    decreases k - i
  {
    if i < k {
      NonZeroAt(s, i);
      NonZeroSkip(s, i + 1, k);
    }
  }

  /** Every tile of a row comes before every empty cell. */
  predicate Packed(r: seq<BoardValue>) {
    forall i, j | 0 <= i < j < |r| :: r[i].IsEmpty() ==> r[j].IsEmpty()
  }

  /** The 16 cells in row-major order. */
  function Cells(f: Field): (s: seq<BoardValue>)
    ensures |s| == 16
  {
    var top: seq<BoardValue> := f[0];
    top + f[1] + f[2] + f[3]
  }
}
