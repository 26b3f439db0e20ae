/** The score heuristic, as written: a row scores the new values at the
    first three positions that changed, unless the move only slid tiles;
    the whole-field scorer is a placeholder that looks at two cells. */
module Highscore {
  import opened BoardValues
  import opened Fields
  import FieldMoveAndMerge

  /** Both rows hold the same tiles in the same order. */
  predicate SameTiles(from: Row, to: Row) {
    NonZero(from) == NonZero(to)
  }

  /** The new value at position i when it changed, else nothing. */
  function ChangedValue(from: Row, to: Row, i: Index): nat {
    if from[i] != to[i] then to[i].value else 0
  }

  /** The points of a row as `calculate_added_points_per_row_left` counts
      them. */
  function RowPoints(from: Row, to: Row): nat {
    if SameTiles(from, to) then 0
    else ChangedValue(from, to, 0) + ChangedValue(from, to, 1) + ChangedValue(from, to, 2)
  }

  /** A cell of the field scorer: 4 and 8 count their value, nothing else counts. */
  function Bonus(v: BoardValue): nat {
    if v == Four || v == Eight then v.value else 0
  }

  /** The points of a field as `calculate_added_points` counts them. */
  function FieldPoints(from: Field, to: Field): nat {
    Bonus(to[0][0]) + Bonus(to[1][0])
  }

  /** `get_vector_without_zeros`: the tiles of the row, in order. */
  method GetVectorWithoutZeros(row: Row) returns (v: seq<BoardValue>)
    ensures v == NonZero(row)
  {
    v := [];
    for index := 0 to 4
      invariant v == NonZero(row[..index])
    {
      assert row[..index + 1] == row[..index] + [row[index]];
      NonZeroAppend(row[..index], [row[index]]);
      assert [row[index]][1..] == [];
      if row[index] != New(0) {
        v := v + [row[index]];
      }
    }
    assert row[..4] == row;
  }

  /** `has_same_values`. */
  method HasSameValues(from: Row, to: Row) returns (same: bool)
    ensures same <==> SameTiles(from, to)
  {
    var fromVector := GetVectorWithoutZeros(from);
    var toVector := GetVectorWithoutZeros(to);
    same := fromVector == toVector;
  }

  /** `calculate_added_points_per_row_left`. */
  method CalculateAddedPointsPerRowLeft(from: Row, to: Row) returns (sum: nat)
    ensures sum == RowPoints(from, to)
  {
    var same := HasSameValues(from, to);
    if same {
      return 0;
    }
    sum := 0;
    var index := 0;
    if from[index] != to[index] {
      sum := sum + to[index].value;
    }
    index := index + 1;
    if from[index] != to[index] {
      sum := sum + to[index].value;
    }
    index := index + 1;
    if from[index] != to[index] {
      sum := sum + to[index].value;
    }
  }

  /** `calculate_added_points`. */
  method CalculateAddedPoints(from: Field, to: Field) returns (sum: nat)
    ensures sum == FieldPoints(from, to)
  {
    sum := 0;
    if to[0][0] == New(4) || to[0][0] == New(8) {
      sum := sum + to[0][0].value;
    }
    if to[1][0] == New(4) || to[1][0] == New(8) {
      sum := sum + to[1][0].value;
    }
  }

  // ---------------------------------------------------------------------
  // Properties
  // ---------------------------------------------------------------------

  /** A row that only slid, in particular an unchanged row, scores nothing;
      a row's score is at most the total of its first three new values. */
  lemma {:induction false} RowPointsCases(from: Row, to: Row)
    ensures from == to ==> RowPoints(from, to) == 0
    ensures SameTiles(from, to) ==> RowPoints(from, to) == 0
    ensures RowPoints(from, to) <= to[0].value + to[1].value + to[2].value
  {
  }

  /** The last position is never scored: when neither pair of rows only
      slid, changing position 3 of either row does not change the score. */
  lemma {:induction false} RowPointsIgnoresLastCell(from: Row, to: Row, from': Row, to': Row)
    requires from[..3] == from'[..3] && to[..3] == to'[..3]
    requires !SameTiles(from, to) && !SameTiles(from', to')
    ensures RowPoints(from, to) == RowPoints(from', to')
  {
    assert from[0] == from[..3][0] == from'[0];
    assert from[1] == from[..3][1] == from'[1];
    assert from[2] == from[..3][2] == from'[2];
    assert to[0] == to[..3][0] == to'[0];
    assert to[1] == to[..3][1] == to'[1];
    assert to[2] == to[..3][2] == to'[2];
  }

  /** Against the reference left move: the row only slid exactly when no two
      neighbouring tiles are equal, so such a move scores nothing. */
  lemma {:induction false} SameTilesAfterLeftMove(row: Row)
    ensures SameTiles(row, FieldMoveAndMerge.LeftMerged(row)) <==> !FieldMoveAndMerge.HasPair(NonZero(row))
    ensures !FieldMoveAndMerge.HasPair(NonZero(row)) ==> RowPoints(row, FieldMoveAndMerge.LeftMerged(row)) == 0
  {
    FieldMoveAndMerge.LeftMergedTiles(row);
    FieldMoveAndMerge.CollapseShrinks(NonZero(row));
    if !FieldMoveAndMerge.HasPair(NonZero(row)) {
      FieldMoveAndMerge.CollapseNoPair(NonZero(row));
    }
  }

  /** The slide and merge cases of the tests of `has_same_values`. */
  lemma SameTilesExamples()
    ensures SameTiles([Empty, Two, Four, Eight], [Two, Four, Eight, Empty])
    ensures SameTiles([Two, Four, Empty, Eight], [Two, Four, Eight, Empty])
    ensures SameTiles([Two, Empty, Empty, Eight], [Two, Eight, Empty, Empty])
  {
    FieldMoveAndMerge.NonZeroRow([Empty, Two, Four, Eight]);
    FieldMoveAndMerge.NonZeroRow([Two, Four, Eight, Empty]);
    FieldMoveAndMerge.NonZeroRow([Two, Four, Empty, Eight]);
    FieldMoveAndMerge.NonZeroRow([Two, Empty, Empty, Eight]);
    FieldMoveAndMerge.NonZeroRow([Two, Eight, Empty, Empty]);
  }

  /** Rows in which a pair merged do not hold the same tiles. */
  lemma MergedTilesExamples()
    ensures !SameTiles([Two, Two, Empty, Empty], [Four, Empty, Empty, Empty])
    ensures !SameTiles([Four, Four, Empty, Empty], [Eight, Empty, Empty, Empty])
  {
    FieldMoveAndMerge.NonZeroRow([Two, Two, Empty, Empty]);
    FieldMoveAndMerge.NonZeroRow([Four, Empty, Empty, Empty]);
    FieldMoveAndMerge.NonZeroRow([Four, Four, Empty, Empty]);
    FieldMoveAndMerge.NonZeroRow([Eight, Empty, Empty, Empty]);
  }

  /** The merge cases of the tests of the row scorer. */
  lemma RowPointsExamples()
    ensures RowPoints([Two, Two, Empty, Empty], [Four, Empty, Empty, Empty]) == 4
    ensures RowPoints([Two, Two, Two, Two], [Four, Four, Empty, Empty]) == 8
    ensures RowPoints([Eight, Four, Two, Two], [Eight, Four, Four, Empty]) == 4
    ensures RowPoints([Empty, Two, Empty, Two], [Four, Empty, Empty, Empty]) == 4
    ensures RowPoints([Empty, Two, Two, Two], [Four, Two, Empty, Empty]) == 4
  {
    FieldMoveAndMerge.NonZeroRow([Two, Two, Empty, Empty]);
    FieldMoveAndMerge.NonZeroRow([Four, Empty, Empty, Empty]);
    FieldMoveAndMerge.NonZeroRow([Two, Two, Two, Two]);
    FieldMoveAndMerge.NonZeroRow([Four, Four, Empty, Empty]);
    FieldMoveAndMerge.NonZeroRow([Eight, Four, Two, Two]);
    FieldMoveAndMerge.NonZeroRow([Eight, Four, Four, Empty]);
    FieldMoveAndMerge.NonZeroRow([Empty, Two, Empty, Two]);
    FieldMoveAndMerge.NonZeroRow([Empty, Two, Two, Two]);
    FieldMoveAndMerge.NonZeroRow([Four, Two, Empty, Empty]);
  }

  /** The slide cases of the tests of the row scorer score nothing. */
  lemma RowPointsSlideExamples()
    ensures RowPoints([Two, Four, Empty, Empty], [Two, Four, Empty, Empty]) == 0
    ensures RowPoints([Empty, Empty, Empty, Two], [Two, Empty, Empty, Empty]) == 0
  {
    FieldMoveAndMerge.NonZeroRow([Empty, Empty, Empty, Two]);
    FieldMoveAndMerge.NonZeroRow([Two, Empty, Empty, Empty]);
    FieldMoveAndMerge.NonZeroRow([Two, Four, Empty, Empty]);
  }

  /** Rows of two and three distinct tiles slid left score nothing. */
  lemma RowPointsLongerSlideExamples()
    ensures RowPoints([Empty, Empty, Two, Four], [Two, Four, Empty, Empty]) == 0
    ensures RowPoints([Empty, Two, Four, Eight], [Two, Four, Eight, Empty]) == 0
  {
    FieldMoveAndMerge.NonZeroRow([Empty, Empty, Two, Four]);
    FieldMoveAndMerge.NonZeroRow([Two, Four, Empty, Empty]);
    FieldMoveAndMerge.NonZeroRow([Empty, Two, Four, Eight]);
    FieldMoveAndMerge.NonZeroRow([Two, Four, Eight, Empty]);
  }

  /** The position heuristic scores [X, 2, 2, 4] -> [4, 4, X, X] as 8,
      although only one merge of value 4 took place. */
  lemma RowPointsCountsMovedTile()
    ensures RowPoints([Empty, Two, Two, Four], [Four, Four, Empty, Empty]) == 8
  {
    FieldMoveAndMerge.NonZeroRow([Empty, Two, Two, Four]);
    FieldMoveAndMerge.NonZeroRow([Four, Four, Empty, Empty]);
  }

  /** The field scorer ignores `from`, reads only the first cell of the
      first two rows, and is at most 16. */
  lemma {:induction false} FieldPointsProperties(from: Field, from': Field, to: Field, to': Field)
    requires to[0][0] == to'[0][0] && to[1][0] == to'[1][0]
    ensures FieldPoints(from, to) == FieldPoints(from', to')
    ensures FieldPoints(from, to) <= 16
    ensures FieldPoints(from, to) == 0 <==>
      (to[0][0] != Four && to[0][0] != Eight && to[1][0] != Four && to[1][0] != Eight)
  {
  }

  /** The cases of the tests of the field scorer. */
  lemma FieldPointsExamples()
    ensures FieldPoints(EmptyField, EmptyField) == 0
    ensures FieldPoints(EmptyField, EmptyField[0 := [Four, Empty, Empty, Empty]]) == 4
    ensures FieldPoints(EmptyField, EmptyField[0 := [Four, Empty, Empty, Empty]][1 := [Four, Empty, Empty, Empty]]) == 8
  {
  }
}
