/** The left move of the game mover. Its row pass and the helpers of that
    pass are the same, line for line, as those of `FieldMoveAndMerge`, so the
    row pass is shared and only the lifting to a field is modelled here. */
module GameMover {
  import opened Fields
  import FieldMoveAndMerge

  /** `move_and_merge_left`: the row pass applied to each of the four rows;
      the result is the reference left move of the field. */
  method MoveAndMergeLeft(f: Field) returns (r: Field)
    ensures r == FieldMoveAndMerge.MoveAndMergeLeft(f)
  {
    var row0 := FieldMoveAndMerge.MoveAndMergeRowLeft(f[0]);
    var row1 := FieldMoveAndMerge.MoveAndMergeRowLeft(f[1]);
    var row2 := FieldMoveAndMerge.MoveAndMergeRowLeft(f[2]);
    var row3 := FieldMoveAndMerge.MoveAndMergeRowLeft(f[3]);
    r := [row0, row1, row2, row3];
  }
}
