/** Sliding and merging tiles. A row is compacted to the left by a pass over
    positions 0, 1, 2: `Pull` brings the next tile into an empty position,
    `Merge` joins it with the following tile when both are equal. The result
    is specified by `LeftMerged`, an independent definition: the tiles of the
    row, equal neighbours paired greedily from the left, padded with empty
    cells. */
module FieldMoveAndMerge {
  import opened BoardValues
  import opened Fields

  // ---------------------------------------------------------------------
  // Reference definition of a left move on one row
  // ---------------------------------------------------------------------

  /** Greedy pairing from the left: two equal neighbouring tiles become one
      doubled tile, which takes part in no further merge. */
  function Collapse(s: seq<BoardValue>): (r: seq<BoardValue>)
    ensures |r| <= |s|
    ensures (forall v | v in s :: !v.IsEmpty()) ==> forall v | v in r :: !v.IsEmpty()
  {
    if |s| < 2 then s
    else if s[0] == s[1] then [s[0].Duplicate()] + Collapse(s[2..])
    else [s[0]] + Collapse(s[1..])
  }

  /** n empty cells. */
  function Blanks(n: nat): (r: seq<BoardValue>)
    ensures |r| == n
    ensures forall i | 0 <= i < n :: r[i] == Empty
  {
    if n == 0 then [] else [Empty] + Blanks(n - 1)
  }

  /** s followed by empty cells up to a full row. */
  function PadRow(s: seq<BoardValue>): (r: Row)
    requires |s| <= 4
    ensures r[..|s|] == s
    ensures forall i | |s| <= i < 4 :: r[i] == Empty
  {
    s + Blanks(4 - |s|)
  }

  /** The row a left move produces. */
  function LeftMerged(row: Row): Row {
    PadRow(Collapse(NonZero(row)))
  }

  /** Some two neighbours of s are equal. */
  predicate HasPair(s: seq<BoardValue>) {
    exists i | 0 <= i && i + 1 < |s| :: s[i] == s[i + 1]
  }

  /** The sum of the values of s. */
  function Total(s: seq<BoardValue>): nat {
    if s == [] then 0 else s[0].value + Total(s[1..])
  }

  // ---------------------------------------------------------------------
  // The imperative row pass
  // ---------------------------------------------------------------------

  /** k holds the first tile after `index`. */
  predicate FirstTileAfter(row: Row, index: nat, k: nat) {
    index < k < 4 && !row[k].IsEmpty() && forall j | index < j < k :: row[j].IsEmpty()
  }

  /** A row has at most one first tile after `index`. */
  lemma {:induction false} FirstTileUnique(row: Row, index: nat, k: nat, m: nat)
    requires FirstTileAfter(row, index, k) && FirstTileAfter(row, index, m)
    ensures k == m
  {
  }

  /** `find_next_value`: the first tile at or after `start`, or `start`
      itself when there is none. */
  method FindNextValue(row: Row, start: nat) returns (k: nat)
    ensures start <= k
    ensures (k < 4 && !row[k].IsEmpty() && forall j | start <= j < k :: row[j].IsEmpty())
         || (k == start && forall j | start <= j < 4 :: row[j].IsEmpty())
  {
    k := start;
    var index := start;
    while index < 4
      invariant start <= index
      invariant forall j | start <= j < index && j < 4 :: row[j].IsEmpty()
      decreases 4 - index
    {
      if row[index] != New(0) {
        return index;
      }
      index := index + 1;
    }
  }

  /** `shift_values`: moves the cells after `start` one place to the left and
      empties the last cell. */
  method ShiftValues(row: Row, start: nat) returns (r: Row)
    ensures forall i | 0 <= i < start && i < 4 :: r[i] == row[i]
    ensures forall i | start <= i < 3 :: r[i] == row[i + 1]
    ensures start <= 2 ==> r[3] == Empty
    ensures start > 2 ==> r == row
  {
    r := row;
    var index := start;
    while index <= 2
      invariant start <= index
      invariant index > 2 ==> index == start || index == 3
      invariant index == start ==> r == row
      invariant forall i | 0 <= i < start && i < 4 :: r[i] == row[i]
      invariant forall i | start <= i < index && i < 3 :: r[i] == row[i + 1]
      invariant forall i | index < i < 4 :: r[i] == row[i]
      invariant start < index < 4 ==> r[index] == Empty
    {
      var source := index + 1;
      r := r[index := r[source]];
      r := r[source := New(0)];
      index := index + 1;
    }
  }

  /** Moving the first tile after an empty cell at `index` into that cell
      keeps the tiles from `index` on. */
  lemma {:induction false} PulledTiles(row: Row, index: nat, next: nat, r: Row)
    requires index < next < 4 && row[index].IsEmpty()
    requires forall j | index < j < next :: row[j].IsEmpty()
    requires r == row[index := row[next]][next := Empty]
    ensures NonZero(r[index..]) == NonZero(row[index..])
  {
    NonZeroSkip(row, index, next);
    NonZeroAt(row, next);
    NonZeroAt(r, index);
    NonZeroSkip(r, index + 1, next + 1);
    assert r[next + 1..] == row[next + 1..];
  }

  /** `pull`: an empty cell at `index` takes the next tile of the row. The
      tiles from `index` on keep their order, and an empty cell is left at
      `index` only when no tile follows it. */
  method Pull(row: Row, index: nat) returns (r: Row)
    requires index < 3 || (index == 3 && !row[3].IsEmpty())
    ensures r[..index] == row[..index]
    ensures NonZero(r[index..]) == NonZero(row[index..])
    ensures r[index].IsEmpty() ==> forall j | index <= j < 4 :: r[j].IsEmpty()
    ensures !row[index].IsEmpty() ==> r == row
    ensures forall k: nat | FirstTileAfter(row, index, k) ::
      row[index].IsEmpty() ==> r == row[index := row[k]][k := Empty]
  {
    r := row;
    var next := FindNextValue(r, index + 1);
    if r[index] == New(0) {
      if next < 4 && !row[next].IsEmpty() {
        r := r[index := r[next]];
        r := r[next := New(0)];
        forall k: nat | FirstTileAfter(row, index, k) ensures k == next {
          FirstTileUnique(row, index, k, next);
        }
        PulledTiles(row, index, next, r);
      } else {
        r := r[index := r[next]];
        r := r[next := New(0)];
        assert r == row;
      }
    }
  }

  /** After a merge at `index` with the tile at `next`, the tiles behind
      `index` are those that followed `next`. */
  lemma {:induction false} MergedTail(row: Row, index: nat, next: nat, cleared: Row, r: Row)
    requires index < next < 4
    requires forall j | index < j < next :: row[j].IsEmpty()
    requires cleared == row[index := row[index].Duplicate()][next := Empty]
    requires forall i | index < i < 3 :: r[i] == cleared[i + 1]
    requires r[3] == Empty
    ensures NonZero(r[index + 1..]) == NonZero(row[next + 1..])
  {
    assert r[index + 1..] == cleared[index + 2..] + [Empty];
    NonZeroAppend(cleared[index + 2..], [Empty]);
    NonZeroAt(cleared, index + 1);
    NonZeroSkip(cleared, index + 1, next + 1);
    assert cleared[next + 1..] == row[next + 1..];
  }

  /** The cells a merge at `index` with the tile at `next` leaves. */
  lemma {:induction false} MergedCells(row: Row, index: nat, next: nat, cleared: Row, r: Row)
    requires index < next < 4
    requires cleared == row[index := row[index].Duplicate()][next := Empty]
    requires r[..index] == row[..index] && r[index] == row[index].Duplicate()
    requires forall i | index < i < 3 :: r[i] == cleared[i + 1]
    requires r[3] == Empty
    ensures r == row[..index] + [row[index].Duplicate()] + row[next := Empty][index + 2..] + [Empty]
  {
    var s := row[..index] + [row[index].Duplicate()] + row[next := Empty][index + 2..] + [Empty];
    forall i | 0 <= i < 4 ensures r[i] == s[i] {
      if i < index {
        assert r[i] == r[..index][i];
      } else if index < i < 3 {
        assert s[i] == row[next := Empty][i + 1];
      }
    }
  }

  /** `merge`: the tile at `index` absorbs the next tile of the row when the
      two are equal; otherwise nothing changes. */
  method Merge(row: Row, index: nat) returns (r: Row)
    requires index < 3
    ensures r[..index] == row[..index]
    ensures var rest := NonZero(row[index + 1..]);
      !row[index].IsEmpty() && rest != [] && rest[0] == row[index] ==>
        r[index] == row[index].Duplicate() && NonZero(r[index + 1..]) == rest[1..]
    ensures var rest := NonZero(row[index + 1..]);
      !(!row[index].IsEmpty() && rest != [] && rest[0] == row[index]) ==> r == row
    ensures forall k: nat | FirstTileAfter(row, index, k) && row[k] == row[index] ::
      r == row[..index] + [row[index].Duplicate()] + row[k := Empty][index + 2..] + [Empty]
  {
    r := row;
    var next := FindNextValue(r, index + 1);
    if next < 4 && !row[next].IsEmpty() {
      NonZeroSkip(row, index + 1, next);
      NonZeroAt(row, next);
    } else {
      NonZeroNone(row[index + 1..]);
      assert forall j | index + 1 <= j < 4 :: row[j] == row[index + 1..][j - index - 1];
    }
    if r[index] == r[next] {
      r := r[index := r[index].Duplicate()];
      r := r[next := New(0)];
      ghost var cleared := r;
      r := ShiftValues(r, index + 1);
      assert r[..index] == cleared[..index] == row[..index];
      if next < 4 && !row[next].IsEmpty() {
        MergedTail(row, index, next, cleared, r);
        assert r[index] == cleared[index] == row[index].Duplicate();
        MergedCells(row, index, next, cleared, r);
        forall k: nat | FirstTileAfter(row, index, k) && row[k] == row[index]
          ensures k == next
        {
          FirstTileUnique(row, index, k, next);
        }
      } else {
        assert r == row;
      }
    }
  }

  /** The cells from i on are all empty exactly when they hold no tile. */
  lemma {:induction false} EmptyFrom(s: Row, i: nat)
    requires i <= 4
    ensures NonZero(s[i..]) == [] <==> forall k | i <= k < 4 :: s[k].IsEmpty()
  {
    NonZeroNone(s[i..]);
    assert forall k | i <= k < 4 :: s[k] == s[i..][k - i];
  }

  /** One step of the pass keeps the first pass invariant of
      `MoveAndMergeRowLeft` (the tiles already placed, followed by the merge of
      the remaining tiles, are the merge of the input's tiles) when no tile is
      left to pull. */
  lemma {:induction false} PassStepNoTile(row: Row, r: Row, pulled: Row, index: nat)
    requires index < 3
    requires Collapse(NonZero(row)) == NonZero(r[..index]) + Collapse(NonZero(r[index..]))
    requires pulled[..index] == r[..index]
    requires NonZero(pulled[index..]) == NonZero(r[index..])
    requires forall j | index <= j < 4 :: pulled[j].IsEmpty()
    ensures Collapse(NonZero(row)) == NonZero(pulled[..index + 1]) + Collapse(NonZero(pulled[index + 1..]))
  {
    assert pulled[..index + 1] == pulled[..index] + [pulled[index]];
    NonZeroAppend(pulled[..index], [pulled[index]]);
    EmptyFrom(pulled, index);
    EmptyFrom(pulled, index + 1);
  }

  /** The same when the tile at the current position absorbs the next one. */
  lemma {:induction false} PassStepMerged(row: Row, r: Row, pulled: Row, merged: Row, index: nat)
    requires index < 3
    requires Collapse(NonZero(row)) == NonZero(r[..index]) + Collapse(NonZero(r[index..]))
    requires pulled[..index] == r[..index]
    requires NonZero(pulled[index..]) == NonZero(r[index..])
    requires !pulled[index].IsEmpty()
    requires NonZero(pulled[index + 1..]) != [] && NonZero(pulled[index + 1..])[0] == pulled[index]
    requires merged[..index] == pulled[..index]
    requires merged[index] == pulled[index].Duplicate()
    requires NonZero(merged[index + 1..]) == NonZero(pulled[index + 1..])[1..]
    ensures Collapse(NonZero(row)) == NonZero(merged[..index + 1]) + Collapse(NonZero(merged[index + 1..]))
  {
    var m := merged[index];
    var rest := NonZero(pulled[index + 1..]);
    var t := NonZero(pulled[index..]);
    var done := NonZero(r[..index]);
    assert t == [pulled[index]] + rest by { NonZeroAt(pulled, index); }
    assert Collapse(t) == [m] + Collapse(NonZero(merged[index + 1..])) by {
      CollapsePair(pulled[index], rest);
    }
    assert NonZero(merged[..index + 1]) == done + [m] by { NonZeroPrefixStep(merged, index); }
    Regroup(Collapse(NonZero(row)), done, m, Collapse(t), Collapse(NonZero(merged[index + 1..])));
  }

  /** The same when the tile at the current position stays as it is. */
  lemma {:induction false} PassStepKept(row: Row, r: Row, pulled: Row, index: nat)
    requires index < 3
    requires Collapse(NonZero(row)) == NonZero(r[..index]) + Collapse(NonZero(r[index..]))
    requires pulled[..index] == r[..index]
    requires NonZero(pulled[index..]) == NonZero(r[index..])
    requires !pulled[index].IsEmpty()
    requires !(NonZero(pulled[index + 1..]) != [] && NonZero(pulled[index + 1..])[0] == pulled[index])
    ensures Collapse(NonZero(row)) == NonZero(pulled[..index + 1]) + Collapse(NonZero(pulled[index + 1..]))
  {
    var p := pulled[index];
    var rest := NonZero(pulled[index + 1..]);
    var t := NonZero(pulled[index..]);
    var done := NonZero(r[..index]);
    assert t == [p] + rest by { NonZeroAt(pulled, index); }
    assert Collapse(t) == [p] + Collapse(rest) by { CollapseKeep(p, rest); }
    assert NonZero(pulled[..index + 1]) == done + [p] by { NonZeroPrefixStep(pulled, index); }
    Regroup(Collapse(NonZero(row)), done, p, Collapse(t), Collapse(rest));
  }

  /** Moving one element across a concatenation. */
  lemma {:induction false} Regroup(whole: seq<BoardValue>, done: seq<BoardValue>, p: BoardValue,
                tail: seq<BoardValue>, rest: seq<BoardValue>)
    requires whole == done + tail
    requires tail == [p] + rest
    ensures whole == (done + [p]) + rest
  {
  }

  /** A tile followed by its equal merges with it. */
  lemma {:induction false} CollapsePair(p: BoardValue, rest: seq<BoardValue>)
    requires rest != [] && rest[0] == p
    ensures Collapse([p] + rest) == [p.Duplicate()] + Collapse(rest[1..])
  {
    assert ([p] + rest)[2..] == rest[1..];
  }

  /** A tile not followed by its equal stays as it is. */
  lemma {:induction false} CollapseKeep(p: BoardValue, rest: seq<BoardValue>)
    requires !(rest != [] && rest[0] == p)
    ensures Collapse([p] + rest) == [p] + Collapse(rest)
  {
    assert ([p] + rest)[1..] == rest;
  }

  /** Extending a prefix by a tile extends its tiles by that tile. */
  lemma {:induction false} NonZeroPrefixStep(s: Row, index: nat)
    requires index < 4
    requires !s[index].IsEmpty()
    ensures NonZero(s[..index + 1]) == NonZero(s[..index]) + [s[index]]
  {
    assert s[..index + 1] == s[..index] + [s[index]];
    NonZeroAppend(s[..index], [s[index]]);
    assert [s[index]][1..] == [];
  }

  /** One step of the pass keeps the second pass invariant: an empty cell
      before the current position is followed by empty cells only. */
  lemma {:induction false} PassStepPacked(r: Row, pulled: Row, merged: Row, index: nat)
    requires index < 3
    requires forall j | 0 <= j < index :: r[j].IsEmpty() ==> forall k | j <= k < 4 :: r[k].IsEmpty()
    requires pulled[..index] == r[..index]
    requires NonZero(pulled[index..]) == NonZero(r[index..])
    requires pulled[index].IsEmpty() ==> forall j | index <= j < 4 :: pulled[j].IsEmpty()
    requires merged[..index] == pulled[..index]
    requires pulled[index].IsEmpty() ==> merged == pulled
    requires !pulled[index].IsEmpty() ==> !merged[index].IsEmpty()
    ensures forall j | 0 <= j < index + 1 :: merged[j].IsEmpty() ==> forall k | j <= k < 4 :: merged[k].IsEmpty()
  {
    if exists j | 0 <= j < index :: r[j].IsEmpty() {
      EmptyFrom(r, index);
      EmptyFrom(pulled, index);
      assert merged == pulled;
    }
  }

  /** A row whose tiles all come first is its tiles followed by empty cells. */
  lemma {:induction false} PackedIsPadded(s: seq<BoardValue>)
    requires Packed(s)
    ensures s == NonZero(s) + Blanks(|s| - |NonZero(s)|)
  {
    if s != [] {
      assert Packed(s[1..]) by {
        forall i, j | 0 <= i < j < |s[1..]| ensures s[1..][i].IsEmpty() ==> s[1..][j].IsEmpty() {
          assert s[1..][i] == s[i + 1] && s[1..][j] == s[j + 1];
        }
      }
      PackedIsPadded(s[1..]);
      if s[0].IsEmpty() {
        NonZeroNone(s);
        assert s == Blanks(|s|);
      }
    }
  }

  /** `move_and_merge_row_left`: the pass over positions 0, 1, 2 computes
      exactly the reference left move. */
  method MoveAndMergeRowLeft(row: Row) returns (r: Row)
    ensures r == LeftMerged(row)
  {
    r := row;
    assert r[..0] == [] && r[0..] == r;
    for index := 0 to 3
      invariant Collapse(NonZero(row)) == NonZero(r[..index]) + Collapse(NonZero(r[index..]))
      invariant forall j | 0 <= j < index :: r[j].IsEmpty() ==> forall k | j <= k < 4 :: r[k].IsEmpty()
    {
      var pulled := Pull(r, index);
      var merged := Merge(pulled, index);
      if pulled[index].IsEmpty() {
        PassStepNoTile(row, r, pulled, index);
      } else if NonZero(pulled[index + 1..]) != [] && NonZero(pulled[index + 1..])[0] == pulled[index] {
        PassStepMerged(row, r, pulled, merged, index);
      } else {
        PassStepKept(row, r, pulled, index);
      }
      PassStepPacked(r, pulled, merged, index);
      r := merged;
    }
    PassFinished(row, r);
  }

  /** Once the pass has reached the last cell, the row is the reference result. */
  lemma {:induction false} PassFinished(row: Row, r: Row)
    requires Collapse(NonZero(row)) == NonZero(r[..3]) + Collapse(NonZero(r[3..]))
    requires forall j | 0 <= j < 3 :: r[j].IsEmpty() ==> forall k | j <= k < 4 :: r[k].IsEmpty()
    ensures r == LeftMerged(row)
  {
    var tiles := NonZero(r);
    assert LeftMerged(row) == PadRow(tiles) by {
      PassFinishedTiles(row, r);
    }
    assert r == tiles + Blanks(4 - |tiles|) by {
      PassFinishedPacked(r);
      PackedIsPadded(r);
    }
  }

  /** At the last cell the tiles of the row are the reference tiles. */
  lemma {:induction false} PassFinishedTiles(row: Row, r: Row)
    requires Collapse(NonZero(row)) == NonZero(r[..3]) + Collapse(NonZero(r[3..]))
    ensures Collapse(NonZero(row)) == NonZero(r)
  {
    var tail := NonZero(r[3..]);
    assert |tail| < 2 by {
      NonZeroAt(r, 3);
      assert r[4..] == [];
    }
    assert Collapse(tail) == tail;
    assert r == r[..3] + r[3..];
    NonZeroAppend(r[..3], r[3..]);
  }

  /** At the last cell the row is packed. */
  lemma {:induction false} PassFinishedPacked(r: Row)
    requires forall j | 0 <= j < 3 :: r[j].IsEmpty() ==> forall k | j <= k < 4 :: r[k].IsEmpty()
    ensures Packed(r)
  {
    forall i, j | 0 <= i < j < 4 ensures r[i].IsEmpty() ==> r[j].IsEmpty() {
      if i < 3 && r[i].IsEmpty() {
        assert i <= j < 4;
      }
    }
  }



  // ---------------------------------------------------------------------
  // Properties of the reference left move
  // ---------------------------------------------------------------------

  lemma {:induction false} TotalAppend(a: seq<BoardValue>, b: seq<BoardValue>)
    ensures Total(a + b) == Total(a) + Total(b)
  {
    if a == [] {
      assert a + b == b;
    } else {
      assert (a + b)[1..] == a[1..] + b;
      TotalAppend(a[1..], b);
    }
  }

  lemma {:induction false} TotalNonZero(s: seq<BoardValue>)
    ensures Total(NonZero(s)) == Total(s)
  {
    if s != [] {
      TotalNonZero(s[1..]);
      TotalAppend([s[0]], NonZero(s[1..]));
    }
  }

  lemma {:induction false} TotalCollapse(s: seq<BoardValue>)
    ensures Total(Collapse(s)) == Total(s)
  {
    if |s| >= 2 {
      if s[0] == s[1] {
        TotalCollapse(s[2..]);
        TotalAppend([s[0].Duplicate()], Collapse(s[2..]));
        assert s[1..][1..] == s[2..];
      } else {
        TotalCollapse(s[1..]);
        TotalAppend([s[0]], Collapse(s[1..]));
      }
    }
  }

  lemma {:induction false} TotalBlanks(n: nat)
    ensures Total(Blanks(n)) == 0
  {
    if n > 0 {
      assert Blanks(n)[1..] == Blanks(n - 1);
      TotalBlanks(n - 1);
    }
  }

  lemma {:induction false} NonZeroBlanks(n: nat)
    ensures NonZero(Blanks(n)) == []
  {
    NonZeroNone(Blanks(n));
  }

  /** A sequence of tiles is its own list of tiles. */
  lemma {:induction false} NonZeroOfTiles(s: seq<BoardValue>)
    requires forall v | v in s :: !v.IsEmpty()
    ensures NonZero(s) == s
  {
    if s != [] {
      NonZeroOfTiles(s[1..]);
    }
  }

  /** The tiles of a padded sequence of tiles are that sequence. */
  lemma {:induction false} NonZeroPadRow(s: seq<BoardValue>)
    requires |s| <= 4
    requires forall v | v in s :: !v.IsEmpty()
    ensures NonZero(PadRow(s)) == s
  {
    NonZeroAppend(s, Blanks(4 - |s|));
    NonZeroOfTiles(s);
    NonZeroBlanks(4 - |s|);
  }

  /** The tiles of the moved row are the collapsed tiles of the input. */
  lemma {:induction false} LeftMergedTiles(row: Row)
    ensures NonZero(LeftMerged(row)) == Collapse(NonZero(row))
  {
    NonZeroPadRow(Collapse(NonZero(row)));
  }

  /** Merging shortens a sequence exactly when two neighbours are equal. */
  lemma {:induction false} CollapseShrinks(s: seq<BoardValue>)
    ensures |Collapse(s)| < |s| <==> HasPair(s)
  {
    if |s| >= 2 {
      if s[0] == s[1] {
        assert s[0] == s[0 + 1];
      } else {
        CollapseShrinks(s[1..]);
        if HasPair(s) {
          var i :| 0 <= i && i + 1 < |s| && s[i] == s[i + 1];
          assert s[1..][i - 1] == s[1..][i];
        }
        if HasPair(s[1..]) {
          var i :| 0 <= i && i + 1 < |s[1..]| && s[1..][i] == s[1..][i + 1];
          assert s[i + 1] == s[i + 2];
        }
      }
    }
  }

  /** Without equal neighbours nothing merges. */
  lemma {:induction false} CollapseNoPair(s: seq<BoardValue>)
    requires !HasPair(s)
    ensures Collapse(s) == s
  {
    if |s| >= 2 {
      CollapseNoPair(s[1..]);
    }
  }

  /** The moved row is packed to the left, holds the same total, and merged
      tiles stay tiles. */
  lemma {:induction false} LeftMergedPacked(row: Row)
    ensures Packed(LeftMerged(row))
    ensures Total(LeftMerged(row)) == Total(row)
  {
    var c := Collapse(NonZero(row));
    var r := LeftMerged(row);
    forall i, j | 0 <= i < j < 4 && r[i].IsEmpty() ensures r[j].IsEmpty() {
    }
    TotalAppend(c, Blanks(4 - |c|));
    TotalBlanks(4 - |c|);
    TotalCollapse(NonZero(row));
    TotalNonZero(row);
  }

  /** A move never adds tiles, and removes one exactly when some two
      neighbouring tiles (ignoring empty cells between them) are equal. */
  lemma {:induction false} LeftMergedTileCount(row: Row)
    ensures |NonZero(LeftMerged(row))| <= |NonZero(row)|
    ensures |NonZero(LeftMerged(row))| < |NonZero(row)| <==> HasPair(NonZero(row))
  {
    LeftMergedTiles(row);
    CollapseShrinks(NonZero(row));
  }

  /** Without equal neighbouring tiles the tiles keep their order and only
      slide left. */
  lemma {:induction false} LeftMergedSlides(row: Row)
    requires !HasPair(NonZero(row))
    ensures LeftMerged(row) == PadRow(NonZero(row))
  {
    CollapseNoPair(NonZero(row));
  }

  /** A move that changes a row leaves an empty cell in it. */
  lemma {:induction false} LeftMergedChangedHasEmpty(row: Row)
    requires LeftMerged(row) != row
    ensures exists i: Index :: LeftMerged(row)[i].IsEmpty()
  {
    var t := NonZero(row);
    var c := Collapse(t);
    if |c| < 4 {
      assert LeftMerged(row)[3].IsEmpty();
    } else {
      CollapseShrinks(t);
      CollapseNoPair(t);
      NonZeroOfLength(row);
      assert false;
    }
  }

  /** A row with four tiles is its own list of tiles. */
  lemma {:induction false} NonZeroOfLength(row: Row)
    requires |NonZero(row)| == 4
    ensures NonZero(row) == row
  {
    forall i: Index ensures !row[i].IsEmpty() {
      if row[i].IsEmpty() {
        NonZeroAt(row, i);
        assert row == row[..i] + row[i..];
        NonZeroAppend(row[..i], row[i..]);
      }
    }
    NonZeroOfTiles(row);
  }

  // ---------------------------------------------------------------------
  // Whole fields
  // ---------------------------------------------------------------------

  /** `reverse`: the row read from right to left. */
  function Reverse(row: Row): (r: Row)
    ensures forall i: Index :: r[i] == row[3 - i]
  {
    [row[3], row[2], row[1], row[0]]
  }

  lemma {:induction false} ReverseInvolution(row: Row)
    ensures Reverse(Reverse(row)) == row
  {
  }

  /** `move_and_merge_left`: every row moved left on its own. */
  function MoveAndMergeLeft(f: Field): (r: Field)
    ensures forall i: Index :: r[i] == LeftMerged(f[i])
  {
    [LeftMerged(f[0]), LeftMerged(f[1]), LeftMerged(f[2]), LeftMerged(f[3])]
  }

  /** A row moved right: reversed, moved left, reversed back. */
  function RightMerged(row: Row): Row {
    Reverse(LeftMerged(Reverse(row)))
  }

  /** `move_and_merge_right`: every row reversed, moved left, reversed back. */
  function MoveAndMergeRight(f: Field): (r: Field)
    ensures forall i: Index :: r[i] == RightMerged(f[i])
  {
    [RightMerged(f[0]), RightMerged(f[1]), RightMerged(f[2]), RightMerged(f[3])]
  }

  /** A left move that changes the field leaves room for a new tile. */
  lemma {:induction false} MoveLeftChangedHasEmpty(f: Field)
    requires MoveAndMergeLeft(f) != f
    ensures HasEmptyCell(MoveAndMergeLeft(f))
  {
    var r := MoveAndMergeLeft(f);
    var i: Index :| r[i] != f[i];
    LeftMergedChangedHasEmpty(f[i]);
    var j: Index :| r[i][j].IsEmpty();
    assert At(r, Coordinate(i, j)).IsEmpty();
  }

  /** A right move that changes the field leaves room for a new tile. */
  lemma {:induction false} MoveRightChangedHasEmpty(f: Field)
    requires MoveAndMergeRight(f) != f
    ensures HasEmptyCell(MoveAndMergeRight(f))
  {
    var r := MoveAndMergeRight(f);
    var i: Index :| r[i] != f[i];
    ReverseInvolution(f[i]);
    LeftMergedChangedHasEmpty(Reverse(f[i]));
    var j: Index :| LeftMerged(Reverse(f[i]))[j].IsEmpty();
    assert At(r, Coordinate(i, 3 - j)).IsEmpty();
  }

  /** Moving a row left or right keeps the total of its values. */
  lemma {:induction false} RowMovesKeepTotal(row: Row)
    ensures Total(LeftMerged(row)) == Total(row)
    ensures Total(RightMerged(row)) == Total(row)
  {
    LeftMergedPacked(row);
    LeftMergedPacked(Reverse(row));
    ReverseTotal(row);
    ReverseTotal(LeftMerged(Reverse(row)));
  }

  /** The total of a row is the sum of its four values. */
  lemma {:induction false} RowTotal(row: Row)
    ensures Total(row) == row[0].value + row[1].value + row[2].value + row[3].value
  {
    var a := row[1..];
    var b := a[1..];
    var c := b[1..];
    assert c[1..] == [];
    assert Total(c) == row[3].value;
    assert Total(b) == row[2].value + Total(c);
    assert Total(a) == row[1].value + Total(b);
  }

  lemma {:induction false} ReverseTotal(row: Row)
    ensures Total(Reverse(row)) == Total(row)
  {
    RowTotal(row);
    RowTotal(Reverse(row));
  }

  /** The empty row and the empty field are left unchanged. */
  lemma EmptyIsFixed()
    ensures LeftMerged(EmptyRow) == EmptyRow
    ensures MoveAndMergeLeft(EmptyField) == EmptyField
    ensures MoveAndMergeRight(EmptyField) == EmptyField
  {
    NonZeroNone(EmptyRow);
    assert Reverse(EmptyRow) == EmptyRow;
  }

  /** A single tile anywhere in a row ends up at position 0. */
  lemma {:induction false} SingleTileMovesToFront(k: Index, v: BoardValue)
    requires !v.IsEmpty()
    ensures LeftMerged(EmptyRow[k := v]) == [v, Empty, Empty, Empty]
  {
    var row := EmptyRow[k := v];
    assert row == row[..k] + row[k..];
    NonZeroAppend(row[..k], row[k..]);
    NonZeroNone(row[..k]);
    NonZeroAt(row, k);
    NonZeroNone(row[k + 1..]);
  }

  /** The tiles of a single cell. */
  lemma {:induction false} NonZeroSingle(v: BoardValue)
    ensures NonZero([v]) == Tile(v)
  {
    assert [v][1..] == [];
  }

  /** The tiles of a row, cell by cell. */
  lemma {:induction false} NonZeroRow(row: Row)
    ensures NonZero(row) == Tile(row[0]) + Tile(row[1]) + Tile(row[2]) + Tile(row[3])
  {
    var a, b, c, d := [row[0]], [row[1]], [row[2]], [row[3]];
    assert row == a + b + c + d;
    assert NonZero(a + b) == Tile(row[0]) + Tile(row[1]) by {
      NonZeroAppend(a, b);
      NonZeroSingle(row[0]);
      NonZeroSingle(row[1]);
    }
    assert NonZero(a + b + c) == Tile(row[0]) + Tile(row[1]) + Tile(row[2]) by {
      NonZeroAppend(a + b, c);
      NonZeroSingle(row[2]);
    }
    NonZeroAppend(a + b + c, d);
    NonZeroSingle(row[3]);
  }

  function Tile(v: BoardValue): seq<BoardValue> {
    if v.IsEmpty() then [] else [v]
  }

  /** Two equal tiles merge, with or without empty cells between them. */
  lemma PairExamples()
    ensures LeftMerged([Two, Two, Empty, Empty]) == [Four, Empty, Empty, Empty]
    ensures LeftMerged([Two, Empty, Empty, Two]) == [Four, Empty, Empty, Empty]
    ensures LeftMerged([Empty, Two, Empty, Two]) == [Four, Empty, Empty, Empty]
  {
    NonZeroRow([Two, Two, Empty, Empty]);
    NonZeroRow([Two, Empty, Empty, Two]);
    NonZeroRow([Empty, Two, Empty, Two]);
    assert Collapse([Two, Two]) == [Four] by {
      assert [Two, Two][2..] == [];
    }
    assert PadRow([Four]) == [Four, Empty, Empty, Empty];
  }

  /** Of three equal tiles the two leftmost merge. */
  lemma ThreeEqualExamples()
    ensures LeftMerged([Two, Two, Two, Empty]) == [Four, Two, Empty, Empty]
    ensures LeftMerged([Empty, Two, Two, Two]) == [Four, Two, Empty, Empty]
  {
    NonZeroRow([Two, Two, Two, Empty]);
    NonZeroRow([Empty, Two, Two, Two]);
    assert NonZero([Two, Two, Two, Empty]) == [Two, Two, Two];
    assert NonZero([Empty, Two, Two, Two]) == [Two, Two, Two];
    assert Collapse([Two, Two, Two]) == [Four, Two] by {
      assert [Two, Two, Two][2..] == [Two];
    }
    assert PadRow([Four, Two]) == [Four, Two, Empty, Empty];
  }

  /** Of three equal tiles with a gap, the two leftmost merge. */
  lemma PairBeforeTileExample()
    ensures LeftMerged([Two, Two, Empty, Two]) == [Four, Two, Empty, Empty]
    ensures LeftMerged([Two, Empty, Two, Two]) == [Four, Two, Empty, Empty]
  {
    NonZeroRow([Two, Two, Empty, Two]);
    NonZeroRow([Two, Empty, Two, Two]);
    assert NonZero([Two, Two, Empty, Two]) == [Two, Two, Two];
    assert NonZero([Two, Empty, Two, Two]) == [Two, Two, Two];
    assert Collapse([Two, Two, Two]) == [Four, Two] by {
      assert [Two, Two, Two][2..] == [Two];
    }
    assert PadRow([Four, Two]) == [Four, Two, Empty, Empty];
  }

  /** Four equal tiles make two pairs. */
  lemma FourEqualExample()
    ensures LeftMerged([Two, Two, Two, Two]) == [Four, Four, Empty, Empty]
  {
    NonZeroRow([Two, Two, Two, Two]);
    assert NonZero([Two, Two, Two, Two]) == [Two, Two, Two, Two];
    assert Collapse([Two, Two]) == [Four] by {
      assert [Two, Two][2..] == [];
    }
    assert Collapse([Two, Two, Two, Two]) == [Four, Four] by {
      assert [Two, Two, Two, Two][2..] == [Two, Two];
    }
    assert PadRow([Four, Four]) == [Four, Four, Empty, Empty];
  }

  /** A freshly merged tile does not merge again in the same move. */
  lemma MergedTileStaysExample()
    ensures LeftMerged([Four, Two, Two, Four]) == [Four, Four, Four, Empty]
  {
    NonZeroRow([Four, Two, Two, Four]);
    assert NonZero([Four, Two, Two, Four]) == [Four, Two, Two, Four];
    assert Collapse([Four]) == [Four];
    assert Collapse([Two, Two, Four]) == [Four, Four] by {
      assert [Two, Two, Four][2..] == [Four];
    }
    assert Collapse([Four, Two, Two, Four]) == [Four, Four, Four] by {
      assert [Four, Two, Two, Four][1..] == [Two, Two, Four];
    }
    assert PadRow([Four, Four, Four]) == [Four, Four, Four, Empty];
  }

  /** Distinct tiles only slide. */
  lemma SlideExamples()
    ensures LeftMerged([Empty, Two, Four, Empty]) == [Two, Four, Empty, Empty]
    ensures LeftMerged([Two, Four, Eight, Sixteen]) == [Two, Four, Eight, Sixteen]
  {
    NonZeroRow([Empty, Two, Four, Empty]);
    NonZeroRow([Two, Four, Eight, Sixteen]);
    assert NonZero([Empty, Two, Four, Empty]) == [Two, Four];
    assert NonZero([Two, Four, Eight, Sixteen]) == [Two, Four, Eight, Sixteen];
    assert Collapse([Two, Four]) == [Two, Four] by {
      assert [Two, Four][1..] == [Four];
    }
    assert Collapse([Eight, Sixteen]) == [Eight, Sixteen] by {
      assert [Eight, Sixteen][1..] == [Sixteen];
    }
    assert Collapse([Four, Eight, Sixteen]) == [Four, Eight, Sixteen] by {
      assert [Four, Eight, Sixteen][1..] == [Eight, Sixteen];
    }
    assert Collapse([Two, Four, Eight, Sixteen]) == [Two, Four, Eight, Sixteen] by {
      assert [Two, Four, Eight, Sixteen][1..] == [Four, Eight, Sixteen];
    }
    assert PadRow([Two, Four]) == [Two, Four, Empty, Empty];
    assert PadRow([Two, Four, Eight, Sixteen]) == [Two, Four, Eight, Sixteen];
  }

  /** Two equal tiles at the right end merge into one at the left end. */
  lemma {:induction false} PairMovesToFront(v: BoardValue)
    requires !v.IsEmpty()
    ensures LeftMerged([Empty, Empty, v, v]) == [v.Duplicate(), Empty, Empty, Empty]
  {
    NonZeroRow([Empty, Empty, v, v]);
    assert [v, v][2..] == [];
  }

  /** The field cases pinned by the tests of both moves. */
  lemma FieldExamples()
    ensures MoveAndMergeLeft([[Empty, Empty, Two, Two], [Empty, Empty, Four, Four],
                              [Empty, Empty, Eight, Eight], [Empty, Empty, Eight, Eight]])
         == [[Four, Empty, Empty, Empty], [Eight, Empty, Empty, Empty],
             [Sixteen, Empty, Empty, Empty], [Sixteen, Empty, Empty, Empty]]
    ensures MoveAndMergeRight([[Two, Two, Empty, Empty], [Four, Four, Empty, Empty],
                               [Eight, Eight, Empty, Empty], [Eight, Eight, Empty, Empty]])
         == [[Empty, Empty, Empty, Four], [Empty, Empty, Empty, Eight],
             [Empty, Empty, Empty, Sixteen], [Empty, Empty, Empty, Sixteen]]
  {
    PairMovesToFront(Two);
    PairMovesToFront(Four);
    PairMovesToFront(Eight);
  }
}
