/**
 * Mapping the mouse's x coordinate to a board column. The 500-pixel-wide
 * window is cut into 7 equal slices of width 500/7; column i is the open
 * interval (i*500/7, (i+1)*500/7). Comparisons are cross-multiplied by 7 so
 * that they are exact on integers. An x on a slice boundary, or outside the
 * window, falls back to column 0.
 */
module Mouse {
  import opened Board

  const Width: nat := 500

  /** x lies strictly inside the slice of column i. */
  predicate InSlice(x: int, i: int)
  {
    Width * i < Cols * x && Cols * x < Width * (i + 1)
  }

  /** Closed form of the mapping: the slice that x falls in, if any, else 0. */
  function ColumnOf(x: int): (i: nat)
    ensures i < Cols
  {
    if 0 < x && Cols * x < Width * Cols && (Cols * x) % Width != 0 then (Cols * x) / Width else 0
  }

  /**
   * The closed form names a non-zero column only when x
   * is strictly inside its slice, and names the slice x is inside whenever
   * there is one (so an x inside no slice maps to 0).
   */
  lemma ColumnOfMeaning(x: int)
    ensures ColumnOf(x) != 0 ==> InSlice(x, ColumnOf(x))
    ensures forall i :: 0 <= i < Cols && InSlice(x, i) ==> ColumnOf(x) == i
  {
  }

  /**
   * get_column: try every column in turn and remember the last one whose slice
   * holds x; 0 when none does.
   */
  method GetColumn(x: int) returns (index: int)
    ensures 0 <= index < Cols
    ensures index == ColumnOf(x)
    ensures index != 0 ==> InSlice(x, index)
    ensures forall i :: 0 <= i < Cols && InSlice(x, i) ==> index == i
  {
    ColumnOfMeaning(x);
    index := 0;
    for i := 0 to Cols
      invariant 0 <= index < Cols
      invariant index != 0 ==> index < i && InSlice(x, index)
      invariant forall j :: 0 <= j < i && InSlice(x, j) ==> index == j
    {
      if Width * i < Cols * x && Cols * x < Width * (i + 1) {
        index := i;
      }
    }
  }
}
