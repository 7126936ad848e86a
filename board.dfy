/**
 * The Connect Four board as a value: a 6-row by 7-column grid of integers,
 * row 0 at the top, with 0 for an empty hole, 1 for red and 2 for yellow.
 * This module holds the placement rule (gravity into the last empty row of a
 * column), the turn swap, and the facts they keep: pieces never float, every
 * cell stays a known marker, and each successful drop adds exactly one piece.
 */
module Board {

  const Rows: nat := 6
  const Cols: nat := 7

  const Empty: int := 0
  const Red: int := 1
  const Yellow: int := 2

  type Grid = seq<seq<int>>

  /** The grid has the board's fixed 6 x 7 shape. */
  ghost predicate WellFormed(g: Grid)
  {
    |g| == Rows && forall r :: 0 <= r < |g| ==> |g[r]| == Cols
  }

  /** Every cell holds a marker the renderer knows (anything else is an UnknownPieceError). */
  ghost predicate Markers(g: Grid)
    requires WellFormed(g)
  {
    forall r, c :: 0 <= r < Rows && 0 <= c < Cols ==> g[r][c] in {Empty, Red, Yellow}
  }

  /** Gravity: in every column, a filled cell has only filled cells below it. */
  ghost predicate Settled(g: Grid)
    requires WellFormed(g)
  {
    forall r1, r2, c :: 0 <= r1 < r2 < Rows && 0 <= c < Cols && g[r1][c] != Empty ==> g[r2][c] != Empty
  }

  /** The board every game starts from. */
  function EmptyGrid(): (g: Grid)
    ensures WellFormed(g) && Markers(g) && Settled(g)
    ensures forall r, c :: 0 <= r < Rows && 0 <= c < Cols ==> g[r][c] == Empty
  {
    seq(Rows, _ => seq(Cols, _ => Empty))
  }

  /** Two grids of the board's shape that agree on every cell are equal. */
  lemma GridExt(g1: Grid, g2: Grid)
    requires WellFormed(g1) && WellFormed(g2)
    requires forall r, c :: 0 <= r < Rows && 0 <= c < Cols ==> g1[r][c] == g2[r][c]
    ensures g1 == g2
  {
    forall r | 0 <= r < Rows
      ensures g1[r] == g2[r]
    {
      assert |g1[r]| == |g2[r]| == Cols;
    }
  }

  // ---------------------------------------------------------------------------
  // rindex: the last index of a value, found on a reversed copy

  function Reverse(s: seq<int>): (r: seq<int>)
    ensures |r| == |s|
  {
    if s == [] then [] else Reverse(s[1..]) + [s[0]]
  }

  lemma {:induction false} ReverseAt(s: seq<int>, k: nat)
    requires k < |s|
    ensures Reverse(s)[k] == s[|s| - 1 - k]
  {
    if k < |s| - 1 {
      ReverseAt(s[1..], k);
    }
  }

  /** list.index: the first position holding `value`. */
  function IndexOf(s: seq<int>, value: int): (i: nat)
    requires value in s
    ensures i < |s| && s[i] == value
    ensures forall j :: 0 <= j < i ==> s[j] != value
  {
    if s[0] == value then 0 else 1 + IndexOf(s[1..], value)
  }

  /**
   * rindex: reverse a copy of the list, find the first occurrence there, and
   * convert it back. The result is the LAST position holding `value`.
   */
  function RIndex(lst: seq<int>, value: int): (i: nat)
    requires value in lst
    ensures i < |lst| && lst[i] == value
    ensures forall j :: i < j < |lst| ==> lst[j] != value
  {
    var l := Reverse(lst);
    assert value in l by {
      var k :| 0 <= k < |lst| && lst[k] == value;
      ReverseAt(lst, |lst| - 1 - k);
    }
    var k := IndexOf(l, value);
    ReverseAt(lst, k);
    assert forall j :: |lst| - k - 1 < j < |lst| ==> lst[j] != value by {
      forall j | |lst| - k - 1 < j < |lst|
        ensures lst[j] != value
      {
        ReverseAt(lst, |lst| - 1 - j);
      }
    }
    |l| - k - 1
  }

  // ---------------------------------------------------------------------------
  // Turns

  /** change_player: red and yellow swap; any other value stays as it is. */
  function NextPlayer(p: int): (q: int)
    ensures p == Red ==> q == Yellow
    ensures p == Yellow ==> q == Red
    ensures p != Red && p != Yellow ==> q == p
  {
    if p == Red then Yellow else if p == Yellow then Red else p
  }

  /** Swapping twice gives back the player who started; the swap keeps a player a player. */
  lemma NextPlayerInvolution(p: int)
    ensures NextPlayer(NextPlayer(p)) == p
    ensures p in {Red, Yellow} <==> NextPlayer(p) in {Red, Yellow}
    ensures p in {Red, Yellow} <==> NextPlayer(p) != p
  {
  }

  // ---------------------------------------------------------------------------
  // Placement with gravity

  /** numpy.take(board, c, axis=1): the column as a list, top row first. */
  function Column(g: Grid, c: int): (col: seq<int>)
    requires WellFormed(g) && 0 <= c < Cols
    ensures |col| == Rows && forall r :: 0 <= r < Rows ==> col[r] == g[r][c]
  {
    seq(Rows, r requires 0 <= r < Rows => g[r][c])
  }

  /** The column has no empty hole left. */
  predicate Full(g: Grid, c: int)
    requires WellFormed(g) && 0 <= c < Cols
  {
    Empty !in Column(g, c)
  }

  /** Where a piece dropped into column c lands: the bottom-most empty hole. */
  function LandingRow(g: Grid, c: int): (row: nat)
    requires WellFormed(g) && 0 <= c < Cols && !Full(g, c)
    ensures row < Rows && g[row][c] == Empty
    ensures forall r :: row < r < Rows ==> g[r][c] != Empty
  {
    RIndex(Column(g, c), Empty)
  }

  /**
   * place_piece on the board: a full column is left alone; otherwise `piece`
   * is written into the landing row of that column and nothing else changes.
   */
  function Place(g: Grid, c: int, piece: int): (g': Grid)
    requires WellFormed(g) && 0 <= c < Cols
    ensures WellFormed(g')
    ensures Full(g, c) ==> g' == g
    ensures forall r, cc :: 0 <= r < Rows && 0 <= cc < Cols ==>
      g'[r][cc] == (if !Full(g, c) && cc == c && r == LandingRow(g, c) then piece else g[r][cc])
  {
    if Full(g, c) then g
    else
      var row := LandingRow(g, c);
      g[row := g[row][c := piece]]
  }

  /** On a settled board the landing row is the lowest empty hole with only empty holes above it. */
  lemma LandingOnTop(g: Grid, c: int)
    requires WellFormed(g) && Settled(g) && 0 <= c < Cols && !Full(g, c)
    ensures forall r :: 0 <= r <= LandingRow(g, c) ==> g[r][c] == Empty
    ensures forall r :: LandingRow(g, c) < r < Rows ==> g[r][c] != Empty
  {
  }

  /** A placement never lets a piece float: gravity is preserved for any piece. */
  lemma PlaceKeepsSettled(g: Grid, c: int, piece: int)
    requires WellFormed(g) && Settled(g) && 0 <= c < Cols
    ensures Settled(Place(g, c, piece))
  {
    var g' := Place(g, c, piece);
    if !Full(g, c) {
      var row := LandingRow(g, c);
      assert forall r :: 0 <= r < row ==> g[r][c] == Empty;
    }
  }

  /** Dropping a red or yellow piece keeps every cell a known marker. */
  lemma PlaceKeepsMarkers(g: Grid, c: int, piece: int)
    requires WellFormed(g) && Markers(g) && 0 <= c < Cols && piece in {Red, Yellow}
    ensures Markers(Place(g, c, piece))
  {
  }

  // ---------------------------------------------------------------------------
  // Counting pieces

  function CountRow(row: seq<int>): (n: nat)
    ensures n <= |row|
  {
    if row == [] then 0 else CountRow(row[..|row| - 1]) + (if row[|row| - 1] != Empty then 1 else 0)
  }

  /** The number of pieces on the board. */
  function Filled(g: Grid): (n: nat)
  {
    if g == [] then 0 else Filled(g[..|g| - 1]) + CountRow(g[|g| - 1])
  }

  lemma {:induction false} CountRowUpdate(row: seq<int>, k: nat, v: int)
    requires k < |row|
    ensures CountRow(row[k := v]) ==
      CountRow(row) - (if row[k] != Empty then 1 else 0) + (if v != Empty then 1 else 0)
  {
    var row' := row[k := v];
    var n := |row| - 1;
    assert row'[..n] == if k == n then row[..n] else row[..n][k := v];
    if k < n {
      CountRowUpdate(row[..n], k, v);
    }
  }

  lemma {:induction false} FilledUpdate(g: Grid, r: nat, row: seq<int>)
    requires r < |g|
    ensures Filled(g[r := row]) == Filled(g) - CountRow(g[r]) + CountRow(row)
  {
    var g' := g[r := row];
    var n := |g| - 1;
    assert g'[..n] == if r == n then g[..n] else g[..n][r := row];
    if r < n {
      FilledUpdate(g[..n], r, row);
    }
  }

  /**
   * A drop into a column with room adds exactly one piece; a drop into a full
   * column adds none.
   */
  lemma PlaceCount(g: Grid, c: int, piece: int)
    requires WellFormed(g) && 0 <= c < Cols && piece != Empty
    ensures Filled(Place(g, c, piece)) == Filled(g) + (if Full(g, c) then 0 else 1)
  {
    if !Full(g, c) {
      var row := LandingRow(g, c);
      CountRowUpdate(g[row], c, piece);
      FilledUpdate(g, row, g[row][c := piece]);
    }
  }
}
