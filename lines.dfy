/**
 * The lines the win checks scan, written as explicit sets of board positions
 * instead of array slices, and the geometric notion of four in a row that the
 * scans are meant to detect.
 *
 * Every scanned line is a straight run of positions: a start cell, a
 * direction and a length. The scan order is: the rows top to bottom, the
 * columns left to right, the anti-diagonals (row + col = 5 + i for
 * i = -5 .. 6, each read from its bottom-left end upward), then the main
 * diagonals (col - row = i for i = 6 down to -5, each read from its top-left
 * end downward).
 */
module Lines {
  import opened Board

  datatype Pos = Pos(row: int, col: int)

  /** Across: left to right; Down: top to bottom; UpRight and DownRight: the two diagonals. */
  datatype Dir = Across | Down | UpRight | DownRight

  /** The position k steps from p in direction d. */
  function At(p: Pos, d: Dir, k: int): Pos
  {
    match d
    case Across => Pos(p.row, p.col + k)
    case Down => Pos(p.row + k, p.col)
    case UpRight => Pos(p.row - k, p.col + k)
    case DownRight => Pos(p.row + k, p.col + k)
  }

  predicate InBounds(p: Pos)
  {
    0 <= p.row < Rows && 0 <= p.col < Cols
  }

  function Cell(g: Grid, p: Pos): int
    requires WellFormed(g) && InBounds(p)
  {
    g[p.row][p.col]
  }

  /** A line: `len` positions from `start` in direction `dir`. */
  datatype Line = Line(start: Pos, dir: Dir, len: nat)

  ghost predicate LineInBounds(l: Line)
  {
    forall k :: 0 <= k < l.len ==> InBounds(At(l.start, l.dir, k))
  }

  /** The values along a line, in scan order. */
  function LineValues(g: Grid, l: Line): (vals: seq<int>)
    requires WellFormed(g) && LineInBounds(l)
    ensures |vals| == l.len
    ensures forall k :: 0 <= k < l.len ==> vals[k] == Cell(g, At(l.start, l.dir, k))
  {
    seq(l.len, k requires 0 <= k < l.len => Cell(g, At(l.start, l.dir, k)))
  }

  function Max(a: int, b: int): int { if a < b then b else a }
  function Min(a: int, b: int): int { if a < b then a else b }

  /** Row i of the board, left to right. */
  function RowLine(r: int): Line
  {
    Line(Pos(r, 0), Across, Cols)
  }

  /** Column c of the board, top to bottom. */
  function ColumnLine(c: int): Line
  {
    Line(Pos(0, c), Down, Rows)
  }

  /**
   * The anti-diagonal row + col == 5 + i, from its bottom-left end upward:
   * the i-th diagonal of the board flipped upside down. It holds the
   * positions (5 - k, k + i) for max(0, -i) <= k <= min(5, 6 - i).
   */
  function AntiDiagonal(i: int): Line
  {
    var k0 := Max(0, -i);
    var k1 := Min(Rows - 1, Cols - 1 - i);
    Line(Pos(Rows - 1 - k0, k0 + i), UpRight, if k1 < k0 then 0 else k1 - k0 + 1)
  }

  /**
   * The main diagonal col - row == i, from its top-left end downward. It
   * holds the positions (k, k + i) for max(0, -i) <= k <= min(5, 6 - i).
   */
  function MainDiagonal(i: int): Line
  {
    var k0 := Max(0, -i);
    var k1 := Min(Rows - 1, Cols - 1 - i);
    Line(Pos(k0, k0 + i), DownRight, if k1 < k0 then 0 else k1 - k0 + 1)
  }

  /** win_check_horizontal scans the rows 0 .. 5. */
  function HorizontalLines(): (ls: seq<Line>)
    ensures |ls| == Rows
  {
    seq(Rows, r => RowLine(r))
  }

  /** win_check_vertical scans the columns 0 .. 6. */
  function VerticalLines(): (ls: seq<Line>)
    ensures |ls| == Cols
  {
    seq(Cols, c => ColumnLine(c))
  }

  /**
   * win_check_diagonal scans the twelve anti-diagonals for i = -5 .. 6, then
   * the twelve main diagonals for i = 6 down to -5.
   */
  function DiagonalLines(): (ls: seq<Line>)
    ensures |ls| == 24
  {
    seq(12, j => AntiDiagonal(j - 5)) + seq(12, j => MainDiagonal(6 - j))
  }

  /** Every line, in the order one round of the three win checks visits them. */
  function AllLines(): (ls: seq<Line>)
    ensures |ls| == 37
  {
    HorizontalLines() + VerticalLines() + DiagonalLines()
  }

  ghost predicate AllInBounds(ls: seq<Line>)
  {
    forall i :: 0 <= i < |ls| ==> LineInBounds(ls[i])
  }

  /** Every scanned line stays on the board. */
  lemma LinesInBounds()
    ensures AllInBounds(HorizontalLines())
    ensures AllInBounds(VerticalLines())
    ensures AllInBounds(DiagonalLines())
    ensures AllInBounds(AllLines())
  {
  }

  // ---------------------------------------------------------------------------
  // Four in a row, geometrically

  /** Four cells from p in direction d are on the board and all hold v. */
  ghost predicate FourAt(g: Grid, p: Pos, d: Dir, v: int)
    requires WellFormed(g)
  {
    forall j :: 0 <= j < 4 ==> InBounds(At(p, d, j)) && Cell(g, At(p, d, j)) == v
  }

  /** Player v has four in a row somewhere: across, down or along either diagonal. */
  ghost predicate Win(g: Grid, v: int)
    requires WellFormed(g)
  {
    exists p: Pos, d: Dir :: FourAt(g, p, d, v)
  }

  /** Four consecutive entries equal to v somewhere in vals. */
  ghost predicate HasRun(vals: seq<int>, v: int)
  {
    exists k :: 0 <= k && k + 4 <= |vals| && RunAt(vals, k, v)
  }

  ghost predicate RunAt(vals: seq<int>, k: int, v: int)
    requires 0 <= k && k + 4 <= |vals|
  {
    vals[k] == v && vals[k + 1] == v && vals[k + 2] == v && vals[k + 3] == v
  }

  /** Stepping k and then j along a direction is stepping k + j. */
  lemma AtShift(p: Pos, d: Dir, k: int, j: int)
    ensures At(At(p, d, k), d, j) == At(p, d, k + j)
  {
  }

  /** Four equal entries from k in a line are four in a row from the line's k-th position. */
  lemma RunFour(g: Grid, l: Line, v: int, k: int)
    requires WellFormed(g) && LineInBounds(l)
    requires 0 <= k && k + 4 <= l.len && RunAt(LineValues(g, l), k, v)
    ensures FourAt(g, At(l.start, l.dir, k), l.dir, v)
  {
    var vals := LineValues(g, l);
    forall j | 0 <= j < 4
      ensures InBounds(At(At(l.start, l.dir, k), l.dir, j))
      ensures Cell(g, At(At(l.start, l.dir, k), l.dir, j)) == v
    {
      AtShift(l.start, l.dir, k, j);
      assert vals[k + j] == v;
    }
  }

  /** A run of four inside a scanned line is four in a row on the board. */
  lemma RunIsWin(g: Grid, l: Line, v: int)
    requires WellFormed(g) && LineInBounds(l) && HasRun(LineValues(g, l), v)
    ensures Win(g, v)
  {
    var k :| 0 <= k && k + 4 <= |LineValues(g, l)| && RunAt(LineValues(g, l), k, v);
    RunFour(g, l, v, k);
  }

  /** The four cells at p in direction d are entries m .. m + 3 of line l. */
  lemma FourInLine(g: Grid, p: Pos, d: Dir, v: int, l: Line, m: int)
    requires WellFormed(g) && FourAt(g, p, d, v) && LineInBounds(l)
    requires l.dir == d && 0 <= m && m + 4 <= l.len && At(l.start, d, m) == p
    ensures HasRun(LineValues(g, l), v)
  {
    var vals := LineValues(g, l);
    assert At(l.start, d, m + 1) == At(p, d, 1) && Cell(g, At(p, d, 1)) == v;
    assert At(l.start, d, m + 2) == At(p, d, 2) && Cell(g, At(p, d, 2)) == v;
    assert At(l.start, d, m + 3) == At(p, d, 3) && Cell(g, At(p, d, 3)) == v;
    assert Cell(g, At(p, d, 0)) == v;
    assert RunAt(vals, m, v);
  }

  /**
   * Every four in a row on the board lies, as four consecutive entries, in one
   * of the scanned lines.
   */
  lemma WinIsRun(g: Grid, v: int) returns (i: nat)
    requires WellFormed(g) && Win(g, v)
    ensures i < |AllLines()| && LineInBounds(AllLines()[i])
    ensures HasRun(LineValues(g, AllLines()[i]), v)
  {
    LinesInBounds();
    var ls := AllLines();
    var p: Pos, d: Dir :| FourAt(g, p, d, v);
    assert InBounds(At(p, d, 0)) && InBounds(At(p, d, 3));
    var r, c := p.row, p.col;
    match d
    case Across =>
      i := r;
      assert ls[i] == RowLine(r);
      FourInLine(g, p, d, v, ls[i], c);
    case Down =>
      i := Rows + c;
      assert ls[i] == ColumnLine(c);
      FourInLine(g, p, d, v, ls[i], r);
    case UpRight =>
      i := Rows + Cols + r + c;
      var l := AntiDiagonal(r + c - 5);
      assert ls[i] == l;
      FourInLine(g, p, d, v, l, 5 - Max(0, 5 - r - c) - r);
    case DownRight =>
      i := Rows + Cols + 12 + 6 - (c - r);
      var l := MainDiagonal(c - r);
      assert ls[i] == l;
      FourInLine(g, p, d, v, l, r - Max(0, r - c));
  }

  /**
   * Four in a row spans four rows or four columns, so pieces of one colour
   * that all fit in a 3 x 3 box cannot make one.
   */
  lemma SmallBoxNoWin(g: Grid, v: int, top: int, left: int)
    requires WellFormed(g)
    requires forall r, c :: 0 <= r < Rows && 0 <= c < Cols && g[r][c] == v ==>
      top <= r < top + 3 && left <= c < left + 3
    ensures !Win(g, v)
  {
    forall p: Pos, d: Dir
      ensures !FourAt(g, p, d, v)
    {
      var a, b := At(p, d, 0), At(p, d, 3);
      assert !(InBounds(a) && Cell(g, a) == v && InBounds(b) && Cell(g, b) == v);
    }
  }
}
