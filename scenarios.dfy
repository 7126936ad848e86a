/**
 * One concrete game, proved frame by frame from a new game, and one concrete
 * board. In the game, red and yellow take turns in columns 0, 0, 1, 1, 2, 2,
 * 3, so red completes the bottom row on the seventh click; the frame of that
 * click still reports no winner, and the next frame reports red. On the board,
 * four yellow pieces on the anti-diagonal through (5, 0) are named the winner
 * by the scans.
 */
module Scenarios {
  import opened Board
  import opened Mouse
  import opened Lines
  import opened WinCheck
  import opened Game

  /** The board after 2k or 2k+1 turns: `red` pieces across the bottom row from the left, `yellow` above them. */
  function Bottom(yellow: nat, red: nat): (g: Grid)
    ensures WellFormed(g)
    ensures Markers(g)
    ensures yellow <= red ==> Settled(g)
  {
    seq(Rows, r =>
      seq(Cols, c =>
        if r == Rows - 1 && c < red then Red
        else if r == Rows - 2 && c < yellow then Yellow
        else Empty))
  }

  lemma BottomCells(yellow: nat, red: nat)
    ensures forall r, c :: 0 <= r < Rows && 0 <= c < Cols ==>
      Bottom(yellow, red)[r][c] ==
        if r == Rows - 1 && c < red then Red else if r == Rows - 2 && c < yellow then Yellow else Empty
  {
  }

  /** Red's drop into the next empty column lands on the bottom row. */
  lemma RedDrop(k: nat)
    requires k < Cols
    ensures !Full(Bottom(k, k), k) && Place(Bottom(k, k), k, Red) == Bottom(k, k + 1)
    ensures PlaceState(State(Bottom(k, k), Red, 0), k) == State(Bottom(k, k + 1), Yellow, 0)
  {
    var g := Bottom(k, k);
    BottomCells(k, k);
    BottomCells(k, k + 1);
    assert g[Rows - 1][k] == Empty;
    assert !Full(g, k) && LandingRow(g, k) == Rows - 1;
    GridExt(Place(g, k, Red), Bottom(k, k + 1));
  }

  /** Yellow's drop into the same column lands on top of red's piece. */
  lemma YellowDrop(k: nat)
    requires k < Cols
    ensures !Full(Bottom(k, k + 1), k) && Place(Bottom(k, k + 1), k, Yellow) == Bottom(k + 1, k + 1)
    ensures PlaceState(State(Bottom(k, k + 1), Yellow, 0), k) == State(Bottom(k + 1, k + 1), Red, 0)
  {
    var g := Bottom(k, k + 1);
    BottomCells(k, k + 1);
    BottomCells(k + 1, k + 1);
    assert g[Rows - 2][k] == Empty && g[Rows - 1][k] == Red;
    assert !Full(g, k) && LandingRow(g, k) == Rows - 2;
    GridExt(Place(g, k, Yellow), Bottom(k + 1, k + 1));
  }

  /** With at most three pieces each, nobody has four in a row yet. */
  lemma NoWinYet(yellow: nat, red: nat)
    requires yellow <= 3 && red <= 3
    ensures !Win(Bottom(yellow, red), Red) && !Win(Bottom(yellow, red), Yellow)
  {
    BottomCells(yellow, red);
    SmallBoxNoWin(Bottom(yellow, red), Red, Rows - 3, 0);
    SmallBoxNoWin(Bottom(yellow, red), Yellow, Rows - 3, 0);
  }

  /** A single left click with the mouse at x. */
  function Click(x: int): seq<Event>
  {
    [MouseButtonDown([true, false, false], x)]
  }

  /** A mouse position inside column k. */
  function XIn(k: nat): int
  {
    71 * k + 36
  }

  lemma XInColumn(k: nat)
    requires k < Cols
    ensures ColumnOf(XIn(k)) == k
  {
  }

  /** A frame whose scans find nothing and that holds one click just drops a piece. */
  lemma QuietClick(s: State, x: int)
    requires Playing(s) && s.winner == 0 && !Win(s.grid, Red) && !Win(s.grid, Yellow)
    ensures SingleDigits(s.grid)
    ensures FrameSpec(s, Click(x)) == (PlaceState(s, ColumnOf(x)), false)
  {
    MarkersAreDigits(s.grid);
    ScanNoWin(s.grid, 0);
    var b: seq<bool> := [true, false, false];
    var s1 := PlaceState(s, ColumnOf(x));
    assert Scanned(s) == s;
    assert Click(x)[0] == MouseButtonDown(b, x) && Click(x)[1..] == [];
    assert HandleEvents(s, []) == (s, false);
    assert HandleButtons(s1, b[1..][1..], x) == (s1, false);
    assert HandleButtons(s1, b[1..], x) == (s1, false);
    assert HandleButtons(s, b, x) == (s1, false);
    assert HandleEvents(s1, []) == (s1, false);
    assert Continue((s1, false), []) == (s1, false);
    assert HandleEvents(s, Click(x)) == Continue(HandleButtons(s, b, x), Click(x)[1..]);
  }

  lemma BottomPlaying(yellow: nat, red: nat, p: int)
    requires yellow <= red <= Cols && p in {Red, Yellow}
    ensures Playing(State(Bottom(yellow, red), p, 0))
  {
    BottomCells(yellow, red);
  }

  /** Red's click into column k, with k pieces of each colour along the bottom: one quiet frame. */
  lemma RedFrame(k: nat)
    requires k <= 3
    ensures Playing(State(Bottom(k, k), Red, 0)) && Playing(State(Bottom(k, k + 1), Yellow, 0))
    ensures FrameSpec(State(Bottom(k, k), Red, 0), Click(XIn(k))) == (State(Bottom(k, k + 1), Yellow, 0), false)
  {
    var s0 := State(Bottom(k, k), Red, 0);
    XInColumn(k);
    NoWinYet(k, k);
    RedDrop(k);
    QuietClick(s0, XIn(k));
  }

  /** Yellow's answer in the same column: another quiet frame. */
  lemma YellowFrame(k: nat)
    requires k <= 2
    ensures Playing(State(Bottom(k, k + 1), Yellow, 0)) && Playing(State(Bottom(k + 1, k + 1), Red, 0))
    ensures FrameSpec(State(Bottom(k, k + 1), Yellow, 0), Click(XIn(k))) == (State(Bottom(k + 1, k + 1), Red, 0), false)
  {
    var s1 := State(Bottom(k, k + 1), Yellow, 0);
    XInColumn(k);
    NoWinYet(k, k + 1);
    YellowDrop(k);
    QuietClick(s1, XIn(k));
  }

  /** A frame that does not exit hands the main loop over to the next frame. */
  lemma QuietFrame(s: State, s': State, f: seq<Event>, rest: seq<seq<Event>>)
    requires Playing(s) && Playing(s')
    requires SingleDigits(s.grid) && FrameSpec(s, f) == (s', false)
    ensures RunFrames(s, [f] + rest) == RunFrames(s', rest)
  {
    assert ([f] + rest)[0] == f && ([f] + rest)[1..] == rest;
  }

  /** Red then yellow drop into column k: two quiet frames. */
  lemma RoundOfTwo(k: nat, rest: seq<seq<Event>>)
    requires k <= 2
    ensures Playing(State(Bottom(k, k), Red, 0)) && Playing(State(Bottom(k + 1, k + 1), Red, 0))
    ensures RunFrames(State(Bottom(k, k), Red, 0), [Click(XIn(k)), Click(XIn(k))] + rest) ==
            RunFrames(State(Bottom(k + 1, k + 1), Red, 0), rest)
  {
    var s0, s1, s2 := State(Bottom(k, k), Red, 0), State(Bottom(k, k + 1), Yellow, 0), State(Bottom(k + 1, k + 1), Red, 0);
    var click := Click(XIn(k));
    RedFrame(k);
    YellowFrame(k);
    QuietFrame(s1, s2, click, rest);
    QuietFrame(s0, s1, click, [click] + rest);
    assert [click, click] + rest == [click] + ([click] + rest);
  }

  /** Red and yellow alternate in columns n, n, n + 1, n + 1, ..., 2, 2. */
  function Rounds(n: nat): seq<seq<Event>>
    decreases 3 - n
  {
    if n >= 3 then [] else [Click(XIn(n)), Click(XIn(n))] + Rounds(n + 1)
  }

  /** ... and red's seventh click goes into column 3. */
  function RedRowFrames(): seq<seq<Event>>
  {
    Rounds(0) + [Click(XIn(3))]
  }

  /** Rounds from column n on are quiet frames that build Bottom(3, 3). */
  lemma {:induction false} QuietRounds(n: nat, rest: seq<seq<Event>>)
    requires n <= 3
    ensures Playing(State(Bottom(n, n), Red, 0)) && Playing(State(Bottom(3, 3), Red, 0))
    ensures RunFrames(State(Bottom(n, n), Red, 0), Rounds(n) + rest) ==
            RunFrames(State(Bottom(3, 3), Red, 0), rest)
    decreases 3 - n
  {
    BottomPlaying(n, n, Red);
    BottomPlaying(3, 3, Red);
    if n < 3 {
      var tail := Rounds(n + 1) + rest;
      assert Rounds(n) + rest == [Click(XIn(n)), Click(XIn(n))] + tail;
      RoundOfTwo(n, tail);
      QuietRounds(n + 1, rest);
    } else {
      assert Rounds(n) + rest == rest;
    }
  }

  /** The first six clicks are three quiet rounds. */
  lemma FirstSixClicks(rest: seq<seq<Event>>)
    ensures Playing(State(EmptyGrid(), Red, 0))
    ensures RunFrames(State(EmptyGrid(), Red, 0), Rounds(0) + rest) ==
            RunFrames(State(Bottom(3, 3), Red, 0), rest)
  {
    GridExt(EmptyGrid(), Bottom(0, 0));
    QuietRounds(0, rest);
  }

  /** Red's seventh click completes the row, in a frame whose scans still see no winner. */
  lemma WinningClick(rest: seq<seq<Event>>)
    ensures Playing(State(Bottom(3, 3), Red, 0)) && Playing(State(Bottom(3, 4), Yellow, 0))
    ensures RunFrames(State(Bottom(3, 3), Red, 0), [Click(XIn(3))] + rest) ==
            RunFrames(State(Bottom(3, 4), Yellow, 0), rest)
  {
    RedFrame(3);
    QuietFrame(State(Bottom(3, 3), Red, 0), State(Bottom(3, 4), Yellow, 0), Click(XIn(3)), rest);
  }

  /** The frame after the winning click: its scans see red's row. */
  lemma NextFrameSeesRed()
    ensures Playing(State(Bottom(3, 4), Yellow, 0))
    ensures RunFrames(State(Bottom(3, 4), Yellow, 0), [[]]) == (State(Bottom(3, 4), Yellow, Red), false)
  {
    var g := Bottom(3, 4);
    BottomPlaying(3, 4, Yellow);
    BottomCells(3, 4);
    MarkersAreDigits(g);
    assert FourAt(g, Pos(Rows - 1, 0), Across, Red);
    SmallBoxNoWin(g, Yellow, Rows - 3, 0);
    ScanComplete(g, 0, Red);
    assert FrameSpec(State(g, Yellow, 0), []) == (State(g, Yellow, Red), false);
  }

  /**
   * Red completes the bottom row on the seventh click. That frame still ends
   * with no winner; the following frame's scans name red.
   */
  lemma RedWinsOneFrameLate()
    ensures Playing(State(EmptyGrid(), Red, 0))
    ensures RunFrames(State(EmptyGrid(), Red, 0), RedRowFrames()) == (State(Bottom(3, 4), Yellow, 0), false)
    ensures RunFrames(State(EmptyGrid(), Red, 0), RedRowFrames() + [[]]) == (State(Bottom(3, 4), Yellow, Red), false)
  {
    var c3 := Click(XIn(3));
    assert RedRowFrames() == Rounds(0) + ([c3] + []);
    assert RedRowFrames() + [[]] == Rounds(0) + ([c3] + [[]]);
    FirstSixClicks([c3] + []);
    FirstSixClicks([c3] + [[]]);
    WinningClick([]);
    WinningClick([[]]);
    NextFrameSeesRed();
  }

  /**
   * A settled board on which yellow holds the anti-diagonal from (5, 0) up to
   * (2, 3), propped up by six red pieces that all sit in rows 3 .. 5 of
   * columns 1 .. 3.
   */
  function YellowStair(): (g: Grid)
    ensures WellFormed(g)
  {
    seq(Rows, r =>
      seq(Cols, c =>
        if r + c == Rows - 1 && c < 4 then Yellow
        else if 1 <= c <= 3 && r + c > Rows - 1 then Red
        else Empty))
  }

  /** The diagonal scan finds yellow's four: the scans name yellow. */
  lemma YellowDiagonalWins()
    ensures Playing(State(YellowStair(), Red, 0))
    ensures Win(YellowStair(), Yellow) && !Win(YellowStair(), Red)
    ensures SingleDigits(YellowStair()) && ScanBoard(YellowStair(), 0) == Yellow
  {
    var g := YellowStair();
    assert forall r, c :: 0 <= r < Rows && 0 <= c < Cols ==>
      g[r][c] == if r + c == Rows - 1 && c < 4 then Yellow
                 else if 1 <= c <= 3 && r + c > Rows - 1 then Red
                 else Empty;
    MarkersAreDigits(g);
    assert FourAt(g, Pos(Rows - 1, 0), UpRight, Yellow);
    SmallBoxNoWin(g, Red, Rows - 3, 1);
    ScanComplete(g, 0, Yellow);
  }
}
