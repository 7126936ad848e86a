/**
 * The game object: a 6 x 7 board updated in place, whose turn it is, and
 * the winner (0 while there is none). The frame step runs the three win checks
 * on the board as it stands and only then handles the frame's input. So a
 * winning drop is noticed in the NEXT frame, and a click in a frame whose
 * scans found a winner still drops a piece before the program exits.
 */
module Game {
  import opened Board
  import opened Mouse
  import opened Lines
  import opened WinCheck

  /** The game's state as a value: board, current player and winner. */
  datatype State = State(grid: Grid, player: int, winner: int)

  /**
   * One frame's input. A mouse-button-down event carries the state of every
   * mouse button at that moment and the mouse's x coordinate; every button
   * that is down counts as a click.
   */
  datatype Event = Quit | MouseButtonDown(buttons: seq<bool>, x: int) | OtherEvent

  /** What the program keeps true between frames: known markers and a real player to move. */
  ghost predicate Playing(s: State)
  {
    WellFormed(s.grid) && Markers(s.grid) && Settled(s.grid) && s.player in {Red, Yellow}
  }

  /** place_piece(column, current_player) on a state. */
  function PlaceState(s: State, c: int): (s': State)
    requires WellFormed(s.grid) && 0 <= c < Cols
    ensures WellFormed(s'.grid) && s'.winner == s.winner
  {
    State(Place(s.grid, c, s.player), if Full(s.grid, c) then s.player else NextPlayer(s.player), s.winner)
  }

  /** The three win checks, as run at the start of every frame. */
  function Scanned(s: State): State
    requires WellFormed(s.grid) && SingleDigits(s.grid)
  {
    s.(winner := ScanBoard(s.grid, s.winner))
  }

  /**
   * The clicks of one mouse-button-down event: each pressed button drops a
   * piece into the column under the mouse, and the program exits right after
   * a drop if a winner is set. The flag says whether the program exited.
   */
  function HandleButtons(s: State, buttons: seq<bool>, x: int): (r: (State, bool))
    requires WellFormed(s.grid)
    ensures WellFormed(r.0.grid)
    decreases |buttons|
  {
    if buttons == [] then (s, false)
    else if buttons[0] then
      var s' := PlaceState(s, ColumnOf(x));
      if s'.winner != 0 then (s', true) else HandleButtons(s', buttons[1..], x)
    else HandleButtons(s, buttons[1..], x)
  }

  /** Go on with the remaining events unless the program has exited. */
  function Continue(r: (State, bool), rest: seq<Event>): (r': (State, bool))
    requires WellFormed(r.0.grid)
    ensures WellFormed(r'.0.grid)
    decreases |rest|, 1
  {
    if r.1 then r else HandleEvents(r.0, rest)
  }

  /** The event loop of one frame: quit exits at once, clicks drop pieces, anything else is ignored. */
  function HandleEvents(s: State, events: seq<Event>): (r: (State, bool))
    requires WellFormed(s.grid)
    ensures WellFormed(r.0.grid)
    decreases |events|, 0
  {
    if events == [] then (s, false)
    else
      match events[0]
      case Quit => (s, true)
      case MouseButtonDown(buttons, x) => Continue(HandleButtons(s, buttons, x), events[1..])
      case OtherEvent => HandleEvents(s, events[1..])
  }

  /** One frame: scan for a winner first, then handle the frame's events. */
  function FrameSpec(s: State, events: seq<Event>): (State, bool)
    requires WellFormed(s.grid) && SingleDigits(s.grid)
  {
    HandleEvents(Scanned(s), events)
  }

  // ---------------------------------------------------------------------------
  // What a frame does

  lemma {:induction false} ButtonsKeepWinner(s: State, buttons: seq<bool>, x: int)
    requires WellFormed(s.grid)
    ensures HandleButtons(s, buttons, x).0.winner == s.winner
    ensures HandleButtons(s, buttons, x).1 ==> s.winner != 0
    decreases |buttons|
  {
    if buttons != [] {
      var s' := if buttons[0] then PlaceState(s, ColumnOf(x)) else s;
      ButtonsKeepWinner(s', buttons[1..], x);
    }
  }

  lemma {:induction false} EventsKeepWinner(s: State, events: seq<Event>)
    requires WellFormed(s.grid)
    ensures HandleEvents(s, events).0.winner == s.winner
    ensures HandleEvents(s, events).1 ==> s.winner != 0 || Quit in events
    decreases |events|
  {
    if events != [] {
      match events[0]
      case Quit =>
      case MouseButtonDown(buttons, x) =>
        ButtonsKeepWinner(s, buttons, x);
        var r := HandleButtons(s, buttons, x);
        if !r.1 {
          EventsKeepWinner(r.0, events[1..]);
        }
      case OtherEvent =>
        EventsKeepWinner(s, events[1..]);
    }
  }

  /**
   * Drops never set the winner: at the end of a frame the winner is what the
   * scans found on the board as it was when the frame began. A winning drop is
   * therefore seen one frame late.
   */
  lemma FrameWinnerIsScan(s: State, events: seq<Event>)
    requires WellFormed(s.grid) && SingleDigits(s.grid)
    ensures FrameSpec(s, events).0.winner == ScanBoard(s.grid, s.winner)
  {
    EventsKeepWinner(Scanned(s), events);
  }

  lemma {:induction false} ButtonsNoExit(s: State, buttons: seq<bool>, x: int)
    requires WellFormed(s.grid) && s.winner == 0
    ensures !HandleButtons(s, buttons, x).1
    decreases |buttons|
  {
    if buttons != [] {
      var s' := if buttons[0] then PlaceState(s, ColumnOf(x)) else s;
      ButtonsNoExit(s', buttons[1..], x);
    }
  }

  lemma {:induction false} EventsExitOnQuit(s: State, events: seq<Event>)
    requires WellFormed(s.grid) && s.winner == 0
    ensures HandleEvents(s, events).1 <==> Quit in events
    decreases |events|
  {
    if events != [] {
      match events[0]
      case Quit =>
      case MouseButtonDown(buttons, x) =>
        ButtonsNoExit(s, buttons, x);
        ButtonsKeepWinner(s, buttons, x);
        EventsExitOnQuit(HandleButtons(s, buttons, x).0, events[1..]);
      case OtherEvent =>
        EventsExitOnQuit(s, events[1..]);
    }
  }

  /** An event that ends the program once a winner is set: a quit, or a mouse-button-down with a button pressed. */
  predicate EndsAfterWin(e: Event)
  {
    e == Quit || (e.MouseButtonDown? && true in e.buttons)
  }

  lemma {:induction false} ButtonsExitAfterWin(s: State, buttons: seq<bool>, x: int)
    requires WellFormed(s.grid) && s.winner != 0
    ensures HandleButtons(s, buttons, x).1 <==> true in buttons
    decreases |buttons|
  {
    if buttons != [] && !buttons[0] {
      ButtonsExitAfterWin(s, buttons[1..], x);
      assert true in buttons <==> true in buttons[1..];
    }
  }

  lemma {:induction false} EventsExitAfterWin(s: State, events: seq<Event>)
    requires WellFormed(s.grid) && s.winner != 0
    ensures HandleEvents(s, events).1 <==> exists i :: 0 <= i < |events| && EndsAfterWin(events[i])
    decreases |events|
  {
    if events != [] {
      var rest := events[1..];
      assert (exists i :: 0 <= i < |events| && EndsAfterWin(events[i])) <==>
             EndsAfterWin(events[0]) || exists i :: 0 <= i < |rest| && EndsAfterWin(rest[i]) by {
        forall i | 0 < i < |events|
          ensures events[i] == rest[i - 1]
        {
        }
      }
      match events[0]
      case Quit =>
      case MouseButtonDown(buttons, x) =>
        ButtonsExitAfterWin(s, buttons, x);
        ButtonsKeepWinner(s, buttons, x);
        EventsExitAfterWin(HandleButtons(s, buttons, x).0, rest);
      case OtherEvent =>
        EventsExitAfterWin(s, rest);
    }
  }

  /**
   * When a frame's scans find no winner the frame ends the program exactly when
   * it holds a quit event; when they do find one, it ends the program exactly
   * when it holds a quit or a mouse-button-down with a button pressed.
   */
  lemma FrameExit(s: State, events: seq<Event>)
    requires WellFormed(s.grid) && SingleDigits(s.grid)
    ensures ScanBoard(s.grid, s.winner) == 0 ==> (FrameSpec(s, events).1 <==> Quit in events)
    ensures ScanBoard(s.grid, s.winner) != 0 ==>
      (FrameSpec(s, events).1 <==> exists i :: 0 <= i < |events| && EndsAfterWin(events[i]))
  {
    if ScanBoard(s.grid, s.winner) == 0 {
      EventsExitOnQuit(Scanned(s), events);
    } else {
      EventsExitAfterWin(Scanned(s), events);
    }
  }

  /**
   * A click in a frame whose scans found a winner still drops the current
   * player's piece into the column under the mouse, and then the program
   * exits; nothing after that click is handled.
   */
  lemma ClickAfterWin(s: State, events: seq<Event>)
    requires WellFormed(s.grid) && SingleDigits(s.grid)
    requires ScanBoard(s.grid, s.winner) != 0
    requires events != [] && events[0].MouseButtonDown? && events[0].buttons != [] && events[0].buttons[0]
    ensures FrameSpec(s, events) == (PlaceState(Scanned(s), ColumnOf(events[0].x)), true)
  {
    var s0 := Scanned(s);
    var b, x := events[0].buttons, events[0].x;
    assert events[0] == MouseButtonDown(b, x);
    assert HandleButtons(s0, b, x) == (PlaceState(s0, ColumnOf(x)), true);
    assert HandleEvents(s0, events) == Continue(HandleButtons(s0, b, x), events[1..]);
  }

  lemma {:induction false} ButtonsKeepPlaying(s: State, buttons: seq<bool>, x: int)
    requires Playing(s)
    ensures Playing(HandleButtons(s, buttons, x).0)
    decreases |buttons|
  {
    if buttons != [] {
      var s' := s;
      if buttons[0] {
        s' := PlaceState(s, ColumnOf(x));
        PlaceKeepsMarkers(s.grid, ColumnOf(x), s.player);
        PlaceKeepsSettled(s.grid, ColumnOf(x), s.player);
      }
      ButtonsKeepPlaying(s', buttons[1..], x);
    }
  }

  lemma {:induction false} EventsKeepPlaying(s: State, events: seq<Event>)
    requires Playing(s)
    ensures Playing(HandleEvents(s, events).0)
    decreases |events|
  {
    if events != [] {
      match events[0]
      case Quit =>
      case MouseButtonDown(buttons, x) =>
        ButtonsKeepPlaying(s, buttons, x);
        var r := HandleButtons(s, buttons, x);
        if !r.1 {
          EventsKeepPlaying(r.0, events[1..]);
        }
      case OtherEvent =>
        EventsKeepPlaying(s, events[1..]);
    }
  }

  /**
   * Every frame keeps the board settled (no floating piece), every cell a known
   * marker, and the player to move red or yellow; so the renderer never meets
   * an unknown piece.
   */
  lemma FrameKeepsPlaying(s: State, events: seq<Event>)
    requires Playing(s)
    ensures SingleDigits(s.grid)
    ensures Playing(FrameSpec(s, events).0)
  {
    MarkersAreDigits(s.grid);
    EventsKeepPlaying(Scanned(s), events);
  }

  lemma {:induction false} ButtonsOnFullBoard(s: State, buttons: seq<bool>, x: int)
    requires WellFormed(s.grid) && forall c :: 0 <= c < Cols ==> Full(s.grid, c)
    ensures HandleButtons(s, buttons, x).0.grid == s.grid
    ensures HandleButtons(s, buttons, x).0.player == s.player
    decreases |buttons|
  {
    if buttons != [] {
      ButtonsOnFullBoard(s, buttons[1..], x);
    }
  }

  lemma {:induction false} EventsOnFullBoard(s: State, events: seq<Event>)
    requires WellFormed(s.grid) && forall c :: 0 <= c < Cols ==> Full(s.grid, c)
    ensures HandleEvents(s, events).0.grid == s.grid
    ensures HandleEvents(s, events).0.player == s.player
    decreases |events|
  {
    if events != [] {
      match events[0]
      case Quit =>
      case MouseButtonDown(buttons, x) =>
        ButtonsOnFullBoard(s, buttons, x);
        var r := HandleButtons(s, buttons, x);
        if !r.1 {
          EventsOnFullBoard(r.0, events[1..]);
        }
      case OtherEvent =>
        EventsOnFullBoard(s, events[1..]);
    }
  }

  /** On a full board every click is a no-op: a frame changes neither the board nor the turn. */
  lemma FullBoardFrame(s: State, events: seq<Event>)
    requires WellFormed(s.grid) && SingleDigits(s.grid)
    requires forall c :: 0 <= c < Cols ==> Full(s.grid, c)
    ensures FrameSpec(s, events).0.grid == s.grid
    ensures FrameSpec(s, events).0.player == s.player
  {
    EventsOnFullBoard(Scanned(s), events);
  }

  /**
   * The main loop: frame after frame until one of them exits. The flag says
   * whether the program exited within the given frames.
   */
  function RunFrames(s: State, frames: seq<seq<Event>>): (r: (State, bool))
    requires Playing(s)
    ensures Playing(r.0)
    decreases |frames|
  {
    if frames == [] then (s, false)
    else
      FrameKeepsPlaying(s, frames[0]);
      var f := FrameSpec(s, frames[0]);
      if f.1 then f else RunFrames(f.0, frames[1..])
  }

  /** Once some frame's scans see a winner, the game never reports "no winner" again. */
  lemma {:induction false} WinnerLatches(s: State, frames: seq<seq<Event>>)
    requires Playing(s) && s.winner != 0
    ensures RunFrames(s, frames).0.winner != 0
    decreases |frames|
  {
    if frames != [] {
      FrameKeepsPlaying(s, frames[0]);
      FrameWinnerIsScan(s, frames[0]);
      ScanSound(s.grid, s.winner);
      var f := FrameSpec(s, frames[0]);
      if !f.1 {
        WinnerLatches(f.0, frames[1..]);
      }
    }
  }

  /** With a winner set, buttons that do not end the program press nothing: the state is unchanged. */
  lemma {:induction false} ButtonsStay(s: State, buttons: seq<bool>, x: int)
    requires WellFormed(s.grid) && s.winner != 0 && !HandleButtons(s, buttons, x).1
    ensures HandleButtons(s, buttons, x).0 == s
    decreases |buttons|
  {
    if buttons != [] && !buttons[0] {
      ButtonsStay(s, buttons[1..], x);
    }
  }

  /** With a winner set, events that do not end the program leave the state unchanged. */
  lemma {:induction false} EventsStay(s: State, events: seq<Event>)
    requires WellFormed(s.grid) && s.winner != 0 && !HandleEvents(s, events).1
    ensures HandleEvents(s, events).0 == s
    decreases |events|
  {
    if events != [] {
      match events[0]
      case Quit =>
      case MouseButtonDown(buttons, x) =>
        ButtonsStay(s, buttons, x);
        EventsStay(s, events[1..]);
      case OtherEvent =>
        EventsStay(s, events[1..]);
    }
  }

  /**
   * A frame after which a winner is set and the program still runs has left
   * the board as it was, so scanning it again finds the same winner.
   */
  lemma FirstSetIsFixed(s: State, f: seq<Event>)
    requires Playing(s)
    ensures SingleDigits(s.grid)
    ensures !FrameSpec(s, f).1 && FrameSpec(s, f).0.winner != 0 ==>
      FrameSpec(s, f).0 == Scanned(s) && SingleDigits(FrameSpec(s, f).0.grid) &&
      ScanBoard(FrameSpec(s, f).0.grid, FrameSpec(s, f).0.winner) == FrameSpec(s, f).0.winner
  {
    MarkersAreDigits(s.grid);
    var s0 := Scanned(s);
    EventsKeepWinner(s0, f);
    if !FrameSpec(s, f).1 && s0.winner != 0 {
      EventsStay(s0, f);
      ScanFixed(s.grid, s.winner);
    }
  }

  /**
   * Once the scans have settled on a winner, every later frame keeps exactly
   * that winner: red never turns into yellow or back.
   */
  lemma {:induction false} WinnerKeepsValue(s: State, frames: seq<seq<Event>>)
    requires Playing(s) && s.winner != 0 && SingleDigits(s.grid) && ScanBoard(s.grid, s.winner) == s.winner
    ensures RunFrames(s, frames).0.winner == s.winner
    decreases |frames|
  {
    if frames != [] {
      FrameKeepsPlaying(s, frames[0]);
      FrameWinnerIsScan(s, frames[0]);
      var f := FrameSpec(s, frames[0]);
      if !f.1 {
        FirstSetIsFixed(s, frames[0]);
        assert Scanned(s) == s;
        WinnerKeepsValue(f.0, frames[1..]);
      }
    }
  }

  /** One mouse-button-down with two buttons pressed drops two pieces into the same column. */
  lemma TwoButtonsTwoDrops(s: State, x: int)
    requires WellFormed(s.grid) && s.winner == 0
    ensures HandleButtons(s, [true, true], x) ==
      (PlaceState(PlaceState(s, ColumnOf(x)), ColumnOf(x)), false)
  {
    var b := [true, true];
    var s1 := PlaceState(s, ColumnOf(x));
    var s2 := PlaceState(s1, ColumnOf(x));
    assert b[1..] == [true] && b[1..][1..] == [];
    assert HandleButtons(s2, [], x) == (s2, false);
    assert HandleButtons(s1, [true], x) == (s2, false);
  }

  // ---------------------------------------------------------------------------
  // The game object

  class ConnectFourGame {
    var board: array2<int>
    var currentPlayer: int
    var winner: int

    ghost predicate Valid()
      reads this`board
    {
      board.Length0 == Rows && board.Length1 == Cols
    }

    /** The board's cells as a grid value. */
    ghost function Cells(): (g: Grid)
      reads this`board, board
      requires Valid()
      ensures WellFormed(g)
      ensures forall r, c :: 0 <= r < Rows && 0 <= c < Cols ==> g[r][c] == board[r, c]
    {
      var b := board;
      seq(Rows, r requires 0 <= r < b.Length0 reads b =>
        seq(Cols, c requires 0 <= c < b.Length1 reads b => b[r, c]))
    }

    ghost function Snapshot(): State
      reads this, board
      requires Valid()
    {
      State(Cells(), currentPlayer, winner)
    }

    /** A new game: an empty board, red to move, no winner. */
    constructor ()
      ensures Valid() && fresh(board)
      ensures Snapshot() == State(EmptyGrid(), Red, 0)
      ensures Playing(Snapshot())
    {
      board := new int[Rows, Cols]((_, _) => Empty);
      currentPlayer := Red;
      winner := 0;
      new;
      GridExt(Cells(), EmptyGrid());
    }

    /** change_player: hand the turn to the other colour; an unknown player is left alone. */
    method ChangePlayer()
      modifies this`currentPlayer
      ensures currentPlayer == NextPlayer(old(currentPlayer))
    {
      if currentPlayer == Red {
        currentPlayer := Yellow;
      } else if currentPlayer == Yellow {
        currentPlayer := Red;
      }
    }

    /**
     * place_piece: copy the column, write `piece` into its last empty entry,
     * copy the column back into the board and hand over the turn. A full
     * column changes nothing.
     */
    method PlacePiece(columnindex: int, piece: int)
      requires Valid() && 0 <= columnindex < Cols
      modifies board, this`currentPlayer
      ensures Valid()
      ensures Cells() == Place(old(Cells()), columnindex, piece)
      ensures currentPlayer ==
        if Full(old(Cells()), columnindex) then old(currentPlayer) else NextPlayer(old(currentPlayer))
    {
      ghost var g0 := Cells();
      var b := board;
      var col := seq(Rows, r requires 0 <= r < b.Length0 && columnindex < b.Length1 reads b => b[r, columnindex]);
      assert col == Column(g0, columnindex);
      var full := Empty !in col;
      if !full {
        var freeIndex := RIndex(col, Empty);
        col := col[freeIndex := piece];
        for i := 0 to Rows
          invariant currentPlayer == old(currentPlayer)
          invariant forall r, c :: 0 <= r < Rows && 0 <= c < Cols ==>
            board[r, c] == if c == columnindex && r < i then col[r] else g0[r][c]
        {
          board[i, columnindex] := col[i];
        }
        ChangePlayer();
        GridExt(Cells(), Place(g0, columnindex, piece));
      }
    }

    /** One pass of a win check over `lines`: every line whose digit string holds a run overwrites the winner. */
    method CheckLines(lines: seq<Line>)
      requires Valid() && SingleDigits(Cells()) && AllInBounds(lines)
      modifies this`winner
      ensures winner == ScanLines(Cells(), lines, old(winner))
    {
      for i := 0 to |lines|
        invariant winner == ScanLines(Cells(), lines[..i], old(winner))
      {
        var line := lines[i];
        ghost var vals := LineValues(Cells(), line);
        LineDigits(Cells(), line);
        var s := "";
        for k := 0 to line.len
          invariant |s| == k
          invariant forall j :: 0 <= j < k ==> s[j] == DigitChar(vals[j])
        {
          var p := At(line.start, line.dir, k);
          s := s + [DigitChar(board[p.row, p.col])];
        }
        assert s == Digits(vals);
        assert Verdict(Cells(), line) == LineVerdict(vals);
        ghost var before := winner;
        if Contains(s, "1111") {
          winner := Red;
        } else if Contains(s, "2222") {
          winner := Yellow;
        }
        assert lines[..i + 1][..i] == lines[..i];
        assert lines[..i + 1][i] == line;
        assert winner == (if Verdict(Cells(), line) == 0 then before else Verdict(Cells(), line));
      }
      assert lines[..|lines|] == lines;
    }

    /** win_check_horizontal: scan the rows. */
    method WinCheckHorizontal()
      requires Valid() && SingleDigits(Cells())
      modifies this`winner
      ensures winner == ScanLines(Cells(), HorizontalLines(), old(winner))
    {
      LinesInBounds();
      CheckLines(HorizontalLines());
    }

    /** win_check_vertical: scan the columns. */
    method WinCheckVertical()
      requires Valid() && SingleDigits(Cells())
      modifies this`winner
      ensures winner == ScanLines(Cells(), VerticalLines(), old(winner))
    {
      LinesInBounds();
      CheckLines(VerticalLines());
    }

    /** win_check_diagonal: scan the anti-diagonals, then the main diagonals. */
    method WinCheckDiagonal()
      requires Valid() && SingleDigits(Cells())
      modifies this`winner
      ensures winner == ScanLines(Cells(), DiagonalLines(), old(winner))
    {
      LinesInBounds();
      CheckLines(DiagonalLines());
    }

    /**
     * One iteration of the main loop, without the drawing: run the three win
     * checks, then handle the events. Returns true when the program exits.
     */
    method Frame(events: seq<Event>) returns (exited: bool)
      requires Valid() && SingleDigits(Cells())
      modifies board, this`currentPlayer, this`winner
      ensures Valid()
      ensures (Snapshot(), exited) == FrameSpec(old(Snapshot()), events)
    {
      WinCheckHorizontal();
      WinCheckVertical();
      WinCheckDiagonal();
      ghost var s0 := Snapshot();
      assert s0 == Scanned(old(Snapshot()));
      for i := 0 to |events|
        invariant Valid()
        invariant HandleEvents(s0, events) == HandleEvents(Snapshot(), events[i..])
      {
        match events[i]
        case Quit =>
          exited := true;
          return;
        case MouseButtonDown(buttons, x) =>
          for j := 0 to |buttons|
            invariant Valid()
            invariant HandleEvents(s0, events) ==
              Continue(HandleButtons(Snapshot(), buttons[j..], x), events[i + 1..])
          {
            if buttons[j] {
              var column := GetColumn(x);
              PlacePiece(column, currentPlayer);
              if winner != 0 {
                exited := true;
                return;
              }
            }
          }
        case OtherEvent =>
      }
      exited := false;
    }

    /** The main loop of the program, over a given sequence of frames' input. */
    method Run(frames: seq<seq<Event>>) returns (exited: bool)
      requires Valid() && Playing(Snapshot())
      modifies board, this`currentPlayer, this`winner
      ensures Valid()
      ensures (Snapshot(), exited) == RunFrames(old(Snapshot()), frames)
    {
      exited := false;
      var i := 0;
      while i < |frames|
        invariant 0 <= i <= |frames| && Valid() && Playing(Snapshot())
        invariant RunFrames(old(Snapshot()), frames) == RunFrames(Snapshot(), frames[i..])
      {
        FrameKeepsPlaying(Snapshot(), frames[i]);
        exited := Frame(frames[i]);
        if exited {
          return;
        }
        i := i + 1;
      }
    }
  }
}
