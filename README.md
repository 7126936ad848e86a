# Connect Four game logic in Dafny

This project models the game logic of the pygame Connect Four program in
`python/connect-four/main.py`, without its pygame shell, and proves
properties of it. The game logic covers:

- the 6 x 7 board (row 0 at the top; 0 empty, 1 red, 2 yellow);
- dropping a piece into a column with gravity (`place_piece`, `rindex`);
- the turn swap (`change_player`);
- mapping the mouse's x coordinate to a column (`get_column`);
- the three win checks (`win_check_horizontal`, `win_check_vertical`,
  `win_check_diagonal`);
- one iteration of the main loop: scan for a winner, then handle the frame's
  events.

Modules:

- `Board` (board.dfy): the grid as a value, `rindex`, the placement rule,
  gravity and marker invariants, and the piece count.
- `Mouse` (mouse.dfy): `get_column` as a method with a loop, proved
  against a closed-form column function.
- `Lines` (lines.dfy): every line the checks scan, written as a start cell, a
  direction and a length. It also defines "four in a row" geometrically.
- `WinCheck` (wincheck.dfy): the digit-string search. Each scan is a fold in
  which the last matching line wins. The scans are proved sound with respect
  to geometric four in a row. They name red or yellow whenever anyone has four
  in a row, and name exactly that player when only one player has four.
- `Game` (game.dfy): the class `ConnectFourGame` holds the board as a
  `array2<int>`, plus `currentPlayer` and `winner`, all updated in place.
  Its methods are proved equal to value-level specification functions
  (`Place`, `ScanLines`, `FrameSpec`, `RunFrames`). The frame lemmas sit
  beside them.
- `Scenarios` (scenarios.dfy): one concrete game, proved frame by frame from
  a new game, and one concrete board on which the scans name yellow.

Four behaviours of the code that the model keeps:

- **The winner does not block input.** Scans run before the frame's input,
  and a drop never sets the winner. So a winning drop is reported one frame
  later (`Game.FrameWinnerIsScan`, `Scenarios.RedWinsOneFrameLate`).
- **A click after a win still drops a piece.** In a frame whose scans found a
  winner, the click drops the current player's piece, and only then does the
  program exit (`Game.ClickAfterWin`).
- **The last matching line decides.** A scan overwrites the winner for every
  matching line, so the last match in scan order sets it, not the first one.
  Within one line, red is preferred (`elif`).
- **A mouse-button-down event can drop more than one piece.** Every pressed
  button counts as a click, because `True == 1` in Python
  (`Game.TwoButtonsTwoDrops`).

`get_column` compares the integer `mouse_x` with two float bounds: the lower
bound `col = i * colwidth` and the upper bound `col + colwidth`, where
`colwidth = 500 / 7` (main.py:177-181). The model compares `7 * x` with
`500 * i` and `500 * (i + 1)` instead. The two are equivalent for every
integer x:

- each float bound differs from its exact value `500 * i / 7` or
  `500 * (i + 1) / 7` by less than 10^-13;
- every exact bound other than 0 and 500 is at least 1/7 from the nearest
  integer (1000/7 and 2500/7 are exactly 1/7 away, the rest are farther);
- the lower bound of column 0 is exactly 0.0, and the upper bound of column 6,
  `6 * (500 / 7) + 500 / 7`, rounds to exactly 500.0.

So rounding never moves a bound past an integer, and an integer x compares
with each float bound as it does with the exact fraction.

## Model

| member | source | states |
|---|---|---|
| Board.EmptyGrid | python/connect-four/main.py:64-69 | the initial board is 6 x 7, every cell is empty, and it is settled and holds only known markers |
| Board.IndexOf | python/connect-four/main.py:192 | `list.index` returns the first position holding the value |
| Board.RIndex | python/connect-four/main.py:185-193 | given `value in lst`, the result holds `value` and no later position does (the last occurrence); works on a value, so the input is unchanged |
| Board.NextPlayer | python/connect-four/main.py:206-215 | 1 becomes 2, 2 becomes 1, and any other value stays unchanged |
| Board.NextPlayerInvolution | python/connect-four/main.py:206-215 | swapping twice is the identity; a player stays red or yellow; the swap changes the value exactly when it is red or yellow |
| Board.Column | python/connect-four/main.py:196 | the copied column holds the board's cells of that column, top row first |
| Board.LandingRow | python/connect-four/main.py:197-199 | in a column that is not full, the landing row is empty and every row below it is filled |
| Board.Reverse | python/connect-four/main.py:190-191 | the reversed copy has the list's length; `Board.ReverseAt` states that entry k is entry `n - 1 - k` of the list |
| Board.Full | python/connect-four/main.py:197 | no `ensures`: a column is full when 0 is not among its cells; `Board.Place` and `Board.LandingRow` give its consequences |
| Board.Place | python/connect-four/main.py:195-203 | a full column leaves the board unchanged; otherwise exactly the landing cell of the column gets the piece and every other cell is unchanged |
| Board.LandingOnTop | python/connect-four/main.py:197-199 | on a settled board, the landing row and every row above it are empty in that column |
| Board.PlaceKeepsSettled | python/connect-four/main.py:195-203 | a placement keeps gravity: no filled cell has an empty cell below it |
| Board.PlaceKeepsMarkers | python/connect-four/main.py:195-203 | dropping red or yellow keeps every cell in {0, 1, 2}, so drawing never raises `UnknownPieceError` |
| Board.PlaceCount | python/connect-four/main.py:195-203 | a drop into a column with room adds exactly one piece to the board; a drop into a full column adds none |
| Mouse.ColumnOf | python/connect-four/main.py:173-183 | the column is always in [0, 7) |
| Mouse.ColumnOfMeaning | python/connect-four/main.py:173-183 | a non-zero column holds x strictly inside its slice; whenever x is strictly inside slice i, the column is i |
| Mouse.GetColumn | python/connect-four/main.py:173-183 | the loop returns an index in [0, 7), non-zero only when x is strictly inside that slice, equal to the slice that holds x, and 0 for a boundary or off-window x |
| Lines.LineValues | python/connect-four/main.py:222 | a line's values are the cells at its positions, in scan order |
| Lines.RowLine | python/connect-four/main.py:222 | no `ensures`: row r as a line from (r, 0) across 7 cells; `Lines.LinesInBounds` and `Lines.WinIsRun` state what it covers |
| Lines.ColumnLine | python/connect-four/main.py:237 | no `ensures`: column c as a line from (0, c) down 6 cells; `Lines.LinesInBounds` and `Lines.WinIsRun` state what it covers |
| Lines.AntiDiagonal | python/connect-four/main.py:261 | no `ensures`: the diagonal `diagonal(i)` of the upside-down board, read from its bottom-left end upward; `Lines.LinesInBounds` and `Lines.WinIsRun` state what it covers |
| Lines.MainDiagonal | python/connect-four/main.py:262 | no `ensures`: `diagonal(i)` of the board, read from its top-left end downward; `Lines.LinesInBounds` and `Lines.WinIsRun` state what it covers |
| Lines.HorizontalLines | python/connect-four/main.py:221-222 | the horizontal check visits the 6 rows |
| Lines.VerticalLines | python/connect-four/main.py:236-237 | the vertical check visits the 7 columns |
| Lines.DiagonalLines | python/connect-four/main.py:261-263 | the diagonal check visits 24 diagonals: 12 anti-diagonals, then 12 main diagonals |
| Lines.LinesInBounds | python/connect-four/main.py:221-263 | every scanned line stays on the 6 x 7 board |
| Lines.RunFour | python/connect-four/main.py:227-230 | four equal entries from position k of a scanned line are four in a row on the board, starting at the line's k-th cell |
| Lines.RunIsWin | python/connect-four/main.py:227-230 | four equal consecutive values in a scanned line are four in a row on the board |
| Lines.WinIsRun | python/connect-four/main.py:217-273 | every four in a row, in any of the four directions, lies as four consecutive entries of one scanned line |
| Lines.SmallBoxNoWin | python/connect-four/main.py:217-273 | pieces of one colour that fit in a 3 x 3 box make no four in a row |
| WinCheck.MarkersAreDigits | python/connect-four/main.py:223-225 | a board of markers 0, 1 and 2 has single-digit cells, so `str(item)` is one character per cell |
| WinCheck.DigitChar | python/connect-four/main.py:225 | no `ensures`: `str(item)` of a single digit; `WinCheck.DigitCharInjective` states that different digits give different characters |
| WinCheck.Contains | python/connect-four/main.py:227 | no `ensures`: Python's `pat in s` on strings, as an occurrence at some position; `WinCheck.DigitsRun` gives its meaning on digit strings |
| WinCheck.LineVerdict | python/connect-four/main.py:227-230 | no `ensures`: the `if "1111"` / `elif "2222"` test of one line; `WinCheck.VerdictIsRun` characterises it |
| WinCheck.ScanLines | python/connect-four/main.py:221-230 | no `ensures`: a check's loop over its lines, every match overwriting the winner (also main.py:236-245, 266-273); `WinCheck.ScanLastMatch`, `WinCheck.ScanNoMatch` and `WinCheck.ScanLinesSound` characterise it |
| WinCheck.ScanBoard | python/connect-four/main.py:92-94 | no `ensures`: the three checks in order; `WinCheck.ScanSound`, `WinCheck.ScanComplete` and `WinCheck.AnyWinDetected` characterise it |
| WinCheck.Digits | python/connect-four/main.py:223-225 | the line's string has one character per cell |
| WinCheck.DigitsRun | python/connect-four/main.py:227-230 | "vvvv" occurs in the line's digit string if and only if the line has four consecutive cells equal to v |
| WinCheck.VerdictIsRun | python/connect-four/main.py:227-230 | a line gives 1 if it has four consecutive 1s, else 2 if it has four consecutive 2s, else leaves the winner alone (red first when a line holds both) |
| WinCheck.ScanNoMatch | python/connect-four/main.py:221-230 | if no line matches, a check leaves the winner unchanged |
| WinCheck.ScanLastMatch | python/connect-four/main.py:221-230 | the last matching line in scan order decides the winner |
| WinCheck.ScanResult | python/connect-four/main.py:221-230 | the result of a check is the old winner or the verdict of some matching line |
| WinCheck.ScanConcat | python/connect-four/main.py:92-94 | running checks one after another is one scan of their lines in order |
| WinCheck.ScanBoardIsAllLines | python/connect-four/main.py:92-94 | one round of the three checks scans the 37 lines in order |
| WinCheck.ScanLinesSound | python/connect-four/main.py:217-273 | a check sets only 1 or 2, only for a player who has four in a row, and never resets a set winner to 0 |
| WinCheck.ScanSound | python/connect-four/main.py:92-94 | one round of the three checks sets only 1 or 2, only for a player who has four in a row, and never resets a set winner to 0 |
| WinCheck.ScanNoWin | python/connect-four/main.py:92-94 | on a board where nobody has four in a row, the checks leave the winner unchanged |
| WinCheck.ScanComplete | python/connect-four/main.py:92-94 | when exactly one player has four in a row, the checks name that player, whatever the winner was before |
| WinCheck.LastMatch | python/connect-four/main.py:217-273 | if some line matches and every matching line names v, the scan ends at v |
| WinCheck.SomeMatch | python/connect-four/main.py:217-273 | once any scanned line matches, the scan ends at red or yellow |
| WinCheck.AnyWinDetected | python/connect-four/main.py:92-94 | whenever some player has four in a row, even when both players do, the checks name red or yellow |
| WinCheck.ScanIndep | python/connect-four/main.py:221-230 | once some line matches, a check's result does not depend on the winner it started from |
| WinCheck.ScanFixed | python/connect-four/main.py:92-94 | scanning the same board again gives the same winner |
| WinCheck.EmptyBoardNoWinner | python/connect-four/main.py:64-69 | the initial board yields no winner |
| Game.Scanned | python/connect-four/main.py:92-94 | no `ensures`: the state with the winner the three checks leave; `Game.FrameWinnerIsScan` states it |
| Game.Continue | python/connect-four/main.py:97-112 | keeps the board well formed; the rest of the event loop runs unless the program has exited, as `Game.EventsExitOnQuit` and `Game.EventsExitAfterWin` state |
| Game.FrameSpec | python/connect-four/main.py:91-112 | no `ensures`: the scans, then the events; `Game.FrameWinnerIsScan`, `Game.FrameExit`, `Game.FrameKeepsPlaying` and `Game.ClickAfterWin` characterise it |
| Game.PlaceState | python/connect-four/main.py:108 | a drop by the current player leaves the winner unchanged |
| Game.HandleButtons | python/connect-four/main.py:103-112 | handling a mouse-button-down keeps the board well formed |
| Game.HandleEvents | python/connect-four/main.py:97-112 | handling a frame's events keeps the board well formed |
| Game.ButtonsKeepWinner | python/connect-four/main.py:103-112 | clicks never change the winner, and exit only when a winner is set |
| Game.EventsKeepWinner | python/connect-four/main.py:97-112 | events never change the winner, and end the program only on a quit or a set winner |
| Game.FrameWinnerIsScan | python/connect-four/main.py:91-112 | the winner at the end of a frame is what the scans found on the board as it stood at the frame's start, so a winning drop is seen one frame late |
| Game.ButtonsNoExit | python/connect-four/main.py:103-112 | with no winner set, clicks never end the program |
| Game.EventsExitOnQuit | python/connect-four/main.py:97-112 | with no winner set, the events end the program if and only if one of them is a quit |
| Game.ButtonsExitAfterWin | python/connect-four/main.py:103-112 | with a winner set, a mouse-button-down ends the program if and only if one of its buttons is pressed |
| Game.EventsExitAfterWin | python/connect-four/main.py:97-112 | with a winner set, the events end the program if and only if one of them is a quit or a mouse-button-down with a button pressed |
| Game.FrameExit | python/connect-four/main.py:91-112 | with no winner after the scans, a frame exits exactly when it holds a quit; with a winner, exactly when it holds a quit or a mouse-button-down with a button pressed |
| Game.ClickAfterWin | python/connect-four/main.py:102-112 | a click in a frame whose scans found a winner still drops the current player's piece under the mouse, then the program exits |
| Game.ButtonsKeepPlaying | python/connect-four/main.py:103-108 | clicks keep the board settled, the cells in {0, 1, 2} and the player red or yellow |
| Game.EventsKeepPlaying | python/connect-four/main.py:97-108 | events keep the board settled, the cells in {0, 1, 2} and the player red or yellow |
| Game.FrameKeepsPlaying | python/connect-four/main.py:86-112 | every frame keeps the board settled, the cells in {0, 1, 2} and the player red or yellow |
| Game.ButtonsOnFullBoard | python/connect-four/main.py:103-108 | on a full board, clicks change neither the board nor the turn |
| Game.EventsOnFullBoard | python/connect-four/main.py:97-108 | on a full board, events change neither the board nor the turn |
| Game.FullBoardFrame | python/connect-four/main.py:91-112 | on a full board, a frame changes neither the board nor the turn |
| Game.RunFrames | python/connect-four/main.py:84-115 | the main loop keeps the board settled, the cells in {0, 1, 2} and the player red or yellow |
| Game.WinnerLatches | python/connect-four/main.py:84-115 | once a winner is set, it stays non-zero in every later frame; `Game.WinnerKeepsValue` states that it also keeps its value once the scans have settled |
| Game.ButtonsStay | python/connect-four/main.py:103-112 | with a winner set, a mouse-button-down that does not end the program leaves the state unchanged |
| Game.EventsStay | python/connect-four/main.py:97-112 | with a winner set, events that do not end the program leave the state unchanged |
| Game.FirstSetIsFixed | python/connect-four/main.py:91-112 | a frame that ends with a winner set and the program running leaves the scanned state as it was, and rescanning its board gives the same winner |
| Game.WinnerKeepsValue | python/connect-four/main.py:84-115 | once the scans have settled on a winner, every later frame keeps exactly that winner |
| Game.TwoButtonsTwoDrops | python/connect-four/main.py:103-108 | with no winner set, one mouse-button-down with two buttons pressed drops two pieces into the column under the mouse |
| Game.ConnectFourGame.constructor | python/connect-four/main.py:42-69 | a new game has an empty 6 x 7 board, red to move and no winner |
| Game.ConnectFourGame.ChangePlayer | python/connect-four/main.py:206-215 | the current player becomes `NextPlayer` of the old one |
| Game.ConnectFourGame.PlacePiece | python/connect-four/main.py:195-203 | the board becomes `Place` of the old board; the turn passes only when the column was not full |
| Game.ConnectFourGame.CheckLines | python/connect-four/main.py:221-230 | the loop that builds each line's string and searches it leaves the winner equal to the scan of those lines from the old winner |
| Game.ConnectFourGame.WinCheckHorizontal | python/connect-four/main.py:217-230 | the winner becomes the scan of the 6 rows |
| Game.ConnectFourGame.WinCheckVertical | python/connect-four/main.py:232-245 | the winner becomes the scan of the 7 columns |
| Game.ConnectFourGame.WinCheckDiagonal | python/connect-four/main.py:247-273 | the winner becomes the scan of the anti-diagonals, then the main diagonals |
| Game.ConnectFourGame.Frame | python/connect-four/main.py:91-112 | the new board, player, winner and exit flag are those of `FrameSpec`: scans first, then the events |
| Game.ConnectFourGame.Run | python/connect-four/main.py:84-115 | running the loop over a sequence of frames ends in the state and exit flag of `RunFrames` |
| Scenarios.Bottom | python/connect-four/main.py:64-69 | the scenario boards have the board's shape, hold only known markers, and are settled when no more yellow than red pieces are placed |
| Scenarios.RedDrop | python/connect-four/main.py:195-203 | red's drop into the next free bottom column lands in the bottom row and passes the turn to yellow |
| Scenarios.YellowDrop | python/connect-four/main.py:195-203 | yellow's drop into the same column lands on top of red's piece and passes the turn to red |
| Scenarios.NoWinYet | python/connect-four/main.py:217-273 | with at most three pieces each along the bottom, nobody has four in a row |
| Scenarios.XInColumn | python/connect-four/main.py:173-183 | the sample mouse positions map to columns 0 .. 6 |
| Scenarios.QuietClick | python/connect-four/main.py:91-112 | in a frame with no winner on the board, one click is exactly one drop, and the program does not exit |
| Scenarios.BottomPlaying | python/connect-four/main.py:64-69 | the scenario boards are settled and hold only known markers |
| Scenarios.RedFrame | python/connect-four/main.py:91-112 | red's click into column k is one frame that drops red's piece in the bottom row, passes the turn and does not exit |
| Scenarios.YellowFrame | python/connect-four/main.py:91-112 | yellow's click into the same column is one frame that stacks yellow's piece, passes the turn and does not exit |
| Scenarios.QuietFrame | python/connect-four/main.py:84-115 | a frame that does not exit hands the main loop on to the next frame |
| Scenarios.RoundOfTwo | python/connect-four/main.py:84-115 | red then yellow clicking column k take two quiet frames that stack two pieces |
| Scenarios.QuietRounds | python/connect-four/main.py:84-115 | the rounds from column n to column 2 build three red and three yellow pieces along the bottom |
| Scenarios.FirstSixClicks | python/connect-four/main.py:84-115 | six alternating clicks in columns 0, 0, 1, 1, 2, 2 from the empty board end with red to move and no winner |
| Scenarios.WinningClick | python/connect-four/main.py:84-115 | red's seventh click completes the bottom row, and its frame ends with no winner |
| Scenarios.NextFrameSeesRed | python/connect-four/main.py:91-95 | the next frame's scans name red |
| Scenarios.RedWinsOneFrameLate | python/connect-four/main.py:84-115 | from a new game, red's four along the bottom is reported one frame after the winning drop |
| Scenarios.YellowStair | python/connect-four/main.py:247-273 | the staircase board has the board's shape |
| Scenarios.YellowDiagonalWins | python/connect-four/main.py:247-273 | on a settled board where yellow holds an anti-diagonal and red has no four, the scans name yellow |

## Left out

- Rendering is not modelled: `draw_board`, `draw_pieces`, `display_winner`, the colours, the gap arithmetic, and the font, clock and window setup (main.py:23-28, 46-62, 71-82, 117-171, 275-284). `UnknownPieceError`, raised only while drawing, is captured instead as the proved invariant that every cell stays in {0, 1, 2} (`Board.Markers`).
- pygame event plumbing is abstracted. Each frame's `pygame.event.get()` is a given sequence of events. `mouse.get_pressed()` and `get_pos()` travel inside the mouse-button-down event: the button states and the mouse's x.
- Process control is abstracted. `print("Exiting...")`, `pygame.quit()`, `exit()` and `time.sleep(1)` are modelled as the `exited` flag that ends the run. Frame pacing (`CLOCK.tick`) and `display.flip` are not modelled.
- The "Unknown player" message of `change_player` is not modelled. Only the fact that the player is left unchanged is kept.
- numpy is replaced by index arithmetic: `zeros`, `take` and `diagonal` become explicit positions on a 6 x 7 array or grid.
- Game.ConnectFourGame.PlacePiece: requires a column in [0, 7). `numpy.take` on a column outside that range is not modelled; the program only passes columns from `get_column`, which are always in range.
- WinCheck.Verdict: `str()` is modelled only for single-digit cells. The scans require this, and it always holds during play (`Game.FrameKeepsPlaying`).
- Mouse.GetColumn: takes the mouse x as an integer and uses exact cross-multiplied comparisons instead of float division. The two are equivalent for every integer x, as argued above.
- The imports, the `UnknownPieceError` class and the module-level `ConnectFourGame()` call (main.py:1-12, 287) carry no logic to model.
- javascript/Tic-Tac-Toe/src/components/Board.js only renders squares and forwards clicks. It is not part of this model.
