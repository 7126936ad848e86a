/**
 * What the win checks compute. Each line's cells are turned into a string of
 * digits, and the string is searched for "1111" (red) and, failing that,
 * "2222" (yellow). A line that matches overwrites the winner; a line that
 * does not leaves it alone. The outcome of a scan is therefore decided by the
 * LAST matching line in scan order, and is the previous winner when no line
 * matches.
 */
module WinCheck {
  import opened Board
  import opened Lines

  /** Every cell is a single decimal digit, so that str() of a cell is one character. */
  ghost predicate SingleDigits(g: Grid)
    requires WellFormed(g)
  {
    forall r, c :: 0 <= r < Rows && 0 <= c < Cols ==> 0 <= g[r][c] <= 9
  }

  lemma MarkersAreDigits(g: Grid)
    requires WellFormed(g) && Markers(g)
    ensures SingleDigits(g)
  {
  }

  /** str() of a single-digit integer. */
  function DigitChar(v: int): char
    requires 0 <= v <= 9
  {
    (48 + v) as char
  }

  ghost predicate DigitValues(vals: seq<int>)
  {
    forall k :: 0 <= k < |vals| ==> 0 <= vals[k] <= 9
  }

  /** The string built by appending str(item) for each item of a line. */
  function Digits(vals: seq<int>): (s: string)
    requires DigitValues(vals)
    ensures |s| == |vals|
  {
    seq(|vals|, k requires 0 <= k < |vals| => DigitChar(vals[k]))
  }

  /** Python's `pat in s` on strings: pat occurs as a substring of s. */
  predicate Contains(s: string, pat: string)
  {
    exists k :: 0 <= k <= |s| - |pat| && OccursAt(s, pat, k)
  }

  predicate OccursAt(s: string, pat: string, k: int)
  {
    0 <= k && k + |pat| <= |s| && s[k..k + |pat|] == pat
  }

  /** What one line contributes: 1 if "1111" occurs, else 2 if "2222" occurs, else nothing (0). */
  function LineVerdict(vals: seq<int>): int
    requires DigitValues(vals)
  {
    var s := Digits(vals);
    if Contains(s, "1111") then Red else if Contains(s, "2222") then Yellow else 0
  }

  lemma DigitCharInjective(a: int, b: int)
    requires 0 <= a <= 9 && 0 <= b <= 9 && DigitChar(a) == DigitChar(b)
    ensures a == b
  {
    assert (DigitChar(a) as int) == 48 + a;
    assert (DigitChar(b) as int) == 48 + b;
  }

  /** A match of v's four digits at k is four v's from k. */
  lemma MatchIsRun(vals: seq<int>, v: int, k: int)
    requires DigitValues(vals) && 0 <= v <= 9
    requires OccursAt(Digits(vals), [DigitChar(v), DigitChar(v), DigitChar(v), DigitChar(v)], k)
    ensures k + 4 <= |vals| && RunAt(vals, k, v)
  {
    var s := Digits(vals);
    assert s[k..k + 4] == [DigitChar(v), DigitChar(v), DigitChar(v), DigitChar(v)];
    assert s[k] == DigitChar(v) && s[k + 1] == DigitChar(v) && s[k + 2] == DigitChar(v) && s[k + 3] == DigitChar(v);
    DigitCharInjective(vals[k], v);
    DigitCharInjective(vals[k + 1], v);
    DigitCharInjective(vals[k + 2], v);
    DigitCharInjective(vals[k + 3], v);
  }

  /** Four v's from k are a match of v's four digits at k. */
  lemma RunIsMatch(vals: seq<int>, v: int, k: int)
    requires DigitValues(vals) && 0 <= v <= 9
    requires 0 <= k && k + 4 <= |vals| && RunAt(vals, k, v)
    ensures OccursAt(Digits(vals), [DigitChar(v), DigitChar(v), DigitChar(v), DigitChar(v)], k)
  {
    assert Digits(vals)[k..k + 4] == [DigitChar(v), DigitChar(v), DigitChar(v), DigitChar(v)];
  }

  /** Searching the digit string for four copies of v's digit is looking for four consecutive v's. */
  lemma DigitsRun(vals: seq<int>, v: int)
    requires DigitValues(vals) && 0 <= v <= 9
    ensures Contains(Digits(vals), [DigitChar(v), DigitChar(v), DigitChar(v), DigitChar(v)]) <==> HasRun(vals, v)
  {
    var s := Digits(vals);
    var pat := [DigitChar(v), DigitChar(v), DigitChar(v), DigitChar(v)];
    if Contains(s, pat) {
      var k :| 0 <= k <= |s| - |pat| && OccursAt(s, pat, k);
      MatchIsRun(vals, v, k);
    }
    if HasRun(vals, v) {
      var k :| 0 <= k && k + 4 <= |vals| && RunAt(vals, k, v);
      RunIsMatch(vals, v, k);
    }
  }

  /**
   * The verdict of a line in terms of its cells: red when it holds four
   * consecutive 1s (even if it also holds four 2s), yellow when it holds four
   * consecutive 2s and no four 1s, and nothing otherwise.
   */
  lemma VerdictIsRun(vals: seq<int>)
    requires DigitValues(vals)
    ensures LineVerdict(vals) == if HasRun(vals, Red) then Red else if HasRun(vals, Yellow) then Yellow else 0
  {
    DigitsRun(vals, Red);
    DigitsRun(vals, Yellow);
    assert [DigitChar(Red), DigitChar(Red), DigitChar(Red), DigitChar(Red)] == "1111";
    assert [DigitChar(Yellow), DigitChar(Yellow), DigitChar(Yellow), DigitChar(Yellow)] == "2222";
  }

  lemma LineDigits(g: Grid, l: Line)
    requires WellFormed(g) && SingleDigits(g) && LineInBounds(l)
    ensures DigitValues(LineValues(g, l))
  {
  }

  /** The verdict of line l on board g. */
  function Verdict(g: Grid, l: Line): int
    requires WellFormed(g) && SingleDigits(g) && LineInBounds(l)
  {
    LineDigits(g, l);
    LineVerdict(LineValues(g, l))
  }

  /**
   * The winner after scanning `ls` in order, starting from `w`: every matching
   * line overwrites it.
   */
  function ScanLines(g: Grid, ls: seq<Line>, w: int): int
    requires WellFormed(g) && SingleDigits(g) && AllInBounds(ls)
  {
    if ls == [] then w
    else
      var before := ScanLines(g, ls[..|ls| - 1], w);
      var v := Verdict(g, ls[|ls| - 1]);
      if v == 0 then before else v
  }

  /** When no scanned line matches, the winner is left as it was. */
  lemma {:induction false} ScanNoMatch(g: Grid, ls: seq<Line>, w: int)
    requires WellFormed(g) && SingleDigits(g) && AllInBounds(ls)
    requires forall i :: 0 <= i < |ls| ==> Verdict(g, ls[i]) == 0
    ensures ScanLines(g, ls, w) == w
  {
    if ls != [] {
      var n := |ls| - 1;
      var front := ls[..n];
      assert forall i :: 0 <= i < n ==> front[i] == ls[i];
      ScanNoMatch(g, front, w);
    }
  }

  /** The last matching line decides the scan: the result is its verdict. */
  lemma {:induction false} ScanLastMatch(g: Grid, ls: seq<Line>, i: nat, w: int)
    requires WellFormed(g) && SingleDigits(g) && AllInBounds(ls)
    requires i < |ls| && Verdict(g, ls[i]) != 0
    requires forall j :: i < j < |ls| ==> Verdict(g, ls[j]) == 0
    ensures ScanLines(g, ls, w) == Verdict(g, ls[i])
  {
    var n := |ls| - 1;
    if i < n {
      var front := ls[..n];
      assert forall j :: 0 <= j < n ==> front[j] == ls[j];
      ScanLastMatch(g, front, i, w);
    }
  }

  /** The scan result is the starting winner or the verdict of some scanned line. */
  lemma {:induction false} ScanResult(g: Grid, ls: seq<Line>, w: int)
    requires WellFormed(g) && SingleDigits(g) && AllInBounds(ls)
    ensures ScanLines(g, ls, w) == w ||
      exists i :: 0 <= i < |ls| && Verdict(g, ls[i]) != 0 && ScanLines(g, ls, w) == Verdict(g, ls[i])
  {
    if ls != [] {
      var n := |ls| - 1;
      var front := ls[..n];
      ScanResult(g, front, w);
      if ScanLines(g, ls, w) != w && Verdict(g, ls[n]) == 0 {
        var i :| 0 <= i < n && Verdict(g, front[i]) != 0 && ScanLines(g, front, w) == Verdict(g, front[i]);
        assert front[i] == ls[i];
      }
    }
  }

  /** Scanning two lists of lines one after the other is scanning their concatenation. */
  lemma {:induction false} ScanConcat(g: Grid, a: seq<Line>, b: seq<Line>, w: int)
    requires WellFormed(g) && SingleDigits(g) && AllInBounds(a) && AllInBounds(b)
    ensures AllInBounds(a + b)
    ensures ScanLines(g, a + b, w) == ScanLines(g, b, ScanLines(g, a, w))
  {
    if b == [] {
      assert a + b == a;
    } else {
      var n := |b| - 1;
      assert (a + b)[..|a + b| - 1] == a + b[..n];
      assert (a + b)[|a + b| - 1] == b[n];
      ScanConcat(g, a, b[..n], w);
    }
  }

  /** One round of win_check_horizontal, win_check_vertical and win_check_diagonal. */
  function ScanBoard(g: Grid, w: int): int
    requires WellFormed(g) && SingleDigits(g)
  {
    LinesInBounds();
    ScanLines(g, DiagonalLines(), ScanLines(g, VerticalLines(), ScanLines(g, HorizontalLines(), w)))
  }

  lemma ScanBoardIsAllLines(g: Grid, w: int)
    requires WellFormed(g) && SingleDigits(g)
    ensures AllInBounds(AllLines())
    ensures ScanBoard(g, w) == ScanLines(g, AllLines(), w)
  {
    LinesInBounds();
    ScanConcat(g, HorizontalLines(), VerticalLines(), w);
    ScanConcat(g, HorizontalLines() + VerticalLines(), DiagonalLines(), w);
  }

  /**
   * Any one win check only ever sets red or yellow, and only for a player
   * who really has four in a row; it never resets the winner to 0.
   */
  lemma ScanLinesSound(g: Grid, ls: seq<Line>, w: int)
    requires WellFormed(g) && SingleDigits(g) && AllInBounds(ls)
    ensures ScanLines(g, ls, w) == w || (ScanLines(g, ls, w) in {Red, Yellow} && Win(g, ScanLines(g, ls, w)))
    ensures w != 0 ==> ScanLines(g, ls, w) != 0
  {
    ScanResult(g, ls, w);
    var r := ScanLines(g, ls, w);
    if r != w {
      var i :| 0 <= i < |ls| && Verdict(g, ls[i]) != 0 && r == Verdict(g, ls[i]);
      LineDigits(g, ls[i]);
      VerdictIsRun(LineValues(g, ls[i]));
      RunIsWin(g, ls[i], r);
    }
  }

  /** The same holds for one whole round of the three checks. */
  lemma ScanSound(g: Grid, w: int)
    requires WellFormed(g) && SingleDigits(g)
    ensures ScanBoard(g, w) == w || (ScanBoard(g, w) in {Red, Yellow} && Win(g, ScanBoard(g, w)))
    ensures w != 0 ==> ScanBoard(g, w) != 0
  {
    ScanBoardIsAllLines(g, w);
    ScanLinesSound(g, AllLines(), w);
  }

  /** A board on which nobody has four in a row leaves the winner as it was. */
  lemma ScanNoWin(g: Grid, w: int)
    requires WellFormed(g) && SingleDigits(g) && !Win(g, Red) && !Win(g, Yellow)
    ensures ScanBoard(g, w) == w
  {
    ScanSound(g, w);
  }

  /**
   * When exactly one player has four in a row, the scan names that player,
   * whatever the winner was before.
   */
  lemma ScanComplete(g: Grid, w: int, v: int)
    requires WellFormed(g) && SingleDigits(g) && v in {Red, Yellow}
    requires Win(g, v) && !Win(g, NextPlayer(v))
    ensures ScanBoard(g, w) == v
  {
    ScanBoardIsAllLines(g, w);
    var ls := AllLines();
    var i := WinIsRun(g, v);
    LineDigits(g, ls[i]);
    VerdictIsRun(LineValues(g, ls[i]));
    // Every line that matches at all matches for v.
    forall j | 0 <= j < |ls| && Verdict(g, ls[j]) != 0
      ensures Verdict(g, ls[j]) == v
    {
      LineDigits(g, ls[j]);
      VerdictIsRun(LineValues(g, ls[j]));
      var u := Verdict(g, ls[j]);
      RunIsWin(g, ls[j], u);
    }
    LastMatch(g, ls, i, v, w);
  }

  /** If line i matches and every match is v, the scan ends at v. */
  lemma {:induction false} LastMatch(g: Grid, ls: seq<Line>, i: nat, v: int, w: int)
    requires WellFormed(g) && SingleDigits(g) && AllInBounds(ls)
    requires i < |ls| && Verdict(g, ls[i]) != 0
    requires forall j :: 0 <= j < |ls| && Verdict(g, ls[j]) != 0 ==> Verdict(g, ls[j]) == v
    ensures ScanLines(g, ls, w) == v
  {
    var n := |ls| - 1;
    if Verdict(g, ls[n]) == 0 {
      var front := ls[..n];
      assert forall j :: 0 <= j < n ==> front[j] == ls[j];
      LastMatch(g, front, i, v, w);
    }
  }

  /** Once some line matches, the scan ends at red or yellow. */
  lemma {:induction false} SomeMatch(g: Grid, ls: seq<Line>, i: nat, w: int)
    requires WellFormed(g) && SingleDigits(g) && AllInBounds(ls)
    requires i < |ls| && Verdict(g, ls[i]) != 0
    ensures ScanLines(g, ls, w) in {Red, Yellow}
  {
    var n := |ls| - 1;
    if Verdict(g, ls[n]) == 0 {
      var front := ls[..n];
      assert front[i] == ls[i];
      SomeMatch(g, front, i, w);
    }
  }

  /**
   * Whenever some player has four in a row, the scans name red or yellow, even
   * when both players have one.
   */
  lemma AnyWinDetected(g: Grid, w: int, v: int)
    requires WellFormed(g) && SingleDigits(g) && v in {Red, Yellow} && Win(g, v)
    ensures ScanBoard(g, w) in {Red, Yellow}
  {
    ScanBoardIsAllLines(g, w);
    var ls := AllLines();
    var i := WinIsRun(g, v);
    LineDigits(g, ls[i]);
    VerdictIsRun(LineValues(g, ls[i]));
    SomeMatch(g, ls, i, w);
  }

  /** Once some line matches, the scan no longer depends on the winner it started from. */
  lemma {:induction false} ScanIndep(g: Grid, ls: seq<Line>, i: nat, w1: int, w2: int)
    requires WellFormed(g) && SingleDigits(g) && AllInBounds(ls)
    requires i < |ls| && Verdict(g, ls[i]) != 0
    ensures ScanLines(g, ls, w1) == ScanLines(g, ls, w2)
  {
    var n := |ls| - 1;
    if Verdict(g, ls[n]) == 0 {
      var front := ls[..n];
      assert front[i] == ls[i];
      ScanIndep(g, front, i, w1, w2);
    }
  }

  /** Scanning the same board again finds the same winner. */
  lemma ScanFixed(g: Grid, w: int)
    requires WellFormed(g) && SingleDigits(g)
    ensures ScanBoard(g, ScanBoard(g, w)) == ScanBoard(g, w)
  {
    var r := ScanBoard(g, w);
    ScanBoardIsAllLines(g, w);
    ScanBoardIsAllLines(g, r);
    var ls := AllLines();
    ScanResult(g, ls, w);
    if r != w {
      var i :| 0 <= i < |ls| && Verdict(g, ls[i]) != 0 && r == Verdict(g, ls[i]);
      ScanIndep(g, ls, i, w, r);
    }
  }

  /** The board every game starts from has no winner. */
  lemma EmptyBoardNoWinner()
    ensures ScanBoard(EmptyGrid(), 0) == 0
  {
    var g := EmptyGrid();
    MarkersAreDigits(g);
    forall v, p: Pos, d: Dir | v in {Red, Yellow}
      ensures !FourAt(g, p, d, v)
    {
      assert !(InBounds(At(p, d, 0)) && Cell(g, At(p, d, 0)) == v);
    }
    ScanNoWin(g, 0);
  }
}
