/** Outcome evaluation of internal/game/rules.go. */
module GameRules {
  import opened Wrappers
  import opened Models
  import opened GameBoard

  /** Row i holds three equal non-empty marks. */
  predicate RowWins(b: Board, i: int)
    requires 0 <= i < 3
  {
    b[i][0] != Empty && b[i][0] == b[i][1] && b[i][1] == b[i][2]
  }

  predicate ColumnWins(b: Board, i: int)
    requires 0 <= i < 3
  {
    b[0][i] != Empty && b[0][i] == b[1][i] && b[1][i] == b[2][i]
  }

  /** Rows and columns interleaved for i = i0..2, then the diagonals, then the draw test. */
  function ScanFrom(b: Board, i: int): (Symbol, bool)
    requires 0 <= i <= 3
    decreases 3 - i
  {
    if i == 3 then ScanDiagonals(b)
    else if RowWins(b, i) then (b[i][0], false)
    else if ColumnWins(b, i) then (b[0][i], false)
    else ScanFrom(b, i + 1)
  }

  function ScanDiagonals(b: Board): (Symbol, bool) {
    if b[0][0] != Empty && b[0][0] == b[1][1] && b[1][1] == b[2][2] then (b[0][0], false)
    else if b[0][2] != Empty && b[0][2] == b[1][1] && b[1][1] == b[2][0] then (b[0][2], false)
    else if Full(b) then (Empty, true)
    else (Empty, false)
  }

  /** The winner ("X", "O" or empty) and whether the game is drawn. */
  function CheckWinner(b: Board): (Symbol, bool) {
    ScanFrom(b, 0)
  }

  // An independent description of the evaluation: a list of lines in scan order.

  datatype Line = RowLine(i: int) | ColumnLine(i: int) | MainDiagonal | AntiDiagonal

  /** The scan order of CheckWinner: row i then column i for i = 0..2, then both diagonals. */
  function ScanOrderFrom(i: int): (ls: seq<Line>)
    requires 0 <= i <= 3
    ensures AllWellFormed(ls)
    decreases 3 - i
  {
    if i == 3 then [MainDiagonal, AntiDiagonal]
    else [RowLine(i), ColumnLine(i)] + ScanOrderFrom(i + 1)
  }

  const ScanOrder: seq<Line> := ScanOrderFrom(0)

  lemma ScanOrderIsListed()
    ensures ScanOrder == [RowLine(0), ColumnLine(0), RowLine(1), ColumnLine(1),
                          RowLine(2), ColumnLine(2), MainDiagonal, AntiDiagonal]
  {
  }

  predicate WellFormedLine(l: Line) {
    (l.RowLine? || l.ColumnLine?) ==> 0 <= l.i < 3
  }

  /** The three cells of a line. */
  function LineCells(l: Line): (cells: seq<Move>)
    requires WellFormedLine(l)
    ensures |cells| == 3 && forall k | 0 <= k < 3 :: InBounds(cells[k].row, cells[k].col)
  {
    match l
    case RowLine(i) => [Move(i, 0), Move(i, 1), Move(i, 2)]
    case ColumnLine(i) => [Move(0, i), Move(1, i), Move(2, i)]
    case MainDiagonal => [Move(0, 0), Move(1, 1), Move(2, 2)]
    case AntiDiagonal => [Move(0, 2), Move(1, 1), Move(2, 0)]
  }

  function At(b: Board, m: Move): Symbol
    requires InBounds(m.row, m.col)
  {
    b[m.row][m.col]
  }

  /** All three cells of the line hold the same non-empty mark `s`. */
  predicate OwnedBy(b: Board, l: Line, s: Symbol)
    requires WellFormedLine(l)
  {
    var cells := LineCells(l);
    s != Empty && At(b, cells[0]) == s && At(b, cells[1]) == s && At(b, cells[2]) == s
  }

  predicate Complete(b: Board, l: Line)
    requires WellFormedLine(l)
  {
    OwnedBy(b, l, At(b, LineCells(l)[0]))
  }

  predicate AllWellFormed(ls: seq<Line>) {
    forall k | 0 <= k < |ls| :: WellFormedLine(ls[k])
  }

  /** The first complete line of `ls`, if any. */
  function FirstComplete(b: Board, ls: seq<Line>): (r: Option<Line>)
    requires AllWellFormed(ls)
    ensures r.Some? ==> r.value in ls && WellFormedLine(r.value) && Complete(b, r.value)
    ensures r.None? <==> forall k | 0 <= k < |ls| :: !Complete(b, ls[k])
  {
    if ls == [] then None
    else if Complete(b, ls[0]) then Some(ls[0])
    else FirstComplete(b, ls[1..])
  }

  /** Some line of the board, in any direction, is complete. */
  predicate HasCompleteLine(b: Board) {
    exists k | 0 <= k < |ScanOrder| :: Complete(b, ScanOrder[k])
  }

  /** The evaluation described by lines: the mark of the first complete line, else a draw test. */
  function Evaluate(b: Board): (Symbol, bool) {
    OutcomeOf(b, FirstComplete(b, ScanOrder))
  }

  function OutcomeOf(b: Board, r: Option<Line>): (Symbol, bool)
    requires r.Some? ==> WellFormedLine(r.value)
  {
    match r
    case Some(l) => (At(b, LineCells(l)[0]), false)
    case None => (Empty, Full(b))
  }

  lemma FirstCompleteCons(b: Board, l: Line, rest: seq<Line>)
    requires WellFormedLine(l) && AllWellFormed(rest)
    ensures AllWellFormed([l] + rest)
    ensures FirstComplete(b, [l] + rest) == if Complete(b, l) then Some(l) else FirstComplete(b, rest)
  {
    assert ([l] + rest)[1..] == rest;
  }

  lemma {:induction false} ScanFromFollowsScanOrder(b: Board, i: int)
    requires 0 <= i <= 3
    ensures ScanFrom(b, i) == OutcomeOf(b, FirstComplete(b, ScanOrderFrom(i)))
    decreases 3 - i
  {
    if i == 3 {
      FirstCompleteCons(b, AntiDiagonal, []);
      FirstCompleteCons(b, MainDiagonal, [AntiDiagonal]);
      assert ScanOrderFrom(3) == [MainDiagonal] + [AntiDiagonal];
    } else {
      var tail := ScanOrderFrom(i + 1);
      assert ScanOrderFrom(i) == [RowLine(i)] + ([ColumnLine(i)] + tail);
      FirstCompleteCons(b, ColumnLine(i), tail);
      FirstCompleteCons(b, RowLine(i), [ColumnLine(i)] + tail);
      ScanFromFollowsScanOrder(b, i + 1);
    }
  }

  /** CheckWinner agrees with the line-list description, scan order included. */
  lemma CheckWinnerIsFirstCompleteLine(b: Board)
    ensures CheckWinner(b) == Evaluate(b)
  {
    ScanFromFollowsScanOrder(b, 0);
  }

  /** A complete line makes its mark the winner, never with the draw flag. */
  lemma CompleteLineWins(b: Board)
    requires HasCompleteLine(b)
    ensures CheckWinner(b).0 != Empty && !CheckWinner(b).1
    ensures CheckWinner(b).0 == At(b, LineCells(FirstComplete(b, ScanOrder).value)[0])
  {
    CheckWinnerIsFirstCompleteLine(b);
  }

  /** A non-empty winner occupies a complete line of the board. */
  lemma WinnerOwnsALine(b: Board)
    requires CheckWinner(b).0 != Empty
    ensures exists k | 0 <= k < |ScanOrder| :: OwnedBy(b, ScanOrder[k], CheckWinner(b).0)
  {
    CheckWinnerIsFirstCompleteLine(b);
    var l := FirstComplete(b, ScanOrder).value;
    var k :| 0 <= k < |ScanOrder| && ScanOrder[k] == l;
    assert OwnedBy(b, ScanOrder[k], CheckWinner(b).0);
  }

  /** The draw flag is set exactly when no line is complete and the board is full; the winner is then empty. */
  lemma DrawIffFullWithoutLine(b: Board)
    ensures CheckWinner(b).1 <==> !HasCompleteLine(b) && Full(b)
    ensures CheckWinner(b).1 ==> CheckWinner(b).0 == Empty
  {
    CheckWinnerIsFirstCompleteLine(b);
  }

  /** With no complete line and a free cell the game is still open. */
  lemma OpenBoardHasNoOutcome(b: Board)
    requires !HasCompleteLine(b) && !Full(b)
    ensures CheckWinner(b) == (Empty, false)
  {
    CheckWinnerIsFirstCompleteLine(b);
  }

  /** A winner and the draw flag are never reported together. */
  lemma WinnerExcludesDraw(b: Board)
    ensures CheckWinner(b).0 != Empty ==> !CheckWinner(b).1
  {
    CheckWinnerIsFirstCompleteLine(b);
  }

  lemma NewBoardIsOpen()
    ensures CheckWinner(NewBoard()) == (Empty, false)
  {
    assert !Full(NewBoard()) by {
      assert NewBoard()[0][0] == Empty;
    }
  }

  /** The full board X O X / X O O / O X X has no line: a draw. */
  lemma DrawExample()
    ensures CheckWinner([[X, O, X], [X, O, O], [O, X, X]]) == (Empty, true)
  {
  }

  /** X across the top row wins without the draw flag. */
  lemma RowWinExample()
    ensures CheckWinner([[X, X, X], [Empty, Empty, Empty], [Empty, Empty, Empty]]) == (X, false)
  {
  }
}
