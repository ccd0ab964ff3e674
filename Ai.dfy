/** The move heuristic of internal/ai/ai.go: win, else block, else centre, else any free cell. */
module Ai {
  import opened Models
  import opened GameBoard
  import opened GameRules

  /** Placing `s` on `m` (a trial move on a copy of the board) makes `s` the winner. */
  predicate WinsWith(b: Board, m: Move, s: Symbol) {
    CheckWinner(ApplyMove(b, m.row, m.col, s).0).0 == s
  }

  /** A trial move wins for a real mark exactly when the first complete line of the trial board, in scan order, is that mark's. */
  lemma WinsWithFirstLine(b: Board, m: Move, s: Symbol)
    requires s != Empty
    ensures var b' := ApplyMove(b, m.row, m.col, s).0;
            var l := FirstComplete(b', ScanOrder);
            WinsWith(b, m, s) <==> l.Some? && At(b', LineCells(l.value)[0]) == s
  {
    CheckWinnerIsFirstCompleteLine(ApplyMove(b, m.row, m.col, s).0);
  }

  /** The index of the first move of `moves` that wins for `s`, or |moves| when none does. */
  function FirstWinningIndex(b: Board, moves: seq<Move>, s: Symbol): (k: int)
    ensures 0 <= k <= |moves|
    ensures forall j | 0 <= j < k :: !WinsWith(b, moves[j], s)
    ensures k < |moves| ==> WinsWith(b, moves[k], s)
  {
    if moves == [] then 0
    else if WinsWith(b, moves[0], s) then 0
    else 1 + FirstWinningIndex(b, moves[1..], s)
  }

  /**
    The moves ChooseMove may return: the first winning free cell for the AI,
    else the first winning free cell for the opponent, else the centre, else
    (-1, -1) on a full board, else any free cell.
   */
  predicate ChoiceAllowed(b: Board, aiSymbol: Symbol, opponentSymbol: Symbol, m: Move) {
    var free := FreeCells(b);
    var win := FirstWinningIndex(b, free, aiSymbol);
    var block := FirstWinningIndex(b, free, opponentSymbol);
    if win < |free| then m == free[win]
    else if block < |free| then m == free[block]
    else if IsValidMove(b, 1, 1) then m == Move(1, 1)
    else if free == [] then m == Move(-1, -1)
    else m in free
  }

  /** Scans the moves in order for one that wins for `s`. */
  method FindWinningMove(b: Board, moves: seq<Move>, s: Symbol) returns (k: int)
    ensures k == FirstWinningIndex(b, moves, s)
  {
    for i := 0 to |moves|
      invariant i <= FirstWinningIndex(b, moves, s)
    {
      // Try the move on a copy of the board and see whether it wins.
      if WinsWith(b, moves[i], s) {
        return i;
      }
    }
    return |moves|;
  }

  /** A move that wins after a prefix of non-winning moves is the first winning one. */
  lemma FirstWinningIndexAt(b: Board, moves: seq<Move>, s: Symbol, i: int)
    requires 0 <= i <= |moves|
    requires forall j | 0 <= j < i :: !WinsWith(b, moves[j], s)
    requires i < |moves| ==> WinsWith(b, moves[i], s)
    ensures FirstWinningIndex(b, moves, s) == i
  {
  }

  /** Picks the AI's next move; the random fallback is a free choice among the free cells. */
  method ChooseMove(b: Board, aiSymbol: Symbol, opponentSymbol: Symbol) returns (row: int, col: int)
    ensures ChoiceAllowed(b, aiSymbol, opponentSymbol, Move(row, col))
  {
    // 1. Try to win.
    var moves := AvailableMoves(b);
    var win := FindWinningMove(b, moves, aiSymbol);
    if win < |moves| {
      return moves[win].row, moves[win].col;
    }
    // 2. Block the opponent's winning move.
    moves := AvailableMoves(b);
    var block := FindWinningMove(b, moves, opponentSymbol);
    if block < |moves| {
      return moves[block].row, moves[block].col;
    }
    // 3. Take the centre if free.
    if IsValidMove(b, 1, 1) {
      return 1, 1;
    }
    // 4. Any free cell.
    moves := AvailableMoves(b);
    if |moves| == 0 {
      return -1, -1;
    }
    var choice :| 0 <= choice < |moves|;
    return moves[choice].row, moves[choice].col;
  }

  /** Whenever the board has a free cell, the chosen move is legal. */
  lemma ChoiceIsLegal(b: Board, aiSymbol: Symbol, opponentSymbol: Symbol, m: Move)
    requires ChoiceAllowed(b, aiSymbol, opponentSymbol, m)
    requires !Full(b)
    ensures IsValidMove(b, m.row, m.col)
  {
    var free := FreeCells(b);
    FreeCellsEmptyIffFull(b);
    assert m in free || m == Move(1, 1);
    FreeCellsMembers(b, m);
  }

  /** On a full board the only choice is (-1, -1). */
  lemma ChoiceOnFullBoard(b: Board, aiSymbol: Symbol, opponentSymbol: Symbol, m: Move)
    requires Full(b)
    ensures ChoiceAllowed(b, aiSymbol, opponentSymbol, m) <==> m == Move(-1, -1)
  {
    FreeCellsEmptyIffFull(b);
  }

  /**
    The first winning free cell in row-major order: the legal move that wins
    for `s` with the smallest row-major rank.
   */
  ghost predicate FirstWinningCell(b: Board, m: Move, s: Symbol) {
    && IsValidMove(b, m.row, m.col)
    && WinsWith(b, m, s)
    && forall m': Move | IsValidMove(b, m'.row, m'.col) && WinsWith(b, m', s) :: Rank(m) <= Rank(m')
  }

  lemma FirstWinningIndexIsFirstCell(b: Board, s: Symbol)
    ensures var free := FreeCells(b);
            var k := FirstWinningIndex(b, free, s);
            (k < |free| ==> FirstWinningCell(b, free[k], s))
            && (k == |free| ==> forall m: Move | IsValidMove(b, m.row, m.col) :: !WinsWith(b, m, s))
  {
    var free := FreeCells(b);
    var k := FirstWinningIndex(b, free, s);
    forall m: Move | IsValidMove(b, m.row, m.col) && WinsWith(b, m, s)
      ensures k < |free| && Rank(free[k]) <= Rank(m)
    {
      FirstWinningIndexRanksFirst(b, s, m);
    }
    if k < |free| {
      FreeCellsMembers(b, free[k]);
    }
  }

  /** Every legal winning cell is found by the scan, at or after the cell it returns. */
  lemma FirstWinningIndexRanksFirst(b: Board, s: Symbol, m: Move)
    requires IsValidMove(b, m.row, m.col) && WinsWith(b, m, s)
    ensures var free := FreeCells(b);
            var k := FirstWinningIndex(b, free, s);
            k < |free| && Rank(free[k]) <= Rank(m)
  {
    var free := FreeCells(b);
    var k := FirstWinningIndex(b, free, s);
    FreeCellsMembers(b, m);
    var j :| 0 <= j < |free| && free[j] == m;
    assert k <= j;
    if k < j {
      FreeCellsRowMajor(b);
      assert Rank(free[k]) < Rank(free[j]);
    }
  }

  /** If some free cell wins for the AI, the choice is the first such cell. */
  lemma ChoiceTakesWin(b: Board, aiSymbol: Symbol, opponentSymbol: Symbol, m: Move)
    requires exists w: Move | IsValidMove(b, w.row, w.col) :: WinsWith(b, w, aiSymbol)
    ensures ChoiceAllowed(b, aiSymbol, opponentSymbol, m) <==> FirstWinningCell(b, m, aiSymbol)
  {
    FirstWinningIndexIsFirstCell(b, aiSymbol);
    var free := FreeCells(b);
    var k := FirstWinningIndex(b, free, aiSymbol);
    if FirstWinningCell(b, m, aiSymbol) {
      assert Rank(m) == Rank(free[k]);
      FirstCellUnique(b, m, free[k], aiSymbol);
    }
  }

  /** If no free cell wins for the AI but one wins for the opponent, the choice blocks the first such cell. */
  lemma ChoiceBlocks(b: Board, aiSymbol: Symbol, opponentSymbol: Symbol, m: Move)
    requires forall w: Move | IsValidMove(b, w.row, w.col) :: !WinsWith(b, w, aiSymbol)
    requires exists w: Move | IsValidMove(b, w.row, w.col) :: WinsWith(b, w, opponentSymbol)
    ensures ChoiceAllowed(b, aiSymbol, opponentSymbol, m) <==> FirstWinningCell(b, m, opponentSymbol)
  {
    FirstWinningIndexIsFirstCell(b, aiSymbol);
    FirstWinningIndexIsFirstCell(b, opponentSymbol);
    var free := FreeCells(b);
    var w := FirstWinningIndex(b, free, aiSymbol);
    var k := FirstWinningIndex(b, free, opponentSymbol);
    if FirstWinningCell(b, m, opponentSymbol) {
      FirstCellUnique(b, m, free[k], opponentSymbol);
    }
  }

  /** With no winning cell for either side and a free centre, the choice is the centre. */
  lemma ChoiceTakesCentre(b: Board, aiSymbol: Symbol, opponentSymbol: Symbol, m: Move)
    requires forall w: Move | IsValidMove(b, w.row, w.col) :: !WinsWith(b, w, aiSymbol)
    requires forall w: Move | IsValidMove(b, w.row, w.col) :: !WinsWith(b, w, opponentSymbol)
    requires IsValidMove(b, 1, 1)
    ensures ChoiceAllowed(b, aiSymbol, opponentSymbol, m) <==> m == Move(1, 1)
  {
    FirstWinningIndexIsFirstCell(b, aiSymbol);
    FirstWinningIndexIsFirstCell(b, opponentSymbol);
    var free := FreeCells(b);
    var w := FirstWinningIndex(b, free, aiSymbol);
    var k := FirstWinningIndex(b, free, opponentSymbol);
  }

  lemma FirstCellUnique(b: Board, m1: Move, m2: Move, s: Symbol)
    requires FirstWinningCell(b, m1, s) && FirstWinningCell(b, m2, s)
    ensures m1 == m2
  {
    assert Rank(m1) == Rank(m2);
  }

  // The scenarios of the package's unit tests.

  /** X X _ on the top row: X completes it at (0, 2). */
  lemma TakesWinningMoveExample(m: Move)
    ensures ChoiceAllowed([[X, X, Empty], [Empty, Empty, Empty], [Empty, Empty, Empty]], X, O, m)
            <==> m == Move(0, 2)
  {
    var b: Board := [[X, X, Empty], [Empty, Empty, Empty], [Empty, Empty, Empty]];
    assert FreeCells(b)[0] == Move(0, 2);
    assert WinsWith(b, Move(0, 2), X);
  }

  /** X on (0, 0) and (1, 0): O blocks the column at (2, 0). */
  lemma BlocksOpponentExample(m: Move)
    ensures ChoiceAllowed(ColumnThreat(), O, X, m) <==> m == Move(2, 0)
  {
    var b := ColumnThreat();
    var free := FreeCells(b);
    ColumnThreatFreeCells();
    forall j | 0 <= j < |free|
      ensures !WinsWith(b, free[j], O)
    {
      ColumnThreatNoWinForO(j);
    }
    FirstWinningIndexAt(b, free, O, |free|);
    forall j | 0 <= j < 4
      ensures !WinsWith(b, free[j], X)
    {
      ColumnThreatNoEarlierWinForX(j);
    }
    assert WinsWith(b, free[4], X);
    FirstWinningIndexAt(b, free, X, 4);
  }

  function ColumnThreat(): Board {
    [[X, Empty, Empty], [X, Empty, Empty], [Empty, Empty, Empty]]
  }

  lemma ColumnThreatFreeCells()
    ensures FreeCells(ColumnThreat())
            == [Move(0, 1), Move(0, 2), Move(1, 1), Move(1, 2), Move(2, 0), Move(2, 1), Move(2, 2)]
  {
  }

  lemma ColumnThreatNoWinForO(j: int)
    requires 0 <= j < 7
    ensures !WinsWith(ColumnThreat(), [Move(0, 1), Move(0, 2), Move(1, 1), Move(1, 2), Move(2, 0), Move(2, 1), Move(2, 2)][j], O)
  {
  }

  lemma ColumnThreatNoEarlierWinForX(j: int)
    requires 0 <= j < 4
    ensures !WinsWith(ColumnThreat(), [Move(0, 1), Move(0, 2), Move(1, 1), Move(1, 2)][j], X)
  {
  }

  /** On the empty board the centre is taken. */
  lemma TakesCentreExample(m: Move)
    ensures ChoiceAllowed(NewBoard(), X, O, m) <==> m == Move(1, 1)
  {
    var b := NewBoard();
    NewBoardIsOpen();
    ChoiceTakesCentre(b, X, O, m);
  }
}
