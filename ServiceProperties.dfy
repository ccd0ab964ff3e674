/**
  Properties of the session state machine of internal/service/game_service.go:
  the order of the rejection checks, the effect of each accepted operation,
  and an invariant of every stored game that every operation preserves.
 */
module ServiceProperties {
  import opened Wrappers
  import opened Errors
  import opened Models
  import opened GameBoard
  import opened GameRules
  import opened Ai
  import opened Store
  import opened Service

  // ---------------------------------------------------------------------------
  // CreateGame

  /** The creator is checked before the mode; a supported mode always succeeds. */
  lemma CreateGameErrors(players: map<string, Player>, creatorID: string, mode: string, id: string, now: Time)
    ensures var r := CreateSpec(players, creatorID, mode, id, now);
            && (creatorID !in players ==> r == Failure(ErrPlayerNotFound))
            && (creatorID in players && mode != "PVP" && mode != "PVC" ==> r == Failure(ErrInvalidGameMode))
            && (creatorID in players && (mode == "PVP" || mode == "PVC") ==> r.Success?)
  {
  }

  /**
    A new game has the requested id, mode and timestamp, an empty board, the
    creator on X, X to move and no winner; PVP waits for its second player,
    PVC starts in progress with the computer on O.
   */
  lemma NewGameShape(players: map<string, Player>, creatorID: string, mode: string, id: string, now: Time)
    requires CreateSpec(players, creatorID, mode, id, now).Success?
    ensures var g := CreateSpec(players, creatorID, mode, id, now).value;
            && g.id == id && ModeName(g.mode) == mode
            && (forall r, c | InBounds(r, c) :: g.board[r][c] == Empty)
            && g.playerXID == creatorID && g.currentTurn == X && g.winner == NoWinner
            && g.createdAt == now && g.updatedAt == now
            && (g.mode == PVP ==> g.status == WaitingForPlayer && g.playerOID == "")
            && (g.mode == PVC ==> g.status == InProgress && g.playerOID == AIPlayerID)
  {
  }

  // ---------------------------------------------------------------------------
  // JoinGame

  /** Unknown player first, then unknown game, then anything but a waiting PVP game. */
  lemma JoinGameErrors(players: map<string, Player>, games: map<string, GameState>, gameID: string,
                       playerID: string, now: Time)
    ensures var r := JoinSpec(players, games, gameID, playerID, now);
            && (playerID !in players ==> r == Failure(ErrPlayerNotFound))
            && (playerID in players && gameID !in games ==> r == Failure(ErrGameNotFound))
            && ((playerID in players && gameID in games
                  && (games[gameID].mode != PVP || games[gameID].status != WaitingForPlayer))
                  ==> r == Failure(ErrInvalidGameState))
            && ((playerID in players && gameID in games
                  && games[gameID].mode == PVP && games[gameID].status == WaitingForPlayer) ==> r.Success?)
  {
  }

  /** A successful join seats the joiner on O and starts the game with X to move; nothing else changes. */
  lemma JoinGameEffect(players: map<string, Player>, games: map<string, GameState>, gameID: string,
                       playerID: string, now: Time)
    requires JoinSpec(players, games, gameID, playerID, now).Success?
    ensures var g := games[gameID];
            var g' := JoinSpec(players, games, gameID, playerID, now).value;
            && g.mode == PVP && g.status == WaitingForPlayer
            && g' == g.(playerOID := playerID, status := InProgress, currentTurn := X, updatedAt := now)
  {
  }

  // ---------------------------------------------------------------------------
  // MakeMove: rejections

  /**
    The checks in order: unknown game, not in progress, not a participant,
    not the player's turn, illegal cell.  A move passing all five is accepted.
   */
  lemma MakeMoveErrors(games: map<string, GameState>, gameID: string, playerID: string, row: int, col: int,
                       aiMove: Move, now: Time)
    ensures var r := MoveSpec(games, gameID, playerID, row, col, aiMove, now);
            && (gameID !in games ==> r == Failure(ErrGameNotFound))
            && (gameID in games ==>
                  var g := games[gameID];
                  var seat := SeatOf(g, playerID);
                  && (g.status != InProgress ==> r == Failure(ErrInvalidGameState))
                  && ((g.status == InProgress && playerID != g.playerXID && playerID != g.playerOID)
                        ==> r == Failure(ErrNotParticipant))
                  && ((g.status == InProgress && seat.Some? && g.currentTurn != seat.value.0)
                        ==> r == Failure(ErrNotPlayersTurn))
                  && ((g.status == InProgress && seat.Some? && g.currentTurn == seat.value.0
                        && !IsValidMove(g.board, row, col)) ==> r == Failure(ErrInvalidMove))
                  && ((g.status == InProgress && seat.Some? && g.currentTurn == seat.value.0
                        && IsValidMove(g.board, row, col)) ==> r.Success?))
  {
  }

  /** A finished game rejects every move, whoever plays and wherever. */
  lemma FinishedGameRejectsMoves(games: map<string, GameState>, gameID: string, playerID: string,
                                 row: int, col: int, aiMove: Move, now: Time)
    requires gameID in games && games[gameID].status == Finished
    ensures MoveSpec(games, gameID, playerID, row, col, aiMove, now) == Failure(ErrInvalidGameState)
  {
  }

  // ---------------------------------------------------------------------------
  // MakeMove: accepted moves

  /** The record after the human move and before any reply, with the mover's symbol. */
  function AfterHuman(games: map<string, GameState>, gameID: string, playerID: string, row: int, col: int)
    : (GameState, Symbol, Symbol)
    requires gameID in games && HumanMove(games[gameID], playerID, row, col).Success?
  {
    HumanMove(games[gameID], playerID, row, col).value
  }

  /**
    After an accepted human move the mover's symbol is on the target cell; a
    line makes the game FINISHED with that winner, a full board makes it a
    draw, otherwise the turn passes to the opposite symbol.
   */
  lemma HumanMoveOutcome(g: GameState, playerID: string, row: int, col: int)
    requires HumanMove(g, playerID, row, col).Success?
    ensures var (g1, symbol, opponent) := HumanMove(g, playerID, row, col).value;
            var (winner, isDraw) := CheckWinner(g1.board);
            && symbol != Empty && symbol == g.currentTurn && opponent == OppositeSymbol(symbol)
            && IsValidMove(g.board, row, col)
            && g1.board == ApplyMove(g.board, row, col, symbol).0
            && g1.board[row][col] == symbol
            && (winner != Empty ==> g1.status == Finished && g1.winner == WinnerOf(winner))
            && (winner == Empty && isDraw ==> g1.status == Finished && g1.winner == Draw)
            && (winner == Empty && !isDraw ==> g1.status == InProgress && g1.currentTurn == opponent)
            && g1.id == g.id && g1.mode == g.mode && g1.playerXID == g.playerXID && g1.playerOID == g.playerOID
  {
  }

  /**
    Settling a record against the line-list description of the board: the
    first complete line in scan order finishes the game with its mark as the
    winner, a full board without one finishes it as a draw, and otherwise only
    the turn passes to `next`. No other field changes.
   */
  lemma SettleRecordsOutcome(g: GameState, next: Symbol)
    ensures var r := Settle(g, next);
            var l := FirstComplete(g.board, ScanOrder);
            && r.board == g.board && r.id == g.id && r.mode == g.mode
            && r.playerXID == g.playerXID && r.playerOID == g.playerOID
            && r.createdAt == g.createdAt && r.updatedAt == g.updatedAt
            && (l.Some? ==> r.status == Finished && r.currentTurn == g.currentTurn
                            && r.winner == WinnerOf(At(g.board, LineCells(l.value)[0])) && r.winner != NoWinner)
            && (l.None? && Full(g.board) ==> r.status == Finished && r.winner == Draw && r.currentTurn == g.currentTurn)
            && (l.None? && !Full(g.board) ==> r.status == g.status && r.winner == g.winner && r.currentTurn == next)
  {
    CheckWinnerIsFirstCompleteLine(g.board);
  }

  /** In PVP the reply is never consulted: the mover's mark is placed and no other cell changes. */
  lemma PvpMoveChangesOneCell(games: map<string, GameState>, gameID: string, playerID: string,
                              row: int, col: int, aiMove: Move, now: Time)
    requires gameID in games && games[gameID].mode == PVP
    requires MoveSpec(games, gameID, playerID, row, col, aiMove, now).Success?
    ensures var g := games[gameID];
            var g' := MoveSpec(games, gameID, playerID, row, col, aiMove, now).value;
            && g'.board[row][col] == g.currentTurn
            && forall i, j | InBounds(i, j) && (i != row || j != col) :: g'.board[i][j] == g.board[i][j]
  {
  }

  /** Turn alternation in PVP: after an accepted move that does not end the game, the other symbol is on turn. */
  lemma PvpTurnAlternates(games: map<string, GameState>, gameID: string, playerID: string,
                          row: int, col: int, aiMove: Move, now: Time)
    requires gameID in games && games[gameID].mode == PVP
    requires MoveSpec(games, gameID, playerID, row, col, aiMove, now).Success?
    requires MoveSpec(games, gameID, playerID, row, col, aiMove, now).value.status == InProgress
    ensures var turn := games[gameID].currentTurn;
            && turn != Empty
            && MoveSpec(games, gameID, playerID, row, col, aiMove, now).value.currentTurn == OppositeSymbol(turn)
  {
  }

  /** With no complete line reported and the draw flag clear, some cell is still free. */
  lemma OpenBoardHasFreeCell(b: Board)
    requires CheckWinner(b) == (Empty, false)
    ensures !Full(b)
  {
    DrawIffFullWithoutLine(b);
    if HasCompleteLine(b) {
      CompleteLineWins(b);
    }
  }

  /**
    In PVC the computer's reply is folded into the same call: when the human
    move leaves the game open, the reply is applied (it is legal) and the
    game either ends or the turn returns to the human.
   */
  lemma PvcReplyNotPending(games: map<string, GameState>, gameID: string, playerID: string,
                           row: int, col: int, aiMove: Move, now: Time)
    requires gameID in games && games[gameID].mode == PVC
    requires ReplyAllowed(games, gameID, playerID, row, col, aiMove)
    requires MoveSpec(games, gameID, playerID, row, col, aiMove, now).Success?
    ensures var g' := MoveSpec(games, gameID, playerID, row, col, aiMove, now).value;
            g'.status == Finished || g'.currentTurn == games[gameID].currentTurn
  {
    var (g1, symbol, opponent) := AfterHuman(games, gameID, playerID, row, col);
    HumanMoveOutcome(games[gameID], playerID, row, col);
    if g1.status == InProgress {
      assert AiToMove(g1, opponent);
      OpenBoardHasFreeCell(g1.board);
      ChoiceIsLegal(g1.board, opponent, symbol, aiMove);
    }
  }

  /** An illegal computer reply is skipped: the record keeps the human move's result, O still on turn. */
  lemma IllegalReplySkipped(g: GameState, symbol: Symbol, opponent: Symbol, m: Move)
    requires !IsValidMove(g.board, m.row, m.col)
    ensures AiReply(g, symbol, opponent, m) == g
  {
  }

  /**
    An accepted move only ever goes from IN_PROGRESS to IN_PROGRESS or
    FINISHED and keeps the id, mode, seats and creation time.
   */
  lemma MoveStatusTransition(games: map<string, GameState>, gameID: string, playerID: string,
                             row: int, col: int, aiMove: Move, now: Time)
    requires MoveSpec(games, gameID, playerID, row, col, aiMove, now).Success?
    ensures var g := games[gameID];
            var g' := MoveSpec(games, gameID, playerID, row, col, aiMove, now).value;
            && g.status == InProgress && g'.status != WaitingForPlayer
            && g'.id == g.id && g'.mode == g.mode && g'.playerXID == g.playerXID && g'.playerOID == g.playerOID
            && g'.createdAt == g.createdAt && g'.updatedAt == now
  {
  }

  // ---------------------------------------------------------------------------
  // The invariant of a stored game.

  function CountInRow(row: seq<Symbol>, s: Symbol): nat
    requires |row| == 3
  {
    (if row[0] == s then 1 else 0) + (if row[1] == s then 1 else 0) + (if row[2] == s then 1 else 0)
  }

  /** The number of cells holding `s`. */
  function Count(b: Board, s: Symbol): nat {
    CountInRow(b[0], s) + CountInRow(b[1], s) + CountInRow(b[2], s)
  }

  /** The winner string a board calls for. */
  function Outcome(b: Board): Winner {
    var (winner, isDraw) := CheckWinner(b);
    if winner != Empty then WinnerOf(winner) else if isDraw then Draw else NoWinner
  }

  /** Every complete line of the board carries the same mark. */
  predicate SingleWinningMark(b: Board) {
    forall i, j | 0 <= i < |ScanOrder| && 0 <= j < |ScanOrder| && Complete(b, ScanOrder[i]) && Complete(b, ScanOrder[j])
      :: At(b, LineCells(ScanOrder[i])[0]) == At(b, LineCells(ScanOrder[j])[0])
  }

  /** The invariant of a game record, except that the PVC turn may rest on the computer. */
  predicate Consistent(g: GameState) {
    var xs, os := Count(g.board, X), Count(g.board, O);
    && os <= xs <= os + 1
    && (g.mode == PVC ==> g.playerOID == AIPlayerID && g.status != WaitingForPlayer)
    && (g.status == WaitingForPlayer ==> g.board == NewBoard() && g.currentTurn == X && g.winner == NoWinner)
    && (g.status == InProgress ==>
          && g.winner == NoWinner && CheckWinner(g.board) == (Empty, false)
          && (g.currentTurn == X || g.currentTurn == O)
          && (g.currentTurn == X ==> xs == os)
          && (g.currentTurn == O ==> xs == os + 1))
    && (g.status == Finished ==> g.winner != NoWinner && g.winner == Outcome(g.board) && SingleWinningMark(g.board))
  }

  /** The invariant of a stored game; in PVC mode an open game always waits for the human on X. */
  predicate WellFormed(g: GameState) {
    Consistent(g) && (g.mode == PVC && g.status == InProgress ==> g.currentTurn == X)
  }

  predicate AllGamesWellFormed(games: map<string, GameState>) {
    forall id | id in games :: WellFormed(games[id])
  }

  /** Placing a mark on an empty cell adds one to its count and leaves the other marks' counts alone. */
  lemma CountAfterMove(b: Board, row: int, col: int, s: Symbol, t: Symbol)
    requires IsValidMove(b, row, col) && s != Empty && t != Empty
    ensures Count(ApplyMove(b, row, col, s).0, t) == Count(b, t) + (if t == s then 1 else 0)
  {
    var b' := ApplyMove(b, row, col, s).0;
    assert forall i | 0 <= i < 3 && i != row :: b'[i] == b[i];
    assert b'[row] == b[row][col := s];
  }

  /** On a board without a complete line, every line a move completes carries the mover's mark. */
  lemma NewLinesBelongToMover(b: Board, row: int, col: int, s: Symbol)
    requires IsValidMove(b, row, col) && s != Empty && !HasCompleteLine(b)
    ensures var b' := ApplyMove(b, row, col, s).0;
            forall k | 0 <= k < |ScanOrder| && Complete(b', ScanOrder[k]) :: At(b', LineCells(ScanOrder[k])[0]) == s
  {
    var b' := ApplyMove(b, row, col, s).0;
    forall k | 0 <= k < |ScanOrder| && Complete(b', ScanOrder[k])
      ensures At(b', LineCells(ScanOrder[k])[0]) == s
    {
      assert !Complete(b, ScanOrder[k]);
    }
  }

  /**
    The mover on turn places its mark on a legal cell of an open, consistent
    game and the result is settled with the other symbol next: the result is
    consistent again, and if still open the other symbol is on turn.
   */
  lemma PlaceAndSettle(g: GameState, row: int, col: int)
    requires Consistent(g) && g.status == InProgress && IsValidMove(g.board, row, col)
    ensures var g' := Settle(g.(board := ApplyMove(g.board, row, col, g.currentTurn).0), OppositeSymbol(g.currentTurn));
            Consistent(g') && (g'.status == InProgress ==> g'.currentTurn == OppositeSymbol(g.currentTurn))
  {
    var s := g.currentTurn;
    var b' := ApplyMove(g.board, row, col, s).0;
    var g' := Settle(g.(board := b'), OppositeSymbol(s));
    CountAfterMove(g.board, row, col, s, X);
    CountAfterMove(g.board, row, col, s, O);
    if g'.status == Finished {
      assert !HasCompleteLine(g.board) by {
        if HasCompleteLine(g.board) {
          CompleteLineWins(g.board);
        }
      }
      MoverOwnsEveryLine(g.board, row, col, s);
      assert g'.winner == Outcome(b');
    } else {
      assert g' == g.(board := b', currentTurn := OppositeSymbol(s));
    }
  }

  /** After a move on a board without a complete line, all complete lines carry one mark. */
  lemma MoverOwnsEveryLine(b: Board, row: int, col: int, s: Symbol)
    requires IsValidMove(b, row, col) && s != Empty && !HasCompleteLine(b)
    ensures SingleWinningMark(ApplyMove(b, row, col, s).0)
  {
    NewLinesBelongToMover(b, row, col, s);
  }

  /** A created game is well formed, so storing it keeps every stored game well formed. */
  lemma CreatePreservesWellFormed(players: map<string, Player>, games: map<string, GameState>, creatorID: string,
                                  mode: string, id: string, now: Time)
    requires CreateSpec(players, creatorID, mode, id, now).Success?
    ensures WellFormed(CreateSpec(players, creatorID, mode, id, now).value)
    ensures AllGamesWellFormed(games) ==> AllGamesWellFormed(games[id := CreateSpec(players, creatorID, mode, id, now).value])
  {
    var g := CreateSpec(players, creatorID, mode, id, now).value;
    NewBoardIsOpen();
    assert Count(g.board, X) == 0 && Count(g.board, O) == 0;
  }

  lemma JoinPreservesWellFormed(players: map<string, Player>, games: map<string, GameState>, gameID: string,
                                playerID: string, now: Time)
    requires gameID in games && WellFormed(games[gameID])
    requires JoinSpec(players, games, gameID, playerID, now).Success?
    ensures WellFormed(JoinSpec(players, games, gameID, playerID, now).value)
    ensures AllGamesWellFormed(games) ==> AllGamesWellFormed(games[gameID := JoinSpec(players, games, gameID, playerID, now).value])
  {
    NewBoardIsOpen();
    assert Count(NewBoard(), X) == 0 && Count(NewBoard(), O) == 0;
  }

  lemma MovePreservesWellFormed(games: map<string, GameState>, gameID: string, playerID: string,
                                row: int, col: int, aiMove: Move, now: Time)
    requires gameID in games && WellFormed(games[gameID])
    requires ReplyAllowed(games, gameID, playerID, row, col, aiMove)
    requires MoveSpec(games, gameID, playerID, row, col, aiMove, now).Success?
    ensures WellFormed(MoveSpec(games, gameID, playerID, row, col, aiMove, now).value)
    ensures AllGamesWellFormed(games) ==> AllGamesWellFormed(games[gameID := MoveSpec(games, gameID, playerID, row, col, aiMove, now).value])
  {
    var r := MoveSpec(games, gameID, playerID, row, col, aiMove, now).value;
    assert WellFormed(r) by {
      var g := games[gameID];
      var (g1, symbol, opponent) := AfterHuman(games, gameID, playerID, row, col);
      HumanMoveOutcome(g, playerID, row, col);
      PlaceAndSettle(g, row, col);
      assert Consistent(g1);
      if AiToMove(g1, opponent) {
        OpenBoardHasFreeCell(g1.board);
        ChoiceIsLegal(g1.board, opponent, symbol, aiMove);
        assert g1.currentTurn == opponent && OppositeSymbol(opponent) == symbol;
        PlaceAndSettle(g1, aiMove.row, aiMove.col);
        PvcReplyNotPending(games, gameID, playerID, row, col, aiMove, now);
      } else if g1.mode == PVC {
        assert g1.status == Finished;
      }
    }
  }
}
