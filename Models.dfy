/** The value types of internal/models/types.go. */
module Models {

  /** The mark in one cell: "" (empty), "X" or "O". */
  datatype Symbol = Empty | X | O

  /** A board is exactly three rows of exactly three cells; as a Dafny `seq` it is a value. */
  type Board = b: seq<seq<Symbol>> | IsThreeByThree(b)
    witness [[Empty, Empty, Empty], [Empty, Empty, Empty], [Empty, Empty, Empty]]

  predicate IsThreeByThree(b: seq<seq<Symbol>>) {
    |b| == 3 && |b[0]| == 3 && |b[1]| == 3 && |b[2]| == 3
  }

  /** A cell coordinate; the Go code uses a `[2]int` of row and column. */
  datatype Move = Move(row: int, col: int)

  datatype Player = Player(id: string, name: string)

  datatype GameMode = PVP | PVC

  datatype GameStatus = WaitingForPlayer | InProgress | Finished

  /** The `Winner` string of a game: "" (no winner yet), "X", "O" or "DRAW". */
  datatype Winner = NoWinner | WinnerX | WinnerO | Draw

  /** Timestamps are supplied by the caller; the model never reads a clock. */
  type Time = int

  datatype GameState = GameState(
    id: string,
    mode: GameMode,
    board: Board,
    playerXID: string,
    playerOID: string,
    currentTurn: Symbol,
    status: GameStatus,
    winner: Winner,
    createdAt: Time,
    updatedAt: Time)

  datatype GameSummary = GameSummary(
    id: string,
    mode: GameMode,
    status: GameStatus,
    createdAt: Time,
    createdByPlayerID: string,
    createdByPlayerName: string)

  /** The wire strings of the enumerations, against which unchecked input is compared. */
  function ModeName(m: GameMode): (s: string)
    ensures s == "PVP" <==> m == PVP
    ensures s == "PVC" <==> m == PVC
  {
    match m
    case PVP => "PVP"
    case PVC => "PVC"
  }

  function StatusName(st: GameStatus): (s: string)
    ensures s == "WAITING_FOR_PLAYER" <==> st == WaitingForPlayer
    ensures s == "IN_PROGRESS" <==> st == InProgress
    ensures s == "FINISHED" <==> st == Finished
  {
    match st
    case WaitingForPlayer => "WAITING_FOR_PLAYER"
    case InProgress => "IN_PROGRESS"
    case Finished => "FINISHED"
  }

  /** The winner string that `string(symbol)` produces: "" for the empty symbol. */
  function WinnerOf(s: Symbol): (w: Winner)
    ensures w == NoWinner <==> s == Empty
    ensures w == WinnerX <==> s == X
    ensures w == WinnerO <==> s == O
    ensures w != Draw
  {
    match s
    case X => WinnerX
    case O => WinnerO
    case Empty => NoWinner
  }
}
