/** The session state machine of internal/service/game_service.go. */
module Service {
  import opened Wrappers
  import opened Errors
  import opened Models
  import opened GameBoard
  import opened GameRules
  import opened Ai
  import opened Store

  /** The player id that stands for the computer seat of a PVC game. */
  const AIPlayerID: string := "AI"

  // ---------------------------------------------------------------------------
  // Specification of each operation as a function of the store contents.

  /** The supported mode called `mode`, if any. */
  function ParseMode(mode: string): (r: Option<GameMode>)
    ensures r.Some? <==> mode == "PVP" || mode == "PVC"
    ensures r.Some? ==> ModeName(r.value) == mode
  {
    if mode == "PVP" then Some(PVP) else if mode == "PVC" then Some(PVC) else None
  }

  /** The record of a freshly created game. */
  function NewGame(id: string, creatorID: string, mode: GameMode, now: Time): GameState {
    GameState(id, mode, NewBoard(), creatorID, if mode == PVC then AIPlayerID else "", X,
              if mode == PVP then WaitingForPlayer else InProgress, NoWinner, now, now)
  }

  /** CreateGame: the creator must be a known player, then the mode must be supported. */
  function CreateSpec(players: map<string, Player>, creatorID: string, mode: string, id: string, now: Time)
    : Result<GameState, Error>
  {
    if creatorID !in players then Failure(ErrPlayerNotFound)
    else match ParseMode(mode)
      case None => Failure(ErrInvalidGameMode)
      case Some(m) => Success(NewGame(id, creatorID, m, now))
  }

  /** JoinGame: known player, then known game, then a PVP game still waiting for its second player. */
  function JoinSpec(players: map<string, Player>, games: map<string, GameState>, gameID: string,
                    playerID: string, now: Time): Result<GameState, Error>
  {
    if playerID !in players then Failure(ErrPlayerNotFound)
    else if gameID !in games then Failure(ErrGameNotFound)
    else
      var g := games[gameID];
      if g.mode != PVP || g.status != WaitingForPlayer then Failure(ErrInvalidGameState)
      else Success(g.(playerOID := playerID, status := InProgress, currentTurn := X, updatedAt := now))
  }

  /** The seat of a player as (own symbol, opponent symbol); the X seat is checked first. */
  function SeatOf(g: GameState, playerID: string): Option<(Symbol, Symbol)> {
    if playerID == g.playerXID then Some((X, O))
    else if playerID == g.playerOID then Some((O, X))
    else None
  }

  /** Records a win or a draw on the board, or else hands the turn to `next`. */
  function Settle(g: GameState, next: Symbol): GameState {
    var (winner, isDraw) := CheckWinner(g.board);
    if winner != Empty then g.(status := Finished, winner := WinnerOf(winner))
    else if isDraw then g.(status := Finished, winner := Draw)
    else g.(currentTurn := next)
  }

  /**
    The checks of MakeMove after the lookup, in their order, and the human's
    move: the record after that move with the mover's and the opponent's symbols.
   */
  function HumanMove(g: GameState, playerID: string, row: int, col: int): Result<(GameState, Symbol, Symbol), Error> {
    if g.status != InProgress then Failure(ErrInvalidGameState)
    else match SeatOf(g, playerID)
      case None => Failure(ErrNotParticipant)
      case Some((symbol, opponent)) =>
        if g.currentTurn != symbol then Failure(ErrNotPlayersTurn)
        else if !IsValidMove(g.board, row, col) then Failure(ErrInvalidMove)
        else
          var moved := g.(board := ApplyMove(g.board, row, col, symbol).0);
          Success((Settle(moved, OppositeSymbol(symbol)), symbol, opponent))
  }

  /** The computer plays next: a PVC game still in progress with the opponent on turn. */
  predicate AiToMove(g: GameState, opponent: Symbol) {
    g.mode == PVC && g.status == InProgress && g.currentTurn == opponent
  }

  /** The computer's reply `m`; an illegal reply is dropped and the record stays as it was. */
  function AiReply(g: GameState, symbol: Symbol, opponent: Symbol, m: Move): GameState {
    var (aiBoard, ok) := ApplyMove(g.board, m.row, m.col, opponent);
    if ok then Settle(g.(board := aiBoard), symbol) else g
  }

  /** MakeMove, with the computer's reply (used in PVC mode only) given as `aiMove`. */
  function MoveSpec(games: map<string, GameState>, gameID: string, playerID: string, row: int, col: int,
                    aiMove: Move, now: Time): Result<GameState, Error>
  {
    if gameID !in games then Failure(ErrGameNotFound)
    else match HumanMove(games[gameID], playerID, row, col)
      case Failure(e) => Failure(e)
      case Success((g1, symbol, opponent)) =>
        var g2 := if AiToMove(g1, opponent) then AiReply(g1, symbol, opponent, aiMove) else g1;
        Success(g2.(updatedAt := now))
  }

  /** When MakeMove consults the heuristic, `aiMove` is one of the moves ChooseMove may return. */
  predicate ReplyAllowed(games: map<string, GameState>, gameID: string, playerID: string, row: int, col: int,
                         aiMove: Move)
  {
    gameID in games && HumanMove(games[gameID], playerID, row, col).Success? ==>
      var (g1, symbol, opponent) := HumanMove(games[gameID], playerID, row, col).value;
      AiToMove(g1, opponent) ==> ChoiceAllowed(g1.board, opponent, symbol, aiMove)
  }

  /** The lobby entry of a game; the creator fields are filled only when the creator is a known player. */
  function Summarize(g: GameState, players: map<string, Player>): (s: GameSummary)
    ensures s.id == g.id && s.mode == g.mode && s.status == g.status && s.createdAt == g.createdAt
    ensures g.playerXID != "" && g.playerXID in players ==>
              s.createdByPlayerID == players[g.playerXID].id && s.createdByPlayerName == players[g.playerXID].name
    ensures !(g.playerXID != "" && g.playerXID in players) ==>
              s.createdByPlayerID == "" && s.createdByPlayerName == ""
  {
    var base := GameSummary(g.id, g.mode, g.status, g.createdAt, "", "");
    if g.playerXID != "" && g.playerXID in players then
      base.(createdByPlayerID := players[g.playerXID].id, createdByPlayerName := players[g.playerXID].name)
    else base
  }

  /** The summary carries the mode and status the filter asks for. */
  predicate SummaryMatches(filter: GameFilter, s: GameSummary) {
    && (filter.mode.None? || filter.mode.value == ModeName(s.mode))
    && (filter.status.None? || filter.status.value == StatusName(s.status))
  }

  /** Summaries of matching games match the filter too. */
  lemma SummariesMatch(filter: GameFilter, games: seq<GameState>, summaries: seq<GameSummary>, players: map<string, Player>)
    requires forall k | 0 <= k < |games| :: Matches(filter, games[k])
    requires |summaries| == |games|
    requires forall k | 0 <= k < |games| :: summaries[k] == Summarize(games[k], players)
    ensures forall k | 0 <= k < |summaries| :: SummaryMatches(filter, summaries[k])
  {
  }

  /** An accepted human move followed by the reply step is the result `MoveSpec` describes. */
  lemma MoveSpecAccepts(games: map<string, GameState>, gameID: string, playerID: string, row: int, col: int,
                        aiMove: Move, now: Time, g1: GameState, symbol: Symbol, opponent: Symbol, g2: GameState)
    requires gameID in games && HumanMove(games[gameID], playerID, row, col) == Success((g1, symbol, opponent))
    requires AiToMove(g1, opponent) ==> ChoiceAllowed(g1.board, opponent, symbol, aiMove) && g2 == AiReply(g1, symbol, opponent, aiMove)
    requires !AiToMove(g1, opponent) ==> g2 == g1
    ensures MoveSpec(games, gameID, playerID, row, col, aiMove, now) == Success(g2.(updatedAt := now))
    ensures ReplyAllowed(games, gameID, playerID, row, col, aiMove)
  {
  }

  // ---------------------------------------------------------------------------
  // The service object over the two stores.

  class GameService {
    const gameStore: MemoryGameStore
    const playerStore: MemoryPlayerStore

    constructor (gameStore: MemoryGameStore, playerStore: MemoryPlayerStore)
      ensures this.gameStore == gameStore && this.playerStore == playerStore
    {
      this.gameStore := gameStore;
      this.playerStore := playerStore;
    }

    /** Creates a game under the caller-supplied fresh id and timestamp. */
    method CreateGame(creatorID: string, mode: string, freshID: string, now: Time) returns (r: Result<GameState, Error>)
      requires gameStore.Valid()
      modifies gameStore
      ensures gameStore.Valid()
      ensures r == CreateSpec(playerStore.players, creatorID, mode, freshID, now)
      ensures gameStore.games == if r.Success? then old(gameStore.games)[freshID := r.value] else old(gameStore.games)
    {
      // Ensure the creator exists.
      var creator := playerStore.Get(creatorID);
      if creator.Failure? {
        return Failure(creator.error);
      }
      if mode != "PVP" && mode != "PVC" {
        return Failure(ErrInvalidGameMode);
      }
      var m := if mode == "PVP" then PVP else PVC;
      var g := GameState(freshID, m, NewBoard(), creatorID, "", Empty, InProgress, NoWinner, now, now);
      // For PVP, wait for the second player.
      if m == PVP {
        g := g.(status := WaitingForPlayer);
      }
      // For PVC the O seat is the computer.
      if m == PVC {
        g := g.(playerOID := AIPlayerID, currentTurn := X);
      } else {
        g := g.(currentTurn := X);
      }
      gameStore.Create(g);
      return Success(g);
    }

    /** The current record of a game. */
    method GetGame(gameID: string) returns (r: Result<GameState, Error>)
      ensures gameID in gameStore.games ==> r == Success(gameStore.games[gameID])
      ensures gameID !in gameStore.games ==> r == Failure(ErrGameNotFound)
    {
      r := gameStore.Get(gameID);
    }

    /** Seats a second player in a waiting PVP game. */
    method JoinGame(gameID: string, playerID: string, now: Time) returns (r: Result<GameState, Error>)
      requires gameStore.Valid()
      modifies gameStore
      ensures gameStore.Valid()
      ensures r == JoinSpec(playerStore.players, old(gameStore.games), gameID, playerID, now)
      ensures gameStore.games == if r.Success? then old(gameStore.games)[gameID := r.value] else old(gameStore.games)
    {
      // Ensure the player exists.
      var player := playerStore.Get(playerID);
      if player.Failure? {
        return Failure(player.error);
      }
      var got := gameStore.Get(gameID);
      if got.Failure? {
        return Failure(got.error);
      }
      var g := got.value;
      // The game must be PVP and waiting.
      if g.mode != PVP || g.status != WaitingForPlayer {
        return Failure(ErrInvalidGameState);
      }
      // The joining player becomes O.
      g := g.(playerOID := playerID);
      g := g.(status := InProgress);
      g := g.(currentTurn := X);
      g := g.(updatedAt := now);
      var err := gameStore.Update(g);
      if err.Some? {
        // Update reports only ErrGameNotFound.
        return Failure(ErrGameNotFound);
      }
      return Success(g);
    }

    /**
      Validates and applies a move by `playerID`; in PVC mode the computer's
      reply is applied in the same call.  `aiMove` is the reply the heuristic
      chose, when it was consulted.
     */
    method MakeMove(gameID: string, playerID: string, row: int, col: int, now: Time)
      returns (r: Result<GameState, Error>, ghost aiMove: Move)
      requires gameStore.Valid()
      modifies gameStore
      ensures gameStore.Valid()
      ensures ReplyAllowed(old(gameStore.games), gameID, playerID, row, col, aiMove)
      ensures r == MoveSpec(old(gameStore.games), gameID, playerID, row, col, aiMove, now)
      ensures gameStore.games == if r.Success? then old(gameStore.games)[gameID := r.value] else old(gameStore.games)
    {
      aiMove := Move(-1, -1);
      var got := gameStore.Get(gameID);
      if got.Failure? {
        return Failure(got.error), aiMove;
      }
      var human := PlayHuman(got.value, playerID, row, col);
      if human.Failure? {
        return Failure(human.error), aiMove;
      }
      var (g1, symbol, opponent) := human.value;
      var g;
      g, aiMove := PlayComputer(g1, symbol, opponent);
      MoveSpecAccepts(old(gameStore.games), gameID, playerID, row, col, aiMove, now, g1, symbol, opponent, g);
      g := g.(updatedAt := now);
      var err := gameStore.Update(g);
      if err.Some? {
        // Update reports only ErrGameNotFound.
        return Failure(ErrGameNotFound), aiMove;
      }
      return Success(g), aiMove;
    }

    /** The checks of MakeMove after the lookup, then the human's move and its evaluation. */
    static method PlayHuman(g: GameState, playerID: string, row: int, col: int)
      returns (r: Result<(GameState, Symbol, Symbol), Error>)
      ensures r == HumanMove(g, playerID, row, col)
      ensures r.Success? ==> r.value.0.id == g.id
    {
      // The game must be in progress.
      if g.status != InProgress {
        return Failure(ErrInvalidGameState);
      }
      // Determine the player's symbol; the player must hold a seat.
      var symbol, opponent;
      if playerID == g.playerXID {
        symbol, opponent := X, O;
      } else if playerID == g.playerOID {
        symbol, opponent := O, X;
      } else {
        return Failure(ErrNotParticipant);
      }
      // Enforce turn order.
      if g.currentTurn != symbol {
        return Failure(ErrNotPlayersTurn);
      }
      if !IsValidMove(g.board, row, col) {
        return Failure(ErrInvalidMove);
      }
      // The move is legal, so ApplyMove succeeds here.
      var applied := ApplyMove(g.board, row, col, symbol);
      var moved := g.(board := applied.0);
      var (winner, isDraw) := CheckWinner(moved.board);
      if winner != Empty {
        moved := moved.(status := Finished, winner := WinnerOf(winner));
      } else if isDraw {
        moved := moved.(status := Finished, winner := Draw);
      } else {
        moved := moved.(currentTurn := OppositeSymbol(symbol));
      }
      return Success((moved, symbol, opponent));
    }

    /**
      In PVC mode, with the game still open and the computer on turn, asks the
      heuristic for a reply and applies it when it is legal.
     */
    static method PlayComputer(g: GameState, symbol: Symbol, opponent: Symbol) returns (r: GameState, ghost aiMove: Move)
      ensures AiToMove(g, opponent) ==> ChoiceAllowed(g.board, opponent, symbol, aiMove) && r == AiReply(g, symbol, opponent, aiMove)
      ensures !AiToMove(g, opponent) ==> r == g
      ensures r.id == g.id
    {
      aiMove := Move(-1, -1);
      r := g;
      if g.mode == PVC && g.status == InProgress && g.currentTurn == opponent {
        var aiRow, aiCol := ChooseMove(g.board, opponent, symbol);
        aiMove := Move(aiRow, aiCol);
        var aiApplied := ApplyMove(g.board, aiRow, aiCol, opponent);
        if aiApplied.1 {
          r := r.(board := aiApplied.0);
          var (aiWinner, aiDraw) := CheckWinner(r.board);
          if aiWinner != Empty {
            r := r.(status := Finished, winner := WinnerOf(aiWinner));
          } else if aiDraw {
            r := r.(status := Finished, winner := Draw);
          } else {
            r := r.(currentTurn := symbol);
          }
        }
      }
    }

    /** One summary per listed game, in listing order. */
    method ListGames(filter: GameFilter) returns (summaries: seq<GameSummary>, ghost order: seq<string>)
      ensures NoDuplicates(order)
      ensures forall id :: id in order <==> id in gameStore.games && Matches(filter, gameStore.games[id])
      ensures var page := Paginate(GamesOf(gameStore.games, order), filter.offset, filter.limit);
              |summaries| == |page| &&
              forall k | 0 <= k < |page| :: summaries[k] == Summarize(page[k], playerStore.players)
      ensures filter.limit > 0 ==> |summaries| <= filter.limit
      ensures forall k | 0 <= k < |summaries| :: SummaryMatches(filter, summaries[k])
    {
      var games;
      games, order := gameStore.List(filter);
      summaries := SummarizeAll(games);
      SummariesMatch(filter, games, summaries, playerStore.players);
    }

    /** Builds the summary of each game, enriched with its creator's details when the creator is known. */
    method SummarizeAll(games: seq<GameState>) returns (summaries: seq<GameSummary>)
      ensures |summaries| == |games|
      ensures forall k | 0 <= k < |games| :: summaries[k] == Summarize(games[k], playerStore.players)
    {
      summaries := [];
      for i := 0 to |games|
        invariant |summaries| == i
        invariant forall k | 0 <= k < i :: summaries[k] == Summarize(games[k], playerStore.players)
      {
        var g := games[i];
        var summary := GameSummary(g.id, g.mode, g.status, g.createdAt, "", "");
        // Enrich with the creator's details when available.
        if g.playerXID != "" {
          var player := playerStore.Get(g.playerXID);
          if player.Success? {
            summary := summary.(createdByPlayerID := player.value.id, createdByPlayerName := player.value.name);
          }
        }
        summaries := summaries + [summary];
      }
    }
  }
}
