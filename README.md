# tic-tac-go in Dafny

This project models the core of tic-tac-go, a tic-tac-toe server written in Go:

- the board and its rules (`internal/game`);
- the computer opponent's move heuristic (`internal/ai`);
- the in-memory player and game registries (`internal/store`);
- the game service that enforces seating, turn order, move legality and the end of a game (`internal/service/game_service.go`);
- the WebSocket hub that groups connections by game and fans state snapshots out to them (`internal/ws/hub.go`).

Module layout, one module per source file:

| file | module | models |
|---|---|---|
| Wrappers.dfy | `Wrappers` | `Option` and `Result` |
| Errors.dfy | `Errors` | the sentinel errors of `store` and `service` |
| Models.dfy | `Models` | `internal/models/types.go`: symbols, 3x3 boards, players, modes, statuses, game records, summaries |
| GameBoard.dfy | `GameBoard` | `internal/game/board.go` |
| GameRules.dfy | `GameRules` | `internal/game/rules.go` |
| Ai.dfy | `Ai` | `internal/ai/ai.go` |
| Store.dfy | `Store` | `internal/store/memory.go` |
| Service.dfy | `Service` | `internal/service/game_service.go` |
| ServiceProperties.dfy | `ServiceProperties` | lemmas about the game service: rejection order, effects, and an invariant of every stored game |
| Ws.dfy | `Ws` | `internal/ws/hub.go` |

The pure parts are functions and lemmas: board operations, `CheckWinner`, and the specification of each service operation.

The parts that work step by step are methods with loops, each proved against a specification function:

- `IsFull` and `AvailableMoves` are nested loops;
- `ChooseMove` calls the board scans three times;
- `MemoryGameStore.List` iterates over the map and then paginates;
- the service methods read the stores, build the new record field by field, and write it back;
- `Hub.BroadcastGameState` copies the member set into a sequence and then sends to each connection.

Objects whose fields Go updates in place are classes: the two stores, the hub and its connections. The service is a class because it holds the two stores; its own fields are constants.

Boards are values, as Go's `[3][3]Symbol` arrays are. `ApplyMove` returns a new board, and the trial moves of `ChooseMove` cannot alter the board they are tried on.

`CheckWinner` is specified against a second description. That description lists the eight lines in scanning order, and the outcome is the first complete line (`GameRules.Evaluate`). The main equality is `GameRules.CheckWinnerIsFirstCompleteLine`.

`ServiceProperties.WellFormed` states what every stored game satisfies:

- the counts of X and O marks agree with whose turn it is;
- an open game has no complete line and a free cell;
- a finished game records the board's outcome, and every complete line on its board carries the same mark;
- a PVC game always waits for the human.

Creating, joining and moving each preserve `WellFormed`.

Inputs the Go code takes from the environment are parameters of the model:

- the clock (`time.Now`): a `now: Time` parameter;
- the fresh game id (`uuid.NewString`): a `freshID` parameter;
- the random fallback move of the AI: a nondeterministic choice among the free cells (`:|`);
- the iteration order of Go maps: a nondeterministic choice, exposed as a ghost out-parameter `order`.

Points about the code's behaviour:

- `JoinGame` checks the joining player before it looks up the game, so an unknown player in an unknown game gets `ErrPlayerNotFound`, not not-found for the game (`internal/service/game_service.go:96-104`).
- A new PVP game has `CurrentTurn = X` already, not an unset turn (`internal/service/game_service.go:76-81`).
- No code shown calls the broadcaster from the service. The service operations therefore do not publish anything. The hub is modelled on its own.

## Model

| member | source | states |
|---|---|---|
| Models.ModeName | internal/models/types.go:33-38 | "PVP" names exactly PVP and "PVC" exactly PVC |
| Models.StatusName | internal/models/types.go:41-47 | each of the three status strings names exactly one status |
| Models.WinnerOf | internal/models/types.go:67-68 | X gives "X", O gives "O" and the empty symbol gives the empty winner string, each exactly; the result is never "DRAW" |
| GameBoard.OppositeSymbol | internal/game/board.go:28-37 | X and O swap; the empty symbol maps to itself and nothing else does |
| GameBoard.OppositeInvolution | internal/game/board.go:28-37 | taking the opposite twice returns the symbol |
| GameBoard.NewBoard | internal/game/board.go:40-48 | every cell of a new board is empty |
| GameBoard.ApplyMove | internal/game/board.go:60-68 | succeeds exactly for an in-bounds empty cell; on success only that cell changes and it holds the symbol; on failure the board is returned unchanged |
| GameBoard.IsFull | internal/game/board.go:71-80 | returns true exactly when no cell is empty |
| GameBoard.AvailableMoves | internal/game/board.go:83-93 | returns the row-major list of empty cells `FreeCells` |
| GameBoard.FreeCellsMembers | internal/game/board.go:51-56 | a move is listed exactly when `IsValidMove` accepts it |
| GameBoard.ApplyMoveIffValid | internal/game/board.go:51-67 | `IsValidMove` accepts exactly the in-range moves onto an empty cell, and `ApplyMove` succeeds for any symbol exactly on those moves |
| GameBoard.FreeCellsRowMajor | internal/game/board.go:85-90 | the listing is strictly increasing in row-major order, so it has no duplicates |
| GameBoard.FreeCellsEmptyIffFull | internal/game/board.go:71-93 | the listing is empty exactly when the board is full |
| GameBoard.ApplyMoveExample | internal/game/board_test.go:53-70 | X may take the centre of a new board and O may not take it afterwards |
| GameRules.ScanOrderIsListed | internal/game/rules.go:29-54 | the scan order is row 0, column 0, row 1, column 1, row 2, column 2, main diagonal, anti-diagonal |
| GameRules.CheckWinnerIsFirstCompleteLine | internal/game/rules.go:27-63 | `CheckWinner`, through its helpers `ScanFrom` (rows and columns interleaved) and `ScanDiagonals`, reports the mark of the first complete line in scan order, else a draw on a full board, else no outcome |
| GameRules.CompleteLineWins | internal/game/rules.go:29-54 | when some line is complete, the winner is the mark of the first complete line in scan order, never empty, and the draw flag is off |
| GameRules.WinnerOwnsALine | internal/game/rules.go:29-54 | a reported winner occupies all three cells of some line |
| GameRules.DrawIffFullWithoutLine | internal/game/rules.go:56-59 | the draw flag is set exactly when the board is full and no line is complete; the winner is then empty |
| GameRules.OpenBoardHasNoOutcome | internal/game/rules.go:61-62 | with no complete line and a free cell, the result is (empty, false) |
| GameRules.WinnerExcludesDraw | internal/game/rules.go:27-63 | a winner and the draw flag are never reported together |
| GameRules.NewBoardIsOpen | internal/game/rules.go:61-62 | a new board has no outcome |
| GameRules.DrawExample | internal/game/rules_test.go:39-61 | X O X / X O O / O X X is a draw |
| GameRules.RowWinExample | internal/game/rules_test.go:27-37 | a top row of X wins for X without the draw flag |
| Ai.FirstWinningIndex | internal/ai/ai.go:33-40 | the index of the first listed move that wins for the symbol, with no earlier one winning, or the list's length when none wins |
| Ai.FindWinningMove | internal/ai/ai.go:33-40 | the trial-move loop returns exactly `FirstWinningIndex` |
| Ai.WinsWithFirstLine | internal/ai/ai.go:32-37 | the trial move of the heuristic (`WinsWith`: apply on a copy, then `CheckWinner`) wins for a mark exactly when the first complete line of the trial board, in scan order, carries that mark |
| Ai.FirstWinningIndexAt | internal/ai/ai.go:33-40 | a move that wins after a run of non-winning moves is the scan's result, and so is the end of a list where nothing wins |
| Ai.ChooseMove | internal/ai/ai.go:31-67 | the result is allowed by the heuristic: first winning free cell, else first blocking cell, else the centre, else (-1, -1) on a full board, else some free cell |
| Ai.ChoiceIsLegal | internal/ai/ai.go:58-66 | on a board with a free cell, the chosen move is legal |
| Ai.ChoiceOnFullBoard | internal/ai/ai.go:58-61 | on a full board the choice is (-1, -1) and nothing else |
| Ai.FirstWinningIndexIsFirstCell | internal/ai/ai.go:33-40 | the scan finds the winning legal cell of smallest row-major rank, and finds none when no legal cell wins |
| Ai.FirstWinningIndexRanksFirst | internal/ai/ai.go:33-40 | every legal winning cell is found by the scan, at or after the cell the scan returns |
| Ai.ChoiceTakesWin | internal/ai/ai.go:32-40 | when some free cell wins for the AI, the choice is exactly the first such cell |
| Ai.ChoiceBlocks | internal/ai/ai.go:42-50 | when no cell wins for the AI but one wins for the opponent, the choice is exactly the first such cell |
| Ai.ChoiceTakesCentre | internal/ai/ai.go:52-55 | with no winning cell for either side and a free centre, the choice is the centre |
| Ai.FirstCellUnique | internal/ai/ai.go:33-50 | the first winning cell is unique |
| Ai.TakesWinningMoveExample | internal/ai/ai_test.go:28-39 | with X X on the top row, X plays (0, 2) |
| Ai.BlocksOpponentExample | internal/ai/ai_test.go:41-55 | with X on (0,0) and (1,0), O blocks at (2, 0) |
| Ai.TakesCentreExample | internal/ai/ai_test.go:57-65 | on the empty board the choice is the centre |
| Store.MemoryPlayerStore.constructor | internal/store/memory.go:34-38 | a new directory is empty |
| Store.MemoryPlayerStore.Create | internal/store/memory.go:41-47 | stores the player under its id, overwriting any earlier entry |
| Store.MemoryPlayerStore.Get | internal/store/memory.go:50-60 | the stored player, or ErrPlayerNotFound for an absent id |
| Store.Paginate | internal/store/memory.go:124-138 | the intended page, in unbounded integers: a negative offset counts as 0; an offset past the end gives an empty page; otherwise the page is the contiguous run from the offset, of length `limit` when 0 < limit < what remains and to the end otherwise |
| Store.MatchesExactly | internal/store/memory.go:115-120 | the filter (`Matches`): no criteria match every game; a mode and a status given by their wire strings match exactly the games in that mode and status; a string that names no mode or no status matches nothing |
| Store.AddWrapping | internal/store/memory.go:134-135 | the 64-bit two's-complement sum: the true sum when it fits, and a negative value when it exceeds the largest `int` |
| Store.PaginateAsWritten | internal/store/memory.go:124-138 | the offset and limit code in 64-bit arithmetic: it panics exactly when the offset is within the list, the limit is positive and offset + limit exceeds the largest `int` |
| Store.PaginateAsWrittenAgrees | internal/store/memory.go:124-138 | whenever the code as written does not panic, it returns exactly `Paginate` |
| Store.PaginateOverflowPanics | internal/store/memory.go:134-138 | offset 1 and limit 9223372036854775807 over three games: the code panics, while the intended page is the last two games |
| Store.GamesOf | internal/store/memory.go:114-122 | the records of the listed ids, in order |
| Store.MemoryGameStore.constructor | internal/store/memory.go:70-74 | a new registry is empty |
| Store.MemoryGameStore.Create | internal/store/memory.go:76-82 | stores or overwrites the record under its id |
| Store.MemoryGameStore.Update | internal/store/memory.go:84-94 | replaces an existing record; an absent id gives ErrGameNotFound and changes nothing |
| Store.MemoryGameStore.Get | internal/store/memory.go:96-105 | the stored record, or ErrGameNotFound |
| Store.MemoryGameStore.List | internal/store/memory.go:108-139 | enumerates every record matching the mode and status filters exactly once, in some order, then paginates with the intended `Paginate`; every returned game is stored and matches the filter, and a positive limit bounds the page |
| Store.MemoryGameStore.Page | internal/store/memory.go:124-138 | the offset and limit code, in unbounded integers, computes exactly `Paginate` |
| Store.ListedIsEnumeration | internal/store/memory.go:114-122 | the filtered list has as many entries as there are matching records, and each entry is a stored record that matches |
| Store.PageWithin | internal/store/memory.go:124-138 | every element of a page comes from the sequence it was cut from, and a positive limit bounds the page's length |
| Store.DistinctCardinality | internal/store/memory.go:114-122 | a list without duplicates has as many distinct elements as entries |
| Store.PageOfOne | internal/store/store_test.go:128-135 | offset 1, limit 1 over three records gives a page of exactly one |
| Service.ParseMode | internal/service/game_service.go:53-55 | exactly "PVP" and "PVC" are supported, each naming its mode |
| Service.Summarize | internal/service/game_service.go:222-237 | a summary copies id, mode, status and creation time, and carries the creator's id and name only when the X player is a known player |
| Service.SummariesMatch | internal/service/game_service.go:222-228 | summaries of games that match a filter carry the mode and status the filter asks for |
| Service.MoveSpecAccepts | internal/service/game_service.go:160-211 | an accepted human move followed by the reply step gives the result `MoveSpec` describes, with a reply the heuristic allows |
| Service.GameService.constructor | internal/service/game_service.go:39-44 | the service holds the two stores it was given |
| Service.GameService.CreateGame | internal/service/game_service.go:47-88 | result equals `CreateSpec`; on success the new game is stored under the fresh id, otherwise nothing changes |
| Service.GameService.GetGame | internal/service/game_service.go:91-93 | the stored record, or ErrGameNotFound |
| Service.GameService.JoinGame | internal/service/game_service.go:95-122 | result equals `JoinSpec`; on success the record is replaced, otherwise nothing changes |
| Service.GameService.MakeMove | internal/service/game_service.go:124-212 | result equals `MoveSpec` for a computer reply that `ChooseMove` may return; on success the record is replaced, otherwise nothing changes |
| Service.GameService.PlayHuman | internal/service/game_service.go:131-178 | the checks and the human move compute exactly `HumanMove`, and keep the game id |
| Service.GameService.PlayComputer | internal/service/game_service.go:180-203 | when the computer is on turn in an open PVC game, the reply is one `ChooseMove` may return and the result is `AiReply`; otherwise the record is unchanged; the id is kept |
| Service.GameService.ListGames | internal/service/game_service.go:214-243 | one summary per listed game, in listing order, over the paginated enumeration of matching games; every summary has the requested mode and status, and a positive limit bounds their number |
| Service.GameService.SummarizeAll | internal/service/game_service.go:220-240 | one summary per game, in order, each the game's `Summarize` over the player directory |
| ServiceProperties.CreateGameErrors | internal/service/game_service.go:48-55 | an unknown creator is rejected first, then an unsupported mode; otherwise creation succeeds |
| ServiceProperties.NewGameShape | internal/service/game_service.go:57-81 | a new game has the fresh id, the mode, an empty board, the creator on X, X to move, no winner and both timestamps `now`; PVP waits with no O player, PVC is in progress with the computer on O |
| ServiceProperties.JoinGameErrors | internal/service/game_service.go:96-109 | unknown player first, then unknown game, then anything but a waiting PVP game is ErrInvalidGameState; a waiting PVP game accepts |
| ServiceProperties.JoinGameEffect | internal/service/game_service.go:111-115 | a join seats the joiner on O, starts the game with X to move, stamps `now`, and changes nothing else |
| ServiceProperties.MakeMoveErrors | internal/service/game_service.go:125-158 | the rejection order is unknown game, not in progress, not a participant, not the player's turn, illegal cell; a move passing all five is accepted |
| ServiceProperties.FinishedGameRejectsMoves | internal/service/game_service.go:131-134 | every move on a finished game is ErrInvalidGameState |
| ServiceProperties.HumanMoveOutcome | internal/service/game_service.go:160-178 | after an accepted move the mover's mark is on the cell; a line finishes the game with that winner, a full board finishes it as a draw, otherwise the other symbol is on turn |
| ServiceProperties.SettleRecordsOutcome | internal/service/game_service.go:166-178 | `Settle` finishes the game with the first complete line's mark as winner, else as a draw on a full board, else only passes the turn; no other field changes |
| ServiceProperties.PvpMoveChangesOneCell | internal/service/game_service.go:160-183 | in PVP an accepted move changes exactly the target cell, to the mover's mark |
| ServiceProperties.PvpTurnAlternates | internal/service/game_service.go:175-178 | in PVP a move that leaves the game open hands the turn to the opposite symbol |
| ServiceProperties.OpenBoardHasFreeCell | internal/game/rules.go:56-62 | a board reported as open has a free cell |
| ServiceProperties.PvcReplyNotPending | internal/service/game_service.go:180-203 | in PVC, when the human move leaves the game open, the computer's reply is legal and applied, and the game ends or the turn returns to the human |
| ServiceProperties.IllegalReplySkipped | internal/service/game_service.go:187-202 | an illegal computer reply is skipped and leaves the record as the human move left it |
| ServiceProperties.MoveStatusTransition | internal/service/game_service.go:131-205 | an accepted move starts from IN_PROGRESS, never ends in WAITING_FOR_PLAYER, keeps id, mode, seats and creation time, and stamps `now` |
| ServiceProperties.CountAfterMove | internal/game/board.go:65-66 | placing a mark on an empty cell adds one to that mark's count and leaves the other's |
| ServiceProperties.NewLinesBelongToMover | internal/game/board.go:65-66 | on a board with no complete line, every line a move completes carries the mover's mark |
| ServiceProperties.MoverOwnsEveryLine | internal/game/rules.go:29-54 | after a move on a board without a complete line, all complete lines carry the same mark |
| ServiceProperties.PlaceAndSettle | internal/service/game_service.go:161-178 | a legal move by the symbol on turn keeps a consistent game consistent, and an open result has the other symbol on turn |
| ServiceProperties.CreatePreservesWellFormed | internal/service/game_service.go:59-81 | every game `CreateGame` produces is well formed, so storing it keeps every stored game well formed |
| ServiceProperties.JoinPreservesWellFormed | internal/service/game_service.go:111-115 | joining keeps a stored game well formed, and writing the result back keeps every stored game well formed |
| ServiceProperties.MovePreservesWellFormed | internal/service/game_service.go:161-205 | an accepted move, with the computer's reply when one is made, keeps the game well formed, and writing it back keeps every stored game well formed |
| Ws.Offer | internal/ws/hub.go:131-138 | a non-blocking send: the message is appended exactly when the buffer has room, earlier contents are kept, and the capacity is never exceeded |
| Ws.StateMessageIsSnapshot | internal/ws/hub.go:97-115 | the state frame (`StateMessageOf`) carries exactly the game's id, board, turn, status and winner: two games give the same frame exactly when those agree |
| Ws.WithMember | internal/ws/hub.go:55-61 | after registration the connection is in its game's set, which is created when missing; no other game changes |
| Ws.WithoutMember | internal/ws/hub.go:63-70 | after unregistration the connection is not in its game's set, an emptied set's key is deleted, and no other game changes |
| Ws.RegisterIdempotent | internal/ws/hub.go:55-61 | registering the same connection twice gives the same map as once |
| Ws.UnregisterUndoesRegister | internal/ws/hub.go:55-70 | when the connection was not already a member of its game and no game's set is empty, unregistering it right after registering it restores the previous map |
| Ws.UnregisterOfStranger | internal/ws/hub.go:63-71 | unregistering a connection that is not a member leaves the membership unchanged |
| Ws.OfferAppendsWhenRoom | internal/ws/hub.go:133 | with room, the message is appended at the end |
| Ws.OfferDropsWhenFull | internal/ws/hub.go:134-136 | a full buffer is left as it is |
| Ws.Connection.TrySend | internal/ws/hub.go:155-159 | the send buffer becomes `Offer` of the old buffer; nothing else changes |
| Ws.Hub.constructor | internal/ws/hub.go:43-49 | a new hub has no games |
| Ws.Hub.HandleRegister | internal/ws/hub.go:55-61 | the map becomes `WithMember` of the old map, and the hub stays valid |
| Ws.Hub.HandleUnregister | internal/ws/hub.go:63-72 | the map becomes `WithoutMember` of the old map; the connection is closed whether or not it was a member, and the hub stays valid, so no closed connection remains a member |
| Ws.Hub.Register | internal/ws/hub.go:78-81 | the connection's game id is set first, then the registration is processed |
| Ws.Hub.Unregister | internal/ws/hub.go:84-86 | processes the unregistration of the connection |
| Ws.Hub.BroadcastGameState | internal/ws/hub.go:89-139 | with no entry for the game nothing changes; otherwise every member's buffer becomes `Offer` of the snapshot, and membership and other connections are untouched |
| Ws.Hub.BroadcastError | internal/ws/hub.go:142-160 | the one connection's buffer becomes `Offer` of the error frame |

## Left out

- Concurrency is not modelled: the `sync.RWMutex` locks in `memory.go` and `hub.go`, the goroutine running `Hub.Run`, and its unbuffered register/unregister channels. Each register or unregister event is one atomic step (`Hub.HandleRegister`, `Hub.HandleUnregister`), and each store or service call runs alone.
- The map records are values in the model. Go shares them through pointers: `Get` hands out the stored pointer, and the service mutates it before calling `Update`. Every rejection in `game_service.go` happens before the first mutation, so the stored outcome is the same. Aliasing between callers is not captured.
- `context.Context` arguments are dropped. The clock and `uuid.NewString` are parameters. The random source in `ChooseMove` is a free choice among the free cells.
- JSON encoding (`json.Marshal` in `hub.go`) is left out. A frame is the abstract `Ws.Message` value holding the snapshot fields. The marshalling error branches cannot be taken for these values.
- Draining a connection's send buffer (its write loop) is not part of this model: the `Connection` type is not among the files modelled. A connection is an object with a game id, a bounded queue of messages, its capacity and a closed flag. Its identity is the object reference.
- Ws.Hub.HandleUnregister, Ws.Hub.Unregister: require that the connection is not already closed, because closing a closed channel panics in Go.
- Ws.Hub.BroadcastGameState, Ws.Hub.BroadcastError, Ws.Connection.TrySend: require open connections, because sending on a closed channel panics in Go. For the broadcast, the hub invariant `Valid` guarantees this.
- Ws.Hub.Register: requires that a connection already in the hub is registered under the same game id. Re-filing a member under another game would leave it in the old game's set, where a later unregister would close it without removing it.
- The service's broadcaster (`NewGameServiceWithBroadcaster`, `GameStateBroadcaster`) is not part of this model. No shown service code calls it.
- `player_service.go` and the HTTP layer are not part of this model. Players enter the directory through `MemoryPlayerStore.Create`.
- The store filter's `Mode` and `Status` are modelled as optional strings compared with the wire names of the record's mode and status. `CreateGame` takes the raw mode string, so any other value reaches the `ErrInvalidGameMode` branch.
- `GameStore`/`PlayerStore` errors other than the sentinel ones cannot happen with the in-memory stores, so they are not modelled. The branches of `game_service.go` that handle a failing `Create` or `Update` after a successful lookup cannot be taken.
- Store.Paginate, Store.MemoryGameStore.Page, Store.MemoryGameStore.List: compute in unbounded integers. In Go, when offset + limit exceeds 2^63-1, `start+filter.Limit` wraps to a negative value and `result[start:end]` panics. `Store.PaginateAsWritten` models that code, and the finding below records it.
- The `ApplyMove` error check after `IsValidMove` in `MakeMove` (`game_service.go:161-164`) cannot fail and has no separate branch in the model.

## Findings

| source | as written | input that shows it | evidently intended | confidence | as-written member | corrected member |
|---|---|---|---|---|---|---|
| internal/store/memory.go:134-138 | `start+filter.Limit` is computed in 64-bit `int` arithmetic, and its result becomes the end of the slice | offset 1, limit 9223372036854775807 and three matching games: the sum wraps to a negative value, `end` is below `start`, and `result[start:end]` panics. The query parser of `internal/http/handlers.go:207-214` accepts both values. | a limit that reaches past the end takes everything from the offset to the end | high; not executed | Store.PaginateAsWritten, Store.PaginateOverflowPanics | Store.Paginate |
