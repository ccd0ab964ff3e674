/**
  The error values of the session core.  ErrGameNotFound and ErrPlayerNotFound
  are the sentinel errors of the store package; the other five are declared in
  internal/service/service.go.
 */
module Errors {

  datatype Error =
    | ErrGameNotFound
    | ErrPlayerNotFound
    | ErrInvalidGameMode
    | ErrInvalidGameState
    | ErrNotParticipant
    | ErrNotPlayersTurn
    | ErrInvalidMove
}
