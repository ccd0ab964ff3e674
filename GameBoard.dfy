/** The board primitives of internal/game/board.go. */
module GameBoard {
  import opened Models

  /** X and O swap; every other symbol maps to the empty symbol. */
  function OppositeSymbol(s: Symbol): (r: Symbol)
    ensures r == Empty <==> s == Empty
    ensures s != Empty ==> r != s
  {
    match s
    case X => O
    case O => X
    case Empty => Empty
  }

  /** Applied twice, OppositeSymbol is the identity. */
  lemma OppositeInvolution(s: Symbol)
    ensures OppositeSymbol(OppositeSymbol(s)) == s
  {
  }

  predicate InBounds(row: int, col: int) {
    0 <= row < 3 && 0 <= col < 3
  }

  /** The empty board: every one of the nine cells holds the empty symbol. */
  function NewBoard(): (b: Board)
    ensures forall r, c | InBounds(r, c) :: b[r][c] == Empty
  {
    [[Empty, Empty, Empty], [Empty, Empty, Empty], [Empty, Empty, Empty]]
  }

  /** A move is legal when it lies on the board and targets an empty cell. */
  predicate IsValidMove(b: Board, row: int, col: int) {
    if row < 0 || row >= 3 || col < 0 || col >= 3 then false
    else b[row][col] == Empty
  }

  /** ApplyMove succeeds exactly on the moves IsValidMove accepts, whatever the symbol. */
  lemma ApplyMoveIffValid(b: Board, row: int, col: int, s: Symbol)
    ensures ApplyMove(b, row, col, s).1 <==> IsValidMove(b, row, col)
    ensures IsValidMove(b, row, col) <==> 0 <= row < 3 && 0 <= col < 3 && b[row][col] == Empty
  {
  }

  /**
    Copy-on-write move: on an illegal move the input board comes back with
    `ok == false`; otherwise the result carries `s` at (row, col) and agrees
    with the input everywhere else.
   */
  function ApplyMove(b: Board, row: int, col: int, s: Symbol): (r: (Board, bool))
    ensures r.1 <==> InBounds(row, col) && b[row][col] == Empty
    ensures !r.1 ==> r.0 == b
    ensures r.1 ==> r.0[row][col] == s
    ensures r.1 ==> forall i, j | InBounds(i, j) && (i != row || j != col) :: r.0[i][j] == b[i][j]
  {
    if !IsValidMove(b, row, col) then (b, false)
    else (b[row := b[row][col := s]], true)
  }

  /** No cell of the board is empty. */
  predicate Full(b: Board) {
    forall r, c | 0 <= r < 3 && 0 <= c < 3 :: b[r][c] != Empty
  }

  /** Reports whether no cell is left empty, scanning the rows in order. */
  method IsFull(b: Board) returns (full: bool)
    ensures full <==> Full(b)
  {
    for row := 0 to 3
      invariant forall r, c | 0 <= r < row && 0 <= c < 3 :: b[r][c] != Empty
    {
      for col := 0 to 3
        invariant forall r, c | 0 <= r < row && 0 <= c < 3 :: b[r][c] != Empty
        invariant forall c | 0 <= c < col :: b[row][c] != Empty
      {
        if b[row][col] == Empty {
          return false;
        }
      }
    }
    return true;
  }

  /** The empty cells of row `r` whose column is below `c`, left to right. */
  function RowFreeCells(b: Board, r: int, c: int): seq<Move>
    requires 0 <= r < 3 && 0 <= c <= 3
    decreases c
  {
    if c == 0 then []
    else RowFreeCells(b, r, c - 1) + (if b[r][c - 1] == Empty then [Move(r, c - 1)] else [])
  }

  /** The empty cells of the rows above `r`, in row-major order. */
  function FreeCellsAbove(b: Board, r: int): seq<Move>
    requires 0 <= r <= 3
    decreases r
  {
    if r == 0 then [] else FreeCellsAbove(b, r - 1) + RowFreeCells(b, r - 1, 3)
  }

  /** All empty cells of the board in row-major order: the reference for AvailableMoves. */
  function FreeCells(b: Board): seq<Move> {
    FreeCellsAbove(b, 3)
  }

  /** The position of a cell in row-major order. */
  function Rank(m: Move): int {
    3 * m.row + m.col
  }

  /** Lists the empty cells, scanning row by row and column by column. */
  method AvailableMoves(b: Board) returns (moves: seq<Move>)
    ensures moves == FreeCells(b)
  {
    moves := [];
    for row := 0 to 3
      invariant moves == FreeCellsAbove(b, row)
    {
      for col := 0 to 3
        invariant moves == FreeCellsAbove(b, row) + RowFreeCells(b, row, col)
      {
        if b[row][col] == Empty {
          moves := moves + [Move(row, col)];
        }
      }
    }
  }

  lemma {:induction false} RowFreeCellsMembers(b: Board, r: int, c: int, m: Move)
    requires 0 <= r < 3 && 0 <= c <= 3
    ensures m in RowFreeCells(b, r, c) <==> m.row == r && 0 <= m.col < c && b[r][m.col] == Empty
    decreases c
  {
    if c > 0 {
      RowFreeCellsMembers(b, r, c - 1, m);
    }
  }

  lemma {:induction false} FreeCellsAboveMembers(b: Board, r: int, m: Move)
    requires 0 <= r <= 3
    ensures m in FreeCellsAbove(b, r) <==> 0 <= m.row < r && InBounds(m.row, m.col) && b[m.row][m.col] == Empty
    decreases r
  {
    if r > 0 {
      FreeCellsAboveMembers(b, r - 1, m);
      RowFreeCellsMembers(b, r - 1, 3, m);
    }
  }

  /** A cell is listed exactly when it is on the board and empty. */
  lemma FreeCellsMembers(b: Board, m: Move)
    ensures m in FreeCells(b) <==> IsValidMove(b, m.row, m.col)
  {
    FreeCellsAboveMembers(b, 3, m);
  }

  /** The cells are strictly increasing in row-major order; hence each appears once. */
  predicate StrictlyRowMajor(ms: seq<Move>) {
    forall i, j | 0 <= i < j < |ms| :: Rank(ms[i]) < Rank(ms[j])
  }

  lemma {:induction false} RowFreeCellsOrdered(b: Board, r: int, c: int)
    requires 0 <= r < 3 && 0 <= c <= 3
    ensures StrictlyRowMajor(RowFreeCells(b, r, c))
    ensures forall m | m in RowFreeCells(b, r, c) :: 3 * r <= Rank(m) < 3 * r + c
    decreases c
  {
    if c > 0 {
      RowFreeCellsOrdered(b, r, c - 1);
      forall m | m in RowFreeCells(b, r, c) ensures 3 * r <= Rank(m) < 3 * r + c {
        RowFreeCellsMembers(b, r, c, m);
      }
    }
  }

  lemma {:induction false} FreeCellsAboveOrdered(b: Board, r: int)
    requires 0 <= r <= 3
    ensures StrictlyRowMajor(FreeCellsAbove(b, r))
    ensures forall m | m in FreeCellsAbove(b, r) :: 0 <= Rank(m) < 3 * r
    decreases r
  {
    if r > 0 {
      FreeCellsAboveOrdered(b, r - 1);
      RowFreeCellsOrdered(b, r - 1, 3);
      var prefix, row := FreeCellsAbove(b, r - 1), RowFreeCells(b, r - 1, 3);
      assert FreeCellsAbove(b, r) == prefix + row;
      forall i, j | 0 <= i < j < |prefix + row| ensures Rank((prefix + row)[i]) < Rank((prefix + row)[j]) {
        if j < |prefix| {
        } else if i < |prefix| {
          assert prefix[i] in prefix;
          assert row[j - |prefix|] in row;
        } else {
          assert (prefix + row)[i] == row[i - |prefix|];
        }
      }
      forall m | m in prefix + row ensures 0 <= Rank(m) < 3 * r {
      }
    }
  }

  /** AvailableMoves lists the empty cells in row-major order, each exactly once. */
  lemma FreeCellsRowMajor(b: Board)
    ensures StrictlyRowMajor(FreeCells(b))
    ensures forall i, j | 0 <= i < j < |FreeCells(b)| :: FreeCells(b)[i] != FreeCells(b)[j]
  {
    FreeCellsAboveOrdered(b, 3);
  }

  /** There is no free cell exactly when the board is full. */
  lemma FreeCellsEmptyIffFull(b: Board)
    ensures FreeCells(b) == [] <==> Full(b)
  {
    if FreeCells(b) == [] {
      forall r, c | InBounds(r, c) ensures b[r][c] != Empty {
        FreeCellsMembers(b, Move(r, c));
      }
    } else {
      FreeCellsMembers(b, FreeCells(b)[0]);
    }
  }

  /** X may take the centre of a new board; O may not take it afterwards. */
  lemma ApplyMoveExample()
    ensures var (b, ok) := ApplyMove(NewBoard(), 1, 1, X);
            ok && b[1][1] == X && !ApplyMove(b, 1, 1, O).1
  {
  }
}
