/**
 * The game state of the page script (gomoku.js): the board, whose turn it
 * is and whether the engine is thinking, with the win check, the full-board
 * check and the state change of a click (`placeStone`), DOM work left out.
 */
module Gomoku {
  import opened Board

  /** How a call to `placeStone` ends. */
  datatype Outcome =
    | Ignored     // returned at the guard or on an occupied cell
    | Won         // the stone completed five; the game is over
    | Drawn       // the stone filled the last empty cell
    | Continued   // the turn passed to the other player

  /**
   * `countDirection` of the page: the same scan as the engine's, reading
   * the mutable board directly and comparing with `board[row][col]` on
   * every step.
   */
  method CountDirection(board: array2<Cell>, row: int, col: int, dx: int, dy: int) returns (count: nat)
    requires IsBoard(board) && InBounds(row, col) && IsDirection(dx, dy)
    ensures count == Run(Snapshot(board), row, col, dx, dy, Snapshot(board)[row][col])
    ensures count <= N - 1
  {
    ghost var g := Snapshot(board);
    ghost var v := g[row][col];
    assert board[row, col] == v;
    count := 0;
    var r, c := row + dx, col + dy;
    ghost var pr, pc := row, col;
    while InBounds(r, c) && board[r, c] == board[row, col]
      invariant InBounds(pr, pc) && r == pr + dx && c == pc + dy
      invariant count + Run(g, pr, pc, dx, dy, v) == Run(g, row, col, dx, dy, v)
      decreases Room(pr, pc, dx, dy)
    {
      assert g[r][c] == v;
      RunStep(g, pr, pc, dx, dy, v);
      count := count + 1;
      pr, pc := r, c;
      r, c := r + dx, c + dy;
    }
  }

  /** `checkWin` of the page: five or more equal cells in a row through (row, col) on some axis. */
  method CheckWin(board: array2<Cell>, row: int, col: int) returns (win: bool)
    requires IsBoard(board) && InBounds(row, col)
    ensures win <==> FiveInLine(Snapshot(board), row, col)
  {
    ghost var g := Snapshot(board);
    for i := 0 to |Directions|
      invariant forall j :: 0 <= j < i ==> !FiveOnAxis(g, row, col, Directions[j].0, Directions[j].1)
    {
      var (dx, dy) := Directions[i];
      var count := 1;
      var forward := CountDirection(board, row, col, dx, dy);
      count := count + forward;
      var backward := CountDirection(board, row, col, -dx, -dy);
      count := count + backward;
      AxisFive(g, row, col, dx, dy);
      if count >= 5 {
        return true;
      }
    }
    return false;
  }

  /** `isBoardFull`: no cell is empty, which is the same as an empty-cell count of zero. */
  method IsBoardFull(board: array2<Cell>) returns (full: bool)
    requires IsBoard(board)
    ensures full <==> NoEmptyCell(Snapshot(board))
    ensures full <==> EmptyCount(Snapshot(board)) == 0
  {
    ghost var g := Snapshot(board);
    EmptyCountZero(g);
    for row := 0 to N
      invariant forall r, c :: 0 <= r < row && 0 <= c < N ==> g[r][c] != Empty
    {
      for col := 0 to N
        invariant forall r, c :: InBounds(r, c) && Before(r, c, row, col) ==> g[r][c] != Empty
      {
        if board[row, col] == Empty {
          return false;
        }
      }
    }
    return true;
  }

  /** The page's state: the board, the player to move, and whether the engine is working. */
  class Game {
    var gameBoard: array2<Cell>
    var currentPlayer: Stone
    var isAIThinking: bool

    ghost predicate Valid()
      reads this
    {
      IsBoard(gameBoard)
    }

    /** The page's start: an empty board, black to move, the engine idle. */
    constructor ()
      ensures Valid() && fresh(gameBoard)
      ensures forall r, c :: InBounds(r, c) ==> Snapshot(gameBoard)[r][c] == Empty
      ensures currentPlayer == Black && !isAIThinking
    {
      currentPlayer := Black;
      gameBoard := new Cell[N, N]((r, c) => Empty);
      isAIThinking := false;
    }

    /**
     * `placeStone(index)` for cell `index` of the row-major board. While
     * the engine thinks with black to move, or on an occupied cell, nothing
     * changes. Otherwise the player to move takes exactly that cell; a five
     * through it ends the game as a win for that player, filling the last
     * empty cell as a draw, and only otherwise the turn passes, with the
     * engine asked to move when white is next and it is idle.
     */
    method PlaceStone(index: int) returns (outcome: Outcome)
      requires Valid() && 0 <= index < N * N
      modifies this, gameBoard
      ensures Valid() && gameBoard == old(gameBoard)
      ensures var row, col := index / N, index % N;
        && InBounds(row, col)
        && (old(isAIThinking && currentPlayer == Black) || old(gameBoard[row, col]) != Empty
            <==> outcome == Ignored)
        && (outcome == Ignored ==>
              Snapshot(gameBoard) == old(Snapshot(gameBoard))
              && currentPlayer == old(currentPlayer) && isAIThinking == old(isAIThinking))
        && (outcome != Ignored ==>
              Snapshot(gameBoard) == Place(old(Snapshot(gameBoard)), row, col, old(currentPlayer))
              && EmptyCount(Snapshot(gameBoard)) + 1 == EmptyCount(old(Snapshot(gameBoard))))
        && (outcome == Won <==> outcome != Ignored && FiveInLine(Snapshot(gameBoard), row, col))
        && (outcome == Won ==> HasFive(Snapshot(gameBoard), old(currentPlayer)))
        && (outcome == Drawn <==> outcome != Ignored && outcome != Won && NoEmptyCell(Snapshot(gameBoard)))
        && (outcome == Continued ==>
              currentPlayer == Opponent(old(currentPlayer))
              && isAIThinking == (old(isAIThinking) || currentPlayer == White))
        && (outcome != Continued ==> currentPlayer == old(currentPlayer) && isAIThinking == old(isAIThinking))
    {
      if isAIThinking && currentPlayer == Black {
        return Ignored;
      }
      var row := index / N;
      var col := index % N;
      if gameBoard[row, col] != Empty {
        return Ignored;
      }
      ghost var g := Snapshot(gameBoard);
      Put(gameBoard, row, col, currentPlayer);
      PlaceStoneCount(g, row, col, currentPlayer);

      var win := CheckWin(gameBoard, row, col);
      if win {
        assert Snapshot(gameBoard)[row][col] == currentPlayer;
        return Won;
      }
      var full := IsBoardFull(gameBoard);
      if full {
        return Drawn;
      }
      currentPlayer := Opponent(currentPlayer);
      if currentPlayer == White && !isAIThinking {
        isAIThinking := true;
      }
      return Continued;
    }
  }
}
