/**
 * Win detection of the move engine: the bounded scans `countDirection`,
 * `checkWin` and `checkWinForPlayer` of ai-worker.js, which read the board
 * and never change it.
 */
module Rules {
  import opened Board

  /**
   * `countDirection`: the number of consecutive cells holding what (row, col)
   * holds, starting one step away along (dx, dy). The scan stops at the edge,
   * so it never reads outside the grid and never counts more than 14.
   */
  method CountDirection(g: Grid, row: int, col: int, dx: int, dy: int) returns (count: nat)
    requires IsGrid(g) && InBounds(row, col) && IsDirection(dx, dy)
    ensures count == Run(g, row, col, dx, dy, g[row][col])
    ensures count <= N - 1
  {
    count := 0;
    var player := g[row][col];
    var r, c := row + dx, col + dy;
    ghost var pr, pc := row, col;
    while InBounds(r, c) && g[r][c] == player
      invariant InBounds(pr, pc) && r == pr + dx && c == pc + dy
      invariant count + Run(g, pr, pc, dx, dy, player) == Run(g, row, col, dx, dy, player)
      decreases Room(pr, pc, dx, dy)
    {
      RunStep(g, pr, pc, dx, dy, player);
      count := count + 1;
      pr, pc := r, c;
      r, c := r + dx, c + dy;
    }
  }

  /**
   * `checkWin`: some axis carries five or more consecutive cells equal to
   * the cell at (row, col), that cell among them.
   */
  method CheckWin(g: Grid, row: int, col: int) returns (win: bool)
    requires IsGrid(g) && InBounds(row, col)
    ensures win <==> FiveInLine(g, row, col)
  {
    var i := 0;
    while i < |Directions|
      invariant 0 <= i <= |Directions|
      invariant forall j :: 0 <= j < i ==> !FiveOnAxis(g, row, col, Directions[j].0, Directions[j].1)
    {
      var (dx, dy) := Directions[i];
      var count := 1;
      var forward := CountDirection(g, row, col, dx, dy);
      count := count + forward;
      var backward := CountDirection(g, row, col, -dx, -dy);
      count := count + backward;
      AxisFive(g, row, col, dx, dy);
      if count >= 5 {
        return true;
      }
      i := i + 1;
    }
    return false;
  }

  /** `checkWinForPlayer`: some stone of `player` anchors five in a row. */
  method CheckWinForPlayer(g: Grid, player: Stone) returns (win: bool)
    requires IsGrid(g)
    ensures win <==> HasFive(g, player)
  {
    for row := 0 to N
      invariant forall r, c :: 0 <= r < row && 0 <= c < N && g[r][c] == player ==> !FiveInLine(g, r, c)
    {
      for col := 0 to N
        invariant forall r, c :: InBounds(r, c) && Before(r, c, row, col) && g[r][c] == player ==> !FiveInLine(g, r, c)
      {
        if g[row][col] == player {
          var w := CheckWin(g, row, col);
          if w {
            return true;
          }
        }
      }
    }
    return false;
  }
}
