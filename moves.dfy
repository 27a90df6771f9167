/**
 * Candidate generation (`getValidMoves` in ai-worker.js): the empty cells
 * within two rows and two columns of some stone, each listed once.
 */
module Moves {
  import opened Board

  /** (r, c) lies within Chebyshev distance 2 of (sr, sc). */
  predicate Near(r: int, c: int, sr: int, sc: int) {
    -2 <= r - sr <= 2 && -2 <= c - sc <= 2
  }

  /** An empty cell of the grid within Chebyshev distance 2 of some stone. */
  ghost predicate IsCandidate(g: Grid, m: Move)
    requires IsGrid(g)
  {
    && InBounds(m.row, m.col)
    && g[m.row][m.col] == Empty
    && exists sr, sc :: InBounds(sr, sc) && g[sr][sc] != Empty && Near(m.row, m.col, sr, sc)
  }

  /** Every empty cell near (sr, sc) is in `moves`. */
  ghost predicate Covered(g: Grid, sr: int, sc: int, moves: seq<Move>)
    requires IsGrid(g)
  {
    forall r, c :: InBounds(r, c) && Near(r, c, sr, sc) && g[r][c] == Empty ==> Move(r, c) in moves
  }

  /**
   * What the `occupied` set is for: every listed move is a candidate and is
   * in `occupied`, no move is listed twice, and every empty cell recorded
   * in `occupied` has been listed.
   */
  ghost predicate Bookkeeping(g: Grid, moves: seq<Move>, occupied: set<Move>)
    requires IsGrid(g)
  {
    && (forall i :: 0 <= i < |moves| ==> IsCandidate(g, moves[i]) && moves[i] in occupied)
    && (forall i, j :: 0 <= i < j < |moves| ==> moves[i] != moves[j])
    && (forall m :: m in occupied ==> InBounds(m.row, m.col) && (g[m.row][m.col] != Empty || m in moves))
  }

  /** Every listed move is an empty cell of the grid. */
  ghost predicate EmptyCells(g: Grid, ms: seq<Move>)
    requires IsGrid(g)
  {
    forall i :: 0 <= i < |ms| ==> InBounds(ms[i].row, ms[i].col) && g[ms[i].row][ms[i].col] == Empty
  }

  /** The state of the `getValidMoves` scan: the moves listed so far and the `occupied` set. */
  datatype Scan = Scan(moves: seq<Move>, occupied: set<Move>)

  /** The innermost step: list (r, c) if it is on the grid, empty and not yet in `occupied`. */
  function Offer(g: Grid, r: int, c: int, st: Scan): Scan
    requires IsGrid(g)
  {
    if InBounds(r, c) && g[r][c] == Empty && Move(r, c) !in st.occupied then
      Scan(st.moves + [Move(r, c)], st.occupied + {Move(r, c)})
    else
      st
  }

  /** The `dc` loop for row offset `dr` around (row, col), run for the offsets below `dc`. */
  function ScanDc(g: Grid, row: int, col: int, dr: int, dc: int, st: Scan): Scan
    requires IsGrid(g) && -2 <= dc <= 3
    decreases dc + 2
  {
    if dc == -2 then st else Offer(g, row + dr, col + dc - 1, ScanDc(g, row, col, dr, dc - 1, st))
  }

  /** The `dr` loop around (row, col), run for the offsets below `dr`. */
  function ScanDr(g: Grid, row: int, col: int, dr: int, st: Scan): Scan
    requires IsGrid(g) && -2 <= dr <= 3
    decreases dr + 2
  {
    if dr == -2 then st else ScanDc(g, row, col, dr - 1, 3, ScanDr(g, row, col, dr - 1, st))
  }

  /** One cell of the board scan: a stone is recorded in `occupied` and its neighbourhood offered. */
  function ScanCell(g: Grid, row: int, col: int, st: Scan): Scan
    requires IsGrid(g) && InBounds(row, col)
  {
    if g[row][col] != Empty then ScanDr(g, row, col, 3, Scan(st.moves, st.occupied + {Move(row, col)})) else st
  }

  /** The `col` loop of row `row`, run for the columns below `col`. */
  function ScanCols(g: Grid, row: int, col: int, st: Scan): Scan
    requires IsGrid(g) && 0 <= row < N && 0 <= col <= N
  {
    if col == 0 then st else ScanCell(g, row, col - 1, ScanCols(g, row, col - 1, st))
  }

  /** The `row` loop, run for the rows below `row`, from nothing listed. */
  function ScanRows(g: Grid, row: int): Scan
    requires IsGrid(g) && 0 <= row <= N
  {
    if row == 0 then Scan([], {}) else ScanCols(g, row - 1, N, ScanRows(g, row - 1))
  }

  /**
   * The list `getValidMoves` builds, in its order: stones in row-major
   * order, and around each the offsets (dr, dc) in row-major order. Every
   * entry is an empty cell of the grid.
   */
  function ValidMoves(g: Grid): (ms: seq<Move>)
    requires IsGrid(g)
    ensures EmptyCells(g, ms)
  {
    ScanRowsKeeps(g, N);
    ScanRows(g, N).moves
  }

  /** The scan's state keeps the `occupied` bookkeeping. */
  ghost predicate Kept(g: Grid, st: Scan)
    requires IsGrid(g)
  {
    Bookkeeping(g, st.moves, st.occupied)
  }

  lemma PrefixHas(a: seq<Move>, b: seq<Move>, m: Move)
    requires a <= b && m in a
    ensures m in b
  {
    var i :| 0 <= i < |a| && a[i] == m;
    assert b[i] == m;
  }

  lemma CoveredGrows(g: Grid, sr: int, sc: int, a: seq<Move>, b: seq<Move>)
    requires IsGrid(g) && Covered(g, sr, sc, a) && a <= b
    ensures Covered(g, sr, sc, b)
  {
    forall r, c | InBounds(r, c) && Near(r, c, sr, sc) && g[r][c] == Empty
      ensures Move(r, c) in b
    {
      PrefixHas(a, b, Move(r, c));
    }
  }

  /** Offering a cell near a stone keeps the bookkeeping, only appends, and lists the cell if it is empty. */
  lemma OfferKeeps(g: Grid, row: int, col: int, r: int, c: int, st: Scan)
    requires IsGrid(g) && InBounds(row, col) && g[row][col] != Empty && Near(r, c, row, col)
    requires Kept(g, st)
    ensures Kept(g, Offer(g, r, c, st))
    ensures st.moves <= Offer(g, r, c, st).moves
    ensures InBounds(r, c) && g[r][c] == Empty ==> Move(r, c) in Offer(g, r, c, st).moves
  {
    if InBounds(r, c) && g[r][c] == Empty && Move(r, c) !in st.occupied {
      assert IsCandidate(g, Move(r, c));
    }
  }

  /** The `dc` loop keeps the bookkeeping and lists the empty cells of row row + dr it has passed. */
  lemma {:induction false} ScanDcKeeps(g: Grid, row: int, col: int, dr: int, dc: int, st: Scan)
    requires IsGrid(g) && InBounds(row, col) && g[row][col] != Empty && -2 <= dr <= 2 && -2 <= dc <= 3
    requires Kept(g, st)
    ensures Kept(g, ScanDc(g, row, col, dr, dc, st))
    ensures st.moves <= ScanDc(g, row, col, dr, dc, st).moves
    ensures forall r, c :: InBounds(r, c) && r == row + dr && col - 2 <= c < col + dc && g[r][c] == Empty
                           ==> Move(r, c) in ScanDc(g, row, col, dr, dc, st).moves
    decreases dc + 2
  {
    if dc > -2 {
      var prev := ScanDc(g, row, col, dr, dc - 1, st);
      ScanDcKeeps(g, row, col, dr, dc - 1, st);
      OfferKeeps(g, row, col, row + dr, col + dc - 1, prev);
      var next := Offer(g, row + dr, col + dc - 1, prev);
      forall r, c | InBounds(r, c) && r == row + dr && col - 2 <= c < col + dc - 1 && g[r][c] == Empty
        ensures Move(r, c) in next.moves
      {
        PrefixHas(prev.moves, next.moves, Move(r, c));
      }
    }
  }

  /** The `dr` loop keeps the bookkeeping and lists the empty cells near (row, col) in the rows it has passed. */
  lemma {:induction false} ScanDrKeeps(g: Grid, row: int, col: int, dr: int, st: Scan)
    requires IsGrid(g) && InBounds(row, col) && g[row][col] != Empty && -2 <= dr <= 3
    requires Kept(g, st)
    ensures Kept(g, ScanDr(g, row, col, dr, st))
    ensures st.moves <= ScanDr(g, row, col, dr, st).moves
    ensures forall r, c :: InBounds(r, c) && Near(r, c, row, col) && r < row + dr && g[r][c] == Empty
                           ==> Move(r, c) in ScanDr(g, row, col, dr, st).moves
    decreases dr + 2
  {
    if dr > -2 {
      var prev := ScanDr(g, row, col, dr - 1, st);
      ScanDrKeeps(g, row, col, dr - 1, st);
      ScanDcKeeps(g, row, col, dr - 1, 3, prev);
      var next := ScanDc(g, row, col, dr - 1, 3, prev);
      forall r, c | InBounds(r, c) && Near(r, c, row, col) && r < row + dr - 1 && g[r][c] == Empty
        ensures Move(r, c) in next.moves
      {
        PrefixHas(prev.moves, next.moves, Move(r, c));
      }
    }
  }

  /** Scanning one cell keeps the bookkeeping and, at a stone, lists every empty cell near it. */
  lemma ScanCellKeeps(g: Grid, row: int, col: int, st: Scan)
    requires IsGrid(g) && InBounds(row, col) && Kept(g, st)
    ensures Kept(g, ScanCell(g, row, col, st))
    ensures st.moves <= ScanCell(g, row, col, st).moves
    ensures g[row][col] != Empty ==> Covered(g, row, col, ScanCell(g, row, col, st).moves)
  {
    if g[row][col] != Empty {
      ScanDrKeeps(g, row, col, 3, Scan(st.moves, st.occupied + {Move(row, col)}));
    }
  }

  /** The `col` loop keeps the bookkeeping and covers every stone of the row it has passed. */
  lemma {:induction false} ScanColsKeeps(g: Grid, row: int, col: int, st: Scan)
    requires IsGrid(g) && 0 <= row < N && 0 <= col <= N && Kept(g, st)
    ensures Kept(g, ScanCols(g, row, col, st))
    ensures st.moves <= ScanCols(g, row, col, st).moves
    ensures forall sc :: 0 <= sc < col && g[row][sc] != Empty ==> Covered(g, row, sc, ScanCols(g, row, col, st).moves)
  {
    if col > 0 {
      var prev := ScanCols(g, row, col - 1, st);
      ScanColsKeeps(g, row, col - 1, st);
      ScanCellKeeps(g, row, col - 1, prev);
      var next := ScanCell(g, row, col - 1, prev);
      forall sc | 0 <= sc < col - 1 && g[row][sc] != Empty
        ensures Covered(g, row, sc, next.moves)
      {
        CoveredGrows(g, row, sc, prev.moves, next.moves);
      }
    }
  }

  /** The `row` loop keeps the bookkeeping and covers every stone of the rows it has passed. */
  lemma {:induction false} ScanRowsKeeps(g: Grid, row: int)
    requires IsGrid(g) && 0 <= row <= N
    ensures Kept(g, ScanRows(g, row))
    ensures forall sr, sc :: 0 <= sr < row && 0 <= sc < N && g[sr][sc] != Empty ==> Covered(g, sr, sc, ScanRows(g, row).moves)
  {
    if row > 0 {
      var prev := ScanRows(g, row - 1);
      ScanRowsKeeps(g, row - 1);
      ScanColsKeeps(g, row - 1, N, prev);
      var next := ScanCols(g, row - 1, N, prev);
      forall sr, sc | 0 <= sr < row - 1 && 0 <= sc < N && g[sr][sc] != Empty
        ensures Covered(g, sr, sc, next.moves)
      {
        CoveredGrows(g, sr, sc, prev.moves, next.moves);
      }
    }
  }

  /**
   * What `getValidMoves` returns: every empty in-bounds cell within
   * distance 2 of some stone, each exactly once, and nothing else; nothing
   * on a blank board.
   */
  lemma ValidMovesAreCandidates(g: Grid)
    requires IsGrid(g)
    ensures forall i :: 0 <= i < |ValidMoves(g)| ==> IsCandidate(g, ValidMoves(g)[i])
    ensures forall m :: IsCandidate(g, m) ==> m in ValidMoves(g)
    ensures forall i, j :: 0 <= i < j < |ValidMoves(g)| ==> ValidMoves(g)[i] != ValidMoves(g)[j]
    ensures (forall r, c :: InBounds(r, c) ==> g[r][c] == Empty) ==> ValidMoves(g) == []
  {
    ScanRowsKeeps(g, N);
    var moves := ValidMoves(g);
    forall m | IsCandidate(g, m)
      ensures m in moves
    {
      var sr, sc :| InBounds(sr, sc) && g[sr][sc] != Empty && Near(m.row, m.col, sr, sc);
      assert Covered(g, sr, sc, moves);
    }
    if moves != [] {
      assert IsCandidate(g, moves[0]);
    }
  }

  /** `getValidMoves`: the row and column scan over the stones, then the `dr`/`dc` loops around each. */
  method GetValidMoves(g: Grid) returns (moves: seq<Move>)
    requires IsGrid(g)
    ensures moves == ValidMoves(g)
    ensures forall i :: 0 <= i < |moves| ==> IsCandidate(g, moves[i])
    ensures forall m :: IsCandidate(g, m) ==> m in moves
    ensures forall i, j :: 0 <= i < j < |moves| ==> moves[i] != moves[j]
    ensures (forall r, c :: InBounds(r, c) ==> g[r][c] == Empty) ==> moves == []
  {
    moves := [];
    var occupied: set<Move> := {};
    for row := 0 to N
      invariant Scan(moves, occupied) == ScanRows(g, row)
    {
      for col := 0 to N
        invariant Scan(moves, occupied) == ScanCols(g, row, col, ScanRows(g, row))
      {
        if g[row][col] != Empty {
          occupied := occupied + {Move(row, col)};
          moves, occupied := AddNeighbours(g, row, col, moves, occupied);
        }
      }
    }
    ValidMovesAreCandidates(g);
  }

  /** The `dr`/`dc` loops of `getValidMoves` around the stone at (row, col). */
  method AddNeighbours(g: Grid, row: int, col: int, moves0: seq<Move>, occupied0: set<Move>)
    returns (moves: seq<Move>, occupied: set<Move>)
    requires IsGrid(g)
    ensures Scan(moves, occupied) == ScanDr(g, row, col, 3, Scan(moves0, occupied0))
  {
    moves, occupied := moves0, occupied0;
    for dr := -2 to 3
      invariant Scan(moves, occupied) == ScanDr(g, row, col, dr, Scan(moves0, occupied0))
    {
      for dc := -2 to 3
        invariant Scan(moves, occupied) == ScanDc(g, row, col, dr, dc, ScanDr(g, row, col, dr, Scan(moves0, occupied0)))
      {
        var newRow, newCol := row + dr, col + dc;
        if InBounds(newRow, newCol) && g[newRow][newCol] == Empty && Move(newRow, newCol) !in occupied {
          moves := moves + [Move(newRow, newCol)];
          occupied := occupied + {Move(newRow, newCol)};
        }
      }
    }
  }
}
