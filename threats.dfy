/**
 * Threat detection (`detectThreats` in ai-worker.js): every empty cell is
 * tried for both sides on the shared board, and each placement is taken
 * back before the next cell is tried.
 */
module Threats {
  import opened Board
  import opened Rules

  /** Filling the cell m with `p` gives `p` five in a row somewhere on the board. */
  ghost predicate WinsWith(g: Grid, m: Move, p: Stone)
    requires IsGrid(g) && InBounds(m.row, m.col)
  {
    HasFive(Place(g, m.row, m.col, p), p)
  }

  /**
   * How often `detectThreats` lists m: once if filling it wins for the side
   * to move, once more if filling it wins for the opponent; never for an
   * occupied or off-board cell.
   */
  ghost function ThreatCount(g: Grid, player: Stone, m: Move): nat
    requires IsGrid(g)
  {
    if InBounds(m.row, m.col) && g[m.row][m.col] == Empty then
      (if WinsWith(g, m, player) then 1 else 0) + (if WinsWith(g, m, Opponent(player)) then 1 else 0)
    else
      0
  }

  /** The moves are listed in row-major order. */
  ghost predicate RowMajor(ms: seq<Move>) {
    forall i, j :: 0 <= i < j < |ms| ==> !Before(ms[j].row, ms[j].col, ms[i].row, ms[i].col)
  }

  /** A list `detectThreats` returns: each threat cell as often as it wins, in row-major order. */
  ghost predicate ThreatList(g: Grid, player: Stone, threats: seq<Move>)
    requires IsGrid(g)
  {
    && RowMajor(threats)
    && forall m :: multiset(threats)[m] == ThreatCount(g, player, m)
  }

  /** The state of the `detectThreats` scan once every cell before (row, col) has been tried. */
  ghost predicate ScannedUpTo(g: Grid, player: Stone, threats: seq<Move>, row: int, col: int)
    requires IsGrid(g)
  {
    && (forall m :: multiset(threats)[m] == if Before(m.row, m.col, row, col) then ThreatCount(g, player, m) else 0)
    && (forall i :: 0 <= i < |threats| ==> Before(threats[i].row, threats[i].col, row, col))
    && RowMajor(threats)
  }

  /** Listing a cell's hits moves the scan one cell on. */
  lemma ScanStep(g: Grid, player: Stone, threats: seq<Move>, hits: seq<Move>, row: int, col: int)
    requires IsGrid(g) && InBounds(row, col)
    requires ScannedUpTo(g, player, threats, row, col)
    requires forall i :: 0 <= i < |hits| ==> hits[i] == Move(row, col)
    requires |hits| == ThreatCount(g, player, Move(row, col))
    ensures ScannedUpTo(g, player, threats + hits, row, col + 1)
  {
    var t := threats + hits;
    HitsMultiset(hits, Move(row, col));
    forall i, j | 0 <= i < j < |t|
      ensures !Before(t[j].row, t[j].col, t[i].row, t[i].col)
    {
      if j >= |threats| && i < |threats| {
        assert t[i] == threats[i];
      }
    }
  }

  lemma {:induction false} HitsMultiset(hits: seq<Move>, here: Move)
    requires forall i :: 0 <= i < |hits| ==> hits[i] == here
    ensures forall m :: multiset(hits)[m] == if m == here then |hits| else 0
  {
    if hits != [] {
      HitsMultiset(hits[1..], here);
      assert hits == [hits[0]] + hits[1..];
    }
  }

  /** Finishing a row moves the scan to the start of the next one. */
  lemma ScanNextRow(g: Grid, player: Stone, threats: seq<Move>, row: int)
    requires IsGrid(g) && ScannedUpTo(g, player, threats, row, N)
    ensures ScannedUpTo(g, player, threats, row + 1, 0)
  {
  }

  /**
   * `detectThreats`: the board is left exactly as it was found; the result
   * lists, in row-major order, each empty cell as many times as there are
   * sides for which filling it makes five in a row.
   */
  method DetectThreats(b: array2<Cell>, player: Stone) returns (threats: seq<Move>)
    requires IsBoard(b)
    modifies b
    ensures Snapshot(b) == old(Snapshot(b))
    ensures forall m :: multiset(threats)[m] == ThreatCount(Snapshot(b), player, m)
    ensures RowMajor(threats)
  {
    ghost var g := Snapshot(b);
    threats := [];
    for row := 0 to N
      invariant Snapshot(b) == g
      invariant ScannedUpTo(g, player, threats, row, 0)
    {
      for col := 0 to N
        invariant Snapshot(b) == g
        invariant ScannedUpTo(g, player, threats, row, col)
      {
        var hits := [];
        if b[row, col] == Empty {
          hits := TryCell(b, row, col, player);
        }
        ScanStep(g, player, threats, hits, row, col);
        threats := threats + hits;
      }
      ScanNextRow(g, player, threats, row);
    }
  }

  /** The body of the `detectThreats` scan for one empty cell: try each side there, then empty it again. */
  method TryCell(b: array2<Cell>, row: int, col: int, player: Stone) returns (hits: seq<Move>)
    requires IsBoard(b) && InBounds(row, col) && b[row, col] == Empty
    modifies b
    ensures Snapshot(b) == old(Snapshot(b))
    ensures hits == (if WinsWith(Snapshot(b), Move(row, col), player) then [Move(row, col)] else [])
                  + (if WinsWith(Snapshot(b), Move(row, col), Opponent(player)) then [Move(row, col)] else [])
    ensures |hits| == ThreatCount(Snapshot(b), player, Move(row, col))
  {
    ghost var g := Snapshot(b);
    var opponent := Opponent(player);
    var here := Move(row, col);
    hits := [];
    Put(b, row, col, player);
    var ownWin := CheckWinForPlayer(Snapshot(b), player);
    if ownWin {
      hits := hits + [here];
    }
    Put(b, row, col, opponent);
    PlaceTwice(g, row, col, player, opponent);
    var oppWin := CheckWinForPlayer(Snapshot(b), opponent);
    if oppWin {
      hits := hits + [here];
    }
    Put(b, row, col, Empty);
    PlaceRestore(g, row, col, opponent);
  }

  /** Whatever is listed was an empty cell that completes five for one side or the other. */
  lemma ListedAreThreats(g: Grid, player: Stone, threats: seq<Move>)
    requires IsGrid(g)
    requires forall m :: multiset(threats)[m] == ThreatCount(g, player, m)
    ensures forall i :: 0 <= i < |threats| ==>
      var m := threats[i];
      InBounds(m.row, m.col) && g[m.row][m.col] == Empty
      && (WinsWith(g, m, player) || WinsWith(g, m, Opponent(player)))
  {
    forall i | 0 <= i < |threats|
      ensures ThreatCount(g, player, threats[i]) > 0
    {
      assert threats[i] in multiset(threats);
    }
  }
}
