/**
 * The playing surface shared by the page and the move engine: a 15×15 grid
 * whose cells are empty or hold a white or a black stone, the single-cell
 * write that search uses to place and take back stones, and the
 * specification of "five in a row" along the four axes.
 */
module Board {

  /** Side length of the square grid. */
  const N: int := 15

  /** A cell: `null`, `'white'` or `'black'` in the scripts. */
  datatype Cell = Empty | White | Black

  /** A side, i.e. a cell value that is a stone. */
  type Stone = c: Cell | c != Empty witness White

  /** The other side. */
  function Opponent(p: Stone): (q: Stone)
    ensures q != p
  {
    if p == White then Black else White
  }

  datatype Option<T> = None | Some(value: T)

  /** A `{row, col}` pair. */
  datatype Move = Move(row: int, col: int)

  /** The value of a board: rows of cells. */
  type Grid = seq<seq<Cell>>

  predicate InBounds(r: int, c: int) {
    0 <= r < N && 0 <= c < N
  }

  /** (r, c) comes before (row, col) in the row-major order the scans use. */
  predicate Before(r: int, c: int, row: int, col: int) {
    r < row || (r == row && c < col)
  }

  predicate IsGrid(g: Grid) {
    |g| == N && forall r :: 0 <= r < N ==> |g[r]| == N
  }

  predicate IsBoard(b: array2<Cell>) {
    b.Length0 == N && b.Length1 == N
  }

  /** The current contents of a mutable board as a value. */
  function Snapshot(b: array2<Cell>): (g: Grid)
    requires IsBoard(b)
    reads b
    ensures IsGrid(g)
    ensures forall r, c :: InBounds(r, c) ==> g[r][c] == b[r, c]
  {
    seq(N, r reads b => seq(N, c reads b => if InBounds(r, c) then b[r, c] else Empty))
  }

  /** The board `g` with cell (r, c) set to `v`. */
  function Place(g: Grid, r: int, c: int, v: Cell): (h: Grid)
    requires IsGrid(g) && InBounds(r, c)
    ensures IsGrid(h)
    ensures forall i, j :: InBounds(i, j) ==> h[i][j] == if i == r && j == c then v else g[i][j]
  {
    g[r := g[r][c := v]]
  }

  /** Two boards with the same cells are the same board. */
  lemma GridExt(g: Grid, h: Grid)
    requires IsGrid(g) && IsGrid(h)
    requires forall r, c :: InBounds(r, c) ==> g[r][c] == h[r][c]
    ensures g == h
  {
    forall r | 0 <= r < N
      ensures g[r] == h[r]
    {
      forall c | 0 <= c < N
        ensures g[r][c] == h[r][c]
      {
        assert InBounds(r, c);
      }
    }
  }

  /** Writing back what a cell held before a write restores the board. */
  lemma PlaceRestore(g: Grid, r: int, c: int, v: Cell)
    requires IsGrid(g) && InBounds(r, c)
    ensures Place(Place(g, r, c, v), r, c, g[r][c]) == g
  {
    GridExt(Place(Place(g, r, c, v), r, c, g[r][c]), g);
  }

  /** A second write to a cell replaces the first. */
  lemma PlaceTwice(g: Grid, r: int, c: int, v: Cell, w: Cell)
    requires IsGrid(g) && InBounds(r, c)
    ensures Place(Place(g, r, c, v), r, c, w) == Place(g, r, c, w)
  {
    GridExt(Place(Place(g, r, c, v), r, c, w), Place(g, r, c, w));
  }

  /** `board[r][c] = v` on the shared mutable board. */
  method Put(b: array2<Cell>, r: int, c: int, v: Cell)
    requires IsBoard(b) && InBounds(r, c)
    modifies b
    ensures Snapshot(b) == Place(old(Snapshot(b)), r, c, v)
  {
    ghost var g := Snapshot(b);
    b[r, c] := v;
    GridExt(Snapshot(b), Place(g, r, c, v));
  }

  // ---------------------------------------------------------------------
  // Axes and runs

  /** The four axes scanned for a win: down, right, and the two diagonals. */
  const Directions: seq<(int, int)> := [(1, 0), (0, 1), (1, 1), (1, -1)]

  predicate IsDirection(dr: int, dc: int) {
    -1 <= dr <= 1 && -1 <= dc <= 1 && (dr != 0 || dc != 0)
  }

  /** Coordinate `x` moved `k` steps of size `d` (d is -1, 0 or 1). */
  function Shift(x: int, d: int, k: int): int {
    if d == 1 then x + k else if d == -1 then x - k else x
  }

  /** How many steps along (dr, dc) stay on the grid from (r, c). */
  function Room(r: int, c: int, dr: int, dc: int): nat
    requires InBounds(r, c)
  {
    (if dr == 1 then N - 1 - r else if dr == -1 then r else 0) +
    (if dc == 1 then N - 1 - c else if dc == -1 then c else 0)
  }

  /**
   * The number of consecutive cells equal to `v` met when stepping from
   * (r, c) along (dr, dc), not counting (r, c) itself. Never more than
   * the distance to the edge the scan runs into.
   */
  function Run(g: Grid, r: int, c: int, dr: int, dc: int, v: Cell): (n: nat)
    requires IsGrid(g) && InBounds(r, c) && IsDirection(dr, dc)
    ensures dr == 1 ==> n <= N - 1 - r
    ensures dr == -1 ==> n <= r
    ensures dc == 1 ==> n <= N - 1 - c
    ensures dc == -1 ==> n <= c
    decreases Room(r, c, dr, dc)
  {
    if InBounds(r + dr, c + dc) && g[r + dr][c + dc] == v then
      1 + Run(g, r + dr, c + dc, dr, dc, v)
    else
      0
  }

  /** One step of a run: a matching next cell adds one and leaves less room. */
  lemma RunStep(g: Grid, r: int, c: int, dr: int, dc: int, v: Cell)
    requires IsGrid(g) && InBounds(r, c) && IsDirection(dr, dc)
    requires InBounds(r + dr, c + dc) && g[r + dr][c + dc] == v
    ensures Run(g, r, c, dr, dc, v) == 1 + Run(g, r + dr, c + dc, dr, dc, v)
    ensures Room(r + dr, c + dc, dr, dc) < Room(r, c, dr, dc)
  {
  }

  /** The cell k steps along (dr, dc) from (r, c) is on the grid and holds `v`. */
  predicate HoldsAt(g: Grid, r: int, c: int, dr: int, dc: int, k: int, v: Cell)
    requires IsGrid(g)
  {
    InBounds(Shift(r, dr, k), Shift(c, dc, k)) && g[Shift(r, dr, k)][Shift(c, dc, k)] == v
  }

  /** Every cell k steps along (dr, dc) from (r, c), for lo <= k <= hi, is on the grid and holds `v`. */
  ghost predicate Aligned(g: Grid, r: int, c: int, dr: int, dc: int, lo: int, hi: int, v: Cell)
    requires IsGrid(g)
  {
    forall k :: lo <= k <= hi ==> HoldsAt(g, r, c, dr, dc, k, v)
  }

  lemma HoldsAtShift(g: Grid, r: int, c: int, dr: int, dc: int, k: int, v: Cell)
    requires IsGrid(g) && IsDirection(dr, dc)
    ensures HoldsAt(g, r + dr, c + dc, dr, dc, k, v) == HoldsAt(g, r, c, dr, dc, k + 1, v)
    ensures HoldsAt(g, r, c, -dr, -dc, k, v) == HoldsAt(g, r, c, dr, dc, -k, v)
  {
  }

  /** Peeling the first cell off an aligned stretch. */
  lemma AlignedStep(g: Grid, r: int, c: int, dr: int, dc: int, v: Cell, n: int)
    requires IsGrid(g) && IsDirection(dr, dc) && n >= 1
    ensures Aligned(g, r, c, dr, dc, 1, n, v) <==>
      (HoldsAt(g, r, c, dr, dc, 1, v) && Aligned(g, r + dr, c + dc, dr, dc, 1, n - 1, v))
  {
    if Aligned(g, r, c, dr, dc, 1, n, v) {
      AlignedTail(g, r, c, dr, dc, v, n);
    }
    if HoldsAt(g, r, c, dr, dc, 1, v) && Aligned(g, r + dr, c + dc, dr, dc, 1, n - 1, v) {
      AlignedCons(g, r, c, dr, dc, v, n);
    }
  }

  lemma AlignedTail(g: Grid, r: int, c: int, dr: int, dc: int, v: Cell, n: int)
    requires IsGrid(g) && IsDirection(dr, dc) && n >= 1
    requires Aligned(g, r, c, dr, dc, 1, n, v)
    ensures Aligned(g, r + dr, c + dc, dr, dc, 1, n - 1, v)
  {
    var r1, c1 := r + dr, c + dc;
    forall k | 1 <= k <= n - 1
      ensures HoldsAt(g, r1, c1, dr, dc, k, v)
    {
      HoldsAtShift(g, r, c, dr, dc, k, v);
      assert HoldsAt(g, r, c, dr, dc, k + 1, v);
    }
  }

  lemma AlignedCons(g: Grid, r: int, c: int, dr: int, dc: int, v: Cell, n: int)
    requires IsGrid(g) && IsDirection(dr, dc) && n >= 1
    requires HoldsAt(g, r, c, dr, dc, 1, v) && Aligned(g, r + dr, c + dc, dr, dc, 1, n - 1, v)
    ensures Aligned(g, r, c, dr, dc, 1, n, v)
  {
    var r1, c1 := r + dr, c + dc;
    forall k | 1 <= k <= n
      ensures HoldsAt(g, r, c, dr, dc, k, v)
    {
      if k > 1 {
        HoldsAtShift(g, r, c, dr, dc, k - 1, v);
        assert HoldsAt(g, r1, c1, dr, dc, k - 1, v);
      }
    }
  }

  /** A run is at least `n` long exactly when the first `n` cells past (r, c) hold `v`. */
  lemma {:induction false} RunAligned(g: Grid, r: int, c: int, dr: int, dc: int, v: Cell, n: nat)
    requires IsGrid(g) && InBounds(r, c) && IsDirection(dr, dc)
    ensures Run(g, r, c, dr, dc, v) >= n <==> Aligned(g, r, c, dr, dc, 1, n, v)
    decreases n
  {
    if n > 0 {
      AlignedStep(g, r, c, dr, dc, v, n);
      var r1, c1 := r + dr, c + dc;
      assert Shift(r, dr, 1) == r1 && Shift(c, dc, 1) == c1;
      if InBounds(r1, c1) && g[r1][c1] == v {
        RunStep(g, r, c, dr, dc, v);
        RunAligned(g, r1, c1, dr, dc, v, n - 1);
      } else {
        assert !HoldsAt(g, r, c, dr, dc, 1, v);
        assert Run(g, r, c, dr, dc, v) == 0;
      }
    }
  }

  /** What `checkWin` computes on one axis: 1 plus the runs in both directions reaches 5. */
  ghost predicate CountsFive(g: Grid, r: int, c: int, dr: int, dc: int)
    requires IsGrid(g) && InBounds(r, c) && IsDirection(dr, dc)
  {
    1 + Run(g, r, c, dr, dc, g[r][c]) + Run(g, r, c, -dr, -dc, g[r][c]) >= 5
  }

  /** Some window of five consecutive cells on axis (dr, dc) covers (r, c) and holds only g[r][c]. */
  ghost predicate FiveOnAxis(g: Grid, r: int, c: int, dr: int, dc: int)
    requires IsGrid(g) && InBounds(r, c)
  {
    exists s :: -4 <= s <= 0 && Window(g, r, c, dr, dc, s)
  }

  /** The five cells s, ..., s + 4 steps along (dr, dc) from (r, c) all hold g[r][c]. */
  ghost predicate Window(g: Grid, r: int, c: int, dr: int, dc: int, s: int)
    requires IsGrid(g) && InBounds(r, c)
  {
    Aligned(g, r, c, dr, dc, s, s + 4, g[r][c])
  }

  /** Some axis has five in a row through (r, c), all equal to g[r][c]. */
  ghost predicate FiveInLine(g: Grid, r: int, c: int)
    requires IsGrid(g) && InBounds(r, c)
  {
    exists i :: 0 <= i < |Directions| && FiveOnAxis(g, r, c, Directions[i].0, Directions[i].1)
  }

  /** Side `p` has a stone that anchors five in a row somewhere on the board. */
  ghost predicate HasFive(g: Grid, p: Stone)
    requires IsGrid(g)
  {
    exists r, c :: InBounds(r, c) && g[r][c] == p && FiveInLine(g, r, c)
  }

  /** The count the scan forms on one axis reaches 5 exactly when a window of five covers the cell. */
  lemma AxisFive(g: Grid, r: int, c: int, dr: int, dc: int)
    requires IsGrid(g) && InBounds(r, c) && IsDirection(dr, dc)
    ensures CountsFive(g, r, c, dr, dc) <==> FiveOnAxis(g, r, c, dr, dc)
  {
    if CountsFive(g, r, c, dr, dc) {
      CountsFiveWindow(g, r, c, dr, dc);
    }
    if FiveOnAxis(g, r, c, dr, dc) {
      WindowCountsFive(g, r, c, dr, dc);
    }
  }

  lemma CountsFiveWindow(g: Grid, r: int, c: int, dr: int, dc: int)
    requires IsGrid(g) && InBounds(r, c) && IsDirection(dr, dc)
    requires CountsFive(g, r, c, dr, dc)
    ensures FiveOnAxis(g, r, c, dr, dc)
  {
    var v := g[r][c];
    var a := Run(g, r, c, dr, dc, v);
    var b := Run(g, r, c, -dr, -dc, v);
    var t: int := if b < 4 then b else 4;
    var s := -t;
    forall k | s <= k <= s + 4
      ensures HoldsAt(g, r, c, dr, dc, k, v)
    {
      if k < 0 {
        RunHoldsBack(g, r, c, dr, dc, v, -k);
      } else if k > 0 {
        RunHolds(g, r, c, dr, dc, v, k);
      } else {
        assert Shift(r, dr, 0) == r && Shift(c, dc, 0) == c;
      }
    }
    assert Window(g, r, c, dr, dc, s);
  }

  /** Every cell within a run holds the run's value. */
  lemma RunHolds(g: Grid, r: int, c: int, dr: int, dc: int, v: Cell, k: int)
    requires IsGrid(g) && InBounds(r, c) && IsDirection(dr, dc)
    requires 1 <= k <= Run(g, r, c, dr, dc, v)
    ensures HoldsAt(g, r, c, dr, dc, k, v)
  {
    RunAligned(g, r, c, dr, dc, v, k);
  }

  /** The same for a run scanned the opposite way: its cells sit at negative offsets. */
  lemma RunHoldsBack(g: Grid, r: int, c: int, dr: int, dc: int, v: Cell, k: int)
    requires IsGrid(g) && InBounds(r, c) && IsDirection(dr, dc)
    requires 1 <= k <= Run(g, r, c, -dr, -dc, v)
    ensures HoldsAt(g, r, c, dr, dc, -k, v)
  {
    RunHolds(g, r, c, -dr, -dc, v, k);
    HoldsAtShift(g, r, c, dr, dc, k, v);
  }

  lemma WindowCountsFive(g: Grid, r: int, c: int, dr: int, dc: int)
    requires IsGrid(g) && InBounds(r, c) && IsDirection(dr, dc)
    requires FiveOnAxis(g, r, c, dr, dc)
    ensures CountsFive(g, r, c, dr, dc)
  {
    var v := g[r][c];
    var nr, nc := -dr, -dc;
    var s :| -4 <= s <= 0 && Window(g, r, c, dr, dc, s);
    assert Aligned(g, r, c, dr, dc, 1, s + 4, v);
    RunAligned(g, r, c, dr, dc, v, s + 4);
    forall k | 1 <= k <= -s
      ensures HoldsAt(g, r, c, nr, nc, k, v)
    {
      HoldsAtShift(g, r, c, dr, dc, k, v);
      assert HoldsAt(g, r, c, dr, dc, -k, v);
    }
    RunAligned(g, r, c, nr, nc, v, -s);
  }

  // ---------------------------------------------------------------------
  // Empty cells

  function CountEmpty(s: seq<Cell>): (n: nat)
    ensures n <= |s|
  {
    if s == [] then 0 else (if s[0] == Empty then 1 else 0) + CountEmpty(s[1..])
  }

  /** The number of empty cells, row by row (`board.flat().filter(cell => cell === null).length`). */
  function EmptyCount(g: Grid): nat {
    if g == [] then 0 else CountEmpty(g[0]) + EmptyCount(g[1..])
  }

  ghost predicate NoEmptyCell(g: Grid)
    requires IsGrid(g)
  {
    forall r, c :: InBounds(r, c) ==> g[r][c] != Empty
  }

  lemma {:induction false} CountEmptyZero(s: seq<Cell>)
    ensures CountEmpty(s) == 0 <==> forall j :: 0 <= j < |s| ==> s[j] != Empty
  {
    if s != [] {
      CountEmptyZero(s[1..]);
      assert forall j :: 1 <= j < |s| ==> s[j] == s[1..][j - 1];
    }
  }

  lemma {:induction false} EmptyCountZeroRows(g: Grid)
    ensures EmptyCount(g) == 0 <==> forall i, j :: 0 <= i < |g| && 0 <= j < |g[i]| ==> g[i][j] != Empty
  {
    if g != [] {
      CountEmptyZero(g[0]);
      EmptyCountZeroRows(g[1..]);
      assert forall i :: 1 <= i < |g| ==> g[i] == g[1..][i - 1];
    }
  }

  /** The empty-cell count is zero exactly when no cell of the board is empty. */
  lemma EmptyCountZero(g: Grid)
    requires IsGrid(g)
    ensures EmptyCount(g) == 0 <==> NoEmptyCell(g)
  {
    EmptyCountZeroRows(g);
    if NoEmptyCell(g) {
      forall i, j | 0 <= i < |g| && 0 <= j < |g[i]| ensures g[i][j] != Empty {
        assert InBounds(i, j);
      }
    }
  }

  lemma {:induction false} CountEmptyFill(s: seq<Cell>, j: int, p: Stone)
    requires 0 <= j < |s| && s[j] == Empty
    ensures CountEmpty(s[j := p]) + 1 == CountEmpty(s)
  {
    if j == 0 {
      assert s[j := p][1..] == s[1..];
    } else {
      CountEmptyFill(s[1..], j - 1, p);
      assert s[j := p][1..] == s[1..][j - 1 := p];
    }
  }

  lemma {:induction false} EmptyCountFillRows(g: Grid, i: int, j: int, p: Stone)
    requires 0 <= i < |g| && 0 <= j < |g[i]| && g[i][j] == Empty
    ensures EmptyCount(g[i := g[i][j := p]]) + 1 == EmptyCount(g)
  {
    if i == 0 {
      CountEmptyFill(g[0], j, p);
      assert g[i := g[i][j := p]][1..] == g[1..];
    } else {
      EmptyCountFillRows(g[1..], i - 1, j, p);
      assert g[i := g[i][j := p]][1..] == g[1..][i - 1 := g[i][j := p]];
    }
  }

  /** Putting a stone on an empty cell removes exactly one empty cell. */
  lemma PlaceStoneCount(g: Grid, r: int, c: int, p: Stone)
    requires IsGrid(g) && InBounds(r, c) && g[r][c] == Empty
    ensures EmptyCount(Place(g, r, c, p)) + 1 == EmptyCount(g)
  {
    EmptyCountFillRows(g, r, c, p);
  }
}
