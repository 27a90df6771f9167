/**
 * The transposition-table key (`boardToString` in ai-worker.js): every cell
 * spelled as ".", "white" or "black", row after row, with no separators.
 * The three tokens begin with different characters, so the key can be read
 * back cell by cell and two different boards never share a key.
 */
module Keys {
  import opened Board

  /** How one cell is spelled in the key. */
  function Token(c: Cell): string {
    match c
    case Empty => "."
    case White => "white"
    case Black => "black"
  }

  /** One row joined without separators. */
  function RowString(cells: seq<Cell>): (s: string)
    ensures |cells| <= |s| <= 5 * |cells|
  {
    if cells == [] then "" else Token(cells[0]) + RowString(cells[1..])
  }

  /** `boardToString`: the rows' strings joined without separators. */
  function BoardToString(g: Grid): (key: string)
    ensures (forall r :: 0 <= r < |g| ==> |g[r]| == N) ==> N * |g| <= |key| <= 5 * N * |g|
  {
    if g == [] then "" else RowString(g[0]) + BoardToString(g[1..])
  }

  /** Reads cells back from a key, one token at a time, by its first character. */
  function DecodeCells(s: string): seq<Cell>
    decreases |s|
  {
    if s == [] then []
    else if s[0] == '.' then [Empty] + DecodeCells(s[1..])
    else if s[0] == 'w' && |s| >= 5 then [White] + DecodeCells(s[5..])
    else if s[0] == 'b' && |s| >= 5 then [Black] + DecodeCells(s[5..])
    else []
  }

  /** All cells, row after row. */
  function Flatten(g: Grid): seq<Cell> {
    if g == [] then [] else g[0] + Flatten(g[1..])
  }

  /** Cuts a cell sequence into rows of `n`. */
  function Rows(cells: seq<Cell>, n: nat): Grid
    requires n > 0
    decreases |cells|
  {
    if |cells| < n then [] else [cells[..n]] + Rows(cells[n..], n)
  }

  /** The board a key stands for. */
  function BoardFromString(s: string): Grid {
    Rows(DecodeCells(s), N)
  }

  lemma {:induction false} RowStringAppend(a: seq<Cell>, b: seq<Cell>)
    ensures RowString(a + b) == RowString(a) + RowString(b)
  {
    if a != [] {
      RowStringAppend(a[1..], b);
      assert (a + b)[1..] == a[1..] + b;
    } else {
      assert a + b == b;
    }
  }

  lemma {:induction false} BoardToStringFlat(g: Grid)
    ensures BoardToString(g) == RowString(Flatten(g))
  {
    if g != [] {
      BoardToStringFlat(g[1..]);
      RowStringAppend(g[0], Flatten(g[1..]));
    }
  }

  /** Decoding undoes the spelling of any row of cells. */
  lemma {:induction false} DecodeRowString(cells: seq<Cell>)
    ensures DecodeCells(RowString(cells)) == cells
  {
    if cells != [] {
      var t := Token(cells[0]);
      var rest := RowString(cells[1..]);
      DecodeRowString(cells[1..]);
      assert (t + rest)[|t|..] == rest;
      assert cells == [cells[0]] + cells[1..];
    }
  }

  lemma {:induction false} RowsFlatten(g: Grid)
    requires forall i :: 0 <= i < |g| ==> |g[i]| == N
    ensures Rows(Flatten(g), N) == g
  {
    if g != [] {
      RowsFlatten(g[1..]);
      var f := Flatten(g);
      assert f == g[0] + Flatten(g[1..]);
      assert f[..N] == g[0];
      assert f[N..] == Flatten(g[1..]);
      assert g == [g[0]] + g[1..];
    }
  }

  /** A key determines its board: reading it back gives the board it was made from. */
  lemma KeyRoundTrip(g: Grid)
    requires IsGrid(g)
    ensures BoardFromString(BoardToString(g)) == g
  {
    BoardToStringFlat(g);
    DecodeRowString(Flatten(g));
    RowsFlatten(g);
  }

  /** Distinct boards never share a transposition-table key. */
  lemma KeyInjective(g: Grid, h: Grid)
    requires IsGrid(g) && IsGrid(h)
    requires BoardToString(g) == BoardToString(h)
    ensures g == h
  {
    KeyRoundTrip(g);
    KeyRoundTrip(h);
  }
}
