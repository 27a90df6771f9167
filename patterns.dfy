/**
 * Line patterns of the evaluator (ai-worker.js): the pattern table with its
 * starting weights, the clipped nine-cell window `getLine` reads through a
 * stone, and `evaluateLine`, which adds up non-overlapping pattern matches
 * times their weights.
 */
module Patterns {
  import opened Board

  /** The table's patterns in the order `Object.entries` lists them. */
  const PatternOrder: seq<string> :=
    ["OOOOO", ".OOOO.", "OOO.O", "O.OOO", ".OOO.", ".OO.", "O.O.O", ".O.", "OO...", "...OO", "O....O"]

  /** `patternWeights` as the worker starts. */
  const InitialWeights: map<string, real> := map[
    "OOOOO" := 1000000.0, ".OOOO." := 50000.0, "OOO.O" := 10000.0, "O.OOO" := 10000.0,
    ".OOO." := 5000.0, ".OO." := 1000.0, "O.O.O" := 500.0, ".O." := 100.0,
    "OO..." := 50.0, "...OO" := 50.0, "O....O" := 30.0]

  /** A weight for every pattern of the table. */
  predicate CoversPatterns(weights: map<string, real>) {
    forall k :: 0 <= k < |PatternOrder| ==> PatternOrder[k] in weights
  }

  /** How a cell reads from `player`'s side: own stone, empty, or anything else. */
  function Symbol(c: Cell, player: Stone): char {
    if c == player then 'O' else if c == Empty then '.' else 'X'
  }

  /** The symbols for offsets i..4 along (dx, dy) from (row, col), skipping cells off the grid. */
  function LineFrom(g: Grid, row: int, col: int, dx: int, dy: int, player: Stone, i: int): (line: string)
    requires IsGrid(g) && -4 <= i <= 5
    ensures |line| <= 5 - i
    ensures forall k :: 0 <= k < |line| ==> line[k] in "O.X"
    decreases 5 - i
  {
    if i == 5 then
      ""
    else
      var r, c := row + i * dx, col + i * dy;
      (if InBounds(r, c) then [Symbol(g[r][c], player)] else []) + LineFrom(g, row, col, dx, dy, player, i + 1)
  }

  /** `getLine`: the window from offset -4 to 4, clipped at the edges, so at most nine symbols long. */
  function GetLine(g: Grid, row: int, col: int, dx: int, dy: int, player: Stone): (line: string)
    requires IsGrid(g)
    ensures |line| <= 9
    ensures forall k :: 0 <= k < |line| ==> line[k] in "O.X"
  {
    LineFrom(g, row, col, dx, dy, player, -4)
  }

  lemma {:induction false} LineFromHasAnchor(g: Grid, row: int, col: int, dx: int, dy: int, player: Stone, i: int)
    requires IsGrid(g) && InBounds(row, col) && -4 <= i <= 0
    ensures LineFrom(g, row, col, dx, dy, player, i) != []
    ensures Symbol(g[row][col], player) in LineFrom(g, row, col, dx, dy, player, i)
    decreases -i
  {
    var r, c := row + i * dx, col + i * dy;
    var head: string := if InBounds(r, c) then [Symbol(g[r][c], player)] else [];
    var rest := LineFrom(g, row, col, dx, dy, player, i + 1);
    assert LineFrom(g, row, col, dx, dy, player, i) == head + rest;
    if i < 0 {
      LineFromHasAnchor(g, row, col, dx, dy, player, i + 1);
      assert Symbol(g[row][col], player) in rest;
    } else {
      assert r == row && c == col;
      assert head == [Symbol(g[row][col], player)];
    }
  }

  /** The window always holds the symbol of the cell it is read through: 'O' for one of `player`'s stones. */
  lemma GetLineHasAnchor(g: Grid, row: int, col: int, dx: int, dy: int, player: Stone)
    requires IsGrid(g) && InBounds(row, col)
    ensures Symbol(g[row][col], player) in GetLine(g, row, col, dx, dy, player)
    ensures g[row][col] == player ==> 'O' in GetLine(g, row, col, dx, dy, player)
  {
    LineFromHasAnchor(g, row, col, dx, dy, player, -4);
  }

  /** The board with every white stone made black and every black stone made white. */
  function SwapColours(g: Grid): (h: Grid)
    ensures |h| == |g| && forall r :: 0 <= r < |g| ==> |h[r]| == |g[r]|
    ensures forall r, c :: 0 <= r < |g| && 0 <= c < |g[r]| ==>
      h[r][c] == (if g[r][c] == Empty then Empty else Opponent(g[r][c]))
  {
    seq(|g|, r requires 0 <= r < |g| =>
      seq(|g[r]|, c requires 0 <= c < |g[r]| => if g[r][c] == Empty then Empty else Opponent(g[r][c])))
  }

  lemma {:induction false} LineFromSwap(g: Grid, row: int, col: int, dx: int, dy: int, player: Stone, i: int)
    requires IsGrid(g) && -4 <= i <= 5
    ensures IsGrid(SwapColours(g))
    ensures LineFrom(SwapColours(g), row, col, dx, dy, Opponent(player), i) == LineFrom(g, row, col, dx, dy, player, i)
    decreases 5 - i
  {
    if i < 5 {
      LineFromSwap(g, row, col, dx, dy, player, i + 1);
    }
  }

  /** Reading the colour-swapped board for the other side gives the same window. */
  lemma GetLineSwap(g: Grid, row: int, col: int, dx: int, dy: int, player: Stone)
    requires IsGrid(g)
    ensures IsGrid(SwapColours(g))
    ensures GetLine(SwapColours(g), row, col, dx, dy, Opponent(player)) == GetLine(g, row, col, dx, dy, player)
  {
    LineFromSwap(g, row, col, dx, dy, player, -4);
  }

  /**
   * The matches a global regular expression for the literal `p` finds in
   * `s`: leftmost first, each search resuming after the previous match, so
   * matches never overlap.
   */
  function Occurrences(s: string, p: string): nat
    requires |p| > 0
    decreases |s|
  {
    if |s| < |p| then 0
    else if s[..|p|] == p then 1 + Occurrences(s[|p|..], p)
    else Occurrences(s[1..], p)
  }

  /** `p` occurs in `s` starting at index i. */
  predicate OccursAt(s: string, p: string, i: int) {
    0 <= i && i + |p| <= |s| && s[i..i + |p|] == p
  }

  /** Non-overlapping matches fit side by side in the line. */
  lemma {:induction false} OccurrencesFit(s: string, p: string)
    requires |p| > 0
    ensures Occurrences(s, p) * |p| <= |s|
    decreases |s|
  {
    if |s| >= |p| {
      if s[..|p|] == p {
        OccurrencesFit(s[|p|..], p);
      } else {
        OccurrencesFit(s[1..], p);
      }
    }
  }

  /** The count is positive exactly when `p` occurs somewhere in `s`. */
  lemma {:induction false} OccurrencesPositive(s: string, p: string)
    requires |p| > 0
    ensures Occurrences(s, p) > 0 <==> exists i :: OccursAt(s, p, i)
    decreases |s|
  {
    if |s| >= |p| {
      if s[..|p|] == p {
        assert OccursAt(s, p, 0);
      } else {
        OccurrencesPositive(s[1..], p);
        if exists i :: OccursAt(s, p, i) {
          var i :| OccursAt(s, p, i);
          assert i != 0;
          assert s[1..][i - 1..i - 1 + |p|] == s[i..i + |p|];
          assert OccursAt(s[1..], p, i - 1);
        }
        if exists i :: OccursAt(s[1..], p, i) {
          var i :| OccursAt(s[1..], p, i);
          assert s[1..][i..i + |p|] == s[i + 1..i + 1 + |p|];
          assert OccursAt(s, p, i + 1);
        }
      }
    }
  }

  /** The weighted match counts of the patterns in `pats`. */
  function SumPatterns(line: string, weights: map<string, real>, pats: seq<string>): real
    requires forall k :: 0 <= k < |pats| ==> pats[k] in weights && |pats[k]| > 0
  {
    if pats == [] then 0.0
    else (Occurrences(line, pats[0]) as real) * weights[pats[0]] + SumPatterns(line, weights, pats[1..])
  }

  /** `evaluateLine`: the sum over the table of matches times weight. */
  function EvaluateLine(line: string, weights: map<string, real>): (r: real)
    requires CoversPatterns(weights)
    ensures (forall k :: 0 <= k < |PatternOrder| ==> weights[PatternOrder[k]] >= 0.0) ==> r >= 0.0
    ensures (forall k :: 0 <= k < |PatternOrder| ==> Occurrences(line, PatternOrder[k]) == 0) ==> r == 0.0
  {
    NonNegativeWeights(line, weights, PatternOrder);
    NoMatchNoScore(line, weights, PatternOrder);
    SumPatterns(line, weights, PatternOrder)
  }

  /** Non-negative weights give a non-negative sum. */
  lemma {:induction false} NonNegativeWeights(line: string, weights: map<string, real>, pats: seq<string>)
    requires forall k :: 0 <= k < |pats| ==> pats[k] in weights && |pats[k]| > 0
    ensures (forall k :: 0 <= k < |pats| ==> weights[pats[k]] >= 0.0) ==> SumPatterns(line, weights, pats) >= 0.0
  {
    if pats != [] && forall k :: 0 <= k < |pats| ==> weights[pats[k]] >= 0.0 {
      NonNegativeWeights(line, weights, pats[1..]);
    }
  }

  /** Patterns that never occur add nothing to the sum. */
  lemma {:induction false} NoMatchNoScore(line: string, weights: map<string, real>, pats: seq<string>)
    requires forall k :: 0 <= k < |pats| ==> pats[k] in weights && |pats[k]| > 0
    ensures (forall k :: 0 <= k < |pats| ==> Occurrences(line, pats[k]) == 0) ==> SumPatterns(line, weights, pats) == 0.0
  {
    if pats != [] && forall k :: 0 <= k < |pats| ==> Occurrences(line, pats[k]) == 0 {
      NoMatchNoScore(line, weights, pats[1..]);
    }
  }

  /**
   * With non-negative weights a line that holds five of the player's
   * stones in a row scores at least the five-in-a-row weight.
   */
  lemma FiveDominates(line: string, weights: map<string, real>)
    requires CoversPatterns(weights)
    requires forall k :: 0 <= k < |PatternOrder| ==> weights[PatternOrder[k]] >= 0.0
    ensures "OOOOO" in weights
    ensures (exists i :: OccursAt(line, "OOOOO", i)) ==> EvaluateLine(line, weights) >= weights["OOOOO"]
  {
    assert PatternOrder[0] == "OOOOO";
    var rest := PatternOrder[1..];
    NonNegativeWeights(line, weights, rest);
    OccurrencesPositive(line, "OOOOO");
    var n := Occurrences(line, "OOOOO") as real;
    assert EvaluateLine(line, weights) == n * weights["OOOOO"] + SumPatterns(line, weights, rest);
    if n >= 1.0 {
      AtLeastWeight(n, weights["OOOOO"], SumPatterns(line, weights, rest));
    }
  }

  /** A count of at least one times a non-negative weight, plus a non-negative rest, is at least the weight. */
  lemma AtLeastWeight(n: real, w: real, rest: real)
    requires n >= 1.0 && w >= 0.0 && rest >= 0.0
    ensures n * w + rest >= w
  {
    assert n * w == w + (n - 1.0) * w;
  }

  /** Every weight of `w` multiplied by `f`, keys unchanged. */
  ghost predicate Rescaled(w0: map<string, real>, w: map<string, real>, f: real) {
    w.Keys == w0.Keys && forall p :: p in w ==> w[p] == f * w0[p]
  }

  lemma {:induction false} SumPatternsScale(line: string, w0: map<string, real>, w: map<string, real>, f: real, pats: seq<string>)
    requires forall k :: 0 <= k < |pats| ==> pats[k] in w0 && pats[k] in w && |pats[k]| > 0 && w[pats[k]] == f * w0[pats[k]]
    ensures SumPatterns(line, w, pats) == f * SumPatterns(line, w0, pats)
  {
    if pats == [] {
      assert f * 0.0 == 0.0;
    } else {
      SumPatternsScale(line, w0, w, f, pats[1..]);
      var n := Occurrences(line, pats[0]) as real;
      ScaleTerm(n, w0[pats[0]], f, SumPatterns(line, w0, pats[1..]), w[pats[0]], SumPatterns(line, w, pats[1..]),
                SumPatterns(line, w0, pats), SumPatterns(line, w, pats));
    }
  }

  /** One term of the sum: n * (f * x) + f * rest is f * (n * x + rest). */
  lemma ScaleTerm(n: real, x: real, f: real, rest: real, fx: real, frest: real, s0: real, s: real)
    requires fx == f * x && frest == f * rest
    requires s0 == n * x + rest && s == n * fx + frest
    ensures s == f * s0
  {
    assert n * (f * x) == f * (n * x);
  }

  /**
   * Rescaling the table rescales every line's score by the same factor, so
   * a game result never changes which of two lines the evaluator prefers.
   */
  lemma EvaluateLineScale(line: string, w0: map<string, real>, w: map<string, real>, f: real)
    requires CoversPatterns(w0) && Rescaled(w0, w, f)
    ensures CoversPatterns(w)
    ensures EvaluateLine(line, w) == f * EvaluateLine(line, w0)
  {
    SumPatternsScale(line, w0, w, f, PatternOrder);
  }
}
