/**
 * The move search of the worker (ai-worker.js): the pattern-weight update,
 * the search depth chosen from the number of empty cells, alpha-beta
 * minimax with its transposition table, the root move ordering and choice,
 * and the iterative-deepening driver. The evaluator `evaluateBoard` is a
 * parameter `eval`; the wall clock is a parameter `inTime`.
 */
module Search {
  import opened Board
  import opened Rules
  import opened Moves
  import opened Threats
  import opened Keys
  import opened Scores
  import opened Patterns
  import opened Ordering

  /** `getDynamicDepth`: fewer empty cells, deeper search, from 3 to 6 plies. */
  function GetDynamicDepth(g: Grid): (d: nat)
    ensures 3 <= d <= 6
  {
    var emptySpaces := EmptyCount(g);
    if emptySpaces > 200 then 3
    else if emptySpaces > 150 then 4
    else if emptySpaces > 100 then 5
    else 6
  }

  /** A board with no more empty cells than another is searched at least as deep. */
  lemma DepthAntitone(g: Grid, h: Grid)
    requires EmptyCount(h) <= EmptyCount(g)
    ensures GetDynamicDepth(g) <= GetDynamicDepth(h)
  {
  }

  /** Putting a stone on the board never makes the search shallower. */
  lemma DepthAfterMove(g: Grid, r: int, c: int, p: Stone)
    requires IsGrid(g) && InBounds(r, c) && g[r][c] == Empty
    ensures GetDynamicDepth(g) <= GetDynamicDepth(Place(g, r, c, p))
  {
    PlaceStoneCount(g, r, c, p);
    DepthAntitone(g, Place(g, r, c, p));
  }

  /** The factor `updateWeights` applies for a game result tag. */
  function ResultFactor(gameResult: string): (f: real)
    ensures f > 0.0
    ensures f > 1.0 <==> gameResult == "win"
    ensures f < 1.0 <==> gameResult == "loss"
  {
    if gameResult == "win" then 1.1 else if gameResult == "loss" then 0.9 else 1.0
  }

  /** `t` keeps every entry of `t0`. */
  ghost predicate Extends(t0: map<string, Score>, t: map<string, Score>) {
    forall k :: k in t0 ==> k in t && t[k] == t0[k]
  }

  lemma ExtendsTrans(t0: map<string, Score>, t1: map<string, Score>, t2: map<string, Score>)
    requires Extends(t0, t1) && Extends(t1, t2)
    ensures Extends(t0, t2)
  {
  }

  /** The node is scored by the evaluator: depth exhausted or someone has five. */
  ghost predicate IsLeaf(g: Grid, depth: nat, player: Stone)
    requires IsGrid(g)
  {
    depth == 0 || HasFive(g, player) || HasFive(g, Opponent(player))
  }

  /** The alpha-beta test `beta <= alpha` after the scores seen so far. */
  predicate Cut(isMax: bool, alpha: Score, beta: Score, scores: seq<Score>) {
    if isMax then Le(beta, Max(alpha, Best(true, scores))) else Le(Min(beta, Best(false, scores)), alpha)
  }

  /**
   * The state of `minimax`'s move loop after `scores`: the running
   * maximum (minimum), alpha raised (beta lowered) by it, no cutoff before
   * the last score, and `beta <= alpha` exactly when the last one cut.
   */
  ghost predicate Running(isMax: bool, alpha: Score, beta: Score, scores: seq<Score>, score: Score, a: Score, z: Score) {
    && score == Best(isMax, scores)
    && a == (if isMax then Max(alpha, score) else alpha)
    && z == (if isMax then beta else Min(beta, score))
    && (forall j :: 0 < j < |scores| ==> !Cut(isMax, alpha, beta, scores[..j]))
    && (scores != [] ==> (Le(z, a) <==> Cut(isMax, alpha, beta, scores)))
  }

  /** One more child score, when the loop did not stop at the previous one. */
  lemma RunningStep(isMax: bool, alpha: Score, beta: Score, scores: seq<Score>, score: Score, a: Score, z: Score, s: Score)
    requires Running(isMax, alpha, beta, scores, score, a, z)
    requires scores != [] ==> !Le(z, a)
    ensures Running(isMax, alpha, beta, scores + [s],
                    if isMax then Max(score, s) else Min(score, s),
                    if isMax then Max(a, s) else a,
                    if isMax then z else Min(z, s))
  {
    var scores' := scores + [s];
    assert scores'[..|scores'| - 1] == scores;
    forall j | 0 < j < |scores'|
      ensures !Cut(isMax, alpha, beta, scores'[..j])
    {
      assert scores'[..j] == scores[..j];
      if j == |scores| {
        assert scores[..j] == scores;
      }
    }
  }

  /**
   * A move loop over `moves` that stopped after `tried`: one score per
   * tried move, the maximum (minimum) of them returned, no cutoff before
   * the last score, and either a cutoff there or every move tried.
   */
  ghost predicate Swept(isMax: bool, alpha: Score, beta: Score, moves: seq<Move>, tried: seq<Move>,
                        scores: seq<Score>, score: Score)
  {
    && |tried| == |scores|
    && tried <= moves
    && score == Best(isMax, scores)
    && (Cut(isMax, alpha, beta, scores) || tried == moves)
    && (forall j :: 0 < j < |scores| ==> !Cut(isMax, alpha, beta, scores[..j]))
  }

  ghost predicate DistinctCandidates(g: Grid, tried: seq<Move>)
    requires IsGrid(g)
  {
    && (forall i :: 0 <= i < |tried| ==> IsCandidate(g, tried[i]))
    && (forall i, j :: 0 <= i < j < |tried| ==> tried[i] != tried[j])
  }

  /**
   * An inner node's loop: it tried distinct candidate moves, returns the
   * maximum (minimum) of their scores, stopped at the first cutoff and
   * otherwise tried every candidate.
   */
  ghost predicate Explored(g: Grid, isMax: bool, alpha: Score, beta: Score, tried: seq<Move>, scores: seq<Score>, score: Score)
    requires IsGrid(g)
  {
    && |tried| == |scores|
    && DistinctCandidates(g, tried)
    && score == Best(isMax, scores)
    && (Cut(isMax, alpha, beta, scores) || forall m :: IsCandidate(g, m) ==> m in tried)
    && (forall j :: 0 < j < |scores| ==> !Cut(isMax, alpha, beta, scores[..j]))
  }

  /** A move loop over `getValidMoves`' list explores the node. */
  lemma ExploredByLoop(g: Grid, isMax: bool, alpha: Score, beta: Score, tried: seq<Move>, scores: seq<Score>, score: Score)
    requires IsGrid(g) && Swept(isMax, alpha, beta, ValidMoves(g), tried, scores, score)
    ensures Explored(g, isMax, alpha, beta, tried, scores, score)
  {
    ValidMovesAreCandidates(g);
    var moves := ValidMoves(g);
    assert forall i :: 0 <= i < |tried| ==> tried[i] == moves[i];
  }

  /** What a `minimax` call returns, and the transposition table it leaves behind. */
  datatype Searched = Searched(score: Score, table: map<string, Score>)

  /**
   * `minimax` on g, started with the transposition table t: a cached board
   * returns its entry; an uncached leaf gets the evaluator's score from the
   * root player's side, which is cached; an inner node runs the move loop
   * over `getValidMoves`' list one ply shallower, and its result is cached.
   */
  ghost function AlphaBeta(t: map<string, Score>, g: Grid, depth: nat, isMax: bool, player: Stone,
                           alpha: Score, beta: Score, eval: (Grid, Stone) -> int): Searched
    requires IsGrid(g)
    decreases depth, 0
  {
    var key := BoardToString(g);
    if key in t then Searched(t[key], t)
    else if IsLeaf(g, depth, player) then Searched(Fin(eval(g, player)), t[key := Fin(eval(g, player))])
    else
      var r := AlphaBetaLoop(t, g, ValidMoves(g), 0, depth - 1, isMax, player,
                             if isMax then NegInf else PosInf, alpha, beta, eval);
      Searched(r.score, r.table[key := r.score])
  }

  /**
   * `minimax`'s move loop from move i on, with the running extreme `score`
   * and the bounds a (alpha) and z (beta) so far: the move is played for
   * the side to move, the child searched with the other role, the extreme
   * and the bound updated, and the loop ends after the first cutoff.
   */
  ghost function AlphaBetaLoop(t: map<string, Score>, g: Grid, moves: seq<Move>, i: nat, depth: nat,
                               isMax: bool, player: Stone, score: Score, a: Score, z: Score,
                               eval: (Grid, Stone) -> int): Searched
    requires IsGrid(g) && EmptyCells(g, moves) && i <= |moves|
    decreases depth, 1, |moves| - i
  {
    if i == |moves| then Searched(score, t)
    else
      var child := Place(g, moves[i].row, moves[i].col, if isMax then player else Opponent(player));
      var c := AlphaBeta(t, child, depth, !isMax, player, a, z, eval);
      var score' := if isMax then Max(score, c.score) else Min(score, c.score);
      var a' := if isMax then Max(a, c.score) else a;
      var z' := if isMax then z else Min(z, c.score);
      if Le(z', a') then Searched(score', c.table)
      else AlphaBetaLoop(c.table, g, moves, i + 1, depth, isMax, player, score', a', z', eval)
  }

  /**
   * The state of `minimax`'s move loop before move i, from the table t0:
   * the table has only grown, `scores` are the first i children's scores
   * with the running state they give, and `total` is what the loop
   * returns: the current state after a cutoff, otherwise the rest of the
   * loop from move i.
   */
  ghost predicate LoopAt(t0: map<string, Score>, t: map<string, Score>, g: Grid, moves: seq<Move>, i: nat,
                         depth: nat, isMax: bool, player: Stone, alpha: Score, beta: Score,
                         scores: seq<Score>, score: Score, a: Score, z: Score,
                         eval: (Grid, Stone) -> int, total: Searched)
    requires IsGrid(g) && EmptyCells(g, moves)
  {
    && i == |scores| <= |moves|
    && Extends(t0, t)
    && Running(isMax, alpha, beta, scores, score, a, z)
    && if i > 0 && Le(z, a) then total == Searched(score, t)
       else total == AlphaBetaLoop(t, g, moves, i, depth, isMax, player, score, a, z, eval)
  }

  /** When the loop ends, by a cutoff or after the last move, it has swept the moves and returns its state. */
  lemma LoopEnd(t0: map<string, Score>, t: map<string, Score>, g: Grid, moves: seq<Move>, i: nat,
                depth: nat, isMax: bool, player: Stone, alpha: Score, beta: Score,
                scores: seq<Score>, score: Score, a: Score, z: Score,
                eval: (Grid, Stone) -> int, total: Searched)
    requires IsGrid(g) && EmptyCells(g, moves)
    requires LoopAt(t0, t, g, moves, i, depth, isMax, player, alpha, beta, scores, score, a, z, eval, total)
    requires i == |moves| || (i > 0 && Le(z, a))
    ensures Swept(isMax, alpha, beta, moves, moves[..i], scores, score)
    ensures total == Searched(score, t)
  {
    assert i == |moves| ==> moves[..i] == moves;
  }

  /**
   * The table only grows: entries already cached keep their value, and
   * the searched board ends up cached with the score returned.
   */
  lemma {:induction false} AlphaBetaCaches(t: map<string, Score>, g: Grid, depth: nat, isMax: bool, player: Stone,
                                           alpha: Score, beta: Score, eval: (Grid, Stone) -> int)
    requires IsGrid(g)
    ensures Extends(t, AlphaBeta(t, g, depth, isMax, player, alpha, beta, eval).table)
    ensures BoardToString(g) in AlphaBeta(t, g, depth, isMax, player, alpha, beta, eval).table
    ensures AlphaBeta(t, g, depth, isMax, player, alpha, beta, eval).table[BoardToString(g)]
            == AlphaBeta(t, g, depth, isMax, player, alpha, beta, eval).score
    decreases depth, 0
  {
    var key := BoardToString(g);
    if key !in t && !IsLeaf(g, depth, player) {
      AlphaBetaLoopGrows(t, g, ValidMoves(g), 0, depth - 1, isMax, player,
                         if isMax then NegInf else PosInf, alpha, beta, eval);
    }
  }

  lemma {:induction false} AlphaBetaLoopGrows(t: map<string, Score>, g: Grid, moves: seq<Move>, i: nat, depth: nat,
                                              isMax: bool, player: Stone, score: Score, a: Score, z: Score,
                                              eval: (Grid, Stone) -> int)
    requires IsGrid(g) && EmptyCells(g, moves) && i <= |moves|
    ensures Extends(t, AlphaBetaLoop(t, g, moves, i, depth, isMax, player, score, a, z, eval).table)
    decreases depth, 1, |moves| - i
  {
    if i < |moves| {
      var child := Place(g, moves[i].row, moves[i].col, if isMax then player else Opponent(player));
      var c := AlphaBeta(t, child, depth, !isMax, player, a, z, eval);
      AlphaBetaCaches(t, child, depth, !isMax, player, a, z, eval);
      var score' := if isMax then Max(score, c.score) else Min(score, c.score);
      var a' := if isMax then Max(a, c.score) else a;
      var z' := if isMax then z else Min(z, c.score);
      if !Le(z', a') {
        AlphaBetaLoopGrows(c.table, g, moves, i + 1, depth, isMax, player, score', a', z', eval);
        ExtendsTrans(t, c.table, AlphaBetaLoop(c.table, g, moves, i + 1, depth, isMax, player, score', a', z', eval).table);
      }
    }
  }

  /**
   * The score of putting `player`'s stone on a move, as the root ordering
   * sees it (moves off the board, which the ordering never meets, score 0).
   */
  function TentativeKey(g: Grid, player: Stone, eval: (Grid, Stone) -> int): Move -> int
    requires IsGrid(g)
  {
    (m: Move) => if InBounds(m.row, m.col) then eval(Place(g, m.row, m.col, player), player) else 0
  }

  /** Index i holds the first strict maximum of `scores`, and it beats -Infinity. */
  ghost predicate FirstBest(scores: seq<Score>, i: int) {
    && 0 <= i < |scores|
    && scores[i] != NegInf
    && (forall j :: 0 <= j < i ==> Less(scores[j], scores[i]))
    && (forall j :: 0 <= j < |scores| ==> Le(scores[j], scores[i]))
  }

  /** How many times the root list holds a cell: once per threat hit, once more if it is a candidate. */
  ghost function RootCount(g: Grid, player: Stone, m: Move): nat
    requires IsGrid(g)
  {
    ThreatCount(g, player, m) + (if IsCandidate(g, m) then 1 else 0)
  }

  lemma {:induction false} DistinctMultiset(s: seq<Move>, m: Move)
    requires forall i, j :: 0 <= i < j < |s| ==> s[i] != s[j]
    ensures multiset(s)[m] == if m in s then 1 else 0
  {
    if s != [] {
      var t := s[1..];
      assert s == [s[0]] + t;
      DistinctMultiset(t, m);
      forall k | 0 <= k < |t|
        ensures t[k] != s[0]
      {
        assert t[k] == s[k + 1];
      }
    }
  }

  /**
   * `best` is the first move whose score is the highest, or none when
   * every score is -Infinity.
   */
  ghost predicate Chosen(ordered: seq<Move>, scores: seq<Score>, best: Option<Move>) {
    && |scores| == |ordered|
    && (best.None? <==> forall i :: 0 <= i < |scores| ==> scores[i] == NegInf)
    && (best.Some? ==> exists i :: FirstBest(scores, i) && best.value == ordered[i])
  }

  /**
   * The root's choice: `ordered` lists every threat hit and every candidate
   * (a cell that is both appears once per reason), highest tentative score
   * first; `scores` are their search results, and `best` is the first move
   * whose score is the highest, or none when every score is -Infinity.
   */
  ghost predicate RootChoice(g: Grid, player: Stone, eval: (Grid, Stone) -> int,
                             ordered: seq<Move>, scores: seq<Score>, best: Option<Move>)
    requires IsGrid(g)
  {
    && (forall m :: multiset(ordered)[m] == RootCount(g, player, m))
    && Descending(ordered, TentativeKey(g, player, eval))
    && Chosen(ordered, scores, best)
  }

  /** The sorted root list lists every threat hit and candidate, and so does the chosen move. */
  lemma RootChoiceCounted(g: Grid, player: Stone, eval: (Grid, Stone) -> int,
                          listed: seq<Move>, ordered: seq<Move>, scores: seq<Score>, best: Option<Move>)
    requires IsGrid(g)
    requires forall m :: multiset(listed)[m] == RootCount(g, player, m)
    requires StableSorted(listed, ordered, TentativeKey(g, player, eval))
    requires Chosen(ordered, scores, best)
    ensures RootChoice(g, player, eval, ordered, scores, best)
    ensures best.Some? ==> RootCount(g, player, best.value) > 0
  {
    if best.Some? {
      var i :| FirstBest(scores, i) && best.value == ordered[i];
      assert ordered[i] in multiset(ordered);
    }
  }

  /** The list `findBestMove` sorts: the threats `detectThreats` reports, in its order, then `getValidMoves`' list. */
  ghost predicate RootList(g: Grid, player: Stone, ms: seq<Move>)
    requires IsGrid(g)
  {
    exists threats :: ThreatList(g, player, threats) && ms == threats + ValidMoves(g)
  }

  /** The root's search results so far and the transposition table they leave. */
  datatype Rooted = Rooted(scores: seq<Score>, table: map<string, Score>)

  /**
   * The root loop of `findBestMove` over the first n moves, started with the
   * table t: each move is placed for `player` and searched by `minimax` as a
   * minimizing node of depth `depth` with the full window, threading the
   * table from one move to the next.
   */
  ghost function RootSearch(t: map<string, Score>, g: Grid, moves: seq<Move>, n: nat, depth: nat,
                            player: Stone, eval: (Grid, Stone) -> int): Rooted
    requires IsGrid(g) && EmptyCells(g, moves) && n <= |moves|
  {
    if n == 0 then Rooted([], t)
    else
      var r := RootSearch(t, g, moves, n - 1, depth, player, eval);
      var c := AlphaBeta(r.table, Place(g, moves[n - 1].row, moves[n - 1].col, player), depth, false, player,
                         NegInf, PosInf, eval);
      Rooted(r.scores + [c.score], c.table)
  }

  /**
   * `findBestMove(board, player, depth)` started with the table t answers
   * `best` and leaves the table t': the root list, stably sorted by
   * tentative score, is searched move by move, and `best` is its choice.
   */
  ghost predicate DepthAnswer(g: Grid, player: Stone, eval: (Grid, Stone) -> int, depth: nat,
                              t: map<string, Score>, t': map<string, Score>, best: Option<Move>)
    requires IsGrid(g)
  {
    exists listed, ordered ::
      && RootList(g, player, listed)
      && StableSorted(listed, ordered, TentativeKey(g, player, eval))
      && EmptyCells(g, ordered)
      && RootSearch(t, g, ordered, |ordered|, depth, player, eval).table == t'
      && RootChoice(g, player, eval, ordered, RootSearch(t, g, ordered, |ordered|, depth, player, eval).scores, best)
  }

  /** The root loop after i moves, from the table t0: the table has grown, and the scores are the first i searches. */
  ghost predicate RootAt(t0: map<string, Score>, t: map<string, Score>, g: Grid, sorted: seq<Move>, i: nat,
                         depth: nat, player: Stone, eval: (Grid, Stone) -> int, scores: seq<Score>)
    requires IsGrid(g) && EmptyCells(g, sorted)
  {
    && i == |scores| <= |sorted|
    && Extends(t0, t)
    && Rooted(scores, t) == RootSearch(t0, g, sorted, i, depth, player, eval)
  }

  /**
   * The root loop's best so far after `scores`: none while every score is
   * -Infinity, otherwise the move at the first strict maximum bi.
   */
  ghost predicate Leading(sorted: seq<Move>, scores: seq<Score>, best: Option<Move>, bestScore: Score, bi: int) {
    && |scores| <= |sorted|
    && (best.None? ==> bestScore == NegInf && forall k :: 0 <= k < |scores| ==> scores[k] == NegInf)
    && (best.Some? ==> FirstBest(scores, bi) && best.value == sorted[bi] && bestScore == scores[bi])
  }

  /** `if (score > bestScore)`: a strictly higher score takes over, any other keeps the best. */
  lemma LeadingStep(sorted: seq<Move>, scores: seq<Score>, best: Option<Move>, bestScore: Score, bi: int, s: Score)
    requires Leading(sorted, scores, best, bestScore, bi) && |scores| < |sorted|
    ensures Less(bestScore, s) ==> Leading(sorted, scores + [s], Some(sorted[|scores|]), s, |scores|)
    ensures !Less(bestScore, s) ==> Leading(sorted, scores + [s], best, bestScore, bi)
  {
    var scores' := scores + [s];
    assert forall k :: 0 <= k < |scores| ==> scores'[k] == scores[k];
  }

  /** After the last move the best so far is the root's choice. */
  lemma LeadingChosen(sorted: seq<Move>, scores: seq<Score>, best: Option<Move>, bestScore: Score, bi: int)
    requires Leading(sorted, scores, best, bestScore, bi) && |scores| == |sorted|
    ensures Chosen(sorted, scores, best)
  {
  }

  /** One `findBestMove` call, seen through its results, is that depth's answer. */
  lemma Answered(g: Grid, player: Stone, eval: (Grid, Stone) -> int, depth: nat,
                 t: map<string, Score>, t': map<string, Score>,
                 listed: seq<Move>, ordered: seq<Move>, scores: seq<Score>, best: Option<Move>)
    requires IsGrid(g) && RootList(g, player, listed)
    requires StableSorted(listed, ordered, TentativeKey(g, player, eval))
    requires EmptyCells(g, ordered)
    requires Rooted(scores, t') == RootSearch(t, g, ordered, |ordered|, depth, player, eval)
    requires RootChoice(g, player, eval, ordered, scores, best)
    ensures DepthAnswer(g, player, eval, depth, t, t', best)
  {
  }

  /** Depth d + 1 answered answers[d], taking the table from tables[d] to tables[d + 1]. */
  ghost predicate AnsweredAt(g: Grid, player: Stone, eval: (Grid, Stone) -> int,
                             answers: seq<Option<Move>>, tables: seq<map<string, Score>>, d: int)
    requires IsGrid(g)
  {
    && 0 <= d < |answers| && d + 1 < |tables|
    && DepthAnswer(g, player, eval, d + 1, tables[d], tables[d + 1], answers[d])
  }

  /**
   * Iterative deepening after `searched` depths, from the table t0 to t:
   * depth d + 1 answered answers[d] and took the table from tables[d] to
   * tables[d + 1].
   */
  ghost predicate Deepened(g: Grid, player: Stone, eval: (Grid, Stone) -> int, t0: map<string, Score>,
                           t: map<string, Score>, searched: nat, answers: seq<Option<Move>>,
                           tables: seq<map<string, Score>>)
    requires IsGrid(g)
  {
    && |answers| == searched && |tables| == searched + 1
    && tables[0] == t0 && tables[searched] == t
    && forall d :: 0 <= d < searched ==> AnsweredAt(g, player, eval, answers, tables, d)
  }

  /** One more depth searched. */
  lemma DeepenedStep(g: Grid, player: Stone, eval: (Grid, Stone) -> int, t0: map<string, Score>,
                     t: map<string, Score>, t': map<string, Score>, searched: nat,
                     answers: seq<Option<Move>>, tables: seq<map<string, Score>>, best: Option<Move>)
    requires IsGrid(g) && Deepened(g, player, eval, t0, t, searched, answers, tables)
    requires DepthAnswer(g, player, eval, searched + 1, t, t', best)
    ensures Deepened(g, player, eval, t0, t', searched + 1, answers + [best], tables + [t'])
  {
    var answers', tables' := answers + [best], tables + [t'];
    forall d | 0 <= d < searched + 1
      ensures AnsweredAt(g, player, eval, answers', tables', d)
    {
      if d < searched {
        AnsweredKept(g, player, eval, answers, tables, best, t', d);
      }
    }
  }

  /** An earlier depth's answer survives appending the next one. */
  lemma AnsweredKept(g: Grid, player: Stone, eval: (Grid, Stone) -> int, answers: seq<Option<Move>>,
                     tables: seq<map<string, Score>>, best: Option<Move>, t': map<string, Score>, d: int)
    requires IsGrid(g) && AnsweredAt(g, player, eval, answers, tables, d)
    ensures AnsweredAt(g, player, eval, answers + [best], tables + [t'], d)
  {
    assert (tables + [t'])[d] == tables[d] && (tables + [t'])[d + 1] == tables[d + 1];
    assert (answers + [best])[d] == answers[d];
  }

  /** The clock test passed before each of the depths 1..n. */
  ghost predicate ClockAllowed(inTime: nat -> bool, n: nat) {
    forall d :: 1 <= d <= n ==> inTime(d)
  }

  lemma ClockStep(inTime: nat -> bool, n: nat)
    requires ClockAllowed(inTime, n) && inTime(n + 1)
    ensures ClockAllowed(inTime, n + 1)
  {
  }

  /** What the worker ends with: a reply carrying the move, or an exception thrown on the way. */
  datatype Reply = Posted(bestMove: Option<Move>) | Threw

  /** The worker's search state: the pattern table and the global transposition table. */
  class Engine {
    var patternWeights: map<string, real>
    var transpositionTable: map<string, Score>

    /** The table has a weight for every pattern, and every weight is positive. */
    ghost predicate Valid()
      reads this
    {
      && CoversPatterns(patternWeights)
      && forall p :: p in patternWeights ==> patternWeights[p] > 0.0
    }

    /** The worker's start: the initial pattern table and an empty transposition table. */
    constructor ()
      ensures Valid()
      ensures patternWeights == InitialWeights
      ensures transpositionTable == map[]
    {
      patternWeights := InitialWeights;
      transpositionTable := map[];
    }

    /**
     * What the positive weights buy: under the engine's table no line scores
     * below zero, and a line holding five in a row scores at least the
     * five's own weight.
     */
    lemma WeightsRankFive(line: string)
      requires Valid()
      ensures EvaluateLine(line, patternWeights) >= 0.0
      ensures "OOOOO" in patternWeights
      ensures (exists i :: OccursAt(line, "OOOOO", i)) ==> EvaluateLine(line, patternWeights) >= patternWeights["OOOOO"]
    {
      FiveDominates(line, patternWeights);
    }

    /**
     * `updateWeights`: every pattern keeps its place in the table; "win"
     * multiplies each weight by 1.1, "loss" by 0.9, any other tag leaves
     * them as they are.
     */
    method UpdateWeights(gameResult: string)
      requires Valid()
      modifies this
      ensures Valid()
      ensures Rescaled(old(patternWeights), patternWeights, ResultFactor(gameResult))
      ensures transpositionTable == old(transpositionTable)
    {
      var learningRate := 0.1;
      ghost var w0 := patternWeights;
      var remaining := patternWeights.Keys;
      while remaining != {}
        invariant remaining <= w0.Keys && patternWeights.Keys == w0.Keys
        invariant forall p :: p in remaining ==> patternWeights[p] == w0[p]
        invariant forall p :: p in w0 && p !in remaining ==> patternWeights[p] == ResultFactor(gameResult) * w0[p]
        invariant transpositionTable == old(transpositionTable)
        decreases remaining
      {
        var pattern :| pattern in remaining;
        if gameResult == "win" {
          patternWeights := patternWeights[pattern := patternWeights[pattern] * (1.0 + learningRate)];
        } else if gameResult == "loss" {
          patternWeights := patternWeights[pattern := patternWeights[pattern] * (1.0 - learningRate)];
        }
        remaining := remaining - {pattern};
      }
      assert forall k :: 0 <= k < |PatternOrder| ==> PatternOrder[k] in w0;
    }

    /**
     * `minimax`: a cached board returns its entry and changes nothing; an
     * uncached leaf is scored by the evaluator from the root player's side;
     * an inner node explores its candidates with alpha-beta pruning. The
     * board comes back as it was, old entries stay, and the board's key
     * ends up holding the returned score.
     */
    method Minimax(b: array2<Cell>, depth: nat, isMaximizing: bool, player: Stone,
                   alpha: Score, beta: Score, eval: (Grid, Stone) -> int)
      returns (score: Score, ghost tried: seq<Move>, ghost scores: seq<Score>)
      requires IsBoard(b)
      modifies this, b
      ensures Snapshot(b) == old(Snapshot(b))
      ensures patternWeights == old(patternWeights)
      ensures Extends(old(transpositionTable), transpositionTable)
      ensures BoardToString(Snapshot(b)) in transpositionTable
      ensures transpositionTable[BoardToString(Snapshot(b))] == score
      ensures BoardToString(Snapshot(b)) in old(transpositionTable) ==>
        score == old(transpositionTable)[BoardToString(Snapshot(b))] && transpositionTable == old(transpositionTable)
      ensures BoardToString(Snapshot(b)) !in old(transpositionTable) && IsLeaf(Snapshot(b), depth, player) ==>
        score == Fin(eval(Snapshot(b), player))
        && transpositionTable == old(transpositionTable)[BoardToString(Snapshot(b)) := score]
      ensures BoardToString(Snapshot(b)) !in old(transpositionTable) && !IsLeaf(Snapshot(b), depth, player) ==>
        Explored(Snapshot(b), isMaximizing, alpha, beta, tried, scores, score)
      ensures Searched(score, transpositionTable)
              == AlphaBeta(old(transpositionTable), Snapshot(b), depth, isMaximizing, player, alpha, beta, eval)
      decreases depth, 1
    {
      tried, scores := [], [];
      var g := Snapshot(b);
      var boardHash := BoardToString(g);

      if boardHash in transpositionTable {
        return transpositionTable[boardHash], tried, scores;
      }

      var leaf := IsTerminal(g, depth, player);
      if leaf {
        score := Fin(eval(g, player));
        transpositionTable := transpositionTable[boardHash := score];
        return;
      }

      score, tried, scores := Explore(b, depth, isMaximizing, player, alpha, beta, eval);
      transpositionTable := transpositionTable[boardHash := score];
    }

    /** The depth limit is reached or either side already has five in a row. */
    method IsTerminal(g: Grid, depth: nat, player: Stone) returns (leaf: bool)
      requires IsGrid(g)
      ensures leaf == IsLeaf(g, depth, player)
    {
      var winP := CheckWinForPlayer(g, player);
      var winO := CheckWinForPlayer(g, Opponent(player));
      leaf := depth == 0 || winP || winO;
    }

    /** An inner node of `minimax`: its candidate moves, searched one ply shallower. */
    method Explore(b: array2<Cell>, depth: nat, isMaximizing: bool, player: Stone,
                   alpha: Score, beta: Score, eval: (Grid, Stone) -> int)
      returns (score: Score, ghost tried: seq<Move>, ghost scores: seq<Score>)
      requires IsBoard(b) && depth > 0
      modifies this, b
      ensures Snapshot(b) == old(Snapshot(b))
      ensures patternWeights == old(patternWeights)
      ensures Extends(old(transpositionTable), transpositionTable)
      ensures Explored(Snapshot(b), isMaximizing, alpha, beta, tried, scores, score)
      ensures Searched(score, transpositionTable)
              == AlphaBetaLoop(old(transpositionTable), Snapshot(b), ValidMoves(Snapshot(b)), 0, depth - 1,
                               isMaximizing, player, if isMaximizing then NegInf else PosInf, alpha, beta, eval)
      decreases depth, 0
    {
      var g := Snapshot(b);
      var moves := GetValidMoves(g);
      score, tried, scores := SearchMoves(b, moves, depth - 1, isMaximizing, player, alpha, beta, eval);
      ExploredByLoop(g, isMaximizing, alpha, beta, tried, scores, score);
    }

    /**
     * The move loops of `minimax`: each move is placed for the side to move
     * (the root player when maximizing, the opponent when minimizing), the
     * child searched one ply shallower with the other role, the stone taken
     * back; the running maximum (minimum) raises alpha (lowers beta), and the
     * loop stops as soon as beta <= alpha.
     */
    method SearchMoves(b: array2<Cell>, moves: seq<Move>, depth: nat, isMaximizing: bool, player: Stone,
                       alpha: Score, beta: Score, eval: (Grid, Stone) -> int)
      returns (score: Score, ghost tried: seq<Move>, ghost scores: seq<Score>)
      requires IsBoard(b) && EmptyCells(Snapshot(b), moves)
      modifies this, b
      ensures Snapshot(b) == old(Snapshot(b))
      ensures patternWeights == old(patternWeights)
      ensures Extends(old(transpositionTable), transpositionTable)
      ensures Swept(isMaximizing, alpha, beta, moves, tried, scores, score)
      ensures Searched(score, transpositionTable)
              == AlphaBetaLoop(old(transpositionTable), Snapshot(b), moves, 0, depth,
                               isMaximizing, player, if isMaximizing then NegInf else PosInf, alpha, beta, eval)
      decreases depth, 4
    {
      ghost var g := Snapshot(b);
      var a, z := alpha, beta;
      score := if isMaximizing then NegInf else PosInf;
      ghost var total := AlphaBetaLoop(transpositionTable, g, moves, 0, depth, isMaximizing, player, score, a, z, eval);
      tried, scores := [], [];
      var i := 0;
      while i < |moves|
        invariant Snapshot(b) == g
        invariant patternWeights == old(patternWeights)
        invariant LoopAt(old(transpositionTable), transpositionTable, g, moves, i, depth, isMaximizing, player,
                         alpha, beta, scores, score, a, z, eval, total)
        invariant i > 0 ==> !Le(z, a)
      {
        var s;
        s, score, a, z := SearchChild(b, moves, i, depth, isMaximizing, player, alpha, beta,
                                      old(transpositionTable), scores, score, a, z, total, eval);
        scores := scores + [s];
        i := i + 1;
        if Le(z, a) {
          break;
        }
      }
      tried := moves[..i];
      LoopEnd(old(transpositionTable), transpositionTable, g, moves, i, depth, isMaximizing, player,
              alpha, beta, scores, score, a, z, eval, total);
    }

    /**
     * One iteration of `minimax`'s move loop: the child's score, then the
     * running maximum and alpha (minimum and beta) updated with it.
     */
    method SearchChild(b: array2<Cell>, moves: seq<Move>, i: nat, depth: nat, isMaximizing: bool, player: Stone,
                       alpha: Score, beta: Score, ghost t0: map<string, Score>, ghost scores: seq<Score>,
                       score: Score, a: Score, z: Score, ghost total: Searched, eval: (Grid, Stone) -> int)
      returns (s: Score, score': Score, a': Score, z': Score)
      requires IsBoard(b) && EmptyCells(Snapshot(b), moves) && i < |moves|
      requires LoopAt(t0, transpositionTable, Snapshot(b), moves, i, depth, isMaximizing, player,
                      alpha, beta, scores, score, a, z, eval, total)
      requires i > 0 ==> !Le(z, a)
      modifies this, b
      ensures Snapshot(b) == old(Snapshot(b))
      ensures patternWeights == old(patternWeights)
      ensures LoopAt(t0, transpositionTable, Snapshot(b), moves, i + 1, depth, isMaximizing, player,
                     alpha, beta, scores + [s], score', a', z', eval, total)
      ensures Searched(s, transpositionTable)
              == AlphaBeta(old(transpositionTable),
                           Place(Snapshot(b), moves[i].row, moves[i].col, if isMaximizing then player else Opponent(player)),
                           depth, !isMaximizing, player, a, z, eval)
      decreases depth, 3
    {
      ghost var t1 := transpositionTable;
      var move := moves[i];
      var stone := if isMaximizing then player else Opponent(player);
      s := ChildScore(b, move, stone, depth, !isMaximizing, player, a, z, eval);
      RunningStep(isMaximizing, alpha, beta, scores, score, a, z, s);
      ExtendsTrans(t0, t1, transpositionTable);
      if isMaximizing {
        score', a', z' := Max(score, s), Max(a, s), z;
      } else {
        score', a', z' := Min(score, s), a, Min(z, s);
      }
    }

    /** Place the stone, search the child, take the stone back. */
    method ChildScore(b: array2<Cell>, move: Move, stone: Stone, depth: nat, isMaximizing: bool,
                      player: Stone, alpha: Score, beta: Score, eval: (Grid, Stone) -> int)
      returns (s: Score)
      requires IsBoard(b) && InBounds(move.row, move.col) && b[move.row, move.col] == Empty
      modifies this, b
      ensures Snapshot(b) == old(Snapshot(b))
      ensures patternWeights == old(patternWeights)
      ensures Extends(old(transpositionTable), transpositionTable)
      ensures BoardToString(Place(Snapshot(b), move.row, move.col, stone)) in transpositionTable
      ensures transpositionTable[BoardToString(Place(Snapshot(b), move.row, move.col, stone))] == s
      ensures Searched(s, transpositionTable)
              == AlphaBeta(old(transpositionTable), Place(Snapshot(b), move.row, move.col, stone),
                           depth, isMaximizing, player, alpha, beta, eval)
      decreases depth, 2
    {
      ghost var g := Snapshot(b);
      Put(b, move.row, move.col, stone);
      ghost var tried, scores;
      s, tried, scores := Minimax(b, depth, isMaximizing, player, alpha, beta, eval);
      Put(b, move.row, move.col, Empty);
      PlaceRestore(g, move.row, move.col, stone);
    }

    /**
     * The comparator's half for one move (`findBestMove`'s sort callback):
     * put the stone, evaluate, and clear the cell again.
     */
    method TentativeScore(b: array2<Cell>, m: Move, player: Stone, eval: (Grid, Stone) -> int) returns (k: int)
      requires IsBoard(b) && InBounds(m.row, m.col) && b[m.row, m.col] == Empty
      modifies b
      ensures Snapshot(b) == old(Snapshot(b))
      ensures k == TentativeKey(Snapshot(b), player, eval)(m)
    {
      ghost var g := Snapshot(b);
      Put(b, m.row, m.col, player);
      k := eval(Snapshot(b), player);
      Put(b, m.row, m.col, Empty);
      PlaceRestore(g, m.row, m.col, player);
    }

    /** Insert `x` after every move scoring at least as high, keeping the order stable. */
    method InsertByScore(b: array2<Cell>, sorted: seq<Move>, x: Move, player: Stone, eval: (Grid, Stone) -> int)
      returns (r: seq<Move>)
      requires IsBoard(b) && EmptyCells(Snapshot(b), sorted)
      requires InBounds(x.row, x.col) && Snapshot(b)[x.row][x.col] == Empty
      requires Descending(sorted, TentativeKey(Snapshot(b), player, eval))
      modifies b
      ensures Snapshot(b) == old(Snapshot(b))
      ensures EmptyCells(Snapshot(b), r)
      ensures multiset(r) == multiset(sorted) + multiset{x}
      ensures Descending(r, TentativeKey(Snapshot(b), player, eval))
      ensures forall v :: KeyFilter(r, TentativeKey(Snapshot(b), player, eval), v)
                          == KeyFilter(sorted, TentativeKey(Snapshot(b), player, eval), v)
                             + KeyFilter([x], TentativeKey(Snapshot(b), player, eval), v)
    {
      ghost var g := Snapshot(b);
      var kx := TentativeScore(b, x, player, eval);
      var j := |sorted|;
      while j > 0
        invariant 0 <= j <= |sorted|
        invariant Snapshot(b) == g
        invariant forall i :: j <= i < |sorted| ==> TentativeKey(g, player, eval)(sorted[i]) < kx
      {
        var kj := TentativeScore(b, sorted[j - 1], player, eval);
        if kj >= kx {
          break;
        }
        j := j - 1;
      }
      r := sorted[..j] + [x] + sorted[j..];
      InsertKeepsOrder(sorted, x, j, TentativeKey(g, player, eval));
      InsertMultiset(sorted, x, j);
      forall v {
        InsertStable(sorted, x, j, TentativeKey(g, player, eval), v);
      }
      forall i | 0 <= i < |r|
        ensures InBounds(r[i].row, r[i].col) && g[r[i].row][r[i].col] == Empty
      {
        if i != j {
          assert r[i] == if i < j then sorted[i] else sorted[i - 1];
        }
      }
    }

    /**
     * `moves.sort(...)` in `findBestMove`: the same moves, highest
     * tentative score first, with the board as it was.
     */
    method SortByTentativeScore(b: array2<Cell>, moves: seq<Move>, player: Stone, eval: (Grid, Stone) -> int)
      returns (sorted: seq<Move>)
      requires IsBoard(b) && EmptyCells(Snapshot(b), moves)
      modifies b
      ensures Snapshot(b) == old(Snapshot(b))
      ensures EmptyCells(Snapshot(b), sorted)
      ensures StableSorted(moves, sorted, TentativeKey(Snapshot(b), player, eval))
    {
      ghost var g := Snapshot(b);
      ghost var key := TentativeKey(g, player, eval);
      sorted := [];
      for i := 0 to |moves|
        invariant Snapshot(b) == g
        invariant EmptyCells(g, sorted)
        invariant StableSorted(moves[..i], sorted, key)
      {
        ghost var prev := sorted;
        sorted := InsertByScore(b, sorted, moves[i], player, eval);
        assert moves[..i + 1] == moves[..i] + [moves[i]];
        forall v
          ensures KeyFilter(sorted, key, v) == KeyFilter(moves[..i + 1], key, v)
        {
          KeyFilterAppend(moves[..i], [moves[i]], key, v);
        }
      }
      assert moves[..|moves|] == moves;
    }

    /**
     * The list `findBestMove` orders: `getValidMoves`' candidates with the
     * threats `detectThreats` reports put in front, the board as it was.
     */
    method RootMoves(b: array2<Cell>, player: Stone) returns (moves: seq<Move>)
      requires IsBoard(b)
      modifies b
      ensures Snapshot(b) == old(Snapshot(b))
      ensures EmptyCells(Snapshot(b), moves)
      ensures forall m :: multiset(moves)[m] == RootCount(Snapshot(b), player, m)
      ensures RootList(Snapshot(b), player, moves)
    {
      ghost var g := Snapshot(b);
      moves := GetValidMoves(Snapshot(b));
      var threats := DetectThreats(b, player);
      assert ThreatList(g, player, threats);
      ListedAreThreats(g, player, threats);
      forall m
        ensures multiset(threats + moves)[m] == RootCount(g, player, m)
      {
        DistinctMultiset(moves, m);
      }
      moves := threats + moves;
    }

    /**
     * `findBestMove`: the threats, then the candidates, sorted by tentative
     * score, each searched by `minimax` as a minimizing node of depth
     * `maxDepth`; the first move with the highest score wins. `None` is the
     * case where no move beats -Infinity (no move at all, in particular),
     * where the source dereferences a null `bestMove` and throws.
     */
    method FindBestMove(b: array2<Cell>, player: Stone, maxDepth: nat, eval: (Grid, Stone) -> int)
      returns (best: Option<Move>, ghost listed: seq<Move>, ghost ordered: seq<Move>, ghost scores: seq<Score>)
      requires IsBoard(b)
      modifies this, b
      ensures Snapshot(b) == old(Snapshot(b))
      ensures patternWeights == old(patternWeights)
      ensures Extends(old(transpositionTable), transpositionTable)
      ensures RootList(Snapshot(b), player, listed)
      ensures StableSorted(listed, ordered, TentativeKey(Snapshot(b), player, eval))
      ensures EmptyCells(Snapshot(b), ordered)
      ensures Rooted(scores, transpositionTable)
              == RootSearch(old(transpositionTable), Snapshot(b), ordered, |ordered|, maxDepth, player, eval)
      ensures RootChoice(Snapshot(b), player, eval, ordered, scores, best)
      ensures best.Some? ==> RootCount(Snapshot(b), player, best.value) > 0
    {
      ghost var g := Snapshot(b);
      var moves := RootMoves(b, player);
      var sorted := SortByTentativeScore(b, moves, player, eval);
      listed, ordered := moves, sorted;
      best, scores := RootLoop(b, sorted, player, maxDepth, eval);
      RootChoiceCounted(g, player, eval, moves, sorted, scores, best);
    }

    /** One step of `iterativeDeepening`: `findBestMove` at the next depth, whose answer joins the earlier ones. */
    method SearchDepth(b: array2<Cell>, player: Stone, depth: nat, eval: (Grid, Stone) -> int,
                       ghost t0: map<string, Score>, ghost answers: seq<Option<Move>>,
                       ghost tables: seq<map<string, Score>>)
      returns (best: Option<Move>)
      requires IsBoard(b) && depth > 0
      requires Deepened(Snapshot(b), player, eval, t0, transpositionTable, depth - 1, answers, tables)
      modifies this, b
      ensures Snapshot(b) == old(Snapshot(b))
      ensures patternWeights == old(patternWeights)
      ensures Extends(old(transpositionTable), transpositionTable)
      ensures Deepened(Snapshot(b), player, eval, t0, transpositionTable, depth,
                       answers + [best], tables + [transpositionTable])
      ensures best.Some? ==> RootCount(Snapshot(b), player, best.value) > 0
    {
      ghost var g := Snapshot(b);
      ghost var t1 := transpositionTable;
      ghost var listed, ordered, scores;
      best, listed, ordered, scores := FindBestMove(b, player, depth, eval);
      Answered(g, player, eval, depth, t1, transpositionTable, listed, ordered, scores, best);
      DeepenedStep(g, player, eval, t0, t1, transpositionTable, depth - 1, answers, tables, best);
    }

    /**
     * The loop of `findBestMove`: each move is placed, searched by
     * `minimax` as a minimizing node of depth `maxDepth` and taken back;
     * a score strictly above the best so far makes the move the best.
     */
    method RootLoop(b: array2<Cell>, sorted: seq<Move>, player: Stone, maxDepth: nat, eval: (Grid, Stone) -> int)
      returns (best: Option<Move>, ghost scores: seq<Score>)
      requires IsBoard(b) && EmptyCells(Snapshot(b), sorted)
      modifies this, b
      ensures Snapshot(b) == old(Snapshot(b))
      ensures patternWeights == old(patternWeights)
      ensures Extends(old(transpositionTable), transpositionTable)
      ensures Rooted(scores, transpositionTable)
              == RootSearch(old(transpositionTable), Snapshot(b), sorted, |sorted|, maxDepth, player, eval)
      ensures Chosen(sorted, scores, best)
    {
      ghost var g := Snapshot(b);
      var bestScore := NegInf;
      best := None;
      scores := [];
      ghost var bi := -1;
      for i := 0 to |sorted|
        invariant Snapshot(b) == g
        invariant patternWeights == old(patternWeights)
        invariant RootAt(old(transpositionTable), transpositionTable, g, sorted, i, maxDepth, player, eval, scores)
        invariant Leading(sorted, scores, best, bestScore, bi)
      {
        var move := sorted[i];
        var score := RootChild(b, sorted, i, player, maxDepth, eval, old(transpositionTable), scores);
        LeadingStep(sorted, scores, best, bestScore, bi, score);
        scores := scores + [score];
        if Less(bestScore, score) {
          bestScore := score;
          best := Some(move);
          bi := i;
        }
      }
      LeadingChosen(sorted, scores, best, bestScore, bi);
    }

    /** One pass of the root loop: place the move, search it as a minimizing node, take it back. */
    method RootChild(b: array2<Cell>, sorted: seq<Move>, i: nat, player: Stone, maxDepth: nat,
                     eval: (Grid, Stone) -> int, ghost t0: map<string, Score>, ghost scores: seq<Score>)
      returns (score: Score)
      requires IsBoard(b) && EmptyCells(Snapshot(b), sorted) && i < |sorted|
      requires RootAt(t0, transpositionTable, Snapshot(b), sorted, i, maxDepth, player, eval, scores)
      modifies this, b
      ensures Snapshot(b) == old(Snapshot(b))
      ensures patternWeights == old(patternWeights)
      ensures RootAt(t0, transpositionTable, Snapshot(b), sorted, i + 1, maxDepth, player, eval, scores + [score])
    {
      ghost var t1 := transpositionTable;
      score := ChildScore(b, sorted[i], player, maxDepth, false, player, NegInf, PosInf, eval);
      ExtendsTrans(t0, t1, transpositionTable);
    }

    /**
     * `iterativeDeepening`: search depth 1, 2, ... while the clock allows
     * (`inTime(d)` is the clock test before depth d) and the depth does not
     * exceed `getDynamicDepth`; keep the latest move. `Threw` is the
     * exception escaping from `findBestMove`.
     */
    method IterativeDeepening(b: array2<Cell>, player: Stone, eval: (Grid, Stone) -> int, inTime: nat -> bool)
      returns (reply: Reply, ghost searched: nat, ghost answers: seq<Option<Move>>,
               ghost tables: seq<map<string, Score>>)
      requires IsBoard(b)
      modifies this, b
      ensures Snapshot(b) == old(Snapshot(b))
      ensures patternWeights == old(patternWeights)
      ensures Extends(old(transpositionTable), transpositionTable)
      ensures searched <= GetDynamicDepth(Snapshot(b))
      ensures ClockAllowed(inTime, searched)
      ensures reply.Posted? ==> searched == GetDynamicDepth(Snapshot(b)) || !inTime(searched + 1)
      ensures Deepened(Snapshot(b), player, eval, old(transpositionTable), transpositionTable, searched, answers, tables)
      ensures forall d :: 0 <= d < searched - 1 ==> answers[d].Some?
      ensures reply == if searched > 0 && answers[searched - 1].None? then Threw
                       else Posted(if searched == 0 then None else answers[searched - 1])
      ensures reply.Posted? ==> (reply.bestMove.None? <==> searched == 0)
      ensures reply.Posted? && reply.bestMove.Some? ==> RootCount(Snapshot(b), player, reply.bestMove.value) > 0
      ensures reply.Threw? ==> searched > 0
    {
      ghost var g := Snapshot(b);
      var bestMove: Option<Move> := None;
      var depth := 1;
      searched, answers, tables := 0, [], [transpositionTable];
      while inTime(depth)
        invariant 1 <= depth <= 7 && searched == depth - 1 && searched <= GetDynamicDepth(g)
        invariant Snapshot(b) == g
        invariant patternWeights == old(patternWeights)
        invariant Extends(old(transpositionTable), transpositionTable)
        invariant ClockAllowed(inTime, searched)
        invariant Deepened(g, player, eval, old(transpositionTable), transpositionTable, searched, answers, tables)
        invariant forall d :: 0 <= d < searched ==> answers[d].Some?
        invariant bestMove == if searched == 0 then None else answers[searched - 1]
        invariant bestMove.Some? ==> RootCount(g, player, bestMove.value) > 0
        decreases 7 - depth
      {
        var dynamicDepth := GetDynamicDepth(Snapshot(b));
        if depth > dynamicDepth {
          break;
        }
        ClockStep(inTime, searched);
        ghost var t0 := transpositionTable;
        var move := SearchDepth(b, player, depth, eval, old(transpositionTable), answers, tables);
        ExtendsTrans(old(transpositionTable), t0, transpositionTable);
        searched := depth;
        answers := answers + [move];
        tables := tables + [transpositionTable];
        if move.None? {
          return Threw, searched, answers, tables;
        }
        bestMove := move;
        depth := depth + 1;
      }
      return Posted(bestMove), searched, answers, tables;
    }
  }
}
