# Omok engine — a Dafny model

This project models the core of the Omok (Gomoku, five in a row on a 15×15
board) engine: the move search of the web worker `ai-worker.js`, and the
game state of the page script `gomoku.js`. The model covers:

- the win checks;
- candidate generation and threat detection;
- the transposition-table key;
- the line patterns and the pattern-weight update;
- alpha-beta minimax with its cache;
- the root move ordering and choice;
- iterative deepening;
- the bookkeeping of the Monte Carlo tree;
- the click handler `placeStone` of the page.

A board cell is `Empty`, `White` or `Black`. The board both scripts mutate
in place is an `array2<Cell>`. `Snapshot(b)` is its value as a
`seq<seq<Cell>>`, and the lemmas are stated on that value. Each
operation that places a stone and takes it back (threat detection,
minimax, the sort comparator, the root loop) is proved to leave the board
exactly as it found it.

Modules, one file each:

| file | module | models |
|---|---|---|
| board.dfy | `Board` | cells, the board value, place/undo, runs along the four axes, five in a row, empty-cell counts |
| rules.dfy | `Rules` | `countDirection`, `checkWin` and `checkWinForPlayer` of the worker |
| moves.dfy | `Moves` | `getValidMoves` |
| threats.dfy | `Threats` | `detectThreats` |
| keys.dfy | `Keys` | `boardToString` and a decoder that inverts it |
| patterns.dfy | `Patterns` | the pattern table, `getLine`, `evaluateLine` and the effect of rescaling the weights |
| ordering.dfy | `Ordering` | the order the root sort leaves: highest key first, and stable (moves with equal keys keep their order) |
| scores.dfy | `Scores` | numbers extended with ±Infinity, `Math.max` and `Math.min`, and the running maximum and minimum |
| search.dfy | `Search` | the worker's state (`patternWeights`, `transpositionTable`), `updateWeights`, `getDynamicDepth`, `minimax`, `findBestMove` and `iterativeDeepening` |
| mcts.dfy | `Mcts` | the Monte Carlo tree, with `expand`, `update`, `backpropagate` and `getBestMove` |
| gomoku.dfy | `Gomoku` | the page's `countDirection`, `checkWin`, `isBoardFull` and `placeStone` |

Two inputs become parameters:

- `evaluateBoard(board, player)` is `eval: (Grid, Stone) -> int`.
- The wall-clock test `Date.now() - startTime < TIMEOUT`, made before
  depth `d`, is `inTime(d)`.

Scores are `NegInf | Fin(int) | PosInf`, so the infinities that seed the
running maximum and minimum stay exact.

Minimax is specified as follows:

- **Cached board:** its entry is returned and nothing changes.
- **Leaf:** a node is a leaf when the depth is 0 or either side has five.
  An uncached leaf is scored by `eval` for the root player, and that score
  is cached.
- **Inner node:** it returns the running maximum (or minimum) of its
  children's scores. It stops exactly at the first score where
  `beta <= alpha`, and otherwise tries every candidate. Each inner node
  caches its result.
- **Every node:** old cache entries are kept, and the board's key ends up
  holding the returned score.

Inner nodes are also tied to one definition: `AlphaBeta` and
`AlphaBetaLoop` spell out `minimax` and its move loop as functions of the
board and the table they start from. Each method of the search
(`Minimax`, `Explore`, `SearchMoves`, `SearchChild`) ensures that its
score and its new table are exactly what those functions give.

The root choice is the first move with the strictly highest score, over
the threats followed by the candidates. The list is sorted stably by a
one-ply tentative score, so equal scores keep the threats-first order.
`RootSearch` spells out the root loop, and `DepthAnswer` states what one
`findBestMove` call at a given depth answers. `IterativeDeepening`
ensures that the move it posts is that answer for the last depth
searched. There is no choice when every score is -Infinity. In the source,
that case dereferences a null `bestMove` and throws (ai-worker.js:151).
The model returns `None` there, and `IterativeDeepening` reports `Threw`.

## Model

| member | source | states |
|---|---|---|
| Board.Put | ai-worker.js:174-176 | writing a cell of the shared board changes that cell's value and no other |
| Board.PlaceRestore | ai-worker.js:174-176 | writing a cell and then writing back what it held gives back the original board (the place/undo discipline) |
| Board.PlaceTwice | ai-worker.js:322-330 | overwriting a placed stone is the same as placing the second stone directly |
| Board.RunAligned | ai-worker.js:302-313 | the run counted from a cell is at least n exactly when the first n cells past it hold the value |
| Board.AxisFive | ai-worker.js:292-300 | "1 + forward run + backward run >= 5" on an axis holds exactly when some window of five consecutive equal cells on that axis covers the cell |
| Board.CountsFiveWindow | ai-worker.js:292-300 | a count of at least five yields a five-cell window through the cell |
| Board.WindowCountsFive | ai-worker.js:292-300 | a five-cell window through the cell yields a count of at least five |
| Board.EmptyCountZero | gomoku.js:107-116 | the number of empty cells is zero exactly when no cell is empty |
| Board.PlaceStoneCount | gomoku.js:31 | a stone on an empty cell lowers the empty-cell count by exactly one |
| Rules.CountDirection | ai-worker.js:302-313 | the count is the length of the run of cells equal to board[row][col], starting one step away; the scan stays on the board and returns at most 14 |
| Rules.CheckWin | ai-worker.js:292-300 | true exactly when some axis holds five or more equal cells in a row through (row, col) |
| Rules.CheckWinForPlayer | ai-worker.js:281-290 | true exactly when some stone of the player lies in a five in a row |
| Moves.GetValidMoves | ai-worker.js:198-221 | the result is exactly the empty on-board cells within Chebyshev distance 2 of a stone, each listed once; a blank board gives no moves |
| Moves.AddNeighbours | ai-worker.js:206-217 | the two nested loops around one stone leave the same list and set as the scan definition's step for that stone |
| Moves.ScanCellKeeps | ai-worker.js:200-219 | that step never drops a listed move and keeps the list free of repeats and of anything but empty on-board cells near a stone; at a stone it lists every empty cell within distance 2 |
| Moves.ValidMovesAreCandidates | ai-worker.js:198-221 | the scan definition lists exactly the empty on-board cells near a stone, once each, and nothing on a blank board |
| Threats.DetectThreats | ai-worker.js:315-336 | the board is left as it was; each cell is listed once per side for which filling it makes five, in row-major order, and never otherwise |
| Threats.TryCell | ai-worker.js:321-331 | trying both colours on one empty cell restores the board and reports the cell once per side that wins there |
| Threats.ListedAreThreats | ai-worker.js:315-336 | every reported cell was empty and completes five for the player or for the opponent |
| Keys.RowString | ai-worker.js:339 | each cell of a row adds one to five characters to its string (".", "white" or "black") |
| Keys.BoardToString | ai-worker.js:338-340 | on a board of full rows the key has between one and five characters per cell |
| Keys.KeyRoundTrip | ai-worker.js:338-340 | decoding the key of a 15×15 board gives back the board |
| Keys.KeyInjective | ai-worker.js:338-340 | two boards with the same key are equal, so cache entries never collide |
| Patterns.LineFrom | ai-worker.js:260-268 | the clipped window from offset i to 4 has at most 5 - i symbols, all from "O", "." and "X" |
| Patterns.GetLine | ai-worker.js:258-270 | the window has at most nine symbols, each "O", "." or "X" |
| Patterns.GetLineHasAnchor | ai-worker.js:258-270 | the window through a cell is never empty and contains that cell's own symbol |
| Patterns.GetLineSwap | ai-worker.js:258-270 | reading the board with colours swapped, from the other side, gives the same window |
| Patterns.OccurrencesFit | ai-worker.js:275-276 | the non-overlapping matches of a pattern fit side by side in the line |
| Patterns.OccurrencesPositive | ai-worker.js:275-276 | a pattern is counted at least once exactly when it occurs somewhere in the line |
| Patterns.NonNegativeWeights | ai-worker.js:272-279 | with non-negative weights the weighted match count over any list of patterns is never negative |
| Patterns.NoMatchNoScore | ai-worker.js:272-279 | patterns that never match add nothing: a line that matches none of them sums to exactly 0 |
| Patterns.EvaluateLine | ai-worker.js:272-279 | with non-negative weights a line scores at least 0, and a line that matches no pattern of the table scores exactly 0 |
| Patterns.FiveDominates | ai-worker.js:272-279 | with non-negative weights a line that holds "OOOOO" scores at least the five-in-a-row weight |
| Scores.Max | ai-worker.js:177-178 | `Math.max` is an upper bound of both arguments and one of them |
| Scores.Min | ai-worker.js:189-190 | `Math.min` is a lower bound of both arguments and one of them |
| Scores.BestIsExtreme | ai-worker.js:172-192 | the running maximum (minimum) bounds every score seen and is one of them; with no scores it stays at -Infinity (Infinity) |
| Search.GetDynamicDepth | ai-worker.js:110-116 | the depth is between 3 and 6 |
| Search.DepthAntitone | ai-worker.js:110-116 | fewer empty cells never give a shallower depth |
| Search.DepthAfterMove | ai-worker.js:110-116 | placing a stone never makes the search shallower |
| Patterns.SumPatternsScale | ai-worker.js:272-279 | scaling each pattern's weight by f scales the weighted sum by f |
| Patterns.EvaluateLineScale | ai-worker.js:73-82 | after rescaling the table every line's score is rescaled by the same factor, so the order between lines is kept |
| Search.ResultFactor | ai-worker.js:73-82 | the factor `updateWeights` applies is positive, above 1 exactly for "win" and below 1 exactly for "loss" |
| Search.RunningStep | ai-worker.js:171-194 | one more child score keeps the loop state: the running extreme, alpha (beta) and "beta <= alpha exactly at the cutting score" |
| Search.ExploredByLoop | ai-worker.js:169-192 | a move loop over `getValidMoves`' list tries distinct candidates, and every candidate unless it stopped at the first cutoff |
| Search.LoopEnd | ai-worker.js:171-192 | when the move loop ends, at a cutoff or after the last move, it has tried a prefix of the moves and returns what `AlphaBetaLoop` returns |
| Search.AlphaBetaCaches | ai-worker.js:155-196 | a `minimax` call keeps every cached entry and leaves the board's key holding the score it returns |
| Search.AlphaBetaLoopGrows | ai-worker.js:171-192 | the move loop keeps every cached entry |
| Search.RootChoiceCounted | ai-worker.js:118-153 | the stably sorted root list holds each cell once per threat hit plus once if it is a candidate, and a chosen move is such a cell |
| Search.LeadingStep | ai-worker.js:146-149 | `if (score > bestScore)`: a strictly higher score becomes the best, any other score keeps the best |
| Search.LeadingChosen | ai-worker.js:141-152 | after the last move the best so far is the first move with the highest score, and none when every score is -Infinity |
| Search.Answered | ai-worker.js:118-153 | the results of one `findBestMove` run make up that depth's answer |
| Search.DeepenedStep | ai-worker.js:90-108 | one more depth searched extends the record of answers: earlier depths keep theirs, and the new depth's answer is added |
| Search.AnsweredKept | ai-worker.js:90-108 | an earlier depth's answer stays in the record when the next one is added |
| Search.ClockStep | ai-worker.js:95-96 | the clock test passed before each depth so far, and before the next one |
| Search.Engine.constructor | ai-worker.js:6-19 | the worker starts with the initial pattern table and an empty transposition table |
| Search.Engine.WeightsRankFive | ai-worker.js:272-279 | under the engine's table, whose weights are positive, no line scores below 0 and a line holding "OOOOO" scores at least that pattern's weight |
| Search.Engine.UpdateWeights | ai-worker.js:73-82 | the table keeps its keys; "win" multiplies each weight by 1.1, "loss" by 0.9, and any other tag leaves all weights unchanged |
| Search.Engine.Minimax | ai-worker.js:155-196 | board unchanged and old cache entries kept; a cached board returns its entry and changes nothing; an uncached leaf returns eval for the root player and caches it; an inner node returns the running extreme over distinct candidates, stopping at the first cutoff; the key then holds the score; score and table are exactly `AlphaBeta` of the old table |
| Search.Engine.IsTerminal | ai-worker.js:163 | the leaf test is true exactly at depth 0 or when either side has five in a row |
| Search.Engine.Explore | ai-worker.js:168-195 | an inner node tries distinct candidates and returns their running extreme; it stops at the first cutoff and otherwise tries every candidate; score and table are those `AlphaBetaLoop` gives for `getValidMoves`' list |
| Search.Engine.SearchMoves | ai-worker.js:171-194 | the move loop returns the maximum (minimum) of the scores it computed, over a prefix of the moves that ends at the first cutoff or covers them all; score and table are exactly `AlphaBetaLoop` from the first move |
| Search.Engine.SearchChild | ai-worker.js:173-192 | one loop iteration scores the next child, which is exactly `AlphaBeta` of that child, and updates the running extreme and alpha (beta), keeping the loop state |
| Search.Engine.ChildScore | ai-worker.js:174-176 | place, search, undo leaves the board as it was, the weights untouched and old cache entries in place, and the child's key holding its score, which is exactly `AlphaBeta` of the child |
| Search.Engine.TentativeScore | ai-worker.js:129-135 | the comparator's place/eval/undo returns eval of the board with the stone and leaves the board unchanged |
| Search.Engine.InsertByScore | ai-worker.js:128-139 | inserting one move keeps the list ordered by tentative score, highest first, adds exactly that move, and puts it after every move with the same score |
| Search.Engine.SortByTentativeScore | ai-worker.js:128-139 | the result is a permutation of the moves, ordered by tentative score from highest, with equal scores in their original order, and the board unchanged |
| Ordering.InsertKeepsOrder | ai-worker.js:128-139 | inserting a move after the last move with a key at least its own keeps the list highest key first |
| Ordering.InsertMultiset | ai-worker.js:128-139 | an insertion adds exactly the inserted move |
| Ordering.InsertStable | ai-worker.js:128-139 | after such an insertion the moves of each key are those before, in the same order, followed by the inserted move if it has that key |
| Ordering.KeyFilterAppend | ai-worker.js:128-139 | the moves of one key in a concatenation are those of the first part followed by those of the second |
| Ordering.FiltersDetermine | ai-worker.js:128-139 | two lists, each highest key first, that hold the same moves in the same order for every key are equal |
| Ordering.StableSortUnique | ai-worker.js:128-139 | a stable sort by key has exactly one possible result, so the root order is determined by the list and the keys |
| Search.Engine.RootMoves | ai-worker.js:121-126 | the root list is the threats in `detectThreats`' order followed by `getValidMoves`' list, so it holds each cell once per threat hit plus once if it is a candidate, all on empty cells |
| Search.Engine.FindBestMove | ai-worker.js:118-153 | the board is unchanged; the root list is sorted stably by tentative score; the scores and the new table are `RootSearch` over that order; the answer is the first move with the highest score, and none when every score is -Infinity |
| Search.Engine.RootLoop | ai-worker.js:141-150 | the scores and the new table are exactly `RootSearch` over the sorted moves, and the answer is the first move with the highest score |
| Search.Engine.RootChild | ai-worker.js:142-144 | one root move is placed, searched as a minimizing node with the full window, and taken back; the loop state moves on by exactly that `AlphaBeta` result |
| Search.Engine.SearchDepth | ai-worker.js:99-104 | one deepening step is one `findBestMove` call whose answer and table join the record of earlier depths |
| Search.Engine.IterativeDeepening | ai-worker.js:90-108 | depths 1, 2, ... are searched while the clock allows, never beyond the dynamic depth; each depth's answer is `findBestMove`'s answer at that depth on the table the previous depth left; the reply carries the last depth's answer, none when no depth was searched, and an exception when a depth found no move |
| Mcts.NewNode | ai-worker.js:398-406 | a new node has no children, no wins, no visits and no move |
| Mcts.Tree.constructor | ai-worker.js:345 | a fresh tree is a single root node for the board and player |
| Mcts.Tree.Expand | ai-worker.js:429-442 | either one child is added for the first untried candidate in `getValidMoves`' order (its board is the parent's plus the parent player's stone, the other player to move) or, when none is left, the node is returned and nothing changes |
| Mcts.Tree.Update | ai-worker.js:444-447 | the node gets one more visit and the result added to its wins |
| Mcts.Tree.Backpropagate | ai-worker.js:376-381 | exactly the nodes on the path from the node to the root are updated |
| Mcts.Tree.GetBestMove | ai-worker.js:383-394 | the move of the first child with the highest win rate among visited children; none when no child was visited |
| Mcts.RootOnPath | ai-worker.js:376-381 | the path upward from any node reaches the root, so backpropagation always updates the root |
| Mcts.UpdateValid | ai-worker.js:444-447 | recording a result keeps the tree well formed |
| Mcts.ExpandValid | ai-worker.js:429-442 | adding a child for an untried candidate keeps the tree well formed |
| Gomoku.CountDirection | gomoku.js:95-105 | the count is the run of cells equal to board[row][col] starting one step away; the scan stays on the board and returns at most 14 |
| Gomoku.CheckWin | gomoku.js:85-93 | true exactly when some axis holds five or more equal cells in a row through (row, col) |
| Gomoku.IsBoardFull | gomoku.js:107-116 | true exactly when no cell is empty, equivalently when the empty-cell count is zero |
| Gomoku.Game.constructor | gomoku.js:6-8 | the game starts on an empty board, black to move, with the engine idle |
| Gomoku.Game.PlaceStone | gomoku.js:24-62 | ignored exactly while the engine thinks with black to move or on an occupied cell (then nothing changes); otherwise only that cell gets the mover's stone, the outcome is a win exactly on five through it, a draw exactly on a full board, and only otherwise the turn passes |

## Left out

- The neural network (`NeuralNetwork`, `trainNeuralNet`) is left out. It uses random initialisation and floating-point arithmetic.
- The numeric body of `evaluateBoard` and `evaluatePosition` is left out. The evaluator is the parameter `eval`, and its values are integers rather than JavaScript floats.
- The wall clock is left out. `Date.now()` and `TIMEOUT` are replaced by the oracle `inTime`.
- The log messages are left out.
- Monte Carlo search is not modelled:
  - `mcts`, `selectNode` and `findBestMoveWithMCTS` are never called by the worker;
  - `simulate` uses `Math.random` and the non-existent `clone()`;
  - `Node.getBestChild` uses square roots and logarithms;
  - `Node.isFullyExpanded`, `Node.isTerminal` and the global `isTerminal` are not modelled.
- Worker messaging is left out (`self.onmessage` and `postMessage`, and the page's `worker.onmessage`). In particular the page's clearing of `isAIThinking` after the engine replies is not modelled.
- The DOM and timers of the page are left out: `createBoard`, `resetGame`, `logMove`, `requestAiMove`, `alert` and `setTimeout`.
- Search.Engine.SortByTentativeScore: the comparator sort of the engine (`Array.prototype.sort`) is modelled as a stable insertion sort. Each move's tentative score is computed once, by place, evaluate and undo. The engine's sort may evaluate a move several times, and in another order, but it yields an ordering by the same keys.
- Search.TentativeKey: a move off the board scores 0. The sort only ever meets moves on empty cells of the board.
- Moves.GetValidMoves: the `occupied` set of "row,col" strings is a set of moves.
- Patterns.SumPatterns: a pattern's `g`-flag regular-expression matches are counted as leftmost, non-overlapping occurrences of the literal pattern. The weights are reals, where the source uses JavaScript numbers.
- Mcts.Tree.Update: the result added to the wins is an integer, where the source uses whatever `evaluateBoard` returns.
- Mcts.Tree.GetBestMove: a child with no visits has win rate 0/0, which is NaN in the source. NaN never compares greater, so the model skips such a child.
- Gomoku.Game.PlaceStone: the index is required to be a cell of the board (0 to 224). In the source the index comes only from a board cell's click handler or from an engine move.
