/**
 * The bookkeeping of the Monte Carlo tree in ai-worker.js: nodes live in
 * one growing sequence and refer to their parent and children by index.
 * `expand` adds one untried child, `update` and `backpropagate` record a
 * playout result along the path to the root, and `getBestMove` picks the
 * root child with the best win rate.
 */
module Mcts {
  import opened Board
  import opened Moves

  /** A search node; `parent` and `children` are indices into the tree. */
  datatype Node = Node(parent: Option<nat>, board: Grid, player: Stone, children: seq<nat>,
                       wins: int, visits: nat, move: Option<Move>)

  /** `new Node(parent, board, player)`: no children, no visits, no move yet. */
  function NewNode(parent: Option<nat>, board: Grid, player: Stone): (n: Node)
    ensures n.children == [] && n.wins == 0 && n.visits == 0 && n.move.None?
    ensures n.parent == parent && n.board == board && n.player == player
  {
    Node(parent, board, player, [], 0, 0, None)
  }

  /** `child.wins / child.visits` for a visited child. */
  function WinRate(n: Node): real
    requires n.visits > 0
  {
    (n.wins as real) / (n.visits as real)
  }

  /** The path from node i up to the root, i included. */
  ghost function Ancestors(nodes: seq<Node>, i: nat): set<nat>
    requires i < |nodes|
    requires forall k :: 0 <= k < |nodes| && nodes[k].parent.Some? ==> nodes[k].parent.value < k
    decreases i
  {
    {i} + (if nodes[i].parent.Some? then Ancestors(nodes, nodes[i].parent.value) else {})
  }

  /** One more visit, and the playout result added to the wins. */
  function Bump(n: Node, result: int): Node {
    n.(visits := n.visits + 1, wins := n.wins + result)
  }

  /** The nodes with every index in `s` bumped. */
  ghost function BumpAll(nodes: seq<Node>, s: set<nat>, result: int): (r: seq<Node>)
    ensures |r| == |nodes|
    ensures forall k :: 0 <= k < |nodes| ==> r[k] == if k in s then Bump(nodes[k], result) else nodes[k]
  {
    seq(|nodes|, k requires 0 <= k < |nodes| => if k in s then Bump(nodes[k], result) else nodes[k])
  }

  lemma BumpAllAdd(nodes: seq<Node>, s: set<nat>, n: nat, result: int)
    requires n < |nodes| && n !in s
    ensures BumpAll(nodes, s + {n}, result) == BumpAll(nodes, s, result)[n := Bump(nodes[n], result)]
  {
  }

  class Tree {
    var nodes: seq<Node>

    /**
     * Node 0 is the root and the only node without a parent; every other
     * node is a child of an earlier node, listed among its children, holds
     * the move that leads to it (a candidate of the parent's board, played
     * by the parent's player), and the turn passes; no move is expanded
     * twice under one parent; a node never visited has no wins.
     */
    ghost predicate Valid()
      reads this
    {
      WellFormed(nodes)
    }

    /** `new Node(null, board, player)` as the root of a fresh tree. */
    constructor (board: Grid, player: Stone)
      requires IsGrid(board)
      ensures Valid()
      ensures nodes == [NewNode(None, board, player)]
    {
      nodes := [NewNode(None, board, player)];
    }

    /**
     * `expand`: the first candidate of node i's board without a child gets
     * one (the board plus the node player's stone there, the other player
     * to move) and that child is returned; when every candidate has a
     * child the node itself is returned and nothing changes.
     */
    method Expand(i: nat) returns (j: nat)
      requires Valid() && i < |nodes|
      modifies this
      ensures Valid()
      ensures j == i ==> nodes == old(nodes)
      ensures j == i ==> forall m :: IsCandidate(nodes[i].board, m) ==> HasChildFor(nodes, i, m)
      ensures j != i ==> j == |old(nodes)| && exists k ::
        && FirstUntried(old(nodes), i, k)
        && IsCandidate(old(nodes)[i].board, ValidMoves(old(nodes)[i].board)[k])
        && nodes == Expanded(old(nodes), i, ValidMoves(old(nodes)[i].board)[k])
    {
      var moves := GetValidMoves(nodes[i].board);
      for k := 0 to |moves|
        invariant nodes == old(nodes)
        invariant forall l :: 0 <= l < k ==> HasChildFor(nodes, i, moves[l])
      {
        var move := moves[k];
        if !HasChildFor(nodes, i, move) {
          assert FirstUntried(nodes, i, k);
          var parent := nodes[i];
          var newBoard := Place(parent.board, move.row, move.col, parent.player);
          var child := NewNode(Some(i), newBoard, Opponent(parent.player)).(move := Some(move));
          j := |nodes|;
          nodes := nodes[i := parent.(children := parent.children + [j])] + [child];
          ExpandValid(old(nodes), i, move, nodes);
          return;
        }
      }
      return i;
    }

    /** `update`: one more visit and the playout result added to the wins. */
    method Update(i: nat, result: int)
      requires Valid() && i < |nodes|
      modifies this
      ensures Valid()
      ensures nodes == old(nodes)[i := Bump(old(nodes)[i], result)]
    {
      nodes := nodes[i := Bump(nodes[i], result)];
      UpdateValid(old(nodes), i, result);
    }

    /**
     * `backpropagate`: node i and each of its ancestors up to the root
     * gets one more visit and the result; every other node and the shape
     * of the tree stay as they were.
     */
    method Backpropagate(i: nat, result: int)
      requires Valid() && i < |nodes|
      modifies this
      ensures Valid() && |nodes| == |old(nodes)|
      ensures forall k :: 0 <= k < |nodes| ==>
        nodes[k] == if k in Ancestors(old(nodes), i) then Bump(old(nodes)[k], result) else old(nodes)[k]
    {
      var node: Option<nat> := Some(i);
      ghost var done: set<nat> := {};
      while node.Some?
        invariant Valid() && |nodes| == |old(nodes)|
        invariant Climbing(old(nodes), i, done, node)
        invariant nodes == BumpAll(old(nodes), done, result)
        decreases if node.Some? then node.value + 1 else 0
      {
        var n := node.value;
        ClimbStep(old(nodes), i, done, n);
        Update(n, result);
        BumpAllAdd(old(nodes), done, n, result);
        done := done + {n};
        node := nodes[n].parent;
      }
    }

    /**
     * `getBestMove`: the move of the first child of node i whose win rate
     * is highest; a child never visited has no win rate (0/0 is NaN and
     * never compares greater), so no move when no child has been visited.
     */
    method GetBestMove(i: nat) returns (best: Option<Move>)
      requires Valid() && i < |nodes|
      ensures best.None? <==> forall k :: 0 <= k < |nodes[i].children| ==> nodes[nodes[i].children[k]].visits == 0
      ensures best.Some? ==> exists k :: BestChildAt(nodes, i, k) && nodes[nodes[i].children[k]].move == best
    {
      best := None;
      var bestWinRate: real := 0.0;
      ghost var bk := -1;
      var children := nodes[i].children;
      for k := 0 to |children|
        invariant best.None? ==> forall l :: 0 <= l < k ==> nodes[children[l]].visits == 0
        invariant best.Some? ==>
          && 0 <= bk < k && BestChildUpTo(nodes, i, bk, k)
          && nodes[children[bk]].move == best && bestWinRate == WinRate(nodes[children[bk]])
      {
        var child := nodes[children[k]];
        assert ChildrenOf(nodes, i) && ChildLink(nodes, children[k]);
        if child.visits > 0 {
          var winRate := WinRate(child);
          if best.None? || winRate > bestWinRate {
            bestWinRate := winRate;
            best := child.move;
            bk := k;
          }
        }
      }
    }
  }

  /**
   * Node i is tied to its parent: the parent comes first and lists i, i
   * holds the move that led to it, its board is the parent's board with
   * the parent's player's stone on that candidate cell, and the other
   * player is to move.
   */
  /**
   * Index k of the candidate list of node i's board is the first candidate
   * without a child: every candidate listed before it has one.
   */
  ghost predicate FirstUntried(nodes: seq<Node>, i: nat, k: int)
    requires i < |nodes| && IsGrid(nodes[i].board)
  {
    && 0 <= k < |ValidMoves(nodes[i].board)|
    && !HasChildFor(nodes, i, ValidMoves(nodes[i].board)[k])
    && forall l :: 0 <= l < k ==> HasChildFor(nodes, i, ValidMoves(nodes[i].board)[l])
  }

  ghost predicate ChildLink(nodes: seq<Node>, i: nat)
    requires i < |nodes|
  {
    && nodes[i].parent.Some?
    && nodes[i].parent.value < i
    && nodes[i].move.Some?
    && var p := nodes[nodes[i].parent.value];
       && i in p.children
       && IsGrid(p.board)
       && IsCandidate(p.board, nodes[i].move.value)
       && nodes[i].board == Place(p.board, nodes[i].move.value.row, nodes[i].move.value.col, p.player)
       && nodes[i].player == Opponent(p.player)
  }

  /** The children of node i come after it, name it as parent and were reached by different moves. */
  ghost predicate ChildrenOf(nodes: seq<Node>, i: nat)
    requires i < |nodes|
  {
    var cs := nodes[i].children;
    && (forall k :: 0 <= k < |cs| ==> i < cs[k] < |nodes| && nodes[cs[k]].parent == Some(i))
    && (forall k, l :: 0 <= k < l < |cs| ==> nodes[cs[k]].move != nodes[cs[l]].move)
  }

  /** Child position bk has the highest win rate among the visited children, and the first such. */
  ghost predicate BestChildUpTo(nodes: seq<Node>, i: nat, bk: int, upto: int)
    requires i < |nodes| && upto <= |nodes[i].children|
    requires forall k :: 0 <= k < |nodes[i].children| ==> nodes[i].children[k] < |nodes|
  {
    var cs := nodes[i].children;
    && 0 <= bk < upto
    && nodes[cs[bk]].visits > 0
    && (forall l :: 0 <= l < upto && nodes[cs[l]].visits > 0 ==> WinRate(nodes[cs[l]]) <= WinRate(nodes[cs[bk]]))
    && (forall l :: 0 <= l < bk && nodes[cs[l]].visits > 0 ==> WinRate(nodes[cs[l]]) < WinRate(nodes[cs[bk]]))
  }

  ghost predicate BestChildAt(nodes: seq<Node>, i: nat, bk: int)
    requires i < |nodes|
    requires forall k :: 0 <= k < |nodes[i].children| ==> nodes[i].children[k] < |nodes|
  {
    BestChildUpTo(nodes, i, bk, |nodes[i].children|)
  }

  /** The tree invariant of `Tree`, on the node sequence. */
  ghost predicate WellFormed(nodes: seq<Node>) {
    && |nodes| > 0
    && nodes[0].parent.None?
    && (forall i :: 0 <= i < |nodes| && nodes[i].parent.Some? ==> nodes[i].parent.value < i)
    && (forall i, k :: 0 <= i < |nodes| && 0 <= k < |nodes[i].children| ==> nodes[i].children[k] < |nodes|)
    && (forall i :: 0 <= i < |nodes| ==> IsGrid(nodes[i].board))
    && (forall i :: 0 <= i < |nodes| && nodes[i].visits == 0 ==> nodes[i].wins == 0)
    && (forall i :: 0 < i < |nodes| ==> ChildLink(nodes, i))
    && (forall i :: 0 <= i < |nodes| ==> ChildrenOf(nodes, i))
  }

  /** Some child of node i was reached by `m` (`this.children.some(...)`). */
  predicate HasChildFor(nodes: seq<Node>, i: nat, m: Move)
    requires i < |nodes|
  {
    exists k :: 0 <= k < |nodes[i].children| && nodes[i].children[k] < |nodes|
                && nodes[nodes[i].children[k]].move == Some(m)
  }

  /**
   * The walk of `backpropagate` from node i: `done` holds the nodes already
   * updated, all above the current one, and together with the current
   * node's ancestors they make up node i's.
   */
  ghost predicate Climbing(nodes: seq<Node>, i: nat, done: set<nat>, node: Option<nat>)
    requires WellFormed(nodes) && i < |nodes|
  {
    && (node.Some? ==> node.value < |nodes| && forall k :: k in done ==> k > node.value)
    && done + (if node.Some? then Ancestors(nodes, node.value) else {}) == Ancestors(nodes, i)
  }

  lemma ClimbStep(nodes: seq<Node>, i: nat, done: set<nat>, n: nat)
    requires WellFormed(nodes) && i < |nodes| && Climbing(nodes, i, done, Some(n))
    ensures n !in done && Climbing(nodes, i, done + {n}, nodes[n].parent)
    ensures nodes[n].parent.Some? ==> nodes[n].parent.value < n
  {
  }

  /** Every path upwards ends at the root, so `backpropagate` always reaches node 0. */
  lemma {:induction false} RootOnPath(nodes: seq<Node>, i: nat)
    requires WellFormed(nodes) && i < |nodes|
    ensures 0 in Ancestors(nodes, i)
    decreases i
  {
    if i > 0 {
      assert ChildLink(nodes, i);
      RootOnPath(nodes, nodes[i].parent.value);
    }
  }

  lemma UpdateValid(nodes: seq<Node>, i: nat, result: int)
    requires WellFormed(nodes) && i < |nodes|
    ensures WellFormed(nodes[i := Bump(nodes[i], result)])
  {
    var nodes' := nodes[i := Bump(nodes[i], result)];
    forall k | 0 < k < |nodes'|
      ensures ChildLink(nodes', k)
    {
      assert ChildLink(nodes, k);
    }
    forall k | 0 <= k < |nodes'|
      ensures ChildrenOf(nodes', k)
    {
      assert ChildrenOf(nodes, k);
    }
  }

  /** Appending a child for an untried candidate keeps the tree well formed. */
  lemma ExpandValid(nodes: seq<Node>, i: nat, m: Move, nodes': seq<Node>)
    requires WellFormed(nodes) && i < |nodes|
    requires IsCandidate(nodes[i].board, m) && !HasChildFor(nodes, i, m)
    requires nodes' == Expanded(nodes, i, m)
    ensures WellFormed(nodes')
  {
    ExpandLinks(nodes, i, m);
    ExpandChildren(nodes, i, m);
  }

  /**
   * Node i with one more child index, and the new node appended: the
   * board with node i's player's stone on m, the other player to move,
   * no children, wins or visits yet.
   */
  ghost function Expanded(nodes: seq<Node>, i: nat, m: Move): seq<Node>
    requires i < |nodes| && IsGrid(nodes[i].board) && InBounds(m.row, m.col)
  {
    nodes[i := nodes[i].(children := nodes[i].children + [|nodes|])]
    + [Node(Some(i), Place(nodes[i].board, m.row, m.col, nodes[i].player),
            Opponent(nodes[i].player), [], 0, 0, Some(m))]
  }

  lemma ExpandLinks(nodes: seq<Node>, i: nat, m: Move)
    requires WellFormed(nodes) && i < |nodes| && IsCandidate(nodes[i].board, m)
    ensures forall k :: 0 < k < |Expanded(nodes, i, m)| ==> ChildLink(Expanded(nodes, i, m), k)
  {
    var nodes', j := Expanded(nodes, i, m), |nodes|;
    forall k | 0 < k < |nodes'|
      ensures ChildLink(nodes', k)
    {
      if k < j {
        assert ChildLink(nodes, k);
        var p := nodes[k].parent.value;
        assert k in nodes'[p].children;
      }
    }
  }

  lemma ExpandChildren(nodes: seq<Node>, i: nat, m: Move)
    requires WellFormed(nodes) && i < |nodes| && IsCandidate(nodes[i].board, m) && !HasChildFor(nodes, i, m)
    ensures forall k :: 0 <= k < |Expanded(nodes, i, m)| ==> ChildrenOf(Expanded(nodes, i, m), k)
  {
    var nodes', j := Expanded(nodes, i, m), |nodes|;
    forall k | 0 <= k < |nodes'|
      ensures ChildrenOf(nodes', k)
    {
      if k < j {
        assert ChildrenOf(nodes, k);
        if k == i {
          var cs := nodes'[i].children;
          forall a, b | 0 <= a < b < |cs|
            ensures nodes'[cs[a]].move != nodes'[cs[b]].move
          {
            if b == |cs| - 1 {
              assert nodes'[cs[a]].move == nodes[cs[a]].move;
              assert nodes[cs[a]].move != Some(m);
            }
          }
        }
      }
    }
  }
}
