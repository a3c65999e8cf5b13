/**
 * Per-coordinate search bookkeeping. The board holds exactly one node per
 * coordinate, created once and afterwards only updated in place, so a node is
 * identified by its coordinate: `parent` is the coordinate of the parent node,
 * resolved through the board that owns every node.
 */
module KnightPathNodes {
  import opened Wrappers
  import opened Coordinates
  import opened ChessBoards
  import opened KnightHeuristic

  /**
   * `gCost` is the number of moves on the best known path so far; `hCost` is the
   * heuristic estimate to the destination, in sixths of a move.
   */
  datatype KnightPathNode = KnightPathNode(
    coordinate: Coordinate,
    parent: Option<Coordinate>,
    gCost: nat,
    hCost: nat,
    visited: bool)

  /** A node without a parent costs nothing; otherwise one move more than its parent. */
  function CostUnder(parent: Option<KnightPathNode>): nat
  {
    if parent.None? then 0 else parent.value.gCost + 1
  }

  function HandleOf(parent: Option<KnightPathNode>): Option<Coordinate>
  {
    if parent.None? then None else Some(parent.value.coordinate)
  }

  /** `KnightPathNode(parent, coordinate, destination)`: a fresh, unvisited node. */
  function NewNode(parent: Option<KnightPathNode>, coordinate: Coordinate, destination: Coordinate): (n: KnightPathNode)
    ensures n.coordinate == coordinate && !n.visited
    ensures parent.None? ==> n.parent.None? && n.gCost == 0
    ensures parent.Some? ==> n.parent == Some(parent.value.coordinate) && n.gCost == parent.value.gCost + 1
    ensures n.hCost == KnightPathHeuristic(coordinate, destination)
  {
    KnightPathNode(coordinate, HandleOf(parent), CostUnder(parent), KnightPathHeuristic(coordinate, destination), false)
  }

  /**
   * The `parent` setter: the cost is recomputed from the new parent; coordinate,
   * estimate and visited flag are untouched.
   */
  function WithParent(n: KnightPathNode, parent: Option<KnightPathNode>): (m: KnightPathNode)
    ensures m.coordinate == n.coordinate && m.hCost == n.hCost && m.visited == n.visited
    ensures parent.None? ==> m.parent.None? && m.gCost == 0
    ensures parent.Some? ==> m.parent == Some(parent.value.coordinate) && m.gCost == parent.value.gCost + 1
  {
    n.(parent := HandleOf(parent), gCost := CostUnder(parent))
  }

  /** Re-parenting a fresh node gives the node that would have been built with that parent. */
  lemma SetterAgreesWithConstructor(p: Option<KnightPathNode>, q: Option<KnightPathNode>, c: Coordinate, destination: Coordinate)
    ensures WithParent(NewNode(p, c, destination), q) == NewNode(q, c, destination)
  {
  }

  /** The expected total cost through the node, in sixths of a move. */
  function FCost(n: KnightPathNode): nat
  {
    6 * n.gCost + n.hCost
  }

  /**
   * `compareTo`: the lower total cost first and, on equal totals, the higher
   * realized cost first.
   */
  function CompareTo(a: KnightPathNode, b: KnightPathNode): (r: int)
    ensures r == -1 || r == 0 || r == 1
    ensures r < 0 <==> FCost(a) < FCost(b) || (FCost(a) == FCost(b) && a.gCost > b.gCost)
    ensures r == 0 <==> FCost(a) == FCost(b) && a.gCost == b.gCost
  {
    if FCost(a) < FCost(b) then -1
    else if FCost(a) > FCost(b) then 1
    else
      // the second key is the negated realized cost
      var ka, kb := -(a.gCost as int), -(b.gCost as int);
      if ka < kb then -1 else if ka > kb then 1 else 0
  }

  /** `a` may leave the queue before `b`. */
  predicate Precedes(a: KnightPathNode, b: KnightPathNode)
  {
    CompareTo(a, b) <= 0
  }

  /** The comparison is antisymmetric in sign, and `Precedes` is a total preorder. */
  lemma CompareToIsTotalPreorder(a: KnightPathNode, b: KnightPathNode, c: KnightPathNode)
    ensures CompareTo(a, b) == -CompareTo(b, a)
    ensures Precedes(a, a)
    ensures Precedes(a, b) || Precedes(b, a)
    ensures Precedes(a, b) && Precedes(b, c) ==> Precedes(a, c)
  {
  }

  /** `this.gCost + 1 < neighbor.gCost`: adopting `a` as parent makes `n` strictly cheaper. */
  predicate ProvidesShorterPathTo(a: KnightPathNode, n: KnightPathNode)
    ensures ProvidesShorterPathTo(a, n) <==> WithParent(n, Some(a)).gCost < n.gCost
  {
    a.gCost + 1 < n.gCost
  }

  // ---------------------------------------------------------------------------
  // Parent chains.
  // ---------------------------------------------------------------------------

  /** Every node is stored under its own coordinate. */
  ghost predicate Keyed(nodes: map<Coordinate, KnightPathNode>)
  {
    forall c | c in nodes :: nodes[c].coordinate == c
  }

  /** Parents are on the board and strictly cheaper, so every parent chain ends. */
  ghost predicate ParentsDescend(nodes: map<Coordinate, KnightPathNode>)
  {
    forall c {:trigger nodes[c].parent} | c in nodes && nodes[c].parent.Some? ::
      nodes[c].parent.value in nodes && nodes[nodes[c].parent.value].gCost < nodes[c].gCost
  }

  ghost predicate ChainsEnd(nodes: map<Coordinate, KnightPathNode>)
  {
    Keyed(nodes) && ParentsDescend(nodes)
  }

  /** Costs are exact: a root costs nothing, any other node one move more than its parent. */
  ghost predicate ExactCosts(nodes: map<Coordinate, KnightPathNode>)
  {
    forall c {:trigger nodes[c].parent} | c in nodes ::
      if nodes[c].parent.None? then nodes[c].gCost == 0
      else nodes[c].parent.value in nodes && nodes[c].gCost == nodes[nodes[c].parent.value].gCost + 1
  }

  /** The coordinates met when following parents from the node at `c`. */
  ghost function PathFrom(nodes: map<Coordinate, KnightPathNode>, c: Coordinate): seq<Coordinate>
    requires ChainsEnd(nodes) && c in nodes
    decreases nodes[c].gCost
  {
    [c] + match nodes[c].parent
          case None => []
          case Some(p) => PathFrom(nodes, p)
  }

  /**
   * The path starts at the node, each next element is the parent of the one
   * before, every element is on the board, and the last is a root.
   */
  lemma {:induction false} PathFromShape(nodes: map<Coordinate, KnightPathNode>, c: Coordinate)
    requires ChainsEnd(nodes) && c in nodes
    ensures var p := PathFrom(nodes, c);
      && |p| >= 1 && p[0] == c
      && (forall i :: 0 <= i < |p| ==> p[i] in nodes)
      && (forall i {:trigger nodes[p[i]].parent} :: 0 <= i < |p| - 1 ==> nodes[p[i]].parent == Some(p[i + 1]))
      && nodes[p[|p| - 1]].parent.None?
    decreases nodes[c].gCost
  {
    var p := PathFrom(nodes, c);
    match nodes[c].parent
    case None =>
      assert p == [c];
    case Some(q) =>
      PathFromShape(nodes, q);
      var rest := PathFrom(nodes, q);
      assert p == [c] + rest;
      forall i | 0 <= i < |p| - 1 ensures nodes[p[i]].parent == Some(p[i + 1]) {
        if i > 0 {
          assert p[i] == rest[i - 1] && p[i + 1] == rest[i];
        }
      }
      assert forall i :: 0 < i < |p| ==> p[i] == rest[i - 1];
  }

  /** With exact costs the path has one element more than the node's cost. */
  lemma {:induction false} PathLengthIsCostPlusOne(nodes: map<Coordinate, KnightPathNode>, c: Coordinate)
    requires ChainsEnd(nodes) && ExactCosts(nodes) && c in nodes
    ensures |PathFrom(nodes, c)| == nodes[c].gCost + 1
    decreases nodes[c].gCost
  {
    match nodes[c].parent
    case None =>
    case Some(q) =>
      PathLengthIsCostPlusOne(nodes, q);
  }

  /** One step of the chain: the node's coordinate, then the path from its parent, if any. */
  lemma PathFromUnfolds(nodes: map<Coordinate, KnightPathNode>, c: Coordinate)
    requires ChainsEnd(nodes) && c in nodes
    ensures nodes[c].parent.None? ==> PathFrom(nodes, c) == [c]
    ensures nodes[c].parent.Some? ==>
      nodes[c].parent.value in nodes && nodes[nodes[c].parent.value].gCost < nodes[c].gCost &&
      PathFrom(nodes, c) == [c] + PathFrom(nodes, nodes[c].parent.value)
  {
  }

  lemma AppendRegroups(before: seq<Coordinate>, c: Coordinate, rest: seq<Coordinate>)
    ensures before + ([c] + rest) == (before + [c]) + rest
  {
  }

  /** `getPath`: collect coordinates while walking up the parent chain. */
  method GetPath(board: ChessBoard<KnightPathNode>, node: KnightPathNode) returns (path: seq<Coordinate>)
    requires ChainsEnd(board.entries)
    requires node.coordinate in board.entries && board.entries[node.coordinate] == node
    ensures path == PathFrom(board.entries, node.coordinate)
  {
    ghost var whole := PathFrom(board.entries, node.coordinate);
    path := [];
    var next: Option<KnightPathNode> := Some(node);
    while next.Some?
      invariant next.Some? ==> next.value.coordinate in board.entries && board.entries[next.value.coordinate] == next.value
      invariant next.Some? ==> path + PathFrom(board.entries, next.value.coordinate) == whole
      invariant next.None? ==> path == whole
      decreases if next.Some? then next.value.gCost + 1 else 0
    {
      var n := next.value;
      PathFromUnfolds(board.entries, n.coordinate);
      ghost var before := path;
      path := path + [n.coordinate];
      if n.parent.Some? {
        ghost var rest := PathFrom(board.entries, n.parent.value);
        AppendRegroups(before, n.coordinate, rest);
        next := board.Get(n.parent.value);
      } else {
        next := None;
      }
    }
  }
}
