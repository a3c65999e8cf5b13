/**
 * `findShortestKnightPath`: A* search from `end` back to `start`, so that the
 * parent chain of the node at `start` lists the path in travel order.
 *
 * The priority queue holds node handles (coordinates); taking from it yields a
 * least node under `CompareTo`. When a cheaper path to a queued node is found,
 * that node is re-parented in place and moved to the back of the queue.
 */
module KnightPathFinder {
  import opened Wrappers
  import opened Coordinates
  import opened BoardDimensions
  import opened ChessBoards
  import opened KnightHeuristic
  import opened KnightPathNodes

  type Nodes = map<Coordinate, KnightPathNode>

  predicate NoDuplicates(q: seq<Coordinate>)
  {
    forall i, j :: 0 <= i < j < |q| ==> q[i] != q[j]
  }

  /** `queue.remove(x)`: drop the occurrence of `x`, keep the rest in order. */
  function Remove(q: seq<Coordinate>, x: Coordinate): (r: seq<Coordinate>)
    ensures forall y :: y in r <==> y in q && y != x
    ensures NoDuplicates(q) ==> NoDuplicates(r)
  {
    if q == [] then []
    else if q[0] == x then Remove(q[1..], x)
    else
      var rest := Remove(q[1..], x);
      assert NoDuplicates(q) ==> NoDuplicates(q[1..]) && q[0] !in q[1..];
      [q[0]] + rest
  }

  /** The position of a least node of the queue, the one `queue.remove()` takes. */
  function MinIndex(nodes: Nodes, queue: seq<Coordinate>): (i: nat)
    requires queue != []
    requires forall j :: 0 <= j < |queue| ==> queue[j] in nodes
    ensures i < |queue|
    ensures forall j :: 0 <= j < |queue| ==> Precedes(nodes[queue[i]], nodes[queue[j]])
  {
    if |queue| == 1 then 0
    else
      var k := MinIndex(nodes, queue[1..]) + 1;
      if Precedes(nodes[queue[0]], nodes[queue[k]]) then
        forall j | 1 <= j < |queue|
          ensures Precedes(nodes[queue[0]], nodes[queue[j]]) {
          assert queue[j] == queue[1..][j - 1];
          CompareToIsTotalPreorder(nodes[queue[0]], nodes[queue[k]], nodes[queue[j]]);
        }
        0
      else
        assert forall j :: 1 <= j < |queue| ==> queue[j] == queue[1..][j - 1];
        CompareToIsTotalPreorder(nodes[queue[k]], nodes[queue[0]], nodes[queue[0]]);
        k
  }

  /** The queue holds exactly the unvisited nodes of the board, each once. */
  ghost predicate QueueIsFrontier(nodes: Nodes, queue: seq<Coordinate>)
  {
    && NoDuplicates(queue)
    && (forall i :: 0 <= i < |queue| ==> queue[i] in nodes && !nodes[queue[i]].visited)
    && (forall c :: c in nodes && !nodes[c].visited ==> c in queue)
  }

  /**
   * A node other than the seed hangs under a visited parent one knight move
   * away (the node is among the parent's moves) and costs one move more.
   */
  ghost predicate HasVisitedParent(dimensions: ChessBoardDimensions, nodes: Nodes, c: Coordinate)
    requires c in nodes
  {
    && nodes[c].parent.Some?
    && nodes[c].parent.value in nodes
    && nodes[nodes[c].parent.value].visited
    && IsKnightStep(nodes[c].parent.value, c)
    && nodes[c].gCost == nodes[nodes[c].parent.value].gCost + 1
  }

  /** The search tree: the parentless seed at `end`, every other node under a visited parent. */
  ghost predicate SearchTree(dimensions: ChessBoardDimensions, start: Coordinate, end: Coordinate, nodes: Nodes)
  {
    && Keyed(nodes)
    && end in nodes && nodes[end].parent.None? && nodes[end].gCost == 0
    && (forall c | c in nodes :: nodes[c].hCost == KnightPathHeuristic(c, start))
    && (forall c {:trigger HasVisitedParent(dimensions, nodes, c)} | c in nodes && c != end ::
          IsValidCoordinate(dimensions, c) && HasVisitedParent(dimensions, nodes, c))
  }

  /**
   * Every visited node, except possibly `pending`, has all its moves on the
   * board, each at most one move dearer than itself.
   */
  ghost predicate ExpandedExcept(dimensions: ChessBoardDimensions, nodes: Nodes, pending: Option<Coordinate>)
  {
    forall c, m | c in nodes && nodes[c].visited && pending != Some(c) && m in KnightMovesFrom(dimensions, c) ::
      m in nodes && nodes[m].gCost <= nodes[c].gCost + 1
  }

  /** The node at `c` has been taken from the queue. */
  ghost predicate Closed(nodes: Nodes, c: Coordinate)
  {
    c in nodes && nodes[c].visited
  }

  /** `w` runs from `w[0]` to `end` by knight steps, over valid squares except `end` itself. */
  predicate IsWalkToEnd(dimensions: ChessBoardDimensions, end: Coordinate, w: seq<Coordinate>)
  {
    && |w| >= 1 && w[|w| - 1] == end
    && (forall i :: 0 <= i < |w| - 1 ==> IsValidCoordinate(dimensions, w[i]) && IsKnightStep(w[i], w[i + 1]))
  }

  /** No walk from `c` to `end` takes fewer than `g` moves. */
  ghost predicate NoShorterWalk(dimensions: ChessBoardDimensions, end: Coordinate, c: Coordinate, g: nat)
  {
    forall w | IsWalkToEnd(dimensions, end, w) && w[0] == c :: g <= |w| - 1
  }

  /** Every node taken from the queue has its least cost. */
  ghost predicate Settled(dimensions: ChessBoardDimensions, end: Coordinate, nodes: Nodes)
  {
    forall c {:trigger NoShorterWalk(dimensions, end, c, nodes[c].gCost)} | Closed(nodes, c) ::
      NoShorterWalk(dimensions, end, c, nodes[c].gCost)
  }

  /**
   * One expansion step: no node disappears, visited flags stay as they were,
   * visited nodes are left alone, costs never increase, and new nodes are unvisited.
   */
  ghost predicate Improves(before: Nodes, after: Nodes)
  {
    && (forall c | c in before ::
          && c in after
          && after[c].visited == before[c].visited
          && after[c].gCost <= before[c].gCost
          && (before[c].visited ==> after[c] == before[c]))
    && (forall c | c in after && c !in before :: !after[c].visited)
  }

  ghost function VisitedKeys(nodes: Nodes): set<Coordinate>
  {
    set c | c in nodes && nodes[c].visited
  }

  lemma SearchTreeChainsEnd(dimensions: ChessBoardDimensions, start: Coordinate, end: Coordinate, nodes: Nodes)
    requires SearchTree(dimensions, start, end, nodes)
    ensures ChainsEnd(nodes) && ExactCosts(nodes)
  {
    forall c | c in nodes && nodes[c].parent.Some?
      ensures nodes[c].parent.value in nodes && nodes[nodes[c].parent.value].gCost < nodes[c].gCost
    {
      assert c != end;
      assert HasVisitedParent(dimensions, nodes, c);
    }
    forall c | c in nodes
      ensures if nodes[c].parent.None? then nodes[c].gCost == 0
              else nodes[c].parent.value in nodes && nodes[c].gCost == nodes[nodes[c].parent.value].gCost + 1
    {
      if c != end {
        assert HasVisitedParent(dimensions, nodes, c);
      }
    }
  }

  /**
   * One neighbour of `current`. An unseen square gets a new node under `current`
   * and joins the queue; a seen, unvisited node that `current` offers a shorter
   * path to is re-parented and moved to the back of the queue; anything else is
   * left as it is.
   */
  method VisitNeighbor(board: ChessBoard<KnightPathNode>, queue: seq<Coordinate>, current: KnightPathNode,
                       neighborCoordinate: Coordinate, start: Coordinate, ghost end: Coordinate, ghost origin: Nodes)
      returns (queue': seq<Coordinate>)
    requires SearchTree(board.dimensions, start, end, board.entries)
    requires QueueIsFrontier(board.entries, queue)
    requires current.coordinate in board.entries && board.entries[current.coordinate] == current && current.visited
    requires ExpandedExcept(board.dimensions, board.entries, Some(current.coordinate))
    requires Improves(origin, board.entries)
    requires neighborCoordinate in KnightMovesFrom(board.dimensions, current.coordinate)
    requires Settled(board.dimensions, end, origin)
    modifies board
    ensures SearchTree(board.dimensions, start, end, board.entries)
    ensures QueueIsFrontier(board.entries, queue')
    ensures current.coordinate in board.entries && board.entries[current.coordinate] == current
    ensures ExpandedExcept(board.dimensions, board.entries, Some(current.coordinate))
    ensures Improves(origin, board.entries) && Improves(old(board.entries), board.entries)
    ensures neighborCoordinate in board.entries && board.entries[neighborCoordinate].gCost <= current.gCost + 1
    ensures forall c :: c in board.entries <==> c in old(board.entries) || c == neighborCoordinate
    ensures neighborCoordinate !in old(board.entries) ==>
      && board.entries == old(board.entries)[neighborCoordinate := NewNode(Some(current), neighborCoordinate, start)]
      && queue' == queue + [neighborCoordinate]
    ensures neighborCoordinate in old(board.entries) &&
            (old(board.entries)[neighborCoordinate].visited || !ProvidesShorterPathTo(current, old(board.entries)[neighborCoordinate])) ==>
      board.entries == old(board.entries) && queue' == queue
    ensures neighborCoordinate in old(board.entries) &&
            !old(board.entries)[neighborCoordinate].visited && ProvidesShorterPathTo(current, old(board.entries)[neighborCoordinate]) ==>
      && board.entries == old(board.entries)[neighborCoordinate := WithParent(old(board.entries)[neighborCoordinate], Some(current))]
      && queue' == Remove(queue, neighborCoordinate) + [neighborCoordinate]
    ensures (board.entries, queue') == NeighborStep(old(board.entries), queue, current, neighborCoordinate, start)
  {
    SettledPersists(board.dimensions, end, origin, board.entries);
    MovesAreSoundAndComplete(board.dimensions, current.coordinate);
    assert IsKnightStep(current.coordinate, neighborCoordinate);
    var neighbor := board.Get(neighborCoordinate);
    ghost var before := board.entries;
    queue' := queue;
    if neighbor.None? {
      var created := NewNode(Some(current), neighborCoordinate, start);
      board.Set(neighborCoordinate, created);
      queue' := queue + [neighborCoordinate];
      AddNodeStep(board.dimensions, start, end, before, queue, current, neighborCoordinate);
    } else if neighbor.value.visited {
      VisitedNeighborIsClose(board.dimensions, start, end, before, current.coordinate, neighborCoordinate);
    } else if ProvidesShorterPathTo(current, neighbor.value) {
      board.Set(neighborCoordinate, WithParent(neighbor.value, Some(current)));
      queue' := Remove(queue, neighborCoordinate) + [neighborCoordinate];
      ReparentStep(board.dimensions, start, end, before, queue, current, neighborCoordinate);
    }
    ExpandedPersists(board.dimensions, before, board.entries, Some(current.coordinate));
    ImprovesIsTransitive(origin, before, board.entries);
  }

  /** A new node under the visited `current` keeps the tree and the frontier. */
  lemma AddNodeStep(dimensions: ChessBoardDimensions, start: Coordinate, end: Coordinate, before: Nodes,
                    queue: seq<Coordinate>, current: KnightPathNode, x: Coordinate)
    requires SearchTree(dimensions, start, end, before) && QueueIsFrontier(before, queue)
    requires current.coordinate in before && before[current.coordinate] == current && current.visited
    requires x in KnightMovesFrom(dimensions, current.coordinate) && x !in before
    ensures var after := before[x := NewNode(Some(current), x, start)];
      && SearchTree(dimensions, start, end, after)
      && QueueIsFrontier(after, queue + [x])
      && Improves(before, after)
  {
    var after := before[x := NewNode(Some(current), x, start)];
    MovesAreSoundAndComplete(dimensions, current.coordinate);
    assert HasVisitedParent(dimensions, after, x);
    ParentsKept(dimensions, start, end, before, after, x);
  }

  /** Re-parenting an unvisited node under the visited `current` keeps the tree and the frontier. */
  lemma ReparentStep(dimensions: ChessBoardDimensions, start: Coordinate, end: Coordinate, before: Nodes,
                     queue: seq<Coordinate>, current: KnightPathNode, x: Coordinate)
    requires SearchTree(dimensions, start, end, before) && QueueIsFrontier(before, queue)
    requires current.coordinate in before && before[current.coordinate] == current && current.visited
    requires x in KnightMovesFrom(dimensions, current.coordinate) && x in before
    requires !before[x].visited && ProvidesShorterPathTo(current, before[x])
    ensures var after := before[x := WithParent(before[x], Some(current))];
      && SearchTree(dimensions, start, end, after)
      && QueueIsFrontier(after, Remove(queue, x) + [x])
      && Improves(before, after)
  {
    var after := before[x := WithParent(before[x], Some(current))];
    MovesAreSoundAndComplete(dimensions, current.coordinate);
    assert x != end;
    assert HasVisitedParent(dimensions, after, x);
    ParentsKept(dimensions, start, end, before, after, x);
    RequeueKeepsFrontier(before, after, queue, x);
  }

  /** Moving an unvisited node to the back of the queue keeps the frontier. */
  lemma RequeueKeepsFrontier(before: Nodes, after: Nodes, queue: seq<Coordinate>, x: Coordinate)
    requires QueueIsFrontier(before, queue)
    requires x in before && !before[x].visited
    requires after.Keys == before.Keys && !after[x].visited
    requires forall c | c in before && c != x :: after[c] == before[c]
    ensures QueueIsFrontier(after, Remove(queue, x) + [x])
  {
    var q := Remove(queue, x) + [x];
    assert x !in Remove(queue, x);
    forall i | 0 <= i < |q| ensures q[i] in after && !after[q[i]].visited {
      if i < |q| - 1 {
        assert q[i] in Remove(queue, x);
      }
    }
  }

  /** An expansion step keeps every expanded node expanded. */
  lemma ExpandedPersists(dimensions: ChessBoardDimensions, before: Nodes, after: Nodes, pending: Option<Coordinate>)
    requires ExpandedExcept(dimensions, before, pending)
    requires Improves(before, after)
    ensures ExpandedExcept(dimensions, after, pending)
  {
    forall c, m | c in after && after[c].visited && pending != Some(c) && m in KnightMovesFrom(dimensions, c)
      ensures m in after && after[m].gCost <= after[c].gCost + 1
    {
      assert c in before && after[c] == before[c];
      assert m in before && before[m].gCost <= before[c].gCost + 1;
    }
  }

  /** An expansion step leaves visited nodes alone, so they stay settled. */
  lemma SettledPersists(dimensions: ChessBoardDimensions, end: Coordinate, before: Nodes, after: Nodes)
    requires Settled(dimensions, end, before) && Improves(before, after)
    ensures Settled(dimensions, end, after)
  {
    forall c | Closed(after, c) ensures NoShorterWalk(dimensions, end, c, after[c].gCost) {
      assert Closed(before, c) && after[c] == before[c];
      assert NoShorterWalk(dimensions, end, c, before[c].gCost);
    }
  }

  /**
   * A settled neighbour of `current` costs at most one move more than `current`:
   * stepping onto it and then following `current`'s parents is a walk to `end`.
   */
  lemma VisitedNeighborIsClose(dimensions: ChessBoardDimensions, start: Coordinate, end: Coordinate, nodes: Nodes,
                               current: Coordinate, n: Coordinate)
    requires SearchTree(dimensions, start, end, nodes) && Settled(dimensions, end, nodes)
    requires current in nodes && Closed(nodes, n) && n in KnightMovesFrom(dimensions, current)
    ensures nodes[n].gCost <= nodes[current].gCost + 1
  {
    TreePathIsWalk(dimensions, start, end, nodes, current);
    var p := PathFrom(nodes, current);
    assert IsWalkToEnd(dimensions, end, p);
    MovesAreSoundAndComplete(dimensions, current);
    StepIsSymmetric(current, n);
    StepThenWalk(dimensions, end, n, p);
    var w := [n] + p;
    assert NoShorterWalk(dimensions, end, n, nodes[n].gCost);
    assert w[0] == n;
  }

  /** One knight step from a valid square onto the head of a walk to `end` is a walk to `end`. */
  lemma StepThenWalk(dimensions: ChessBoardDimensions, end: Coordinate, n: Coordinate, p: seq<Coordinate>)
    requires IsWalkToEnd(dimensions, end, p)
    requires IsValidCoordinate(dimensions, n) && IsKnightStep(n, p[0])
    ensures IsWalkToEnd(dimensions, end, [n] + p)
  {
    var w := [n] + p;
    forall i | 0 <= i < |w| - 1 ensures IsValidCoordinate(dimensions, w[i]) && IsKnightStep(w[i], w[i + 1]) {
      if i > 0 {
        assert w[i] == p[i - 1] && w[i + 1] == p[i];
      }
    }
  }

  lemma ImprovesIsTransitive(a: Nodes, b: Nodes, c: Nodes)
    requires Improves(a, b) && Improves(b, c)
    ensures Improves(a, c)
  {
  }

  /**
   * The neighbour loop of one expansion: afterwards every valid knight move of
   * `current` has a node, and `current` counts as expanded.
   */
  method ExpandNeighbors(board: ChessBoard<KnightPathNode>, queue: seq<Coordinate>, current: KnightPathNode,
                         start: Coordinate, ghost end: Coordinate)
      returns (queue': seq<Coordinate>)
    requires SearchTree(board.dimensions, start, end, board.entries)
    requires QueueIsFrontier(board.entries, queue)
    requires current.coordinate in board.entries && board.entries[current.coordinate] == current && current.visited
    requires ExpandedExcept(board.dimensions, board.entries, Some(current.coordinate))
    requires Settled(board.dimensions, end, board.entries)
    modifies board
    ensures SearchTree(board.dimensions, start, end, board.entries)
    ensures QueueIsFrontier(board.entries, queue')
    ensures ExpandedExcept(board.dimensions, board.entries, None)
    ensures Improves(old(board.entries), board.entries)
    ensures forall c :: c in board.entries <==> c in old(board.entries) || c in KnightMovesFrom(board.dimensions, current.coordinate)
    ensures (board.entries, queue') == ExpandAll(old(board.entries), queue, current, KnightMovesFrom(board.dimensions, current.coordinate), start)
    ensures forall c {:trigger old(board.entries)[c]} | c in old(board.entries) && c !in KnightMovesFrom(board.dimensions, current.coordinate) ::
      board.entries[c] == old(board.entries)[c]
    ensures forall c {:trigger HangsUnder(board.entries[c], current)}
      | c in board.entries && (c !in old(board.entries) || board.entries[c] != old(board.entries)[c]) ::
      HangsUnder(board.entries[c], current)
  {
    var moves := KnightMovesFrom(board.dimensions, current.coordinate);
    queue' := queue;
    var k := 0;
    while k < |moves|
      invariant 0 <= k <= |moves|
      invariant SearchTree(board.dimensions, start, end, board.entries)
      invariant QueueIsFrontier(board.entries, queue')
      invariant current.coordinate in board.entries && board.entries[current.coordinate] == current
      invariant ExpandedExcept(board.dimensions, board.entries, Some(current.coordinate))
      invariant Improves(old(board.entries), board.entries)
      invariant forall c {:trigger c in board.entries} | c in board.entries && c !in old(board.entries) :: c in moves
      invariant Covered(board.entries, moves, k, current.gCost + 1)
      invariant (board.entries, queue') == ExpandAll(old(board.entries), queue, current, moves[..k], start)
    {
      ghost var before := board.entries;
      queue' := VisitNeighbor(board, queue', current, moves[k], start, end, old(board.entries));
      ExpandAllExtends(old(board.entries), queue, current, moves, k, start);
      CoveredPersists(before, board.entries, moves, k, current.gCost + 1);
      CoveredExtends(board.entries, moves, k, current.gCost + 1);
      k := k + 1;
    }
    FinishExpansion(board.dimensions, board.entries, current.coordinate);
    assert moves[..k] == moves;
    ExpandAllChanges(old(board.entries), queue, current, moves, start);
  }

  /** `n` has `current` as its parent and costs one move more. */
  ghost predicate HangsUnder(n: KnightPathNode, current: KnightPathNode)
  {
    n.parent == Some(current.coordinate) && n.gCost == current.gCost + 1
  }

  /** The board and queue after `current` has visited neighbour `n`, as `VisitNeighbor` leaves them. */
  ghost function NeighborStep(nodes: Nodes, queue: seq<Coordinate>, current: KnightPathNode, n: Coordinate,
                              start: Coordinate): (r: (Nodes, seq<Coordinate>))
  {
    if n !in nodes then (nodes[n := NewNode(Some(current), n, start)], queue + [n])
    else if nodes[n].visited || !ProvidesShorterPathTo(current, nodes[n]) then (nodes, queue)
    else (nodes[n := WithParent(nodes[n], Some(current))], Remove(queue, n) + [n])
  }

  /** The board and queue after `current` has visited each of `moves` in turn. */
  ghost function ExpandAll(nodes: Nodes, queue: seq<Coordinate>, current: KnightPathNode, moves: seq<Coordinate>,
                           start: Coordinate): (r: (Nodes, seq<Coordinate>))
    decreases |moves|
  {
    if moves == [] then (nodes, queue)
    else
      var s := ExpandAll(nodes, queue, current, moves[..|moves| - 1], start);
      NeighborStep(s.0, s.1, current, moves[|moves| - 1], start)
  }

  lemma ExpandAllExtends(nodes: Nodes, queue: seq<Coordinate>, current: KnightPathNode, moves: seq<Coordinate>,
                         k: nat, start: Coordinate)
    requires k < |moves|
    ensures var s := ExpandAll(nodes, queue, current, moves[..k], start);
      ExpandAll(nodes, queue, current, moves[..k + 1], start) == NeighborStep(s.0, s.1, current, moves[k], start)
  {
    assert moves[..k + 1][..k] == moves[..k];
  }

  /**
   * Visiting `moves` touches only those squares: every other node is unchanged,
   * and each new or changed node hangs under `current` one move dearer.
   */
  lemma {:induction false} ExpandAllChanges(nodes: Nodes, queue: seq<Coordinate>, current: KnightPathNode,
                                            moves: seq<Coordinate>, start: Coordinate)
    ensures var r := ExpandAll(nodes, queue, current, moves, start);
      && (forall c :: c in r.0 <==> c in nodes || c in moves)
      && (forall c | c in nodes && c !in moves :: r.0[c] == nodes[c])
      && (forall c | c in r.0 && (c !in nodes || r.0[c] != nodes[c]) :: HangsUnder(r.0[c], current))
    decreases |moves|
  {
    if moves != [] {
      var init, n := moves[..|moves| - 1], moves[|moves| - 1];
      assert moves == init + [n];
      ExpandAllChanges(nodes, queue, current, init, start);
    }
  }

  /** The first `k` of `moves` have nodes costing at most `bound`. */
  ghost predicate Covered(nodes: Nodes, moves: seq<Coordinate>, k: nat, bound: nat)
  {
    forall j | 0 <= j < k && j < |moves| :: moves[j] in nodes && nodes[moves[j]].gCost <= bound
  }

  lemma CoveredPersists(before: Nodes, after: Nodes, moves: seq<Coordinate>, k: nat, bound: nat)
    requires Covered(before, moves, k, bound) && Improves(before, after)
    ensures Covered(after, moves, k, bound)
  {
  }

  lemma CoveredExtends(nodes: Nodes, moves: seq<Coordinate>, k: nat, bound: nat)
    requires Covered(nodes, moves, k, bound) && k < |moves|
    requires moves[k] in nodes && nodes[moves[k]].gCost <= bound
    ensures Covered(nodes, moves, k + 1, bound)
  {
  }

  /** Once every move of `pending` has a node close enough, nothing is left unexpanded. */
  lemma FinishExpansion(dimensions: ChessBoardDimensions, nodes: Nodes, pending: Coordinate)
    requires ExpandedExcept(dimensions, nodes, Some(pending)) && pending in nodes
    requires Covered(nodes, KnightMovesFrom(dimensions, pending), |KnightMovesFrom(dimensions, pending)|, nodes[pending].gCost + 1)
    ensures ExpandedExcept(dimensions, nodes, None)
  {
  }

  /** Writing an unvisited node at `x` keeps every other node's parent link. */
  lemma ParentsKept(dimensions: ChessBoardDimensions, start: Coordinate, end: Coordinate, before: Nodes, after: Nodes, x: Coordinate)
    requires SearchTree(dimensions, start, end, before)
    requires after.Keys == before.Keys + {x} && x != end && end in before
    requires forall c | c in before && c != x :: after[c] == before[c]
    requires x !in before || !before[x].visited
    requires !after[x].visited && after[x].coordinate == x && after[x].hCost == KnightPathHeuristic(x, start)
    requires IsValidCoordinate(dimensions, x) && HasVisitedParent(dimensions, after, x)
    ensures SearchTree(dimensions, start, end, after)
  {
    forall c | c in after && c != end
      ensures IsValidCoordinate(dimensions, c) && HasVisitedParent(dimensions, after, c)
    {
      if c != x {
        assert HasVisitedParent(dimensions, before, c);
        var p := before[c].parent.value;
        assert before[p].visited;
        assert p != x;
      }
    }
  }

  /** Dropping position `i` shifts every later element down by one. */
  lemma DropAtShifts(q: seq<Coordinate>, i: nat)
    requires i < |q|
    ensures var r := q[..i] + q[i + 1..];
      && |r| == |q| - 1
      && (forall j :: 0 <= j < i ==> r[j] == q[j])
      && (forall j :: i <= j < |r| ==> r[j] == q[j + 1])
  {
  }

  /** Taking `queue[i]` off the queue and marking it visited keeps the frontier. */
  lemma PopKeepsFrontier(nodes: Nodes, after: Nodes, queue: seq<Coordinate>, i: nat)
    requires QueueIsFrontier(nodes, queue) && i < |queue|
    requires after == nodes[queue[i] := nodes[queue[i]].(visited := true)]
    ensures QueueIsFrontier(after, queue[..i] + queue[i + 1..])
  {
    var rest := queue[..i] + queue[i + 1..];
    DropAtShifts(queue, i);
    forall j | 0 <= j < |rest| ensures rest[j] in after && !after[rest[j]].visited {
      var j' := if j < i then j else j + 1;
      assert rest[j] == queue[j'] && j' != i;
    }
    forall j, k | 0 <= j < k < |rest| ensures rest[j] != rest[k] {
      var j' := if j < i then j else j + 1;
      var k' := if k < i then k else k + 1;
      assert rest[j] == queue[j'] && rest[k] == queue[k'];
    }
    forall x | x in after && !after[x].visited ensures x in rest {
      var j :| 0 <= j < |queue| && queue[j] == x;
      assert j != i;
      if j < i {
        assert rest[j] == x;
      } else {
        assert rest[j - 1] == x;
      }
    }
  }

  /** Marking a node visited keeps the tree: parents stay visited, costs stay as they were. */
  lemma VisitKeepsTree(dimensions: ChessBoardDimensions, start: Coordinate, end: Coordinate, nodes: Nodes, c: Coordinate)
    requires SearchTree(dimensions, start, end, nodes) && c in nodes
    ensures SearchTree(dimensions, start, end, nodes[c := nodes[c].(visited := true)])
  {
    var after := nodes[c := nodes[c].(visited := true)];
    forall x | x in after && x != end
      ensures IsValidCoordinate(dimensions, x) && HasVisitedParent(dimensions, after, x)
    {
      assert HasVisitedParent(dimensions, nodes, x);
    }
  }

  /**
   * Taking the least node `queue[i]` and marking it visited keeps the tree,
   * leaves exactly the other queued nodes on the frontier, and adds that one
   * coordinate to the visited set.
   */
  lemma PopStep(dimensions: ChessBoardDimensions, start: Coordinate, end: Coordinate, nodes: Nodes,
                queue: seq<Coordinate>, i: nat)
    requires SearchTree(dimensions, start, end, nodes) && QueueIsFrontier(nodes, queue)
    requires ExpandedExcept(dimensions, nodes, None)
    requires i < |queue|
    ensures var c := queue[i];
      var after := nodes[c := nodes[c].(visited := true)];
      && c in nodes && c !in VisitedKeys(nodes)
      && SearchTree(dimensions, start, end, after)
      && QueueIsFrontier(after, queue[..i] + queue[i + 1..])
      && ExpandedExcept(dimensions, after, Some(c))
      && VisitedKeys(after) == VisitedKeys(nodes) + {c}
  {
    var c := queue[i];
    VisitKeepsTree(dimensions, start, end, nodes, c);
    PopKeepsFrontier(nodes, nodes[c := nodes[c].(visited := true)], queue, i);
  }

  /**
   * On a walk that starts at an open node, the last open node: every node after
   * it has been taken from the queue.
   */
  lemma {:induction false} LastOpen(nodes: Nodes, w: seq<Coordinate>, j: nat) returns (r: nat)
    requires j < |w| && !Closed(nodes, w[0])
    requires forall t | j < t < |w| :: Closed(nodes, w[t])
    ensures r <= j && !Closed(nodes, w[r])
    ensures forall t | r < t < |w| :: Closed(nodes, w[t])
    decreases j
  {
    if Closed(nodes, w[j]) {
      r := LastOpen(nodes, w, j - 1);
    } else {
      r := j;
    }
  }

  /**
   * If every node after position `j` of a walk to `end` is settled, the square
   * at `j` has a node costing no more than the rest of the walk.
   */
  lemma CostOnWalk(dimensions: ChessBoardDimensions, end: Coordinate, nodes: Nodes, w: seq<Coordinate>, j: nat)
    requires end in nodes && nodes[end].gCost == 0
    requires ExpandedExcept(dimensions, nodes, None) && Settled(dimensions, end, nodes)
    requires IsWalkToEnd(dimensions, end, w) && j < |w|
    requires forall t | j < t < |w| :: Closed(nodes, w[t])
    ensures w[j] in nodes && nodes[w[j]].gCost <= |w| - 1 - j
  {
    if j < |w| - 1 {
      var v := w[j + 1..];
      assert IsWalkToEnd(dimensions, end, v) by {
        forall i | 0 <= i < |v| - 1 ensures IsValidCoordinate(dimensions, v[i]) && IsKnightStep(v[i], v[i + 1]) {
          assert v[i] == w[j + 1 + i] && v[i + 1] == w[j + 2 + i];
        }
      }
      var next := w[j + 1];
      assert Closed(nodes, next);
      assert NoShorterWalk(dimensions, end, next, nodes[next].gCost);
      assert v[0] == next;
      assert IsValidCoordinate(dimensions, w[j]) && IsKnightStep(w[j], next);
      ExpandedNeighborIsClose(dimensions, nodes, w[j], next);
    }
  }

  /** A valid square one knight move from an expanded node has a node at most one move dearer. */
  lemma ExpandedNeighborIsClose(dimensions: ChessBoardDimensions, nodes: Nodes, a: Coordinate, b: Coordinate)
    requires ExpandedExcept(dimensions, nodes, None) && Closed(nodes, b)
    requires IsValidCoordinate(dimensions, a) && IsKnightStep(a, b)
    ensures a in nodes && nodes[a].gCost <= nodes[b].gCost + 1
  {
    StepIsSymmetric(a, b);
    StepIsMove(dimensions, b, a);
  }

  /**
   * The A* property under a consistent estimate: a least node of the queue
   * already has its least cost. On any walk from it to `end`, the last open
   * node is queued, costs at most the rest of the walk, and its estimate is
   * within the moves from the popped node; so the popped node's total, which
   * is not above that node's, bounds its own cost by the walk's length.
   */
  lemma PopIsSettled(dimensions: ChessBoardDimensions, start: Coordinate, end: Coordinate, nodes: Nodes,
                     queue: seq<Coordinate>, i: nat)
    requires SearchTree(dimensions, start, end, nodes) && QueueIsFrontier(nodes, queue)
    requires ExpandedExcept(dimensions, nodes, None) && Settled(dimensions, end, nodes)
    requires i < |queue| && forall j :: 0 <= j < |queue| ==> Precedes(nodes[queue[i]], nodes[queue[j]])
    ensures NoShorterWalk(dimensions, end, queue[i], nodes[queue[i]].gCost)
  {
    var x := queue[i];
    forall w | IsWalkToEnd(dimensions, end, w) && w[0] == x
      ensures nodes[x].gCost <= |w| - 1
    {
      var j := LastOpen(nodes, w, |w| - 1);
      CostOnWalk(dimensions, end, nodes, w, j);
      var y := w[j];
      var r :| 0 <= r < |queue| && queue[r] == y;
      assert Precedes(nodes[x], nodes[y]);
      var u := w[..j + 1];
      assert IsKnightChain(u) by {
        forall t | 0 <= t < |u| - 1 ensures IsKnightStep(u[t], u[t + 1]) {
          assert u[t] == w[t] && u[t + 1] == w[t + 1];
        }
      }
      HeuristicAlongChain(u, start);
      assert FCost(nodes[y]) <= 6 * (|w| - 1) + nodes[x].hCost;
    }
  }

  /** Marking a node visited once it has its least cost keeps every visited node settled. */
  lemma VisitKeepsSettled(dimensions: ChessBoardDimensions, end: Coordinate, nodes: Nodes, c: Coordinate)
    requires Settled(dimensions, end, nodes) && c in nodes
    requires NoShorterWalk(dimensions, end, c, nodes[c].gCost)
    ensures Settled(dimensions, end, nodes[c := nodes[c].(visited := true)])
  {
    var after := nodes[c := nodes[c].(visited := true)];
    forall x | Closed(after, x) ensures NoShorterWalk(dimensions, end, x, after[x].gCost) {
      if x != c {
        assert Closed(nodes, x);
        assert NoShorterWalk(dimensions, end, x, nodes[x].gCost);
      }
    }
  }

  /** A settled node's path is a shortest one. */
  lemma SettledPathIsShortest(dimensions: ChessBoardDimensions, end: Coordinate, nodes: Nodes, c: Coordinate)
    requires Settled(dimensions, end, nodes) && Closed(nodes, c)
    ensures forall w | IsWalkToEnd(dimensions, end, w) && w[0] == c :: nodes[c].gCost + 1 <= |w|
  {
    assert NoShorterWalk(dimensions, end, c, nodes[c].gCost);
  }

  /** An expansion step changes no visited flag and visits nothing new. */
  lemma ImprovesKeepsVisited(before: Nodes, after: Nodes)
    requires Improves(before, after)
    ensures VisitedKeys(after) == VisitedKeys(before)
  {
  }

  /** On a finite board every node of the tree sits on a square of the board or at `end`. */
  lemma TreeInUniverse(dimensions: ChessBoardDimensions, start: Coordinate, end: Coordinate, nodes: Nodes)
    requires dimensions.Finite? && SearchTree(dimensions, start, end, nodes)
    ensures nodes.Keys <= FiniteUniverse(dimensions.rows, dimensions.cols, end)
  {
    forall x | x in nodes ensures x in FiniteUniverse(dimensions.rows, dimensions.cols, end) {
      if x != end {
        assert HasVisitedParent(dimensions, nodes, x);
      }
    }
  }

  /**
   * The path stored at `c` runs from `c` to `end` by knight steps, on the board
   * except possibly at `end` itself, and has one element more than `c`'s cost.
   */
  lemma TreePathIsWalk(dimensions: ChessBoardDimensions, start: Coordinate, end: Coordinate, nodes: Nodes, c: Coordinate)
    requires SearchTree(dimensions, start, end, nodes) && c in nodes
    ensures ChainsEnd(nodes)
    ensures var p := PathFrom(nodes, c);
      && |p| == nodes[c].gCost + 1
      && p[0] == c && p[|p| - 1] == end
      && (forall i :: 0 <= i < |p| - 1 ==> IsValidCoordinate(dimensions, p[i]) && IsKnightStep(p[i], p[i + 1]))
  {
    SearchTreeChainsEnd(dimensions, start, end, nodes);
    PathFromShape(nodes, c);
    PathLengthIsCostPlusOne(nodes, c);
    var p := PathFrom(nodes, c);
    forall i | 0 <= i < |p| - 1
      ensures IsValidCoordinate(dimensions, p[i]) && IsKnightStep(p[i], p[i + 1])
    {
      assert p[i] in nodes && nodes[p[i]].parent == Some(p[i + 1]);
      assert p[i] != end;
      assert HasVisitedParent(dimensions, nodes, p[i]);
      StepIsSymmetric(p[i + 1], p[i]);
    }
    forall x | x in nodes && x != end ensures nodes[x].parent.Some? {
      assert HasVisitedParent(dimensions, nodes, x);
    }
  }

  /** A fully expanded node's valid knight neighbours are nodes. */
  lemma ClosedUnderSteps(dimensions: ChessBoardDimensions, nodes: Nodes, b: Coordinate, a: Coordinate)
    requires forall c | c in nodes :: nodes[c].visited
    requires ExpandedExcept(dimensions, nodes, None)
    requires b in nodes && IsKnightStep(a, b) && IsValidCoordinate(dimensions, a)
    ensures a in nodes
  {
    StepIsSymmetric(a, b);
    StepIsMove(dimensions, b, a);
  }

  /**
   * When every node is visited and expanded, the nodes are closed under knight
   * moves on the board, so a walk that ends among the nodes lies among them.
   */
  lemma {:induction false} ClosedNodesHoldWalk(dimensions: ChessBoardDimensions, nodes: Nodes, w: seq<Coordinate>, i: nat)
    requires forall c | c in nodes :: nodes[c].visited
    requires ExpandedExcept(dimensions, nodes, None)
    requires IsKnightWalk(dimensions, w) && w[|w| - 1] in nodes
    requires i < |w|
    ensures w[i] in nodes
    decreases |w| - i
  {
    if i < |w| - 1 {
      ClosedNodesHoldWalk(dimensions, nodes, w, i + 1);
      assert IsKnightStep(w[i], w[i + 1]) && IsValidCoordinate(dimensions, w[i]);
      ClosedUnderSteps(dimensions, nodes, w[i + 1], w[i]);
    }
  }

  /**
   * A search that emptied its queue without meeting `start` has explored every
   * square a walk from `start` could use, so no walk reaches `end`.
   */
  lemma NoWalkWhenExhausted(dimensions: ChessBoardDimensions, start: Coordinate, end: Coordinate, nodes: Nodes)
    requires SearchTree(dimensions, start, end, nodes) && QueueIsFrontier(nodes, [])
    requires ExpandedExcept(dimensions, nodes, None) && start !in nodes
    ensures forall w :: IsKnightWalk(dimensions, w) && w[0] == start ==> w[|w| - 1] != end
  {
    assert forall c | c in nodes :: nodes[c].visited;
    forall w | IsKnightWalk(dimensions, w) && w[0] == start
      ensures w[|w| - 1] != end
    {
      if w[|w| - 1] in nodes {
        ClosedNodesHoldWalk(dimensions, nodes, w, 0);
      }
    }
  }

  /**
   * `board[start]?.getPath()`: the path from the node at `start`, if there is
   * one, back along its parents to `end`.
   */
  method PathToStart(board: ChessBoard<KnightPathNode>, start: Coordinate, end: Coordinate)
      returns (result: Option<seq<Coordinate>>)
    requires SearchTree(board.dimensions, start, end, board.entries)
    ensures result.Some? <==> start in board.entries
    ensures result.Some? ==> |result.value| == board.entries[start].gCost + 1
    ensures result.Some? ==> result.value[0] == start && IsWalkToEnd(board.dimensions, end, result.value)
    ensures result.Some? && IsValidCoordinate(board.dimensions, end) ==> IsKnightWalk(board.dimensions, result.value)
    ensures start == end ==> result == Some([end])
  {
    var node := board.Get(start);
    if node.None? {
      result := None;
    } else {
      TreePathIsWalk(board.dimensions, start, end, board.entries, start);
      var path := GetPath(board, node.value);
      assert start == end ==> path == [end];
      result := Some(path);
    }
  }

  /**
   * `findShortestKnightPath`. The search runs from `end` towards `start` until
   * `start` is taken from the queue or the queue is empty; on an infinite board
   * it also stops after `fuel` nodes have been taken, and then `finished` is
   * false. A returned path runs from `start` to `end` by knight moves over
   * valid squares (`end` itself is never checked) and has one element more
   * than the cost of the node at `start`; a finished search that returns
   * nothing has shown that no walk on the board links `start` to `end`.
   * `explored` is the board's final contents.
   */
  method FindShortestKnightPath(dimensions: ChessBoardDimensions, start: Coordinate, end: Coordinate, fuel: nat)
      returns (result: Option<seq<Coordinate>>, finished: bool, ghost explored: Nodes)
    ensures SearchTree(dimensions, start, end, explored)
    ensures result.Some? <==> start in explored
    ensures result.Some? ==> |result.value| == explored[start].gCost + 1
    ensures result.Some? ==> result.value[0] == start && IsWalkToEnd(dimensions, end, result.value)
    ensures result.Some? && IsValidCoordinate(dimensions, end) ==> IsKnightWalk(dimensions, result.value)
    ensures start == end ==> result == Some([end])
    ensures dimensions.Finite? ==> finished
    ensures finished && result.None? ==>
      forall w :: IsKnightWalk(dimensions, w) && w[0] == start ==> w[|w| - 1] != end
    ensures finished && result.Some? ==>
      forall w :: IsWalkToEnd(dimensions, end, w) && w[0] == start ==> |result.value| <= |w|
  {
    var board := new ChessBoard<KnightPathNode>(dimensions);
    var seed := NewNode(None, end, start);
    var queue := [end];
    board.Set(end, seed);
    var pops := 0;
    var reachedStart := false;
    while queue != [] && (dimensions.Finite? || pops < fuel)
      invariant board.dimensions == dimensions
      invariant SearchTree(dimensions, start, end, board.entries)
      invariant QueueIsFrontier(board.entries, queue)
      invariant ExpandedExcept(dimensions, board.entries, None)
      invariant Settled(dimensions, end, board.entries)
      invariant dimensions.Infinite? ==> pops <= fuel
      invariant !reachedStart
      decreases (if dimensions.Finite? then FiniteUniverse(dimensions.rows, dimensions.cols, end) - VisitedKeys(board.entries) else {}),
                (if dimensions.Finite? then 0 else fuel - pops)
    {
      ghost var before := board.entries;
      var i := MinIndex(board.entries, queue);
      var c := queue[i];
      PopStep(dimensions, start, end, before, queue, i);
      PopIsSettled(dimensions, start, end, before, queue, i);
      VisitKeepsSettled(dimensions, end, before, c);
      var current := board.entries[c].(visited := true);
      queue := queue[..i] + queue[i + 1..];
      board.Set(c, current);
      pops := pops + 1;
      if c == start {
        reachedStart := true;
        break;
      }
      queue := ExpandNeighbors(board, queue, current, start, end);
      ImprovesKeepsVisited(before[c := current], board.entries);
      SettledPersists(dimensions, end, before[c := current], board.entries);
      if dimensions.Finite? {
        TreeInUniverse(dimensions, start, end, before);
      }
    }
    finished := reachedStart || queue == [];
    explored := board.entries;
    result := PathToStart(board, start, end);
    if result.None? && finished {
      NoWalkWhenExhausted(dimensions, start, end, board.entries);
    }
    if result.Some? && finished {
      assert Closed(board.entries, start);
      SettledPathIsShortest(dimensions, end, board.entries, start);
    }
  }
}
