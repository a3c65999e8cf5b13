# Knight-path A* engine, modelled in Dafny

This project models the search engine of a small Kotlin program. The program
finds a shortest sequence of knight moves between two squares, on a finite
`rows x cols` board or on an unbounded one. The model covers its five pieces:

- board shapes and coordinate validity (`dimensions.dfy`);
- the board with its knight-move generator (`chessboard.dfy`);
- the distance estimate (`heuristic.dfy`);
- the search node with its costs, ordering and parent chain (`node.dfy`);
- the A* driver (`finder.dfy`).

The unit tests' expected outcomes are stated and proved in `tests.dfy`. The
concrete walks those proofs need are in `walks.dfy`.

Modelling choices:

- **Estimate in sixths.** Every value the estimate takes is a table entry, a
  half or a third, so the model counts it as a natural number of sixths of a
  move. The real total cost `g + h` becomes `6*g + h` sixths. The ordering is
  unchanged by this.
- **Board as a class.** The board is a class whose `entries` map is updated in
  place.
- **Nodes stored by coordinate.** The driver makes exactly one node object per
  coordinate and afterwards only mutates it. So a node is a datatype value
  stored in the board under its coordinate, and its `parent` is the parent's
  coordinate. Setting `visited` or `parent` writes a changed record back under
  the same key.
- **Queue as a sequence.** The priority queue is a sequence of coordinates.
  `queue.remove()` takes a least element under `compareTo`, found by `MinIndex`.
  `queue.remove(n)` drops `n`, and `queue.add(n)` appends it.
- **Walking the parent chain.** `GetPath` follows the parent chain with a loop,
  as the source does. The proof shows the loop produces `PathFrom`, the ghost
  definition of the chain.

The driver is proved against invariants that hold at the head of its loop:

- the queue holds exactly the unvisited nodes, each once;
- every node other than the seed at `end` has a visited parent one knight move
  away, and costs one move more than that parent;
- every visited node has a node on each of its on-board knight moves, and
  each of those costs at most one move more than it;
- every visited node is settled: no knight walk from it to `end` takes fewer
  moves than its cost.

The last invariant is the A* argument, and it rests on the estimate being
consistent. Take the node the queue yields and any walk from it to `end`. The
last square of that walk without a visited node has a node whose cost is at
most the rest of the walk. Along the walk's first part the estimate drops by
at most one move per step. The yielded node ranks no later than that square,
so its own cost is at most the length of the walk.

From these the model proves what the driver promises:

- A returned path runs from `start` to `end` by knight moves.
- Its length is the cost of the node at `start` plus one.
- `start == end` gives `[end]`.
- A finished search that returns nothing has shown that no knight walk on the
  board joins the two squares.
- A finished search that returns a path returns a shortest one: no knight walk
  from `start` to `end` is shorter.
- On finite boards the search always finishes.

The board rejects nothing itself, and the driver does not check `start` or
`end`. Only `end` may lie off the board in a returned path, and the contract
says exactly that.

On a cheaper path to a queued node, the driver re-parents the existing node
in place, then removes it from the queue and adds it again
(`src/main/kotlin/KnightPathFinder.kt:59-62`); the model does the same.

## Model

| member | source | states |
|---|---|---|
| BoardDimensions.FiniteValidity | src/main/kotlin/ChessBoardDimensions.kt:9-12 | on a finite board a coordinate is valid iff `0 <= x < cols` and `0 <= y < rows` (x against columns, y against rows) |
| BoardDimensions.InfiniteAcceptsAll | src/main/kotlin/ChessBoardDimensions.kt:15-17 | every coordinate, negative ones included, is valid on the infinite board |
| BoardDimensions.FiniteValidIsNonNegative | src/main/kotlin/ChessBoardDimensions.kt:11 | valid finite coordinates are non-negative; a board with no rows or no columns has no valid coordinate |
| BoardDimensions.ValidityIsMonotone | src/main/kotlin/ChessBoardDimensions.kt:9-17 | a coordinate valid on a board stays valid on any board at least as large, and on the infinite board |
| BoardDimensions.ThreeByFourExample | src/main/kotlin/ChessBoard.kt:5-13 | on 3 rows by 4 columns, (3, 2) is valid and (2, 3) is not |
| ChessBoards.DeltaShape | src/main/kotlin/ChessBoard.kt:38-47 | every knight offset moves one axis by 1 and the other by 2 |
| ChessBoards.DeltasClosedUnderNegation | src/main/kotlin/ChessBoard.kt:38-47 | the negation of every knight offset is a knight offset |
| ChessBoards.DeltasDistinct | src/main/kotlin/ChessBoard.kt:38-47 | the eight offsets are pairwise different |
| ChessBoards.StepIsSymmetric | src/main/kotlin/ChessBoard.kt:38-47 | if `b` is one knight move from `a`, then `a` is one knight move from `b` |
| ChessBoards.CandidatesAreKnightSteps | src/main/kotlin/ChessBoard.kt:29-30 | the candidate neighbours (the square plus each offset, in offset order) are exactly the squares one knight step away |
| ChessBoards.KnightMovesFrom | src/main/kotlin/ChessBoard.kt:28-35 | at most 8 moves, yielded in offset order as a subsequence of the candidates; on the infinite board exactly the candidates |
| ChessBoards.MovesAreSoundAndComplete | src/main/kotlin/ChessBoard.kt:28-35 | every yielded square is valid and one offset away; every valid square one offset away is yielded |
| ChessBoards.StepIsMove | src/main/kotlin/ChessBoard.kt:28-35 | a knight step onto a valid square is among the yielded moves |
| ChessBoards.MovesAreDistinct | src/main/kotlin/ChessBoard.kt:28-35 | the yielded squares contain no duplicates |
| ChessBoards.InfiniteHasEightMoves | src/main/kotlin/ChessBoard.kt:28-35 | on the infinite board exactly eight squares are yielded |
| ChessBoards.MovesAreSymmetric | src/main/kotlin/ChessBoard.kt:28-47 | if `b` is yielded from the valid square `a`, then `a` is yielded from `b` |
| ChessBoards.TwoByTwoHasNoMoves | src/main/kotlin/ChessBoard.kt:28-35 | no square of a 2 x 2 board has any knight move |
| ChessBoards.ChessBoard.constructor | src/main/kotlin/ChessBoard.kt:22 | a new board keeps its dimensions and holds no entries |
| ChessBoards.ChessBoard.Get | src/main/kotlin/ChessBoard.kt:15-18 | `board[c]` is present iff an entry was stored at `c`, and then it is that entry |
| ChessBoards.ChessBoard.Set | src/main/kotlin/ChessBoard.kt:15-18 | after `board[c] = v`, `board[c]` is `v` and every other key reads as before |
| KnightHeuristic.EstimateFromDiffs | src/main/kotlin/KnightPathHeuristic.kt:25-54 | inside the table the estimate is the table entry; outside it is the closed form of the sorted differences |
| KnightHeuristic.KnightPathHeuristic | src/main/kotlin/KnightPathHeuristic.kt:19-54 | with both differences at most 5 it is `KNIGHT_DISTANCE[yDiff][xDiff]`; otherwise `max/2` when `2*min <= max`, else `(min+max)/3` |
| KnightHeuristic.ClosedFormIsMaxOfBounds | src/main/kotlin/KnightPathHeuristic.kt:32-54 | the branch the comparison picks is the larger of `max/2` and `(min+max)/3` |
| KnightHeuristic.HeuristicIsSymmetric | src/main/kotlin/KnightPathHeuristic.kt:20-21 | swapping start and end does not change the estimate |
| KnightHeuristic.HeuristicOfSelfIsZero | src/main/kotlin/KnightPathHeuristic.kt:3-27 | a square is estimated zero moves from itself |
| KnightHeuristic.TableIsSymmetric | src/main/kotlin/KnightPathHeuristic.kt:3-10 | `KNIGHT_DISTANCE[i][j] == KNIGHT_DISTANCE[j][i]` |
| KnightHeuristic.EstimateIgnoresAxisSwap | src/main/kotlin/KnightPathHeuristic.kt:20-35 | swapping the x and y differences does not change the estimate |
| KnightHeuristic.NineByNineIsSixMoves | src/main/kotlin/KnightPathHeuristic.kt:39-54 | with `xDiff = yDiff = 9` the estimate is 6 moves |
| KnightHeuristic.HeuristicIsConsistent | src/main/kotlin/KnightPathHeuristic.kt:12-19 | consistency: one knight move of the start square lowers the estimate by at most one move |
| KnightHeuristic.ChainLowerBounds | src/main/kotlin/KnightPathHeuristic.kt:50-53 | `n` knight moves cover at most `2n` on either axis and `3n` in total, and the displacement has the parity of `n` |
| KnightHeuristic.HeuristicAlongChain | src/main/kotlin/KnightPathHeuristic.kt:12-19 | at the two ends of a knight chain of `n` moves the estimates differ by at most `n` moves, in either direction |
| KnightHeuristic.HeuristicIsAdmissible | src/main/kotlin/KnightPathHeuristic.kt:12-19 | admissibility: the estimate never exceeds the number of moves of any knight chain between the two squares |
| KnightPathNodes.NewNode | src/main/kotlin/KnightPathNode.kt:8-28 | a new node is unvisited, its cost is 0 without a parent and the parent's plus one with one, and its estimate is the heuristic to the destination |
| KnightPathNodes.WithParent | src/main/kotlin/KnightPathNode.kt:13-17 | the setter recomputes the cost by the same rule and leaves coordinate, estimate and visited flag unchanged |
| KnightPathNodes.SetterAgreesWithConstructor | src/main/kotlin/KnightPathNode.kt:13-28 | re-parenting a fresh node gives the node built with that parent |
| KnightPathNodes.CompareTo | src/main/kotlin/KnightPathNode.kt:33-40 | negative iff lower total cost, or equal total and higher realized cost; zero iff both keys are equal |
| KnightPathNodes.CompareToIsTotalPreorder | src/main/kotlin/KnightPathNode.kt:40 | the comparison is sign-antisymmetric, and "not after" is reflexive, total and transitive |
| KnightPathNodes.ProvidesShorterPathTo | src/main/kotlin/KnightPathNode.kt:42-46 | holds iff adopting the node as parent makes the neighbour strictly cheaper |
| KnightPathNodes.PathFromShape | src/main/kotlin/KnightPathNode.kt:48-59 | the path starts at the node, each next element is the parent of the one before, and it ends at a parentless node |
| KnightPathNodes.PathLengthIsCostPlusOne | src/main/kotlin/KnightPathNode.kt:51-59 | when every cost is its parent's plus one, the path has one element more than the node's cost |
| KnightPathNodes.GetPath | src/main/kotlin/KnightPathNode.kt:51-59 | the loop returns exactly the coordinates of the parent chain |
| KnightPathFinder.Remove | src/main/kotlin/KnightPathFinder.kt:61 | removing a node keeps every other queued node and no duplicates |
| KnightPathFinder.MinIndex | src/main/kotlin/KnightPathFinder.kt:35 | the selected node is ordered no later than any other queued node |
| KnightPathFinder.SearchTreeChainsEnd | src/main/kotlin/KnightPathFinder.kt:43-63 | in the search tree parent chains end and costs are exact |
| KnightPathFinder.PopStep | src/main/kotlin/KnightPathFinder.kt:35-36 | taking and visiting the least node keeps the tree, leaves the other queued nodes as the frontier and visits one new square |
| KnightPathFinder.AddNodeStep | src/main/kotlin/KnightPathFinder.kt:45-52 | a new node under the current node keeps the tree and the frontier and changes no existing node |
| KnightPathFinder.ReparentStep | src/main/kotlin/KnightPathFinder.kt:59-63 | re-parenting a cheaper unvisited neighbour and moving it to the back of the queue keeps the tree and the frontier and lowers its cost |
| KnightPathFinder.VisitNeighbor | src/main/kotlin/KnightPathFinder.kt:44-63 | the three cases give the new board and queue exactly: an absent neighbour gets a new node under `current` appended to the queue; a visited one, or one `current` does not shorten, leaves both unchanged; otherwise it is re-parented under `current` and moved to the back of the queue. The invariants are kept and no cost rises |
| KnightPathFinder.ExpandNeighbors | src/main/kotlin/KnightPathFinder.kt:43-64 | the new board and queue are those of visiting each knight move of `current` in order (`ExpandAll`). Nodes off those moves are unchanged, every new or changed node hangs under `current` one move dearer, every move has a node, and the invariants hold again |
| KnightPathFinder.ExpandAllChanges | src/main/kotlin/KnightPathFinder.kt:43-64 | visiting a list of moves adds nodes only on those moves, leaves every other node as it was, and gives each new or changed node parent `current` and cost `current.gCost + 1` |
| KnightPathFinder.TreePathIsWalk | src/main/kotlin/KnightPathFinder.kt:67 | the path stored at a node runs to `end` by knight moves over valid squares and has one element more than the node's cost |
| KnightPathFinder.VisitedNeighborIsClose | src/main/kotlin/KnightPathFinder.kt:55-57 | a visited neighbour that the loop skips already costs at most one move more than the current node |
| KnightPathFinder.ExpandedNeighborIsClose | src/main/kotlin/KnightPathFinder.kt:43-64 | a valid square one knight move from an expanded node has a node costing at most one move more |
| KnightPathFinder.SettledPersists | src/main/kotlin/KnightPathFinder.kt:43-64 | a neighbour step leaves visited nodes alone, so every settled node stays settled |
| KnightPathFinder.CostOnWalk | src/main/kotlin/KnightPathFinder.kt:34-64 | on a walk to `end` whose later squares are all visited, a square has a node costing at most the moves left on the walk |
| KnightPathFinder.LastOpen | src/main/kotlin/KnightPathFinder.kt:34-36 | a walk that starts at an unvisited square has a last unvisited square, after which every square is visited |
| KnightPathFinder.PopIsSettled | src/main/kotlin/KnightPathFinder.kt:35-36 | the least node under `compareTo` already has its least cost: no knight walk from it to `end` is shorter |
| KnightPathFinder.VisitKeepsSettled | src/main/kotlin/KnightPathFinder.kt:36 | marking a node with its least cost visited keeps every visited node settled |
| KnightPathFinder.SettledPathIsShortest | src/main/kotlin/KnightPathFinder.kt:38-40 | a visited node's cost plus one bounds the length of every knight walk from it to `end` from below |
| KnightPathFinder.NoWalkWhenExhausted | src/main/kotlin/KnightPathFinder.kt:34-67 | an emptied queue without `start` on the board means no knight walk on the board leads from `start` to `end` |
| KnightPathFinder.PathToStart | src/main/kotlin/KnightPathFinder.kt:67 | looking up `start` and following its parents yields a path iff `start` has a node, from `start` to `end` by knight steps, one longer than the node's cost, and `[end]` when `start == end` |
| KnightPathFinder.FindShortestKnightPath | src/main/kotlin/KnightPathFinder.kt:14-68 | a result runs from `start` to `end` by knight moves and has the length of the start node's cost plus one; it is absent iff the board has no node at `start`; `start == end` gives `[end]`; finite boards always finish; a finished search with no result means no walk exists, and a finished search with a result returns a path no longer than any knight walk from `start` to `end` |
| KnightPathOutcomes.TwoByTwoBoardHasNoPath | src/test/kotlin/ShortestKnightPathTest.kt:4-12 | on a 2 x 2 board there is no path from (0,0) to (1,1) |
| KnightPathOutcomes.InfiniteBoardPath | src/test/kotlin/ShortestKnightPathTest.kt:14-22 | on the infinite board a finished search from (0,0) to (1,1) returns a path of exactly 3 squares, and any returned path has at least 3 |
| KnightPathOutcomes.TwentyBoardToZeroNineteen | src/test/kotlin/ShortestKnightPathTest.kt:24-32 | on 20 x 20, (0,0) to (0,19) returns a path of exactly 12 squares |
| KnightPathOutcomes.RiseOfNineteenTakesElevenMoves | src/test/kotlin/ShortestKnightPathTest.kt:24-32 | a knight chain of at most 11 moves from (0,0) to (0,19) has exactly 11: 19 squares with no sideways shift take an odd number of moves, and fewer than 10 climb less than 19 |
| KnightPathOutcomes.TwentyBoardToNineEighteen | src/test/kotlin/ShortestKnightPathTest.kt:34-42 | on 20 x 20, (0,0) to (9,18) returns a path of exactly 10 squares |
| KnightPathOutcomes.TwentyBoardToEighteenEighteen | src/test/kotlin/ShortestKnightPathTest.kt:44-52 | on 20 x 20, (0,0) to (18,18) returns a path of exactly 13 squares |

## Left out

- `src/main/kotlin/Main.kt` is not part of this model. It only parses arguments and prints results.
- The heap inside `java.util.PriorityQueue` is not modelled. The queue is a sequence, and taking from it yields some least node under `compareTo`. Among equally ranked nodes the heap may take a different one.
- The mutation of a node's key just before `queue.remove(neighbor)` is not modelled: removal drops the node whatever its key.
- Floating-point arithmetic is not modelled: the estimate is exact in sixths, and the rounding of `n / 3.0` is ignored.
- 32-bit `Int` overflow of coordinate sums and differences is not modelled: integers are unbounded.
- The laziness of the move iterator is not modelled: the moves are a finite sequence.
- `Coordinate.toString` is cosmetic and is left out.
- Null payloads are not modelled: the model's board never stores a null entry, and the driver never writes one. Map operations other than get and set are not modelled either.
- Node identity is not modelled: a node is identified by its coordinate, which the driver keeps one-to-one.
- FindShortestKnightPath: states that the path is a shortest one only for a finished search. When the fuel runs out on the infinite board the nodes on the board may not yet have their least costs.
- FindShortestKnightPath: on the infinite board it takes a `fuel` bound and stops after that many nodes, with `finished` false. Termination there is not proved; on finite boards it is.
- KnightPathOutcomes.InfiniteBoardPath: states exactly 3 squares only for a finished search, since the fuel bound may stop the search early; a path is guaranteed only when the fuel suffices.
