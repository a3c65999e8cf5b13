/**
 * The outcomes fixed by the unit tests of `findShortestKnightPath`. Each
 * search is a call of the model. A walk written out in `KnightWalks` shows
 * that a path exists and, as the search returns a shortest one, bounds its
 * size from above; the lower bounds on knight chains bound it from below.
 */
module KnightPathOutcomes {
  import opened Wrappers
  import opened Coordinates
  import opened BoardDimensions
  import opened ChessBoards
  import opened KnightHeuristic
  import opened KnightPathFinder
  import opened KnightWalks

  /** From the corner of a 2x2 board every knight move leaves the board, and none reaches (1,1). */
  lemma CornerOfTwoByTwoIsStuck(b: Coordinate)
    ensures IsKnightStep(Coordinate(0, 0), b) ==> !IsValidCoordinate(Finite(2, 2), b) && b != Coordinate(1, 1)
  {
    if IsKnightStep(Coordinate(0, 0), b) {
      DeltaShape(Offset(Coordinate(0, 0), b));
    }
  }

  /** 2x2 board, (0,0) to (1,1): no path. */
  method TwoByTwoBoardHasNoPath() returns (r: Option<seq<Coordinate>>)
    ensures r == None
  {
    var finished;
    ghost var explored;
    r, finished, explored := FindShortestKnightPath(Finite(2, 2), Coordinate(0, 0), Coordinate(1, 1), 0);
    CornerOfTwoByTwoIsStuck(if r.Some? && |r.value| >= 2 then r.value[1] else Coordinate(0, 0));
  }

  /**
   * Infinite board, (0,0) to (1,1): any path has at least 3 squares, and a
   * finished search returns one of exactly 3.
   */
  method InfiniteBoardPath(fuel: nat) returns (r: Option<seq<Coordinate>>, finished: bool)
    ensures finished ==> r.Some? && |r.value| == 3
    ensures r.Some? ==> |r.value| >= 3
  {
    ghost var explored;
    r, finished, explored := FindShortestKnightPath(Infinite, Coordinate(0, 0), Coordinate(1, 1), fuel);
    var w := [Coordinate(0, 0), Coordinate(2, -1), Coordinate(1, 1)];
    assert IsKnightStep(w[0], w[1]) && IsKnightStep(w[1], w[2]);
    assert IsKnightWalk(Infinite, w);
    assert IsWalkToEnd(Infinite, Coordinate(1, 1), w);
    ChainLowerBounds(if r.Some? then r.value else [Coordinate(0, 0)]);
  }

  /** The chain lower bounds applied to a search result (or to a trivial chain when there is none). */
  lemma ResultLowerBounds(r: Option<seq<Coordinate>>)
    requires r.Some? ==> |r.value| >= 1 && forall i :: 0 <= i < |r.value| - 1 ==> IsKnightStep(r.value[i], r.value[i + 1])
    ensures r.Some? ==> var p, n := r.value, |r.value| - 1;
      var X, Y := p[n].x - p[0].x, p[n].y - p[0].y;
      Abs(X) <= 2 * n && Abs(Y) <= 2 * n && Abs(X) + Abs(Y) <= 3 * n && (X + Y - n) % 2 == 0
  {
    if r.Some? {
      ChainLowerBounds(r.value);
    }
  }

  /**
   * A knight chain of at most eleven moves that climbs nineteen squares along
   * one axis has exactly eleven: ten moves climb at most twenty, and an odd
   * climb with no sideways shift takes an odd number of moves.
   */
  lemma RiseOfNineteenTakesElevenMoves(p: seq<Coordinate>)
    requires IsKnightChain(p) && |p| <= 12
    requires p[0] == Coordinate(0, 0) && p[|p| - 1] == Coordinate(0, 19)
    ensures |p| == 12
  {
    ChainLowerBounds(p);
  }

  /** 20x20 board, (0,0) to (0,19): a path of exactly 12 squares. */
  method TwentyBoardToZeroNineteen() returns (r: Option<seq<Coordinate>>)
    ensures r.Some? && |r.value| == 12
  {
    var finished;
    ghost var explored;
    r, finished, explored := FindShortestKnightPath(Finite(20, 20), Coordinate(0, 0), Coordinate(0, 19), 0);
    ZeroNineteenIsWalk();
    assert IsWalkToEnd(Finite(20, 20), Coordinate(0, 19), WalkToZeroNineteen);
    RiseOfNineteenTakesElevenMoves(r.value);
  }

  /** 20x20 board, (0,0) to (9,18): a path of exactly 10 squares. */
  method TwentyBoardToNineEighteen() returns (r: Option<seq<Coordinate>>)
    ensures r.Some? && |r.value| == 10
  {
    var finished;
    ghost var explored;
    r, finished, explored := FindShortestKnightPath(Finite(20, 20), Coordinate(0, 0), Coordinate(9, 18), 0);
    NineEighteenIsWalk();
    assert IsWalkToEnd(Finite(20, 20), Coordinate(9, 18), WalkToNineEighteen);
    ResultLowerBounds(r);
  }

  /** 20x20 board, (0,0) to (18,18): a path of exactly 13 squares. */
  method TwentyBoardToEighteenEighteen() returns (r: Option<seq<Coordinate>>)
    ensures r.Some? && |r.value| == 13
  {
    var finished;
    ghost var explored;
    r, finished, explored := FindShortestKnightPath(Finite(20, 20), Coordinate(0, 0), Coordinate(18, 18), 0);
    EighteenEighteenIsWalk();
    assert IsWalkToEnd(Finite(20, 20), Coordinate(18, 18), WalkToEighteenEighteen);
    ResultLowerBounds(r);
  }
}
