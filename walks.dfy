/**
 * Concrete knight walks on the 20x20 board, one for each destination the unit
 * tests use. Each walk is one or two straight runs of a single knight offset.
 */
module KnightWalks {
  import opened Coordinates
  import opened BoardDimensions
  import opened ChessBoards

  /** `n` squares starting at `a`, each one offset `d` beyond the one before. */
  function Run(a: Coordinate, d: Delta, n: nat): (w: seq<Coordinate>)
    ensures |w| == n
  {
    seq(n, k => Coordinate(a.x + k * d.0, a.y + k * d.1))
  }

  /** Between the scaled values at 0 and at `m` lie the scaled values at every `k` in between. */
  lemma ScaledBetween(k: int, m: int, c: int)
    requires 0 <= k <= m
    ensures c >= 0 ==> 0 <= k * c <= m * c
    ensures c < 0 ==> m * c <= k * c <= 0
  {
    if c >= 0 {
      assert (m - k) * c >= 0;
    } else {
      assert (m - k) * (-c) >= 0;
    }
  }

  /**
   * A run of one knight offset is a walk on a finite board as soon as its two
   * ends are on the board: the squares in between lie between the ends.
   */
  lemma RunIsWalk(rows: int, cols: int, a: Coordinate, d: Delta, n: nat)
    requires d in KnightDeltas && n >= 1
    requires IsValidCoordinate(Finite(rows, cols), a)
    requires IsValidCoordinate(Finite(rows, cols), Run(a, d, n)[n - 1])
    ensures IsKnightWalk(Finite(rows, cols), Run(a, d, n))
  {
    var w := Run(a, d, n);
    forall k | 0 <= k < n ensures IsValidCoordinate(Finite(rows, cols), w[k]) {
      ScaledBetween(k, n - 1, d.0);
      ScaledBetween(k, n - 1, d.1);
    }
    forall k | 0 <= k < n - 1 ensures IsKnightStep(w[k], w[k + 1]) {
      assert Offset(w[k], w[k + 1]) == d;
    }
  }

  /** Eleven moves from (0,0) to (0,19): seven of (1,2), one of (-1,2), three of (-2,1). */
  const WalkToZeroNineteen: seq<Coordinate> := Run(Coordinate(0, 0), (1, 2), 8) + Run(Coordinate(6, 16), (-2, 1), 4)

  /** Nine moves of (1,2) from (0,0) to (9,18). */
  const WalkToNineEighteen: seq<Coordinate> := Run(Coordinate(0, 0), (1, 2), 10)

  /** Twelve moves from (0,0) to (18,18): six of (1,2), then six of (2,1). */
  const WalkToEighteenEighteen: seq<Coordinate> := Run(Coordinate(0, 0), (1, 2), 7) + Run(Coordinate(8, 13), (2, 1), 6)

  lemma ZeroNineteenIsWalk()
    ensures var w := WalkToZeroNineteen;
      IsKnightWalk(Finite(20, 20), w) && w[0] == Coordinate(0, 0) && w[|w| - 1] == Coordinate(0, 19) && |w| == 12
  {
    var a, b := Run(Coordinate(0, 0), (1, 2), 8), Run(Coordinate(6, 16), (-2, 1), 4);
    RunIsWalk(20, 20, Coordinate(0, 0), (1, 2), 8);
    RunIsWalk(20, 20, Coordinate(6, 16), (-2, 1), 4);
    assert IsKnightStep(a[7], b[0]);
    WalksJoin(Finite(20, 20), a, b);
    assert (a + b)[11] == b[3];
  }

  lemma NineEighteenIsWalk()
    ensures var w := WalkToNineEighteen;
      IsKnightWalk(Finite(20, 20), w) && w[0] == Coordinate(0, 0) && w[|w| - 1] == Coordinate(9, 18) && |w| == 10
  {
    RunIsWalk(20, 20, Coordinate(0, 0), (1, 2), 10);
  }

  lemma EighteenEighteenIsWalk()
    ensures var w := WalkToEighteenEighteen;
      IsKnightWalk(Finite(20, 20), w) && w[0] == Coordinate(0, 0) && w[|w| - 1] == Coordinate(18, 18) && |w| == 13
  {
    var a, b := Run(Coordinate(0, 0), (1, 2), 7), Run(Coordinate(8, 13), (2, 1), 6);
    RunIsWalk(20, 20, Coordinate(0, 0), (1, 2), 7);
    RunIsWalk(20, 20, Coordinate(8, 13), (2, 1), 6);
    assert IsKnightStep(a[6], b[0]);
    WalksJoin(Finite(20, 20), a, b);
    assert (a + b)[12] == b[5];
  }
}
