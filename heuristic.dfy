/**
 * The distance estimate used by the search. Every value the estimate takes is a
 * multiple of one sixth of a move (a table entry, half an integer, or a third of
 * one), so it is modelled exactly as a natural number of sixths of a move.
 */
module KnightHeuristic {
  import opened Coordinates
  import opened ChessBoards

  /** Exact knight distances for small offsets, indexed `[yDiff][xDiff]`. */
  const KnightDistance: seq<seq<nat>> := [
    [0, 3, 2, 3, 2, 3],
    [3, 2, 1, 2, 3, 4],
    [2, 1, 4, 3, 2, 3],
    [3, 2, 3, 2, 3, 4],
    [2, 3, 2, 3, 4, 3],
    [3, 4, 3, 4, 3, 4]
  ]

  function Abs(n: int): nat
  {
    if n < 0 then -n else n
  }

  function Max(a: int, b: int): int
  {
    if a < b then b else a
  }

  function Min(a: int, b: int): int
  {
    if a < b then a else b
  }

  /** The offset lies inside the table. */
  predicate InTable(xDiff: nat, yDiff: nat)
  {
    yDiff < |KnightDistance| && xDiff < |KnightDistance[yDiff]|
  }

  /**
   * The long-range estimate for sorted differences, in sixths: `maxDiff / 2`
   * when the long axis dominates, `(minDiff + maxDiff) / 3` otherwise.
   */
  function ClosedForm(minDiff: nat, maxDiff: nat): (sixths: nat)
  {
    if minDiff * 2 <= maxDiff then 3 * maxDiff else 2 * (minDiff + maxDiff)
  }

  /** The branch chosen by the comparison is always the larger of the two bounds. */
  lemma ClosedFormIsMaxOfBounds(minDiff: nat, maxDiff: nat)
    requires minDiff <= maxDiff
    ensures ClosedForm(minDiff, maxDiff) == Max(3 * maxDiff, 2 * (minDiff + maxDiff))
  {
  }

  /** The estimate from the absolute differences of the two coordinates. */
  function EstimateFromDiffs(xDiff: nat, yDiff: nat): (sixths: nat)
    ensures InTable(xDiff, yDiff) ==> sixths == 6 * KnightDistance[yDiff][xDiff]
    ensures !InTable(xDiff, yDiff) ==> sixths == ClosedForm(Min(xDiff, yDiff), Max(xDiff, yDiff))
  {
    if yDiff < |KnightDistance| && xDiff < |KnightDistance[yDiff]| then 6 * KnightDistance[yDiff][xDiff]
    else if xDiff <= yDiff then ClosedForm(xDiff, yDiff)
    else ClosedForm(yDiff, xDiff)
  }

  /**
   * `knightPathHeuristic(start, end)`, in sixths of a move: the table entry when
   * both differences are at most 5, the closed form otherwise.
   */
  function KnightPathHeuristic(start: Coordinate, end: Coordinate): (sixths: nat)
    ensures Abs(end.x - start.x) <= 5 && Abs(end.y - start.y) <= 5 ==>
      sixths == 6 * KnightDistance[Abs(end.y - start.y)][Abs(end.x - start.x)]
    ensures Abs(end.x - start.x) > 5 || Abs(end.y - start.y) > 5 ==>
      var lo := Min(Abs(end.x - start.x), Abs(end.y - start.y));
      var hi := Max(Abs(end.x - start.x), Abs(end.y - start.y));
      sixths == (if 2 * lo <= hi then 3 * hi else 2 * (lo + hi))
  {
    EstimateFromDiffs(Abs(end.x - start.x), Abs(end.y - start.y))
  }

  /** The estimate does not depend on the direction of travel. */
  lemma HeuristicIsSymmetric(a: Coordinate, b: Coordinate)
    ensures KnightPathHeuristic(a, b) == KnightPathHeuristic(b, a)
  {
  }

  /** A square is zero moves from itself. */
  lemma HeuristicOfSelfIsZero(c: Coordinate)
    ensures KnightPathHeuristic(c, c) == 0
  {
  }

  /** The table is symmetric about its diagonal. */
  lemma TableIsSymmetric(i: nat, j: nat)
    requires i < 6 && j < 6
    ensures KnightDistance[i][j] == KnightDistance[j][i]
  {
  }

  /** Swapping the x and y differences does not change the estimate. */
  lemma EstimateIgnoresAxisSwap(xDiff: nat, yDiff: nat)
    ensures EstimateFromDiffs(xDiff, yDiff) == EstimateFromDiffs(yDiff, xDiff)
  {
    if InTable(xDiff, yDiff) {
      TableIsSymmetric(yDiff, xDiff);
    }
  }

  /** The worked example of the documentation: nine squares along both axes is six moves. */
  lemma NineByNineIsSixMoves()
    ensures KnightPathHeuristic(Coordinate(0, 0), Coordinate(9, 9)) == 6 * 6
  {
  }

  // ---------------------------------------------------------------------------
  // Consistency: one knight move changes the estimate by at most one move.
  // ---------------------------------------------------------------------------

  /** Consistency at the offset (a, b) for the offsets `KnightDeltas[..k]`. */
  predicate ConsistentThrough(a: nat, b: nat, k: nat)
    requires k <= |KnightDeltas|
  {
    k == 0 ||
    (EstimateFromDiffs(a, b) <= 6 + EstimateFromDiffs(Abs(a - KnightDeltas[k - 1].0), Abs(b - KnightDeltas[k - 1].1))
     && ConsistentThrough(a, b, k - 1))
  }

  /** Consistency at every offset (a, b') with b' < b. */
  predicate RowConsistent(a: nat, b: nat)
  {
    b == 0 || (ConsistentThrough(a, b - 1, 8) && RowConsistent(a, b - 1))
  }

  lemma {:induction false} ConsistentThroughAt(a: nat, b: nat, n: nat, k: nat)
    requires n <= |KnightDeltas| && k < n && ConsistentThrough(a, b, n)
    ensures EstimateFromDiffs(a, b) <= 6 + EstimateFromDiffs(Abs(a - KnightDeltas[k].0), Abs(b - KnightDeltas[k].1))
  {
    if k < n - 1 {
      ConsistentThroughAt(a, b, n - 1, k);
    }
  }

  lemma {:induction false} RowConsistentAt(a: nat, b: nat, n: nat)
    requires b < n && RowConsistent(a, n)
    ensures ConsistentThrough(a, b, 8)
  {
    if b < n - 1 {
      RowConsistentAt(a, b, n - 1);
    }
  }

  // The 64 offsets with both differences at most 7, half a row at a time.
  lemma Row0Low()
    ensures RowConsistent(0, 4)
  {
    assert ConsistentThrough(0, 0, 8);
    assert ConsistentThrough(0, 1, 8);
    assert ConsistentThrough(0, 2, 8);
    assert ConsistentThrough(0, 3, 8);
  }

  lemma Row0High()
    ensures ConsistentThrough(0, 4, 8) && ConsistentThrough(0, 5, 8) && ConsistentThrough(0, 6, 8) && ConsistentThrough(0, 7, 8)
  {
    assert ConsistentThrough(0, 4, 8);
    assert ConsistentThrough(0, 5, 8);
    assert ConsistentThrough(0, 6, 8);
    assert ConsistentThrough(0, 7, 8);
  }

  lemma Row0()
    ensures RowConsistent(0, 8)
  {
    Row0Low();
    Row0High();
  }

  lemma Row1Low()
    ensures RowConsistent(1, 4)
  {
    assert ConsistentThrough(1, 0, 8);
    assert ConsistentThrough(1, 1, 8);
    assert ConsistentThrough(1, 2, 8);
    assert ConsistentThrough(1, 3, 8);
  }

  lemma Row1High()
    ensures ConsistentThrough(1, 4, 8) && ConsistentThrough(1, 5, 8) && ConsistentThrough(1, 6, 8) && ConsistentThrough(1, 7, 8)
  {
    assert ConsistentThrough(1, 4, 8);
    assert ConsistentThrough(1, 5, 8);
    assert ConsistentThrough(1, 6, 8);
    assert ConsistentThrough(1, 7, 8);
  }

  lemma Row1()
    ensures RowConsistent(1, 8)
  {
    Row1Low();
    Row1High();
  }

  lemma Row2Low()
    ensures RowConsistent(2, 4)
  {
    assert ConsistentThrough(2, 0, 8);
    assert ConsistentThrough(2, 1, 8);
    assert ConsistentThrough(2, 2, 8);
    assert ConsistentThrough(2, 3, 8);
  }

  lemma Row2High()
    ensures ConsistentThrough(2, 4, 8) && ConsistentThrough(2, 5, 8) && ConsistentThrough(2, 6, 8) && ConsistentThrough(2, 7, 8)
  {
    assert ConsistentThrough(2, 4, 8);
    assert ConsistentThrough(2, 5, 8);
    assert ConsistentThrough(2, 6, 8);
    assert ConsistentThrough(2, 7, 8);
  }

  lemma Row2()
    ensures RowConsistent(2, 8)
  {
    Row2Low();
    Row2High();
  }

  lemma Row3Low()
    ensures RowConsistent(3, 4)
  {
    assert ConsistentThrough(3, 0, 8);
    assert ConsistentThrough(3, 1, 8);
    assert ConsistentThrough(3, 2, 8);
    assert ConsistentThrough(3, 3, 8);
  }

  lemma Row3High()
    ensures ConsistentThrough(3, 4, 8) && ConsistentThrough(3, 5, 8) && ConsistentThrough(3, 6, 8) && ConsistentThrough(3, 7, 8)
  {
    assert ConsistentThrough(3, 4, 8);
    assert ConsistentThrough(3, 5, 8);
    assert ConsistentThrough(3, 6, 8);
    assert ConsistentThrough(3, 7, 8);
  }

  lemma Row3()
    ensures RowConsistent(3, 8)
  {
    Row3Low();
    Row3High();
  }

  lemma Row4Low()
    ensures RowConsistent(4, 4)
  {
    assert ConsistentThrough(4, 0, 8);
    assert ConsistentThrough(4, 1, 8);
    assert ConsistentThrough(4, 2, 8);
    assert ConsistentThrough(4, 3, 8);
  }

  lemma Row4High()
    ensures ConsistentThrough(4, 4, 8) && ConsistentThrough(4, 5, 8) && ConsistentThrough(4, 6, 8) && ConsistentThrough(4, 7, 8)
  {
    assert ConsistentThrough(4, 4, 8);
    assert ConsistentThrough(4, 5, 8);
    assert ConsistentThrough(4, 6, 8);
    assert ConsistentThrough(4, 7, 8);
  }

  lemma Row4()
    ensures RowConsistent(4, 8)
  {
    Row4Low();
    Row4High();
  }

  lemma Row5Low()
    ensures RowConsistent(5, 4)
  {
    assert ConsistentThrough(5, 0, 8);
    assert ConsistentThrough(5, 1, 8);
    assert ConsistentThrough(5, 2, 8);
    assert ConsistentThrough(5, 3, 8);
  }

  lemma Row5High()
    ensures ConsistentThrough(5, 4, 8) && ConsistentThrough(5, 5, 8) && ConsistentThrough(5, 6, 8) && ConsistentThrough(5, 7, 8)
  {
    assert ConsistentThrough(5, 4, 8);
    assert ConsistentThrough(5, 5, 8);
    assert ConsistentThrough(5, 6, 8);
    assert ConsistentThrough(5, 7, 8);
  }

  lemma Row5()
    ensures RowConsistent(5, 8)
  {
    Row5Low();
    Row5High();
  }

  lemma Row6Low()
    ensures RowConsistent(6, 4)
  {
    assert ConsistentThrough(6, 0, 8);
    assert ConsistentThrough(6, 1, 8);
    assert ConsistentThrough(6, 2, 8);
    assert ConsistentThrough(6, 3, 8);
  }

  lemma Row6High()
    ensures ConsistentThrough(6, 4, 8) && ConsistentThrough(6, 5, 8) && ConsistentThrough(6, 6, 8) && ConsistentThrough(6, 7, 8)
  {
    assert ConsistentThrough(6, 4, 8);
    assert ConsistentThrough(6, 5, 8);
    assert ConsistentThrough(6, 6, 8);
    assert ConsistentThrough(6, 7, 8);
  }

  lemma Row6()
    ensures RowConsistent(6, 8)
  {
    Row6Low();
    Row6High();
  }

  lemma Row7Low()
    ensures RowConsistent(7, 4)
  {
    assert ConsistentThrough(7, 0, 8);
    assert ConsistentThrough(7, 1, 8);
    assert ConsistentThrough(7, 2, 8);
    assert ConsistentThrough(7, 3, 8);
  }

  lemma Row7High()
    ensures ConsistentThrough(7, 4, 8) && ConsistentThrough(7, 5, 8) && ConsistentThrough(7, 6, 8) && ConsistentThrough(7, 7, 8)
  {
    assert ConsistentThrough(7, 4, 8);
    assert ConsistentThrough(7, 5, 8);
    assert ConsistentThrough(7, 6, 8);
    assert ConsistentThrough(7, 7, 8);
  }

  lemma Row7()
    ensures RowConsistent(7, 8)
  {
    Row7Low();
    Row7High();
  }

  lemma RowsConsistent(a: nat)
    requires a <= 7
    ensures RowConsistent(a, 8)
  {
    if a == 0 { Row0(); } else if a == 1 { Row1(); } else if a == 2 { Row2(); } else if a == 3 { Row3(); }
    else if a == 4 { Row4(); } else if a == 5 { Row5(); } else if a == 6 { Row6(); } else { Row7(); }
  }

  lemma NearConsistent(a: nat, b: nat, k: nat)
    requires a <= 7 && b <= 7 && k < |KnightDeltas|
    ensures EstimateFromDiffs(a, b) <= 6 + EstimateFromDiffs(Abs(a - KnightDeltas[k].0), Abs(b - KnightDeltas[k].1))
  {
    RowsConsistent(a);
    RowConsistentAt(a, b, 8);
    ConsistentThroughAt(a, b, |KnightDeltas|, k);
  }

  /** Near the table, by the signs of the differences, reduced to the checked offsets. */
  lemma NearConsistentSigned(X: int, Y: int, d: Delta)
    requires Abs(X) <= 7 && Abs(Y) <= 7 && d in KnightDeltas
    ensures EstimateFromDiffs(Abs(X), Abs(Y)) <= 6 + EstimateFromDiffs(Abs(X - d.0), Abs(Y - d.1))
  {
    var sx := if X >= 0 then 1 else -1;
    var sy := if Y >= 0 then 1 else -1;
    var r := (sx * d.0, sy * d.1);
    ReflectedDelta(d, sx, sy);
    var k :| 0 <= k < |KnightDeltas| && KnightDeltas[k] == r;
    NearConsistent(Abs(X), Abs(Y), k);
    assert Abs(Abs(X) - r.0) == Abs(X - d.0) && Abs(Abs(Y) - r.1) == Abs(Y - d.1);
  }

  /** Away from the table the estimate moves by at most six sixths under any knight move. */
  lemma FarConsistent(a: nat, b: nat, a': nat, b': nat, p: nat, q: nat)
    requires !InTable(a, b) && !InTable(a', b')
    requires p + q == 3 && p <= 2 && q <= 2
    requires a <= a' + p && b <= b' + q
    ensures EstimateFromDiffs(a, b) <= 6 + EstimateFromDiffs(a', b')
  {
    ClosedFormIsMaxOfBounds(Min(a, b), Max(a, b));
    ClosedFormIsMaxOfBounds(Min(a', b'), Max(a', b'));
  }

  /** Far from the table, by the signs of the differences. */
  lemma FarConsistentSigned(X: int, Y: int, d: Delta)
    requires (Abs(X) > 7 || Abs(Y) > 7) && d in KnightDeltas
    ensures EstimateFromDiffs(Abs(X), Abs(Y)) <= 6 + EstimateFromDiffs(Abs(X - d.0), Abs(Y - d.1))
  {
    DeltaShape(d);
    FarConsistent(Abs(X), Abs(Y), Abs(X - d.0), Abs(Y - d.1), Abs(d.0), Abs(d.1));
  }

  /** Reflecting a knight offset in either axis gives a knight offset. */
  lemma ReflectedDelta(d: Delta, sx: int, sy: int)
    requires d in KnightDeltas
    requires (sx == 1 || sx == -1) && (sy == 1 || sy == -1)
    ensures (sx * d.0, sy * d.1) in KnightDeltas
  {
  }

  /**
   * The estimate is consistent: moving the start square by one knight move
   * lowers the estimate by at most one move.
   */
  lemma HeuristicIsConsistent(s: Coordinate, e: Coordinate, d: Delta)
    requires d in KnightDeltas
    ensures KnightPathHeuristic(s, e) <= 6 + KnightPathHeuristic(Plus(s, d), e)
  {
    var X, Y := e.x - s.x, e.y - s.y;
    assert Plus(s, d) == Coordinate(s.x + d.0, s.y + d.1);
    assert e.x - Plus(s, d).x == X - d.0 && e.y - Plus(s, d).y == Y - d.1;
    if Abs(X) <= 7 && Abs(Y) <= 7 {
      NearConsistentSigned(X, Y, d);
    } else {
      FarConsistentSigned(X, Y, d);
    }
  }

  // ---------------------------------------------------------------------------
  // Lower bounds on knight chains, and admissibility.
  // ---------------------------------------------------------------------------

  /** A sequence of squares, each one knight move from the one before (no board). */
  predicate IsKnightChain(w: seq<Coordinate>)
  {
    |w| >= 1 && forall i :: 0 <= i < |w| - 1 ==> IsKnightStep(w[i], w[i + 1])
  }

  /**
   * A chain of `n` knight moves covers at most `2n` along either axis and `3n`
   * in total, and the total displacement has the parity of `n`.
   */
  lemma {:induction false} ChainLowerBounds(w: seq<Coordinate>)
    requires IsKnightChain(w)
    ensures var n, X, Y := |w| - 1, w[|w| - 1].x - w[0].x, w[|w| - 1].y - w[0].y;
      Abs(X) <= 2 * n && Abs(Y) <= 2 * n && Abs(X) + Abs(Y) <= 3 * n && (X + Y - n) % 2 == 0
  {
    if |w| > 1 {
      var v := w[..|w| - 1];
      assert IsKnightChain(v) by {
        forall i | 0 <= i < |v| - 1 ensures IsKnightStep(v[i], v[i + 1]) {
          assert v[i] == w[i] && v[i + 1] == w[i + 1];
        }
      }
      ChainLowerBounds(v);
      assert IsKnightStep(w[|w| - 2], w[|w| - 1]);
      DeltaShape(Offset(w[|w| - 2], w[|w| - 1]));
    }
  }

  /**
   * Along a knight chain the estimate towards any square changes by at most one
   * move per step, in either direction.
   */
  lemma {:induction false} HeuristicAlongChain(w: seq<Coordinate>, e: Coordinate)
    requires IsKnightChain(w)
    ensures KnightPathHeuristic(w[0], e) <= 6 * (|w| - 1) + KnightPathHeuristic(w[|w| - 1], e)
    ensures KnightPathHeuristic(w[|w| - 1], e) <= 6 * (|w| - 1) + KnightPathHeuristic(w[0], e)
    decreases |w|
  {
    if |w| > 1 {
      var v := w[1..];
      assert IsKnightChain(v) by {
        forall i | 0 <= i < |v| - 1 ensures IsKnightStep(v[i], v[i + 1]) {
          assert v[i] == w[i + 1] && v[i + 1] == w[i + 2];
        }
      }
      HeuristicAlongChain(v, e);
      assert IsKnightStep(w[0], w[1]);
      var d := Offset(w[0], w[1]);
      assert Plus(w[0], d) == w[1];
      HeuristicIsConsistent(w[0], e, d);
      StepIsSymmetric(w[0], w[1]);
      var d' := Offset(w[1], w[0]);
      assert Plus(w[1], d') == w[0];
      HeuristicIsConsistent(w[1], e, d');
    }
  }

  /**
   * The estimate is admissible: it never exceeds the number of moves of any
   * knight chain between the two squares. This follows from consistency and
   * from the estimate of a square to itself being zero.
   */
  lemma {:induction false} HeuristicIsAdmissible(w: seq<Coordinate>)
    requires IsKnightChain(w)
    ensures KnightPathHeuristic(w[0], w[|w| - 1]) <= 6 * (|w| - 1)
    decreases |w|
  {
    if |w| == 1 {
      HeuristicOfSelfIsZero(w[0]);
    } else {
      var v := w[1..];
      assert IsKnightChain(v) by {
        forall i | 0 <= i < |v| - 1 ensures IsKnightStep(v[i], v[i + 1]) {
          assert v[i] == w[i + 1] && v[i + 1] == w[i + 2];
        }
      }
      HeuristicIsAdmissible(v);
      assert IsKnightStep(w[0], w[1]);
      var d := Offset(w[0], w[1]);
      assert Plus(w[0], d) == w[1];
      HeuristicIsConsistent(w[0], w[|w| - 1], d);
    }
  }
}
