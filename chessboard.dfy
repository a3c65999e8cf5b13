/**
 * The board: a map from coordinates to optional payloads, gated by the board's
 * dimensions, and the generator of knight moves from a square.
 */
module ChessBoards {
  import opened Wrappers
  import opened Coordinates
  import opened BoardDimensions

  /** A knight's offset, as the pair (dx, dy). */
  type Delta = (int, int)

  /** The eight knight offsets, in the fixed order in which moves are produced. */
  const KnightDeltas: seq<Delta> := [(1, 2), (2, 1), (-1, 2), (-2, 1), (1, -2), (2, -1), (-1, -2), (-2, -1)]

  function Plus(c: Coordinate, d: Delta): Coordinate
  {
    Coordinate(c.x + d.0, c.y + d.1)
  }

  /** The offset that leads from `a` to `b`. */
  function Offset(a: Coordinate, b: Coordinate): Delta
  {
    (b.x - a.x, b.y - a.y)
  }

  /** `b` is one knight move away from `a`. */
  predicate IsKnightStep(a: Coordinate, b: Coordinate)
  {
    Offset(a, b) in KnightDeltas
  }

  /** Every knight offset moves one axis by 1 and the other by 2. */
  lemma DeltaShape(d: Delta)
    requires d in KnightDeltas
    ensures ((d.0 == 1 || d.0 == -1) && (d.1 == 2 || d.1 == -2)) || ((d.0 == 2 || d.0 == -2) && (d.1 == 1 || d.1 == -1))
  {
  }

  /** The offsets are closed under negation. */
  lemma DeltasClosedUnderNegation(d: Delta)
    requires d in KnightDeltas
    ensures (-d.0, -d.1) in KnightDeltas
  {
  }

  /** The offsets are pairwise distinct. */
  lemma DeltasDistinct()
    ensures forall i, j :: 0 <= i < j < |KnightDeltas| ==> KnightDeltas[i] != KnightDeltas[j]
  {
  }

  lemma StepIsSymmetric(a: Coordinate, b: Coordinate)
    requires IsKnightStep(a, b)
    ensures IsKnightStep(b, a)
  {
    DeltasClosedUnderNegation(Offset(a, b));
  }

  /** The eight squares one knight move from `c`, valid or not, in offset order. */
  function Candidates(c: Coordinate): (r: seq<Coordinate>)
  {
    seq(|KnightDeltas|, i requires 0 <= i < |KnightDeltas| => Plus(c, KnightDeltas[i]))
  }

  /** The candidates are exactly the squares one knight step from `c`. */
  lemma CandidatesAreKnightSteps(c: Coordinate, n: Coordinate)
    ensures n in Candidates(c) <==> IsKnightStep(c, n)
  {
    var cs := Candidates(c);
    if IsKnightStep(c, n) {
      var i :| 0 <= i < |KnightDeltas| && KnightDeltas[i] == Offset(c, n);
      assert cs[i] == n;
    }
  }

  /** `s` is obtained from `t` by deleting elements (order is kept). */
  predicate IsSubsequence(s: seq<Coordinate>, t: seq<Coordinate>)
    decreases |t|
  {
    if s == [] then true
    else if t == [] then false
    else if s[0] == t[0] then IsSubsequence(s[1..], t[1..])
    else IsSubsequence(s, t[1..])
  }

  /** The body of the move generator: walk the offsets in order, yield the valid targets. */
  function MovesThrough(dimensions: ChessBoardDimensions, c: Coordinate, deltas: seq<Delta>): seq<Coordinate>
  {
    if deltas == [] then []
    else
      var neighbor := Plus(c, deltas[0]);
      (if IsValidCoordinate(dimensions, neighbor) then [neighbor] else []) + MovesThrough(dimensions, c, deltas[1..])
  }

  function MapPlus(c: Coordinate, deltas: seq<Delta>): (r: seq<Coordinate>)
    ensures |r| == |deltas|
    ensures forall i :: 0 <= i < |deltas| ==> r[i] == Plus(c, deltas[i])
  {
    if deltas == [] then [] else [Plus(c, deltas[0])] + MapPlus(c, deltas[1..])
  }

  lemma {:induction false} MovesThroughFacts(dimensions: ChessBoardDimensions, c: Coordinate, deltas: seq<Delta>)
    ensures var r := MovesThrough(dimensions, c, deltas);
      && |r| <= |deltas|
      && (forall n :: n in r <==> exists d :: d in deltas && n == Plus(c, d) && IsValidCoordinate(dimensions, n))
      && IsSubsequence(r, MapPlus(c, deltas))
      && (dimensions == Infinite ==> r == MapPlus(c, deltas))
  {
    if deltas != [] {
      MovesThroughFacts(dimensions, c, deltas[1..]);
      var r := MovesThrough(dimensions, c, deltas);
      var rest := MovesThrough(dimensions, c, deltas[1..]);
      var m := MapPlus(c, deltas);
      assert m[1..] == MapPlus(c, deltas[1..]);
      assert m[0] == Plus(c, deltas[0]);
      forall n ensures n in r <==> exists d :: d in deltas && n == Plus(c, d) && IsValidCoordinate(dimensions, n) {
        if n in r && n !in rest {
          assert n == Plus(c, deltas[0]);
        }
        if exists d :: d in deltas && n == Plus(c, d) && IsValidCoordinate(dimensions, n) {
          var d :| d in deltas && n == Plus(c, d) && IsValidCoordinate(dimensions, n);
          if d != deltas[0] {
            assert d in deltas[1..];
          }
        }
      }
      if IsValidCoordinate(dimensions, Plus(c, deltas[0])) {
        assert r == [m[0]] + rest;
        assert r[1..] == rest;
      } else {
        assert r == rest;
        SubsequenceOfTail(rest, m);
      }
    }
  }

  lemma {:induction false} SubsequenceOfTail(s: seq<Coordinate>, t: seq<Coordinate>)
    requires t != [] && IsSubsequence(s, t[1..])
    ensures IsSubsequence(s, t)
    decreases |t|, 0
  {
    if s != [] && s[0] == t[0] {
      SubsequenceDropsHead(s, t[1..]);
    }
  }

  lemma {:induction false} SubsequenceDropsHead(s: seq<Coordinate>, u: seq<Coordinate>)
    requires s != [] && IsSubsequence(s, u)
    ensures IsSubsequence(s[1..], u)
    decreases |u|, 1
  {
    if s[0] == u[0] {
      SubsequenceOfTail(s[1..], u);
    } else {
      SubsequenceDropsHead(s, u[1..]);
      SubsequenceOfTail(s[1..], u);
    }
  }

  /**
   * The knight moves from `c` that stay on the board, in offset order (the
   * lemma below says which squares they are).
   */
  function KnightMovesFrom(dimensions: ChessBoardDimensions, c: Coordinate): (r: seq<Coordinate>)
    ensures |r| <= 8
    ensures IsSubsequence(r, Candidates(c))
    ensures dimensions == Infinite ==> r == Candidates(c)
  {
    MovesThroughFacts(dimensions, c, KnightDeltas);
    assert MapPlus(c, KnightDeltas) == Candidates(c);
    MovesThrough(dimensions, c, KnightDeltas)
  }

  /**
   * Every yielded square is on the board and one knight move away; every valid
   * square one knight move away is yielded.
   */
  lemma MovesAreSoundAndComplete(dimensions: ChessBoardDimensions, c: Coordinate)
    ensures forall n :: n in KnightMovesFrom(dimensions, c) ==> IsValidCoordinate(dimensions, n) && IsKnightStep(c, n)
    ensures forall d :: d in KnightDeltas && IsValidCoordinate(dimensions, Plus(c, d)) ==> Plus(c, d) in KnightMovesFrom(dimensions, c)
  {
    var r := KnightMovesFrom(dimensions, c);
    MovesThroughFacts(dimensions, c, KnightDeltas);
    forall n | n in r ensures IsValidCoordinate(dimensions, n) && IsKnightStep(c, n) {
      var d :| d in KnightDeltas && n == Plus(c, d) && IsValidCoordinate(dimensions, n);
      assert Offset(c, n) == d;
    }
  }

  lemma {:induction false} SubsequenceOfDistinctIsDistinct(s: seq<Coordinate>, t: seq<Coordinate>)
    requires IsSubsequence(s, t)
    requires forall i, j :: 0 <= i < j < |t| ==> t[i] != t[j]
    ensures forall i, j :: 0 <= i < j < |s| ==> s[i] != s[j]
    ensures forall x :: x in s ==> x in t
    decreases |t|
  {
    if s != [] && t != [] {
      if s[0] == t[0] {
        SubsequenceOfDistinctIsDistinct(s[1..], t[1..]);
        forall k | 0 <= k < |t[1..]| ensures t[1..][k] != t[0] {
          assert t[1..][k] == t[k + 1];
        }
        forall j | 0 < j < |s| ensures s[0] != s[j] {
          assert s[j] == s[1..][j - 1];
          assert s[j] in t[1..];
        }
        forall x | x in s ensures x in t {
          if x != s[0] { assert x in s[1..]; }
        }
      } else {
        SubsequenceOfDistinctIsDistinct(s, t[1..]);
      }
    }
  }

  /** The moves from a square contain no duplicates. */
  lemma MovesAreDistinct(dimensions: ChessBoardDimensions, c: Coordinate)
    ensures var r := KnightMovesFrom(dimensions, c);
      forall i, j :: 0 <= i < j < |r| ==> r[i] != r[j]
  {
    var cs := Candidates(c);
    forall i, j | 0 <= i < j < |cs| ensures cs[i] != cs[j] {
      DeltasDistinct();
      assert KnightDeltas[i] != KnightDeltas[j];
    }
    SubsequenceOfDistinctIsDistinct(KnightMovesFrom(dimensions, c), cs);
  }

  /** On the infinite board every square has exactly eight distinct moves. */
  lemma InfiniteHasEightMoves(c: Coordinate)
    ensures |KnightMovesFrom(Infinite, c)| == 8
  {
  }

  /** Knight moves are reversible between valid squares. */
  lemma MovesAreSymmetric(dimensions: ChessBoardDimensions, a: Coordinate, b: Coordinate)
    requires IsValidCoordinate(dimensions, a)
    requires b in KnightMovesFrom(dimensions, a)
    ensures a in KnightMovesFrom(dimensions, b)
  {
    var d := Offset(b, a);
    MovesAreSoundAndComplete(dimensions, a);
    MovesAreSoundAndComplete(dimensions, b);
    StepIsSymmetric(a, b);
    assert Plus(b, d) == a;
  }

  /** A 2 x 2 board admits no knight move from any of its squares. */
  lemma TwoByTwoHasNoMoves(c: Coordinate)
    requires IsValidCoordinate(Finite(2, 2), c)
    ensures KnightMovesFrom(Finite(2, 2), c) == []
  {
    var r := KnightMovesFrom(Finite(2, 2), c);
    if r != [] {
      var n := r[0];
      MovesAreSoundAndComplete(Finite(2, 2), c);
      assert IsKnightStep(c, n);
      DeltaShape(Offset(c, n));
      assert false;
    }
  }

  /** A knight step onto a valid square is among the moves the board yields. */
  lemma StepIsMove(dimensions: ChessBoardDimensions, a: Coordinate, b: Coordinate)
    requires IsKnightStep(a, b) && IsValidCoordinate(dimensions, b)
    ensures b in KnightMovesFrom(dimensions, a)
  {
    MovesAreSoundAndComplete(dimensions, a);
    assert Plus(a, Offset(a, b)) == b;
  }

  /**
   * A sequence of squares on the board, each one knight move from the one before.
   */
  predicate IsKnightWalk(dimensions: ChessBoardDimensions, w: seq<Coordinate>)
  {
    && |w| >= 1
    && (forall i :: 0 <= i < |w| ==> IsValidCoordinate(dimensions, w[i]))
    && (forall i :: 0 <= i < |w| - 1 ==> IsKnightStep(w[i], w[i + 1]))
  }

  /** Two walks joined by one knight move form a walk. */
  lemma WalksJoin(dimensions: ChessBoardDimensions, a: seq<Coordinate>, b: seq<Coordinate>)
    requires IsKnightWalk(dimensions, a) && IsKnightWalk(dimensions, b)
    requires IsKnightStep(a[|a| - 1], b[0])
    ensures IsKnightWalk(dimensions, a + b)
  {
    var w := a + b;
    forall j | 0 <= j < |w| - 1 ensures IsKnightStep(w[j], w[j + 1]) {
      if j >= |a| {
        assert w[j] == b[j - |a|] && w[j + 1] == b[j + 1 - |a|];
      } else if j < |a| - 1 {
        assert w[j] == a[j] && w[j + 1] == a[j + 1];
      }
    }
  }

  /**
   * The board proper: dimensions fixed at creation and a mutable map of entries.
   * Entries are the payloads stored with `board[c] = v`; a missing key reads as null.
   */
  class ChessBoard<T> {
    const dimensions: ChessBoardDimensions
    var entries: map<Coordinate, T>

    constructor (dimensions: ChessBoardDimensions)
      ensures this.dimensions == dimensions && entries == map[]
    {
      this.dimensions := dimensions;
      entries := map[];
    }

    /** `board[c]`: the stored payload, or null when nothing was stored at `c`. */
    function Get(c: Coordinate): (r: Option<T>)
      reads this
      ensures r.Some? <==> c in entries
      ensures r.Some? ==> r.value == entries[c]
    {
      if c in entries then Some(entries[c]) else None
    }

    /** `board[c] = v`: afterwards `c` reads as `v` and every other key reads as before. */
    method Set(c: Coordinate, v: T)
      modifies this
      ensures entries == old(entries)[c := v]
      ensures Get(c) == Some(v)
      ensures forall k :: k != c ==> Get(k) == old(Get(k))
    {
      entries := entries[c := v];
    }
  }
}
