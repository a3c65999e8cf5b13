/**
 * The shape of a chess board: either a finite grid of `rows` by `cols` squares
 * or an unbounded plane. The only question a shape answers is whether a
 * coordinate lies on the board.
 */
module BoardDimensions {
  import opened Coordinates

  datatype ChessBoardDimensions = Finite(rows: int, cols: int) | Infinite

  /** `x` ranges over the columns and `y` over the rows. */
  predicate IsValidCoordinate(dimensions: ChessBoardDimensions, coordinate: Coordinate)
  {
    match dimensions
    case Finite(rows, cols) => 0 <= coordinate.x < cols && 0 <= coordinate.y < rows
    case Infinite => true
  }

  /** On a finite board, x is bounded by the column count and y by the row count. */
  lemma FiniteValidity(rows: int, cols: int, c: Coordinate)
    ensures IsValidCoordinate(Finite(rows, cols), c) <==> 0 <= c.x < cols && 0 <= c.y < rows
  {
  }

  /** Every coordinate lies on the infinite board, negative ones included. */
  lemma InfiniteAcceptsAll(c: Coordinate)
    ensures IsValidCoordinate(Infinite, c)
  {
  }

  /** Valid coordinates of a finite board are non-negative; a board without rows or columns has none. */
  lemma FiniteValidIsNonNegative(rows: int, cols: int, c: Coordinate)
    ensures IsValidCoordinate(Finite(rows, cols), c) ==> c.x >= 0 && c.y >= 0
    ensures rows <= 0 || cols <= 0 ==> !IsValidCoordinate(Finite(rows, cols), c)
  {
  }

  /** Enlarging a finite board keeps every coordinate valid, and the infinite board accepts them all. */
  lemma ValidityIsMonotone(rows: int, cols: int, rows': int, cols': int, c: Coordinate)
    requires rows <= rows' && cols <= cols'
    requires IsValidCoordinate(Finite(rows, cols), c)
    ensures IsValidCoordinate(Finite(rows', cols'), c)
    ensures IsValidCoordinate(Infinite, c)
  {
  }

  /** The documented example: with 3 rows and 4 columns, (3, 2) is on the board and (2, 3) is not. */
  lemma ThreeByFourExample()
    ensures IsValidCoordinate(Finite(3, 4), Coordinate(3, 2))
    ensures !IsValidCoordinate(Finite(3, 4), Coordinate(2, 3))
  {
  }

  /** The coordinates of a finite board, plus one extra square; a finite set. */
  function FiniteUniverse(rows: int, cols: int, extra: Coordinate): (u: set<Coordinate>)
    ensures forall c :: c in u <==> c == extra || IsValidCoordinate(Finite(rows, cols), c)
  {
    var grid := set x, y | 0 <= x < cols && 0 <= y < rows :: Coordinate(x, y);
    assert forall c :: IsValidCoordinate(Finite(rows, cols), c) ==> c in grid by {
      forall c | IsValidCoordinate(Finite(rows, cols), c) ensures c in grid {
        assert c == Coordinate(c.x, c.y);
      }
    }
    grid + {extra}
  }
}
