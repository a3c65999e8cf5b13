/** The immutable board position `ChessBoard.Coordinate`, compared by value. */
module Coordinates {
  datatype Coordinate = Coordinate(x: int, y: int)
}
