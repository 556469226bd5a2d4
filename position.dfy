/** chess.ChessPosition: a square of the board, rows and columns numbered 1..8. */
module ChessPosition {
  import opened Wrappers

  /** The values a ChessPosition object can hold; `NewPosition` is the checked constructor. */
  datatype Position = Position(row: int, col: int)

  /** The IllegalArgumentException the constructor throws. */
  datatype PositionError = OutOfRange(row: int, col: int)

  predicate InRange(row: int, col: int) {
    1 <= row <= 8 && 1 <= col <= 8
  }

  predicate OnBoard(p: Position) {
    InRange(p.row, p.col)
  }

  /** `new ChessPosition(row, col)`: fails unless both coordinates are in 1..8;
      the getters then return the constructor's arguments. */
  function NewPosition(row: int, col: int): (r: Result<Position, PositionError>)
    ensures r.Success? <==> InRange(row, col)
    ensures r.Success? ==> r.value.row == row && r.value.col == col && OnBoard(r.value)
    ensures r.Failure? ==> r.error == OutOfRange(row, col)
  {
    if row < 1 || row > 8 || col < 1 || col > 8 then Failure(OutOfRange(row, col))
    else Success(Position(row, col))
  }

  /** `equals`: same row and same column. */
  function Equals(p: Position, q: Position): (r: bool)
    ensures r <==> p == q
  {
    p.row == q.row && p.col == q.col
  }

  /** `hashCode` = 31 * row + col; no 32-bit overflow is possible on the board. */
  function HashCode(p: Position): (h: int)
    ensures OnBoard(p) ==> 32 <= h <= 256
  {
    31 * p.row + p.col
  }

  /** On valid positions the hash code determines the position, so it agrees with `equals`. */
  lemma HashCodeInjective(p: Position, q: Position)
    requires OnBoard(p) && OnBoard(q)
    ensures HashCode(p) == HashCode(q) <==> Equals(p, q)
  {
  }
}
