/** chess.ChessMove: start, end and an optional promotion type. */
module ChessMove {
  import opened Wrappers
  import opened ChessPosition
  import opened ChessPiece

  datatype Move = Move(start: Position, end: Position, promotion: Option<PieceType>)

  /** The IllegalArgumentException the constructor throws for a null position. */
  datatype MoveError = NullPosition

  /** `new ChessMove(start, end, promotion)`: a null start or end is rejected;
      otherwise the getters return the arguments, the promotion possibly null. */
  function NewMove(start: Option<Position>, end: Option<Position>, promotion: Option<PieceType>)
    : (r: Result<Move, MoveError>)
    ensures r.Success? <==> start.Some? && end.Some?
    ensures r.Success? ==> r.value.start == start.value && r.value.end == end.value
                           && r.value.promotion == promotion
  {
    if start.None? || end.None? then Failure(NullPosition)
    else Success(Move(start.value, end.value, promotion))
  }

  /** `equals`: equal start, equal end, and promotions both null or equal. */
  function Equals(a: Move, b: Move): (r: bool)
    ensures r <==> a == b
  {
    ChessPosition.Equals(a.start, b.start) && ChessPosition.Equals(a.end, b.end) &&
    ((a.promotion.None? && b.promotion.None?) ||
     (a.promotion.Some? && b.promotion.Some? && a.promotion.value == b.promotion.value))
  }

  /** Java's `int` arithmetic: the value modulo 2^32, read as signed. */
  function Wrap32(x: int): (r: int)
    ensures -0x8000_0000 <= r < 0x8000_0000
    ensures (r - x) % 0x1_0000_0000 == 0
  {
    (x + 0x8000_0000) % 0x1_0000_0000 - 0x8000_0000
  }

  /** `hashCode`; the enum's own hash code is a parameter. */
  function HashCode(m: Move, kindHash: PieceType -> int): int
  {
    var h := ChessPosition.HashCode(m.start);
    var h := Wrap32(31 * h + ChessPosition.HashCode(m.end));
    Wrap32(31 * h + (if m.promotion.Some? then kindHash(m.promotion.value) else 0))
  }

  /** Equal moves have equal hash codes. */
  lemma EqualMovesHashEqual(a: Move, b: Move, kindHash: PieceType -> int)
    requires Equals(a, b)
    ensures HashCode(a, kindHash) == HashCode(b, kindHash)
  {
  }
}
