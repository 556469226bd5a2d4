/** chess.ChessPiece (the value part) and chess.ChessGame.TeamColor. */
module ChessPiece {

  datatype TeamColor = WHITE | BLACK

  datatype PieceType = KING | QUEEN | BISHOP | KNIGHT | ROOK | PAWN

  /** An immutable piece: its team and its type. */
  datatype Piece = Piece(color: TeamColor, kind: PieceType)

  /** The side that is not `c`. */
  function Other(c: TeamColor): (r: TeamColor)
    ensures r != c
  {
    if c == WHITE then BLACK else WHITE
  }

  /** `equals`: same team and same type. */
  function Equals(a: Piece, b: Piece): (r: bool)
    ensures r <==> a == b
  {
    a.color == b.color && a.kind == b.kind
  }
}
