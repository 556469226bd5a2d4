/** The corrected move generators of chess.ChessPiece, written as the Java's loops: they read
    the mutable board and append to the move list, bounds-check each square before building
    it, and give the rook its four rays. Each is proved to append exactly the moves the
    corresponding function of module MoveRules describes. */
module MoveGeneration {
  import opened Wrappers
  import opened ChessPosition
  import opened ChessPiece
  import opened ChessMove
  import opened ChessBoard
  import opened MoveRules

  /** `pieceMoves`: a fresh list filled by the generator for the piece's type. */
  method PieceMovesOn(piece: Piece, board: Board, pos: Position) returns (moves: seq<Move>)
    requires board.Valid()
    ensures moves == PieceMoves(board.grid, piece, pos)
    ensures Generated(board.grid, piece.color, pos, moves)
  {
    moves := [];
    match piece.kind {
      case PAWN => moves := AddPawnMoves(moves, board, piece.color, pos);
      case ROOK => moves := AddRookMoves(moves, board, piece.color, pos);
      case BISHOP => moves := AddBishopMoves(moves, board, piece.color, pos);
      case QUEEN => moves := AddQueenMoves(moves, board, piece.color, pos);
      case KNIGHT => moves := AddKnightMoves(moves, board, piece.color, pos);
      case KING => moves := AddKingMoves(moves, board, piece.color, pos);
    }
    PieceMovesGenerated(board.grid, piece, pos);
  }

  /** `addPawnMoves`, with the one-step and diagonal squares checked before they are built. */
  method AddPawnMoves(moves: seq<Move>, board: Board, color: TeamColor, pos: Position) returns (r: seq<Move>)
    requires board.Valid()
    ensures r == moves + PawnMoves(board.grid, color, pos)
  {
    var direction := if color == WHITE then 1 else -1;
    var startRow := if color == WHITE then 2 else 7;
    r := moves;
    var oneStep := Position(pos.row + direction, pos.col);
    if IsPositionValid(oneStep.row, oneStep.col) && board.GetPiece(oneStep) == None {
      r := r + [Move(pos, oneStep, None)];
      if pos.row == startRow {
        var twoStep := Position(pos.row + 2 * direction, pos.col);
        if board.GetPiece(twoStep) == None {
          r := r + [Move(pos, twoStep, None)];
        }
      }
    }
    ghost var g := board.grid;
    assert r == moves + PawnForward(g, color, pos);
    var colOffsets := [-1, 1];
    for k := 0 to 2
      invariant k == 0 ==> r == moves + PawnForward(g, color, pos)
      invariant k == 1 ==> r == moves + PawnForward(g, color, pos) + PawnCapture(g, color, pos, -1)
      invariant k == 2 ==> r == moves + PawnForward(g, color, pos) + PawnCapture(g, color, pos, -1) + PawnCapture(g, color, pos, 1)
    {
      var attackPos := Position(pos.row + direction, pos.col + colOffsets[k]);
      if IsPositionValid(attackPos.row, attackPos.col) {
        var targetPiece := board.GetPiece(attackPos);
        if targetPiece != None && targetPiece.value.color != color {
          r := r + [Move(pos, attackPos, None)];
        }
      }
    }
    AppendAssoc3(moves, PawnForward(g, color, pos), PawnCapture(g, color, pos, -1), PawnCapture(g, color, pos, 1));
  }

  /** The inner `for (int i = 1; i <= 8; i++)` loop of the sliding pieces, for one direction:
      it appends empty squares, stops at the edge, and stops at a piece after appending it
      when it is an enemy. */
  method AddRay(moves: seq<Move>, board: Board, color: TeamColor, pos: Position, dr: int, dc: int) returns (r: seq<Move>)
    requires board.Valid() && IsDirection(dr, dc)
    ensures r == moves + Ray(board.grid, color, pos, dr, dc, 1)
  {
    r := moves;
    for i := 1 to 9
      invariant r + Ray(board.grid, color, pos, dr, dc, i) == moves + Ray(board.grid, color, pos, dr, dc, 1)
    {
      var newPos := Step(pos, dr, dc, i);
      if !IsPositionValid(newPos.row, newPos.col) {
        break;
      }
      var piece := board.GetPiece(newPos);
      if piece == None {
        r := r + [Move(pos, newPos, None)];
      } else {
        if piece.value.color != color {
          r := r + [Move(pos, newPos, None)];
        }
        break;
      }
    }
  }

  /** `addRookMoves`, with the rays along the row that its loop evidently intends. */
  method AddRookMoves(moves: seq<Move>, board: Board, color: TeamColor, pos: Position) returns (r: seq<Move>)
    requires board.Valid()
    ensures r == moves + RookMoves(board.grid, color, pos)
  {
    ghost var g := board.grid;
    r := moves;
    var directions := [1, -1];
    for k := 0 to 2
      invariant k == 0 ==> r == moves
      invariant k == 1 ==> r == moves + RookPair(g, color, pos, 1)
      invariant k == 2 ==> r == moves + RookPair(g, color, pos, 1) + RookPair(g, color, pos, -1)
    {
      var dir := directions[k];
      ghost var before := r;
      r := AddRay(r, board, color, pos, dir, 0);
      r := AddRay(r, board, color, pos, 0, dir);
      AppendAssoc(before, Ray(g, color, pos, dir, 0, 1), Ray(g, color, pos, 0, dir, 1));
    }
    AppendAssoc(moves, RookPair(g, color, pos, 1), RookPair(g, color, pos, -1));
  }

  /** `addBishopMoves`: the four diagonal rays, row direction outermost. */
  method AddBishopMoves(moves: seq<Move>, board: Board, color: TeamColor, pos: Position) returns (r: seq<Move>)
    requires board.Valid()
    ensures r == moves + BishopMoves(board.grid, color, pos)
  {
    ghost var g := board.grid;
    r := moves;
    var directions := [1, -1];
    for a := 0 to 2
      invariant a == 0 ==> r == moves
      invariant a == 1 ==> r == moves + BishopPair(g, color, pos, 1)
      invariant a == 2 ==> r == moves + BishopPair(g, color, pos, 1) + BishopPair(g, color, pos, -1)
    {
      var rowDir := directions[a];
      ghost var before := r;
      for b := 0 to 2
        invariant b == 0 ==> r == before
        invariant b == 1 ==> r == before + Ray(g, color, pos, rowDir, 1, 1)
        invariant b == 2 ==> r == before + Ray(g, color, pos, rowDir, 1, 1) + Ray(g, color, pos, rowDir, -1, 1)
      {
        var colDir := directions[b];
        r := AddRay(r, board, color, pos, rowDir, colDir);
      }
      AppendAssoc(before, Ray(g, color, pos, rowDir, 1, 1), Ray(g, color, pos, rowDir, -1, 1));
    }
    AppendAssoc(moves, BishopPair(g, color, pos, 1), BishopPair(g, color, pos, -1));
  }

  /** `addQueenMoves`: the bishop's moves, then the rook's. */
  method AddQueenMoves(moves: seq<Move>, board: Board, color: TeamColor, pos: Position) returns (r: seq<Move>)
    requires board.Valid()
    ensures r == moves + QueenMoves(board.grid, color, pos)
  {
    r := AddBishopMoves(moves, board, color, pos);
    r := AddRookMoves(r, board, color, pos);
    AppendAssoc(moves, BishopMoves(board.grid, color, pos), RookMoves(board.grid, color, pos));
  }

  /** `addKnightMoves`: the eight offsets in order, each kept on the board and off friends. */
  method AddKnightMoves(moves: seq<Move>, board: Board, color: TeamColor, pos: Position) returns (r: seq<Move>)
    requires board.Valid()
    ensures r == moves + KnightMoves(board.grid, color, pos)
  {
    r := moves;
    for k := 0 to |KnightOffsets|
      invariant r == moves + KnightJumps(board.grid, color, pos, k)
    {
      var offset := KnightOffsets[k];
      var newPos := Position(pos.row + offset.0, pos.col + offset.1);
      AppendAssoc(moves, KnightJumps(board.grid, color, pos, k), Jump(board.grid, color, pos, offset.0, offset.1));
      if IsPositionValid(newPos.row, newPos.col) {
        var piece := board.GetPiece(newPos);
        if piece == None || piece.value.color != color {
          r := r + [Move(pos, newPos, None)];
        }
      }
    }
  }

  /** `addKingMoves`: row change -1..1 outermost, column change -1..1 inside, (0, 0) skipped. */
  method AddKingMoves(moves: seq<Move>, board: Board, color: TeamColor, pos: Position) returns (r: seq<Move>)
    requires board.Valid()
    ensures r == moves + KingMoves(board.grid, color, pos)
  {
    ghost var g := board.grid;
    r := moves;
    for rowChange := -1 to 2
      invariant r == moves + KingRows(g, color, pos, rowChange + 1)
    {
      ghost var before := r;
      for colChange := -1 to 2
        invariant r == before + KingRow(g, color, pos, rowChange, colChange + 1)
      {
        KingRowNext(g, color, pos, rowChange, colChange + 1);
        AppendAssoc(before, KingRow(g, color, pos, rowChange, colChange + 1), KingStep(g, color, pos, rowChange, colChange));
        if rowChange == 0 && colChange == 0 {
          continue;
        }
        r := AddKingSquare(r, board, color, pos, rowChange, colChange);
      }
      KingRowsNext(g, color, pos, rowChange + 1);
      AppendAssoc(moves, KingRows(g, color, pos, rowChange + 1), KingRow(g, color, pos, rowChange, 3));
    }
  }

  /** The body of `addKingMoves`' inner loop for one neighbour: kept when it is on the board
      and holds no friendly piece. */
  method AddKingSquare(moves: seq<Move>, board: Board, color: TeamColor, pos: Position, rowChange: int, colChange: int)
    returns (r: seq<Move>)
    requires board.Valid() && (rowChange != 0 || colChange != 0)
    ensures r == moves + Jump(board.grid, color, pos, rowChange, colChange)
  {
    r := moves;
    var newRow := pos.row + rowChange;
    var newCol := pos.col + colChange;
    if newRow >= 1 && newRow <= 8 && newCol >= 1 && newCol <= 8 {
      var newPos := Position(newRow, newCol);
      var piece := board.GetPiece(newPos);
      if piece == None || piece.value.color != color {
        r := r + [Move(pos, newPos, None)];
      }
    }
  }

  lemma KingRowNext(g: Grid, color: TeamColor, pos: Position, dr: int, n: int)
    requires 0 <= n < 3
    ensures KingRow(g, color, pos, dr, n + 1) == KingRow(g, color, pos, dr, n) + KingStep(g, color, pos, dr, n - 1)
  {
  }

  lemma KingRowsNext(g: Grid, color: TeamColor, pos: Position, n: int)
    requires 0 <= n < 3
    ensures KingRows(g, color, pos, n + 1) == KingRows(g, color, pos, n) + KingRow(g, color, pos, n - 1, 3)
  {
  }

  lemma AppendAssoc(a: seq<Move>, b: seq<Move>, c: seq<Move>)
    ensures a + (b + c) == a + b + c
  {
  }

  lemma AppendAssoc3(a: seq<Move>, b: seq<Move>, c: seq<Move>, d: seq<Move>)
    ensures a + (b + c + d) == a + b + c + d
  {
  }
}
