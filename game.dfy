/** chess.ChessGame: the mutable game object. Its methods run the Java loops over the live
    board and over board copies, and each is proved to compute the corresponding function
    of module GameRules on the current state. */
module Game {
  import opened Wrappers
  import opened ChessPosition
  import opened ChessPiece
  import opened ChessMove
  import opened ChessBoard
  import opened MoveRules
  import opened MoveGeneration
  import opened GameRules

  class ChessGame {
    var board: Board
    var currentTurn: TeamColor
    /** `isGameOver`/`setGameOver`, which ChessGame.java does not declare; it only goes from
        false to true. */
    var gameOver: bool

    ghost predicate Valid()
      reads this, board, board.cells
    {
      board.Valid()
    }

    /** The game as a value: board contents, side to move, game-over flag. */
    ghost function State(): GameState
      reads this, board
    {
      GameState(board.grid, currentTurn, gameOver)
    }

    /** `new ChessGame()`: a reset board with WHITE to move. */
    constructor ()
      ensures Valid() && fresh(board) && fresh(board.cells)
      ensures State() == NewGame()
    {
      board := new Board();
      currentTurn := WHITE;
      gameOver := false;
    }

    /** `setTeamTurn`. */
    method SetTeamTurn(team: TeamColor)
      modifies this
      ensures board == old(board) && currentTurn == team && gameOver == old(gameOver)
    {
      currentTurn := team;
    }

    /** `setBoard`: the game now plays on `b` itself (no copy is taken). */
    method SetBoard(b: Board)
      modifies this
      ensures board == b && currentTurn == old(currentTurn) && gameOver == old(gameOver)
    {
      board := b;
    }

    /** `setGameOver(true)`: the flag can be raised but never lowered. */
    method SetGameOver()
      modifies this
      ensures board == old(board) && currentTurn == old(currentTurn) && gameOver
    {
      gameOver := true;
    }

    /** `findKingPosition`: the row-major scan for the king of `color`. */
    method FindKingPosition(color: TeamColor) returns (k: Option<Position>)
      requires Valid()
      ensures k == FindKing(board.grid, color)
    {
      for row := 1 to 9
        invariant FindKingFrom(board.grid, color, row, 1) == FindKing(board.grid, color)
      {
        for col := 1 to 9
          invariant FindKingFrom(board.grid, color, row, col) == FindKing(board.grid, color)
        {
          var position := Position(row, col);
          var piece := board.GetPiece(position);
          if piece.Some? && piece.value.kind == KING && piece.value.color == color {
            return Some(position);
          }
        }
      }
      return None;
    }

    /** `isInCheck`: KingNotFound without a king; otherwise scans every opposing piece's
        pseudo-moves for one ending on the king's square, returning at the first. */
    method IsInCheck(color: TeamColor) returns (r: Result<bool, GameError>)
      requires Valid()
      ensures r == GameRules.IsInCheck(board.grid, color)
    {
      var kingPosition := FindKingPosition(color);
      if kingPosition.None? {
        return Failure(KingNotFound);
      }
      var attacked := ScanForAttacker(color, kingPosition.value);
      return Success(attacked);
    }

    /** The nested row/column loops of `isInCheck`, returning at the first square whose
        piece attacks `king`. */
    method ScanForAttacker(color: TeamColor, king: Position) returns (attacked: bool)
      requires Valid()
      ensures attacked == AttackedFrom(board.grid, color, king, 1, 1)
    {
      for row := 1 to 9
        invariant AttackedFrom(board.grid, color, king, row, 1) == AttackedFrom(board.grid, color, king, 1, 1)
      {
        for col := 1 to 9
          invariant AttackedFrom(board.grid, color, king, row, col) == AttackedFrom(board.grid, color, king, 1, 1)
        {
          var attacks := AttacksKing(color, king, Position(row, col));
          if attacks {
            return true;
          }
        }
      }
      return false;
    }

    /** The body of the `isInCheck` scan for one square: does the piece there belong to
        the other side, and does one of its pseudo-moves end on `king`? */
    method AttacksKing(color: TeamColor, king: Position, position: Position) returns (b: bool)
      requires Valid()
      ensures b == AttackerAt(board.grid, color, king, position)
    {
      var piece := board.GetPiece(position);
      if piece.Some? && piece.value.color != color {
        var moves := PieceMovesOn(piece.value, board, position);
        for i := 0 to |moves|
          invariant forall j :: 0 <= j < i ==> moves[j].end != king
        {
          if moves[i].end == king {
            return true;
          }
        }
      }
      return false;
    }

    /** `validMoves`: None for an empty square; otherwise each pseudo-move is tried on a deep
        copy of the board in a fresh game, and kept when the mover is then not in check. */
    method ValidMoves(startPosition: Position) returns (r: Result<Option<seq<Move>>, GameError>)
      requires Valid()
      ensures r == GameRules.ValidMoves(board.grid, startPosition)
    {
      var piece := board.GetPiece(startPosition);
      if piece.None? {
        return Success(None);
      }
      var potentialMoves := PieceMovesOn(piece.value, board, startPosition);
      var legal := KeepLegalMoves(piece.value, startPosition, potentialMoves);
      if legal.Failure? {
        return Failure(legal.error);
      }
      return Success(Some(legal.value));
    }

    /** The loop of `validMoves` over the pseudo-moves of `piece` on `startPosition`. */
    method KeepLegalMoves(piece: Piece, startPosition: Position, potentialMoves: seq<Move>)
      returns (r: Result<seq<Move>, GameError>)
      requires Valid() && OnBoard(startPosition)
      requires Generated(board.grid, piece.color, startPosition, potentialMoves)
      ensures r == KeepLegal(board.grid, piece, potentialMoves)
    {
      var validMoves: seq<Move> := [];
      for i := 0 to |potentialMoves|
        invariant KeepLegal(board.grid, piece, potentialMoves[..i]) == Success(validMoves)
      {
        var move := potentialMoves[i];
        var check := CheckAfter(piece, move);
        KeepLegalStep(board.grid, piece, potentialMoves, i, validMoves);
        if check.Failure? {
          KeepLegalPrefixFails(board.grid, piece, potentialMoves, i + 1);
          return Failure(check.error);
        }
        if !check.value {
          validMoves := validMoves + [move];
        }
      }
      assert potentialMoves[..|potentialMoves|] == potentialMoves;
      return Success(validMoves);
    }

    /** One pass of the `validMoves` loop body: copy the board, move `piece` along `move` on
        the copy (promotion ignored), and ask a fresh game on the copy whether the mover is in
        check. The live board is not touched. */
    method CheckAfter(piece: Piece, move: Move) returns (check: Result<bool, GameError>)
      requires Valid() && OnBoard(move.start) && OnBoard(move.end)
      ensures check == GameRules.IsInCheck(Simulate(board.grid, move, piece), piece.color)
    {
      var tempBoard := new Board.Copy(board);
      var _ := tempBoard.AddPiece(move.end, Some(piece));
      var _ := tempBoard.AddPiece(move.start, None);
      var tempGame := new ChessGame();
      tempGame.SetBoard(tempBoard);
      check := tempGame.IsInCheck(piece.color);
    }

    /** `makeMove`: InvalidMove (nothing changed) for an empty start square, a piece of the
        side not to move, or a move not among its legal moves; a failing check test inside
        `validMoves` is passed on. Otherwise the piece (or, for a pawn with a promotion type,
        a new piece of that type) goes to the end square, the start square is emptied and
        the turn passes. */
    method MakeMove(move: Move) returns (thrown: Option<GameError>)
      requires Valid()
      modifies this, board, board.cells
      ensures Valid() && board == old(board)
      ensures GameRules.MakeMove(old(State()), move).Failure? ==>
        thrown == Some(GameRules.MakeMove(old(State()), move).error) && State() == old(State())
      ensures GameRules.MakeMove(old(State()), move).Success? ==>
        thrown == None && State() == GameRules.MakeMove(old(State()), move).value
    {
      var piece := board.GetPiece(move.start);
      if piece.None? || piece.value.color != currentTurn {
        return Some(InvalidMove);
      }
      var validMoves := ValidMoves(move.start);
      if validMoves.Failure? {
        return Some(validMoves.error);
      }
      if move !in validMoves.value.value {
        return Some(InvalidMove);
      }
      var newPiece := piece.value;
      if piece.value.kind == PAWN && move.promotion.Some? {
        newPiece := Piece(piece.value.color, move.promotion.value);
      }
      ValidMovesGenerated(board.grid, move.start);
      var _ := board.AddPiece(move.end, Some(newPiece));
      var _ := board.AddPiece(move.start, None);
      currentTurn := if currentTurn == WHITE then BLACK else WHITE;
      return None;
    }

    /** `isInCheckmate`: the check test first (its failure is passed on); when in check, every
        legal move of every own piece is replayed on a copy, and finding one after which the
        king is safe answers false. */
    method IsInCheckmate(color: TeamColor) returns (r: Result<bool, GameError>)
      requires Valid()
      ensures r == GameRules.IsInCheckmate(board.grid, color)
    {
      var check := IsInCheck(color);
      if check.Failure? {
        return Failure(check.error);
      }
      if !check.value {
        return Success(false);
      }
      for row := 1 to 9
        invariant LegalMoveFrom(board.grid, color, row, 1) == HasLegalMove(board.grid, color)
      {
        for col := 1 to 9
          invariant LegalMoveFrom(board.grid, color, row, col) == HasLegalMove(board.grid, color)
        {
          var escapes := FindsEscape(color, Position(row, col));
          if escapes {
            return Success(false);
          }
        }
      }
      return Success(true);
    }

    /** The `isInCheckmate` loop body for one square: replays each legal move of the own
        piece there on a board copy and reports whether one leaves the king safe. */
    method FindsEscape(color: TeamColor, position: Position) returns (escapes: bool)
      requires Valid() && FindKing(board.grid, color).Some?
      ensures escapes <==> OwnsLegalMove(board.grid, color, position)
    {
      var piece := board.GetPiece(position);
      if piece.Some? && piece.value.color == color {
        ValidMovesDefined(board.grid, position);
        var validMoves := ValidMoves(position);
        var moves := validMoves.value.value;
        ValidMovesGenerated(board.grid, position);
        escapes := ReplayMoves(piece.value, moves);
        SomeMoveSafeExactly(board.grid, piece.value, moves);
        ValidMovesExactly(board.grid, position);
        if |moves| > 0 {
          assert moves[0] in moves;
        }
        return;
      }
      return false;
    }

    /** The innermost `isInCheckmate` loop: replays each move of `piece` on a board copy and
        returns at the first after which the mover is not in check. */
    method ReplayMoves(piece: Piece, moves: seq<Move>) returns (escapes: bool)
      requires Valid()
      requires forall m :: m in moves ==> OnBoard(m.start) && OnBoard(m.end)
      ensures escapes == SomeMoveSafe(board.grid, piece, moves)
    {
      for i := 0 to |moves|
        invariant !SomeMoveSafe(board.grid, piece, moves[..i])
      {
        assert moves[i] in moves;
        var check := CheckAfter(piece, moves[i]);
        assert moves[..i + 1][..i] == moves[..i];
        if check == Success(false) {
          SomeMoveSafePrefix(board.grid, piece, moves, i + 1);
          return true;
        }
      }
      assert moves[..|moves|] == moves;
      return false;
    }

    /** `isInStalemate`: the check test first (its failure is passed on); when not in check,
        any own piece with a non-empty list of legal moves answers false. */
    method IsInStalemate(color: TeamColor) returns (r: Result<bool, GameError>)
      requires Valid()
      ensures r == GameRules.IsInStalemate(board.grid, color)
    {
      var check := IsInCheck(color);
      if check.Failure? {
        return Failure(check.error);
      }
      if check.value {
        return Success(false);
      }
      for row := 1 to 9
        invariant LegalMoveFrom(board.grid, color, row, 1) == HasLegalMove(board.grid, color)
      {
        for col := 1 to 9
          invariant LegalMoveFrom(board.grid, color, row, col) == HasLegalMove(board.grid, color)
        {
          var hasMoves := HasMovesAt(color, Position(row, col));
          if hasMoves {
            return Success(false);
          }
        }
      }
      return Success(true);
    }

    /** The `isInStalemate` loop body for one square: an own piece there whose legal-move
        list is neither null nor empty. */
    method HasMovesAt(color: TeamColor, position: Position) returns (b: bool)
      requires Valid() && FindKing(board.grid, color).Some?
      ensures b == OwnsLegalMove(board.grid, color, position)
    {
      var piece := board.GetPiece(position);
      if piece.Some? && piece.value.color == color {
        ValidMovesDefined(board.grid, position);
        var validMoves := ValidMoves(position);
        if validMoves.value.Some? && |validMoves.value.value| > 0 {
          return true;
        }
      }
      return false;
    }
  }
}
