/** The rules of chess.ChessGame as functions of a board's contents: finding the king, check,
    the legal-move filter, applying a move, checkmate and stalemate. */
module GameRules {
  import opened Wrappers
  import opened ChessPosition
  import opened ChessPiece
  import opened ChessMove
  import opened ChessBoard
  import opened MoveRules

  /** `IllegalStateException("King not found on the board.")` and `InvalidMoveException`. */
  datatype GameError = KingNotFound | InvalidMove

  /** The state a `ChessGame` holds: the board, the side to move, and the game-over flag. */
  datatype GameState = GameState(board: Grid, turn: TeamColor, gameOver: bool)

  /** `new ChessGame()`: the starting board, WHITE to move, not over. */
  function NewGame(): GameState {
    GameState(StartGrid(), WHITE, false)
  }

  // ---------------------------------------------------------------- findKingPosition

  /** The row-major scan of `findKingPosition` from square (row, col) on. */
  function FindKingFrom(g: Grid, color: TeamColor, row: int, col: int): Option<Position>
    requires 1 <= row <= 9 && 1 <= col <= 9
    decreases 9 - row, 9 - col
  {
    if row > 8 then None
    else if col > 8 then FindKingFrom(g, color, row + 1, 1)
    else if At(g, Position(row, col)) == Some(Piece(color, KING)) then Some(Position(row, col))
    else FindKingFrom(g, color, row, col + 1)
  }

  function FindKing(g: Grid, color: TeamColor): Option<Position> {
    FindKingFrom(g, color, 1, 1)
  }

  /** Square (r, c) comes before square (row, col) in row-major order. */
  predicate Before(r: int, c: int, row: int, col: int) {
    r < row || (r == row && c < col)
  }

  lemma {:induction false} FindKingFromExactly(g: Grid, color: TeamColor, row: int, col: int)
    requires 1 <= row <= 9 && 1 <= col <= 9
    decreases 9 - row, 9 - col
    ensures FindKingFrom(g, color, row, col).Some? ==>
      var k := FindKingFrom(g, color, row, col).value;
      OnBoard(k) && At(g, k) == Some(Piece(color, KING)) && !Before(k.row, k.col, row, col) &&
      forall r, c :: 1 <= r <= 8 && 1 <= c <= 8 && !Before(r, c, row, col) && Before(r, c, k.row, k.col) ==>
        At(g, Position(r, c)) != Some(Piece(color, KING))
    ensures FindKingFrom(g, color, row, col).None? ==>
      forall r, c :: 1 <= r <= 8 && 1 <= c <= 8 && !Before(r, c, row, col) ==>
        At(g, Position(r, c)) != Some(Piece(color, KING))
  {
    if row <= 8 {
      if col > 8 {
        FindKingFromExactly(g, color, row + 1, 1);
      } else if At(g, Position(row, col)) != Some(Piece(color, KING)) {
        FindKingFromExactly(g, color, row, col + 1);
      }
    }
  }

  /** `findKingPosition` returns the first square in row-major order holding the king of
      `color`, and null exactly when no square holds one. */
  lemma FindKingExactly(g: Grid, color: TeamColor)
    ensures FindKing(g, color).Some? ==>
      var k := FindKing(g, color).value;
      OnBoard(k) && At(g, k) == Some(Piece(color, KING)) &&
      forall r, c :: 1 <= r <= 8 && 1 <= c <= 8 && Before(r, c, k.row, k.col) ==>
        At(g, Position(r, c)) != Some(Piece(color, KING))
    ensures FindKing(g, color).None? <==>
      forall r, c :: 1 <= r <= 8 && 1 <= c <= 8 ==> At(g, Position(r, c)) != Some(Piece(color, KING))
  {
    FindKingFromExactly(g, color, 1, 1);
  }

  /** On the starting board the white king is found on (1,5) and the black king on (8,5). */
  lemma StartKings()
    ensures FindKing(StartGrid(), WHITE) == Some(Position(1, 5))
    ensures FindKing(StartGrid(), BLACK) == Some(Position(8, 5))
  {
    StartGridLayout();
    FindKingExactly(StartGrid(), WHITE);
    FindKingExactly(StartGrid(), BLACK);
    assert At(StartGrid(), Position(1, 5)) == Some(Piece(WHITE, KING));
    assert At(StartGrid(), Position(8, 5)) == Some(Piece(BLACK, KING));
  }

  // ---------------------------------------------------------------- isInCheck

  /** The piece on `p` is an opponent of `color` and one of its pseudo-moves ends on `target`. */
  predicate AttackerAt(g: Grid, color: TeamColor, target: Position, p: Position) {
    At(g, p).Some? && At(g, p).value.color != color &&
    exists m | m in PieceMoves(g, At(g, p).value, p) :: m.end == target
  }

  /** The row-major scan of `isInCheck` from square (row, col) on: does a piece there or on
      a later square attack `king`? */
  predicate AttackedFrom(g: Grid, color: TeamColor, king: Position, row: int, col: int)
    requires 1 <= row <= 9 && 1 <= col <= 9
    decreases 9 - row, 9 - col
  {
    if row > 8 then false
    else if col > 8 then AttackedFrom(g, color, king, row + 1, 1)
    else AttackerAt(g, color, king, Position(row, col)) || AttackedFrom(g, color, king, row, col + 1)
  }

  /** `isInCheck`: fails when `color` has no king; otherwise whether some opposing piece on
      the board has a pseudo-move ending on the king's square. */
  function IsInCheck(g: Grid, color: TeamColor): Result<bool, GameError> {
    match FindKing(g, color)
    case None => Failure(KingNotFound)
    case Some(k) => Success(AttackedFrom(g, color, k, 1, 1))
  }

  lemma {:induction false} AttackedFromExactly(g: Grid, color: TeamColor, king: Position, row: int, col: int)
    requires 1 <= row <= 9 && 1 <= col <= 9
    decreases 9 - row, 9 - col
    ensures AttackedFrom(g, color, king, row, col) <==>
      exists r, c | 1 <= r <= 8 && 1 <= c <= 8 && !Before(r, c, row, col) :: AttackerAt(g, color, king, Position(r, c))
  {
    if row <= 8 {
      if col > 8 {
        AttackedFromExactly(g, color, king, row + 1, 1);
        assert forall r, c :: 1 <= c <= 8 ==> (!Before(r, c, row, col) <==> !Before(r, c, row + 1, 1));
      } else {
        AttackedFromExactly(g, color, king, row, col + 1);
        assert forall r, c :: !Before(r, c, row, col) <==> (r == row && c == col) || !Before(r, c, row, col + 1);
      }
    }
  }

  /** `isInCheck` fails exactly when `color` has no king; otherwise it is true exactly when
      some square of the board holds an opposing piece with a pseudo-move onto the king. */
  lemma IsInCheckExactly(g: Grid, color: TeamColor)
    ensures IsInCheck(g, color).Failure? <==> FindKing(g, color).None?
    ensures IsInCheck(g, color).Failure? ==> IsInCheck(g, color).error == KingNotFound
    ensures IsInCheck(g, color).Success? ==>
      (IsInCheck(g, color).value <==>
       exists r, c | 1 <= r <= 8 && 1 <= c <= 8 :: AttackerAt(g, color, FindKing(g, color).value, Position(r, c)))
  {
    if FindKing(g, color).Some? {
      AttackedFromExactly(g, color, FindKing(g, color).value, 1, 1);
    }
  }

  /** The scan of `isInCheck` as the Java runs it on the generator as written: each opposing
      piece's moves are built in full before they are compared with the king's square, so a
      generation that throws ends the scan with that exception. */
  function AttackedFromAsWritten(g: Grid, color: TeamColor, king: Position, row: int, col: int): Result<bool, PositionError>
    requires 1 <= row <= 9 && 1 <= col <= 9
    decreases 9 - row, 9 - col
  {
    if row > 8 then Success(false)
    else if col > 8 then AttackedFromAsWritten(g, color, king, row + 1, 1)
    else
      var p := Position(row, col);
      if At(g, p).Some? && At(g, p).value.color != color then
        var moves :- PieceMovesAsWritten(g, At(g, p).value, p);
        if exists m | m in moves :: m.end == king then Success(true)
        else AttackedFromAsWritten(g, color, king, row, col + 1)
      else AttackedFromAsWritten(g, color, king, row, col + 1)
  }

  /** If the first opposing piece the scan meets is one whose as-written generation throws,
      the whole scan throws, whatever square the king is on. */
  lemma {:induction false} AsWrittenScanFails(g: Grid, color: TeamColor, king: Position, row: int, col: int, at: Position)
    requires 1 <= row <= 9 && 1 <= col <= 9 && OnBoard(at) && !Before(at.row, at.col, row, col)
    requires At(g, at).Some? && At(g, at).value.color != color
    requires PieceMovesAsWritten(g, At(g, at).value, at).Failure?
    requires forall r, c :: 1 <= r <= 8 && 1 <= c <= 8 && !Before(r, c, row, col) && Before(r, c, at.row, at.col) ==>
      At(g, Position(r, c)).None? || At(g, Position(r, c)).value.color == color
    decreases 9 - row, 9 - col
    ensures AttackedFromAsWritten(g, color, king, row, col).Failure?
  {
    if col > 8 {
      AsWrittenScanFails(g, color, king, row + 1, 1, at);
    } else if Position(row, col) != at {
      assert At(g, Position(row, col)).None? || At(g, Position(row, col)).value.color == color;
      AsWrittenScanFails(g, color, king, row, col + 1, at);
    }
  }

  /** From the opening, every white move the Java simulates in `validMoves` leaves a board
      whose `isInCheck(WHITE)` scan throws: it reaches the black pawn on a7 before any other
      black piece, and that pawn's capture square (6, 0) is off the board. So in the Java
      `validMoves` and `makeMove` of the opening position throw, where the corrected
      generator used by this model returns the legal moves. The scan for BLACK on the
      starting board throws too, at the white rook on a1. */
  lemma OpeningCheckScanFails(m: Move, kind: PieceType, king: Position)
    requires 1 <= m.start.row <= 6 && 1 <= m.end.row <= 6
    ensures AttackedFromAsWritten(Simulate(StartGrid(), m, Piece(WHITE, kind)), WHITE, king, 1, 1).Failure?
    ensures AttackedFromAsWritten(StartGrid(), WHITE, king, 1, 1).Failure?
    ensures AttackedFromAsWritten(StartGrid(), BLACK, king, 1, 1).Failure?
  {
    var h := Simulate(StartGrid(), m, Piece(WHITE, kind));
    forall r, c | 1 <= r <= 8 && 1 <= c <= 8 && Before(r, c, 7, 1)
      ensures At(h, Position(r, c)).None? || At(h, Position(r, c)).value.color == WHITE
      ensures At(StartGrid(), Position(r, c)).None? || At(StartGrid(), Position(r, c)).value.color == WHITE
    {
      assert At(StartGrid(), Position(r, c)) == StartingPiece(Position(r, c));
    }
    assert At(h, Position(7, 1)) == At(StartGrid(), Position(7, 1)) == StartingPiece(Position(7, 1));
    WhiteScanMeetsA7(h, king);
    WhiteScanMeetsA7(StartGrid(), king);
    assert At(StartGrid(), Position(1, 1)) == StartingPiece(Position(1, 1));
    StartBoardAsWrittenFails(WHITE);
    AsWrittenScanFails(StartGrid(), BLACK, king, 1, 1, Position(1, 1));
  }

  /** A board with no black piece before a7 and a black pawn on a7: the WHITE check scan
      throws at that pawn. */
  lemma WhiteScanMeetsA7(g: Grid, king: Position)
    requires At(g, Position(7, 1)) == Some(Piece(BLACK, PAWN))
    requires forall r, c :: 1 <= r <= 8 && 1 <= c <= 8 && Before(r, c, 7, 1) ==>
      At(g, Position(r, c)).None? || At(g, Position(r, c)).value.color == WHITE
    ensures AttackedFromAsWritten(g, WHITE, king, 1, 1).Failure?
  {
    PawnAsWritten(g, BLACK, Position(7, 1));
    AsWrittenScanFails(g, WHITE, king, 1, 1, Position(7, 1));
  }

  /** The square `p` cannot make the as-written scan throw or answer true: it is empty,
      holds a piece of `color`, or holds an opposing piece whose as-written moves are built
      without an exception and none of which ends on `king`. */
  predicate QuietAsWritten(g: Grid, color: TeamColor, king: Position, p: Position)
    requires OnBoard(p)
  {
    At(g, p).None? || At(g, p).value.color == color ||
    (PieceMovesAsWritten(g, At(g, p).value, p).Success? &&
     forall m | m in PieceMovesAsWritten(g, At(g, p).value, p).value :: m.end != king)
  }

  /** When every square the scan still visits is quiet, the as-written scan answers false. */
  lemma {:induction false} AsWrittenScanQuiet(g: Grid, color: TeamColor, king: Position, row: int, col: int)
    requires 1 <= row <= 9 && 1 <= col <= 9
    requires forall r, c :: 1 <= r <= 8 && 1 <= c <= 8 && !Before(r, c, row, col) ==>
      QuietAsWritten(g, color, king, Position(r, c))
    decreases 9 - row, 9 - col
    ensures AttackedFromAsWritten(g, color, king, row, col) == Success(false)
  {
    if row <= 8 {
      if col > 8 {
        AsWrittenScanQuiet(g, color, king, row + 1, 1);
      } else {
        assert QuietAsWritten(g, color, king, Position(row, col));
        AsWrittenScanQuiet(g, color, king, row, col + 1);
      }
    }
  }

  /** A black rook on d4 between black pawns on d3 and d5, the black king on a8 and the
      white king on h4. */
  function RookCheckBoard(): Grid {
    map[Position(4, 4) := Piece(BLACK, ROOK), Position(3, 4) := Piece(BLACK, PAWN),
        Position(5, 4) := Piece(BLACK, PAWN), Position(8, 1) := Piece(BLACK, KING),
        Position(4, 8) := Piece(WHITE, KING)]
  }

  /** Where the Java returns normally, its check still differs from the model's: on
      `RookCheckBoard` the rook attacks h4 along its rank, so `IsInCheck` over the corrected
      generator is true, while the Java's scan, whose rook only looks along its file, finds
      no attacker and answers false. */
  lemma RankRookCheckDiffers()
    ensures IsInCheck(RookCheckBoard(), WHITE) == Success(true)
    ensures AttackedFromAsWritten(RookCheckBoard(), WHITE, Position(4, 8), 1, 1) == Success(false)
  {
    var g := RookCheckBoard();
    RookCheckBoardKing();
    RankRookAttacks();
    IsInCheckExactly(g, WHITE);
    RookCheckBoardQuiet();
    AsWrittenScanQuiet(g, WHITE, Position(4, 8), 1, 1);
  }

  /** The only white king of `RookCheckBoard` is found on h4. */
  lemma RookCheckBoardKing()
    ensures FindKing(RookCheckBoard(), WHITE) == Some(Position(4, 8))
  {
    FindKingExactly(RookCheckBoard(), WHITE);
    assert At(RookCheckBoard(), Position(4, 8)) == Some(Piece(WHITE, KING));
  }

  /** The corrected rook on d4 reaches h4 along its rank across e4, f4 and g4. */
  lemma RankRookAttacks()
    ensures AttackerAt(RookCheckBoard(), WHITE, Position(4, 8), Position(4, 4))
  {
    var g := RookCheckBoard();
    var king := Position(4, 8);
    var rook := Position(4, 4);
    RayExactly(g, BLACK, rook, 0, 1, 1, Move(rook, king, None));
    assert ClearBetween(g, rook, 0, 1, 1, 4) by {
      assert Step(rook, 0, 1, 1) == Position(4, 5);
      assert Step(rook, 0, 1, 2) == Position(4, 6);
      assert Step(rook, 0, 1, 3) == Position(4, 7);
    }
    assert Step(rook, 0, 1, 4) == king;
    assert Reaches(g, BLACK, rook, 0, 1, 1, 4, king);
    assert Move(rook, king, None) in RookMoves(g, BLACK, rook);
    assert PieceMoves(g, Piece(BLACK, ROOK), rook) == RookMoves(g, BLACK, rook);
  }

  /** Every square of `RookCheckBoard` is quiet for the as-written WHITE scan towards h4. */
  lemma RookCheckBoardQuiet()
    ensures forall r, c :: 1 <= r <= 8 && 1 <= c <= 8 ==>
      QuietAsWritten(RookCheckBoard(), WHITE, Position(4, 8), Position(r, c))
  {
    forall r, c | 1 <= r <= 8 && 1 <= c <= 8
      ensures QuietAsWritten(RookCheckBoard(), WHITE, Position(4, 8), Position(r, c))
    {
      var p := Position(r, c);
      if p == Position(3, 4) || p == Position(5, 4) {
        QuietPawn(p);
      } else if p == Position(4, 4) {
        QuietRook();
      } else if p == Position(8, 1) {
        QuietKing();
      } else {
        assert At(RookCheckBoard(), p).None? || At(RookCheckBoard(), p).value.color == WHITE;
      }
    }
  }

  /** The black pawns on d3 and d5 move to rows 2 and 4 but never onto h4. */
  lemma QuietPawn(p: Position)
    requires p == Position(3, 4) || p == Position(5, 4)
    ensures QuietAsWritten(RookCheckBoard(), WHITE, Position(4, 8), p)
  {
    var g := RookCheckBoard();
    PawnAsWritten(g, BLACK, p);
    forall m | m in PawnMoves(g, BLACK, p) ensures m.end != Position(4, 8) {
      PawnMovesExactly(g, BLACK, p, m);
    }
  }

  /** The as-written rook on d4 stays on its file, where its own pawns block it. */
  lemma QuietRook()
    ensures QuietAsWritten(RookCheckBoard(), WHITE, Position(4, 8), Position(4, 4))
  {
    var g := RookCheckBoard();
    var pos := Position(4, 4);
    assert At(g, Position(5, 4)) == Some(Piece(BLACK, PAWN));
    assert At(g, Position(3, 4)) == Some(Piece(BLACK, PAWN));
    assert RookRayAsWritten(g, BLACK, pos, 1, 1) == Success([]);
    assert RookRayAsWritten(g, BLACK, pos, -1, 1) == Success([]);
    assert PieceMovesAsWritten(g, Piece(BLACK, ROOK), pos) == RookMovesAsWritten(g, BLACK, pos);
    RookAsWritten(g, BLACK, pos);
  }

  /** The black king on a8 only reaches its neighbours. */
  lemma QuietKing()
    ensures QuietAsWritten(RookCheckBoard(), WHITE, Position(4, 8), Position(8, 1))
  {
    var g := RookCheckBoard();
    forall m | m in KingMoves(g, BLACK, Position(8, 1)) ensures m.end != Position(4, 8) {
      KingMovesExactly(g, BLACK, Position(8, 1), m);
    }
  }

  // ---------------------------------------------------------------- validMoves

  /** The copy of `g` on which `piece` has moved along `m`: the end square gets the piece,
      the start square is emptied, and promotion is never applied. */
  function Simulate(g: Grid, m: Move, piece: Piece): Grid {
    Put(Put(g, m.end, Some(piece)), m.start, None)
  }

  /** The loop of `validMoves` over the pseudo-moves `ms`, in order: keeps each move after
      which the mover is not in check, and fails as soon as a check test fails. */
  function KeepLegal(g: Grid, piece: Piece, ms: seq<Move>): Result<seq<Move>, GameError> {
    if |ms| == 0 then Success([])
    else
      var front :- KeepLegal(g, piece, ms[..|ms| - 1]);
      var m := ms[|ms| - 1];
      var check :- IsInCheck(Simulate(g, m, piece), piece.color);
      Success(if check then front else front + [m])
  }

  /** `validMoves`: None (Java's null) for an empty square, otherwise the legal moves. */
  function ValidMoves(g: Grid, pos: Position): Result<Option<seq<Move>>, GameError> {
    match At(g, pos)
    case None => Success(None)
    case Some(piece) =>
      var legal :- KeepLegal(g, piece, PieceMoves(g, piece, pos));
      Success(Some(legal))
  }

  /** The filter fails exactly when a check test on a simulated board fails. */
  lemma {:induction false} KeepLegalDefined(g: Grid, piece: Piece, ms: seq<Move>)
    ensures KeepLegal(g, piece, ms).Success? <==>
      forall m :: m in ms ==> IsInCheck(Simulate(g, m, piece), piece.color).Success?
  {
    if |ms| > 0 {
      var front, last := ms[..|ms| - 1], ms[|ms| - 1];
      KeepLegalDefined(g, piece, front);
      assert ms == front + [last];
      assert forall m :: m in ms <==> m in front || m == last;
      if KeepLegal(g, piece, front).Success? {
        assert ms[..|ms| - 1] == front;
        KeepLegalStep(g, piece, ms, |ms| - 1, KeepLegal(g, piece, front).value);
        assert ms[..|ms|] == ms;
      }
    }
  }

  /** When it does not fail, the filter keeps exactly the moves after which the mover is
      not in check. */
  lemma {:induction false} KeepLegalKeeps(g: Grid, piece: Piece, ms: seq<Move>)
    requires KeepLegal(g, piece, ms).Success?
    ensures forall m :: m in KeepLegal(g, piece, ms).value <==>
      m in ms && IsInCheck(Simulate(g, m, piece), piece.color) == Success(false)
  {
    if |ms| > 0 {
      var front, last := ms[..|ms| - 1], ms[|ms| - 1];
      assert KeepLegal(g, piece, front).Success?;
      KeepLegalKeeps(g, piece, front);
      assert ms == front + [last];
      assert forall m :: m in ms <==> m in front || m == last;
    }
  }

  /** The filter fails exactly when a check test on a simulated board fails, and otherwise
      keeps exactly the moves after which the mover is not in check. */
  lemma KeepLegalExactly(g: Grid, piece: Piece, ms: seq<Move>)
    ensures KeepLegal(g, piece, ms).Success? <==>
      forall m :: m in ms ==> IsInCheck(Simulate(g, m, piece), piece.color).Success?
    ensures KeepLegal(g, piece, ms).Success? ==>
      forall m :: m in KeepLegal(g, piece, ms).value <==>
        m in ms && IsInCheck(Simulate(g, m, piece), piece.color) == Success(false)
  {
    KeepLegalDefined(g, piece, ms);
    if KeepLegal(g, piece, ms).Success? {
      KeepLegalKeeps(g, piece, ms);
    }
  }

  /** One more pseudo-move through the filter: its check test either fails the filter or
      decides whether the move is appended. */
  lemma KeepLegalStep(g: Grid, piece: Piece, ms: seq<Move>, i: int, kept: seq<Move>)
    requires 0 <= i < |ms| && KeepLegal(g, piece, ms[..i]) == Success(kept)
    ensures var check := IsInCheck(Simulate(g, ms[i], piece), piece.color);
      KeepLegal(g, piece, ms[..i + 1]) ==
        if check.Failure? then Failure(check.error)
        else if check.value then Success(kept) else Success(kept + [ms[i]])
  {
    assert ms[..i + 1][..i] == ms[..i];
  }

  /** Once the filter has failed on a prefix of the pseudo-moves, it fails on the whole
      list with the same error: the first failing check test ends `validMoves`. */
  lemma {:induction false} KeepLegalPrefixFails(g: Grid, piece: Piece, ms: seq<Move>, i: int)
    requires 0 <= i <= |ms| && KeepLegal(g, piece, ms[..i]).Failure?
    ensures KeepLegal(g, piece, ms) == KeepLegal(g, piece, ms[..i])
    decreases |ms|
  {
    if i < |ms| {
      var front := ms[..|ms| - 1];
      assert front[..i] == ms[..i];
      KeepLegalPrefixFails(g, piece, front, i);
    } else {
      assert ms[..i] == ms;
    }
  }

  /** `validMoves` of an occupied square keeps exactly the pseudo-moves after which, on the
      simulated copy, the mover's king is not in check; it never adds a move. */
  lemma ValidMovesExactly(g: Grid, pos: Position)
    requires ValidMoves(g, pos).Success? && At(g, pos).Some?
    ensures ValidMoves(g, pos).value.Some?
    ensures forall m :: m in ValidMoves(g, pos).value.value <==>
      m in PieceMoves(g, At(g, pos).value, pos) &&
      IsInCheck(Simulate(g, m, At(g, pos).value), At(g, pos).value.color) == Success(false)
  {
    KeepLegalExactly(g, At(g, pos).value, PieceMoves(g, At(g, pos).value, pos));
  }

  /** Every legal move is a generated move: it starts on `pos`, carries no promotion, and
      ends on another square of the board that holds no piece of the mover's colour. */
  lemma ValidMovesGenerated(g: Grid, pos: Position)
    requires ValidMoves(g, pos).Success? && At(g, pos).Some?
    ensures ValidMoves(g, pos).value.Some?
    ensures Generated(g, At(g, pos).value.color, pos, ValidMoves(g, pos).value.value)
  {
    ValidMovesExactly(g, pos);
    PieceMovesGenerated(g, At(g, pos).value, pos);
  }

  /** Moving a piece of `color` leaves a king of `color` on the board when there was one. */
  lemma SimulateKeepsKing(g: Grid, piece: Piece, pos: Position, m: Move)
    requires At(g, pos) == Some(piece) && m in PieceMoves(g, piece, pos)
    requires FindKing(g, piece.color).Some?
    ensures FindKing(Simulate(g, m, piece), piece.color).Some?
  {
    PieceMovesGenerated(g, piece, pos);
    FindKingExactly(g, piece.color);
    var h := Simulate(g, m, piece);
    FindKingExactly(h, piece.color);
    if piece.kind == KING {
      assert At(h, Position(m.end.row, m.end.col)) == Some(Piece(piece.color, KING));
    } else {
      var k := FindKing(g, piece.color).value;
      assert At(h, Position(k.row, k.col)) == Some(Piece(piece.color, KING));
    }
  }

  /** While the mover's side has a king, `validMoves` never fails. */
  lemma ValidMovesDefined(g: Grid, pos: Position)
    requires At(g, pos).Some? && FindKing(g, At(g, pos).value.color).Some?
    ensures ValidMoves(g, pos).Success? && ValidMoves(g, pos).value.Some?
  {
    var piece := At(g, pos).value;
    forall m | m in PieceMoves(g, piece, pos)
      ensures IsInCheck(Simulate(g, m, piece), piece.color).Success?
    {
      SimulateKeepsKing(g, piece, pos, m);
    }
    KeepLegalExactly(g, piece, PieceMoves(g, piece, pos));
  }

  /** While the mover has a king, the check test after any of its legal moves is defined. */
  lemma ValidMoveKeepsKing(g: Grid, pos: Position, m: Move)
    requires At(g, pos).Some? && FindKing(g, At(g, pos).value.color).Some?
    requires ValidMoves(g, pos).Success? && ValidMoves(g, pos).value.Some?
    requires m in ValidMoves(g, pos).value.value
    ensures IsInCheck(Simulate(g, m, At(g, pos).value), At(g, pos).value.color).Success?
  {
    ValidMovesExactly(g, pos);
    SimulateKeepsKing(g, At(g, pos).value, pos, m);
  }

  // ---------------------------------------------------------------- makeMove

  /** `makeMove`: rejects a move from an empty square, by the side not to move, or not among
      the legal moves; otherwise moves the piece (a pawn with a promotion type becomes that
      type), empties the start square and passes the turn. */
  function MakeMove(s: GameState, move: Move): Result<GameState, GameError> {
    var piece := At(s.board, move.start);
    if piece.None? || piece.value.color != s.turn then Failure(InvalidMove)
    else
      var valid :- ValidMoves(s.board, move.start);
      if valid.None? || move !in valid.value then Failure(InvalidMove)
      else
        var newPiece :=
          if piece.value.kind == PAWN && move.promotion.Some? then Piece(piece.value.color, move.promotion.value)
          else piece.value;
        var board := Put(Put(s.board, move.end, Some(newPiece)), move.start, None);
        Success(GameState(board, if s.turn == WHITE then BLACK else WHITE, s.gameOver))
  }

  /** A move is accepted exactly when the start square holds a piece of the side to move and
      the move is among that square's legal moves; a failed check test is the only other error. */
  lemma MakeMoveAccepts(s: GameState, move: Move)
    ensures MakeMove(s, move).Success? <==>
      At(s.board, move.start).Some? && At(s.board, move.start).value.color == s.turn &&
      ValidMoves(s.board, move.start).Success? && move in ValidMoves(s.board, move.start).value.value
    ensures MakeMove(s, move).Failure? ==>
      MakeMove(s, move).error == InvalidMove ||
      (MakeMove(s, move).error == KingNotFound && FindKing(s.board, s.turn).None?)
  {
    if At(s.board, move.start).Some? && At(s.board, move.start).value.color == s.turn {
      if FindKing(s.board, s.turn).Some? {
        ValidMovesDefined(s.board, move.start);
      }
    }
  }

  /** A successful move carries no promotion (none is ever generated), so the promotion
      branch is never taken: the new board is exactly the simulated one, the turn passes
      to the other side, and the game-over flag is kept. */
  lemma MakeMoveEffect(s: GameState, move: Move)
    requires MakeMove(s, move).Success?
    ensures move.promotion == None
    ensures MakeMove(s, move).value ==
      GameState(Simulate(s.board, move, At(s.board, move.start).value), Other(s.turn), s.gameOver)
  {
    ValidMovesGenerated(s.board, move.start);
  }

  /** After a successful move the mover is not in check. */
  lemma MakeMoveNoSelfCheck(s: GameState, move: Move)
    requires MakeMove(s, move).Success?
    ensures IsInCheck(MakeMove(s, move).value.board, s.turn) == Success(false)
  {
    ValidMovesExactly(s.board, move.start);
    MakeMoveEffect(s, move);
  }

  // ---------------------------------------------------------------- checkmate and stalemate

  /** The square `p` holds a piece of `color` whose list of legal moves is not empty. */
  predicate OwnsLegalMove(g: Grid, color: TeamColor, p: Position) {
    At(g, p).Some? && At(g, p).value.color == color &&
    ValidMoves(g, p).Success? && ValidMoves(g, p).value.Some? && |ValidMoves(g, p).value.value| > 0
  }

  /** The row-major scan of `isInStalemate` from square (row, col) on: does a piece of
      `color` there or on a later square have a non-empty list of legal moves? */
  predicate LegalMoveFrom(g: Grid, color: TeamColor, row: int, col: int)
    requires 1 <= row <= 9 && 1 <= col <= 9
    decreases 9 - row, 9 - col
  {
    if row > 8 then false
    else if col > 8 then LegalMoveFrom(g, color, row + 1, 1)
    else OwnsLegalMove(g, color, Position(row, col)) || LegalMoveFrom(g, color, row, col + 1)
  }

  /** Some piece of `color` on the board has a non-empty list of legal moves. */
  predicate HasLegalMove(g: Grid, color: TeamColor) {
    LegalMoveFrom(g, color, 1, 1)
  }

  lemma {:induction false} LegalMoveFromExactly(g: Grid, color: TeamColor, row: int, col: int)
    requires 1 <= row <= 9 && 1 <= col <= 9
    decreases 9 - row, 9 - col
    ensures LegalMoveFrom(g, color, row, col) <==>
      exists r, c | 1 <= r <= 8 && 1 <= c <= 8 && !Before(r, c, row, col) :: OwnsLegalMove(g, color, Position(r, c))
  {
    if row <= 8 {
      if col > 8 {
        LegalMoveFromExactly(g, color, row + 1, 1);
        assert forall r, c :: 1 <= c <= 8 ==> (!Before(r, c, row, col) <==> !Before(r, c, row + 1, 1));
      } else {
        LegalMoveFromExactly(g, color, row, col + 1);
        assert forall r, c :: !Before(r, c, row, col) <==> (r == row && c == col) || !Before(r, c, row, col + 1);
      }
    }
  }

  /** The replay loop of `isInCheckmate` over `ms`: does some move, made on a copy, leave
      the mover's king out of check? */
  predicate SomeMoveSafe(g: Grid, piece: Piece, ms: seq<Move>)
    decreases |ms|
  {
    |ms| > 0 &&
    (SomeMoveSafe(g, piece, ms[..|ms| - 1]) ||
     IsInCheck(Simulate(g, ms[|ms| - 1], piece), piece.color) == Success(false))
  }

  lemma {:induction false} SomeMoveSafeExactly(g: Grid, piece: Piece, ms: seq<Move>)
    decreases |ms|
    ensures SomeMoveSafe(g, piece, ms) <==>
      exists m :: m in ms && IsInCheck(Simulate(g, m, piece), piece.color) == Success(false)
  {
    if |ms| > 0 {
      var front, last := ms[..|ms| - 1], ms[|ms| - 1];
      SomeMoveSafeExactly(g, piece, front);
      assert ms == front + [last];
      assert forall m :: m in ms <==> m in front || m == last;
    }
  }

  /** A safe move found in a prefix is a safe move of the whole list. */
  lemma {:induction false} SomeMoveSafePrefix(g: Grid, piece: Piece, ms: seq<Move>, i: int)
    requires 0 <= i <= |ms| && SomeMoveSafe(g, piece, ms[..i])
    ensures SomeMoveSafe(g, piece, ms)
    decreases |ms|
  {
    if i < |ms| {
      var front := ms[..|ms| - 1];
      assert front[..i] == ms[..i];
      SomeMoveSafePrefix(g, piece, front, i);
    } else {
      assert ms[..i] == ms;
    }
  }

  /** `isInCheckmate`: in check and no legal move. */
  function IsInCheckmate(g: Grid, color: TeamColor): Result<bool, GameError> {
    var check :- IsInCheck(g, color);
    Success(check && !HasLegalMove(g, color))
  }

  /** `isInStalemate`: not in check and no legal move. */
  function IsInStalemate(g: Grid, color: TeamColor): Result<bool, GameError> {
    var check :- IsInCheck(g, color);
    Success(!check && !HasLegalMove(g, color))
  }

  /** When `color` has a king, every own piece's legal-move list is defined, so "no legal
      move" means every own piece's list is empty; checkmate and stalemate are then never
      both true, and exactly one of checkmate, stalemate, or "has a legal move" holds. */
  lemma MateAndStalemate(g: Grid, color: TeamColor)
    ensures IsInCheckmate(g, color).Success? <==> FindKing(g, color).Some?
    ensures IsInStalemate(g, color).Success? <==> FindKing(g, color).Some?
    ensures !(IsInCheckmate(g, color) == Success(true) && IsInStalemate(g, color) == Success(true))
    ensures FindKing(g, color).Some? ==>
      (IsInCheckmate(g, color) == Success(true) || IsInStalemate(g, color) == Success(true) <==>
       forall r, c ::
         (1 <= r <= 8 && 1 <= c <= 8 && At(g, Position(r, c)).Some? && At(g, Position(r, c)).value.color == color) ==>
           ValidMoves(g, Position(r, c)) == Success(Some([])))
  {
    LegalMoveFromExactly(g, color, 1, 1);
    if FindKing(g, color).Some? {
      forall r, c | 1 <= r <= 8 && 1 <= c <= 8 && At(g, Position(r, c)).Some? && At(g, Position(r, c)).value.color == color
        ensures ValidMoves(g, Position(r, c)).Success? && ValidMoves(g, Position(r, c)).value.Some?
      {
        ValidMovesDefined(g, Position(r, c));
      }
    }
  }
}
