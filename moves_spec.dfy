/** chess.ChessPiece.pieceMoves: the pseudo-legal moves of a piece, as functions of the board's
    contents. `PieceMoves` is the generator with every square checked before it is built;
    `PieceMovesAsWritten` is the generator exactly as the Java code builds squares. */
module MoveRules {
  import opened Wrappers
  import opened ChessPosition
  import opened ChessPiece
  import opened ChessMove
  import opened ChessBoard

  /** Square `p` holds a piece of `color`. */
  predicate Friendly(g: Grid, color: TeamColor, p: Position) {
    At(g, p).Some? && At(g, p).value.color == color
  }

  /** Square `p` holds a piece of the other side. */
  predicate Enemy(g: Grid, color: TeamColor, p: Position) {
    At(g, p).Some? && At(g, p).value.color != color
  }

  /** What every generated move of a `color` piece on `pos` satisfies: it starts at `pos`,
      carries no promotion, ends on the board away from `pos`, and never on a friendly piece. */
  ghost predicate Generated(g: Grid, color: TeamColor, pos: Position, ms: seq<Move>) {
    forall m :: m in ms ==>
      m.start == pos && m.promotion == None && OnBoard(m.end) && m.end != pos && !Friendly(g, color, m.end)
  }

  // ---------------------------------------------------------------- pawn

  /** A white pawn moves up the board (+1), a black pawn down (-1). */
  function Direction(color: TeamColor): int {
    if color == WHITE then 1 else -1
  }

  /** The row from which a pawn may advance two squares. */
  function StartRow(color: TeamColor): int {
    if color == WHITE then 2 else 7
  }

  /** One step forward onto an empty square, then a second from the start row. */
  function PawnForward(g: Grid, color: TeamColor, pos: Position): seq<Move> {
    var one := Position(pos.row + Direction(color), pos.col);
    if OnBoard(one) && At(g, one).None? then
      var two := Position(pos.row + 2 * Direction(color), pos.col);
      [Move(pos, one, None)] +
      (if pos.row == StartRow(color) && At(g, two).None? then [Move(pos, two, None)] else [])
    else []
  }

  /** The diagonal capture towards column offset `colOffset`. */
  function PawnCapture(g: Grid, color: TeamColor, pos: Position, colOffset: int): seq<Move> {
    var target := Position(pos.row + Direction(color), pos.col + colOffset);
    if OnBoard(target) && Enemy(g, color, target) then [Move(pos, target, None)] else []
  }

  /** `addPawnMoves`: forward moves onto empty squares, the double step only from the start row
      across two empty squares, and diagonal moves only onto an enemy piece. */
  function PawnMoves(g: Grid, color: TeamColor, pos: Position): seq<Move> {
    PawnForward(g, color, pos) + PawnCapture(g, color, pos, -1) + PawnCapture(g, color, pos, 1)
  }

  /** A pawn moves exactly one square forward onto an empty square, two squares forward from
      its start row across two empty squares, or one square diagonally forward onto an enemy. */
  lemma PawnMovesExactly(g: Grid, color: TeamColor, pos: Position, m: Move)
    ensures m in PawnMoves(g, color, pos) <==>
      m.start == pos && m.promotion == None && OnBoard(m.end) &&
      ((m.end == Position(pos.row + Direction(color), pos.col) && At(g, m.end).None?) ||
       (m.end == Position(pos.row + 2 * Direction(color), pos.col) && pos.row == StartRow(color) &&
        At(g, Position(pos.row + Direction(color), pos.col)).None? && At(g, m.end).None?) ||
       ((m.end == Position(pos.row + Direction(color), pos.col - 1) ||
         m.end == Position(pos.row + Direction(color), pos.col + 1)) && Enemy(g, color, m.end)))
  {
  }

  // ---------------------------------------------------------------- sliding pieces

  /** `k * d` for a unit direction `d`, written without a product. */
  function Scale(k: int, d: int): int {
    if d == 0 then 0 else if d > 0 then k else -k
  }

  /** The `k`-th square from `pos` in direction (dr, dc): `pos + i * dir` in the source. */
  function Step(pos: Position, dr: int, dc: int, k: int): Position {
    Position(pos.row + Scale(k, dr), pos.col + Scale(k, dc))
  }

  predicate IsDirection(dr: int, dc: int) {
    -1 <= dr <= 1 && -1 <= dc <= 1 && (dr != 0 || dc != 0)
  }

  /** One ray of a sliding piece from step `i` on: empty squares are added and passed,
      the first occupied square ends the ray and is added only when it holds an enemy. */
  function Ray(g: Grid, color: TeamColor, pos: Position, dr: int, dc: int, i: int): seq<Move>
    requires 1 <= i && IsDirection(dr, dc)
    decreases 9 - i
  {
    if i > 8 then []
    else
      var target := Step(pos, dr, dc, i);
      if !OnBoard(target) then []
      else if At(g, target).None? then [Move(pos, target, None)] + Ray(g, color, pos, dr, dc, i + 1)
      else if At(g, target).value.color != color then [Move(pos, target, None)]
      else []
  }

  /** The squares from step `i` up to but excluding step `k` are on the board and empty. */
  ghost predicate ClearBetween(g: Grid, pos: Position, dr: int, dc: int, i: int, k: int) {
    forall j :: i <= j < k ==> OnBoard(Step(pos, dr, dc, j)) && At(g, Step(pos, dr, dc, j)).None?
  }

  /** Step `k`, counted from step `i`, ends a ray on square `e`: it lies within eight steps,
      on the board, holds no friendly piece, and every square before it is empty. */
  ghost predicate Reaches(g: Grid, color: TeamColor, pos: Position, dr: int, dc: int, i: int, k: int, e: Position) {
    i <= k <= 8 && e == Step(pos, dr, dc, k) && OnBoard(e) && !Friendly(g, color, e) && ClearBetween(g, pos, dr, dc, i, k)
  }

  lemma ReachesPastEmpty(g: Grid, color: TeamColor, pos: Position, dr: int, dc: int, i: int, k: int, e: Position)
    requires OnBoard(Step(pos, dr, dc, i)) && At(g, Step(pos, dr, dc, i)).None?
    ensures Reaches(g, color, pos, dr, dc, i, k, e) <==>
      (k == i && i <= 8 && e == Step(pos, dr, dc, i)) || Reaches(g, color, pos, dr, dc, i + 1, k, e)
  {
    if k > i && ClearBetween(g, pos, dr, dc, i + 1, k) {
      assert ClearBetween(g, pos, dr, dc, i, k);
    }
  }

  lemma ReachesStopped(g: Grid, color: TeamColor, pos: Position, dr: int, dc: int, i: int, k: int, e: Position)
    requires !(OnBoard(Step(pos, dr, dc, i)) && At(g, Step(pos, dr, dc, i)).None?)
    ensures Reaches(g, color, pos, dr, dc, i, k, e) <==>
      k == i && i <= 8 && e == Step(pos, dr, dc, i) && OnBoard(e) && !Friendly(g, color, e)
  {
    if k > i {
      assert !ClearBetween(g, pos, dr, dc, i, k) by {
        assert !(OnBoard(Step(pos, dr, dc, i)) && At(g, Step(pos, dr, dc, i)).None?);
      }
    }
  }

  /** A ray holds exactly the moves to a square it reaches: within eight steps, on the board,
      not friendly, and across empty squares only. */
  lemma {:induction false} RayExactly(g: Grid, color: TeamColor, pos: Position, dr: int, dc: int, i: int, m: Move)
    requires 1 <= i && IsDirection(dr, dc)
    decreases 9 - i
    ensures m in Ray(g, color, pos, dr, dc, i) <==>
      m.start == pos && m.promotion == None && exists k :: Reaches(g, color, pos, dr, dc, i, k, m.end)
  {
    if i <= 8 {
      var target := Step(pos, dr, dc, i);
      if OnBoard(target) && At(g, target).None? {
        RayExactly(g, color, pos, dr, dc, i + 1, m);
        assert Ray(g, color, pos, dr, dc, i) == [Move(pos, target, None)] + Ray(g, color, pos, dr, dc, i + 1);
        assert m in Ray(g, color, pos, dr, dc, i) <==>
          m == Move(pos, target, None) || m in Ray(g, color, pos, dr, dc, i + 1);
        forall k
          ensures Reaches(g, color, pos, dr, dc, i, k, m.end) <==>
            (k == i && m.end == target) || Reaches(g, color, pos, dr, dc, i + 1, k, m.end)
        {
          ReachesPastEmpty(g, color, pos, dr, dc, i, k, m.end);
        }
        if m.end == target {
          assert Reaches(g, color, pos, dr, dc, i, i, m.end);
        }
        var next := i + 1;
        if exists k :: Reaches(g, color, pos, dr, dc, next, k, m.end) {
          var k :| Reaches(g, color, pos, dr, dc, next, k, m.end);
          assert Reaches(g, color, pos, dr, dc, i, k, m.end);
        }
        if exists k :: Reaches(g, color, pos, dr, dc, i, k, m.end) {
          var k :| Reaches(g, color, pos, dr, dc, i, k, m.end);
          assert (k == i && m.end == target) || Reaches(g, color, pos, dr, dc, i + 1, k, m.end);
        }
      } else {
        forall k
          ensures Reaches(g, color, pos, dr, dc, i, k, m.end) <==>
            k == i && m.end == target && OnBoard(target) && !Friendly(g, color, target)
        {
          ReachesStopped(g, color, pos, dr, dc, i, k, m.end);
        }
        if m.end == target && OnBoard(target) && !Friendly(g, color, target) {
          assert Reaches(g, color, pos, dr, dc, i, i, m.end);
        }
      }
    }
  }

  /** The rook rays, along the column and along the row, in each direction. */
  function RookPair(g: Grid, color: TeamColor, pos: Position, dir: int): seq<Move>
    requires dir == 1 || dir == -1
  {
    Ray(g, color, pos, dir, 0, 1) + Ray(g, color, pos, 0, dir, 1)
  }

  /** `addRookMoves` with its evidently intended four rays. */
  function RookMoves(g: Grid, color: TeamColor, pos: Position): seq<Move>
  {
    RookPair(g, color, pos, 1) + RookPair(g, color, pos, -1)
  }

  /** The two diagonal rays with row direction `rowDir`. */
  function BishopPair(g: Grid, color: TeamColor, pos: Position, rowDir: int): seq<Move>
    requires rowDir == 1 || rowDir == -1
  {
    Ray(g, color, pos, rowDir, 1, 1) + Ray(g, color, pos, rowDir, -1, 1)
  }

  /** `addBishopMoves`: the four diagonal rays. */
  function BishopMoves(g: Grid, color: TeamColor, pos: Position): seq<Move>
  {
    BishopPair(g, color, pos, 1) + BishopPair(g, color, pos, -1)
  }

  /** `addQueenMoves`: the bishop's moves followed by the rook's. */
  function QueenMoves(g: Grid, color: TeamColor, pos: Position): seq<Move>
  {
    BishopMoves(g, color, pos) + RookMoves(g, color, pos)
  }

  // ---------------------------------------------------------------- knight and king

  /** A jump by (dr, dc): kept when it lands on the board on a square without a friendly piece. */
  function Jump(g: Grid, color: TeamColor, pos: Position, dr: int, dc: int): seq<Move>
    requires dr != 0 || dc != 0
  {
    var target := Position(pos.row + dr, pos.col + dc);
    if OnBoard(target) && !Friendly(g, color, target) then [Move(pos, target, None)] else []
  }

  /** The knight's eight L-shaped offsets, in the order the source lists them. */
  const KnightOffsets: seq<(int, int)> := [(2, 1), (2, -1), (-2, 1), (-2, -1), (1, 2), (1, -2), (-1, 2), (-1, -2)]

  /** The jumps for the first `n` knight offsets. */
  function KnightJumps(g: Grid, color: TeamColor, pos: Position, n: int): seq<Move>
    requires 0 <= n <= |KnightOffsets|
  {
    if n == 0 then []
    else KnightJumps(g, color, pos, n - 1) + Jump(g, color, pos, KnightOffsets[n - 1].0, KnightOffsets[n - 1].1)
  }

  /** `addKnightMoves`. */
  function KnightMoves(g: Grid, color: TeamColor, pos: Position): seq<Move>
  {
    KnightJumps(g, color, pos, |KnightOffsets|)
  }

  /** A king step by (dr, dc); (0, 0) is skipped. */
  function KingStep(g: Grid, color: TeamColor, pos: Position, dr: int, dc: int): seq<Move>
  {
    if dr == 0 && dc == 0 then [] else Jump(g, color, pos, dr, dc)
  }

  /** The king steps with row change `dr` and column change -1 .. n-2. */
  function KingRow(g: Grid, color: TeamColor, pos: Position, dr: int, n: int): seq<Move>
    requires 0 <= n <= 3
  {
    if n == 0 then [] else KingRow(g, color, pos, dr, n - 1) + KingStep(g, color, pos, dr, n - 2)
  }

  /** The king steps with row change -1 .. n-2. */
  function KingRows(g: Grid, color: TeamColor, pos: Position, n: int): seq<Move>
    requires 0 <= n <= 3
  {
    if n == 0 then [] else KingRows(g, color, pos, n - 1) + KingRow(g, color, pos, n - 2, 3)
  }

  /** `addKingMoves`. */
  function KingMoves(g: Grid, color: TeamColor, pos: Position): seq<Move>
  {
    KingRows(g, color, pos, 3)
  }

  // ---------------------------------------------------------------- dispatch

  /** `pieceMoves`: the pseudo-legal moves of `piece` standing on `pos`. */
  function PieceMoves(g: Grid, piece: Piece, pos: Position): seq<Move>
  {
    match piece.kind
    case PAWN => PawnMoves(g, piece.color, pos)
    case ROOK => RookMoves(g, piece.color, pos)
    case BISHOP => BishopMoves(g, piece.color, pos)
    case QUEEN => QueenMoves(g, piece.color, pos)
    case KNIGHT => KnightMoves(g, piece.color, pos)
    case KING => KingMoves(g, piece.color, pos)
  }

  // ---------------------------------------------------------------- knight and king characterised

  /** The first `n` knight jumps hold exactly the moves by one of the first `n` offsets that
      land on the board on a square without a friendly piece. */
  lemma {:induction false} KnightJumpsExactly(g: Grid, color: TeamColor, pos: Position, n: int, m: Move)
    requires 0 <= n <= |KnightOffsets|
    ensures m in KnightJumps(g, color, pos, n) <==>
      m.start == pos && m.promotion == None && OnBoard(m.end) && !Friendly(g, color, m.end) &&
      (m.end.row - pos.row, m.end.col - pos.col) in KnightOffsets[..n]
  {
    if n > 0 {
      KnightJumpsExactly(g, color, pos, n - 1, m);
      assert KnightOffsets[..n] == KnightOffsets[..n - 1] + [KnightOffsets[n - 1]];
    }
  }

  /** The knight moves exactly to the on-board, non-friendly squares an L-shape away. */
  lemma KnightMovesExactly(g: Grid, color: TeamColor, pos: Position, m: Move)
    ensures m in KnightMoves(g, color, pos) <==>
      m.start == pos && m.promotion == None && OnBoard(m.end) && !Friendly(g, color, m.end) &&
      var dr, dc := m.end.row - pos.row, m.end.col - pos.col;
      ((dr == 2 || dr == -2) && (dc == 1 || dc == -1)) || ((dr == 1 || dr == -1) && (dc == 2 || dc == -2))
  {
    KnightJumpsExactly(g, color, pos, |KnightOffsets|, m);
    assert KnightOffsets[..|KnightOffsets|] == KnightOffsets;
  }

  /** The king steps of one row hold exactly the moves by that row change and a column
      change in -1 .. n-2, other than (0, 0), onto the board and not onto a friendly piece. */
  lemma {:induction false} KingRowExactly(g: Grid, color: TeamColor, pos: Position, dr: int, n: int, m: Move)
    requires 0 <= n <= 3
    ensures m in KingRow(g, color, pos, dr, n) <==>
      m.start == pos && m.promotion == None && OnBoard(m.end) && !Friendly(g, color, m.end) &&
      m.end.row == pos.row + dr && -1 <= m.end.col - pos.col <= n - 2 && m.end != pos
  {
    if n > 0 {
      KingRowExactly(g, color, pos, dr, n - 1, m);
    }
  }

  lemma {:induction false} KingRowsExactly(g: Grid, color: TeamColor, pos: Position, n: int, m: Move)
    requires 0 <= n <= 3
    ensures m in KingRows(g, color, pos, n) <==>
      m.start == pos && m.promotion == None && OnBoard(m.end) && !Friendly(g, color, m.end) &&
      -1 <= m.end.row - pos.row <= n - 2 && -1 <= m.end.col - pos.col <= 1 && m.end != pos
  {
    if n > 0 {
      KingRowsExactly(g, color, pos, n - 1, m);
      KingRowExactly(g, color, pos, n - 2, 3, m);
    }
  }

  /** The king moves exactly to the on-board, non-friendly squares next to it. */
  lemma KingMovesExactly(g: Grid, color: TeamColor, pos: Position, m: Move)
    ensures m in KingMoves(g, color, pos) <==>
      m.start == pos && m.promotion == None && OnBoard(m.end) && !Friendly(g, color, m.end) &&
      -1 <= m.end.row - pos.row <= 1 && -1 <= m.end.col - pos.col <= 1 && m.end != pos
  {
    KingRowsExactly(g, color, pos, 3, m);
  }

  // ---------------------------------------------------------------- as written

  /** A diagonal pawn square as written: built before it is checked. */
  function PawnCaptureAsWritten(g: Grid, color: TeamColor, pos: Position, colOffset: int): Result<seq<Move>, PositionError> {
    var target :- NewPosition(pos.row + Direction(color), pos.col + colOffset);
    Success(if Enemy(g, color, target) then [Move(pos, target, None)] else [])
  }

  /** `addPawnMoves` as written: the one-step and diagonal squares are built with
      `new ChessPosition` before any bounds check, so one off the board aborts generation. */
  function PawnMovesAsWritten(g: Grid, color: TeamColor, pos: Position): Result<seq<Move>, PositionError>
    requires OnBoard(pos)
  {
    var one :- NewPosition(pos.row + Direction(color), pos.col);
    var forward :- (
      if At(g, one).None? then
        if pos.row == StartRow(color) then
          var two :- NewPosition(pos.row + 2 * Direction(color), pos.col);
          Success([Move(pos, one, None)] + (if At(g, two).None? then [Move(pos, two, None)] else []))
        else Success([Move(pos, one, None)])
      else Success([]));
    var left :- PawnCaptureAsWritten(g, color, pos, -1);
    var right :- PawnCaptureAsWritten(g, color, pos, 1);
    Success(forward + left + right)
  }

  /** One rook ray as written: only the row changes, and the square is built before the
      bounds check, so a ray that reaches the edge unblocked aborts generation. */
  function RookRayAsWritten(g: Grid, color: TeamColor, pos: Position, dir: int, i: int): Result<seq<Move>, PositionError>
    requires 1 <= i
    decreases 9 - i
  {
    if i > 8 then Success([])
    else
      var target :- NewPosition(pos.row + Scale(i, dir), pos.col);
      if !OnBoard(target) then Success([])
      else if At(g, target).None? then
        var rest :- RookRayAsWritten(g, color, pos, dir, i + 1);
        Success([Move(pos, target, None)] + rest)
      else if At(g, target).value.color != color then Success([Move(pos, target, None)])
      else Success([])
  }

  /** `addRookMoves` as written: up the column, then down it. */
  function RookMovesAsWritten(g: Grid, color: TeamColor, pos: Position): Result<seq<Move>, PositionError> {
    var up :- RookRayAsWritten(g, color, pos, 1, 1);
    var down :- RookRayAsWritten(g, color, pos, -1, 1);
    Success(up + down)
  }

  /** The first `n` knight jumps as written: each square is built before it is checked. */
  function KnightJumpsAsWritten(g: Grid, color: TeamColor, pos: Position, n: int): Result<seq<Move>, PositionError>
    requires 0 <= n <= |KnightOffsets|
  {
    if n == 0 then Success([])
    else
      var front :- KnightJumpsAsWritten(g, color, pos, n - 1);
      var target :- NewPosition(pos.row + KnightOffsets[n - 1].0, pos.col + KnightOffsets[n - 1].1);
      Success(front + (if OnBoard(target) && !Friendly(g, color, target) then [Move(pos, target, None)] else []))
  }

  /** `pieceMoves` as written; bishop and king check bounds before building a square and
      so agree with the corrected generator. */
  function PieceMovesAsWritten(g: Grid, piece: Piece, pos: Position): Result<seq<Move>, PositionError>
    requires OnBoard(pos)
  {
    match piece.kind
    case PAWN => PawnMovesAsWritten(g, piece.color, pos)
    case ROOK => RookMovesAsWritten(g, piece.color, pos)
    case BISHOP => Success(BishopMoves(g, piece.color, pos))
    case QUEEN =>
      var rook :- RookMovesAsWritten(g, piece.color, pos);
      Success(BishopMoves(g, piece.color, pos) + rook)
    case KNIGHT => KnightJumpsAsWritten(g, piece.color, pos, |KnightOffsets|)
    case KING => Success(KingMoves(g, piece.color, pos))
  }

  /** The as-written pawn generator fails exactly when the square ahead or a diagonal square
      is off the board (any pawn on column 1 or 8, or on its last row); otherwise it agrees. */
  lemma PawnAsWritten(g: Grid, color: TeamColor, pos: Position)
    requires OnBoard(pos)
    ensures PawnMovesAsWritten(g, color, pos).Success? <==>
      2 <= pos.col <= 7 && 1 <= pos.row + Direction(color) <= 8
    ensures PawnMovesAsWritten(g, color, pos).Success? ==>
      PawnMovesAsWritten(g, color, pos).value == PawnMoves(g, color, pos)
  {
  }

  /** Step `k`, counted from step `i`, is the first occupied square of a ray. */
  ghost predicate BlockedAt(g: Grid, pos: Position, dr: int, dc: int, i: int, k: int) {
    i <= k <= 8 && OnBoard(Step(pos, dr, dc, k)) && At(g, Step(pos, dr, dc, k)).Some? && ClearBetween(g, pos, dr, dc, i, k)
  }

  lemma BlockedPastEmpty(g: Grid, pos: Position, dr: int, dc: int, i: int, k: int)
    requires OnBoard(Step(pos, dr, dc, i)) && At(g, Step(pos, dr, dc, i)).None?
    ensures BlockedAt(g, pos, dr, dc, i, k) <==> BlockedAt(g, pos, dr, dc, i + 1, k)
  {
    if k > i && ClearBetween(g, pos, dr, dc, i + 1, k) {
      assert ClearBetween(g, pos, dr, dc, i, k);
    }
  }

  lemma BlockedOffBoard(g: Grid, pos: Position, dr: int, dc: int, i: int, k: int)
    requires !OnBoard(Step(pos, dr, dc, i))
    ensures !BlockedAt(g, pos, dr, dc, i, k)
  {
    if k > i {
      assert !ClearBetween(g, pos, dr, dc, i, k) by {
        assert !OnBoard(Step(pos, dr, dc, i));
      }
    }
  }

  /** The as-written rook ray succeeds exactly when a piece blocks it before the edge, and
      then it is the corrected vertical ray. */
  lemma {:induction false} RookRayAsWrittenExactly(g: Grid, color: TeamColor, pos: Position, dir: int, i: int)
    requires OnBoard(pos) && (dir == 1 || dir == -1) && 1 <= i <= 8
    decreases 9 - i
    ensures RookRayAsWritten(g, color, pos, dir, i).Success? <==> exists k :: BlockedAt(g, pos, dir, 0, i, k)
    ensures RookRayAsWritten(g, color, pos, dir, i).Success? ==>
      RookRayAsWritten(g, color, pos, dir, i).value == Ray(g, color, pos, dir, 0, i)
  {
    var target := Step(pos, dir, 0, i);
    if !OnBoard(target) {
      forall k ensures !BlockedAt(g, pos, dir, 0, i, k) {
        BlockedOffBoard(g, pos, dir, 0, i, k);
      }
    } else if At(g, target).None? {
      var next := i + 1;
      assert next <= 8;
      RookRayAsWrittenExactly(g, color, pos, dir, next);
      forall k ensures BlockedAt(g, pos, dir, 0, i, k) <==> BlockedAt(g, pos, dir, 0, next, k) {
        BlockedPastEmpty(g, pos, dir, 0, i, k);
      }
    } else {
      assert BlockedAt(g, pos, dir, 0, i, i);
    }
  }

  /** The square the `j`-th knight offset reaches from `pos`. */
  function KnightTarget(pos: Position, j: int): Position
    requires 0 <= j < |KnightOffsets|
  {
    Position(pos.row + KnightOffsets[j].0, pos.col + KnightOffsets[j].1)
  }

  /** One more as-written jump: it succeeds exactly when the earlier ones do and its own
      square is on the board, and then it appends the corrected jump. */
  lemma KnightJumpAsWrittenStep(g: Grid, color: TeamColor, pos: Position, n: int)
    requires 0 < n <= |KnightOffsets|
    requires KnightJumpsAsWritten(g, color, pos, n - 1).Success? ==>
      KnightJumpsAsWritten(g, color, pos, n - 1).value == KnightJumps(g, color, pos, n - 1)
    ensures KnightJumpsAsWritten(g, color, pos, n).Success? <==>
      KnightJumpsAsWritten(g, color, pos, n - 1).Success? && OnBoard(KnightTarget(pos, n - 1))
    ensures KnightJumpsAsWritten(g, color, pos, n).Success? ==>
      KnightJumpsAsWritten(g, color, pos, n).value == KnightJumps(g, color, pos, n)
  {
  }

  /** The first `n` as-written knight jumps succeed exactly when each of their squares is on
      the board, and then they are the corrected jumps. */
  lemma {:induction false} KnightJumpsAsWrittenExactly(g: Grid, color: TeamColor, pos: Position, n: int)
    requires 0 <= n <= |KnightOffsets|
    ensures KnightJumpsAsWritten(g, color, pos, n).Success? <==>
      forall j :: 0 <= j < n ==> OnBoard(KnightTarget(pos, j))
    ensures KnightJumpsAsWritten(g, color, pos, n).Success? ==>
      KnightJumpsAsWritten(g, color, pos, n).value == KnightJumps(g, color, pos, n)
  {
    if n > 0 {
      KnightJumpsAsWrittenExactly(g, color, pos, n - 1);
      KnightJumpAsWrittenStep(g, color, pos, n);
      assert (forall j :: 0 <= j < n ==> OnBoard(KnightTarget(pos, j))) <==>
        (forall j :: 0 <= j < n - 1 ==> OnBoard(KnightTarget(pos, j))) && OnBoard(KnightTarget(pos, n - 1));
    }
  }

  /** The as-written knight generator succeeds exactly on the sixteen centre squares,
      rows and columns 3 to 6, and there it agrees with the corrected one. */
  lemma KnightAsWritten(g: Grid, color: TeamColor, pos: Position)
    requires OnBoard(pos)
    ensures PieceMovesAsWritten(g, Piece(color, KNIGHT), pos).Success? <==>
      3 <= pos.row <= 6 && 3 <= pos.col <= 6
    ensures PieceMovesAsWritten(g, Piece(color, KNIGHT), pos).Success? ==>
      PieceMovesAsWritten(g, Piece(color, KNIGHT), pos).value == KnightMoves(g, color, pos)
  {
    KnightJumpsAsWrittenExactly(g, color, pos, |KnightOffsets|);
    if 3 <= pos.row <= 6 && 3 <= pos.col <= 6 {
    } else {
      var j := if pos.row <= 2 then 2 else if pos.row >= 7 then 0 else if pos.col <= 2 then 5 else 4;
      assert !OnBoard(KnightTarget(pos, j));
    }
  }

  /** The as-written rook generator, when it succeeds, moves only along the column, and
      fails exactly when one of its two vertical rays reaches the edge unblocked; a rook
      on the first or last row always fails. */
  lemma RookAsWritten(g: Grid, color: TeamColor, pos: Position)
    requires OnBoard(pos)
    ensures PieceMovesAsWritten(g, Piece(color, ROOK), pos).Success? ==>
      PieceMovesAsWritten(g, Piece(color, ROOK), pos).value == Ray(g, color, pos, 1, 0, 1) + Ray(g, color, pos, -1, 0, 1) &&
      forall m :: m in PieceMovesAsWritten(g, Piece(color, ROOK), pos).value ==> m.end.col == pos.col
    ensures pos.row == 1 || pos.row == 8 ==> PieceMovesAsWritten(g, Piece(color, ROOK), pos).Failure?
  {
    assert PieceMovesAsWritten(g, Piece(color, ROOK), pos) == RookMovesAsWritten(g, color, pos);
    assert ClearBetween(g, pos, 1, 0, 1, 1) && ClearBetween(g, pos, -1, 0, 1, 1);
    RookRayAsWrittenExactly(g, color, pos, 1, 1);
    RookRayAsWrittenExactly(g, color, pos, -1, 1);
    if pos.row == 8 {
      assert !OnBoard(Step(pos, 1, 0, 1));
    }
    if pos.row == 1 {
      assert !OnBoard(Step(pos, -1, 0, 1));
    }
    VerticalRaysKeepColumn(g, color, pos);
  }

  /** Both vertical rays stay in the rook's column. */
  lemma VerticalRaysKeepColumn(g: Grid, color: TeamColor, pos: Position)
    requires OnBoard(pos)
    ensures forall m :: m in Ray(g, color, pos, 1, 0, 1) + Ray(g, color, pos, -1, 0, 1) ==> m.end.col == pos.col
  {
    forall m | m in Ray(g, color, pos, 1, 0, 1) + Ray(g, color, pos, -1, 0, 1) ensures m.end.col == pos.col {
      if m in Ray(g, color, pos, 1, 0, 1) {
        RayExactly(g, color, pos, 1, 0, 1, m);
      } else {
        RayExactly(g, color, pos, -1, 0, 1, m);
      }
    }
  }

  /** Whenever the as-written generator succeeds, each of its moves is a corrected move,
      and for every piece but the rook and the queen it returns exactly the corrected list. */
  lemma AsWrittenWithinCorrected(g: Grid, piece: Piece, pos: Position)
    requires OnBoard(pos)
    ensures PieceMovesAsWritten(g, piece, pos).Success? ==>
      forall m :: m in PieceMovesAsWritten(g, piece, pos).value ==> m in PieceMoves(g, piece, pos)
    ensures PieceMovesAsWritten(g, piece, pos).Success? && piece.kind != ROOK && piece.kind != QUEEN ==>
      PieceMovesAsWritten(g, piece, pos).value == PieceMoves(g, piece, pos)
  {
    var color := piece.color;
    var r := PieceMovesAsWritten(g, piece, pos);
    if r.Success? {
      match piece.kind
      case PAWN =>
        assert r == PawnMovesAsWritten(g, color, pos) && PieceMoves(g, piece, pos) == PawnMoves(g, color, pos);
        PawnAsWritten(g, color, pos);
      case KNIGHT =>
        assert PieceMoves(g, piece, pos) == KnightMoves(g, color, pos);
        KnightAsWritten(g, color, pos);
      case ROOK =>
        assert r == RookMovesAsWritten(g, color, pos) && PieceMoves(g, piece, pos) == RookMoves(g, color, pos);
        RookAsWrittenWithin(g, color, pos);
      case QUEEN =>
        assert r.value == BishopMoves(g, color, pos) + RookMovesAsWritten(g, color, pos).value;
        assert PieceMoves(g, piece, pos) == BishopMoves(g, color, pos) + RookMoves(g, color, pos);
        RookAsWrittenWithin(g, color, pos);
      case BISHOP =>
      case KING =>
    }
  }

  lemma RookAsWrittenWithin(g: Grid, color: TeamColor, pos: Position)
    requires OnBoard(pos)
    ensures RookMovesAsWritten(g, color, pos).Success? ==>
      forall m :: m in RookMovesAsWritten(g, color, pos).value ==> m in RookMoves(g, color, pos)
  {
    RookAsWritten(g, color, pos);
    VerticalRaysWithinRook(g, color, pos);
  }

  lemma VerticalRaysWithinRook(g: Grid, color: TeamColor, pos: Position)
    ensures forall m :: m in Ray(g, color, pos, 1, 0, 1) + Ray(g, color, pos, -1, 0, 1) ==> m in RookMoves(g, color, pos)
  {
  }

  /** A board on which the as-written rook misses moves: a white rook on (4,4) between two
      white pawns on (3,4) and (5,4) gets no moves at all, while (4,5) along its row is free. */
  function RookBetweenPawns(): Grid {
    map[Position(4, 4) := Piece(WHITE, ROOK), Position(3, 4) := Piece(WHITE, PAWN), Position(5, 4) := Piece(WHITE, PAWN)]
  }

  lemma RookMissesRowMoves()
    ensures PieceMovesAsWritten(RookBetweenPawns(), Piece(WHITE, ROOK), Position(4, 4)) == Success([])
    ensures Move(Position(4, 4), Position(4, 5), None) in PieceMoves(RookBetweenPawns(), Piece(WHITE, ROOK), Position(4, 4))
  {
    var g := RookBetweenPawns();
    var pos := Position(4, 4);
    assert PieceMovesAsWritten(g, Piece(WHITE, ROOK), pos) == Success([]) by {
      assert At(g, Position(5, 4)) == Some(Piece(WHITE, PAWN));
      assert At(g, Position(3, 4)) == Some(Piece(WHITE, PAWN));
      assert RookRayAsWritten(g, WHITE, pos, 1, 1) == Success([]);
      assert RookRayAsWritten(g, WHITE, pos, -1, 1) == Success([]);
      var none: seq<Move> := [];
      assert RookMovesAsWritten(g, WHITE, pos) == Success(none + none);
      assert none + none == none;
    }
    assert Move(pos, Position(4, 5), None) in RookMoves(g, WHITE, pos) by {
      assert At(g, Position(4, 5)) == None;
      RayExactly(g, WHITE, pos, 0, 1, 1, Move(pos, Position(4, 5), None));
      assert ClearBetween(g, pos, 0, 1, 1, 1);
    }
  }

  /** On the starting board the as-written generator fails for both rooks and both knights
      of each side and for the pawns on columns 1 and 8. */
  lemma StartBoardAsWrittenFails(color: TeamColor)
    ensures var back := if color == WHITE then 1 else 8;
      PieceMovesAsWritten(StartGrid(), Piece(color, ROOK), Position(back, 1)).Failure? &&
      PieceMovesAsWritten(StartGrid(), Piece(color, ROOK), Position(back, 8)).Failure? &&
      PieceMovesAsWritten(StartGrid(), Piece(color, KNIGHT), Position(back, 2)).Failure? &&
      PieceMovesAsWritten(StartGrid(), Piece(color, KNIGHT), Position(back, 7)).Failure?
    ensures var pawns := if color == WHITE then 2 else 7;
      PieceMovesAsWritten(StartGrid(), Piece(color, PAWN), Position(pawns, 1)).Failure? &&
      PieceMovesAsWritten(StartGrid(), Piece(color, PAWN), Position(pawns, 8)).Failure?
  {
    var back := if color == WHITE then 1 else 8;
    var pawns := if color == WHITE then 2 else 7;
    RookAsWritten(StartGrid(), color, Position(back, 1));
    RookAsWritten(StartGrid(), color, Position(back, 8));
    KnightAsWritten(StartGrid(), color, Position(back, 2));
    KnightAsWritten(StartGrid(), color, Position(back, 7));
    PawnAsWritten(StartGrid(), color, Position(pawns, 1));
    PawnAsWritten(StartGrid(), color, Position(pawns, 8));
  }

  // ---------------------------------------------------------------- what every generator promises

  /** A step of a sliding piece never returns to its own square. */
  lemma StepMoves(pos: Position, dr: int, dc: int, k: int)
    requires 1 <= k && IsDirection(dr, dc)
    ensures Step(pos, dr, dc, k) != pos
  {
  }

  lemma RayGenerated(g: Grid, color: TeamColor, pos: Position, dr: int, dc: int)
    requires IsDirection(dr, dc)
    ensures Generated(g, color, pos, Ray(g, color, pos, dr, dc, 1))
  {
    forall m | m in Ray(g, color, pos, dr, dc, 1)
      ensures m.start == pos && m.promotion == None && OnBoard(m.end) && m.end != pos && !Friendly(g, color, m.end)
    {
      RayExactly(g, color, pos, dr, dc, 1, m);
      var k :| 1 <= k <= 8 && m.end == Step(pos, dr, dc, k) && OnBoard(m.end) &&
               !Friendly(g, color, m.end) && ClearBetween(g, pos, dr, dc, 1, k);
      StepMoves(pos, dr, dc, k);
    }
  }

  /** Every generated move starts on the piece's square, carries no promotion, and ends on
      another square of the board that holds no piece of the mover's colour. */
  lemma PieceMovesGenerated(g: Grid, piece: Piece, pos: Position)
    ensures Generated(g, piece.color, pos, PieceMoves(g, piece, pos))
  {
    var color := piece.color;
    var ms := PieceMoves(g, piece, pos);
    match piece.kind
    case PAWN =>
      forall m | m in ms
        ensures m.start == pos && m.promotion == None && OnBoard(m.end) && m.end != pos && !Friendly(g, color, m.end)
      {
        PawnMovesExactly(g, color, pos, m);
      }
    case KNIGHT =>
      forall m | m in ms
        ensures m.start == pos && m.promotion == None && OnBoard(m.end) && m.end != pos && !Friendly(g, color, m.end)
      {
        KnightMovesExactly(g, color, pos, m);
      }
    case KING =>
      forall m | m in ms
        ensures m.start == pos && m.promotion == None && OnBoard(m.end) && m.end != pos && !Friendly(g, color, m.end)
      {
        KingMovesExactly(g, color, pos, m);
      }
    case ROOK =>
      RayGenerated(g, color, pos, 1, 0);
      RayGenerated(g, color, pos, 0, 1);
      RayGenerated(g, color, pos, -1, 0);
      RayGenerated(g, color, pos, 0, -1);
    case BISHOP =>
      RayGenerated(g, color, pos, 1, 1);
      RayGenerated(g, color, pos, 1, -1);
      RayGenerated(g, color, pos, -1, 1);
      RayGenerated(g, color, pos, -1, -1);
    case QUEEN =>
      RayGenerated(g, color, pos, 1, 0);
      RayGenerated(g, color, pos, 0, 1);
      RayGenerated(g, color, pos, -1, 0);
      RayGenerated(g, color, pos, 0, -1);
      RayGenerated(g, color, pos, 1, 1);
      RayGenerated(g, color, pos, 1, -1);
      RayGenerated(g, color, pos, -1, 1);
      RayGenerated(g, color, pos, -1, -1);
  }
}
