/** chess.ChessBoard: an 8x8 grid of optional pieces with place and lookup operations. */
module ChessBoard {
  import opened Wrappers
  import opened ChessPosition
  import opened ChessPiece

  /** The abstract contents of a board: the occupied squares and their pieces. */
  type Grid = map<Position, Piece>

  /** The piece on square `p`, or None (Java's null) when it is empty. */
  function At(g: Grid, p: Position): Option<Piece> {
    if p in g then Some(g[p]) else None
  }

  /** The grid after writing `x` on square `p` (None empties the square). */
  function Put(g: Grid, p: Position, x: Option<Piece>): (r: Grid)
    ensures At(r, p) == x
    ensures forall q :: q != p ==> At(r, q) == At(g, q)
  {
    if x.Some? then g[p := x.value] else g - {p}
  }

  /** Only squares of the board are ever occupied. */
  ghost predicate WellFormed(g: Grid) {
    forall p :: p in g ==> OnBoard(p)
  }

  lemma PutWellFormed(g: Grid, p: Position, x: Option<Piece>)
    requires WellFormed(g) && OnBoard(p)
    ensures WellFormed(Put(g, p, x))
  {
  }

  /** Two well-formed grids that agree on every square of the board are equal. */
  lemma GridExtensionality(g: Grid, h: Grid)
    requires WellFormed(g) && WellFormed(h)
    requires forall r, c :: 1 <= r <= 8 && 1 <= c <= 8 ==> At(g, Position(r, c)) == At(h, Position(r, c))
    ensures g == h
  {
    forall p | p in g
      ensures p in h && h[p] == g[p]
    {
      assert At(g, Position(p.row, p.col)) == At(h, Position(p.row, p.col));
    }
    forall p | p in h
      ensures p in g
    {
      assert At(g, Position(p.row, p.col)) == At(h, Position(p.row, p.col));
    }
  }

  function AllSquares(): set<Position> {
    set r, c | 1 <= r <= 8 && 1 <= c <= 8 :: Position(r, c)
  }

  /** The piece type on column `col` of the first and last rows: R N B Q K B N R. */
  function BackRank(col: int): PieceType {
    if col == 1 || col == 8 then ROOK
    else if col == 2 || col == 7 then KNIGHT
    else if col == 3 || col == 6 then BISHOP
    else if col == 4 then QUEEN
    else KING
  }

  /** What `resetBoard` puts on square `p`. */
  function StartingPiece(p: Position): Option<Piece> {
    if !OnBoard(p) then None
    else if p.row == 1 then Some(Piece(WHITE, BackRank(p.col)))
    else if p.row == 2 then Some(Piece(WHITE, PAWN))
    else if p.row == 7 then Some(Piece(BLACK, PAWN))
    else if p.row == 8 then Some(Piece(BLACK, BackRank(p.col)))
    else None
  }

  /** The standard starting position. */
  function StartGrid(): (g: Grid)
    ensures forall p :: At(g, p) == StartingPiece(p)
  {
    var g := map p | p in AllSquares() && StartingPiece(p).Some? :: StartingPiece(p).value;
    assert forall p :: At(g, p) == StartingPiece(p) by {
      forall p ensures At(g, p) == StartingPiece(p) {
        if OnBoard(p) {
          assert p == Position(p.row, p.col);
        }
      }
    }
    g
  }

  /** The starting position: rows 3-6 empty, white pawns on row 2, black pawns on row 7,
      R N B Q K B N R on rows 1 and 8, and exactly one king per side, on column 5. */
  lemma StartGridLayout()
    ensures WellFormed(StartGrid())
    ensures forall r, c :: 3 <= r <= 6 && 1 <= c <= 8 ==> At(StartGrid(), Position(r, c)) == None
    ensures forall c :: 1 <= c <= 8 ==>
      At(StartGrid(), Position(2, c)) == Some(Piece(WHITE, PAWN)) &&
      At(StartGrid(), Position(7, c)) == Some(Piece(BLACK, PAWN))
    ensures forall c :: 1 <= c <= 8 ==>
      At(StartGrid(), Position(1, c)) == Some(Piece(WHITE, [ROOK, KNIGHT, BISHOP, QUEEN, KING, BISHOP, KNIGHT, ROOK][c - 1])) &&
      At(StartGrid(), Position(8, c)) == Some(Piece(BLACK, [ROOK, KNIGHT, BISHOP, QUEEN, KING, BISHOP, KNIGHT, ROOK][c - 1]))
    ensures forall color, p :: At(StartGrid(), p) == Some(Piece(color, KING)) <==>
      p == Position(if color == WHITE then 1 else 8, 5)
  {
    forall p | p in StartGrid() ensures OnBoard(p) {
      assert At(StartGrid(), p) == StartingPiece(p);
    }
  }

  /** `isPositionValid(row, col)`: both coordinates in 1..8. */
  function IsPositionValid(row: int, col: int): (r: bool)
    ensures r <==> OnBoard(Position(row, col))
  {
    row >= 1 && row <= 8 && col >= 1 && col <= 8
  }

  /** The private 0-based `isValidPosition(row, col)`. */
  function IsValidIndex(row: int, col: int): bool {
    row >= 0 && row < 8 && col >= 0 && col < 8
  }

  /** The mutable board: `ChessPiece[8][8] board`, with `grid` its abstract contents. */
  class Board {
    var cells: array2<Option<Piece>>
    ghost var grid: Grid

    ghost predicate Valid()
      reads this, cells
    {
      cells.Length0 == 8 && cells.Length1 == 8 && WellFormed(grid) &&
      forall r, c :: 0 <= r < 8 && 0 <= c < 8 ==> cells[r, c] == At(grid, Position(r + 1, c + 1))
    }

    /** `new ChessBoard()`: a fresh array set up by `resetBoard`. */
    constructor ()
      ensures Valid() && fresh(cells) && grid == StartGrid()
    {
      cells := new Option<Piece>[8, 8]((r, c) => None);
      grid := map[];
      new;
      ResetBoard();
    }

    /** `new ChessBoard(board)`, which ChessBoard.java does not declare: a deep copy
        of the other board's grid into a fresh array. */
    constructor Copy(other: Board)
      requires other.Valid()
      ensures Valid() && fresh(cells) && grid == other.grid
    {
      cells := new Option<Piece>[8, 8]((r, c) reads other, other.cells =>
        if 0 <= r < other.cells.Length0 && 0 <= c < other.cells.Length1 then other.cells[r, c] else None);
      grid := other.grid;
    }

    /** `addPiece`: writes only square (row-1, col-1); a position off the board is the
        IllegalArgumentException, reported as `ok == false` with nothing changed. */
    method AddPiece(p: Position, x: Option<Piece>) returns (ok: bool)
      requires Valid()
      modifies this, cells
      ensures Valid() && cells == old(cells)
      ensures ok <==> OnBoard(p)
      ensures grid == if ok then Put(old(grid), p, x) else old(grid)
    {
      var row, col := p.row - 1, p.col - 1;
      if IsValidIndex(row, col) {
        cells[row, col] := x;
        PutWellFormed(grid, p, x);
        grid := Put(grid, p, x);
        ok := true;
      } else {
        ok := false;
      }
    }

    /** `getPiece`: the piece on `p`, null for an empty square or an index off the board. */
    function GetPiece(p: Position): (x: Option<Piece>)
      reads this, cells
      requires Valid()
      ensures x == At(grid, p)
      ensures !OnBoard(p) ==> x == None
    {
      var row, col := p.row - 1, p.col - 1;
      if IsValidIndex(row, col) then cells[row, col] else None
    }

    /** `resetBoard`: clears every square, then lays out the starting position. */
    method ResetBoard()
      requires cells.Length0 == 8 && cells.Length1 == 8
      modifies this, cells
      ensures Valid() && cells == old(cells) && grid == StartGrid()
    {
      for row := 0 to 8
        modifies cells
        invariant forall r, c :: 0 <= r < row && 0 <= c < 8 ==> cells[r, c] == None
      {
        for col := 0 to 8
          modifies cells
          invariant forall r, c :: 0 <= r < row && 0 <= c < 8 ==> cells[r, c] == None
          invariant forall c :: 0 <= c < col ==> cells[row, c] == None
        {
          cells[row, col] := None;
        }
      }

      for col := 0 to 8
        modifies cells
        invariant forall r, c :: 0 <= r < 8 && 0 <= c < 8 ==>
          cells[r, c] == (if r == 1 && c < col then Some(Piece(WHITE, PAWN))
                          else if r == 6 && c < col then Some(Piece(BLACK, PAWN))
                          else None)
      {
        cells[1, col] := Some(Piece(WHITE, PAWN));
        cells[6, col] := Some(Piece(BLACK, PAWN));
      }

      PlaceBackRank(0, WHITE);
      PlaceBackRank(7, BLACK);
      forall r, c | 0 <= r < 8 && 0 <= c < 8
        ensures cells[r, c] == StartingPiece(Position(r + 1, c + 1))
      {
      }
      grid := StartGrid();
      StartGridLayout();
    }

    /** The eight major pieces of `color` on 0-based row `row`: R N B Q K B N R. */
    method PlaceBackRank(row: int, color: TeamColor)
      requires cells.Length0 == 8 && cells.Length1 == 8 && 0 <= row < 8
      modifies cells
      ensures forall r, c :: 0 <= r < 8 && 0 <= c < 8 ==>
        cells[r, c] == if r == row then Some(Piece(color, BackRank(c + 1))) else old(cells[r, c])
    {
      cells[row, 0] := Some(Piece(color, ROOK));
      cells[row, 1] := Some(Piece(color, KNIGHT));
      cells[row, 2] := Some(Piece(color, BISHOP));
      cells[row, 3] := Some(Piece(color, QUEEN));
      cells[row, 4] := Some(Piece(color, KING));
      cells[row, 5] := Some(Piece(color, BISHOP));
      cells[row, 6] := Some(Piece(color, KNIGHT));
      cells[row, 7] := Some(Piece(color, ROOK));
    }

    /** `equals`: cell-by-cell piece equality, which is equality of the grids. */
    method Equals(other: Board) returns (eq: bool)
      requires Valid() && other.Valid()
      ensures eq <==> grid == other.grid
    {
      for row := 0 to 8
        invariant forall r, c :: 0 <= r < row && 0 <= c < 8 ==> cells[r, c] == other.cells[r, c]
      {
        for col := 0 to 8
          invariant forall r, c :: 0 <= r < row && 0 <= c < 8 ==> cells[r, c] == other.cells[r, c]
          invariant forall c :: 0 <= c < col ==> cells[row, c] == other.cells[row, c]
        {
          if cells[row, col] != other.cells[row, col] {
            assert At(grid, Position(row + 1, col + 1)) != At(other.grid, Position(row + 1, col + 1));
            return false;
          }
        }
      }
      forall r, c | 1 <= r <= 8 && 1 <= c <= 8
        ensures At(grid, Position(r, c)) == At(other.grid, Position(r, c))
      {
        assert cells[r - 1, c - 1] == other.cells[r - 1, c - 1];
      }
      GridExtensionality(grid, other.grid);
      return true;
    }
  }
}
