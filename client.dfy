/** The parts of client.ChessClient that compute something: reading a square such as "e2",
    the move a `move` command sends, and the choice of a game by its listed index. */
module Client {
  import opened Wrappers
  import opened ChessPosition
  import opened ChessPiece
  import opened ChessMove
  import opened Model
  import opened Text

  /** Why `parsePosition` throws: the IllegalArgumentException for an input that is not two
      characters long, or the one the ChessPosition constructor throws. */
  datatype ParseError = InvalidLength | PositionRejected(error: PositionError)

  /** `parsePosition`: lower-cases the input, then reads the column from the letter
      (a = 1) and the row from the digit. */
  function ParsePosition(input: string): Result<Position, ParseError> {
    var lower := LowerCase(input);
    if |lower| != 2 then Failure(InvalidLength)
    else
      var col := lower[0] as int - 'a' as int + 1;
      var row := lower[1] as int - '0' as int;
      match NewPosition(row, col)
      case Failure(e) => Failure(PositionRejected(e))
      case Success(p) => Success(p)
  }

  /** The usual name of a square: its file letter and its rank digit. */
  function SquareName(p: Position): (s: string)
    requires OnBoard(p)
    ensures |s| == 2 && 'a' <= s[0] <= 'h' && '1' <= s[1] <= '8'
  {
    [('a' as int + p.col - 1) as char, ('0' as int + p.row) as char]
  }

  /** Exactly the two-character inputs whose letter is a..h in either case and whose digit is
      1..8 are read, as the square of that file and rank; any other length is rejected before
      the constructor is reached. */
  lemma ParsePositionExactly(input: string)
    ensures ParsePosition(input).Success? <==>
      |input| == 2 && 'a' <= ToLower(input[0]) <= 'h' && '1' <= input[1] <= '8'
    ensures ParsePosition(input).Success? ==>
      ParsePosition(input).value == Position(input[1] as int - '0' as int, ToLower(input[0]) as int - 'a' as int + 1)
    ensures |input| != 2 ==> ParsePosition(input) == Failure(InvalidLength)
    ensures |input| == 2 && ParsePosition(input).Failure? ==>
      ParsePosition(input) == Failure(PositionRejected(OutOfRange(ToLower(input[1]) as int - '0' as int,
                                                                  ToLower(input[0]) as int - 'a' as int + 1)))
  {
  }

  /** Reading the name of a square gives that square back. */
  lemma ParseSquareName(p: Position)
    requires OnBoard(p)
    ensures ParsePosition(SquareName(p)) == Success(p)
  {
  }

  /** A square that is read names itself: its name is the lower-cased input. */
  lemma ParsedNameRoundTrip(input: string)
    requires ParsePosition(input).Success?
    ensures SquareName(ParsePosition(input).value) == LowerCase(input)
  {
    var lower := LowerCase(input);
    assert SquareName(ParsePosition(input).value) == [lower[0], lower[1]];
  }

  /** Parsing ignores case: inputs equal up to case are read alike, so "E2" is "e2". */
  lemma ParseIgnoresCase(a: string, b: string)
    requires EqualsIgnoreCase(a, b)
    ensures ParsePosition(a) == ParsePosition(b)
  {
    EqualIgnoringCaseLowerEqual(a, b);
  }

  /** The corners, and a square named in capitals. */
  lemma ParseExamples()
    ensures ParsePosition("a1") == Success(Position(1, 1))
    ensures ParsePosition("h8") == Success(Position(8, 8))
    ensures ParsePosition("E2") == ParsePosition("e2") == Success(Position(2, 5))
  {
    ParsePositionExactly("a1");
    ParsePositionExactly("h8");
    ParsePositionExactly("E2");
    ParsePositionExactly("e2");
  }

  /** Squares off the board, and inputs of the wrong length. */
  lemma ParseRejects()
    ensures ParsePosition("i1") == Failure(PositionRejected(OutOfRange(1, 9)))
    ensures ParsePosition("a9") == Failure(PositionRejected(OutOfRange(9, 1)))
    ensures ParsePosition("a0") == Failure(PositionRejected(OutOfRange(0, 1)))
    ensures ParsePosition("e") == Failure(InvalidLength)
    ensures ParsePosition("e10") == Failure(InvalidLength)
  {
    ParsePositionExactly("i1");
    ParsePositionExactly("a9");
    ParsePositionExactly("a0");
  }

  /** The move the `move START END` command sends: both squares read, then
      `new ChessMove(start, end, null)`. */
  function ClientMove(start: string, end: string): Result<Move, ParseError> {
    var s :- ParsePosition(start);
    var e :- ParsePosition(end);
    Success(NewMove(Some(s), Some(e), None).value)
  }

  /** A command's move is sent exactly when both squares are read; it joins them, lies on
      the board, and never asks for a promotion. */
  lemma ClientMoveExactly(start: string, end: string)
    ensures ClientMove(start, end).Success? <==> ParsePosition(start).Success? && ParsePosition(end).Success?
    ensures ClientMove(start, end).Success? ==>
      var m := ClientMove(start, end).value;
      m.start == ParsePosition(start).value && m.end == ParsePosition(end).value &&
      OnBoard(m.start) && OnBoard(m.end) && m.promotion == None
  {
  }

  /** The game a 1-based `index` into the listed games picks, if it is in range. */
  function SelectGame(games: seq<GameData>, index: int): Option<int> {
    if index < 1 || index > |games| then None else Some(games[index - 1].gameID)
  }

  /** An index is accepted exactly in 1..|games|, and each listed game is picked by its
      position counted from 1. */
  lemma SelectGameExactly(games: seq<GameData>, index: int)
    ensures SelectGame(games, index).Some? <==> 1 <= index <= |games|
    ensures forall i :: 0 <= i < |games| ==> SelectGame(games, i + 1) == Some(games[i].gameID)
    ensures SelectGame(games, index).Some? ==> exists g :: g in games && g.gameID == SelectGame(games, index).value
  {
    if 1 <= index <= |games| {
      assert games[index - 1] in games;
    }
  }

  /** The client's static `currentGameID` and `currentPlayerColor`. */
  class ClientState {
    var currentGameID: int
    var currentPlayerColor: string

    constructor ()
      ensures currentGameID == 0 && currentPlayerColor == "WHITE"
    {
      currentGameID := 0;
      currentPlayerColor := "WHITE";
    }

    /** `joinGame`, given the list the server returned: an index out of range changes
        nothing; otherwise the chosen game and the upper-cased colour are recorded before
        the join request goes out, whatever its answer. */
    method JoinGame(index: int, color: string, games: seq<GameData>) returns (gameID: Option<int>)
      modifies this
      ensures gameID == SelectGame(games, index)
      ensures gameID.None? ==> currentGameID == old(currentGameID) && currentPlayerColor == old(currentPlayerColor)
      ensures gameID.Some? ==> currentGameID == gameID.value && currentPlayerColor == UpperCase(color)
    {
      var upper := UpperCase(color);
      if index < 1 || index > |games| {
        return None;
      }
      var id := games[index - 1].gameID;
      currentGameID := id;
      currentPlayerColor := upper;
      return Some(id);
    }

    /** `observeGame`: the same index check; an observer sees the board from white's side. */
    method ObserveGame(index: int, games: seq<GameData>) returns (gameID: Option<int>)
      modifies this
      ensures gameID == SelectGame(games, index)
      ensures gameID.None? ==> currentGameID == old(currentGameID) && currentPlayerColor == old(currentPlayerColor)
      ensures gameID.Some? ==> currentGameID == gameID.value && currentPlayerColor == "WHITE"
    {
      if index < 1 || index > |games| {
        return None;
      }
      var id := games[index - 1].gameID;
      currentGameID := id;
      currentPlayerColor := "WHITE";
      return Some(id);
    }
  }
}
