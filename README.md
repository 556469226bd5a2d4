# Chess server and client core, modelled in Dafny

This project models the core of a two-player chess service written in Java. The parts are:

- **The rules engine** (`chess` package). It covers:
  - squares and moves as value types;
  - pseudo-legal move generation per piece kind;
  - the 8x8 board with its starting layout;
  - the game object, which filters legal moves by simulating each one on a copy of the board, applies moves, and detects check, checkmate and stalemate.
- **The game store** (`GameService` over the in-memory `MemoryGameDAO` and the `AuthDAO` table). It covers creating, listing, joining, observing and leaving games, and the ordered chain of checks a move request passes. It also covers resignation.
- **The account services** `UserService`, `RegisterService` and `LoginService`, over the `UserDAO` and `AuthDAO` tables.
- **The websocket connection registry** `WebSocketCommunicator`: which tokens receive a message.
- **The client's square parser**, the move it sends, and its choice of a game by its listed index (`ChessClient`).

Each Java class whose fields change in place is a Dafny `class` whose methods follow the Java step by step. This holds for `ChessBoard`, `ChessGame`, the DAOs, the services, the communicator and the client's static state. Each such method is proved equal to a pure function, and the properties of the source are proved as lemmas about those functions.

Module by module:

- `ChessPosition`, `ChessPiece`, `ChessMove`: the value types. Each checked Java constructor is a function that returns a `Result`.
- `ChessBoard`: the board class. It wraps an `array2` together with its abstract contents, a `Grid` (a map from square to piece).
- `MoveRules`: move generation as functions of a grid.
  - Generation as the Java writes it, which can fail, ends in `AsWritten`.
  - The corrected generator is what the engine uses.
- `MoveGeneration`: the `add*Moves` loops.
- `GameRules`: king search, check, the legal-move filter, a move, checkmate and stalemate, as functions of a `GameState`.
- `Game`: the `ChessGame` class.
- `Model`, `DataAccess`: the records, the error messages and the three DAO classes.
- `GameStore`: each `GameService` operation as a function from the tables to the new record or an error.
- `GameServices`: the `GameService` class.
- `Accounts`, `AccountServices`: the account operations as functions over both tables, and the three service classes.
- `Communicator`: the registry.
- `Client`: the client computations.
- `Text`: ASCII case mapping, `equalsIgnoreCase` and `isBlank`.
- `Wrappers`: `Option` and `Result`.

Behaviours of the source that the model keeps:

- **Promotion never happens.** No generated move carries a promotion piece, and move equality includes the promotion. So `makeMove`'s promotion branch is unreachable (`GameRules.MakeMoveEffect`).
- **Created games have no game state.** `GameService.createGame` stores its record with a null game. So every later `makeMove` on it answers "Error: no game state" (`GameStore.CreatedGameRejectsMoves`), and `resign` dereferences the null game (`NullGame`).
- **Registration and login disagree on passwords.**
  - `UserService.register` stores the password as given.
  - `UserService.login` compares it with `BCrypt.checkpw`, which is a parameter here. A login right after a registration succeeds exactly when `checkpw(p, p)` holds (`Accounts.UserRegisterThenLogin`).
  - `LoginService` compares the stored password with plain equality.
- **`ChessGame.java` declares no game-over flag**, although `GameService` calls `isGameOver`/`setGameOver`. The model adds a `gameOver` field that is only ever raised.
- **`ChessGame.java` uses a copy constructor `new ChessBoard(board)` that `ChessBoard.java` does not declare.** It is modelled as a deep copy (`ChessBoard.Board.Copy`).
- **`UserService.register` calls `userDAO.insertUser`, which `UserDAO.java` does not declare.** It is modelled as `UserDAO.createUser`, the one insertion the DAO has, which fails on a taken name (`Accounts.UserRegisterExactly`).
- **`MemoryGameDAO.createGame` is declared `void`**, while `GameService.createGame` uses its result as the new id. The model returns the id the DAO assigned.

## Model

| member | source | states |
|---|---|---|
| ChessPosition.NewPosition | shared/src/main/java/chess/ChessPosition.java:21-43 | construction succeeds iff row and column are both in 1..8; the getters then return the arguments; otherwise the error carries the rejected pair |
| ChessPosition.Equals | shared/src/main/java/chess/ChessPosition.java:45-55 | true iff the two positions have the same row and column |
| ChessPosition.HashCode | shared/src/main/java/chess/ChessPosition.java:57-60 | on a board square, 31·row + col lies in 32..256, so no 32-bit overflow occurs |
| ChessPosition.HashCodeInjective | shared/src/main/java/chess/ChessPosition.java:57-60 | on board squares equal hash codes hold exactly for equal positions, so hashCode agrees with equals both ways |
| ChessPiece.Other | shared/src/main/java/chess/ChessGame.java:77 | the turn flip always yields the other colour |
| ChessPiece.Equals | shared/src/main/java/chess/ChessPiece.java:212-218 | pieces are equal iff team and type are equal |
| ChessMove.NewMove | shared/src/main/java/chess/ChessMove.java:26-58 | construction fails iff the start or end is null; otherwise the getters return the arguments, with a possibly null promotion |
| ChessMove.Equals | shared/src/main/java/chess/ChessMove.java:60-73 | true iff start and end are equal and the promotions are both null or equal |
| ChessMove.Wrap32 | shared/src/main/java/chess/ChessMove.java:76-81 | Java int arithmetic: the result is a signed 32-bit value congruent to the input modulo 2^32 |
| ChessMove.EqualMovesHashEqual | shared/src/main/java/chess/ChessMove.java:76-81 | equal moves have equal hash codes, whatever the enum's hash |
| ChessBoard.Put | shared/src/main/java/chess/ChessBoard.java:25-34 | writing x on square p makes p hold x (null empties it) and leaves every other square as it was |
| ChessBoard.StartGrid | shared/src/main/java/chess/ChessBoard.java:57-89 | every square holds exactly the piece the reset layout assigns to it |
| ChessBoard.StartGridLayout | shared/src/main/java/chess/ChessBoard.java:57-89 | rows 3-6 are empty, rows 2 and 7 hold all white and all black pawns, rows 1 and 8 hold R N B Q K B N R, and each colour has exactly one king, on column 5 |
| ChessBoard.IsPositionValid | shared/src/main/java/chess/ChessBoard.java:117-119 | true iff both coordinates are in 1..8 |
| ChessBoard.Board.constructor | shared/src/main/java/chess/ChessBoard.java:15-17 | a new board holds the starting position in a fresh array |
| ChessBoard.Board.Copy | shared/src/main/java/chess/ChessGame.java:43 | the copy has the same contents in a fresh array, so later writes to it leave the original alone |
| ChessBoard.Board.AddPiece | shared/src/main/java/chess/ChessBoard.java:25-34 | an on-board square is written and nothing else changes; an off-board one is the exception, with nothing changed |
| ChessBoard.Board.GetPiece | shared/src/main/java/chess/ChessBoard.java:43-51 | returns the piece on the square, and null for an empty or off-board square |
| ChessBoard.Board.ResetBoard | shared/src/main/java/chess/ChessBoard.java:57-89 | after the clearing loops and the placements the array holds exactly the starting position |
| ChessBoard.Board.PlaceBackRank | shared/src/main/java/chess/ChessBoard.java:70-88 | the given row gets R N B Q K B N R of that colour and every other cell keeps its piece |
| ChessBoard.Board.Equals | shared/src/main/java/chess/ChessBoard.java:95-110 | the cell-by-cell comparison is true iff the two boards hold the same pieces on every square |
| MoveRules.PawnMovesExactly | shared/src/main/java/chess/ChessPiece.java:81-107 | a pawn move is one step forward (+1 white, -1 black) onto an empty square, two steps from row 2 or 7 across two empty squares, or a diagonal step onto an enemy piece, and nothing else |
| MoveRules.RayExactly | shared/src/main/java/chess/ChessPiece.java:131-159 | a sliding ray reaches exactly the empty squares up to the first occupied one, and that one only when it holds an enemy |
| MoveRules.KnightJumpsExactly | shared/src/main/java/chess/ChessPiece.java:170-185 | the first n offsets yield exactly the on-board, non-friendly squares at those offsets |
| MoveRules.KnightMovesExactly | shared/src/main/java/chess/ChessPiece.java:170-185 | knight moves are exactly the on-board, non-friendly squares at an L offset |
| MoveRules.KingRowExactly | shared/src/main/java/chess/ChessPiece.java:191-207 | one pass of the inner column loop yields exactly the on-board, non-friendly squares of that row change, skipping (0, 0) |
| MoveRules.KingRowsExactly | shared/src/main/java/chess/ChessPiece.java:191-207 | the first n row changes yield exactly the on-board, non-friendly neighbours in those rows |
| MoveRules.KingMovesExactly | shared/src/main/java/chess/ChessPiece.java:187-209 | king moves are exactly the on-board, non-friendly neighbouring squares other than the king's own |
| MoveRules.PieceMovesGenerated | shared/src/main/java/chess/ChessPiece.java:55-79 | every generated move starts at the piece's square, carries no promotion, ends on the board on another square, and never on a piece of the mover's colour |
| MoveRules.PawnAsWritten | shared/src/main/java/chess/ChessPiece.java:81-107 | the pawn code as written succeeds iff the pawn is off the edge files and its forward square is on the board, and then it agrees with the corrected generator |
| MoveRules.RookRayAsWrittenExactly | shared/src/main/java/chess/ChessPiece.java:113-127 | a rook ray as written succeeds iff a piece blocks it before the edge, and then it equals the corrected vertical ray |
| MoveRules.KnightJumpsAsWrittenExactly | shared/src/main/java/chess/ChessPiece.java:176-184 | the first n knight jumps as written succeed iff all their squares are on the board, and then they equal the corrected jumps |
| MoveRules.KnightAsWritten | shared/src/main/java/chess/ChessPiece.java:170-185 | the knight code as written succeeds iff the knight stands on rows and columns 3-6, and then it agrees with the corrected generator |
| MoveRules.RookAsWritten | shared/src/main/java/chess/ChessPiece.java:109-129 | the rook code as written, when it succeeds, yields only its two vertical rays, so the column never changes; on rows 1 and 8 it always fails |
| MoveRules.AsWrittenWithinCorrected | shared/src/main/java/chess/ChessPiece.java:55-79 | whatever the code as written yields is a corrected move; for pieces other than rook and queen it is the same list |
| MoveRules.RookAsWrittenWithin | shared/src/main/java/chess/ChessPiece.java:109-129 | every rook move as written is a corrected rook move |
| MoveRules.RookMissesRowMoves | shared/src/main/java/chess/ChessPiece.java:113-127 | a rook on d4 between its own pawns on d3 and d5 gets no move as written, though d4-e4 is a rook move |
| MoveRules.StartBoardAsWrittenFails | shared/src/main/java/chess/ChessPiece.java:81-185 | on the starting board, move generation as written throws for both rooks and both knights of each side and for the edge-file pawns |
| MoveGeneration.PieceMovesOn | shared/src/main/java/chess/ChessPiece.java:55-79 | the dispatch on the piece kind returns exactly that kind's corrected moves, all satisfying the generated-move property |
| MoveGeneration.AddPawnMoves | shared/src/main/java/chess/ChessPiece.java:81-107 | appends exactly the corrected pawn moves, whose diagonal squares are bounds-checked before they are built |
| MoveGeneration.AddRay | shared/src/main/java/chess/ChessPiece.java:136-156 | the loop with its break appends exactly the moves of one ray |
| MoveGeneration.AddRookMoves | shared/src/main/java/chess/ChessPiece.java:109-129 | appends exactly the corrected rook moves, on all four rays |
| MoveGeneration.AddBishopMoves | shared/src/main/java/chess/ChessPiece.java:131-159 | appends exactly the four diagonal rays, in the source's order |
| MoveGeneration.AddQueenMoves | shared/src/main/java/chess/ChessPiece.java:162-168 | appends the bishop moves followed by the corrected four-ray rook moves |
| MoveGeneration.AddKnightMoves | shared/src/main/java/chess/ChessPiece.java:170-185 | appends exactly the corrected knight moves, offset by offset, each square bounds-checked before it is built |
| MoveGeneration.AddKingMoves | shared/src/main/java/chess/ChessPiece.java:187-209 | the nested loops append exactly the king moves |
| MoveGeneration.AddKingSquare | shared/src/main/java/chess/ChessPiece.java:195-205 | one neighbour is appended iff it is on the board and not friendly |
| GameRules.FindKingFromExactly | shared/src/main/java/chess/ChessGame.java:105-117 | the scan from a square on finds the first king of the colour in row-major order at or after that square, or reports that none is there |
| GameRules.FindKingExactly | shared/src/main/java/chess/ChessGame.java:105-117 | the king search returns the first king of the colour in row-major order, and null iff that colour has no king |
| GameRules.StartKings | shared/src/main/java/chess/ChessGame.java:19-23 | in a new game the white king is found on e1 and the black king on e8 |
| GameRules.AttackedFromExactly | shared/src/main/java/chess/ChessGame.java:87-102 | the scan from a square on is true iff an opposing piece at or after it has a pseudo-move ending on the king |
| GameRules.IsInCheckExactly | shared/src/main/java/chess/ChessGame.java:80-103 | over the corrected generator, check throws iff the colour has no king; otherwise it is true iff some opposing piece's pseudo-move ends on that king's square |
| GameRules.AsWrittenScanFails | shared/src/main/java/chess/ChessGame.java:87-102 | over the generator as written, the check scan throws as soon as the first opposing piece it meets is one whose move generation throws, whatever the king's square |
| GameRules.OpeningCheckScanFails | shared/src/main/java/chess/ChessGame.java:42-49 | over the generator as written, the check scan for WHITE throws on the starting board and after every white move validMoves simulates from it (at the a7 pawn), and the scan for BLACK throws on the starting board (at the a1 rook) |
| GameRules.AsWrittenScanQuiet | shared/src/main/java/chess/ChessGame.java:87-102 | over the generator as written, the check scan answers false when every square it still visits is empty, friendly, or holds an opposing piece whose moves are built without an exception and miss the king |
| GameRules.RankRookCheckDiffers | shared/src/main/java/chess/ChessPiece.java:113-127 | with a black rook on d4 between its pawns on d3 and d5 and the white king on h4, check over the corrected generator is true, while the Java's scan returns false without an exception |
| GameRules.KeepLegalDefined | shared/src/main/java/chess/ChessGame.java:42-52 | the filter completes iff no check test on a simulated board throws |
| GameRules.KeepLegalKeeps | shared/src/main/java/chess/ChessGame.java:42-52 | a pseudo-move is kept iff, with the piece moved and its start cleared, the mover is not in check |
| GameRules.KeepLegalExactly | shared/src/main/java/chess/ChessGame.java:39-54 | the filter completes exactly when no check test throws, and then keeps exactly the moves that do not leave the mover in check |
| GameRules.ValidMovesExactly | shared/src/main/java/chess/ChessGame.java:33-55 | for an occupied square, the legal moves are exactly the pseudo-moves after which the mover is not in check, a subset of that piece's moves |
| GameRules.ValidMovesGenerated | shared/src/main/java/chess/ChessGame.java:33-55 | every legal move starts on the square, carries no promotion, and lands on the board off any friendly piece |
| GameRules.SimulateKeepsKing | shared/src/main/java/chess/ChessGame.java:43-45 | a simulated pseudo-move never removes the mover's own king |
| GameRules.ValidMovesDefined | shared/src/main/java/chess/ChessGame.java:33-55 | over the corrected generator, when the mover has a king, validMoves on an occupied square never throws and returns a list |
| GameRules.ValidMoveKeepsKing | shared/src/main/java/chess/ChessGame.java:43-49 | after any legal move of a colour that has a king, the check test on the simulated board does not throw |
| GameRules.MakeMoveAccepts | shared/src/main/java/chess/ChessGame.java:57-67 | a move is accepted iff the start square holds a piece of the side to move and the move is among its legal moves; otherwise the error is the invalid-move exception or, for a missing king, the check exception |
| GameRules.MakeMoveEffect | shared/src/main/java/chess/ChessGame.java:69-77 | an accepted move never carries a promotion; it puts the piece on the end square, empties the start, flips the turn, and changes nothing else |
| GameRules.MakeMoveNoSelfCheck | shared/src/main/java/chess/ChessGame.java:57-77 | after an accepted move the mover is not in check |
| GameRules.LegalMoveFromExactly | shared/src/main/java/chess/ChessGame.java:155-168 | the stalemate scan from a square on is true iff a piece of the colour at or after it has a non-empty legal-move list |
| GameRules.SomeMoveSafeExactly | shared/src/main/java/chess/ChessGame.java:130-143 | the checkmate inner loop finds an escape iff some listed move leaves the colour out of check |
| GameRules.MateAndStalemate | shared/src/main/java/chess/ChessGame.java:119-170 | over the corrected generator, both tests throw iff the colour has no king; checkmate and stalemate are never both true; with a king, one of them holds iff every own piece has an empty legal-move list |
| Game.ChessGame.constructor | shared/src/main/java/chess/ChessGame.java:19-23 | a new game has the starting board on fresh storage, WHITE to move, and is not over |
| Game.ChessGame.SetTeamTurn | shared/src/main/java/chess/ChessGame.java:29-31 | only the turn changes |
| Game.ChessGame.SetBoard | shared/src/main/java/chess/ChessGame.java:172-174 | only the board reference changes |
| Game.ChessGame.SetGameOver | server/src/main/java/service/GameService.java:181 | raises the game-over flag and changes nothing else |
| Game.ChessGame.FindKingPosition | shared/src/main/java/chess/ChessGame.java:105-117 | the nested loops return the row-major king search result |
| Game.ChessGame.IsInCheck | shared/src/main/java/chess/ChessGame.java:80-103 | returns the check result of the current board over the corrected generator, throwing when there is no king |
| Game.ChessGame.ScanForAttacker | shared/src/main/java/chess/ChessGame.java:87-102 | the nested loops find an attacker of the king iff one exists |
| Game.ChessGame.AttacksKing | shared/src/main/java/chess/ChessGame.java:89-98 | true iff the square holds an opposing piece with a pseudo-move onto the king |
| Game.ChessGame.ValidMoves | shared/src/main/java/chess/ChessGame.java:33-55 | returns the legal-move list of the current board (null for an empty square) and leaves the game untouched |
| Game.ChessGame.KeepLegalMoves | shared/src/main/java/chess/ChessGame.java:39-53 | the loop over board copies keeps exactly the filtered moves, in order |
| Game.ChessGame.CheckAfter | shared/src/main/java/chess/ChessGame.java:43-49 | the check test on a fresh copy with the move applied equals check on the simulated grid |
| Game.ChessGame.MakeMove | shared/src/main/java/chess/ChessGame.java:57-78 | on a rejected move it throws the same error and board and turn are unchanged; otherwise the new state is the accepted move's state |
| Game.ChessGame.IsInCheckmate | shared/src/main/java/chess/ChessGame.java:119-148 | returns the checkmate result of the current board |
| Game.ChessGame.FindsEscape | shared/src/main/java/chess/ChessGame.java:129-144 | one square's loop finds an escaping move iff the colour's piece there has a non-empty legal-move list |
| Game.ChessGame.ReplayMoves | shared/src/main/java/chess/ChessGame.java:130-143 | the loop over copies finds a move leaving the colour out of check iff one exists |
| Game.ChessGame.IsInStalemate | shared/src/main/java/chess/ChessGame.java:150-170 | returns the stalemate result of the current board |
| Game.ChessGame.HasMovesAt | shared/src/main/java/chess/ChessGame.java:158-166 | true iff the colour's piece on the square has a non-empty legal-move list |
| DataAccess.MemoryGameDAO.constructor | server/src/main/java/dataaccess/MemoryGameDAO.java:10-11 | an empty table whose next id is 1 |
| DataAccess.MemoryGameDAO.CreateGame | server/src/main/java/dataaccess/MemoryGameDAO.java:13-17 | stores the record under the current next id, above every stored id, so no entry is overwritten; copies the other fields; increments the counter |
| DataAccess.MemoryGameDAO.GetGame | server/src/main/java/dataaccess/MemoryGameDAO.java:19-22 | the stored record, or null for an unknown id |
| DataAccess.MemoryGameDAO.ListGames | server/src/main/java/dataaccess/MemoryGameDAO.java:24-27 | a list holding every stored record exactly once and nothing else |
| DataAccess.MemoryGameDAO.UpdateGame | server/src/main/java/dataaccess/MemoryGameDAO.java:29-35 | throws for an absent id, with no change; otherwise replaces only that entry |
| DataAccess.MemoryGameDAO.Clear | server/src/main/java/dataaccess/MemoryGameDAO.java:37-41 | empties the table and resets the next id to 1 |
| DataAccess.AuthDAO.constructor | server/src/main/java/dataaccess/AuthDAO.java:8 | the auth table starts empty |
| DataAccess.AuthDAO.CreateAuth | server/src/main/java/dataaccess/AuthDAO.java:10-15 | throws on an existing token with no change; otherwise stores the record under its token |
| DataAccess.AuthDAO.GetAuth | server/src/main/java/dataaccess/AuthDAO.java:18-20 | the stored record, or null for an unknown token |
| DataAccess.AuthDAO.DeleteAuth | server/src/main/java/dataaccess/AuthDAO.java:31-33 | returns true iff the token was present; afterwards it is absent and other tokens are untouched |
| DataAccess.AuthDAO.ClearAuthTokens | server/src/main/java/dataaccess/AuthDAO.java:27-29 | empties the table |
| DataAccess.UserDAO.constructor | server/src/main/java/dataaccess/UserDAO.java:8 | the user table starts empty |
| DataAccess.UserDAO.CreateUser | server/src/main/java/dataaccess/UserDAO.java:10-15 | throws on an existing username with no change; otherwise stores the user under its username |
| DataAccess.UserDAO.GetUser | server/src/main/java/dataaccess/UserDAO.java:17-19 | the stored record, or null for an unknown username |
| DataAccess.UserDAO.ClearUsers | server/src/main/java/dataaccess/UserDAO.java:21-23 | empties the table |
| GameStore.PlayerColor | server/src/main/java/service/GameService.java:131-139 | the caller's side holds their name, white is checked first, and it is null iff neither seat is theirs |
| GameStore.ObserveGame | server/src/main/java/service/GameService.java:93-105 | succeeds iff the token and the game are known, and returns the stored record; an unknown token is "unauthorized" |
| GameStore.GetGame | server/src/main/java/service/GameService.java:107-115 | succeeds iff the token and the game are known, and returns the record's game |
| GameStore.UnauthorizedChangesNothing | server/src/main/java/service/GameService.java:43-210 | an unknown token makes every operation fail with "unauthorized" and leaves the table unchanged |
| GameStore.CreateGameExactly | server/src/main/java/service/GameService.java:43-56 | succeeds iff the token is known and the name is non-null and non-empty; the record has the next id, the name, and null seats and game |
| GameStore.JoinGameExactly | server/src/main/java/service/GameService.java:58-91 | for a colour naming WHITE or BLACK in any case, the join succeeds iff that seat is free, giving it to the caller and keeping id, name, game and the other seat; a taken seat is "already taken" |
| GameStore.JoinGameBadColor | server/src/main/java/service/GameService.java:69-71 | a null colour or one that names neither side is rejected, with "bad request" once token and game are known |
| GameStore.MakeMoveChecksInOrder | server/src/main/java/service/GameService.java:117-143 | a move request is checked in order: auth, game exists, game state non-null, not over, caller is a player, caller's turn |
| GameStore.MakeMoveExactly | server/src/main/java/service/GameService.java:145-164 | a move is stored iff every check passes and the engine accepts it; the record keeps id, players and name and holds the moved game; a later failure is "invalid move" or the engine's missing-king exception; the engine runs on the corrected generator |
| GameStore.CreatedGameRejectsMoves | server/src/main/java/service/GameService.java:52-54 | a freshly created game stores no game state, so every move on it fails with "no game state" |
| GameStore.ResignExactly | server/src/main/java/service/GameService.java:168-190 | resigning succeeds iff the caller holds a seat and the record has a game, even one already over; it sets only the game-over flag; a non-player is rejected |
| GameStore.ResignedGameRejectsMoves | server/src/main/java/service/GameService.java:127-129 | after a resignation every move on that game fails with "game is already over" |
| GameStore.GameOverIsFinal | server/src/main/java/service/GameService.java:127-129 | once a stored game is over no move is accepted, and joining, leaving and resigning keep it over |
| GameStore.LeaveGameExactly | server/src/main/java/service/GameService.java:193-210 | leaving empties only the caller's seat, white checked first, keeping id, name and game; for an observer the record is rewritten unchanged |
| GameServices.GameService.constructor | server/src/main/java/service/GameService.java:21-24 | the service keeps the DAOs it is given |
| GameServices.GameService.ListGames | server/src/main/java/service/GameService.java:26-40 | an unknown token is "unauthorized"; otherwise every stored record exactly once |
| GameServices.GameService.CreateGame | server/src/main/java/service/GameService.java:43-56 | returns the created record and stores it under a new id above every existing one; on failure nothing changes |
| GameServices.GameService.JoinGame | server/src/main/java/service/GameService.java:58-91 | throws the join's error with the table unchanged, or writes back the joined record |
| GameServices.GameService.ObserveGame | server/src/main/java/service/GameService.java:93-105 | returns the observe result of the current tables |
| GameServices.GameService.GetGame | server/src/main/java/service/GameService.java:107-115 | returns the get-game result of the current tables |
| GameServices.GameService.MakeMove | server/src/main/java/service/GameService.java:117-165 | throws the move's error with the table unchanged, or stores and returns the moved game |
| GameServices.GameService.Resign | server/src/main/java/service/GameService.java:168-190 | throws the resignation's error with the table unchanged, or stores the game with its flag raised |
| GameServices.GameService.LeaveGame | server/src/main/java/service/GameService.java:193-210 | throws "unauthorized" or "bad request" with the table unchanged, or stores the record with the caller's seat emptied |
| Accounts.IssueTokenExactly | server/src/main/java/service/UserService.java:30-35 | issuing a token succeeds iff it is fresh, adding exactly that entry for the user; a clash throws and leaves the auth table alone |
| Accounts.UserRegisterExactly | server/src/main/java/service/UserService.java:21-36 | a null field is "bad request" and a taken name "already taken", both with no change; otherwise the user is inserted as given and one token for it issued |
| Accounts.UserLoginExactly | server/src/main/java/service/UserService.java:38-50 | login succeeds iff the user exists and the password check passes (and the token is fresh); otherwise "unauthorized" with no change; the user table is never written |
| Accounts.UserLogoutExactly | server/src/main/java/service/UserService.java:52-58 | an unknown token is "unauthorized"; afterwards the token is gone and every other token and the user table are untouched |
| Accounts.LoginThenLogout | server/src/main/java/service/UserService.java:44-58 | logging out the token a login issued restores the tables to what they were before the login |
| Accounts.UserRegisterThenLogin | server/src/main/java/service/UserService.java:21-50 | a login right after registration with the same password succeeds iff the password check accepts the stored plain password against itself |
| Accounts.RegisterExactly | server/src/main/java/service/RegisterService.java:12-33 | a null or blank field is "bad request" and a taken name the bare "Error", both with no change; otherwise the user is created with exactly the given fields and a token issued |
| Accounts.LoginExactly | server/src/main/java/service/LoginService.java:12-30 | a null or blank field is "bad request" before any lookup; an unknown user or a different stored password is "unauthorized"; otherwise a new token for the user |
| Accounts.RegisterThenLogin | server/src/main/java/service/LoginService.java:20-29 | logging in right after registering, with the same password, always succeeds and issues the new token |
| Accounts.OperationsKeepKeys | server/src/main/java/dataaccess/AuthDAO.java:10-15 | every account operation keeps each user under its username and each auth record under its token |
| AccountServices.UserService.constructor | server/src/main/java/service/UserService.java:16-19 | the service keeps the DAOs it is given |
| AccountServices.UserService.Register | server/src/main/java/service/UserService.java:21-36 | the tables and the result are those of the registration |
| AccountServices.UserService.Login | server/src/main/java/service/UserService.java:38-50 | the tables and the result are those of the login |
| AccountServices.UserService.Logout | server/src/main/java/service/UserService.java:52-58 | the tables and the result are those of the logout |
| AccountServices.RegisterService.constructor | server/src/main/java/service/RegisterService.java:14-15 | the service works on the shared user and auth tables |
| AccountServices.RegisterService.Register | server/src/main/java/service/RegisterService.java:12-33 | the tables and the result are those of the validated registration |
| AccountServices.LoginService.constructor | server/src/main/java/service/LoginService.java:13-14 | the service works on the shared user and auth tables |
| AccountServices.LoginService.Login | server/src/main/java/service/LoginService.java:12-30 | the tables and the result are those of the validated login |
| Communicator.WebSocketCommunicator.constructor | server/src/main/java/websocket/WebSocketCommunicator.java:20-30 | the DAOs are kept, and the registry starts with no connections and no usernames, as the static maps are when the first instance is made |
| Communicator.WebSocketCommunicator.AddConnection | server/src/main/java/websocket/WebSocketCommunicator.java:32-42 | the token maps to the session, replacing any earlier one; its username is recorded iff the auth table knows it |
| Communicator.WebSocketCommunicator.RemoveConnection | server/src/main/java/websocket/WebSocketCommunicator.java:44-47 | both entries of the token go and other tokens are untouched |
| Communicator.WebSocketCommunicator.SendMessage | server/src/main/java/websocket/WebSocketCommunicator.java:49-58 | a message is written iff the token has an open session, and then to that session |
| Communicator.WebSocketCommunicator.BroadcastToGame | server/src/main/java/websocket/WebSocketCommunicator.java:60-84 | the recipients are exactly the open sessions whose recorded user holds a seat of the game, minus the excepted token, so observers never receive |
| Communicator.WebSocketCommunicator.Broadcast | server/src/main/java/websocket/WebSocketCommunicator.java:86-97 | the recipients are exactly the open sessions other than the sender's, whatever the game |
| Communicator.WebSocketCommunicator.GetUsername | server/src/main/java/websocket/WebSocketCommunicator.java:115-119 | the recorded username, and "invalid authToken" iff there is none; while the registry's invariant holds, a token without a connection always gets the error |
| Communicator.WebSocketCommunicator.GetAuthToken | server/src/main/java/websocket/WebSocketCommunicator.java:121-138 | a token whose session is open and whose auth user is the name, and null iff there is no such token |
| Communicator.RemovedTokenIsSilent | server/src/main/java/websocket/WebSocketCommunicator.java:44-84 | a removed token is not open and receives no game broadcast |
| Text.LowerCase | client/src/main/java/client/ChessClient.java:308 | lower-casing keeps the length, maps each character, and leaves no capital |
| Text.UpperCase | client/src/main/java/client/ChessClient.java:250 | upper-casing keeps the length, maps each character, and leaves no small letter |
| Text.LowerCaseIgnoresCase | client/src/main/java/client/ChessClient.java:308 | the lower-cased string equals the input ignoring case, and lower-casing is idempotent |
| Text.EqualIgnoringCaseLowerEqual | client/src/main/java/client/ChessClient.java:308 | strings equal ignoring case lower-case to the same string |
| Text.WhiteIsNotBlack | server/src/main/java/service/GameService.java:75-88 | no colour string names both WHITE and BLACK, so the join's two branches never overlap |
| Client.ParsePositionExactly | client/src/main/java/client/ChessClient.java:307-313 | a square is read iff the input has two characters, a letter a..h in either case and a digit 1..8; then column = letter - 'a' + 1 and row = digit - '0'; other lengths are rejected before the constructor |
| Client.ParseSquareName | client/src/main/java/client/ChessClient.java:307-313 | reading a square's name gives that square back |
| Client.ParsedNameRoundTrip | client/src/main/java/client/ChessClient.java:307-313 | a square that is read names itself: its name is the lower-cased input |
| Client.ParseIgnoresCase | client/src/main/java/client/ChessClient.java:308 | inputs equal ignoring case are read alike |
| Client.ParseExamples | client/src/main/java/client/ChessClient.java:310-312 | "a1" is (1,1), "h8" is (8,8), and "E2" and "e2" are both (2,5) |
| Client.ParseRejects | client/src/main/java/client/ChessClient.java:309-312 | "i1", "a9" and "a0" are rejected by the position constructor, "e" and "e10" by the length check |
| Client.ClientMoveExactly | client/src/main/java/client/ChessClient.java:296-299 | a move is sent iff both squares are read; it joins them, lies on the board and carries no promotion |
| Client.SelectGameExactly | client/src/main/java/client/ChessClient.java:252-256 | an index is accepted iff it is in 1..games.size, and it selects games[index-1]'s id |
| Client.ClientState.constructor | client/src/main/java/client/ChessClient.java:30-31 | the client starts with game id 0 and colour "WHITE" |
| Client.ClientState.JoinGame | client/src/main/java/client/ChessClient.java:243-268 | an index out of range changes nothing; otherwise the selected id and the upper-cased colour are recorded before the join request |
| Client.ClientState.ObserveGame | client/src/main/java/client/ChessClient.java:270-289 | an index out of range changes nothing; otherwise the selected id is recorded and the colour set to "WHITE" |

## Left out

- SQL storage (`MySQLGameDAO`, `MySQLAuthDAO`, `MySQLUserDAO`, `DatabaseManager`) is I/O. The in-memory DAOs stand in for it.
- The HTTP layer (`Server` and its handlers) and `WebSocketHandler` are routing, JSON and socket I/O. They are outside the core.
- Message sends and their JSON encoding: the communicator's methods return the sessions or tokens written to, and the payload is not modelled.
- Concurrency of the `ConcurrentHashMap`s: the registry is modelled sequentially.
- `UUID.randomUUID` and `BCrypt.checkpw` are foreign calls. They are the parameters `freshToken` and `checkpw`.
- The client's Scanner loop, its usage messages and `Integer.parseInt` are console I/O. The client methods take the parsed index and the game list the server returned.
- The en-passant members of `ChessBoard` are never called, so they are not modelled.
- `toString`, `ChessBoard.hashCode` and Gson annotations carry data only, so they are not modelled.
- `GameDAO.java`, `ClearService` and `LogoutService` are one-line delegations, so they are not modelled.
- DataAccess.MemoryGameDAO.ListGames: the order of `HashMap.values()` is not modelled. The list holds every record exactly once, in some order.
- Communicator.WebSocketCommunicator.GetAuthToken: the token returned when several match depends on hash-map iteration order. The model promises only some matching token.
- DataAccess.MemoryGameDAO.CreateGame: `nextGameID` is an unbounded integer. The 32-bit wrap after 2^31 - 1 games is not modelled.
- Accounts.UserLogin: the password is a non-null string. A null password reaching `BCrypt.checkpw` is not modelled.
- The `Integer` id of a `GameData` record is a plain `int` in the model, so a null id is not modelled.
- GameServices.GameService: a stored game is held as the value of its state, and each operation applies the `GameRules` functions to it. The in-place update of a shared `ChessGame` object, and aliasing between records, are not modelled.
- Text.LowerCase, Text.UpperCase, Text.EqualsIgnoreCase, Text.IsBlank: case mapping, `equalsIgnoreCase` and `isBlank` cover ASCII only. Non-ASCII letters and Unicode whitespace are not modelled. So `GameStore.JoinGame` answers "bad request" to a colour such as `"BLAC\u212A"` (with the Kelvin sign), which Java's `equalsIgnoreCase` accepts as BLACK.
- GameRules.IsInCheck, GameRules.ValidMoves, GameRules.MakeMove, GameRules.IsInCheckmate, GameRules.IsInStalemate, Game.ChessGame, GameStore.MakeMove, GameServices.GameService.MakeMove, MoveGeneration.PieceMovesOn, MoveGeneration.AddPawnMoves, MoveGeneration.AddRookMoves, MoveGeneration.AddQueenMoves and MoveGeneration.AddKnightMoves run on the corrected generator `MoveRules.PieceMoves`. The `IllegalArgumentException` that the Java's `pieceMoves` throws for edge pawns, knights and rooks, and that `isInCheck`, `validMoves`, `makeMove`, `isInCheckmate` and `isInStalemate` pass on, is not modelled there. `GameRules.OpeningCheckScanFails` shows that, as written, every white pawn move from the starting position throws this way, and the knights already throw in `pieceMoves`. The rook and the queen also move along their rank (Findings row 4), so check and the legal moves differ from the Java even where it returns normally (`GameRules.RankRookCheckDiffers`).
- Communicator.WebSocketCommunicator: `connections` and `tokenToUsername` are static in the Java, so every instance shares them. They are instance fields here, and a new instance starts empty; the sharing across instances is not modelled.

## Findings

| source | as written | input that shows it | evidently intended | confidence | as-written member | corrected member |
|---|---|---|---|---|---|---|
| shared/src/main/java/chess/ChessPiece.java:100-101 | the pawn's diagonal square is built with `new ChessPosition` before any bounds check, so a pawn on the a- or h-file throws | a white pawn on a2 of the starting board: its left diagonal (3, 0) throws | skip diagonals that leave the board | not executed | MoveRules.PawnAsWritten | MoveRules.PawnMovesExactly |
| shared/src/main/java/chess/ChessPiece.java:176-178 | each knight square is built before `isValidPosition` is consulted, so any off-board offset throws | a white knight on b1: the offset (-2, 1) builds (-1, 3) | skip off-board jumps | not executed | MoveRules.KnightAsWritten | MoveRules.KnightMovesExactly |
| shared/src/main/java/chess/ChessPiece.java:114-116 | each rook square is built before the bounds check that would end the ray, so a ray that reaches the edge throws | the white rook on a1 of the starting board: the downward ray builds (0, 1) | stop the ray at the edge | not executed | MoveRules.StartBoardAsWrittenFails | MoveRules.RayExactly |
| shared/src/main/java/chess/ChessPiece.java:113-127 | the rook varies only the row, so it never moves along its rank | a white rook on d4 between white pawns on d3 and d5 gets no move, though d4-e4 is legal | rays in all four orthogonal directions | not executed | MoveRules.RookMissesRowMoves | MoveGeneration.AddRookMoves |
