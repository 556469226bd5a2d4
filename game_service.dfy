/** What service.GameService does to the tables, as functions of the auth and game tables:
    each operation yields the record it writes back, or the exception it throws. */
module GameStore {
  import opened Wrappers
  import opened ChessPiece
  import opened ChessMove
  import opened ChessBoard
  import opened GameRules
  import opened Model
  import opened Text

  type AuthTable = map<string, AuthData>
  type GameTable = map<int, GameData>

  /** The username behind a token, or "Error: unauthorized" when the token is unknown. */
  function Authenticate(auth: AuthTable, authToken: string): Result<string, ServiceError> {
    if authToken in auth then Success(auth[authToken].username) else Failure(Unauthorized)
  }

  /** The record of a game, or "Error: bad request" when the id is unknown. */
  function Lookup(games: GameTable, gameID: int): Result<GameData, ServiceError> {
    if gameID in games then Success(games[gameID]) else Failure(BadRequest)
  }

  /** The seat of `color` in a game record. */
  function Seat(data: GameData, color: TeamColor): Option<string> {
    if color == WHITE then data.whiteUsername else data.blackUsername
  }

  /** The side `username` plays in a game, white checked first; None for an observer. */
  function PlayerColor(data: GameData, username: string): (c: Option<TeamColor>)
    ensures c.Some? ==> Seat(data, c.value) == Some(username)
    ensures c == Some(BLACK) ==> data.whiteUsername != Some(username)
    ensures c.None? <==> data.whiteUsername != Some(username) && data.blackUsername != Some(username)
  {
    if data.whiteUsername == Some(username) then Some(WHITE)
    else if data.blackUsername == Some(username) then Some(BLACK)
    else None
  }

  /** The name a join request uses for `color`, compared ignoring case. */
  function ColorName(color: TeamColor): string {
    if color == WHITE then "WHITE" else "BLACK"
  }

  /** The game table after an operation that writes its record back under `gameID` on
      success and leaves the table alone on failure. */
  function Apply(games: GameTable, gameID: int, r: Result<GameData, ServiceError>): GameTable {
    if r.Success? then games[gameID := r.value] else games
  }

  // ---------------------------------------------------------------- the operations

  /** `createGame`: the record stored under the next id, with both seats and the game null. */
  function CreateGame(auth: AuthTable, nextGameID: int, authToken: string, gameName: Option<string>)
    : Result<GameData, ServiceError>
  {
    var _ :- Authenticate(auth, authToken);
    if gameName.None? || gameName.value == "" then Failure(BadRequest)
    else Success(GameData(nextGameID, None, None, gameName.value, None))
  }

  /** `joinGame`: the record with the requested seat given to the caller. */
  function JoinGame(auth: AuthTable, games: GameTable, authToken: string, gameID: int, playerColor: Option<string>)
    : Result<GameData, ServiceError>
  {
    var username :- Authenticate(auth, authToken);
    var data :- Lookup(games, gameID);
    if playerColor.None? || (!EqualsIgnoreCase("WHITE", playerColor.value) && !EqualsIgnoreCase("BLACK", playerColor.value)) then
      Failure(BadRequest)
    else if EqualsIgnoreCase("WHITE", playerColor.value) then
      if data.whiteUsername.Some? then Failure(AlreadyTaken)
      else Success(data.(whiteUsername := Some(username)))
    else
      if data.blackUsername.Some? then Failure(AlreadyTaken)
      else Success(data.(blackUsername := Some(username)))
  }

  /** `observeGame`: the stored record. */
  function ObserveGame(auth: AuthTable, games: GameTable, authToken: string, gameID: int): (r: Result<GameData, ServiceError>)
    ensures r.Success? <==> authToken in auth && gameID in games
    ensures r.Success? ==> r.value == games[gameID]
    ensures authToken !in auth ==> r == Failure(Unauthorized)
  {
    var _ :- Authenticate(auth, authToken);
    Lookup(games, gameID)
  }

  /** `getGame`: the game held by the stored record (None when it is null). */
  function GetGame(auth: AuthTable, games: GameTable, gameID: int, authToken: string): (r: Result<Option<GameState>, ServiceError>)
    ensures r.Success? <==> authToken in auth && gameID in games
    ensures r.Success? ==> r.value == games[gameID].game
    ensures authToken !in auth ==> r == Failure(Unauthorized)
  {
    var _ :- Authenticate(auth, authToken);
    var data :- Lookup(games, gameID);
    Success(data.game)
  }

  /** `makeMove`: the checks in the source's order, then the record holding the moved game.
      A failed check test inside the engine surfaces as its IllegalStateException. */
  function MakeMove(auth: AuthTable, games: GameTable, gameID: int, authToken: string, move: Move)
    : Result<GameData, ServiceError>
  {
    var username :- Authenticate(auth, authToken);
    var data :- Lookup(games, gameID);
    if data.game.None? then Failure(NoGameState)
    else
      var game := data.game.value;
      if game.gameOver then Failure(GameAlreadyOver)
      else
        var color := PlayerColor(data, username);
        if color.None? then Failure(OnlyPlayersCanMove)
        else if game.turn != color.value then Failure(NotYourTurn)
        else match GameRules.ValidMoves(game.board, move.start)
          case Failure(_) => Failure(KingMissing)
          case Success(valid) =>
            if valid.None? || move !in valid.value then Failure(InvalidMoveRequest)
            else match GameRules.MakeMove(game, move)
              case Failure(e) => Failure(if e == KingNotFound then KingMissing else InvalidMoveRequest)
              case Success(next) => Success(data.(game := Some(next)))
  }

  /** `resign`: the record with the game-over flag set. A null game is dereferenced. */
  function Resign(auth: AuthTable, games: GameTable, gameID: int, authToken: string)
    : Result<GameData, ServiceError>
  {
    var username :- Authenticate(auth, authToken);
    var data :- Lookup(games, gameID);
    if data.whiteUsername != Some(username) && data.blackUsername != Some(username) then
      Failure(OnlyPlayersCanResign)
    else if data.game.None? then Failure(NullGame)
    else Success(data.(game := Some(data.game.value.(gameOver := true))))
  }

  /** `leaveGame`: the record with the caller's seat emptied, white checked first. */
  function LeaveGame(auth: AuthTable, games: GameTable, gameID: int, authToken: string)
    : Result<GameData, ServiceError>
  {
    var username :- Authenticate(auth, authToken);
    var data :- Lookup(games, gameID);
    if data.whiteUsername == Some(username) then Success(data.(whiteUsername := None))
    else if data.blackUsername == Some(username) then Success(data.(blackUsername := None))
    else Success(data)
  }

  // ---------------------------------------------------------------- properties

  /** An unknown token is rejected first by every operation, whatever the other arguments,
      so the table is left as it was. */
  lemma UnauthorizedChangesNothing(auth: AuthTable, games: GameTable, nextGameID: int, authToken: string,
                                   gameID: int, name: Option<string>, color: Option<string>, move: Move)
    requires authToken !in auth
    ensures CreateGame(auth, nextGameID, authToken, name) == Failure(Unauthorized)
    ensures JoinGame(auth, games, authToken, gameID, color) == Failure(Unauthorized)
    ensures MakeMove(auth, games, gameID, authToken, move) == Failure(Unauthorized)
    ensures Resign(auth, games, gameID, authToken) == Failure(Unauthorized)
    ensures LeaveGame(auth, games, gameID, authToken) == Failure(Unauthorized)
    ensures Apply(games, gameID, JoinGame(auth, games, authToken, gameID, color)) == games
    ensures Apply(games, gameID, MakeMove(auth, games, gameID, authToken, move)) == games
  {
  }

  /** `createGame` succeeds exactly for a known token and a non-empty name; the record has
      the next id, that name, both seats empty and no game. */
  lemma CreateGameExactly(auth: AuthTable, nextGameID: int, authToken: string, gameName: Option<string>)
    ensures CreateGame(auth, nextGameID, authToken, gameName).Success? <==>
      authToken in auth && gameName.Some? && |gameName.value| > 0
    ensures authToken in auth && CreateGame(auth, nextGameID, authToken, gameName).Failure? ==>
      CreateGame(auth, nextGameID, authToken, gameName).error == BadRequest
    ensures CreateGame(auth, nextGameID, authToken, gameName).Success? ==>
      var g := CreateGame(auth, nextGameID, authToken, gameName).value;
      g.gameID == nextGameID && g.gameName == gameName.value &&
      g.whiteUsername == None && g.blackUsername == None && g.game == None
  {
  }

  /** A join names a colour when it spells WHITE or BLACK in any case. It succeeds exactly when
      the token and the game are known and that colour's seat is free; it then gives that seat
      to the caller and keeps the id, the name, the other seat and the game. An occupied seat
      is "already taken"; no colour at all is a bad request. */
  lemma JoinGameExactly(auth: AuthTable, games: GameTable, authToken: string, gameID: int,
                        playerColor: Option<string>, color: TeamColor)
    requires playerColor.Some? && EqualsIgnoreCase(ColorName(color), playerColor.value)
    ensures JoinGame(auth, games, authToken, gameID, playerColor).Success? <==>
      authToken in auth && gameID in games && Seat(games[gameID], color).None?
    ensures authToken in auth && gameID in games && Seat(games[gameID], color).Some? ==>
      JoinGame(auth, games, authToken, gameID, playerColor) == Failure(AlreadyTaken)
    ensures JoinGame(auth, games, authToken, gameID, playerColor).Success? ==>
      var before, after := games[gameID], JoinGame(auth, games, authToken, gameID, playerColor).value;
      Seat(after, color) == Some(auth[authToken].username) &&
      Seat(after, Other(color)) == Seat(before, Other(color)) &&
      after.gameID == before.gameID && after.gameName == before.gameName && after.game == before.game
  {
    if color == BLACK {
      WhiteIsNotBlack(playerColor.value);
    }
  }

  /** A colour that is neither WHITE nor BLACK, ignoring case, is never accepted. */
  lemma JoinGameBadColor(auth: AuthTable, games: GameTable, authToken: string, gameID: int, playerColor: Option<string>)
    requires playerColor.None? || forall c :: !EqualsIgnoreCase(ColorName(c), playerColor.value)
    ensures JoinGame(auth, games, authToken, gameID, playerColor).Failure?
    ensures authToken in auth && gameID in games ==>
      JoinGame(auth, games, authToken, gameID, playerColor).error == BadRequest
  {
    if playerColor.Some? {
      assert !EqualsIgnoreCase(ColorName(WHITE), playerColor.value);
      assert !EqualsIgnoreCase(ColorName(BLACK), playerColor.value);
    }
  }

  /** `makeMove` rejects in this order: an unknown token, an unknown game, a null game, a
      finished game, a caller in neither seat, a caller whose side is not to move. */
  lemma MakeMoveChecksInOrder(auth: AuthTable, games: GameTable, gameID: int, authToken: string, move: Move)
    ensures var r := MakeMove(auth, games, gameID, authToken, move);
      (authToken !in auth ==> r == Failure(Unauthorized)) &&
      (authToken in auth && gameID !in games ==> r == Failure(BadRequest)) &&
      (authToken in auth && gameID in games ==>
        var data := games[gameID];
        var color := PlayerColor(data, auth[authToken].username);
        (data.game.None? ==> r == Failure(NoGameState)) &&
        (data.game.Some? && data.game.value.gameOver ==> r == Failure(GameAlreadyOver)) &&
        (data.game.Some? && !data.game.value.gameOver && color.None? ==> r == Failure(OnlyPlayersCanMove)) &&
        (data.game.Some? && !data.game.value.gameOver && color.Some? && color.value != data.game.value.turn ==>
           r == Failure(NotYourTurn)))
  {
  }

  /** A move request succeeds exactly when the token and the game are known, the game exists
      and is not over, the caller holds the seat of the side to move, and the engine accepts
      the move. The stored record then keeps its id, seats and name; its game has the piece
      moved, the turn passed to the other side and the game still running. Every other
      outcome is an error, and an engine error is either an invalid move or a missing king. */
  lemma MakeMoveExactly(auth: AuthTable, games: GameTable, gameID: int, authToken: string, move: Move)
    ensures MakeMove(auth, games, gameID, authToken, move).Success? <==>
      authToken in auth && gameID in games && games[gameID].game.Some? &&
      !games[gameID].game.value.gameOver &&
      PlayerColor(games[gameID], auth[authToken].username) == Some(games[gameID].game.value.turn) &&
      GameRules.MakeMove(games[gameID].game.value, move).Success?
    ensures MakeMove(auth, games, gameID, authToken, move).Success? ==>
      var before, after := games[gameID], MakeMove(auth, games, gameID, authToken, move).value;
      var game := before.game.value;
      after.gameID == before.gameID && after.whiteUsername == before.whiteUsername &&
      after.blackUsername == before.blackUsername && after.gameName == before.gameName &&
      after.game == Some(GameState(Simulate(game.board, move, At(game.board, move.start).value),
                                   Other(game.turn), false))
    ensures (authToken in auth && gameID in games && games[gameID].game.Some? &&
             !games[gameID].game.value.gameOver &&
             PlayerColor(games[gameID], auth[authToken].username) == Some(games[gameID].game.value.turn) &&
             MakeMove(auth, games, gameID, authToken, move).Failure?) ==>
      MakeMove(auth, games, gameID, authToken, move).error in {InvalidMoveRequest, KingMissing}
  {
    if authToken in auth && gameID in games && games[gameID].game.Some? {
      var game := games[gameID].game.value;
      MakeMoveAccepts(game, move);
      if GameRules.MakeMove(game, move).Success? {
        MakeMoveEffect(game, move);
      }
    }
  }

  /** A game made by `createGame` holds no game state, so every move on it is refused. */
  lemma CreatedGameRejectsMoves(auth: AuthTable, games: GameTable, nextGameID: int, creator: string,
                                name: Option<string>, mover: string, move: Move)
    requires CreateGame(auth, nextGameID, creator, name).Success?
    requires mover in auth
    ensures var stored := games[nextGameID := CreateGame(auth, nextGameID, creator, name).value];
      MakeMove(auth, stored, nextGameID, mover, move) == Failure(NoGameState)
  {
  }

  /** `resign` succeeds exactly for a player of a known game that holds a game, whether or not
      it is already over; it sets the game-over flag and changes nothing else. */
  lemma ResignExactly(auth: AuthTable, games: GameTable, gameID: int, authToken: string)
    ensures Resign(auth, games, gameID, authToken).Success? <==>
      authToken in auth && gameID in games &&
      PlayerColor(games[gameID], auth[authToken].username).Some? && games[gameID].game.Some?
    ensures (authToken in auth && gameID in games &&
             PlayerColor(games[gameID], auth[authToken].username).None?) ==>
      Resign(auth, games, gameID, authToken) == Failure(OnlyPlayersCanResign)
    ensures Resign(auth, games, gameID, authToken).Success? ==>
      var before, after := games[gameID], Resign(auth, games, gameID, authToken).value;
      after.gameID == before.gameID && after.whiteUsername == before.whiteUsername &&
      after.blackUsername == before.blackUsername && after.gameName == before.gameName &&
      after.game.Some? && after.game.value.gameOver &&
      after.game.value.board == before.game.value.board && after.game.value.turn == before.game.value.turn
  {
  }

  /** After a resignation no one can move in that game. */
  lemma ResignedGameRejectsMoves(auth: AuthTable, games: GameTable, gameID: int, resigner: string,
                                 mover: string, move: Move)
    requires Resign(auth, games, gameID, resigner).Success?
    requires mover in auth
    ensures var stored := Apply(games, gameID, Resign(auth, games, gameID, resigner));
      MakeMove(auth, stored, gameID, mover, move) == Failure(GameAlreadyOver)
  {
  }

  /** The game-over flag is never lowered: on a game that is over no move is accepted, and
      every other operation that succeeds keeps the game over. */
  lemma GameOverIsFinal(auth: AuthTable, games: GameTable, gameID: int, authToken: string,
                        playerColor: Option<string>, move: Move)
    requires gameID in games && games[gameID].game.Some? && games[gameID].game.value.gameOver
    ensures MakeMove(auth, games, gameID, authToken, move).Failure?
    ensures var r := JoinGame(auth, games, authToken, gameID, playerColor);
      r.Success? ==> r.value.game == games[gameID].game
    ensures var r := Resign(auth, games, gameID, authToken);
      r.Success? ==> r.value.game.Some? && r.value.game.value.gameOver
    ensures var r := LeaveGame(auth, games, gameID, authToken);
      r.Success? ==> r.value.game == games[gameID].game
  {
  }

  /** `leaveGame` succeeds for any known token and game. A player's own seat is emptied (white
      first, should the caller hold both) and everything else is kept; for an observer the
      record is written back unchanged. */
  lemma LeaveGameExactly(auth: AuthTable, games: GameTable, gameID: int, authToken: string)
    ensures LeaveGame(auth, games, gameID, authToken).Success? <==> authToken in auth && gameID in games
    ensures LeaveGame(auth, games, gameID, authToken).Success? ==>
      var before, after := games[gameID], LeaveGame(auth, games, gameID, authToken).value;
      var color := PlayerColor(before, auth[authToken].username);
      after.gameID == before.gameID && after.gameName == before.gameName && after.game == before.game &&
      (color.None? ==> after == before) &&
      (color.Some? ==> Seat(after, color.value) == None && Seat(after, Other(color.value)) == Seat(before, Other(color.value)))
  {
  }
}

/** service.GameService over the in-memory game table and the shared auth table. */
module GameServices {
  import opened Wrappers
  import opened ChessPiece
  import opened ChessMove
  import opened GameRules
  import opened Model
  import opened Text
  import opened DataAccess
  import GameStore

  class GameService {
    const gameDAO: MemoryGameDAO
    const authDAO: AuthDAO

    ghost predicate Valid()
      reads gameDAO, authDAO
    {
      gameDAO.Valid() && authDAO.Valid()
    }

    constructor (gameDAO: MemoryGameDAO, authDAO: AuthDAO)
      ensures this.gameDAO == gameDAO && this.authDAO == authDAO
    {
      this.gameDAO := gameDAO;
      this.authDAO := authDAO;
    }

    /** `listGames`: every stored record, for a known token. */
    method ListGames(authToken: string) returns (r: Result<seq<GameData>, ServiceError>)
      requires Valid()
      ensures r.Failure? <==> authToken !in authDAO.authDB
      ensures r.Failure? ==> r.error == Unauthorized
      ensures r.Success? ==>
        |r.value| == |gameDAO.games| &&
        (forall id :: id in gameDAO.games ==> gameDAO.games[id] in r.value) &&
        (forall g :: g in r.value ==> g.gameID in gameDAO.games && gameDAO.games[g.gameID] == g)
    {
      var auth := authDAO.GetAuth(authToken);
      if auth.None? {
        return Failure(Unauthorized);
      }
      var games := gameDAO.ListGames();
      return Success(games);
    }

    /** `createGame`: on success the new record sits under a fresh id above every old one. */
    method CreateGame(authToken: string, gameName: Option<string>) returns (r: Result<GameData, ServiceError>)
      requires Valid()
      modifies gameDAO
      ensures Valid()
      ensures r == GameStore.CreateGame(authDAO.authDB, old(gameDAO.nextGameID), authToken, gameName)
      ensures r.Failure? ==> gameDAO.games == old(gameDAO.games) && gameDAO.nextGameID == old(gameDAO.nextGameID)
      ensures r.Success? ==>
        r.value.gameID !in old(gameDAO.games) &&
        (forall id :: id in old(gameDAO.games) ==> id < r.value.gameID) &&
        gameDAO.games == old(gameDAO.games)[r.value.gameID := r.value] &&
        gameDAO.nextGameID == old(gameDAO.nextGameID) + 1
    {
      var auth := authDAO.GetAuth(authToken);
      if auth.None? {
        return Failure(Unauthorized);
      }
      if gameName.None? || gameName.value == "" {
        return Failure(BadRequest);
      }
      var game := GameData(0, None, None, gameName.value, None);
      var gameID := gameDAO.CreateGame(game);
      return Success(GameData(gameID, None, None, gameName.value, None));
    }

    /** `joinGame`: writes back the record with the requested seat filled, or throws. */
    method JoinGame(authToken: string, gameID: int, playerColor: Option<string>) returns (thrown: Option<ServiceError>)
      requires Valid()
      modifies gameDAO
      ensures Valid() && gameDAO.nextGameID == old(gameDAO.nextGameID)
      ensures var spec := GameStore.JoinGame(authDAO.authDB, old(gameDAO.games), authToken, gameID, playerColor);
        (thrown.None? <==> spec.Success?) && (spec.Failure? ==> thrown == Some(spec.error)) &&
        gameDAO.games == GameStore.Apply(old(gameDAO.games), gameID, spec)
    {
      var auth := authDAO.GetAuth(authToken);
      if auth.None? {
        return Some(Unauthorized);
      }
      var found := gameDAO.GetGame(gameID);
      if found.None? {
        return Some(BadRequest);
      }
      if playerColor.None? || (!EqualsIgnoreCase("WHITE", playerColor.value) && !EqualsIgnoreCase("BLACK", playerColor.value)) {
        return Some(BadRequest);
      }
      var game := found.value;
      if EqualsIgnoreCase("WHITE", playerColor.value) {
        if game.whiteUsername.Some? {
          return Some(AlreadyTaken);
        }
        game := GameData(game.gameID, Some(auth.value.username), game.blackUsername, game.gameName, game.game);
      } else if EqualsIgnoreCase("BLACK", playerColor.value) {
        if game.blackUsername.Some? {
          return Some(AlreadyTaken);
        }
        game := GameData(game.gameID, game.whiteUsername, Some(auth.value.username), game.gameName, game.game);
      }
      var _ := gameDAO.UpdateGame(game);
      return None;
    }

    /** `observeGame`: the stored record. */
    method ObserveGame(authToken: string, gameID: int) returns (r: Result<GameData, ServiceError>)
      requires Valid()
      ensures r == GameStore.ObserveGame(authDAO.authDB, gameDAO.games, authToken, gameID)
    {
      var auth := authDAO.GetAuth(authToken);
      if auth.None? {
        return Failure(Unauthorized);
      }
      var game := gameDAO.GetGame(gameID);
      if game.None? {
        return Failure(BadRequest);
      }
      return Success(game.value);
    }

    /** `getGame`: the game of the stored record. */
    method GetGame(gameID: int, authToken: string) returns (r: Result<Option<GameState>, ServiceError>)
      requires Valid()
      ensures r == GameStore.GetGame(authDAO.authDB, gameDAO.games, gameID, authToken)
    {
      var auth := authDAO.GetAuth(authToken);
      if auth.None? {
        return Failure(Unauthorized);
      }
      var game := gameDAO.GetGame(gameID);
      if game.None? {
        return Failure(BadRequest);
      }
      return Success(game.value.game);
    }

    /** `makeMove`: the ordered checks, then the moved game written back and returned. */
    method MakeMove(gameID: int, authToken: string, move: Move) returns (r: Result<GameState, ServiceError>)
      requires Valid()
      modifies gameDAO
      ensures Valid() && gameDAO.nextGameID == old(gameDAO.nextGameID)
      ensures var spec := GameStore.MakeMove(authDAO.authDB, old(gameDAO.games), gameID, authToken, move);
        (r.Failure? ==> spec == Failure(r.error)) &&
        (r.Success? ==> spec.Success? && spec.value.game == Some(r.value)) &&
        gameDAO.games == GameStore.Apply(old(gameDAO.games), gameID, spec)
    {
      var auth := authDAO.GetAuth(authToken);
      if auth.None? {
        return Failure(Unauthorized);
      }
      var found := gameDAO.GetGame(gameID);
      if found.None? {
        return Failure(BadRequest);
      }
      var gameData := found.value;
      if gameData.game.None? {
        return Failure(NoGameState);
      }
      var game := gameData.game.value;
      if game.gameOver {
        return Failure(GameAlreadyOver);
      }
      var username := auth.value.username;
      var playerColor: TeamColor;
      if gameData.whiteUsername == Some(username) {
        playerColor := WHITE;
      } else if gameData.blackUsername == Some(username) {
        playerColor := BLACK;
      } else {
        return Failure(OnlyPlayersCanMove);
      }
      if game.turn != playerColor {
        return Failure(NotYourTurn);
      }
      var validMoves := GameRules.ValidMoves(game.board, move.start);
      if validMoves.Failure? {
        return Failure(KingMissing);
      }
      if validMoves.value.None? || move !in validMoves.value.value {
        return Failure(InvalidMoveRequest);
      }
      var moved := GameRules.MakeMove(game, move);
      if moved.Failure? {
        return Failure(if moved.error == KingNotFound then KingMissing else InvalidMoveRequest);
      }
      var _ := gameDAO.UpdateGame(GameData(gameData.gameID, gameData.whiteUsername, gameData.blackUsername,
                                           gameData.gameName, Some(moved.value)));
      return Success(moved.value);
    }

    /** `resign`: a player's game is marked over and written back. */
    method Resign(gameID: int, authToken: string) returns (thrown: Option<ServiceError>)
      requires Valid()
      modifies gameDAO
      ensures Valid() && gameDAO.nextGameID == old(gameDAO.nextGameID)
      ensures var spec := GameStore.Resign(authDAO.authDB, old(gameDAO.games), gameID, authToken);
        (thrown.None? <==> spec.Success?) && (spec.Failure? ==> thrown == Some(spec.error)) &&
        gameDAO.games == GameStore.Apply(old(gameDAO.games), gameID, spec)
    {
      var auth := authDAO.GetAuth(authToken);
      if auth.None? {
        return Some(Unauthorized);
      }
      var found := gameDAO.GetGame(gameID);
      if found.None? {
        return Some(BadRequest);
      }
      var gameData := found.value;
      var username := auth.value.username;
      if gameData.whiteUsername != Some(username) && gameData.blackUsername != Some(username) {
        return Some(OnlyPlayersCanResign);
      }
      if gameData.game.None? {
        return Some(NullGame);
      }
      var game := gameData.game.value.(gameOver := true);
      var _ := gameDAO.UpdateGame(GameData(gameData.gameID, gameData.whiteUsername, gameData.blackUsername,
                                           gameData.gameName, Some(game)));
      return None;
    }

    /** `leaveGame`: the caller's seat is emptied and the record written back. */
    method LeaveGame(gameID: int, authToken: string) returns (thrown: Option<ServiceError>)
      requires Valid()
      modifies gameDAO
      ensures Valid() && gameDAO.nextGameID == old(gameDAO.nextGameID)
      ensures var spec := GameStore.LeaveGame(authDAO.authDB, old(gameDAO.games), gameID, authToken);
        (thrown.None? <==> spec.Success?) && (spec.Failure? ==> thrown == Some(spec.error)) &&
        gameDAO.games == GameStore.Apply(old(gameDAO.games), gameID, spec)
    {
      var auth := authDAO.GetAuth(authToken);
      if auth.None? {
        return Some(Unauthorized);
      }
      var found := gameDAO.GetGame(gameID);
      if found.None? {
        return Some(BadRequest);
      }
      var game := found.value;
      var username := auth.value.username;
      var updated := game;
      if game.whiteUsername == Some(username) {
        updated := GameData(game.gameID, None, game.blackUsername, game.gameName, game.game);
      } else if game.blackUsername == Some(username) {
        updated := GameData(game.gameID, game.whiteUsername, None, game.gameName, game.game);
      }
      var _ := gameDAO.UpdateGame(updated);
      return None;
    }
  }
}
