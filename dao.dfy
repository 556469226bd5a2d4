/** The records the server stores (model.GameData, model.AuthData, model.UserData). */
module Model {
  import opened Wrappers
  import opened GameRules

  /** `GameData(gameID, whiteUsername, blackUsername, gameName, game)`: a null player slot is
      None, and so is a null game. The game is held as the value of its state. */
  datatype GameData = GameData(
    gameID: int,
    whiteUsername: Option<string>,
    blackUsername: Option<string>,
    gameName: string,
    game: Option<GameState>)

  /** `AuthData(authToken, username)`. */
  datatype AuthData = AuthData(authToken: string, username: string)

  /** `UserData(username, password, email)`. */
  datatype UserData = UserData(username: string, password: string, email: string)

  /** The exceptions the services throw, each named after its message. */
  datatype ServiceError =
    | Unauthorized          // "Error: unauthorized"
    | BadRequest            // "Error: bad request"
    | AlreadyTaken          // "Error: already taken"
    | NoGameState           // "Error: no game state"
    | GameAlreadyOver       // "Error: game is already over"
    | OnlyPlayersCanMove    // "Error: only players can move"
    | NotYourTurn           // "Error: not your turn"
    | InvalidMoveRequest    // "Error: invalid move"
    | OnlyPlayersCanResign  // "Error: only players can resign"
    | KingMissing           // ChessGame's IllegalStateException "King not found on the board."
    | NullGame              // the NullPointerException of `resign` on a record without a game
    | AuthTokenExists       // AuthDAO's "Error: Auth token already exists"
    | UsernameExists        // RegisterService's bare "Error" for a taken username
    | InvalidAuthToken      // WebSocketCommunicator's "Error: invalid authToken"
}

/** dataaccess.MemoryGameDAO, AuthDAO and UserDAO: tables held in maps and updated in place. */
module DataAccess {
  import opened Wrappers
  import opened Model

  /** A non-empty set has a member. */
  lemma NonEmptyHasMember<K>(keys: set<K>)
    requires keys != {}
    ensures exists key :: key in keys
  {
    if forall key :: key !in keys {
      assert false;
    }
  }

  /** The next key of an iteration over `keys`, whichever it is: the model leaves a hash
      map's iteration order open. */
  method PickKey<K>(keys: set<K>) returns (key: K)
    requires keys != {}
    ensures key in keys
  {
    NonEmptyHasMember(keys);
    key :| key in keys;
  }

  /** `MemoryGameDAO`: the games table and the counter for the next id. */
  class MemoryGameDAO {
    var games: map<int, GameData>
    var nextGameID: int

    /** Every stored game sits under its own id, and every id is below the next one. */
    ghost predicate Valid()
      reads this
    {
      nextGameID >= 1 &&
      forall id :: id in games ==> 1 <= id < nextGameID && games[id].gameID == id
    }

    constructor ()
      ensures Valid() && games == map[] && nextGameID == 1
    {
      games := map[];
      nextGameID := 1;
    }

    /** `createGame`: stores a copy of `game` under the current counter, which then moves
        on. The id handed out was never used before and exceeds every stored id. */
    method CreateGame(game: GameData) returns (id: int)
      requires Valid()
      modifies this
      ensures Valid()
      ensures id == old(nextGameID) && id !in old(games)
      ensures forall other :: other in old(games) ==> other < id
      ensures games == old(games)[id := game.(gameID := id)]
      ensures nextGameID == old(nextGameID) + 1
    {
      id := nextGameID;
      nextGameID := nextGameID + 1;
      games := games[id := game.(gameID := id)];
    }

    /** `getGame`: the stored record, or None (null) for an unknown id. */
    function GetGame(id: int): (r: Option<GameData>)
      reads this
      ensures r.Some? <==> id in games
      ensures r.Some? ==> r.value == games[id]
    {
      if id in games then Some(games[id]) else None
    }

    /** `listGames`: a fresh list of every stored record, in the map's iteration order
        (left open here: any order may be taken). */
    method ListGames() returns (list: seq<GameData>)
      requires Valid()
      ensures |list| == |games|
      ensures forall id :: id in games ==> games[id] in list
      ensures forall g :: g in list ==> g.gameID in games && games[g.gameID] == g
    {
      list := [];
      var remaining := games.Keys;
      while remaining != {}
        invariant remaining <= games.Keys
        invariant |list| + |remaining| == |games.Keys|
        invariant forall id :: id in games.Keys - remaining ==> games[id] in list
        invariant forall g :: g in list ==> g.gameID in games.Keys - remaining && games[g.gameID] == g
        decreases |remaining|
      {
        var id := PickKey(remaining);
        list := list + [games[id]];
        remaining := remaining - {id};
      }
    }

    /** `updateGame`: fails ("game not found") when no record has the game's id; otherwise
        replaces only that record. */
    method UpdateGame(game: GameData) returns (ok: bool)
      requires Valid()
      modifies this
      ensures Valid()
      ensures ok <==> game.gameID in old(games)
      ensures games == if ok then old(games)[game.gameID := game] else old(games)
      ensures nextGameID == old(nextGameID)
    {
      if game.gameID !in games {
        return false;
      }
      games := games[game.gameID := game];
      return true;
    }

    /** `clear`: no games, and ids start again from 1. */
    method Clear()
      modifies this
      ensures Valid() && games == map[] && nextGameID == 1
    {
      games := map[];
      nextGameID := 1;
    }
  }

  /** `AuthDAO`: the static token table, one shared instance. */
  class AuthDAO {
    var authDB: map<string, AuthData>

    /** Every record sits under its own token. */
    ghost predicate Valid()
      reads this
    {
      forall t :: t in authDB ==> authDB[t].authToken == t
    }

    constructor ()
      ensures Valid() && authDB == map[]
    {
      authDB := map[];
    }

    /** `createAuth`: fails ("Auth token already exists") for a token already present,
        changing nothing; otherwise stores the record under its token. */
    method CreateAuth(authData: AuthData) returns (ok: bool)
      requires Valid()
      modifies this
      ensures Valid()
      ensures ok <==> authData.authToken !in old(authDB)
      ensures authDB == if ok then old(authDB)[authData.authToken := authData] else old(authDB)
    {
      if authData.authToken in authDB {
        return false;
      }
      authDB := authDB[authData.authToken := authData];
      return true;
    }

    /** `getAuth`: the record for a token, or None (null) for an unknown one. */
    function GetAuth(authToken: string): (r: Option<AuthData>)
      reads this
      ensures r.Some? <==> authToken in authDB
      ensures r.Some? ==> r.value == authDB[authToken]
    {
      if authToken in authDB then Some(authDB[authToken]) else None
    }

    /** `deleteAuth`: true exactly when the token was present; afterwards it is absent and
        every other token is untouched. */
    method DeleteAuth(authToken: string) returns (removed: bool)
      requires Valid()
      modifies this
      ensures Valid()
      ensures removed <==> authToken in old(authDB)
      ensures authDB == old(authDB) - {authToken}
    {
      removed := authToken in authDB;
      authDB := authDB - {authToken};
    }

    /** `clearAuthTokens`. */
    method ClearAuthTokens()
      modifies this
      ensures Valid() && authDB == map[]
    {
      authDB := map[];
    }
  }

  /** `UserDAO`: the static user table, one shared instance. */
  class UserDAO {
    var userDB: map<string, UserData>

    /** Every record sits under its own username. */
    ghost predicate Valid()
      reads this
    {
      forall u :: u in userDB ==> userDB[u].username == u
    }

    constructor ()
      ensures Valid() && userDB == map[]
    {
      userDB := map[];
    }

    /** `createUser`: fails ("User already exists") for a taken username, changing nothing;
        otherwise stores the record under its username. */
    method CreateUser(user: UserData) returns (ok: bool)
      requires Valid()
      modifies this
      ensures Valid()
      ensures ok <==> user.username !in old(userDB)
      ensures userDB == if ok then old(userDB)[user.username := user] else old(userDB)
    {
      if user.username in userDB {
        return false;
      }
      userDB := userDB[user.username := user];
      return true;
    }

    /** `getUser`: the stored record, or None (null) for an unknown username. */
    function GetUser(username: string): (r: Option<UserData>)
      reads this
      ensures r.Some? <==> username in userDB
      ensures r.Some? ==> r.value == userDB[username]
    {
      if username in userDB then Some(userDB[username]) else None
    }

    /** `clearUsers`. */
    method ClearUsers()
      modifies this
      ensures Valid() && userDB == map[]
    {
      userDB := map[];
    }
  }
}
