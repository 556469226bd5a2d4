/** websocket.WebSocketCommunicator: the registry of open connections and the rule that picks
    who receives a message. A session is reduced to its id and whether it is open, and a
    send to the token that receives it. */
module Communicator {
  import opened Wrappers
  import opened Model
  import opened DataAccess

  /** A Jetty session as far as recipient selection sees it. */
  datatype Session = Session(id: int, isOpen: bool)

  class WebSocketCommunicator {
    /** The static `connections` map: authToken to session. */
    var connections: map<string, Session>
    /** The static `tokenToUsername` map: authToken to username. */
    var tokenToUsername: map<string, string>
    const gameDAO: MemoryGameDAO
    const authDAO: AuthDAO

    /** A username is only ever recorded for a token that has a connection. */
    ghost predicate Valid()
      reads this
    {
      tokenToUsername.Keys <= connections.Keys
    }

    constructor (gameDAO: MemoryGameDAO, authDAO: AuthDAO)
      ensures Valid() && connections == map[] && tokenToUsername == map[]
      ensures this.gameDAO == gameDAO && this.authDAO == authDAO
    {
      connections := map[];
      tokenToUsername := map[];
      this.gameDAO := gameDAO;
      this.authDAO := authDAO;
    }

    /** `addConnection`: the token now maps to `session`, replacing any earlier one; its
        username is recorded only when the auth table knows the token, and is otherwise left
        as it was. */
    method AddConnection(authToken: string, session: Session)
      requires Valid()
      modifies this
      ensures Valid()
      ensures connections == old(connections)[authToken := session]
      ensures tokenToUsername ==
        if authToken in authDAO.authDB then old(tokenToUsername)[authToken := authDAO.authDB[authToken].username]
        else old(tokenToUsername)
    {
      connections := connections[authToken := session];
      var auth := authDAO.GetAuth(authToken);
      if auth.Some? {
        tokenToUsername := tokenToUsername[authToken := auth.value.username];
      }
    }

    /** `removeConnection`: both entries of the token go; other tokens are untouched. */
    method RemoveConnection(authToken: string)
      requires Valid()
      modifies this
      ensures Valid()
      ensures connections == old(connections) - {authToken}
      ensures tokenToUsername == old(tokenToUsername) - {authToken}
    {
      connections := connections - {authToken};
      tokenToUsername := tokenToUsername - {authToken};
    }

    /** The token has a session and it is open. */
    ghost predicate IsOpen(token: string)
      reads this
    {
      token in connections && connections[token].isOpen
    }

    /** `sendMessage(authToken, message)`: the session written to, if any. Only an open
        session of that token receives; otherwise nothing is sent. */
    method SendMessage(authToken: string) returns (sent: Option<Session>)
      ensures sent.Some? <==> IsOpen(authToken)
      ensures sent.Some? ==> sent.value == connections[authToken]
    {
      var session := if authToken in connections then Some(connections[authToken]) else None;
      if session.Some? && session.value.isOpen {
        return session;
      }
      return None;
    }

    /** Who `broadcastToGame(gameID, message, exceptAuthToken)` writes to: an open session
        whose recorded user holds a seat of that (existing) game, other than the excepted
        token. A null `exceptAuthToken` excepts no one. */
    ghost predicate InGameAudience(token: string, gameID: int, exceptAuthToken: Option<string>)
      reads this, gameDAO
    {
      IsOpen(token) && token in tokenToUsername && gameID in gameDAO.games &&
      (gameDAO.games[gameID].whiteUsername == Some(tokenToUsername[token]) ||
       gameDAO.games[gameID].blackUsername == Some(tokenToUsername[token])) &&
      exceptAuthToken != Some(token)
    }

    /** `broadcastToGame`: the tokens written to are exactly its audience, so an observer,
        a closed session, a token with no recorded user and the excepted token never receive. */
    method BroadcastToGame(gameID: int, exceptAuthToken: Option<string>) returns (recipients: set<string>)
      ensures forall token :: token in recipients <==> InGameAudience(token, gameID, exceptAuthToken)
      ensures forall token :: token in recipients ==>
        token in tokenToUsername && gameID in gameDAO.games &&
        Some(tokenToUsername[token]) in {gameDAO.games[gameID].whiteUsername, gameDAO.games[gameID].blackUsername}
    {
      recipients := {};
      var remaining := connections.Keys;
      while remaining != {}
        invariant remaining <= connections.Keys
        invariant forall token :: token in recipients <==>
          token !in remaining && InGameAudience(token, gameID, exceptAuthToken)
        decreases |remaining|
      {
        var token := PickKey(remaining);
        var session := connections[token];
        remaining := remaining - {token};
        if !session.isOpen {
          continue;
        }
        if token !in tokenToUsername {
          continue;
        }
        var username := tokenToUsername[token];
        var game := gameDAO.GetGame(gameID);
        if game.None? {
          continue;
        }
        var inGame := game.value.whiteUsername == Some(username) || game.value.blackUsername == Some(username);
        if inGame && exceptAuthToken != Some(token) {
          recipients := recipients + {token};
        }
      }
    }

    /** `broadcast(senderToken, gameID, message)`: every open session except the sender's,
        whatever game it follows. */
    method Broadcast(senderToken: Option<string>, gameID: int) returns (recipients: set<string>)
      ensures forall token :: token in recipients <==> IsOpen(token) && senderToken != Some(token)
    {
      recipients := {};
      var remaining := connections.Keys;
      while remaining != {}
        invariant remaining <= connections.Keys
        invariant forall token :: token in recipients <==>
          token !in remaining && IsOpen(token) && senderToken != Some(token)
        decreases |remaining|
      {
        var token := PickKey(remaining);
        var session := connections[token];
        remaining := remaining - {token};
        if !session.isOpen {
          continue;
        }
        if senderToken != Some(token) {
          recipients := recipients + {token};
        }
      }
    }

    /** `getUsername`: the recorded username, or "Error: invalid authToken". While the
        registry is valid, a token that has a username also has a connection, so a token
        removed by `removeConnection` is answered with the error. */
    function GetUsername(authToken: string): (r: Result<string, ServiceError>)
      reads this
      ensures r.Success? <==> authToken in tokenToUsername
      ensures r.Success? ==> r.value == tokenToUsername[authToken]
      ensures r.Failure? ==> r.error == InvalidAuthToken
      ensures Valid() && authToken !in connections ==> r.Failure?
    {
      if authToken in tokenToUsername then Success(tokenToUsername[authToken]) else Failure(InvalidAuthToken)
    }

    /** A token `getAuthToken(username)` may answer: its session is open and the auth table
        maps it to that (non-null) username. */
    ghost predicate ConnectedAs(token: string, username: Option<string>)
      reads this, authDAO
    {
      IsOpen(token) && token in authDAO.authDB && Some(authDAO.authDB[token].username) == username
    }

    /** `getAuthToken`: some token connected as `username`, in the map's iteration order,
        or None (null) when there is none. */
    method GetAuthToken(username: Option<string>) returns (r: Option<string>)
      ensures r.Some? ==> ConnectedAs(r.value, username)
      ensures r.None? <==> forall token :: !ConnectedAs(token, username)
    {
      var remaining := connections.Keys;
      while remaining != {}
        invariant remaining <= connections.Keys
        invariant forall token :: token !in remaining ==> !ConnectedAs(token, username)
        decreases |remaining|
      {
        var token := PickKey(remaining);
        var session := connections[token];
        remaining := remaining - {token};
        if !session.isOpen {
          continue;
        }
        var auth := authDAO.GetAuth(token);
        if auth.Some? && Some(auth.value.username) == username {
          assert ConnectedAs(token, username);
          return Some(token);
        }
      }
      return None;
    }
  }

  /** Removing a connection cuts it off from every broadcast: afterwards the token is in no
      game's audience and is not open. */
  lemma RemovedTokenIsSilent(c: WebSocketCommunicator, token: string, gameID: int, except: Option<string>)
    requires token !in c.connections
    ensures !c.IsOpen(token)
    ensures !c.InGameAudience(token, gameID, except)
  {
  }
}
