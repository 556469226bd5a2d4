/** What service.UserService, RegisterService and LoginService do to the user and auth
    tables, as functions: each yields the tables afterwards and the result or exception.
    A Java null argument is None; the UUID the source draws is the `freshToken` argument. */
module Accounts {
  import opened Wrappers
  import opened Model
  import opened Text

  /** The two static tables the services share. */
  datatype Tables = Tables(users: map<string, UserData>, auth: map<string, AuthData>)

  /** The tables after a call, and what the call returned or threw. */
  datatype Outcome<T> = Outcome(tables: Tables, result: Result<T, ServiceError>)

  /** Every user sits under its username and every auth record under its token. */
  predicate Keyed(t: Tables) {
    (forall u :: u in t.users ==> t.users[u].username == u) &&
    (forall k :: k in t.auth ==> t.auth[k].authToken == k)
  }

  /** `AuthDAO.createAuth` of a token for `username`, as the last step of a call. */
  function IssueToken(users: map<string, UserData>, auth: map<string, AuthData>, freshToken: string, username: string)
    : Outcome<AuthData>
  {
    if freshToken in auth then Outcome(Tables(users, auth), Failure(AuthTokenExists))
    else Outcome(Tables(users, auth[freshToken := AuthData(freshToken, username)]), Success(AuthData(freshToken, username)))
  }

  // ---------------------------------------------------------------- UserService

  /** `UserService.register`: a null field is a bad request, a taken username is "already
      taken"; otherwise the user is inserted and then a token issued for it. */
  function UserRegister(t: Tables, username: Option<string>, password: Option<string>, email: Option<string>,
                        freshToken: string): Outcome<AuthData>
  {
    if username.None? || password.None? || email.None? then Outcome(t, Failure(BadRequest))
    else if username.value in t.users then Outcome(t, Failure(AlreadyTaken))
    else
      var users := t.users[username.value := UserData(username.value, password.value, email.value)];
      IssueToken(users, t.auth, freshToken, username.value)
  }

  /** `UserService.login`: an unknown (or null) username, or a password `checkpw` refuses
      against the stored one, is unauthorized; otherwise a token is issued. */
  function UserLogin(t: Tables, username: Option<string>, password: string, checkpw: (string, string) -> bool,
                     freshToken: string): Outcome<AuthData>
  {
    if username.None? || username.value !in t.users || !checkpw(password, t.users[username.value].password) then
      Outcome(t, Failure(Unauthorized))
    else IssueToken(t.users, t.auth, freshToken, username.value)
  }

  /** `UserService.logout`: an unknown token is unauthorized; otherwise it is deleted. */
  function UserLogout(t: Tables, authToken: string): Outcome<()> {
    if authToken !in t.auth then Outcome(t, Failure(Unauthorized))
    else Outcome(Tables(t.users, t.auth - {authToken}), Success(()))
  }

  // ---------------------------------------------------------------- RegisterService, LoginService

  /** A null or blank argument. */
  predicate Missing(s: Option<string>) {
    s.None? || IsBlank(s.value)
  }

  /** `RegisterService.register`: a null or blank field is a bad request and a taken username
      the bare "Error"; otherwise the user is created with exactly the given fields and a token
      issued for it. */
  function Register(t: Tables, username: Option<string>, password: Option<string>, email: Option<string>,
                    freshToken: string): Outcome<AuthData>
  {
    if Missing(username) || Missing(password) || Missing(email) then Outcome(t, Failure(BadRequest))
    else if username.value in t.users then Outcome(t, Failure(UsernameExists))
    else
      var users := t.users[username.value := UserData(username.value, password.value, email.value)];
      IssueToken(users, t.auth, freshToken, username.value)
  }

  /** `LoginService.login`: a null or blank argument is a bad request, checked before any
      lookup; an unknown user or a stored password not equal to the given one is
      unauthorized; otherwise a token is issued. */
  function Login(t: Tables, username: Option<string>, password: Option<string>, freshToken: string)
    : Outcome<AuthData>
  {
    if Missing(username) || Missing(password) then Outcome(t, Failure(BadRequest))
    else if username.value !in t.users || t.users[username.value].password != password.value then
      Outcome(t, Failure(Unauthorized))
    else IssueToken(t.users, t.auth, freshToken, username.value)
  }

  // ---------------------------------------------------------------- properties

  /** A token is issued exactly when it is fresh; the new auth record maps it to the user. */
  lemma IssueTokenExactly(users: map<string, UserData>, auth: map<string, AuthData>, freshToken: string, username: string)
    ensures IssueToken(users, auth, freshToken, username).result.Success? <==> freshToken !in auth
    ensures IssueToken(users, auth, freshToken, username).tables.users == users
    ensures var o := IssueToken(users, auth, freshToken, username);
      o.result.Success? ==>
        o.result.value == AuthData(freshToken, username) &&
        freshToken in o.tables.auth && o.tables.auth[freshToken].username == username &&
        (forall k :: k != freshToken ==> (k in o.tables.auth <==> k in auth)) &&
        (forall k :: k in auth ==> o.tables.auth[k] == auth[k])
    ensures var o := IssueToken(users, auth, freshToken, username);
      o.result.Failure? ==> o.result.error == AuthTokenExists && o.tables.auth == auth
  {
  }

  /** `UserService.register` succeeds exactly with three non-null fields, a new username and a
      fresh token. A null field or a taken name changes nothing; a clashing token still leaves
      the new user inserted, since the insert comes first. */
  lemma UserRegisterExactly(t: Tables, username: Option<string>, password: Option<string>, email: Option<string>,
                            freshToken: string)
    ensures var o := UserRegister(t, username, password, email, freshToken);
      o.result.Success? <==>
        username.Some? && password.Some? && email.Some? && username.value !in t.users && freshToken !in t.auth
    ensures var o := UserRegister(t, username, password, email, freshToken);
      (username.None? || password.None? || email.None?) ==> o == Outcome(t, Failure(BadRequest))
    ensures var o := UserRegister(t, username, password, email, freshToken);
      (username.Some? && password.Some? && email.Some? && username.value in t.users) ==>
        o == Outcome(t, Failure(AlreadyTaken))
    ensures var o := UserRegister(t, username, password, email, freshToken);
      (username.Some? && password.Some? && email.Some? && username.value !in t.users) ==>
        o.tables.users == t.users[username.value := UserData(username.value, password.value, email.value)] &&
        (o.result.Success? ==> o.result.value == AuthData(freshToken, username.value) &&
                               o.tables.auth == t.auth[freshToken := o.result.value]) &&
        (o.result.Failure? ==> o.result.error == AuthTokenExists && o.tables.auth == t.auth)
  {
  }

  /** `UserService.login` succeeds exactly for a known username whose stored password passes
      `checkpw`, with a fresh token; it adds one auth record and nothing else. */
  lemma UserLoginExactly(t: Tables, username: Option<string>, password: string, checkpw: (string, string) -> bool,
                         freshToken: string)
    ensures var o := UserLogin(t, username, password, checkpw, freshToken);
      o.result.Success? <==>
        username.Some? && username.value in t.users && checkpw(password, t.users[username.value].password) &&
        freshToken !in t.auth
    ensures var o := UserLogin(t, username, password, checkpw, freshToken);
      (username.None? || username.value !in t.users || !checkpw(password, t.users[username.value].password)) ==>
        o == Outcome(t, Failure(Unauthorized))
    ensures var o := UserLogin(t, username, password, checkpw, freshToken);
      o.tables.users == t.users &&
      (o.result.Success? ==> o.result.value == AuthData(freshToken, username.value) &&
                             o.tables.auth == t.auth[freshToken := o.result.value])
  {
  }

  /** `UserService.logout` succeeds exactly for a known token; afterwards that token is gone
      and every other one untouched. */
  lemma UserLogoutExactly(t: Tables, authToken: string)
    ensures UserLogout(t, authToken).result.Success? <==> authToken in t.auth
    ensures UserLogout(t, authToken).result.Failure? ==> UserLogout(t, authToken) == Outcome(t, Failure(Unauthorized))
    ensures var after := UserLogout(t, authToken).tables;
      after.users == t.users && authToken !in after.auth &&
      forall k :: k != authToken ==> (k in after.auth <==> k in t.auth) && (k in t.auth ==> after.auth[k] == t.auth[k])
  {
  }

  /** Logging out the token a login issued gives back the auth table from before the login. */
  lemma LoginThenLogout(t: Tables, username: Option<string>, password: string, checkpw: (string, string) -> bool,
                        freshToken: string)
    requires UserLogin(t, username, password, checkpw, freshToken).result.Success?
    ensures var afterLogin := UserLogin(t, username, password, checkpw, freshToken).tables;
      UserLogout(afterLogin, freshToken) == Outcome(t, Success(()))
  {
    var afterLogin := UserLogin(t, username, password, checkpw, freshToken).tables;
    assert afterLogin.auth - {freshToken} == t.auth;
  }

  /** `UserService.register` stores the password as given, so a login right after it succeeds
      exactly when `checkpw` accepts the password against itself. */
  lemma UserRegisterThenLogin(t: Tables, username: string, password: string, email: string, token1: string,
                              checkpw: (string, string) -> bool, token2: string)
    requires UserRegister(t, Some(username), Some(password), Some(email), token1).result.Success?
    requires token2 != token1 && token2 !in t.auth
    ensures var afterRegister := UserRegister(t, Some(username), Some(password), Some(email), token1).tables;
      UserLogin(afterRegister, Some(username), password, checkpw, token2).result.Success? <==> checkpw(password, password)
  {
  }

  /** `RegisterService.register` succeeds exactly with three non-blank fields, a new username
      and a fresh token; a missing field is a bad request before the username is looked at. */
  lemma RegisterExactly(t: Tables, username: Option<string>, password: Option<string>, email: Option<string>,
                        freshToken: string)
    ensures var o := Register(t, username, password, email, freshToken);
      o.result.Success? <==>
        !Missing(username) && !Missing(password) && !Missing(email) &&
        username.value !in t.users && freshToken !in t.auth
    ensures (Missing(username) || Missing(password) || Missing(email)) ==>
      Register(t, username, password, email, freshToken) == Outcome(t, Failure(BadRequest))
    ensures (!Missing(username) && !Missing(password) && !Missing(email) && username.value in t.users) ==>
      Register(t, username, password, email, freshToken) == Outcome(t, Failure(UsernameExists))
    ensures var o := Register(t, username, password, email, freshToken);
      o.result.Success? ==>
        o.tables.users == t.users[username.value := UserData(username.value, password.value, email.value)] &&
        o.result.value == AuthData(freshToken, username.value) &&
        o.tables.auth == t.auth[freshToken := o.result.value]
  {
  }

  /** `LoginService.login` succeeds exactly with non-blank arguments naming a user whose
      stored password is the given one, and a fresh token. */
  lemma LoginExactly(t: Tables, username: Option<string>, password: Option<string>, freshToken: string)
    ensures var o := Login(t, username, password, freshToken);
      o.result.Success? <==>
        !Missing(username) && !Missing(password) && username.value in t.users &&
        t.users[username.value].password == password.value && freshToken !in t.auth
    ensures (Missing(username) || Missing(password)) ==>
      Login(t, username, password, freshToken) == Outcome(t, Failure(BadRequest))
    ensures (!Missing(username) && !Missing(password) &&
             (username.value !in t.users || t.users[username.value].password != password.value)) ==>
      Login(t, username, password, freshToken) == Outcome(t, Failure(Unauthorized))
    ensures var o := Login(t, username, password, freshToken);
      o.tables.users == t.users &&
      (o.result.Success? ==> o.result.value == AuthData(freshToken, username.value) &&
                             o.tables.auth == t.auth[freshToken := o.result.value])
  {
  }

  /** Whoever registers through RegisterService can then log in through LoginService with the
      same name and password. */
  lemma RegisterThenLogin(t: Tables, username: string, password: string, email: string, token1: string, token2: string)
    requires Register(t, Some(username), Some(password), Some(email), token1).result.Success?
    requires token2 != token1 && token2 !in t.auth
    ensures var afterRegister := Register(t, Some(username), Some(password), Some(email), token1).tables;
      Login(afterRegister, Some(username), Some(password), token2) ==
        Outcome(Tables(afterRegister.users, afterRegister.auth[token2 := AuthData(token2, username)]),
                Success(AuthData(token2, username)))
  {
  }

  /** Every operation keeps users under their names and auth records under their tokens. */
  lemma OperationsKeepKeys(t: Tables, username: Option<string>, password: Option<string>, email: Option<string>,
                           plain: string, checkpw: (string, string) -> bool, freshToken: string, authToken: string)
    requires Keyed(t)
    ensures Keyed(UserRegister(t, username, password, email, freshToken).tables)
    ensures Keyed(UserLogin(t, username, plain, checkpw, freshToken).tables)
    ensures Keyed(UserLogout(t, authToken).tables)
    ensures Keyed(Register(t, username, password, email, freshToken).tables)
    ensures Keyed(Login(t, username, password, freshToken).tables)
  {
  }
}

/** The three account services as classes over the shared UserDAO and AuthDAO. */
module AccountServices {
  import opened Wrappers
  import opened Model
  import opened DataAccess
  import opened Text
  import Accounts

  /** `service.UserService`. */
  class UserService {
    const userDAO: UserDAO
    const authDAO: AuthDAO

    ghost predicate Valid()
      reads userDAO, authDAO
    {
      userDAO.Valid() && authDAO.Valid()
    }

    ghost function Tables(): Accounts.Tables
      reads userDAO, authDAO
    {
      Accounts.Tables(userDAO.userDB, authDAO.authDB)
    }

    constructor (userDAO: UserDAO, authDAO: AuthDAO)
      ensures this.userDAO == userDAO && this.authDAO == authDAO
    {
      this.userDAO := userDAO;
      this.authDAO := authDAO;
    }

    /** `register`, with the user's fields possibly null. */
    method Register(username: Option<string>, password: Option<string>, email: Option<string>, freshToken: string)
      returns (r: Result<AuthData, ServiceError>)
      requires Valid()
      modifies userDAO, authDAO
      ensures Valid()
      ensures Accounts.Outcome(Tables(), r) == Accounts.UserRegister(old(Tables()), username, password, email, freshToken)
    {
      if username.None? || password.None? || email.None? {
        return Failure(BadRequest);
      }
      var existing := userDAO.GetUser(username.value);
      if existing.Some? {
        return Failure(AlreadyTaken);
      }
      var _ := userDAO.CreateUser(UserData(username.value, password.value, email.value));
      var auth := AuthData(freshToken, username.value);
      var ok := authDAO.CreateAuth(auth);
      if !ok {
        return Failure(AuthTokenExists);
      }
      return Success(auth);
    }

    /** `login`, with `BCrypt.checkpw` as the `checkpw` argument. */
    method Login(username: Option<string>, password: string, checkpw: (string, string) -> bool, freshToken: string)
      returns (r: Result<AuthData, ServiceError>)
      requires Valid()
      modifies authDAO
      ensures Valid()
      ensures Accounts.Outcome(Tables(), r) == Accounts.UserLogin(old(Tables()), username, password, checkpw, freshToken)
    {
      var user := if username.None? then None else userDAO.GetUser(username.value);
      if user.None? || !checkpw(password, user.value.password) {
        return Failure(Unauthorized);
      }
      var auth := AuthData(freshToken, username.value);
      var ok := authDAO.CreateAuth(auth);
      if !ok {
        return Failure(AuthTokenExists);
      }
      return Success(auth);
    }

    /** `logout`. */
    method Logout(authToken: string) returns (r: Result<(), ServiceError>)
      requires Valid()
      modifies authDAO
      ensures Valid()
      ensures Accounts.Outcome(Tables(), r) == Accounts.UserLogout(old(Tables()), authToken)
    {
      var auth := authDAO.GetAuth(authToken);
      if auth.None? {
        return Failure(Unauthorized);
      }
      var _ := authDAO.DeleteAuth(authToken);
      return Success(());
    }
  }

  /** `service.RegisterService`; its `new UserDAO()` and `new AuthDAO()` reach the same static
      tables, which the two fields stand for. */
  class RegisterService {
    const userDAO: UserDAO
    const authDAO: AuthDAO

    ghost predicate Valid()
      reads userDAO, authDAO
    {
      userDAO.Valid() && authDAO.Valid()
    }

    ghost function Tables(): Accounts.Tables
      reads userDAO, authDAO
    {
      Accounts.Tables(userDAO.userDB, authDAO.authDB)
    }

    constructor (userDAO: UserDAO, authDAO: AuthDAO)
      ensures this.userDAO == userDAO && this.authDAO == authDAO
    {
      this.userDAO := userDAO;
      this.authDAO := authDAO;
    }

    /** `register`. */
    method Register(username: Option<string>, password: Option<string>, email: Option<string>, freshToken: string)
      returns (r: Result<AuthData, ServiceError>)
      requires Valid()
      modifies userDAO, authDAO
      ensures Valid()
      ensures Accounts.Outcome(Tables(), r) == Accounts.Register(old(Tables()), username, password, email, freshToken)
    {
      if username.None? || password.None? || email.None? ||
         IsBlank(username.value) || IsBlank(password.value) || IsBlank(email.value) {
        return Failure(BadRequest);
      }
      var existing := userDAO.GetUser(username.value);
      if existing.Some? {
        return Failure(UsernameExists);
      }
      var _ := userDAO.CreateUser(UserData(username.value, password.value, email.value));
      var authData := AuthData(freshToken, username.value);
      var ok := authDAO.CreateAuth(authData);
      if !ok {
        return Failure(AuthTokenExists);
      }
      return Success(authData);
    }
  }

  /** `service.LoginService`, over the same static tables. */
  class LoginService {
    const userDAO: UserDAO
    const authDAO: AuthDAO

    ghost predicate Valid()
      reads userDAO, authDAO
    {
      userDAO.Valid() && authDAO.Valid()
    }

    ghost function Tables(): Accounts.Tables
      reads userDAO, authDAO
    {
      Accounts.Tables(userDAO.userDB, authDAO.authDB)
    }

    constructor (userDAO: UserDAO, authDAO: AuthDAO)
      ensures this.userDAO == userDAO && this.authDAO == authDAO
    {
      this.userDAO := userDAO;
      this.authDAO := authDAO;
    }

    /** `login`. */
    method Login(username: Option<string>, password: Option<string>, freshToken: string)
      returns (r: Result<AuthData, ServiceError>)
      requires Valid()
      modifies authDAO
      ensures Valid()
      ensures Accounts.Outcome(Tables(), r) == Accounts.Login(old(Tables()), username, password, freshToken)
    {
      if username.None? || password.None? || IsBlank(username.value) || IsBlank(password.value) {
        return Failure(BadRequest);
      }
      var user := userDAO.GetUser(username.value);
      if user.None? || user.value.password != password.value {
        return Failure(Unauthorized);
      }
      var authData := AuthData(freshToken, username.value);
      var ok := authDAO.CreateAuth(authData);
      if !ok {
        return Failure(AuthTokenExists);
      }
      return Success(authData);
    }
  }
}
