/** The four authentication handlers over one store holding the `users` and
    `user_sessions` tables: sign-up (signup.ts), sign-in (signin.ts), the
    current-user lookup (me.ts) and sign-out (signout.ts, and the identical
    signout-fixed.ts). Each handler is a method; its postcondition gives the
    response and the whole new state of both tables, branch by branch. */
module Auth {
  import opened Wrappers
  import opened Bcrypt
  import opened Jwt
  import opened Tables
  import opened Validation
  import opened Cookies
  import opened Http
  import opened Lookup

  /** What a handler takes from outside the request: the clock reading
      (`Date.now()`, milliseconds), whether `NODE_ENV` is `production`, and
      the address check zod's `email()` performs. */
  datatype Env = Env(now: nat, production: bool, isEmail: string -> bool)

  /** The id of the user holding `email`; unique under `EmailsUnique`. */
  ghost function AccountOf(users: map<Id, User>, email: string): (id: Id)
    requires HasEmail(users, email)
    ensures id in users && users[id].email == email
  {
    var id :| id in users && users[id].email == email; id
  }

  lemma AccountOfUnique(users: map<Id, User>, email: string, id: Id)
    requires EmailsUnique(users) && id in users && users[id].email == email
    ensures AccountOf(users, email) == id
  {
  }

  /** `signInUser` gets past its three checks: a user has that email, is
      active, and the password matches the stored hash. */
  ghost predicate Authentic(users: map<Id, User>, email: string, password: string) {
    && HasEmail(users, email)
    && Active(users[AccountOf(users, email)])
    && Compare(password, users[AccountOf(users, email)].passwordHash)
  }

  /** The three ways a sign-in is refused are an unknown email, an inactive
      user (a null flag included) and a wrong password (a missing hash
      included); all of them lead to the same answer. */
  lemma RefusedSignIn(users: map<Id, User>, email: string, password: string)
    requires EmailsUnique(users)
    ensures !Authentic(users, email, password) <==>
      || !HasEmail(users, email)
      || (exists id :: id in users && users[id].email == email && users[id].isActive != Some(true))
      || (exists id :: id in users && users[id].email == email && !Compare(password, users[id].passwordHash))
  {
    if HasEmail(users, email) {
      var id := AccountOf(users, email);
      forall other | other in users && users[other].email == email
        ensures other == id
      {
        AccountOfUnique(users, email, other);
      }
    }
  }

  class AuthStore {
    var users: map<Id, User>
    var sessions: seq<Session>

    /** The database's own constraints. */
    ghost predicate Valid()
      reads this
    {
      TablesValid(users, sessions)
    }

    /** Every session row was written by these handlers. */
    ghost predicate Issued()
      reads this
    {
      RowsIssued(users, sessions)
    }

    /** The tables as setup-tables.ts creates them: empty. */
    constructor ()
      ensures users == map[] && sessions == []
      ensures Valid() && Issued()
    {
      users := map[];
      sessions := [];
    }

    /** `createUser`: hash the password with cost 12 and insert the row.
        The insert fails on an id or email already present. */
    method CreateUser(data: SignUpData, id: Id, salt: nat, now: nat) returns (r: Result<User, DbError>)
      requires Valid()
      modifies this
      ensures Valid() && sessions == old(sessions)
      ensures id in old(users) ==> r == Err(UniqueViolation("id")) && users == old(users)
      ensures id !in old(users) && HasEmail(old(users), data.email) ==>
                r == Err(UniqueViolation("email")) && users == old(users)
      ensures id !in old(users) && !HasEmail(old(users), data.email) ==>
                && r == Ok(NewUser(data, id, Hash(data.password, salt), now))
                && users == old(users)[id := r.value]
      ensures old(Issued()) ==> Issued()
    {
      if id in users {
        return Err(UniqueViolation("id"));
      }
      if HasEmail(users, data.email) {
        return Err(UniqueViolation("email"));
      }
      var user := NewUser(data, id, Hash(data.password, salt), now);
      if Issued() {
        IssuedGrow(users, users[id := user], sessions);
      }
      users := users[id := user];
      r := Ok(user);
    }

    /** `createUserSession`, and the same steps inlined in `signInUser`:
        sign a token for `userId` and insert its row, expiring seven days
        from now. The insert fails when the token is already stored. */
    method CreateUserSession(userId: Id, userAgent: Option<string>, ipAddress: Option<string>, now: nat)
      returns (r: Result<string, DbError>)
      requires Valid()
      modifies this
      ensures Valid() && users == old(users)
      ensures HasToken(old(sessions), Sign(userId, now)) ==>
                r == Err(UniqueViolation("session_token")) && sessions == old(sessions)
      ensures !HasToken(old(sessions), Sign(userId, now)) ==>
                && r == Ok(Sign(userId, now))
                && sessions == old(sessions) + [NewSession(userId, r.value, userAgent, ipAddress, now)]
      ensures old(Issued()) && userId in users ==> Issued()
    {
      var token := Sign(userId, now);
      if HasToken(sessions, token) {
        return Err(UniqueViolation("session_token"));
      }
      var row := NewSession(userId, token, userAgent, ipAddress, now);
      UniqueSnoc(sessions, row);
      if Issued() && userId in users {
        NewSessionIssued(users, sessions, userId, userAgent, ipAddress, now);
      }
      sessions := sessions + [row];
      r := Ok(token);
    }

    /** `signInUser`: `None` when the credentials are refused; otherwise the
        user row as read before the update, and the new token. Only that
        user's `lastLoginAt` changes, and it changes before the session
        insert, so it stays changed when the insert fails. */
    method SignInUser(email: string, password: string, userAgent: Option<string>, ipAddress: Option<string>, now: nat)
      returns (r: Result<Option<(User, string)>, DbError>)
      requires Valid()
      modifies this
      ensures Valid()
      ensures !Authentic(old(users), email, password) ==>
                r == Ok(None) && users == old(users) && sessions == old(sessions)
      ensures Authentic(old(users), email, password) ==>
                var id := AccountOf(old(users), email);
                var token := Sign(id, now);
                && users == Touch(old(users), id, now)
                && (HasToken(old(sessions), token) ==>
                      r == Err(UniqueViolation("session_token")) && sessions == old(sessions))
                && (!HasToken(old(sessions), token) ==>
                      && r == Ok(Some((old(users)[id], token)))
                      && sessions == old(sessions) + [NewSession(id, token, userAgent, ipAddress, now)])
      ensures old(Issued()) ==> Issued()
    {
      if !HasEmail(users, email) {
        return Ok(None);
      }
      var id :| id in users && users[id].email == email;
      AccountOfUnique(users, email, id);
      var user := users[id];
      if !Active(user) || !Compare(password, user.passwordHash) {
        return Ok(None);
      }
      TouchValid(users, sessions, user.id, now);
      if Issued() {
        IssuedGrow(users, Touch(users, user.id, now), sessions);
      }
      users := Touch(users, user.id, now);
      var created := CreateUserSession(user.id, userAgent, ipAddress, now);
      match created
      case Err(e) => r := Err(e);
      case Ok(token) => r := Ok(Some((user, token)));
    }

    /** The sign-up handler. `newId` is the id `gen_random_uuid()` draws and
        `salt` the salt `bcrypt.hash` draws. */
    method SignUp(req: Request, body: SignUpBody, env: Env, newId: Id, salt: nat) returns (resp: Response)
      requires Valid()
      modifies this
      ensures Valid()
      ensures req.verb != "POST" ==>
                resp == MethodNotAllowed && users == old(users) && sessions == old(sessions)
      ensures req.verb == "POST" && ParseSignUp(body, env.isEmail).Err? ==>
                && resp == Rejected(ParseSignUp(body, env.isEmail).error)
                && users == old(users) && sessions == old(sessions)
      ensures req.verb == "POST" && ParseSignUp(body, env.isEmail).Ok? ==>
                var data := ParseSignUp(body, env.isEmail).value;
                var user := NewUser(data, newId, Hash(data.password, salt), env.now);
                var token := Sign(newId, env.now);
                && (HasEmail(old(users), data.email) ==>
                      resp == UserExists && users == old(users) && sessions == old(sessions))
                && (!HasEmail(old(users), data.email) && newId in old(users) ==>
                      resp == InternalError && users == old(users) && sessions == old(sessions))
                && (!HasEmail(old(users), data.email) && newId !in old(users) ==>
                      && users == old(users)[newId := user]
                      && (HasToken(old(sessions), token) ==>
                            resp == InternalError && sessions == old(sessions))
                      && (!HasToken(old(sessions), token) ==>
                            && resp == Authenticate(user, token, env.production)
                            && sessions == old(sessions) + [NewSession(newId, token, req.userAgent, ClientIp(req), env.now)]))
      ensures old(Issued()) ==> Issued()
    {
      if req.verb != "POST" {
        return MethodNotAllowed;
      }
      match ParseSignUp(body, env.isEmail)
      case Err(issues) =>
        resp := Rejected(issues);
      case Ok(data) =>
        if HasEmail(users, data.email) {
          return UserExists;
        }
        var created := CreateUser(data, newId, salt, env.now);
        if created.Err? {
          return InternalError;
        }
        var user := created.value;
        var session := CreateUserSession(user.id, req.userAgent, ClientIp(req), env.now);
        match session
        case Err(_) => resp := InternalError;
        case Ok(token) => resp := Authenticate(user, token, env.production);
    }

    /** The sign-in handler. */
    method SignIn(req: Request, body: SignInBody, env: Env) returns (resp: Response)
      requires Valid()
      modifies this
      ensures Valid()
      ensures req.verb != "POST" ==>
                resp == MethodNotAllowed && users == old(users) && sessions == old(sessions)
      ensures req.verb == "POST" && ParseSignIn(body, env.isEmail).Err? ==>
                && resp == Rejected(ParseSignIn(body, env.isEmail).error)
                && users == old(users) && sessions == old(sessions)
      ensures req.verb == "POST" && ParseSignIn(body, env.isEmail).Ok? ==>
                var c := ParseSignIn(body, env.isEmail).value;
                && (!Authentic(old(users), c.email, c.password) ==>
                      resp == InvalidCredentials && users == old(users) && sessions == old(sessions))
                && (Authentic(old(users), c.email, c.password) ==>
                      var id := AccountOf(old(users), c.email);
                      var token := Sign(id, env.now);
                      && users == Touch(old(users), id, env.now)
                      && (HasToken(old(sessions), token) ==>
                            resp == InternalError && sessions == old(sessions))
                      && (!HasToken(old(sessions), token) ==>
                            && resp == Authenticate(old(users)[id], token, env.production)
                            && sessions == old(sessions) + [NewSession(id, token, req.userAgent, ClientIp(req), env.now)]))
      ensures old(Issued()) ==> Issued()
    {
      if req.verb != "POST" {
        return MethodNotAllowed;
      }
      match ParseSignIn(body, env.isEmail)
      case Err(issues) =>
        resp := Rejected(issues);
      case Ok(c) =>
        var result := SignInUser(c.email, c.password, req.userAgent, ClientIp(req), env.now);
        match result
        case Err(_) => resp := InternalError;
        case Ok(None) => resp := InvalidCredentials;
        case Ok(Some(signedIn)) => resp := Authenticate(signedIn.0, signedIn.1, env.production);
    }

    /** The current-user handler. It has no `modifies` clause: it reads the
        tables and changes neither. */
    method CurrentUser(req: Request, now: nat) returns (resp: Response)
      ensures req.verb != "GET" ==> resp == MethodNotAllowed
      ensures req.verb == "GET" ==>
                var token := SessionToken(req.cookieToken, req.cookieHeader);
                && (token.None? ==> resp == NoSessionToken)
                && (token.Some? && UserBySessionToken(users, sessions, token.value, now).None? ==>
                      resp == InvalidSession)
                && (token.Some? && UserBySessionToken(users, sessions, token.value, now).Some? ==>
                      var u := UserBySessionToken(users, sessions, token.value, now).value;
                      resp == Response(200, Profile(Public(u), u.lastLoginAt), []))
    {
      if req.verb != "GET" {
        return MethodNotAllowed;
      }
      var token := ExtractToken(req.cookieToken, req.cookieHeader);
      if token.None? {
        return NoSessionToken;
      }
      match UserBySessionToken(users, sessions, token.value, now)
      case None => resp := InvalidSession;
      case Some(u) => resp := Response(200, Profile(Public(u), u.lastLoginAt), []);
    }

    /** The sign-out handler: delete the rows holding the request's token,
        if it has one, and clear the cookie either way. */
    method SignOut(req: Request) returns (resp: Response)
      requires Valid()
      modifies this
      ensures Valid() && users == old(users)
      ensures req.verb != "POST" ==> resp == MethodNotAllowed && sessions == old(sessions)
      ensures req.verb == "POST" ==>
                && resp == SignedOut
                && sessions == SessionsAfterSignOut(old(sessions), SessionToken(req.cookieToken, req.cookieHeader))
      ensures old(Issued()) ==> Issued()
    {
      if req.verb != "POST" {
        return MethodNotAllowed;
      }
      var token := ExtractToken(req.cookieToken, req.cookieHeader);
      if token.Some? {
        RemoveTokenUnique(sessions, token.value);
        if Issued() {
          RemoveTokenIssued(users, sessions, token.value);
        }
      }
      sessions := SessionsAfterSignOut(sessions, token);
      resp := SignedOut;
    }
  }

  /** The session table after a sign-out that found `token`: the rows with
      that token are gone and every other row is kept; without a token,
      nothing changes. */
  function SessionsAfterSignOut(sessions: seq<Session>, token: Option<string>): (r: seq<Session>)
    ensures |r| <= |sessions|
    ensures forall s :: s in r <==> s in sessions && (token.None? || s.sessionToken != token.value)
  {
    if token.Some? then RemoveToken(sessions, token.value) else sessions
  }

  /** Signing out twice with the same request leaves the table as signing
      out once. */
  lemma SignOutIdempotent(sessions: seq<Session>, token: Option<string>)
    ensures SessionsAfterSignOut(SessionsAfterSignOut(sessions, token), token) == SessionsAfterSignOut(sessions, token)
  {
    if token.Some? {
      RemoveTokenIdempotent(sessions, token.value);
    }
  }
}
