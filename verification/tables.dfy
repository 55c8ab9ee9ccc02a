/** The two tables the authentication handlers share, `users` and
    `user_sessions`, as the drizzle schemas in signup.ts, signin.ts, me.ts
    and signout.ts declare them, with the constraints the database enforces
    (primary key `id`, unique `email`, unique `session_token`). Timestamps
    are milliseconds since the epoch. */
module Tables {
  import opened Wrappers
  import opened Bcrypt
  import opened Jwt
  import opened Validation

  /** The `id` column: a `gen_random_uuid()` string. */
  type Id = string

  /** A row of `users`. Nullable columns are `Option`s. */
  datatype User = User(
    id: Id, email: string, passwordHash: Option<Digest>, name: string, role: string,
    ageGroup: Option<string>, packageId: Option<string>, subscriptionStatus: Option<string>,
    schoolId: Option<string>, parentUserId: Option<string>, grade: Option<string>,
    subjects: Option<string>, lastLoginAt: Option<nat>, isActive: Option<bool>,
    createdAt: Option<nat>, updatedAt: Option<nat>)

  /** A row of `user_sessions`; its own `id` column is not modelled. */
  datatype Session = Session(
    userId: Id, sessionToken: string, expiresAt: nat,
    userAgent: Option<string>, ipAddress: Option<string>, createdAt: Option<nat>)

  /** The failure an insert meets when it breaks a constraint; the handlers
      turn it into a 500. */
  datatype DbError = UniqueViolation(column: string)

  /** `7 * 24 * 60 * 60 * 1000`: how long after its creation a session row
      expires. */
  const SessionLifetimeMs := 7 * 24 * 60 * 60 * 1000

  /** The map from ids to rows is keyed by each row's own `id`. */
  predicate KeysAreIds(users: map<Id, User>) {
    forall id :: id in users ==> users[id].id == id
  }

  /** `email TEXT NOT NULL UNIQUE`. */
  predicate EmailsUnique(users: map<Id, User>) {
    forall a, b :: a in users && b in users && users[a].email == users[b].email ==> a == b
  }

  /** `session_token TEXT NOT NULL UNIQUE`. */
  predicate TokensUnique(sessions: seq<Session>) {
    forall i, j :: 0 <= i < j < |sessions| ==> sessions[i].sessionToken != sessions[j].sessionToken
  }

  /** What the database guarantees of every state of the two tables. */
  predicate TablesValid(users: map<Id, User>, sessions: seq<Session>) {
    KeysAreIds(users) && EmailsUnique(users) && TokensUnique(sessions)
  }

  predicate HasEmail(users: map<Id, User>, email: string) {
    exists id :: id in users && users[id].email == email
  }

  predicate HasToken(sessions: seq<Session>, token: string) {
    exists i :: 0 <= i < |sessions| && sessions[i].sessionToken == token
  }

  /** `user.isActive` is truthy: a null flag counts as inactive. */
  predicate Active(u: User) {
    u.isActive == Some(true)
  }

  /** A session row as the handlers write it: its token was signed for its
      own user, it expires no earlier than the token does, and its user
      exists. */
  predicate IssuedRow(users: map<Id, User>, s: Session) {
    && Decode(s.sessionToken).Some?
    && Decode(s.sessionToken).value.userId == s.userId
    && Decode(s.sessionToken).value.iat * 1000 + SessionLifetimeMs <= s.expiresAt
    && s.userId in users
  }

  predicate RowsIssued(users: map<Id, User>, sessions: seq<Session>) {
    forall i :: 0 <= i < |sessions| ==> IssuedRow(users, sessions[i])
  }

  /** The row `createUser` inserts and `.returning()` gives back: the
      database fills in `id` and both timestamps; `childName` and
      `schoolName` have no column. */
  function NewUser(data: SignUpData, id: Id, hash: Digest, now: nat): User {
    User(id, data.email, Some(hash), data.name, data.role, data.ageGroup, data.packageId,
         Some("pending"), None, None, None, None, None, Some(true), Some(now), Some(now))
  }

  /** `childName` and `schoolName` pass the schema and go nowhere: the row
      does not depend on them. */
  lemma NewUserDropsUnstored(data: SignUpData, id: Id, hash: Digest, now: nat, childName: Option<string>, schoolName: Option<string>)
    ensures NewUser(data.(childName := childName, schoolName := schoolName), id, hash, now) == NewUser(data, id, hash, now)
  {
  }

  /** The row `createUserSession` (and `signInUser`) inserts. */
  function NewSession(userId: Id, token: string, userAgent: Option<string>, ipAddress: Option<string>, now: nat): Session {
    Session(userId, token, now + SessionLifetimeMs, userAgent, ipAddress, Some(now))
  }

  /** `db.delete(userSessions).where(eq(userSessions.sessionToken, token))`:
      the rows left are exactly those with another token. */
  function RemoveToken(sessions: seq<Session>, token: string): (r: seq<Session>)
    ensures |r| <= |sessions|
    ensures forall s :: s in r <==> s in sessions && s.sessionToken != token
    ensures !HasToken(r, token)
  {
    if sessions == [] then []
    else if sessions[0].sessionToken == token then RemoveToken(sessions[1..], token)
    else [sessions[0]] + RemoveToken(sessions[1..], token)
  }

  /** Deleting the same token again deletes nothing more. */
  lemma {:induction false} RemoveTokenIdempotent(sessions: seq<Session>, token: string)
    ensures RemoveToken(RemoveToken(sessions, token), token) == RemoveToken(sessions, token)
  {
    if sessions != [] {
      RemoveTokenIdempotent(sessions[1..], token);
    }
  }

  /** A delete whose token matches no row leaves the table as it was. */
  lemma {:induction false} RemoveTokenAbsent(sessions: seq<Session>, token: string)
    requires !HasToken(sessions, token)
    ensures RemoveToken(sessions, token) == sessions
  {
    if sessions != [] {
      assert !HasToken(sessions[1..], token) by {
        forall i | 0 <= i < |sessions| - 1
          ensures sessions[1..][i].sessionToken != token
        {
          assert sessions[1..][i] == sessions[i + 1];
        }
      }
      RemoveTokenAbsent(sessions[1..], token);
    }
  }

  /** Unique tokens stay unique in the rows after the first, and the
      first token appears nowhere after it. */
  lemma UniqueTail(sessions: seq<Session>)
    requires sessions != [] && TokensUnique(sessions)
    ensures TokensUnique(sessions[1..])
    ensures !HasToken(sessions[1..], sessions[0].sessionToken)
  {
    var rest := sessions[1..];
    forall i | 0 <= i < |rest|
      ensures rest[i] == sessions[i + 1]
    {
    }
  }

  /** A row may go in front of rows with unique tokens other than its own. */
  lemma UniqueCons(s: Session, rest: seq<Session>)
    requires TokensUnique(rest) && !HasToken(rest, s.sessionToken)
    ensures TokensUnique([s] + rest)
  {
    var r := [s] + rest;
    forall i, j | 0 <= i < j < |r|
      ensures r[i].sessionToken != r[j].sessionToken
    {
      assert r[j] == rest[j - 1];
      if i > 0 {
        assert r[i] == rest[i - 1];
      }
    }
  }

  /** With unique tokens a delete removes at most one row, and the tokens
      left stay unique. */
  lemma {:induction false} RemoveTokenUnique(sessions: seq<Session>, token: string)
    requires TokensUnique(sessions)
    ensures TokensUnique(RemoveToken(sessions, token))
    ensures |RemoveToken(sessions, token)| + 1 >= |sessions|
  {
    if sessions != [] {
      var rest := sessions[1..];
      UniqueTail(sessions);
      RemoveTokenUnique(rest, token);
      if sessions[0].sessionToken == token {
        RemoveTokenAbsent(rest, token);
      } else {
        var tail := RemoveToken(rest, token);
        assert !HasToken(tail, sessions[0].sessionToken) by {
          forall j | 0 <= j < |tail|
            ensures tail[j].sessionToken != sessions[0].sessionToken
          {
            assert tail[j] in rest;
          }
        }
        UniqueCons(sessions[0], tail);
      }
    }
  }

  /** A delete keeps every remaining row as it was written. */
  lemma RemoveTokenIssued(users: map<Id, User>, sessions: seq<Session>, token: string)
    requires RowsIssued(users, sessions)
    ensures RowsIssued(users, RemoveToken(sessions, token))
  {
    var r := RemoveToken(sessions, token);
    forall i | 0 <= i < |r|
      ensures IssuedRow(users, r[i])
    {
      assert r[i] in sessions;
    }
  }

  /** `update(users).set({ lastLoginAt: now }).where(eq(users.id, id))`. */
  function Touch(users: map<Id, User>, id: Id, now: nat): (r: map<Id, User>)
    requires id in users
    ensures r.Keys == users.Keys
    ensures r[id].lastLoginAt == Some(now)
    ensures r[id] == users[id].(lastLoginAt := Some(now))
    ensures forall k :: k in users && k != id ==> r[k] == users[k]
  {
    users[id := users[id].(lastLoginAt := Some(now))]
  }

  /** Updating `lastLoginAt` keeps every constraint. */
  lemma TouchValid(users: map<Id, User>, sessions: seq<Session>, id: Id, now: nat)
    requires TablesValid(users, sessions) && id in users
    ensures TablesValid(Touch(users, id, now), sessions)
  {
    var r := Touch(users, id, now);
    forall a, b | a in r && b in r && r[a].email == r[b].email
      ensures a == b
    {
      assert r[a].email == users[a].email && r[b].email == users[b].email;
    }
  }

  /** A row may be appended after rows with unique tokens other than its own. */
  lemma UniqueSnoc(sessions: seq<Session>, s: Session)
    requires TokensUnique(sessions) && !HasToken(sessions, s.sessionToken)
    ensures TokensUnique(sessions + [s])
  {
    var r := sessions + [s];
    forall i, j | 0 <= i < j < |r|
      ensures r[i].sessionToken != r[j].sessionToken
    {
      assert r[i] == sessions[i];
      if j < |sessions| {
        assert r[j] == sessions[j];
      }
    }
  }

  /** Rows stay issued when users are added or updated in place. */
  lemma IssuedGrow(users: map<Id, User>, users': map<Id, User>, sessions: seq<Session>)
    requires RowsIssued(users, sessions) && users.Keys <= users'.Keys
    ensures RowsIssued(users', sessions)
  {
    forall i | 0 <= i < |sessions|
      ensures IssuedRow(users', sessions[i])
    {
      assert IssuedRow(users, sessions[i]);
    }
  }

  /** The row the handlers insert for an existing user is issued. */
  lemma NewSessionIssued(users: map<Id, User>, sessions: seq<Session>, userId: Id, userAgent: Option<string>,
                         ipAddress: Option<string>, now: nat)
    requires RowsIssued(users, sessions) && userId in users
    ensures RowsIssued(users, sessions + [NewSession(userId, Sign(userId, now), userAgent, ipAddress, now)])
  {
    var s := NewSession(userId, Sign(userId, now), userAgent, ipAddress, now);
    DecodeSign(userId, now);
    assert (now / 1000) * 1000 <= now;
    assert IssuedRow(users, s);
    var r := sessions + [s];
    forall i | 0 <= i < |r|
      ensures IssuedRow(users, r[i])
    {
      if i < |sessions| {
        assert r[i] == sessions[i];
      }
    }
  }

  /** On issued rows no token signed for a user id that does not exist yet
      is in use: the session insert of a sign-up never meets the unique
      constraint. */
  lemma FreshIdFreshToken(users: map<Id, User>, sessions: seq<Session>, id: Id, now: nat)
    requires RowsIssued(users, sessions) && id !in users
    ensures !HasToken(sessions, Sign(id, now))
  {
    DecodeSign(id, now);
    forall i | 0 <= i < |sessions|
      ensures sessions[i].sessionToken != Sign(id, now)
    {
      assert IssuedRow(users, sessions[i]);
    }
  }
}
