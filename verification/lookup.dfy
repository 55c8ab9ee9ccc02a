/** `getUserBySessionToken` (me.ts): verify the token, find its session row,
    reject an expired row, then load the user the TOKEN names. It only reads
    the tables, so it is a function of a snapshot of them and of the clock. */
module Lookup {
  import opened Wrappers
  import opened Jwt
  import opened Tables

  /** `select().from(userSessions).where(eq(sessionToken, token)).limit(1)`:
      the first row holding exactly that token. */
  function FirstWithToken(sessions: seq<Session>, token: string): (r: Option<Session>)
    ensures r.Some? <==> HasToken(sessions, token)
    ensures r.Some? ==> r.value in sessions && r.value.sessionToken == token
  {
    if sessions == [] then None
    else if sessions[0].sessionToken == token then Some(sessions[0])
    else FirstWithToken(sessions[1..], token)
  }

  /** A row appended with a token no earlier row holds is the one found. */
  lemma {:induction false} FirstWithTokenAppended(sessions: seq<Session>, s: Session)
    requires !HasToken(sessions, s.sessionToken)
    ensures FirstWithToken(sessions + [s], s.sessionToken) == Some(s)
  {
    if sessions != [] {
      assert (sessions + [s])[1..] == sessions[1..] + [s];
      assert !HasToken(sessions[1..], s.sessionToken) by {
        forall i | 0 <= i < |sessions| - 1
          ensures sessions[1..][i].sessionToken != s.sessionToken
        {
          assert sessions[1..][i] == sessions[i + 1];
        }
      }
      FirstWithTokenAppended(sessions[1..], s);
    }
  }

  /** The user a session token stands for at the clock reading `now`
      (milliseconds), or `None` for every kind of failure: a token that does
      not verify, no row with that token, a row whose `expiresAt` is before
      `now`, or no user with the id the token carries. */
  function UserBySessionToken(users: map<Id, User>, sessions: seq<Session>, token: string, now: nat): (r: Option<User>)
    ensures r.Some? <==>
      && Verify(token, now).Some? && Verify(token, now).value in users
      && HasToken(sessions, token) && now <= FirstWithToken(sessions, token).value.expiresAt
    ensures r.Some? ==> r.value == users[Verify(token, now).value]
  {
    match Verify(token, now)
    case None => None
    case Some(userId) =>
      match FirstWithToken(sessions, token)
      case None => None
      case Some(s) =>
        if s.expiresAt < now then None
        else if userId in users then Some(users[userId])
        else None
  }

  /** The expiry comparison is strict: a row whose `expiresAt` equals the
      current instant still authenticates. */
  lemma ExpiryBoundaryInclusive(users: map<Id, User>, sessions: seq<Session>, token: string, now: nat)
    requires Verify(token, now).Some? && Verify(token, now).value in users
    requires HasToken(sessions, token) && FirstWithToken(sessions, token).value.expiresAt == now
    ensures UserBySessionToken(users, sessions, token, now) == Some(users[Verify(token, now).value])
  {
  }

  /** The user returned is the one the token names, whatever user the
      session row records; and `isActive` is not consulted: deactivating
      that user changes nothing. */
  lemma UserFromTokenNotRow(users: map<Id, User>, sessions: seq<Session>, token: string, now: nat, active: Option<bool>)
    requires KeysAreIds(users)
    requires UserBySessionToken(users, sessions, token, now).Some?
    ensures UserBySessionToken(users, sessions, token, now).value.id == Decode(token).value.userId
    ensures var id := Decode(token).value.userId;
            UserBySessionToken(users[id := users[id].(isActive := active)], sessions, token, now)
            == Some(users[id].(isActive := active))
  {
  }

  /** On rows the handlers wrote, the token always expires before its row
      does: whenever the token verifies, the row found is strictly in the
      future, so the row check and the user check never decide. Lookup then
      succeeds exactly when the token verifies and some row holds it. */
  lemma IssuedTokensExpireFirst(users: map<Id, User>, sessions: seq<Session>, token: string, now: nat)
    requires RowsIssued(users, sessions)
    requires Verify(token, now).Some? && HasToken(sessions, token)
    ensures now < FirstWithToken(sessions, token).value.expiresAt
    ensures UserBySessionToken(users, sessions, token, now).Some?
  {
    var s := FirstWithToken(sessions, token).value;
    var i :| 0 <= i < |sessions| && sessions[i] == s;
    assert IssuedRow(users, sessions[i]);
    var iat := Decode(token).value.iat;
    assert now / 1000 < iat + ExpiresInSeconds;
    assert now < (iat + ExpiresInSeconds) * 1000;
  }

  /** A row the handlers just inserted makes its token authenticate its
      user until the token's expiry second, and not from then on. */
  lemma LookupAfterIssue(users: map<Id, User>, sessions: seq<Session>, userId: Id, userAgent: Option<string>,
                         ipAddress: Option<string>, issuedMs: nat, now: nat)
    requires userId in users
    requires !HasToken(sessions, Sign(userId, issuedMs))
    ensures var token := Sign(userId, issuedMs);
            var after := sessions + [NewSession(userId, token, userAgent, ipAddress, issuedMs)];
            UserBySessionToken(users, after, token, now)
            == if now / 1000 < issuedMs / 1000 + ExpiresInSeconds then Some(users[userId]) else None
  {
    var token := Sign(userId, issuedMs);
    var s := NewSession(userId, token, userAgent, ipAddress, issuedMs);
    VerifySign(userId, issuedMs, now);
    FirstWithTokenAppended(sessions, s);
    if now / 1000 < issuedMs / 1000 + ExpiresInSeconds {
      assert now < (issuedMs / 1000 + ExpiresInSeconds) * 1000;
    }
  }

  /** Once its rows are deleted a token no longer authenticates. */
  lemma LookupAfterRemove(users: map<Id, User>, sessions: seq<Session>, token: string, now: nat)
    ensures UserBySessionToken(users, RemoveToken(sessions, token), token, now).None?
  {
  }
}
