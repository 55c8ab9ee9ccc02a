/** Client sessions against a fresh store: a browser that signs up, echoes
    the cookie back, signs in again and signs out. */
module Scenarios {
  import opened Wrappers
  import opened Text
  import opened Jwt
  import opened Tables
  import opened Validation
  import opened Cookies
  import opened Http
  import opened Lookup
  import opened Auth

  /** A request from a browser that holds no `req.cookies`, sends `header`
      as its `Cookie` header and no client headers. */
  function Browser(verb: string, header: Option<string>): Request {
    Request(verb, None, header, None, None, None)
  }

  /** A user id as `gen_random_uuid()` draws it: no `;`, and no trailing
      whitespace. */
  predicate PlainId(id: Id) {
    ';' !in id && (id == "" || !IsJsWhitespace(id[|id| - 1]))
  }

  /** The token a sign-up sets survives the trip through the browser. */
  lemma SignedTokenReadBack(id: Id, now: nat, production: bool)
    requires PlainId(id)
    ensures var token := Sign(id, now);
            && Split(IssueCookie(token, production), ';')[0] == SessionCookieName + "=" + token
            && SessionToken(None, Some(SessionCookieName + "=" + token)) == Some(token)
  {
    var digits := Decimal(now / 1000);
    var token := Sign(id, now);
    assert ';' !in digits;
    assert ';' !in token by {
      assert token == digits + "." + id;
    }
    assert !IsJsWhitespace(token[|token| - 1]) by {
      if id == "" {
        assert token[|token| - 1] == '.';
      } else {
        assert token[|token| - 1] == id[|id| - 1];
      }
    }
    IssuedCookiePair(token, production);
    IssuedCookieReadBack(token);
  }

  /** Sign up, then send back the cookie the response set: the current-user
      handler answers with the same user object, not yet signed in. */
  method SignUpThenCurrentUser(body: SignUpBody, env: Env, newId: Id, salt: nat)
    returns (signUp: Response, me: Response)
    requires SignUpAcceptable(body, env.isEmail) && PlainId(newId)
    ensures signUp.status == 200 && signUp.body.Authenticated?
    ensures me.status == 200 && me.body.Profile?
    ensures me.body.user == signUp.body.user && me.body.lastLoginAt == None
  {
    var store := new AuthStore();
    signUp := store.SignUp(Browser("POST", None), body, env, newId, salt);
    var token := signUp.body.sessionToken;
    assert token == Sign(newId, env.now);
    SignedTokenReadBack(newId, env.now, env.production);
    var header := Split(signUp.setCookie[0], ';')[0];
    LookupAfterIssue(store.users, [], newId, None, None, env.now, env.now);
    assert [] + [NewSession(newId, token, None, None, env.now)] == store.sessions;
    me := store.CurrentUser(Browser("GET", Some(header)), env.now);
  }

  /** Sign up, then sign in with the same credentials at `later`. Because
      `sign` is deterministic and keeps whole seconds, a sign-in within the
      same second as the sign-up produces the very token already stored:
      the insert breaks the unique constraint and the answer is a 500,
      although the credentials are right and `lastLoginAt` was updated. In
      any other second the sign-in succeeds with the same user object. */
  method SignUpThenSignIn(body: SignUpBody, env: Env, newId: Id, salt: nat, later: nat)
    returns (signUp: Response, signIn: Response, lastLogin: Option<nat>)
    requires SignUpAcceptable(body, env.isEmail)
    ensures signUp.status == 200 && signUp.body.Authenticated?
    ensures lastLogin == Some(later)
    ensures later / 1000 == env.now / 1000 ==> signIn == InternalError
    ensures later / 1000 != env.now / 1000 ==>
              && signIn.status == 200 && signIn.body.Authenticated?
              && signIn.body.user == signUp.body.user
              && signIn.body.sessionToken != signUp.body.sessionToken
  {
    var store := new AuthStore();
    var data := ParseSignUp(body, env.isEmail).value;
    signUp := store.SignUp(Browser("POST", None), body, env, newId, salt);
    AccountOfUnique(store.users, data.email, newId);
    assert Authentic(store.users, data.email, data.password);
    SignSameExactly(newId, later, newId, env.now);
    assert HasToken(store.sessions, Sign(newId, later)) <==> later / 1000 == env.now / 1000 by {
      assert store.sessions == [NewSession(newId, Sign(newId, env.now), None, None, env.now)];
      if Sign(newId, later) == Sign(newId, env.now) {
        assert store.sessions[0].sessionToken == Sign(newId, later);
      }
    }
    signIn := store.SignIn(Browser("POST", None), SignInBody(body.email, body.password), env.(now := later));
    lastLogin := store.users[newId].lastLoginAt;
  }

  /** Sign up, then sign out twice with the cookie: both answers clear the
      cookie, the second deletes nothing more, and the token no longer
      authenticates. */
  method SignUpThenSignOutTwice(body: SignUpBody, env: Env, newId: Id, salt: nat)
    returns (first: Response, second: Response, me: Response)
    requires SignUpAcceptable(body, env.isEmail)
    ensures first == SignedOut && second == SignedOut
    ensures me == InvalidSession
  {
    var store := new AuthStore();
    var signUp := store.SignUp(Browser("POST", None), body, env, newId, salt);
    var token := Sign(newId, env.now);
    var withCookie := Request("POST", Some(token), None, None, None, None);
    first := store.SignOut(withCookie);
    var afterFirst := store.sessions;
    second := store.SignOut(withCookie);
    SignOutIdempotent(afterFirst, Some(token));
    LookupAfterRemove(store.users, afterFirst, token, env.now);
    me := store.CurrentUser(withCookie.(verb := "GET"), env.now);
  }
}
