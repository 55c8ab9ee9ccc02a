/** What the handlers read from a request and write to a response: status,
    JSON body, and the `Set-Cookie` header. */
module Http {
  import opened Wrappers
  import opened Text
  import opened Jwt
  import opened Tables
  import opened Validation
  import opened Cookies

  /** The parts of a `VercelRequest` the handlers look at. The JSON body is
      passed to each handler separately, in the shape its schema reads. */
  datatype Request = Request(
    verb: string,                   // `req.method`
    cookieToken: Option<string>,    // `req.cookies?.sessionToken`
    cookieHeader: Option<string>,   // `req.headers.cookie`
    userAgent: Option<string>,      // `req.headers['user-agent']`
    forwardedFor: Option<string>,   // `req.headers['x-forwarded-for']`
    remoteAddress: Option<string>)  // `req.connection?.remoteAddress`

  /** The `user` object of a response body: the columns the handlers copy
      out of a row. There is no place for `passwordHash`. */
  datatype PublicUser = PublicUser(
    id: Id, email: string, name: string, role: string, ageGroup: Option<string>,
    packageId: Option<string>, subscriptionStatus: Option<string>, isActive: Option<bool>,
    createdAt: Option<nat>, updatedAt: Option<nat>)

  datatype Body =
    | Error(error: string)
    | InvalidInput(details: seq<Issue>)              // `{ error: 'Invalid input data', details }`
    | Message(message: string)
    | Profile(user: PublicUser, lastLoginAt: Option<nat>)
    | Authenticated(user: PublicUser, sessionToken: string)

  datatype Response = Response(status: nat, body: Body, setCookie: seq<string>)

  /** The user object the handlers build from a row. */
  function Public(u: User): PublicUser {
    PublicUser(u.id, u.email, u.name, u.role, u.ageGroup, u.packageId, u.subscriptionStatus,
               u.isActive, u.createdAt, u.updatedAt)
  }

  /** A response user object does not depend on the stored hash: two rows
      that differ only in `passwordHash` give the same object. */
  lemma PublicHidesHash(u: User, v: User)
    requires v == u.(passwordHash := v.passwordHash)
    ensures Public(u) == Public(v)
  {
  }

  const MethodNotAllowed := Response(405, Error("Method not allowed"), [])
  const InternalError := Response(500, Error("Internal server error"), [])
  const InvalidCredentials := Response(401, Error("Invalid email or password"), [])
  const UserExists := Response(400, Error("User already exists"), [])
  const NoSessionToken := Response(401, Error("No session token"), [])
  const InvalidSession := Response(401, Error("Invalid or expired session"), [])

  /** A `ZodError` turned into a 400. */
  function Rejected(details: seq<Issue>): Response {
    Response(400, InvalidInput(details), [])
  }

  /** `Max-Age=604800`: the cookie lives as long as the session row and the
      token. */
  const CookieMaxAge := 604800

  /** The attributes of the issued cookie, its `Max-Age` written out from
      `CookieMaxAge`. */
  const CookieAttributes := " Max-Age=" + Decimal(CookieMaxAge) + "; Path=/; HttpOnly; SameSite=Strict"

  /** The cookie's age is the session row's lifetime and the token's `7d`,
      and the attributes read `Max-Age=604800`. */
  lemma CookieAgeIsSessionLifetime()
    ensures CookieMaxAge * 1000 == SessionLifetimeMs && CookieMaxAge == ExpiresInSeconds
    ensures Decimal(CookieMaxAge) == "604800"
  {
    assert Decimal(6) == "6";
    assert Decimal(60) == Decimal(6) + "0";
    assert Decimal(604) == Decimal(60) + "4";
    assert Decimal(6048) == Decimal(604) + "8";
    assert Decimal(60480) == Decimal(6048) + "0";
    assert Decimal(604800) == Decimal(60480) + "0";
  }

  const SecureAttribute := "; Secure"

  /** The `Set-Cookie` value sign-in and sign-up send: the token, the
      attributes, and `; Secure` only when `NODE_ENV` is `production`. */
  function IssueCookie(token: string, production: bool): (c: string)
    ensures |c| > |SessionCookieName| + 1 + |token|
    ensures c[..|SessionCookieName| + 1 + |token|] == SessionCookieName + "=" + token
    ensures production <==> c[|c| - |SecureAttribute|..] == SecureAttribute
  {
    var pair := SessionCookieName + "=" + token;
    var c := pair + ";" + CookieAttributes;
    assert c[..|pair|] == pair;
    assert c[|c| - |SecureAttribute|..] == CookieAttributes[|CookieAttributes| - |SecureAttribute|..];
    assert CookieAttributes[|CookieAttributes| - |SecureAttribute|] == 'e';
    if production then
      assert (c + SecureAttribute)[..|pair|] == pair;
      c + SecureAttribute
    else c
  }

  /** What a browser sends back for the cookie `IssueCookie` sets is the
      pair before its first `;`. */
  lemma IssuedCookiePair(token: string, production: bool)
    requires ';' !in token
    ensures Split(IssueCookie(token, production), ';')[0] == SessionCookieName + "=" + token
  {
    var pair := SessionCookieName + "=" + token;
    var rest := CookieAttributes + if production then SecureAttribute else "";
    assert ';' !in pair;
    assert IssueCookie(token, production) == pair + [';'] + rest;
    SplitAtFirst(pair, ';', rest);
  }

  /** The handlers read that pair back as the very token, whenever the
      token holds no `;` and does not end in whitespace. */
  lemma IssuedCookieReadBack(token: string)
    requires token != "" && ';' !in token && !IsJsWhitespace(token[|token| - 1])
    ensures SessionToken(None, Some(SessionCookieName + "=" + token)) == Some(token)
  {
    SingleCookie(SessionCookieName, token);
  }

  const ClearAttributes := " Path=/; HttpOnly; SameSite=Strict; Max-Age=0"

  /** The `Set-Cookie` value sign-out sends:
      `sessionToken=; Path=/; HttpOnly; SameSite=Strict; Max-Age=0`. */
  const ClearCookie := SessionCookieName + "=" + ";" + ClearAttributes

  /** A browser that kept the cleared cookie sends `sessionToken=`, which
      the handlers read as no token at all. */
  lemma ClearedCookiePair()
    ensures Split(ClearCookie, ';')[0] == SessionCookieName + "="
  {
    var pair := SessionCookieName + "=";
    assert ';' !in pair;
    assert ClearCookie == pair + [';'] + ClearAttributes;
    SplitAtFirst(pair, ';', ClearAttributes);
  }

  lemma ClearedCookieReadsAsNone()
    ensures SessionToken(None, Some(SessionCookieName + "=")) == None
  {
    SingleCookie(SessionCookieName, "");
    assert SessionCookieName + "=" + "" == SessionCookieName + "=";
  }

  const SignedOut := Response(200, Message("Successfully signed out"), [ClearCookie])

  /** The 200 of sign-in and sign-up: the user object, the token in the
      body and the same token in the cookie. */
  function Authenticate(user: User, token: string, production: bool): (r: Response)
    ensures r.status == 200 && r.body.Authenticated? && r.body.sessionToken == token
    ensures |r.setCookie| == 1 && |r.setCookie[0]| > |SessionCookieName| + 1 + |token|
    ensures r.setCookie[0][..|SessionCookieName| + 1 + |token|] == SessionCookieName + "=" + r.body.sessionToken
  {
    Response(200, Authenticated(Public(user), token), [IssueCookie(token, production)])
  }

  /** `req.headers['x-forwarded-for'] || req.connection?.remoteAddress`:
      the forwarded address unless it is missing or empty. */
  function ClientIp(req: Request): (ip: Option<string>)
    ensures req.forwardedFor.Some? && req.forwardedFor.value != "" ==> ip == req.forwardedFor
    ensures (req.forwardedFor.None? || req.forwardedFor.value == "") ==> ip == req.remoteAddress
  {
    if req.forwardedFor.Some? && req.forwardedFor.value != "" then req.forwardedFor else req.remoteAddress
  }
}
