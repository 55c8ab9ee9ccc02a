# Session authentication of the codewise backend, in Dafny

The codewise backend authenticates users with four serverless handlers that
share two database tables, `users` and `user_sessions`:

- **sign-up** (`api/auth/signup.ts`) validates the body with `signUpSchema`,
  refuses a known email, inserts the user with a bcrypt hash of the
  password, inserts a session row holding a freshly signed JWT, and sets the
  `sessionToken` cookie;
- **sign-in** (`api/auth/signin.ts`) validates the body, looks the user up by
  email, refuses an unknown email, an inactive user or a wrong password with
  one and the same 401, records `lastLoginAt`, inserts a session row and sets
  the cookie;
- **current user** (`api/auth/me.ts`) takes the token from `req.cookies` or,
  failing that, from the `Cookie` header through the hand-written
  `parseCookies`, verifies it, finds its session row, rejects an expired
  row, and returns the user the token names;
- **sign-out** (`api/auth/signout.ts`, and its copy `api/auth/signout-fixed.ts`)
  takes the token the same way, deletes every session row holding it, and
  clears the cookie whether or not anything was deleted.

The model has one module per concern:

- `Text` holds the JavaScript string built-ins the parser relies on:
  `split`, `join`, and `trim` with ECMAScript's whitespace set. It also holds
  an `indexOf` that the parser does not call: an independent reading of a
  segment (`Cookies.EntryFirstEquals`) and the token decoder use it.
- `Cookies` holds `parseCookies`. It has two forms: a specification function
  `CookieMap` that folds over the `;`-separated segments, and a method
  `ParseCookies` with the source's loop, proved equal to it. The module also
  holds the token extraction the three cookie-reading handlers share.
- `Jwt` and `Bcrypt` are stand-ins for the two foreign libraries.
- `Validation` holds the two zod schemas.
- `Tables` holds the rows and the constraints the database enforces:
  primary key `id`, unique `email`, unique `session_token`.
- `Lookup` holds `getUserBySessionToken`. It is a pure function over a
  snapshot of the tables.
- `Http` holds the response values and the `Set-Cookie` strings.
- `Auth` holds the class `AuthStore`. Its fields are the two tables, and its
  methods are `createUser`, `createUserSession`, `signInUser` and the four
  handlers. Each method's postcondition gives the response and the whole new
  state of both tables, branch by branch.
- `Scenarios` chains handlers the way a browser does. It follows the cookie
  from a sign-up into the current-user handler, and it signs in and signs out
  twice after a sign-up.

### Behaviours worth knowing

- **Same-second sign-in.** `jwt.sign({ userId }, secret, { expiresIn: '7d' })`
  is deterministic, and `iat` counts whole seconds. So a second sign-in by the
  same user within the same second signs the very token that is already
  stored. The session insert then breaks `UNIQUE(session_token)` and the
  handler answers 500, although the credentials are right. `lastLoginAt` has
  already been updated by then and stays updated.
  - `Scenarios.SignUpThenSignIn` shows this.
  - `Jwt.SignSameExactly` characterises exactly when two tokens coincide.
  - A sign-up never meets this case: its user id is new, and every stored
    token carries the id of an existing user (`Tables.FreshIdFreshToken`).
- **Expiry.** `getUserBySessionToken` rejects a row only when `expiresAt < now`,
  so a row that expires at this very instant still authenticates. On rows the
  handlers wrote, though, the token itself always expires first: the token
  expires in the second `iat + 604800`, and the row expires at `now + 7 days`,
  where `now` is at least `iat` seconds. So the row check never decides
  (`Lookup.IssuedTokensExpireFirst`).
- **The `__proto__` cookie.** A segment named `__proto__` adds no entry.
  Assigning a string to `cookies["__proto__"]` on a plain object literal goes
  to the prototype setter, which ignores it.

## Model

| member | source | states |
|---|---|---|
| Text.Trim | api/auth/me.ts:54 | the trimmed segment is no longer than the segment and neither starts nor ends with whitespace |
| Text.TrimIsSlice | api/auth/signout.ts:32 | what `trim` drops is whitespace only: the result is a contiguous slice with nothing but whitespace on either side |
| Text.TrimOfTrimmed | api/auth/signout-fixed.ts:12 | a segment whose ends are not whitespace is left unchanged by `trim` |
| Text.Split | api/auth/me.ts:53 | `split` yields at least one piece and no piece contains the separator |
| Text.JoinSplit | api/auth/me.ts:54-56 | re-joining the pieces of a split with the same separator gives back the string, so no `=` of a value is lost |
| Text.Join | api/auth/me.ts:56 | `rest.join('=')`; it has no contract of its own: `Text.JoinSplit` and `Text.SplitJoin` tie it to `split` in both directions |
| Text.SplitJoin | api/auth/signout.ts:34 | splitting the join of `=`-free pieces on the same separator gives back the pieces |
| Text.SplitWithout | api/auth/me.ts:53 | a header without `;` is a single segment |
| Text.SplitAtFirst | api/auth/me.ts:54 | the first piece of a split ends at the first separator |
| Cookies.EntryOf | api/auth/me.ts:54-56 | a trimmed segment that contributes an entry has a non-empty name without `=` that is not `__proto__` |
| Cookies.Entry | api/auth/signout.ts:32-34 | a segment contributes an entry only under a non-empty, `=`-free name other than `__proto__` |
| Cookies.CookieMap | api/auth/me.ts:49-61 | the dictionary `parseCookies` returns: empty for an absent or empty header, else the left-to-right fold of the segments' entries; no contract of its own: `Cookies.ParseCookies`, `Cookies.FoldKeys`, `Cookies.FoldLastWins` and `Cookies.CookieMapNames` state what it is |
| Cookies.ParseCookies | api/auth/me.ts:49-61 | the `forEach` loop over the segments builds exactly the dictionary `CookieMap` specifies; an absent or empty header gives the empty dictionary |
| Cookies.EntryFirstEquals | api/auth/signout.ts:31-36 | independent reading of a segment: the name is what precedes the first `=` and the value is everything after it (`a=b=c` gives `a` and `b=c`); no `=`, a leading `=` or the name `__proto__` gives no entry |
| Cookies.FoldKeys | api/auth/me.ts:53-58 | a name is in the dictionary exactly when some segment assigns it |
| Cookies.FoldLastWins | api/auth/signout-fixed.ts:11-16 | a name's value is the one given by the last segment that assigns it |
| Cookies.CookieMapNames | api/auth/signout-fixed.ts:12-14 | every name of a parsed header is non-empty, `=`-free and not `__proto__`, and comes from some segment |
| Cookies.CookieMapLastWins | api/auth/me.ts:53-58 | for duplicate names in a header, the last segment that assigns the name decides its value |
| Cookies.PairEntry | api/auth/me.ts:54-56 | a segment `name=value` whose ends are not whitespace reads as exactly that entry |
| Cookies.SingleCookie | api/auth/signout.ts:27-39 | a header holding one cookie `name=value` parses to exactly that one entry, whatever `=` the value holds |
| Cookies.SessionToken | api/auth/me.ts:97-102 | a non-empty `req.cookies.sessionToken` takes priority over the header; a token found is never empty |
| Cookies.ExtractToken | api/auth/signout.ts:47-53 | the handlers' reassignment of the local `sessionToken` computes `SessionToken` |
| Jwt.Sign | api/auth/signup.ts:97 | a signed token is never empty |
| Jwt.Verify | api/auth/me.ts:66 | verification succeeds exactly for a well-formed token whose expiry second is still ahead, and yields the user id it carries |
| Jwt.DecodeSign | api/auth/signin.ts:84 | a signed token decodes to the user id and the issue second it was signed with |
| Jwt.VerifySign | api/auth/me.ts:66 | a token verifies to its user id at every instant before its expiry second and to nothing from then on |
| Jwt.SignSameExactly | api/auth/signin.ts:84 | two signed tokens are equal exactly when they are for the same user in the same second |
| Bcrypt.Key | api/auth/signin.ts:72 | the bytes a password is compared on: its UTF-8 encoding when that is at most 72 bytes, otherwise the first 72 bytes of it |
| Bcrypt.Compare | api/auth/signin.ts:72 | a user without a stored hash never passes the password check, and a password passes only when its key is the one stored |
| Bcrypt.Hash | api/auth/signup.ts:72 | the hash is made with cost 12 and accepts exactly the passwords whose key equals the key of the password it was made from, that password among them |
| Bcrypt.LongPasswordIgnoresSuffix | api/auth/signup.ts:52 | a password of 72 bytes or more, which the schema allows, matches its hash with any suffix appended |
| Tables.RemoveToken | api/auth/signout.ts:57-59 | the delete keeps exactly the rows holding another token and leaves none with the token |
| Tables.RemoveTokenIdempotent | api/auth/signout.ts:57-59 | deleting the same token twice deletes nothing more the second time |
| Tables.RemoveTokenAbsent | api/auth/signout-fixed.ts:37-39 | a delete whose token no row holds leaves the table as it was |
| Tables.RemoveTokenUnique | api/auth/signup.ts:37 | with unique tokens, a delete removes at most one row and the tokens left stay unique |
| Tables.RemoveTokenIssued | api/auth/signout.ts:55-60 | rows the handlers wrote stay as written after a delete |
| Tables.NewUser | api/auth/signup.ts:76-85 | the row `createUser` inserts: the input's email, name, role, ageGroup and packageId, the hash, status `pending`, `isActive` true, both timestamps now, every other column null; no contract of its own: `Auth.AuthStore.CreateUser` and `Tables.NewUserDropsUnstored` state its use |
| Tables.NewSession | api/auth/signin.ts:88-94 | the row both handlers insert: user, token, agent, address, `expiresAt` seven days after now, `createdAt` now; no contract of its own: `Tables.NewSessionIssued` and `Lookup.LookupAfterIssue` state what it guarantees |
| Tables.NewUserDropsUnstored | api/auth/signup.ts:56-57 | `childName` and `schoolName` pass the schema but the inserted row does not depend on them |
| Tables.Touch | api/auth/signin.ts:78-81 | the last-login update sets the matched user's `lastLoginAt` to now, leaves that user's other columns as they were and changes no other user |
| Tables.TouchValid | api/auth/signin.ts:77-81 | the last-login update keeps the primary-key and unique-email constraints |
| Tables.NewSessionIssued | api/auth/signin.ts:86-94 | a session row the handlers insert for an existing user carries a token for that user that expires no later than the row |
| Tables.FreshIdFreshToken | api/auth/signup.ts:132-139 | on rows the handlers wrote, no stored token was signed for an id not yet in `users`, so sign-up's session insert never breaks the unique constraint |
| Http.Public | api/auth/signup.ts:147-158 | the response user object copies ten columns of the row and has no place for `passwordHash`; no contract of its own: `Http.PublicHidesHash` states that it hides the hash |
| Http.PublicHidesHash | api/auth/signup.ts:146-158 | the user object of a response does not depend on the stored password hash |
| Http.CookieAgeIsSessionLifetime | api/auth/signin.ts:121-123 | the cookie's `Max-Age`, which the issued cookie's attribute text writes out, is 604800 seconds: the session row's lifetime and the token's `7d` |
| Http.IssueCookie | api/auth/signup.ts:142-144 | the cookie starts with `sessionToken=` and the token, and ends in `; Secure` exactly in production |
| Http.IssuedCookiePair | api/auth/signin.ts:121-123 | the part of the issued cookie a browser sends back is `sessionToken=` and the token |
| Http.IssuedCookieReadBack | api/auth/me.ts:99-101 | the cookie-reading handlers read that pair back as the very token |
| Http.ClearedCookiePair | api/auth/signout.ts:63-65 | the part of the clearing cookie a browser sends back is `sessionToken=` |
| Http.ClearedCookieReadsAsNone | api/auth/signout-fixed.ts:43-45 | a cleared cookie reads back as no token at all |
| Http.Authenticate | api/auth/signin.ts:120-139 | a 200 carries the same token in the JSON body and in the single `Set-Cookie` header |
| Http.ClientIp | api/auth/signin.ts:111 | the client address is `x-forwarded-for` unless it is missing or empty, else the socket's remote address |
| Lookup.FirstWithToken | api/auth/me.ts:68-72 | the session select finds a row exactly when some row holds exactly that token, and the row it finds holds it |
| Lookup.UserBySessionToken | api/auth/me.ts:64-88 | the lookup yields a user exactly when the token verifies, a row holds the token, that row has not expired and the token's user exists; the user is the one the token names |
| Lookup.ExpiryBoundaryInclusive | api/auth/me.ts:74 | a row whose `expiresAt` equals now still authenticates |
| Lookup.UserFromTokenNotRow | api/auth/me.ts:78-84 | the user returned has the id decoded from the token, and changing that user's `isActive` changes nothing in the lookup |
| Lookup.IssuedTokensExpireFirst | api/auth/me.ts:66-76 | on rows the handlers wrote, a verified token's row is still in the future, so lookup succeeds exactly when the token verifies and a row holds it |
| Lookup.LookupAfterIssue | api/auth/signup.ts:97-107 | right after its row is inserted, a token authenticates its user until its expiry second and not from then on |
| Lookup.LookupAfterRemove | api/auth/signout.ts:55-60 | once sign-out has deleted a token's rows, that token no longer authenticates |
| Validation.EmailIssues | api/auth/signup.ts:51 | the email check reports issues about `email` only |
| Validation.MinLengthIssues | api/auth/signup.ts:52-53 | a minimum-length check reports issues about its own field only |
| Validation.EnumIssues | api/auth/signup.ts:54-55 | an enumeration check reports issues about its own field only |
| Validation.SignUpIssues | api/auth/signup.ts:50-59 | each of email, password (6 characters or more), name (non-empty), role (one of four) and ageGroup (absent or one of two) is flagged exactly when its own condition fails; there are no issues exactly when every condition holds |
| Validation.ParseSignUp | api/auth/signup.ts:118 | parsing succeeds exactly when every condition holds and then carries the body's fields; otherwise it gives the non-empty list of issues |
| Validation.ParseSignIn | api/auth/signin.ts:50-53 | sign-in parsing succeeds exactly for an accepted email and a present password; otherwise each field is flagged exactly when it fails |
| Auth.RefusedSignIn | api/auth/signin.ts:62-75 | a sign-in is refused exactly for an unknown email, an inactive user (a null flag included) or a wrong password (a missing hash included) |
| Auth.AuthStore.constructor | api/setup-tables.ts:12-44 | the tables start empty, valid and holding only issued rows |
| Auth.AuthStore.CreateUser | api/auth/signup.ts:62-89 | the insert breaks the primary key or the unique email and changes nothing, or adds exactly the new row with status `pending`, `isActive` true and the hash of the password |
| Auth.AuthStore.CreateUserSession | api/auth/signup.ts:92-110 | the insert breaks the unique token and changes nothing, or appends exactly one row for the user with the token and a 7-day expiry |
| Auth.AuthStore.SignInUser | api/auth/signin.ts:56-97 | refused credentials change nothing; otherwise only that user's `lastLoginAt` changes, and exactly one session row is appended unless its token is already stored |
| Auth.AuthStore.SignUp | api/auth/signup.ts:112-168 | 405 for a non-POST and 400 with the issues for an invalid body, both changing nothing; 400 for a known email; otherwise one new user and one new session, and a 200 whose cookie and body hold the same token |
| Auth.AuthStore.SignIn | api/auth/signin.ts:99-147 | 405, 400 with the issues, and one identical 401 for every refused sign-in, all changing nothing; 500 when the token is already stored; otherwise a 200 with the user as read and the new token |
| Auth.AuthStore.CurrentUser | api/auth/me.ts:90-133 | 405 for a non-GET; 401 "No session token" without a token; one 401 for every lookup failure; otherwise a 200 with the user and `lastLoginAt`; the tables are never modified |
| Auth.AuthStore.SignOut | api/auth/signout.ts:41-72 | 405 for a non-POST, changing nothing; otherwise the rows holding the request's token are deleted, every other row is kept, users are untouched and the cookie is cleared with a 200 |
| Auth.SessionsAfterSignOut | api/auth/signout-fixed.ts:35-40 | with a token, exactly the rows holding another token remain; without one, the table is unchanged |
| Auth.SignOutIdempotent | api/auth/signout-fixed.ts:37-39 | signing out twice with the same request leaves the same session table as signing out once |
| Scenarios.SignedTokenReadBack | api/auth/signup.ts:142-144 | the token a handler signs survives the trip through the cookie and back |
| Scenarios.SignUpThenCurrentUser | api/auth/me.ts:108-128 | after a sign-up, sending back its cookie yields a 200 with the same user object and no `lastLoginAt` |
| Scenarios.SignUpThenSignIn | api/auth/signin.ts:78-94 | a sign-in in the same second as the sign-up gets a 500 although `lastLoginAt` is updated; in any other second it gets a 200 with the same user and a new token |
| Scenarios.SignUpThenSignOutTwice | api/auth/signout.ts:55-67 | after a sign-up, two sign-outs both answer 200 and clear the cookie, and the token then yields "Invalid or expired session" |

## Left out

- The JWT signature and secret, including the `'fallback-secret-key'`
  default. `Jwt.Verify` accepts every well-formed, unexpired token, so the
  model over-approximates: it does not tell forged tokens from real ones.
  The token is a decimal `iat`, a dot and the user id, standing in for the
  encoded header, payload and signature.
- The one-wayness of bcrypt, and the random salt, which is a parameter. The
  idealised digest records the key it was made from: the first 72 UTF-8
  bytes of the password.
- Bcrypt.Key: the key schedule also appends a zero byte to a password
  shorter than 72 bytes and repeats the result cyclically. So passwords
  that hold the character U+0000 can match more than their key shows. The
  model compares keys without that terminator.
- zod's `email()` regular expression is a parameter, `isEmail`, of the
  environment.
- Issue messages and zod's other issue fields are not modelled; an issue is
  its path and its code.
- String lengths: `min(6)` counts UTF-16 code units and the model counts
  characters. The two differ only outside the Basic Multilingual Plane.
- Bodies that are not objects, fields that are not strings, and `null` values
  are not modelled. A missing field is `None`, and the handlers' bodies come
  in the shape each schema reads.
- Any `req.cookies.sessionToken` that is not a string is not modelled.
- Failures of the database driver or the network (lost connections,
  timeouts) are left out. In sign-up, sign-in and sign-out they would answer
  500. In the current-user handler, `getUserBySessionToken` catches them
  itself and returns `null`. The handler then answers the same 401 "Invalid
  or expired session" as for a bad token. The unique-constraint violations
  the handlers can cause are modelled, and each of them leads to 500.
- Scenarios.PlainId: the round-trip lemmas (`Http.IssuedCookieReadBack`,
  `Scenarios.SignedTokenReadBack`) and the scenarios require a user id
  without `;` and without trailing whitespace. This is needed only because
  the stand-in token carries the id as raw text. A real JWT is base64url
  text, so the cookie round trip holds for any id. Every id
  `gen_random_uuid()` draws meets the condition.
- The session table's own `id` column is left out: nothing reads it.
- One clock reading `now` per request. In the source, `new Date()` and
  `Date.now()` are read separately within one request.
- Timestamp precision and time zones are not modelled; times are
  milliseconds.
- Concurrent requests are not modelled. In particular, two sign-ups racing
  with the same email are left out, since the handlers have no coordination.
- `console.error` logging is not modelled.
- The client's pricing page, the table-setup endpoint beyond its empty
  tables, and the connectivity probes are not part of this model.
- Jwt.Sign: its own contract states only that the token is non-empty. Its
  relation to its inputs is stated by `Jwt.DecodeSign` and
  `Jwt.SignSameExactly`.
