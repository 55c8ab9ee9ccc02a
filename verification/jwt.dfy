/** A stand-in for `jsonwebtoken` as the handlers use it: `sign({ userId },
    secret, { expiresIn: '7d' })` and `verify(token, secret)`. A token
    carries the user id and the issue time in whole seconds (`iat`); it
    expires `7d` later. The HMAC signature and the secret are not modelled:
    `Verify` accepts every well-formed token that has not expired. */
module Jwt {
  import opened Wrappers
  import opened Text

  /** `expiresIn: '7d'`, in seconds. */
  const ExpiresInSeconds := 7 * 24 * 60 * 60

  /** The claims of a token: `userId` and the issue time `iat` (seconds);
      `exp` is always `iat + ExpiresInSeconds`. */
  datatype Claims = Claims(userId: string, iat: nat)

  predicate IsDigit(c: char) {
    '0' <= c <= '9'
  }

  predicate AllDigits(s: string) {
    forall i :: 0 <= i < |s| ==> IsDigit(s[i])
  }

  /** The decimal numeral of `n`. */
  function Decimal(n: nat): (s: string)
    ensures s != [] && AllDigits(s)
  {
    var last := ('0' as int + n % 10) as char;
    if n < 10 then [last] else Decimal(n / 10) + [last]
  }

  /** The number a numeral denotes. */
  function ValueOf(s: string): nat
    requires AllDigits(s)
  {
    if s == [] then 0
    else ValueOf(s[..|s| - 1]) * 10 + (s[|s| - 1] as int - '0' as int)
  }

  lemma {:induction false} ValueOfDecimal(n: nat)
    ensures ValueOf(Decimal(n)) == n
  {
    var s := Decimal(n);
    if n >= 10 {
      ValueOfDecimal(n / 10);
      assert s[..|s| - 1] == Decimal(n / 10);
    }
  }

  /** The token `sign` returns for `userId` at the clock reading `nowMs`
      (milliseconds): `iat` is the whole number of seconds. */
  function Sign(userId: string, nowMs: nat): (token: string)
    ensures token != ""
  {
    Decimal(nowMs / 1000) + "." + userId
  }

  /** Reads the claims back from a token; malformed tokens give `None`. */
  function Decode(token: string): (c: Option<Claims>)
  {
    match IndexOf(token, '.')
    case None => None
    case Some(k) =>
      if k > 0 && AllDigits(token[..k]) then Some(Claims(token[k + 1..], ValueOf(token[..k])))
      else None
  }

  /** `verify` at the clock reading `nowMs`: the user id of a well-formed
      token whose expiry (`iat + 7d`) is still ahead; `jsonwebtoken`
      rejects a token once the current second reaches `exp`. */
  function Verify(token: string, nowMs: nat): (userId: Option<string>)
    ensures userId.Some? <==> Decode(token).Some? && nowMs / 1000 < Decode(token).value.iat + ExpiresInSeconds
    ensures userId.Some? ==> userId.value == Decode(token).value.userId
  {
    match Decode(token)
    case None => None
    case Some(c) => if nowMs / 1000 < c.iat + ExpiresInSeconds then Some(c.userId) else None
  }

  /** Decoding a signed token gives back the claims it was signed with. */
  lemma DecodeSign(userId: string, nowMs: nat)
    ensures Decode(Sign(userId, nowMs)) == Some(Claims(userId, nowMs / 1000))
  {
    var digits := Decimal(nowMs / 1000);
    var token := Sign(userId, nowMs);
    assert '.' !in digits;
    IndexOfAfter(digits, '.', userId);
    assert token[..|digits|] == digits && token[|digits| + 1..] == userId;
    ValueOfDecimal(nowMs / 1000);
  }

  /** The round trip: a token signed at `issuedMs` verifies to its user id
      at every clock reading before its expiry second, and to nothing from
      then on. */
  lemma VerifySign(userId: string, issuedMs: nat, nowMs: nat)
    ensures Verify(Sign(userId, issuedMs), nowMs)
            == if nowMs / 1000 < issuedMs / 1000 + ExpiresInSeconds then Some(userId) else None
  {
    DecodeSign(userId, issuedMs);
  }

  /** Two signatures coincide exactly when they are for the same user in the
      same second: `sign` is deterministic and adds no nonce. */
  lemma SignSameExactly(u1: string, t1: nat, u2: string, t2: nat)
    ensures Sign(u1, t1) == Sign(u2, t2) <==> u1 == u2 && t1 / 1000 == t2 / 1000
  {
    DecodeSign(u1, t1);
    DecodeSign(u2, t2);
  }
}
