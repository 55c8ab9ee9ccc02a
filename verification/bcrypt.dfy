/** A stand-in for `bcryptjs` as the handlers use it: `hash(password, 12)`
    with a fresh random salt, and `compare(password, hash)`. bcrypt keys its
    cipher on the UTF-8 bytes of the password and uses at most the first 72
    of them; the digest here records that key, so two passwords match
    exactly when their keys agree. `compare` against a missing hash (`''`)
    is false. The one-wayness of the real function is outside what the
    model expresses. */
module Bcrypt {
  import opened Wrappers

  /** The cost factor passed to `bcrypt.hash`. */
  const Cost := 12

  /** The number of password bytes bcrypt's key schedule consumes. */
  const MaxKeyBytes := 72

  type Byte = b: int | 0 <= b < 256

  /** The UTF-8 encoding of one code point. */
  function CharUtf8(c: char): (bytes: seq<Byte>)
    ensures 1 <= |bytes| <= 4
    ensures (c as int < 0x80) <==> |bytes| == 1
  {
    var n := c as int;
    if n < 0x80 then [n]
    else if n < 0x800 then [0xC0 + n / 64, 0x80 + n % 64]
    else if n < 0x10000 then [0xE0 + n / 4096, 0x80 + (n / 64) % 64, 0x80 + n % 64]
    else [0xF0 + n / 262144, 0x80 + (n / 4096) % 64, 0x80 + (n / 64) % 64, 0x80 + n % 64]
  }

  /** The UTF-8 encoding of a string. */
  function Utf8(s: string): (bytes: seq<Byte>)
    ensures |s| <= |bytes| <= 4 * |s|
  {
    if s == [] then [] else CharUtf8(s[0]) + Utf8(s[1..])
  }

  /** Encoding a concatenation concatenates the encodings. */
  lemma {:induction false} Utf8Append(p: string, q: string)
    ensures Utf8(p + q) == Utf8(p) + Utf8(q)
  {
    if p == [] {
      assert p + q == q;
    } else {
      assert (p + q)[1..] == p[1..] + q;
      Utf8Append(p[1..], q);
    }
  }

  /** The bytes of `password` the key schedule reads: the whole encoding,
      cut after 72 bytes. */
  function Key(password: string): (k: seq<Byte>)
    ensures |k| <= MaxKeyBytes
    ensures k <= Utf8(password)
    ensures |Utf8(password)| <= MaxKeyBytes ==> k == Utf8(password)
    ensures |Utf8(password)| > MaxKeyBytes ==> k == Utf8(password)[..MaxKeyBytes]
  {
    var bytes := Utf8(password);
    if |bytes| <= MaxKeyBytes then bytes else bytes[..MaxKeyBytes]
  }

  datatype Digest = Digest(cost: nat, salt: nat, key: seq<Byte>)

  /** `bcrypt.compare(password, stored || '')`. */
  function Compare(password: string, stored: Option<Digest>): (ok: bool)
    ensures stored.None? ==> !ok
    ensures ok ==> Key(password) == stored.value.key
  {
    stored.Some? && Key(password) == stored.value.key
  }

  /** `bcrypt.hash(password, 12)` with the random salt as a parameter: the
      digest accepts exactly the passwords whose first 72 bytes are those of
      `password`, the password itself among them. */
  function Hash(password: string, salt: nat): (d: Digest)
    ensures d.cost == Cost
    ensures forall p :: Compare(p, Some(d)) <==> Key(p) == Key(password)
    ensures Compare(password, Some(d))
  {
    Digest(Cost, salt, Key(password))
  }

  /** Whatever follows the first 72 bytes of a password is ignored: a
      password that long matches its hash with any suffix appended. */
  lemma LongPasswordIgnoresSuffix(password: string, suffix: string, salt: nat)
    requires |Utf8(password)| >= MaxKeyBytes
    ensures Compare(password + suffix, Some(Hash(password, salt)))
  {
    Utf8Append(password, suffix);
    assert Utf8(password + suffix)[..MaxKeyBytes] == Utf8(password)[..MaxKeyBytes];
  }
}
