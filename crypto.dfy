/** The two cryptographic libraries the handlers call, as oracles.

    `jsonwebtoken`: `sign` seals claims with the process-wide secret and an expiry;
    `verify` checks the seal and the clock. Times are in whole seconds, as in the
    library's `iat` and `exp` claims.

    `bcryptjs`: `hash` is salted (the salt is a parameter here, since it is drawn
    at random) and runs at a cost factor; `compare` checks a plaintext against a
    stored hash. The signature and hash algorithms themselves are not modelled:
    only the facts the handlers rely on are stated, as the predicates
    `SoundTokenService` and `SoundHasher`. */
module Crypto {
  import opened Basics

  /** The identity claims the login handler puts into a token. */
  datatype Claims = Claims(id: int, email: string)

  /** What `jwt.verify` returns on success: the claims with `iat` and `exp` added. */
  datatype Payload = Payload(claims: Claims, iat: int, exp: int)

  /** The result of `jwt.verify`: the decoded payload, or one of its two errors
      (`JsonWebTokenError` for a bad or malformed signature, `TokenExpiredError`). */
  datatype Verification = Verified(payload: Payload) | Invalid | Expired

  /** `expiresIn: '7d'`, in seconds. */
  const SevenDays: int := 7 * 24 * 60 * 60

  /** The cost factor passed to `bcrypt.hash`. */
  const SaltRounds: int := 10

  datatype TokenService = TokenService(
    sign: (Claims, string, int, int) -> string,    // claims, secret, issued-at, lifetime
    verify: (string, string, int) -> Verification)  // token, secret, now

  /** A signed token is a non-empty compact string without spaces; verifying it
      under the same secret gives back the claims, with `exp = iat + lifetime`,
      while `now < exp`, and fails as expired from `exp` on. */
  ghost predicate SoundTokenService(ts: TokenService)
  {
    (forall c, key, iat, ttl :: ts.sign(c, key, iat, ttl) != [] && ' ' !in ts.sign(c, key, iat, ttl))
    && (forall c, key, iat, ttl, now ::
          ts.verify(ts.sign(c, key, iat, ttl), key, now)
          == if now < iat + ttl then Verified(Payload(c, iat, iat + ttl)) else Expired)
  }

  /* A token service that meets `SoundTokenService`: the token spells out the
     claims, `iat` and `exp` in characters other than the space, and `verify`
     reads them back. Integers are a sign, a unary count and `;`; the email
     comes last, with `\` escaping the space and itself. */

  function Ones(k: nat): (r: string)
    ensures |r| == k && forall i :: 0 <= i < |r| ==> r[i] == '1'
  {
    if k == 0 then [] else "1" + Ones(k - 1)
  }

  function EncodeInt(n: int): (r: string)
    ensures r != [] && ' ' !in r
  {
    (if n < 0 then "-" else "+") + Ones(if n < 0 then -n else n) + ";"
  }

  /** The count of `1`s before the first `;`, and the text after it. */
  function DecodeNat(t: string): Option<(nat, string)>
  {
    if t == [] then None
    else if t[0] == ';' then Some((0, t[1..]))
    else if t[0] == '1' then
      match DecodeNat(t[1..])
      case None => None
      case Some((k, rest)) => Some((k + 1, rest))
    else None
  }

  function DecodeInt(t: string): Option<(int, string)>
  {
    if t == [] || (t[0] != '+' && t[0] != '-') then None
    else
      match DecodeNat(t[1..])
      case None => None
      case Some((k, rest)) => Some((if t[0] == '-' then -(k as int) else k, rest))
  }

  function EscapeChar(c: char): (r: string)
    ensures ' ' !in r
  {
    if c == ' ' then "\\s" else if c == '\\' then "\\\\" else [c]
  }

  function Escape(s: string): (r: string)
    ensures ' ' !in r
  {
    if s == [] then [] else EscapeChar(s[0]) + Escape(s[1..])
  }

  function Unescape(t: string): string
    decreases |t|
  {
    if t == [] then []
    else if t[0] == '\\' && |t| >= 2 then [if t[1] == 's' then ' ' else t[1]] + Unescape(t[2..])
    else [t[0]] + Unescape(t[1..])
  }

  function Seal(c: Claims, iat: int, exp: int): (token: string)
    ensures token != [] && ' ' !in token
  {
    EncodeInt(c.id) + EncodeInt(iat) + EncodeInt(exp) + Escape(c.email)
  }

  function Open(token: string): Option<(Claims, int, int)>
  {
    match DecodeInt(token)
    case None => None
    case Some((id, r1)) =>
      match DecodeInt(r1)
      case None => None
      case Some((iat, r2)) =>
        match DecodeInt(r2)
        case None => None
        case Some((exp, r3)) => Some((Claims(id, Unescape(r3)), iat, exp))
  }

  function SignSealed(c: Claims, key: string, iat: int, ttl: int): string
  {
    Seal(c, iat, iat + ttl)
  }

  function VerifySealed(token: string, key: string, now: int): Verification
  {
    match Open(token)
    case None => Invalid
    case Some((c, iat, exp)) => if now < exp then Verified(Payload(c, iat, exp)) else Expired
  }

  lemma {:induction false} DecodeNatOnes(k: nat, rest: string)
    ensures DecodeNat(Ones(k) + ";" + rest) == Some((k, rest))
    decreases k
  {
    if k > 0 {
      assert Ones(k) + ";" + rest == "1" + (Ones(k - 1) + ";" + rest);
      assert (Ones(k) + ";" + rest)[1..] == Ones(k - 1) + ";" + rest;
      DecodeNatOnes(k - 1, rest);
    } else {
      assert (";" + rest)[1..] == rest;
    }
  }

  lemma DecodeEncodeInt(n: int, rest: string)
    ensures DecodeInt(EncodeInt(n) + rest) == Some((n, rest))
  {
    var k: nat := if n < 0 then -n else n;
    var sign := if n < 0 then "-" else "+";
    assert EncodeInt(n) + rest == sign + (Ones(k) + ";" + rest);
    DecodeNatOnes(k, rest);
  }

  lemma {:induction false} UnescapeEscape(s: string)
    ensures Unescape(Escape(s)) == s
    decreases |s|
  {
    if s != [] {
      var e := Escape(s[1..]);
      var t := EscapeChar(s[0]) + e;
      assert Escape(s) == t;
      UnescapeEscape(s[1..]);
      if s[0] == ' ' || s[0] == '\\' {
        assert t[0] == '\\' && t[2..] == e;
      } else {
        assert t[0] == s[0] && t[1..] == e;
      }
    }
  }

  /** `Open` undoes `Seal`. */
  lemma OpenSeal(c: Claims, iat: int, exp: int)
    ensures Open(Seal(c, iat, exp)) == Some((c, iat, exp))
  {
    var a, b, d, e := EncodeInt(c.id), EncodeInt(iat), EncodeInt(exp), Escape(c.email);
    assert Seal(c, iat, exp) == a + (b + (d + e));
    DecodeEncodeInt(c.id, b + (d + e));
    DecodeEncodeInt(iat, d + e);
    DecodeEncodeInt(exp, e);
    UnescapeEscape(c.email);
  }

  /** The token facts are consistent: some token service has them. */
  lemma SoundTokenServiceExists()
    ensures exists ts :: SoundTokenService(ts)
  {
    var ts := TokenService(SignSealed, VerifySealed);
    forall c, key, iat, ttl
      ensures ts.sign(c, key, iat, ttl) != [] && ' ' !in ts.sign(c, key, iat, ttl)
    {
      var token := Seal(c, iat, iat + ttl);
    }
    forall c, key, iat, ttl, now
      ensures ts.verify(ts.sign(c, key, iat, ttl), key, now)
              == if now < iat + ttl then Verified(Payload(c, iat, iat + ttl)) else Expired
    {
      OpenSeal(c, iat, iat + ttl);
    }
    assert SoundTokenService(ts);
  }

  datatype Hasher = Hasher(
    hash: (string, int, int) -> string,   // plaintext, cost factor, salt
    compare: (string, string) -> bool)    // plaintext, stored hash

  /** A password always matches a hash made from it, whatever the cost and salt. */
  ghost predicate SoundHasher(h: Hasher)
  {
    forall p, rounds, salt :: h.compare(p, h.hash(p, rounds, salt))
  }

  /** The hashing facts are consistent: some hasher has them. */
  lemma SoundHasherExists()
    ensures exists h :: SoundHasher(h)
  {
    var h := Hasher((p: string, rounds: int, salt: int) => p, (p: string, stored: string) => p == stored);
    assert SoundHasher(h);
  }
}
