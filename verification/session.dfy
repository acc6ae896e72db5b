/** Session tokens.  Signing and its cryptography are abstract: a `Jwt`
    pairs a signing function with a decoding function that either recovers
    the claims or rejects the token (bad signature, malformed).  Expiry is
    checked here, the way the token library does it: a token is rejected once
    the current time in seconds reaches its `exp`. */
module Session {
  import opened Lookup
  import opened Store

  /** `expiresIn: '1h'`, in seconds. */
  const OneHour: int := 3600

  datatype Claims = Claims(userId: UserId, email: string, iat: int, exp: int)

  datatype Jwt = Jwt(sign: Claims -> string, decode: string -> Option<Claims>)

  /** Decoding recovers exactly what was signed. */
  ghost predicate Sound(jwt: Jwt) {
    forall c :: jwt.decode(jwt.sign(c)) == Some(c)
  }

  /** Signed tokens are non-empty and contain no space, as compact tokens do. */
  ghost predicate HeaderSafe(jwt: Jwt) {
    forall c :: jwt.sign(c) != "" && ' ' !in jwt.sign(c)
  }

  /** The claims a login at time `now` (seconds) signs for a user. */
  function LoginClaims(userId: UserId, email: string, now: int): Claims {
    Claims(userId, email, now, now + OneHour)
  }

  /** Verification at time `now`: a token decodes and has not yet expired.  An
      accepted token yields exactly the decoded claims; a token is rejected when it
      does not decode or when the clock has reached its expiry. */
  function Verify(jwt: Jwt, token: string, now: int): (r: Option<Claims>)
    ensures r.Some? ==> jwt.decode(token) == r && now < r.value.exp
    ensures r.None? <==> jwt.decode(token).None? || now >= jwt.decode(token).value.exp
  {
    match jwt.decode(token)
    case None => None
    case Some(c) => if now < c.exp then Some(c) else None
  }

  /** A token issued at `issuedAt` verifies, with the signed claims, exactly while
      fewer than 3600 seconds have passed. */
  lemma IssuedTokenLifetime(jwt: Jwt, userId: UserId, email: string, issuedAt: int, now: int)
    requires Sound(jwt)
    ensures Verify(jwt, jwt.sign(LoginClaims(userId, email, issuedAt)), now)
            == (if now < issuedAt + OneHour then Some(LoginClaims(userId, email, issuedAt)) else None)
  {
  }
}
