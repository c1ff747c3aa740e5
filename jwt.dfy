/** JSON Web Tokens as the services use them through jsonwebtoken. Signing and the
    compact string form are not modelled: a token is the symbolic term holding its
    claims and the secret it was signed with. Times are seconds since the epoch. */
module Jwt {

  /** The decoded payload: the signed `{userId, email}` plus jsonwebtoken's `iat`/`exp`. */
  datatype Claims = Claims(userId: nat, email: string, iat: int, exp: int)

  datatype Token = Signed(claims: Claims, secret: string)

  /** What `jwt.verify` throws. `TokenExpiredError` and `NotBeforeError` are subclasses
      of `JsonWebTokenError`; anything else (a failure outside the library) is `OtherError`. */
  datatype Thrown =
    | TokenExpiredError
    | NotBeforeError
    | JsonWebTokenError(message: string)
    | OtherError(message: string)

  /** `error instanceof jwt.TokenExpiredError`. */
  predicate IsTokenExpiredError(e: Thrown) {
    e.TokenExpiredError?
  }

  /** `error instanceof jwt.JsonWebTokenError`, which holds for its subclasses too. */
  predicate IsJsonWebTokenError(e: Thrown) {
    !e.OtherError?
  }

  /** The outcome of `jwt.verify(token, secret)`: the decoded claims, or what it threw. */
  datatype Verification = Decoded(claims: Claims) | Threw(error: Thrown)

  /** `jwt.sign({userId, email}, secret, {expiresIn: ttl})` at time `now`. */
  function Sign(userId: nat, email: string, secret: string, now: nat, ttl: nat): (t: Token)
    ensures t.claims.userId == userId && t.claims.email == email
    ensures t.claims.iat == now && t.claims.exp - t.claims.iat == ttl
    ensures t.secret == secret
  {
    Signed(Claims(userId, email, now, now + ttl), secret)
  }

  /** `jwt.verify(token, secret)` at time `now`: the signature is checked first, then
      the expiry; a token is expired from the second `exp` on. */
  function Verify(token: Token, secret: string, now: int): Verification {
    if token.secret != secret then Threw(JsonWebTokenError("invalid signature"))
    else if now >= token.claims.exp then Threw(TokenExpiredError)
    else Decoded(token.claims)
  }

  /** A token signed at `iat` with lifetime `ttl` verifies under the same secret, with
      the claims it was given, at every moment before `iat + ttl`, and is expired from
      then on; under any other secret it is invalid. */
  lemma SignVerify(userId: nat, email: string, secret: string, iat: nat, ttl: nat, now: int)
    ensures var t := Sign(userId, email, secret, iat, ttl);
      && (now < iat + ttl ==> Verify(t, secret, now) == Decoded(Claims(userId, email, iat, iat + ttl)))
      && (now >= iat + ttl ==> Verify(t, secret, now) == Threw(TokenExpiredError))
    ensures forall other :: other != secret ==>
      Verify(Sign(userId, email, secret, iat, ttl), other, now).Threw? &&
      !IsTokenExpiredError(Verify(Sign(userId, email, secret, iat, ttl), other, now).error)
  {
  }
}
