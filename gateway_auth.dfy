/** The gateway's bearer-token middleware `authenticationToken`
    (services/api-gateway/src/middleware/auth.ts). The verifier `jwt.verify(token,
    JWT_SECRET)` is a parameter: a total map from the token text to what it returns
    or throws, with the secret and the clock inside it. */
module GatewayAuth {
  import opened Wrappers
  import opened Jwt

  const BearerPrefix := "Bearer "
  const AccessTokenRequired := "Access token required"
  const TokenExpired := "Token expired"
  const InvalidToken := "Invalid token"
  const InternalServerError := "Internal server error"

  predicate StartsWith(s: string, prefix: string) {
    |prefix| <= |s| && s[..|prefix|] == prefix
  }

  /** `authHeader && authHeader.startsWith('Bearer ') ? authHeader.substring(7) : null`:
      a token exactly when the header is there and starts with the case-sensitive
      prefix, and then the token is what follows the prefix. */
  function ExtractToken(authHeader: Option<string>): (token: Option<string>)
    ensures token.Some? <==> authHeader.Some? && StartsWith(authHeader.value, BearerPrefix)
    ensures token.Some? ==> authHeader.value == BearerPrefix + token.value
  {
    if authHeader.Some? && authHeader.value != "" && StartsWith(authHeader.value, BearerPrefix) then
      var token := authHeader.value[7..];
      assert authHeader.value == authHeader.value[..7] + token;
      Some(token)
    else
      None
  }

  /** What the middleware does with a request: pass it on with the decoded claims in
      `req.user`, or answer it with a status and `{error}`. */
  datatype Decision = Forward(user: Claims) | Respond(status: int, error: string)

  /** The catch block: the `instanceof` tests in source order. `TokenExpiredError` is
      itself a `JsonWebTokenError`, so the order decides its message. */
  function ClassifyError(e: Thrown): (d: Decision)
    ensures d.Respond?
    ensures d.status == 401 <==> IsJsonWebTokenError(e)
    ensures d.error == TokenExpired <==> IsTokenExpiredError(e)
    ensures d.error == InvalidToken <==> IsJsonWebTokenError(e) && !IsTokenExpiredError(e)
    ensures d.status == 500 <==> d.error == InternalServerError
    ensures !IsJsonWebTokenError(e) ==> d == Respond(500, InternalServerError)
  {
    if IsTokenExpiredError(e) then Respond(401, TokenExpired)
    else if IsJsonWebTokenError(e) then Respond(401, InvalidToken)
    else Respond(500, InternalServerError)
  }

  /** The whole decision for a request carrying `authHeader`. */
  function Authenticate(authHeader: Option<string>, verify: string -> Verification): (d: Decision)
    ensures d.Forward? <==> exists t :: authHeader == Some(BearerPrefix + t) && t != "" && verify(t).Decoded?
    ensures d.Forward? ==> exists t :: authHeader == Some(BearerPrefix + t) && verify(t) == Decoded(d.user)
  {
    var token := ExtractToken(authHeader);
    if token.None? || token.value == "" then
      Respond(401, AccessTokenRequired)
    else
      match verify(token.value)
      case Decoded(claims) => Forward(claims)
      case Threw(e) => ClassifyError(e)
  }

  /** Every answer is one of the four the middleware writes. */
  lemma Responses(authHeader: Option<string>, verify: string -> Verification)
    ensures var d := Authenticate(authHeader, verify);
      d.Respond? ==>
        || (d.status == 401 && d.error == AccessTokenRequired)
        || (d.status == 401 && d.error == TokenExpired)
        || (d.status == 401 && d.error == InvalidToken)
        || (d.status == 500 && d.error == InternalServerError)
  {
  }

  /** A missing header, another scheme or an empty token after `Bearer ` is answered
      401 "Access token required" whatever the verifier would say: it is not consulted. */
  lemma MissingTokenNotVerified(authHeader: Option<string>, verify1: string -> Verification, verify2: string -> Verification)
    requires forall t :: authHeader != Some(BearerPrefix + t) || t == ""
    ensures Authenticate(authHeader, verify1) == Respond(401, AccessTokenRequired)
    ensures Authenticate(authHeader, verify2) == Authenticate(authHeader, verify1)
  {
    var token := ExtractToken(authHeader);
    if token.Some? {
      assert authHeader == Some(BearerPrefix + token.value);
    }
  }

  /** For a presented token, the answer follows the verifier: forward with its claims,
      "Token expired" for an expired token, "Invalid token" for any other JWT error,
      500 for anything else. */
  lemma PresentedToken(t: string, verify: string -> Verification)
    requires t != ""
    ensures var d := Authenticate(Some(BearerPrefix + t), verify);
      && (verify(t).Decoded? ==> d == Forward(verify(t).claims))
      && (verify(t) == Threw(TokenExpiredError) ==> d == Respond(401, TokenExpired))
      && (verify(t).Threw? && IsJsonWebTokenError(verify(t).error) && !IsTokenExpiredError(verify(t).error) ==>
            d == Respond(401, InvalidToken))
      && (verify(t).Threw? && verify(t).error.OtherError? ==> d == Respond(500, InternalServerError))
  {
    var h := BearerPrefix + t;
    assert StartsWith(h, BearerPrefix) && h[7..] == t;
  }

  datatype ErrorResponse = ErrorResponse(status: int, error: string)

  /** One request/response pair as the middleware sees it: the Authorization header,
      `req.user`, how often `next()` was called, and the response written, if any. */
  class Exchange {
    const authorization: Option<string>
    var user: Option<Claims>
    var nextCalls: nat
    var response: Option<ErrorResponse>

    constructor (authorization: Option<string>)
      ensures this.authorization == authorization
      ensures user.None? && nextCalls == 0 && response.None?
    {
      this.authorization := authorization;
      user := None;
      nextCalls := 0;
      response := None;
    }
  }

  /** `authenticationToken(req, res, next)`: exactly one of "set `req.user` and call
      `next()` once" or "write the error response" happens, as `Authenticate` decides. */
  method AuthenticationToken(ex: Exchange, verify: string -> Verification)
    modifies ex
    ensures match Authenticate(ex.authorization, verify)
      case Forward(claims) =>
        ex.user == Some(claims) && ex.nextCalls == old(ex.nextCalls) + 1 && ex.response == old(ex.response)
      case Respond(status, error) =>
        ex.user == old(ex.user) && ex.nextCalls == old(ex.nextCalls) && ex.response == Some(ErrorResponse(status, error))
  {
    var token := ExtractToken(ex.authorization);
    if token.None? || token.value == "" {
      ex.response := Some(ErrorResponse(401, AccessTokenRequired));
      return;
    }
    match verify(token.value)
    case Decoded(decoded) =>
      ex.user := Some(decoded);
      ex.nextCalls := ex.nextCalls + 1;
    case Threw(error) =>
      if IsTokenExpiredError(error) {
        ex.response := Some(ErrorResponse(401, TokenExpired));
        return;
      }
      if IsJsonWebTokenError(error) {
        ex.response := Some(ErrorResponse(401, InvalidToken));
        return;
      }
      ex.response := Some(ErrorResponse(500, InternalServerError));
  }

  /** Fail closed: on a fresh request, either the request is forwarded once with
      `req.user` set and no response, or a response is written and `req.user` stays
      unset without `next()` being called; forwarding needs a verified bearer token. */
  method FailsClosed(authorization: Option<string>, verify: string -> Verification)
    returns (user: Option<Claims>, nextCalls: nat, response: Option<ErrorResponse>)
    ensures (nextCalls == 1 && user.Some? && response.None?) || (nextCalls == 0 && user.None? && response.Some?)
    ensures user.Some? ==> exists t :: authorization == Some(BearerPrefix + t) && t != "" && verify(t) == Decoded(user.value)
  {
    var ex := new Exchange(authorization);
    AuthenticationToken(ex, verify);
    user, nextCalls, response := ex.user, ex.nextCalls, ex.response;
  }
}
