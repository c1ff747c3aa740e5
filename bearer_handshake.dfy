/** Where the frontend's client meets the gateway: the header one side writes is the
    header the other side parses. */
module BearerHandshake {
  import opened Wrappers
  import opened Jwt
  import ApiClient
  import GatewayAuth
  import AuthStore

  /** For a non-empty token, the gateway extracts from the header the client builds
      exactly that token. */
  lemma {:induction false} HeaderRoundTrip(t: string)
    requires t != ""
    ensures GatewayAuth.ExtractToken(ApiClient.BearerHeader(Some(t))) == Some(t)
  {
    var h := ApiClient.BearerHeader(Some(t)).value;
    assert h == GatewayAuth.BearerPrefix + h[7..];
  }

  /** End to end: the gateway's answer to a request sent with the store token `token`.
      A truthy token reaches the verifier unchanged; a null or empty one means no
      header and 401 "Access token required". */
  lemma StoreTokenAtGateway(token: Option<string>, verify: string -> Verification)
    ensures var d := GatewayAuth.Authenticate(ApiClient.BearerHeader(token), verify);
      && (Truthy(token) && verify(token.value).Decoded? ==> d == GatewayAuth.Forward(verify(token.value).claims))
      && (Truthy(token) && verify(token.value).Threw? ==> d == GatewayAuth.ClassifyError(verify(token.value).error))
      && (!Truthy(token) ==> d == GatewayAuth.Respond(401, GatewayAuth.AccessTokenRequired))
  {
    if Truthy(token) {
      HeaderRoundTrip(token.value);
    }
  }
}
