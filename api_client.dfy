/** The frontend's axios client interceptors (frontend/src/api/client.ts): requests
    carry the store's token as a bearer credential, and a 401 answer logs out. */
module ApiClient {
  import opened Wrappers
  import AuthStore

  const AuthorizationHeader := "Authorization"

  /** `Bearer ${token}` when the token is truthy, otherwise no header. */
  function BearerHeader(token: Option<string>): (h: Option<string>)
    ensures h.Some? <==> Truthy(token)
    ensures h.Some? ==> |h.value| == 7 + |token.value| && h.value[..7] == "Bearer " && h.value[7..] == token.value
  {
    if Truthy(token) then Some("Bearer " + token.value) else None
  }

  /** The outgoing request's config; only its headers matter here. */
  class RequestConfig {
    const url: string
    var headers: map<string, string>

    constructor (url: string, headers: map<string, string>)
      ensures this.url == url && this.headers == headers
    {
      this.url := url;
      this.headers := headers;
    }
  }

  /** The request interceptor: with a truthy store token, set `Authorization` in place;
      otherwise leave the config alone. The same config object is returned. */
  method InterceptRequest(store: AuthStore.Store, config: RequestConfig) returns (out: RequestConfig)
    modifies config
    ensures out == config
    ensures BearerHeader(store.token).Some? ==>
      config.headers == old(config.headers)[AuthorizationHeader := BearerHeader(store.token).value]
    ensures BearerHeader(store.token).None? ==> config.headers == old(config.headers)
  {
    var token := store.token;
    if Truthy(token) {
      config.headers := config.headers[AuthorizationHeader := "Bearer " + token.value];
    }
    return config;
  }

  /** An HTTP response as axios hands it over. */
  datatype HttpResponse = HttpResponse(status: int, data: string)

  /** An axios error; `response` is absent for network failures. */
  datatype AxiosError = AxiosError(message: string, response: Option<HttpResponse>)

  /** A settled request: what the response interceptor receives and passes on. */
  datatype Settled = Fulfilled(response: HttpResponse) | Rejected(error: AxiosError)

  /** `error.response?.status === 401`. */
  predicate Unauthorized(s: Settled) {
    s.Rejected? && s.error.response.Some? && s.error.response.value.status == 401
  }

  /** The response interceptor: success passes through, every error is re-rejected as
      it came; a 401 additionally logs the store out, anything else leaves it alone. */
  method InterceptResponse(store: AuthStore.Store, settled: Settled) returns (out: Settled)
    modifies store, store.storage
    ensures out == settled
    ensures Unauthorized(settled) ==>
      && store.LoggedOut() && store.InSync()
      && store.isLoading == old(store.isLoading) && store.error == old(store.error)
      && store.storage.items == old(store.storage.items) - {AuthStore.AuthTokenKey}
    ensures !Unauthorized(settled) ==>
      && store.user == old(store.user) && store.token == old(store.token)
      && store.isLoading == old(store.isLoading) && store.error == old(store.error)
      && store.storage.items == old(store.storage.items)
  {
    match settled
    case Fulfilled(response) =>
      return Fulfilled(response);
    case Rejected(error) =>
      if error.response.Some? && error.response.value.status == 401 {
        store.Logout();
      }
      return Rejected(error);
  }
}
