/** Vocabulary shared by both access-token cache variants: the request key,
    the token endpoint's response, the external calls a lookup makes and the
    exceptions it can throw. */
module Tokens {
  import opened Wrappers

  /** The parameters of one `GetAccessToken(userId, selectedAccounts, scope)` call. */
  datatype Key = Key(userId: string, selectedAccounts: string, scope: string)

  /** A token endpoint response; either token may be null (a null response
      is the same as one with both tokens null). */
  datatype TokenResponse = TokenResponse(accessToken: Option<string>, refreshToken: Option<string>)

  /** The access/refresh pair a flow hands back once both are known to be present. */
  datatype TokenPair = TokenPair(accessToken: string, refreshToken: string)

  /** Which local helper raised a null-token exception. */
  datatype Step = AuthConsentFlow | RefreshExchange

  /** The exceptions a lookup can throw (message texts are not modelled). */
  datatype Error =
    | AccessTokenNull(step: Step)
    | RefreshTokenNull(step: Step)
    | StoredRefreshTokenNull
    | UnknownTokenType

  /** The external collaborator a lookup invoked: the full authorise/consent
      flow followed by an authorisation-code exchange, or a refresh-token exchange. */
  datatype Call = Authorise(key: Key) | RefreshWith(refreshToken: string, scope: string)

  /** Result of one lookup: the new cache state (kept even when the call throws),
      the external call made, if any, and the returned value or exception. */
  datatype Outcome<S, R> = Outcome(state: S, call: Option<Call>, result: Result<R, Error>)

  predicate Complete(resp: TokenResponse)
  {
    resp.accessToken.Some? && resp.refreshToken.Some?
  }

  /** The two null checks that end `FromAuthConsentFlow` and `FromRefreshToken`:
      the access token is checked first, then the refresh token. */
  function CheckResponse(step: Step, resp: TokenResponse): (r: Result<TokenPair, Error>)
    ensures r.Ok? <==> Complete(resp)
    ensures r.Ok? ==> Some(r.value.accessToken) == resp.accessToken
    ensures r.Ok? ==> Some(r.value.refreshToken) == resp.refreshToken
    ensures resp.accessToken.None? ==> r == Err(AccessTokenNull(step))
    ensures resp.accessToken.Some? && resp.refreshToken.None? ==> r == Err(RefreshTokenNull(step))
  {
    match resp.accessToken
    case None => Err(AccessTokenNull(step))
    case Some(access) =>
      match resp.refreshToken
      case None => Err(RefreshTokenNull(step))
      case Some(refresh) => Ok(TokenPair(access, refresh))
  }
}
