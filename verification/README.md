# Access-token cache and session-claim preparation of the CDR mock data holder

This project models two small pieces of sequential logic from the energy mock data holder, as pure Dafny functions over immutable state, and proves properties about them.

1. **The access-token caches used by the integration tests.** There are two of them.
   - `DataHolder_AccessToken_Cache` is the preferred variant. It keys entries on (user id, selected accounts, scope) and stores the access token itself. Its `GetAccessToken(tokenType, scope)` overload maps seven test personas onto the keyed lookup. Three sentinel values return the invalid tokens `"foo"`, `""` and null, and any other value throws.
   - `BROKEN_DataHolder_AccessToken_Cache` keys entries on (user id, scope) only. It stores a refresh token, which every hit exchanges for a new access token and a rotated refresh token.

   Both variants count `Hits` and `Misses`. A lookup's state is a list of entries plus the two counters, and a lookup is a transition function. The responses of the two external collaborators are given as inputs:
   - the authorise/consent flow followed by the code exchange;
   - the refresh-token exchange.

   Each response is a pair of optional access and refresh tokens. The outcome of a lookup records three things:
   - the new state, which is kept even when the call throws;
   - the collaborator call made, if any;
   - the returned token or the exception kind.
2. **`ConsentAndAuthenticationHelper.SetClaimsPrincipalAndForceConsentForAuthoriseRequest`.** It does four things:
   - it turns off the client's consent requirement;
   - for an authenticated subject, it appends an expiry claim: `"0"` for a zero duration, otherwise the decimal Unix time `now + duration`;
   - it removes the first claim whose type equals `cdr_arrangement_id` ignoring case;
   - it appends a new arrangement-id claim when a non-empty id is given.

The modules are:
- `Wrappers`: `Option` and `Result`.
- `Seqs`: the first-match scan behind `List.Find` and `FirstOrDefault`, removal at an index, and filtering with its lemmas.
- `Decimal`: the rendering of `long.ToString()` under the invariant culture, its canonical shape, and a parser used as its partner.
- `Tokens`: the key, the token response, the collaborator calls, the error kinds and the response null checks.
- `AccessTokenCache`: the preferred variant.
- `BrokenAccessTokenCache`: the broken variant.
- `ConsentHelper`: the claims helper.

## Model

| member | source | states |
|---|---|---|
| `Tokens.CheckResponse` | Source/CDR.DataHolder.IntegrationTests/Infrastructure/API2/DataHolder_AccessToken_Cache.cs:173-179 | A response passes only when both tokens are present. A missing access token is reported first. A present access token with a missing refresh token is reported as a refresh-token error. |
| `Seqs.FirstIndex` | Source/CDR.DataHolder.IntegrationTests/Infrastructure/API2/DataHolder_AccessToken_Cache.cs:183-186 | The scan finds the first matching entry: that entry matches and no earlier entry does. It finds nothing exactly when no entry matches. |
| `AccessTokenCache.GetAccessToken` | Source/CDR.DataHolder.IntegrationTests/Infrastructure/API2/DataHolder_AccessToken_Cache.cs:183-213 | **Hit:** an entry equal on all three key fields exists. The call returns the first such entry's token, makes no collaborator call, leaves the entries as they were and adds one to `Hits` only. **Miss:** the call adds one to `Misses` and runs the flow for this key. A complete response appends exactly one entry (key, access token) and returns that token. An incomplete response throws, stores nothing, and leaves `Misses` already incremented. In every case exactly one counter grows, and keys stay unique. |
| `AccessTokenCache.GetAccessTokenFor` | Source/CDR.DataHolder.IntegrationTests/Infrastructure/API2/DataHolder_AccessToken_Cache.cs:128-152 | The seven personas behave exactly like the keyed lookup on (persona user id, persona account ids, scope). `InvalidFoo`, `InvalidEmpty` and `InvalidOmit` return `"foo"`, `""` and null. Those three and unknown values leave the cache and counters untouched and make no call. A call throws the unknown-type error if and only if the value is not a declared one. |
| `AccessTokenCache.Run` | Source/CDR.DataHolder.IntegrationTests/Infrastructure/API2/DataHolder_AccessToken_Cache.cs:114-115 | Over any sequence of calls, `Hits + Misses` grows by exactly the number of calls and neither counter decreases. Entries are only appended, never more than the misses counted, and unique keys are preserved. |
| `AccessTokenCache.SecondCallHits` | Source/CDR.DataHolder.IntegrationTests/Infrastructure/API2/DataHolder_AccessToken_Cache.cs:189-209 | After a successful call, the next call with the same key is a hit. It returns the same token, makes no flow call and adds one to `Hits` only. |
| `AccessTokenCache.FailedFlowStillMisses` | Source/CDR.DataHolder.IntegrationTests/Infrastructure/API2/DataHolder_AccessToken_Cache.cs:196-200 | A miss whose flow response lacks a token throws but still counts a miss. The next call with that key misses again and runs the flow again. |
| `AccessTokenCache.RepeatedCallsHit` | Source/CDR.DataHolder.IntegrationTests/Infrastructure/API2/DataHolder_AccessToken_Cache.cs:189-194 | Once a key is cached, any number of further calls with it leave the entries unchanged and add exactly that number to `Hits`. |
| `BrokenAccessTokenCache.GetAccessToken` | Source/CDR.DataHolder.IntegrationTests/Infrastructure/API2/DataHolder_AccessToken_Cache.cs:73-102 | **Hit:** the match is on user id and scope only. `Hits` grows, and the first matching entry's refresh token is exchanged with the call's scope. A complete exchange overwrites only that entry's refresh token and returns the new access token. An incomplete exchange, or a null stored token, throws and changes no entry. **Miss:** `Misses` grows and the flow runs with the full key. A complete response appends (user, scope, refresh token). Unique (user, scope) pairs and non-null stored tokens are both preserved. |
| `BrokenAccessTokenCache.Run` | Source/CDR.DataHolder.IntegrationTests/Infrastructure/API2/DataHolder_AccessToken_Cache.cs:77-98 | Over any sequence of calls the counters grow by exactly the number of calls. Unique (user, scope) pairs are preserved, and so are non-null stored refresh tokens. |
| `BrokenAccessTokenCache.StoredTokenCheckNeverFires` | Source/CDR.DataHolder.IntegrationTests/Infrastructure/API2/DataHolder_AccessToken_Cache.cs:58-61 | From a fresh cache, after any run, no call fails on a null stored refresh token. |
| `BrokenAccessTokenCache.SelectedAccountsIgnored` | Source/CDR.DataHolder.IntegrationTests/Infrastructure/API2/DataHolder_AccessToken_Cache.cs:74-98 | Two calls that differ only in the selected accounts produce the same cache and the same answer. |
| `BrokenAccessTokenCache.OtherSelectionReusesEntry` | Source/CDR.DataHolder.IntegrationTests/Infrastructure/API2/DataHolder_AccessToken_Cache.cs:74-88 | After a successful miss for one account selection, a call for another selection of the same user and scope is a hit. It exchanges the refresh token issued by the first flow. |
| `BrokenAccessTokenCache.LastRotationWins` | Source/CDR.DataHolder.IntegrationTests/Infrastructure/API2/DataHolder_AccessToken_Cache.cs:79-88 | After N successful hits on one entry, its stored refresh token is the one returned by the N-th exchange. No other entry changes, and `Hits` grows by N. |
| `Decimal.IntRoundTrip` | Source/CDR.DataHolder.IdentityServer/Helpers/ConsentAndAuthenticationHelper.cs:38 | Parsing the decimal rendering of any integer, negative ones included, gives back that integer. |
| `Decimal.IntToStringInjective` | Source/CDR.DataHolder.IdentityServer/Helpers/ConsentAndAuthenticationHelper.cs:38 | Two integers render to the same string if and only if they are equal. |
| `Decimal.IntToString` | Source/CDR.DataHolder.IdentityServer/Helpers/ConsentAndAuthenticationHelper.cs:38 | Every rendering is canonical: an optional minus sign, then digits with no leading zero, and never `-0`. |
| `Decimal.CanonicalIsRendering` | Source/CDR.DataHolder.IdentityServer/Helpers/ConsentAndAuthenticationHelper.cs:38 | Every canonical string parses, and it is exactly the rendering of the integer it parses to. |
| `Decimal.CanonicalDetermined` | Source/CDR.DataHolder.IdentityServer/Helpers/ConsentAndAuthenticationHelper.cs:38 | Two canonical strings parse to the same integer if and only if they are the same string, so a canonical value is pinned by what it reads back as. |
| `ConsentHelper.SetClaimsPrincipalAndForceConsent` | Source/CDR.DataHolder.IdentityServer/Helpers/ConsentAndAuthenticationHelper.cs:16-28 | The consent requirement is off afterwards in every case. An absent or unauthenticated identity is returned unchanged. An authenticated identity gets its claims updated. |
| `ConsentHelper.ExpiryClaim` | Source/CDR.DataHolder.IdentityServer/Helpers/ConsentAndAuthenticationHelper.cs:30-39 | The expiry claim is an integer-typed `exp` claim. Its value is canonical. It is `"0"` for a zero duration. Otherwise it reads back as `now + duration`, which by `Decimal.CanonicalDetermined` makes it the one rendering of that number. |
| `ConsentHelper.UpdateClaims` | Source/CDR.DataHolder.IdentityServer/Helpers/ConsentAndAuthenticationHelper.cs:30-51 | When an id is given, the last claim is the new arrangement-id claim. Otherwise the last claim is the new expiry claim. `ConsentHelper.UpdateClaimsShape` pins down the whole list. |
| `ConsentHelper.UpdateClaimsShape` | Source/CDR.DataHolder.IdentityServer/Helpers/ConsentAndAuthenticationHelper.cs:30-51 | The whole list afterwards has three parts. First come the original claims with only their first arrangement-id claim (matched ignoring case) removed in place. Then comes the new expiry claim. Last comes the new arrangement-id claim, when an id is given. The freshly added expiry claim is never the one removed. |
| `ConsentHelper.UpdateFrame` | Source/CDR.DataHolder.IdentityServer/Helpers/ConsentAndAuthenticationHelper.cs:41-46 | For any kind of claim that is never an arrangement-id claim, the claims of that kind afterwards are the old ones, in order, plus the new expiry claim if it is of that kind. |
| `ConsentHelper.OtherClaimsKeepOrder` | Source/CDR.DataHolder.IdentityServer/Helpers/ConsentAndAuthenticationHelper.cs:30-46 | All claims that are not arrangement-id claims survive in their relative order, followed by the new expiry claim. |
| `ConsentHelper.ExpiryClaimsAccumulate` | Source/CDR.DataHolder.IdentityServer/Helpers/ConsentAndAuthenticationHelper.cs:31-39 | Existing expiry claims are kept. The number of expiry claims grows by exactly one per authenticated call. |
| `ConsentHelper.ArrangementClaimReplaced` | Source/CDR.DataHolder.IdentityServer/Helpers/ConsentAndAuthenticationHelper.cs:41-51 | The arrangement-id claims afterwards are the old ones minus the first (matched ignoring case). The new claim follows if and only if the id is non-null and non-empty. |
| `ConsentHelper.SingleArrangementClaim` | Source/CDR.DataHolder.IdentityServer/Helpers/ConsentAndAuthenticationHelper.cs:41-51 | With at most one arrangement-id claim before, there is exactly one afterwards, holding the new id, when an id is given. Otherwise there is none. |

## Left out

- Asynchrony and concurrency: calls are modelled as strictly sequential. The source has no locking, no de-duplication of concurrent misses for the same key, and no timeouts, so none is added. A concurrency-safe store with per-key in-flight de-duplication is a possible redesign, but it is not what the code does.
- The source stores entries in an append-only list scanned for the first match, not in a map. The model keeps the list, and uniqueness of keys is proved rather than built in.
- Counters (`Hits`, `Misses`): modelled as unbounded naturals. The source's 32-bit `int` would wrap after 2^31 increments, which a test run never reaches.
- The authorise/consent flow, the token endpoint and the refresh exchange are network calls. Their code is not part of this model. Only their responses (optional access and refresh tokens) are inputs. Exceptions they throw themselves, and the authorisation code and code verifier they pass along, are not modelled.
- `TokenType.UserId()` and `TokenType.AllAccountIds()` are defined outside this model. They are a function parameter from token type to persona.
- `BaseTest.SCOPE` (the default scope) and `BaseTest.AUTHORISE_OTP` are not part of this model. The scope is always an explicit argument.
- The two cache variants are separate classes in the source and stay separate modules here. No common strategy interface is introduced.
- Exception message texts are not modelled; errors are kinds. The source uses the same message for a null stored refresh token and a null exchanged refresh token. The model tells them apart.
- `DateTimeOffset.UtcNow` becomes the parameter `now`, in whole Unix seconds. Adding whole seconds and truncating to Unix seconds commutes, so the expiry value is exact. The range exception `AddSeconds` throws outside years 1 to 9999 is not modelled.
- The claim-type constants of `CdsConstants` are not part of this model. They are taken as `exp` and `cdr_arrangement_id`. The proofs rely only on the two differing in length.
- The negative sign of a rendered expiry is assumed to be the invariant culture's `-`. `long.ToString()` takes it from the current culture, and some cultures use U+2212. A negative expiry is possible, because `sharingDurationSeconds` is a signed `int`.
- `ConsentHelper.EqualsIgnoreCase`: the case-insensitive ordinal comparison folds ASCII letters only. Non-ASCII case mapping is not modelled.
- Only the identity's own claims are modelled. `ClaimsIdentity` claims that cannot be removed (from external sources, where `RemoveClaim` throws) are left out, and so are actors.
- From `ValidatedAuthorizeRequest`, only the client's `RequireConsent` flag and the subject's claims identity are modelled. The flag lives on a client object shared by later requests; that sharing is not modelled.
- The unused `configurationSettings` and `httpContextAccessor` parameters have no model.
- The error catalogue, the energy account plan and filter data holders, and the health endpoint are constant data or HTTP plumbing, and are not modelled.
