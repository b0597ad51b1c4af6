# JWT access tokens for an OAuth2 provider — a Dafny model

The system issues JSON Web Tokens as OAuth2 access tokens and accepts them
back on API requests. This project models its token engine:

- **Issuing** (`api/token_generator.py`, module `TokenGenerator`).
  `generate_token` builds a claim set from an optional OAuth2 request. It
  always writes the registered claims `iss`, `exp`, `iat` and `jti` (section
  4.1 of RFC 7519). From the request it adds `client_id`, `aud`, `scope`,
  `sub`, `username` and `email`. It signs the claims with the private key
  named after the deployment issuer, and fails when that key is missing.
- **Accepting** (`api/jwt_auth.py`, module `JwtAuth`).
  - `_get_jwt_value` reads the bearer credential from the Authorization header
    (section 2.1 of RFC 6750).
  - `decode_jwt_token` picks the public key named after the token's issuer and
    has the JWT library check the token.
  - `authenticate` maps the library's exceptions to failure messages, in
    clause order.
  - `authenticate_credentials` resolves the claims to the anonymous principal
    or to an active account.
  - `JwtToken.allow_scopes` checks requested scopes against the
    space-delimited `scope` claim (section 3.3 of RFC 6749).
- **Demonstration endpoints** (`api/demo_views.py`, module `DemoViews`).
  - The manual scope check picks an access tier: admin, then write, then read,
    then basic.
  - The token-information endpoint reports `has_*` flags by substring test.
  - The protected endpoints declare the scopes they require.

Supporting modules:

- `Text` models the Python string operations the engine relies on:
  `str.split()`, `bytes.split()`, `' '.join`, `sub in s`, `upper()` and
  `str(int)`.
- `Claims` holds the payload.
- `Settings` holds the deployment settings, as a map for the settings looked
  up by a computed name.
- `Consistency` relates issuing to accepting.

The JWT library is left abstract. `JwtAuth.JwtLibrary` stands for its two uses
of `jwt.decode`: the unverified read and the full check. Signing is a function
parameter of `TokenGenerator.GenerateToken`. The clock (`now`, a float
timestamp) and the token identifier (`jti`) are inputs. The account store is
a map from the `(sub, username)` claim pair to an account.

Issuer normalisation rewrites only `-`, to `_`, and upper-cases the rest.
Other punctuation such as `.` is kept (`Settings.OnlyDashIsReplaced`).

## Model

| member | source | states |
|---|---|---|
| TokenGenerator.GenerateToken | api/token_generator.py:13-84 | Fails exactly when the private key named after the issuer is absent or empty, with the `Missing JWT private key setting` message; otherwise returns the signature of the declarative claim set `IssuedPayload` under that key and the configured algorithm, although the method builds the claims by insertion |
| TokenGenerator.Truncate | api/token_generator.py:35-36 | `int()` of a timestamp truncates toward zero: the result is within one second of the instant, below it for instants after the epoch and above it before |
| TokenGenerator.PayloadWithoutRequest | api/token_generator.py:32-41 | Without a request the payload has exactly the keys `iss`, `exp`, `iat` and `jti` |
| TokenGenerator.BuildPayload | api/token_generator.py:31-66 | Inserting the claims one by one, as the generator does, yields exactly the declarative claim set `IssuedPayload` |
| TokenGenerator.IssuedClaimNames | api/token_generator.py:32-66 | Every issued payload holds `iss`, `exp`, `iat` and `jti` and no claim outside the ten the generator writes |
| TokenGenerator.RegisteredClaims | api/token_generator.py:32-38 | The four registered claims are always present, with the issuer, the identifier and the truncated instants, and no request claim overwrites them |
| TokenGenerator.RequestClaimNames | api/token_generator.py:41-66 | A request contributes only `client_id`, `aud`, `scope`, `sub`, `username` and `email` |
| TokenGenerator.ExpiryWindow | api/token_generator.py:27-36 | For an instant after the epoch and a non-negative lifetime, `exp - iat` is exactly the configured lifetime (3600 by default) |
| TokenGenerator.ClientIdClaims | api/token_generator.py:43-49 | The client id is the request's, falling back to its client's; `client_id` and `aud` are both present and equal to it iff it is non-empty |
| TokenGenerator.ScopeClaimPresence | api/token_generator.py:52-55 | `scope` is issued iff the request has scopes |
| TokenGenerator.ScopeClaimRoundTrip | api/token_generator.py:52-55 | When each request scope is a non-empty word, `scope` is present iff there are scopes, and splitting the claim gives back the request's scopes in order |
| TokenGenerator.UserClaims | api/token_generator.py:58-63 | For an authenticated user `sub` is the decimal id, `username` is the user name, and `email` is present iff non-empty |
| TokenGenerator.ClientCredentialsClaims | api/token_generator.py:64-66 | Without an authenticated user no `username` or `email` is issued, and `sub` is the client id iff that is non-empty |
| TokenGenerator.KeyNamesShareIssuer | api/token_generator.py:69-71 | The private-key and public-key setting names end in the same normalised issuer and are never the same setting |
| Text.SplitJoin | api/token_generator.py:54 | Joining words with single spaces and splitting the result gives the words back |
| Text.IntToString | api/token_generator.py:60 | `str(id)` starts with `-` exactly for negative ids; after the sign comes a non-empty run of decimal digits, with no leading zero unless the id is `0`, whose base-ten value is the id's absolute value |
| Text.NatToString | api/token_generator.py:60 | `str(n)` of a natural number is a non-empty run of decimal digits, with no leading zero unless it is `0`, whose base-ten value is `n` |
| Text.IntToStringInjective | api/token_generator.py:60 | Distinct ids give distinct `sub` texts |
| Text.Split | api/jwt_auth.py:86 | Every piece `str.split()` returns is a non-empty run of non-whitespace characters |
| Text.Contains | api/demo_views.py:290-292 | `sub in s` holds iff `sub` occurs in `s` at some position |
| Settings.PublicKeyName | api/jwt_auth.py:26-27 | The public-key setting name is `JWT_PUBLIC_KEY_` followed by the normalised issuer |
| Settings.PrivateKeyName | api/token_generator.py:70-71 | The private-key setting name is `JWT_PRIVATE_KEY_` followed by the normalised issuer |
| Settings.KeySetting | api/jwt_auth.py:28-30 | A key setting counts as present iff it is defined and non-empty, and then it is the configured text |
| Settings.NormaliseIssuer | api/jwt_auth.py:26 | The normalised issuer has the issuer's length, no `-` and no lower-case ASCII letter; each `-` becomes `_`, every other character is upper-cased |
| Settings.NormaliseIdempotent | api/jwt_auth.py:26-27 | Normalising an already normalised issuer changes nothing |
| Settings.SameKeyNameIffSameUpToCaseAndDash | api/jwt_auth.py:26-27 | Two issuers share a public-key setting iff they have the same length and agree position by position up to ASCII case and `-` versus `_` |
| Settings.OnlyDashIsReplaced | api/jwt_auth.py:26 | `my-issuer` and `My_Issuer` map to `MY_ISSUER`, while `my.issuer` maps to `MY.ISSUER` |
| JwtAuth.DecodeJwtToken | api/jwt_auth.py:14-47 | An unreadable token fails with the library's error; a non-text issuer raises `AttributeError`; a missing public key for the token's issuer (or the deployment issuer) fails naming the setting; otherwise the outcome is exactly the library's full check under that key and the configured algorithm list |
| JwtAuth.MissingKeyRejectsBeforeVerification | api/jwt_auth.py:21-31 | A missing public key fails with `InvalidTokenError` naming the setting, whatever the signature check would say |
| JwtAuth.MissingIssuerFallsBackToDeploymentIssuer | api/jwt_auth.py:23-28 | A token without `iss` is checked with the deployment issuer's public key |
| JwtAuth.AllowScopes | api/jwt_auth.py:76-89 | No requested scopes allows everything; a missing or empty scope claim allows exactly the empty request |
| JwtAuth.AllowScopesIffEveryScopeIsListed | api/jwt_auth.py:85-89 | A non-empty request is allowed iff every requested scope is one of the split scope claim's tokens |
| JwtAuth.AllowScopesIffEveryScopeIsAToken | api/jwt_auth.py:85-89 | A non-empty request is allowed iff every requested scope occurs in the claim as a whole word bounded by whitespace or the ends |
| JwtAuth.ScopeOrderDoesNotMatter | api/jwt_auth.py:85-86 | Swapping the granted scopes and changing the whitespace between them does not change the outcome |
| JwtAuth.RepeatedScopeDoesNotMatter | api/jwt_auth.py:85-86 | A scope granted twice allows what it allows when granted once |
| JwtAuth.IsExpired | api/jwt_auth.py:69-74 | A decoded token is never reported as expired |
| JwtAuth.IsValid | api/jwt_auth.py:61-67 | `is_valid` agrees with `allow_scopes` on every token and request |
| JwtAuth.ValidityIsScopeCheck | api/jwt_auth.py:61-74 | `is_expired` never holds, so validity is the scope check, and a request without scopes is always valid |
| JwtAuth.GetJwtValue | api/jwt_auth.py:151-173 | On the ASCII-whitespace words of the header: none, or a first word other than the prefix, means no credentials; the prefix alone fails with `No credentials provided`; more than two words fail with `should not contain spaces`; exactly two give the second word |
| JwtAuth.BearerHeaderYieldsToken | api/jwt_auth.py:155-173 | `<prefix> <token>` yields the token when both are words |
| JwtAuth.SchemeWithoutTokenIsMalformed | api/jwt_auth.py:164-165 | `Bearer` alone is a malformed header under the default prefix |
| JwtAuth.TokenWithSpaceIsMalformed | api/jwt_auth.py:166-167 | `Bearer abc def` is a malformed header under the default prefix |
| JwtAuth.OtherSchemeIsIgnored | api/jwt_auth.py:161-162 | A `Basic` header is not taken as a credential |
| JwtAuth.AuthenticateHeader | api/jwt_auth.py:175-180 | The challenge is the header prefix followed by ` realm="api"` |
| JwtAuth.ChallengeNamesAcceptedScheme | api/jwt_auth.py:175-180 | The first word of the challenge is the scheme prefix that the header parser accepts |
| JwtAuth.AuthenticateCredentials | api/jwt_auth.py:123-149 | Disabled authentication or a missing or empty `sub` or `username` gives the anonymous principal; otherwise the account stored under both claims is returned if active; a missing account fails with `User not found` and an inactive one with `User account is disabled` |
| JwtAuth.DecodeFailure | api/jwt_auth.py:111-118 | An exception is turned into a failure iff it is an `InvalidTokenError`: expired first, then decode errors, then `Invalid token: <message>`; anything else escapes |
| JwtAuth.ErrorPrecedence | api/jwt_auth.py:111-118 | A bad signature reports `Error decoding token` although it is also an invalid-token error; an expired token reports `Token has expired`; an audience error reports its own message; key and attribute errors escape |
| JwtAuth.MissingKeyMessage | api/jwt_auth.py:31 | A missing public key is reported as `Invalid token: Missing public key setting: <name>` |
| JwtAuth.Authenticate | api/jwt_auth.py:102-121 | No credentials means no attempt; a malformed header fails with its message; for a credential, a decode failure gives exactly the mapped failure or escape, and a decoded payload gives the principal it resolves to, with that payload, or the resolution's failure |
| JwtAuth.ExpiredTokenIsReported | api/jwt_auth.py:111-114 | A presented token whose decoding raises `ExpiredSignatureError` fails with `Token has expired` |
| JwtAuth.ValidTokenAuthenticates | api/jwt_auth.py:102-121 | `<prefix> <token>` whose token decodes and whose claims resolve authenticates as that principal with that payload |
| DemoViews.ManualScopeCheck | api/demo_views.py:188-225 | The response lists the token's split scopes and the highest tier any of them names, with that tier's data keys; a numeric scope claim makes the view raise |
| DemoViews.LevelPriority | api/demo_views.py:198-223 | `admin` whatever else is granted; `write` iff write is granted and admin is not; `read` iff read is the only tier scope; `basic` otherwise |
| DemoViews.LevelUnique | api/demo_views.py:198-223 | At most one tier fits a set of scopes |
| DemoViews.LevelExists | api/demo_views.py:198-223 | Some tier fits every set of scopes, so with `LevelUnique` exactly one does |
| DemoViews.DataKeysMonotone | api/demo_views.py:200-222 | A tier at least as high sees at least the same data keys, and a strictly higher tier strictly more |
| DemoViews.NoScopeIsBasic | api/demo_views.py:189-190 | A missing token or scope claim grants no scopes and the basic tier |
| DemoViews.TokenInfo | api/demo_views.py:272-293 | Without a token the endpoint answers `No authentication token found`; otherwise the raw scope is the token's `scope` claim (empty when absent), the parsed scopes are its split and each flag holds iff its word is a substring of it; a numeric claim raises, non-zero on `split` and zero on the substring test |
| DemoViews.ParsedScopeSetsFlag | api/demo_views.py:289-292 | A scope among the parsed scopes always has its flag set |
| DemoViews.FlagWithoutParsedScope | api/demo_views.py:289-290 | A `readonly` scope sets `has_read` although `read` is not a parsed scope |
| DemoViews.LevelImpliesFlag | api/demo_views.py:198-218 | The tier the manual check grants always has its flag set on the information endpoint |
| DemoViews.RequiredScopes | api/demo_views.py:253 | Each endpoint requires non-empty single-word tier scopes: one, naming its own tier, except the multi-scope endpoint, which requires more than one |
| DemoViews.EndpointAdmits | api/demo_views.py:71 | An endpoint's scope check passes iff each of its required scopes is a token of the scope claim |
| DemoViews.MultipleScopesIsConjunction | api/demo_views.py:253 | The multi-scope endpoint admits a token iff both the read endpoint and the write endpoint do |
| DemoViews.EndpointAndTier | api/demo_views.py:169 | A token passing the admin endpoint is exactly one at the admin tier; one passing the write endpoint is at write or above; one passing the read endpoint is above basic |
| Consistency.ClientCredentialsTokenIsAnonymous | api/token_generator.py:64-66 | A token issued without an authenticated user resolves to the anonymous principal |
| Consistency.UserTokenResolvesToAccount | api/jwt_auth.py:132-149 | With `JWT_AUTH_DISABLED` off, a token issued for an authenticated user with a name resolves to the account stored under that user's id and name if it is active, and otherwise fails with `User not found` or `User account is disabled` |
| Consistency.IssuedScopesAuthorize | api/jwt_auth.py:85-89 | When each request scope is a non-empty word without whitespace, an issued token passes a non-empty scope check iff every requested scope was issued |
| Consistency.VerifierSelectsSigningIssuerKey | api/jwt_auth.py:21-37 | The verifier reads back the issuer the generator wrote and selects the deployment issuer's public key, or fails naming it |
| Consistency.AudienceClaimBlocksClientToken | api/jwt_auth.py:37-46 | A library that refuses tokens carrying an `aud` claim when no audience is given never lets a token issued with a client id authenticate with its issued payload |
| Consistency.IssueThenAuthenticate | api/jwt_auth.py:102-121 | When each request scope is a non-empty word without whitespace, a client-credentials token, presented as `<prefix> <token>` and accepted by the library, authenticates as the anonymous principal with the issued payload, and passes a non-empty scope check exactly for the issued scopes |

## Left out

- JWS signing and verification are not modelled. The library is the abstract `JwtLibrary`. Its own claim checks (`exp`, `iat`, audience) happen inside `verify` and are not modelled either.
- `datetime.utcnow()`, `timestamp()` on a naive datetime and the timezone are not modelled. `now` is a given float timestamp, modelled as a real number.
- `uuid.uuid4()` is not modelled; `jti` is a given string.
- `User.objects.get` is modelled as a map keyed by the `(sub, username)` claim values. The ORM's coercion of a text id to an integer is not modelled. In the source, a token with a non-numeric `sub` and a `username` makes `User.objects.get` raise `ValueError`, which escapes `authenticate` because only `DoesNotExist` is caught (api/jwt_auth.py:140-143); the model answers `User not found` or an account instead. `Consistency.UserTokenResolvesToAccount` therefore looks up the issued claim pair as it is.
- Django REST framework request objects and `Response` bodies are not modelled. Nor are the demo payloads beyond the tiers, data keys and scope flags, and the `user_info` block of the token-information endpoint.
- `TokenHasScope` and `TokenHasReadWriteScope` belong to a library that is not part of this model. `DemoViews.EndpointAdmits` takes it that the permission calls `is_valid` with the endpoint's required scopes.
- `DemoViews.ManualScopeCheck`: `your_scopes` is returned as a set; the order in which `list(scopes)` lists it is not modelled.
- `JwtAuth.AllowScopes`: a non-text `scope` claim is read as no scope. The source grants nothing for a zero claim, but raises on a non-zero number. Only text and integer claim values are modelled.
- `TokenGenerator.GenerateToken`: request scopes are modelled as a list. The `str(scopes)` branch for other iterables is not modelled. A request whose `client` attribute exists but is `None` raises in the source; the model has no such state.
- `TokenGenerator.GenerateToken`: the `isinstance(token, bytes)` decoding step is subsumed by the abstract signing function returning text.
- `JwtAuth.GetJwtValue`: the header is taken as already decoded text. For valid UTF-8, splitting on ASCII whitespace before or after decoding gives the same words.
- Consistency.IssueThenAuthenticate: its hypothesis, a library that accepts the issued token, does not hold for a PyJWT-style library with its default audience check, for any token issued with a client id. The generator writes `aud` (api/token_generator.py:47-49), and `decode_jwt_token` passes no audience (api/jwt_auth.py:37-46), so such a token is refused as `Invalid token: Invalid audience`. `Consistency.AudienceClaimBlocksClientToken` states this refusal. The lemma therefore applies only to tokens without a client id, or to a library that skips the audience check.
- `Text.Upper`: only ASCII letters are upper-cased. Python's full Unicode case mapping is not modelled.
