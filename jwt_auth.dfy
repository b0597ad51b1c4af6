/**
 * Request-time validation of bearer tokens: reading the token from the
 * Authorization header (section 2.1 of RFC 6750), selecting the verification key
 * from the token's issuer, mapping the JWT library's exceptions to
 * authentication failures, resolving the verified claims to a principal, and
 * the scope check offered to permission classes (scopes as in section 3.3 of
 * RFC 6749).
 */
module JwtAuth {
  import opened Wrappers
  import Text
  import opened Claims
  import opened Settings

  // ---------------------------------------------------------------------------
  // Exceptions raised while decoding, with the JWT library's class hierarchy
  // ---------------------------------------------------------------------------

  datatype ExcClass =
    | PyJWTError
    | InvalidTokenError
    | DecodeError
    | InvalidSignatureError
    | ExpiredSignatureError
    | InvalidAudienceError
    | InvalidIssuerError
    | InvalidIssuedAtError
    | ImmatureSignatureError
    | InvalidAlgorithmError
    | MissingRequiredClaimError
    | InvalidKeyError
    | AttributeError  // not a library error: a text method called on a number
    | TypeError       // not a library error: `in` applied to a number

  /** `isinstance(e, base)` for an exception whose class is `c`: `base` is
      `c` itself or one of the classes `c` inherits from. */
  predicate IsA(c: ExcClass, base: ExcClass) {
    || base == c
    || (base == PyJWTError && IsLibraryClass(c))
    || (base == InvalidTokenError && IsLibraryClass(c) && c != PyJWTError && c != InvalidKeyError)
    || (base == DecodeError && c == InvalidSignatureError)
  }

  /** The classes the JWT library defines, all below `PyJWTError`. */
  predicate IsLibraryClass(c: ExcClass) {
    c != AttributeError && c != TypeError
  }

  /** A raised Python exception: its class and its message. */
  datatype Exc = Exc(cls: ExcClass, message: string)

  // ---------------------------------------------------------------------------
  // decode_jwt_token
  // ---------------------------------------------------------------------------

  /** The library's two uses of `jwt.decode`, left abstract: reading the
      payload without checking anything, and the full check of the signature
      with a key under an algorithm allow-list, followed by the library's own
      `exp` and `iat` checks. Either may raise. */
  datatype JwtLibrary = JwtLibrary(
    readUnverified: string -> Result<Payload, Exc>,
    verify: (string, string, seq<string>) -> Result<Payload, Exc>)

  /** `unverified.get('iss', settings.JWT_ISSUER)`. */
  function IssuerClaim(cfg: Config, unverified: Payload): Claim {
    if "iss" in unverified then unverified["iss"] else Str(cfg.issuer)
  }

  function MissingPublicKey(name: string): Exc {
    Exc(InvalidTokenError, "Missing public key setting: " + name)
  }

  /** What `.upper()` raises on an issuer claim that is not text. */
  const IssuerNotText := Exc(AttributeError, "'int' object has no attribute 'upper'")

  /** `decode_jwt_token`: a token is only ever accepted by the full library
      check, run with the key configured for the issuer the token names (or
      the deployment's issuer) and with the configured algorithm allow-list. */
  function DecodeJwtToken(cfg: Config, lib: JwtLibrary, jwtValue: string): (r: Result<Payload, Exc>)
    ensures r.Success? ==>
      && lib.readUnverified(jwtValue).Success?
      && IssuerClaim(cfg, lib.readUnverified(jwtValue).value).Str?
      && (var name := PublicKeyName(IssuerClaim(cfg, lib.readUnverified(jwtValue).value).text);
          && KeySetting(cfg, name).Some?
          && r == lib.verify(jwtValue, KeySetting(cfg, name).value, JwsAlgorithms(cfg)))
    ensures lib.readUnverified(jwtValue).Failure? ==> r == lib.readUnverified(jwtValue)
    ensures lib.readUnverified(jwtValue).Success? ==>
      var issuer := IssuerClaim(cfg, lib.readUnverified(jwtValue).value);
      && (!issuer.Str? ==> r == Failure(IssuerNotText))
      && (issuer.Str? ==>
            var name := PublicKeyName(issuer.text);
            && (KeySetting(cfg, name).None? ==> r == Failure(MissingPublicKey(name)))
            && (KeySetting(cfg, name).Some? ==>
                  r == lib.verify(jwtValue, KeySetting(cfg, name).value, JwsAlgorithms(cfg))))
  {
    match lib.readUnverified(jwtValue)
    case Failure(e) => Failure(e)
    case Success(unverified) =>
      var issuer := IssuerClaim(cfg, unverified);
      if !issuer.Str? then
        Failure(IssuerNotText)
      else
        var publicKeyName := PublicKeyName(issuer.text);
        match KeySetting(cfg, publicKeyName)
        case None => Failure(MissingPublicKey(publicKeyName))
        case Some(publicKey) => lib.verify(jwtValue, publicKey, JwsAlgorithms(cfg))
  }

  /** A missing public key is reported before the signature is looked at:
      the outcome is the same whatever the library's verifier would say. */
  lemma MissingKeyRejectsBeforeVerification(
    cfg: Config, lib: JwtLibrary, otherVerify: (string, string, seq<string>) -> Result<Payload, Exc>,
    jwtValue: string, unverified: Payload)
    requires lib.readUnverified(jwtValue) == Success(unverified)
    requires IssuerClaim(cfg, unverified).Str?
    requires KeySetting(cfg, PublicKeyName(IssuerClaim(cfg, unverified).text)).None?
    ensures DecodeJwtToken(cfg, lib, jwtValue)
         == DecodeJwtToken(cfg, JwtLibrary(lib.readUnverified, otherVerify), jwtValue)
         == Failure(MissingPublicKey(PublicKeyName(IssuerClaim(cfg, unverified).text)))
  {
  }

  /** A token without `iss` is checked with the deployment issuer's key. */
  lemma MissingIssuerFallsBackToDeploymentIssuer(cfg: Config, lib: JwtLibrary, jwtValue: string, unverified: Payload)
    requires lib.readUnverified(jwtValue) == Success(unverified)
    requires "iss" !in unverified
    requires KeySetting(cfg, PublicKeyName(cfg.issuer)).Some?
    ensures DecodeJwtToken(cfg, lib, jwtValue)
         == lib.verify(jwtValue, KeySetting(cfg, PublicKeyName(cfg.issuer)).value, JwsAlgorithms(cfg))
  {
  }

  // ---------------------------------------------------------------------------
  // JwtToken: the decoded payload seen as an access token
  // ---------------------------------------------------------------------------

  /** `not scopes` for the optional iterable of requested scopes. */
  predicate NoScopesRequested(scopes: Option<seq<string>>) {
    scopes.None? || scopes.value == []
  }

  /** `JwtToken.is_expired`: expiry was already enforced while decoding. */
  function IsExpired(token: Payload): (r: bool)
    ensures !r
  {
    false
  }

  /** `JwtToken.allow_scopes`: every requested scope must be granted. */
  function AllowScopes(token: Payload, scopes: Option<seq<string>>): (r: bool)
    ensures NoScopesRequested(scopes) ==> r
    ensures ScopeText(token) == "" ==> (r <==> NoScopesRequested(scopes))
  {
    if NoScopesRequested(scopes) then true
    else
      var tokenScope := ScopeText(token);
      var providedScopes := if tokenScope != "" then set w | w in Text.Split(Text.StrWhitespace, tokenScope) else {};
      var resourceScopes := set s | s in scopes.value;
      assert scopes.value[0] in resourceScopes;
      resourceScopes <= providedScopes
  }

  /** `JwtToken.is_valid`. */
  function IsValid(token: Payload, scopes: Option<seq<string>>): (r: bool)
    ensures r == AllowScopes(token, scopes)
  {
    !IsExpired(token) && AllowScopes(token, scopes)
  }

  /** The check has AND semantics over the split scope claim: a non-empty
      request is allowed iff each requested scope is one of the claim's
      whitespace-separated tokens. */
  lemma AllowScopesIffEveryScopeIsListed(token: Payload, scopes: seq<string>)
    requires scopes != []
    ensures AllowScopes(token, Some(scopes)) <==> forall s | s in scopes :: s in ScopeWords(token)
  {
    var words := ScopeWords(token);
    if ScopeText(token) == "" {
      assert words == [];
    }
    var provided := set w | w in words;
    var requested := set s | s in scopes;
    assert AllowScopes(token, Some(scopes)) == (requested <= provided);
    if requested <= provided {
      forall s | s in scopes
        ensures s in words
      {
        assert s in requested;
      }
    }
    if forall s | s in scopes :: s in words {
      forall s | s in requested
        ensures s in provided
      {
        assert s in words;
      }
    }
  }

  /** The same, stated on the claim text itself: each requested scope must
      occur in the claim as a whole word, bounded by whitespace or the ends. */
  lemma AllowScopesIffEveryScopeIsAToken(token: Payload, scopes: seq<string>)
    requires scopes != []
    ensures AllowScopes(token, Some(scopes)) <==>
      forall s | s in scopes :: Text.OccursAsWord(Text.StrWhitespace, s, ScopeText(token))
  {
    AllowScopesIffEveryScopeIsListed(token, scopes);
    forall s | s in scopes
      ensures s in ScopeWords(token) <==> Text.OccursAsWord(Text.StrWhitespace, s, ScopeText(token))
    {
      Text.SplitFindsExactlyTheWords(Text.StrWhitespace, ScopeText(token), s);
    }
  }

  /** Order of the granted scopes and the separators between them do not
      matter. */
  lemma ScopeOrderDoesNotMatter(token: Payload, a: string, c: char, b: string, scopes: Option<seq<string>>)
    requires Text.IsSpace(Text.StrWhitespace, c)
    ensures AllowScopes(token["scope" := Str(a + [c] + b)], scopes)
         == AllowScopes(token["scope" := Str(b + " " + a)], scopes)
  {
    Text.SplitAtSpace(Text.StrWhitespace, a, c, b);
    Text.SplitAtSpace(Text.StrWhitespace, b, ' ', a);
    var ab := Text.Split(Text.StrWhitespace, a + [c] + b);
    var ba := Text.Split(Text.StrWhitespace, b + " " + a);
    assert b + " " + a == b + [' '] + a;
    assert (set w | w in ab) == (set w | w in ba);
  }

  /** A scope granted twice is granted once. */
  lemma RepeatedScopeDoesNotMatter(token: Payload, a: string, scopes: Option<seq<string>>)
    ensures AllowScopes(token["scope" := Str(a + " " + a)], scopes)
         == AllowScopes(token["scope" := Str(a)], scopes)
  {
    Text.SplitAtSpace(Text.StrWhitespace, a, ' ', a);
    assert a + " " + a == a + [' '] + a;
    var aa := Text.Split(Text.StrWhitespace, a + " " + a);
    var one := Text.Split(Text.StrWhitespace, a);
    assert (set w | w in aa) == (set w | w in one);
  }

  /** `is_expired` is constant false, so validity is the scope check alone. */
  lemma ValidityIsScopeCheck(token: Payload, scopes: Option<seq<string>>)
    ensures IsValid(token, scopes) == AllowScopes(token, scopes)
    ensures NoScopesRequested(scopes) ==> IsValid(token, scopes)
  {
  }

  // ---------------------------------------------------------------------------
  // JWTAuthentication
  // ---------------------------------------------------------------------------

  /** What `_get_jwt_value` does with the Authorization header. */
  datatype HeaderValue =
    | NoCredentials                   // returns None: the header is not for this scheme
    | Credential(jwtValue: string)    // returns the token
    | BadHeader(detail: string)       // raises AuthenticationFailed(detail)

  const NoCredentialsDetail := "Invalid Authorization header. No credentials provided."
  const SpacesDetail := "Invalid Authorization header. Credentials string should not contain spaces."

  /** `_get_jwt_value`: the header's words (`bytes.split()`, so ASCII
      whitespace) must be exactly the configured prefix and one token. */
  function GetJwtValue(cfg: Config, header: string): (r: HeaderValue)
    ensures var words := Text.Split(Text.BytesWhitespace, header);
      && (r == NoCredentials <==> words == [] || words[0] != HeaderPrefix(cfg))
      && (r == BadHeader(NoCredentialsDetail) <==> |words| == 1 && words[0] == HeaderPrefix(cfg))
      && (r == BadHeader(SpacesDetail) <==> |words| > 2 && words[0] == HeaderPrefix(cfg))
      && (r.Credential? <==> |words| == 2 && words[0] == HeaderPrefix(cfg))
      && (r.Credential? ==> r.jwtValue == words[1] && Text.IsWord(Text.BytesWhitespace, r.jwtValue))
  {
    var auth := Text.Split(Text.BytesWhitespace, header);
    var authHeaderPrefix := HeaderPrefix(cfg);
    if auth == [] then NoCredentials
    else if auth[0] != authHeaderPrefix then NoCredentials
    else if |auth| == 1 then BadHeader(NoCredentialsDetail)
    else if |auth| > 2 then BadHeader(SpacesDetail)
    else Credential(auth[1])
  }

  /** A header built as prefix, one space, token gives the token back. */
  lemma BearerHeaderYieldsToken(cfg: Config, token: string)
    requires Text.IsWord(Text.BytesWhitespace, HeaderPrefix(cfg))
    requires Text.IsWord(Text.BytesWhitespace, token)
    ensures GetJwtValue(cfg, HeaderPrefix(cfg) + " " + token) == Credential(token)
  {
    var ws := Text.BytesWhitespace;
    assert HeaderPrefix(cfg) + " " + token == HeaderPrefix(cfg) + [' '] + token;
    Text.SplitAtSpace(ws, HeaderPrefix(cfg), ' ', token);
    Text.SplitOneWord(ws, HeaderPrefix(cfg));
    Text.SplitOneWord(ws, token);
  }

  /** The scheme without a token is a malformed header. */
  lemma SchemeWithoutTokenIsMalformed(cfg: Config)
    requires "JWT_AUTH_HEADER_PREFIX" !in cfg.text
    ensures GetJwtValue(cfg, "Bearer") == BadHeader(NoCredentialsDetail)
  {
    Text.SplitOneWord(Text.BytesWhitespace, "Bearer");
  }

  /** A token with a space in it is a malformed header. */
  lemma TokenWithSpaceIsMalformed(cfg: Config)
    requires "JWT_AUTH_HEADER_PREFIX" !in cfg.text
    ensures GetJwtValue(cfg, "Bearer abc def") == BadHeader(SpacesDetail)
  {
    var ws := Text.BytesWhitespace;
    Text.SplitJoin(ws, ["Bearer", "abc", "def"]);
    assert Text.Join(["Bearer", "abc", "def"]) == "Bearer abc def";
  }

  /** Another scheme is not this authenticator's business. */
  lemma OtherSchemeIsIgnored(cfg: Config)
    requires "JWT_AUTH_HEADER_PREFIX" !in cfg.text
    ensures GetJwtValue(cfg, "Basic abc") == NoCredentials
  {
    var ws := Text.BytesWhitespace;
    Text.SplitOneWord(ws, "Basic");
    Text.SplitOneWord(ws, "abc");
    assert "Basic abc" == "Basic" + [' '] + "abc";
    Text.SplitAtSpace(ws, "Basic", ' ', "abc");
  }

  const Realm := "api"

  /** `authenticate_header`: the challenge sent with a 401. */
  function AuthenticateHeader(cfg: Config): (challenge: string)
    ensures |challenge| == |HeaderPrefix(cfg)| + |" realm=\"api\""|
    ensures challenge[..|HeaderPrefix(cfg)|] == HeaderPrefix(cfg)
    ensures challenge[|HeaderPrefix(cfg)|..] == " realm=\"api\""
  {
    HeaderPrefix(cfg) + " realm=\"" + Realm + "\""
  }

  /** The challenge names the scheme that `GetJwtValue` accepts. */
  lemma ChallengeNamesAcceptedScheme(cfg: Config)
    requires Text.IsWord(Text.BytesWhitespace, HeaderPrefix(cfg))
    ensures Text.Split(Text.BytesWhitespace, AuthenticateHeader(cfg))[0] == HeaderPrefix(cfg)
  {
    var ws := Text.BytesWhitespace;
    var rest := "realm=\"" + Realm + "\"";
    assert AuthenticateHeader(cfg) == HeaderPrefix(cfg) + [' '] + rest;
    Text.SplitAtSpace(ws, HeaderPrefix(cfg), ' ', rest);
    Text.SplitOneWord(ws, HeaderPrefix(cfg));
  }

  /** A user account, as the account store holds it. */
  datatype Account = Account(id: int, username: string, isActive: bool)

  datatype Principal = Anonymous | Known(account: Account)

  /** `User.objects.get(id=sub, username=username)`: accounts by the pair of
      claims that must both match. */
  type AccountStore = map<(Claim, Claim), Account>

  /** The payload names a user: `sub` and `username` are both present and
      truthy. */
  predicate IsUserBound(payload: Payload) {
    Truthy(Get(payload, "sub")) && Truthy(Get(payload, "username"))
  }

  function UserKey(payload: Payload): (Claim, Claim)
    requires IsUserBound(payload)
  {
    (payload["sub"], payload["username"])
  }

  const UserNotFound := "User not found"
  const AccountDisabled := "User account is disabled"

  /** `authenticate_credentials`. */
  function AuthenticateCredentials(cfg: Config, store: AccountStore, payload: Payload): (r: Result<Principal, string>)
    ensures cfg.authDisabled ==> r == Success(Anonymous)
    ensures !IsUserBound(payload) ==> r == Success(Anonymous)
    ensures r == Success(Anonymous) ==> cfg.authDisabled || !IsUserBound(payload)
    ensures r.Success? && r.value.Known? ==>
      && IsUserBound(payload)
      && UserKey(payload) in store
      && store[UserKey(payload)] == r.value.account
      && r.value.account.isActive
    ensures r.Failure? <==>
      && !cfg.authDisabled
      && IsUserBound(payload)
      && (UserKey(payload) !in store || !store[UserKey(payload)].isActive)
    ensures r.Failure? ==> (r.error == UserNotFound <==> UserKey(payload) !in store)
    ensures r.Failure? ==> (r.error == AccountDisabled <==> UserKey(payload) in store)
  {
    if cfg.authDisabled then Success(Anonymous)
    else
      var userId := Get(payload, "sub");
      var username := Get(payload, "username");
      if !Truthy(userId) || !Truthy(username) then Success(Anonymous)
      else
        var key := (userId.value, username.value);
        if key !in store then Failure(UserNotFound)
        else if !store[key].isActive then Failure(AccountDisabled)
        else Success(Known(store[key]))
  }

  /** What `authenticate` returns or raises. */
  datatype AuthOutcome =
    | NotAttempted                                   // returns None
    | Authenticated(user: Principal, token: Payload) // returns (user, JwtToken(payload))
    | Failed(detail: string)                         // raises AuthenticationFailed(detail)
    | Raised(exc: Exc)                               // an exception it does not catch

  const ExpiredDetail := "Token has expired"
  const DecodeDetail := "Error decoding token"

  /** The `except` clauses of `authenticate`, tried in order. */
  function DecodeFailure(e: Exc): (r: AuthOutcome)
    ensures r.Failed? <==> IsA(e.cls, InvalidTokenError)
    ensures !r.Failed? ==> r == Raised(e)
    ensures IsA(e.cls, ExpiredSignatureError) ==> r == Failed(ExpiredDetail)
    ensures IsA(e.cls, DecodeError) ==> r == Failed(DecodeDetail)
    ensures r.Failed? && !IsA(e.cls, ExpiredSignatureError) && !IsA(e.cls, DecodeError) ==>
      r.detail == "Invalid token: " + e.message
  {
    if IsA(e.cls, ExpiredSignatureError) then Failed(ExpiredDetail)
    else if IsA(e.cls, DecodeError) then Failed(DecodeDetail)
    else if IsA(e.cls, InvalidTokenError) then Failed("Invalid token: " + e.message)
    else Raised(e)
  }

  /** The first matching clause wins: a bad signature is a decode error even
      though it is also an invalid-token error; a key or attribute error
      escapes authentication. */
  lemma ErrorPrecedence(msg: string)
    ensures DecodeFailure(Exc(InvalidSignatureError, msg)) == Failed(DecodeDetail)
    ensures DecodeFailure(Exc(ExpiredSignatureError, msg)) == Failed(ExpiredDetail)
    ensures DecodeFailure(Exc(InvalidAudienceError, msg)) == Failed("Invalid token: " + msg)
    ensures DecodeFailure(Exc(InvalidKeyError, msg)) == Raised(Exc(InvalidKeyError, msg))
    ensures DecodeFailure(Exc(AttributeError, msg)) == Raised(Exc(AttributeError, msg))
  {
  }

  /** A missing public key is reported with the name of its setting. */
  lemma MissingKeyMessage(name: string)
    ensures DecodeFailure(MissingPublicKey(name)) == Failed("Invalid token: Missing public key setting: " + name)
  {
    assert "Invalid token: " + ("Missing public key setting: " + name)
        == "Invalid token: Missing public key setting: " + name;
  }

  /** `JWTAuthentication.authenticate`. */
  function Authenticate(cfg: Config, lib: JwtLibrary, store: AccountStore, header: string): (r: AuthOutcome)
    ensures GetJwtValue(cfg, header) == NoCredentials <==> r == NotAttempted
    ensures GetJwtValue(cfg, header).BadHeader? ==> r == Failed(GetJwtValue(cfg, header).detail)
    ensures r.Authenticated? ==>
      && GetJwtValue(cfg, header).Credential?
      && DecodeJwtToken(cfg, lib, GetJwtValue(cfg, header).jwtValue) == Success(r.token)
      && AuthenticateCredentials(cfg, store, r.token) == Success(r.user)
    ensures r.Raised? ==> !IsA(r.exc.cls, InvalidTokenError)
    ensures GetJwtValue(cfg, header).Credential? ==>
      var decoded := DecodeJwtToken(cfg, lib, GetJwtValue(cfg, header).jwtValue);
      && (decoded.Failure? ==> r == DecodeFailure(decoded.error))
      && (decoded.Success? ==>
            var resolved := AuthenticateCredentials(cfg, store, decoded.value);
            && (resolved.Success? ==> r == Authenticated(resolved.value, decoded.value))
            && (resolved.Failure? ==> r == Failed(resolved.error)))
  {
    match GetJwtValue(cfg, header)
    case NoCredentials => NotAttempted
    case BadHeader(detail) => Failed(detail)
    case Credential(jwtValue) =>
      match DecodeJwtToken(cfg, lib, jwtValue)
      case Failure(e) => DecodeFailure(e)
      case Success(payload) =>
        match AuthenticateCredentials(cfg, store, payload)
        case Failure(detail) => Failed(detail)
        case Success(user) => Authenticated(user, payload)
  }

  /** An expired token is reported as such, whatever else is wrong with it:
      the library raises `ExpiredSignatureError` and authentication fails
      with `Token has expired`. */
  lemma ExpiredTokenIsReported(cfg: Config, lib: JwtLibrary, store: AccountStore, header: string, msg: string)
    requires GetJwtValue(cfg, header).Credential?
    requires DecodeJwtToken(cfg, lib, GetJwtValue(cfg, header).jwtValue) == Failure(Exc(ExpiredSignatureError, msg))
    ensures Authenticate(cfg, lib, store, header) == Failed(ExpiredDetail)
  {
  }

  /** A valid bearer token whose payload resolves authenticates: the header
      `<prefix> <token>` whose token the library accepts yields the resolved
      principal together with the decoded payload. */
  lemma ValidTokenAuthenticates(
    cfg: Config, lib: JwtLibrary, store: AccountStore, jwtValue: string, payload: Payload, user: Principal)
    requires Text.IsWord(Text.BytesWhitespace, HeaderPrefix(cfg))
    requires Text.IsWord(Text.BytesWhitespace, jwtValue)
    requires DecodeJwtToken(cfg, lib, jwtValue) == Success(payload)
    requires AuthenticateCredentials(cfg, store, payload) == Success(user)
    ensures Authenticate(cfg, lib, store, HeaderPrefix(cfg) + " " + jwtValue) == Authenticated(user, payload)
  {
    BearerHeaderYieldsToken(cfg, jwtValue);
  }
}
