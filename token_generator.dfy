/**
 * Issuing access tokens: the claim set built from an optional OAuth2 request
 * (registered claims of section 4.1 of RFC 7519 plus the OAuth2 ones), the
 * name of the signing-key setting derived from the issuer, and the refusal to
 * sign without that key. Signing is a parameter; the clock and the unique
 * token identifier are inputs.
 */
module TokenGenerator {
  import opened Wrappers
  import Text
  import opened Claims
  import opened Settings

  datatype Client = Client(clientId: string)

  /** The user on the request; `email` is `''` for a user without one. */
  datatype User = User(id: int, username: string, email: string, isAuthenticated: bool)

  /** The OAuth2 request handed to the generator. An attribute the request
      lacks reads as its default: `clientId` as `''` (as `None` would),
      `client` as `None`, `scopes` as `[]`, `user` as `None`. */
  datatype OAuthRequest = OAuthRequest(
    clientId: string,
    client: Option<Client>,
    scopes: seq<string>,
    user: Option<User>)

  /** `int(t)` for a timestamp: truncation toward zero. */
  function Truncate(t: real): (n: int)
    ensures t >= 0.0 ==> n as real <= t < n as real + 1.0
    ensures t < 0.0 ==> n as real - 1.0 < t <= n as real
  {
    if t >= 0.0 then t.Floor else -((-t).Floor)
  }

  // ---------------------------------------------------------------------------
  // The claim set, described part by part
  // ---------------------------------------------------------------------------

  /** `request.client_id`, or `request.client.client_id` when that is empty. */
  function ClientIdOf(r: OAuthRequest): string {
    if r.clientId == "" && r.client.Some? then r.client.value.clientId else r.clientId
  }

  function StandardClaims(cfg: Config, now: real, jti: string): Payload {
    map[
      "iss" := Str(cfg.issuer),
      "exp" := Num(Truncate(now + ExpiresIn(cfg) as real)),
      "iat" := Num(Truncate(now)),
      "jti" := Str(jti)]
  }

  function ClientClaims(clientId: string): Payload {
    if clientId == "" then map[] else map["client_id" := Str(clientId), "aud" := Str(clientId)]
  }

  function ScopeClaims(scopes: seq<string>): Payload {
    if scopes == [] then map[] else map["scope" := Str(Text.Join(scopes))]
  }

  function SubjectClaims(user: Option<User>, clientId: string): Payload {
    if user.Some? && user.value.isAuthenticated then
      map["sub" := Str(Text.IntToString(user.value.id)), "username" := Str(user.value.username)]
      + (if user.value.email != "" then map["email" := Str(user.value.email)] else map[])
    else if clientId != "" then
      map["sub" := Str(clientId)]
    else
      map[]
  }

  /** The claims an OAuth2 request contributes. */
  function RequestClaims(r: OAuthRequest): Payload {
    var clientId := ClientIdOf(r);
    ClientClaims(clientId) + ScopeClaims(r.scopes) + SubjectClaims(r.user, clientId)
  }

  /** The claims of a token issued at `now` with identifier `jti`. */
  function IssuedPayload(cfg: Config, now: real, jti: string, request: Option<OAuthRequest>): Payload {
    StandardClaims(cfg, now, jti) + (if request.None? then map[] else RequestClaims(request.value))
  }

  function MissingPrivateKey(name: string): string {
    "Missing JWT private key setting: " + name
  }

  // ---------------------------------------------------------------------------
  // generate_token
  // ---------------------------------------------------------------------------

  /** `generate_token`: builds the payload, then signs it with the private
      key named after the deployment issuer, or fails with `ValueError` when
      that key is not configured. */
  method GenerateToken(
    cfg: Config, sign: (Payload, string, string) -> string,
    now: real, jti: string, request: Option<OAuthRequest>)
    returns (r: Result<string, string>)
    ensures var keyName := PrivateKeyName(cfg.issuer);
      && (r.Failure? <==> KeySetting(cfg, keyName).None?)
      && (r.Failure? ==> r.error == MissingPrivateKey(keyName))
      && (r.Success? ==>
            r.value == sign(IssuedPayload(cfg, now, jti, request), KeySetting(cfg, keyName).value, EncAlgorithm(cfg)))
  {
    var payload := BuildPayload(cfg, now, jti, request);

    var algorithm := EncAlgorithm(cfg);
    var privateKeyName := PrivateKeyName(cfg.issuer);
    var privateKey := KeySetting(cfg, privateKeyName);
    if privateKey.None? {
      return Failure(MissingPrivateKey(privateKeyName));
    }
    r := Success(sign(payload, privateKey.value, algorithm));
  }

  /** The first half of `generate_token`: the payload, built claim by claim
      by insertion, is the declarative claim set. */
  method BuildPayload(cfg: Config, now: real, jti: string, request: Option<OAuthRequest>)
    returns (payload: Payload)
    ensures payload == IssuedPayload(cfg, now, jti, request)
  {
    var expiresIn := ExpiresIn(cfg);
    payload := map[
      "iss" := Str(cfg.issuer),
      "exp" := Num(Truncate(now + expiresIn as real)),
      "iat" := Num(Truncate(now)),
      "jti" := Str(jti)];

    if request.Some? {
      var req := request.value;
      var clientId := req.clientId;
      if clientId == "" && req.client.Some? {
        clientId := req.client.value.clientId;
      }
      assert clientId == ClientIdOf(req);
      ghost var standard := payload;
      if clientId != "" {
        payload := payload["client_id" := Str(clientId)];
        payload := payload["aud" := Str(clientId)];
      }
      assert payload == standard + ClientClaims(clientId) by {
        ClientClaimsAdded(standard, clientId);
      }
      var scopes := req.scopes;
      if scopes != [] {
        payload := payload["scope" := Str(Text.Join(scopes))];
      }
      ghost var beforeUser := payload;
      assert beforeUser == standard + ClientClaims(clientId) + ScopeClaims(scopes);
      var user := req.user;
      if user.Some? && user.value.isAuthenticated {
        payload := payload["sub" := Str(Text.IntToString(user.value.id))];
        payload := payload["username" := Str(user.value.username)];
        if user.value.email != "" {
          payload := payload["email" := Str(user.value.email)];
        }
      } else if clientId != "" {
        payload := payload["sub" := Str(clientId)];
      }
      assert payload == beforeUser + SubjectClaims(user, clientId) by {
        SubjectClaimsAdded(beforeUser, user, clientId);
      }
      UnionAssoc(standard, ClientClaims(clientId), ScopeClaims(scopes), SubjectClaims(user, clientId));
    }
  }

  lemma ClientClaimsAdded(m: Payload, clientId: string)
    ensures (if clientId != "" then m["client_id" := Str(clientId)]["aud" := Str(clientId)] else m)
      == m + ClientClaims(clientId)
  {
  }

  lemma SubjectClaimsAdded(m: Payload, user: Option<User>, clientId: string)
    ensures (if user.Some? && user.value.isAuthenticated then
               var m' := m["sub" := Str(Text.IntToString(user.value.id))]["username" := Str(user.value.username)];
               if user.value.email != "" then m'["email" := Str(user.value.email)] else m'
             else if clientId != "" then m["sub" := Str(clientId)]
             else m)
      == m + SubjectClaims(user, clientId)
  {
  }

  lemma UnionAssoc(a: Payload, b: Payload, c: Payload, d: Payload)
    ensures a + b + c + d == a + (b + c + d)
  {
  }

  // ---------------------------------------------------------------------------
  // What an issued payload holds
  // ---------------------------------------------------------------------------

  /** Without a request the payload is exactly the four registered claims. */
  lemma PayloadWithoutRequest(cfg: Config, now: real, jti: string)
    ensures IssuedPayload(cfg, now, jti, None).Keys == {"iss", "exp", "iat", "jti"}
  {
  }

  /** The registered claims are always there, and none of the request's
      claims overwrites them. */
  lemma RegisteredClaims(cfg: Config, now: real, jti: string, request: Option<OAuthRequest>)
    ensures var p := IssuedPayload(cfg, now, jti, request);
      && {"iss", "exp", "iat", "jti"} <= p.Keys
      && p["iss"] == Str(cfg.issuer)
      && p["jti"] == Str(jti)
      && p["iat"] == Num(Truncate(now))
      && p["exp"] == Num(Truncate(now + ExpiresIn(cfg) as real))
  {
    var p := IssuedPayload(cfg, now, jti, request);
    var standard := StandardClaims(cfg, now, jti);
    if request.Some? {
      var rc := RequestClaims(request.value);
      RequestClaimNames(request.value);
      assert "iss" !in rc && "exp" !in rc && "iat" !in rc && "jti" !in rc;
      assert p == standard + rc;
    }
  }

  /** The request contributes only OAuth2 claims, never a registered one. */
  lemma RequestClaimNames(r: OAuthRequest)
    ensures RequestClaims(r).Keys <= {"client_id", "aud", "scope", "sub", "username", "email"}
  {
  }

  /** A claim that is not a registered one comes from the request. */
  lemma RequestClaimLookup(cfg: Config, now: real, jti: string, r: OAuthRequest, name: string)
    requires name !in {"iss", "exp", "iat", "jti"}
    ensures var p := IssuedPayload(cfg, now, jti, Some(r));
      && (name in p <==> name in RequestClaims(r))
      && (name in p ==> p[name] == RequestClaims(r)[name])
  {
  }

  /** An issued token carries the four registered claims and otherwise only
      OAuth2 claims. */
  lemma IssuedClaimNames(cfg: Config, now: real, jti: string, request: Option<OAuthRequest>)
    ensures var p := IssuedPayload(cfg, now, jti, request);
      && {"iss", "exp", "iat", "jti"} <= p.Keys
      && p.Keys <= {"iss", "exp", "iat", "jti", "client_id", "aud", "scope", "sub", "username", "email"}
  {
    if request.Some? {
      RequestClaimNames(request.value);
    }
  }

  /** `exp` and `iat` come from the same instant: for any instant after the
      epoch they are exactly the configured lifetime apart. */
  lemma ExpiryWindow(cfg: Config, now: real, jti: string, request: Option<OAuthRequest>)
    requires now >= 0.0 && ExpiresIn(cfg) >= 0
    ensures var p := IssuedPayload(cfg, now, jti, request);
      p["exp"].Num? && p["iat"].Num? && p["exp"].value - p["iat"].value == ExpiresIn(cfg)
  {
    RegisteredClaims(cfg, now, jti, request);
    var e := ExpiresIn(cfg);
    var iat := Truncate(now);
    var exp := Truncate(now + e as real);
    assert exp as real <= now + e as real < exp as real + 1.0;
    assert iat as real <= now < iat as real + 1.0;
    assert exp - e == iat;
  }

  /** The client-id claims of a request. */
  lemma ClientPart(r: OAuthRequest)
    ensures var rc := RequestClaims(r);
      var clientId := ClientIdOf(r);
      && ("client_id" in rc <==> clientId != "")
      && ("aud" in rc <==> clientId != "")
      && (clientId != "" ==> rc["client_id"] == Str(clientId) && rc["aud"] == Str(clientId))
  {
    var clientId := ClientIdOf(r);
    assert "client_id" !in ScopeClaims(r.scopes) && "client_id" !in SubjectClaims(r.user, clientId);
    assert "aud" !in ScopeClaims(r.scopes) && "aud" !in SubjectClaims(r.user, clientId);
  }

  /** The scope claim of a request. */
  lemma ScopePart(r: OAuthRequest)
    ensures var rc := RequestClaims(r);
      && ("scope" in rc <==> r.scopes != [])
      && (r.scopes != [] ==> rc["scope"] == Str(Text.Join(r.scopes)))
  {
    assert "scope" !in ClientClaims(ClientIdOf(r)) && "scope" !in SubjectClaims(r.user, ClientIdOf(r));
  }

  /** The client id is taken from the request, falling back to its client;
      when it is non-empty it is both `client_id` and `aud`, otherwise
      neither claim appears. */
  lemma ClientIdClaims(cfg: Config, now: real, jti: string, r: OAuthRequest)
    ensures var p := IssuedPayload(cfg, now, jti, Some(r));
      var expected := if r.clientId != "" then r.clientId
                      else if r.client.Some? then r.client.value.clientId
                      else "";
      && ("client_id" in p <==> expected != "")
      && ("aud" in p <==> expected != "")
      && (expected != "" ==> p["client_id"] == p["aud"] == Str(expected))
  {
    ClientPart(r);
    RequestClaimLookup(cfg, now, jti, r, "client_id");
    RequestClaimLookup(cfg, now, jti, r, "aud");
  }

  /** `scope` is issued exactly when the request has scopes. */
  lemma ScopeClaimPresence(cfg: Config, now: real, jti: string, r: OAuthRequest)
    ensures "scope" in IssuedPayload(cfg, now, jti, Some(r)) <==> r.scopes != []
  {
    ScopePart(r);
    RequestClaimLookup(cfg, now, jti, r, "scope");
  }

  /** `scope` is present iff the request has scopes, and splitting it gives
      the request's scopes back when each is a non-empty word. */
  lemma ScopeClaimRoundTrip(cfg: Config, now: real, jti: string, r: OAuthRequest)
    requires forall i | 0 <= i < |r.scopes| :: Text.IsWord(Text.StrWhitespace, r.scopes[i])
    ensures var p := IssuedPayload(cfg, now, jti, Some(r));
      && ("scope" in p <==> r.scopes != [])
      && ScopeWords(p) == r.scopes
  {
    var p := IssuedPayload(cfg, now, jti, Some(r));
    ScopePart(r);
    RequestClaimLookup(cfg, now, jti, r, "scope");
    if r.scopes != [] {
      assert ScopeText(p) == Text.Join(r.scopes);
      Text.SplitJoin(Text.StrWhitespace, r.scopes);
    } else {
      assert ScopeText(p) == "";
    }
  }

  /** A token issued for an authenticated user names the user: `sub` is the
      decimal id, `username` is set, `email` only when non-empty. */
  lemma UserClaims(cfg: Config, now: real, jti: string, r: OAuthRequest)
    requires r.user.Some? && r.user.value.isAuthenticated
    ensures var p := IssuedPayload(cfg, now, jti, Some(r));
      var u := r.user.value;
      && p["sub"] == Str(Text.IntToString(u.id))
      && p["username"] == Str(u.username)
      && ("email" in p <==> u.email != "")
      && ("email" in p ==> p["email"] == Str(u.email))
  {
    SubjectPart(r);
    RequestClaimLookup(cfg, now, jti, r, "sub");
    RequestClaimLookup(cfg, now, jti, r, "username");
    RequestClaimLookup(cfg, now, jti, r, "email");
  }

  /** The user claims of a request, which the other parts never set. */
  lemma SubjectPart(r: OAuthRequest)
    ensures var rc := RequestClaims(r);
      var sc := SubjectClaims(r.user, ClientIdOf(r));
      && ("sub" in rc <==> "sub" in sc) && ("sub" in sc ==> rc["sub"] == sc["sub"])
      && ("username" in rc <==> "username" in sc) && ("username" in sc ==> rc["username"] == sc["username"])
      && ("email" in rc <==> "email" in sc) && ("email" in sc ==> rc["email"] == sc["email"])
  {
    var clientId := ClientIdOf(r);
    assert "sub" !in ClientClaims(clientId) && "sub" !in ScopeClaims(r.scopes);
    assert "username" !in ClientClaims(clientId) && "username" !in ScopeClaims(r.scopes);
    assert "email" !in ClientClaims(clientId) && "email" !in ScopeClaims(r.scopes);
  }

  /** Without an authenticated user the client is the subject, and no
      `username` or `email` is issued. */
  lemma ClientCredentialsClaims(cfg: Config, now: real, jti: string, r: OAuthRequest)
    requires r.user.None? || !r.user.value.isAuthenticated
    ensures var p := IssuedPayload(cfg, now, jti, Some(r));
      && "username" !in p
      && "email" !in p
      && ("sub" in p <==> ClientIdOf(r) != "")
      && ("sub" in p ==> p["sub"] == Str(ClientIdOf(r)))
  {
    SubjectPart(r);
    RequestClaimLookup(cfg, now, jti, r, "sub");
    RequestClaimLookup(cfg, now, jti, r, "username");
    RequestClaimLookup(cfg, now, jti, r, "email");
  }

  /** The signing key and the verification key are named after the same
      normalised issuer. */
  lemma KeyNamesShareIssuer(issuer: string)
    ensures PrivateKeyName(issuer)[|"JWT_PRIVATE_KEY_"|..] == PublicKeyName(issuer)[|"JWT_PUBLIC_KEY_"|..]
    ensures PrivateKeyName(issuer) != PublicKeyName(issuer)
  {
    assert PrivateKeyName(issuer)[5] != PublicKeyName(issuer)[5];
  }
}
