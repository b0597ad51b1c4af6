/**
 * Issuing and accepting, side by side: a payload built by the token
 * generator, once the library hands it back verified, authenticates as the
 * principal it was issued for and carries exactly the scopes it was issued
 * with. Whether the library hands it back at all is the library's decision:
 * one that refuses an `aud` claim it was not told to expect never accepts a
 * token issued with a client id.
 */
module Consistency {
  import opened Wrappers
  import Text
  import opened Claims
  import opened Settings
  import JwtAuth
  import TokenGenerator

  /** A token issued without an authenticated user (client credentials, or no
      request at all) authenticates as the anonymous principal. */
  lemma ClientCredentialsTokenIsAnonymous(
    cfg: Config, store: JwtAuth.AccountStore, now: real, jti: string, request: Option<TokenGenerator.OAuthRequest>)
    requires request.Some? ==> request.value.user.None? || !request.value.user.value.isAuthenticated
    ensures JwtAuth.AuthenticateCredentials(cfg, store, TokenGenerator.IssuedPayload(cfg, now, jti, request))
         == Success(JwtAuth.Anonymous)
  {
    var p := TokenGenerator.IssuedPayload(cfg, now, jti, request);
    if request.Some? {
      TokenGenerator.ClientCredentialsClaims(cfg, now, jti, request.value);
    } else {
      TokenGenerator.PayloadWithoutRequest(cfg, now, jti);
    }
    assert "username" !in p;
  }

  /** The account-store key a token issued for `u` is looked up under. */
  function IssuedUserKey(u: TokenGenerator.User): (Claim, Claim) {
    (Str(Text.IntToString(u.id)), Str(u.username))
  }

  /** A token issued for an authenticated user with a username resolves to
      the account stored under that user's id and name, or fails with the
      account-store error. */
  lemma UserTokenResolvesToAccount(
    cfg: Config, store: JwtAuth.AccountStore, now: real, jti: string, r: TokenGenerator.OAuthRequest)
    requires !cfg.authDisabled
    requires r.user.Some? && r.user.value.isAuthenticated && r.user.value.username != ""
    ensures var outcome := JwtAuth.AuthenticateCredentials(cfg, store, TokenGenerator.IssuedPayload(cfg, now, jti, Some(r)));
      var key := IssuedUserKey(r.user.value);
      && (key in store && store[key].isActive ==> outcome == Success(JwtAuth.Known(store[key])))
      && (key !in store ==> outcome == Failure(JwtAuth.UserNotFound))
      && (key in store && !store[key].isActive ==> outcome == Failure(JwtAuth.AccountDisabled))
  {
    var p := TokenGenerator.IssuedPayload(cfg, now, jti, Some(r));
    TokenGenerator.UserClaims(cfg, now, jti, r);
    var sub := Text.IntToString(r.user.value.id);
    assert sub != [];
    assert JwtAuth.IsUserBound(p);
    assert JwtAuth.UserKey(p) == IssuedUserKey(r.user.value);
  }

  /** The issued scope claim grants exactly the request's scopes: a later
      non-empty scope check passes iff every scope it asks for was issued. */
  lemma IssuedScopesAuthorize(
    cfg: Config, now: real, jti: string, r: TokenGenerator.OAuthRequest, required: seq<string>)
    requires forall i | 0 <= i < |r.scopes| :: Text.IsWord(Text.StrWhitespace, r.scopes[i])
    requires required != []
    ensures JwtAuth.IsValid(TokenGenerator.IssuedPayload(cfg, now, jti, Some(r)), Some(required))
        <==> forall s | s in required :: s in r.scopes
  {
    var p := TokenGenerator.IssuedPayload(cfg, now, jti, Some(r));
    TokenGenerator.ScopeClaimRoundTrip(cfg, now, jti, r);
    JwtAuth.AllowScopesIffEveryScopeIsListed(p, required);
  }

  /** The verifier picks the key named after the issuer the generator wrote
      into the token: the public-key setting of the deployment issuer. */
  lemma VerifierSelectsSigningIssuerKey(
    cfg: Config, lib: JwtAuth.JwtLibrary, now: real, jti: string, request: Option<TokenGenerator.OAuthRequest>,
    jwtValue: string)
    requires lib.readUnverified(jwtValue) == Success(TokenGenerator.IssuedPayload(cfg, now, jti, request))
    ensures var name := PublicKeyName(cfg.issuer);
      && (KeySetting(cfg, name).None? ==> JwtAuth.DecodeJwtToken(cfg, lib, jwtValue) == Failure(JwtAuth.MissingPublicKey(name)))
      && (KeySetting(cfg, name).Some? ==>
            JwtAuth.DecodeJwtToken(cfg, lib, jwtValue) == lib.verify(jwtValue, KeySetting(cfg, name).value, JwsAlgorithms(cfg)))
  {
    TokenGenerator.RegisteredClaims(cfg, now, jti, request);
  }

  /** End to end: a client-credentials token, presented as `<prefix> <token>`
      and accepted by the library's check under the deployment issuer's public
      key (which `AudienceClaimBlocksClientToken` shows an audience-checking
      library does not do once a client id is issued), authenticates as the anonymous principal with the issued payload,
      and that payload passes a scope check exactly for the issued scopes. */
  lemma IssueThenAuthenticate(
    cfg: Config, lib: JwtAuth.JwtLibrary, store: JwtAuth.AccountStore,
    now: real, jti: string, r: TokenGenerator.OAuthRequest, jwtValue: string, required: seq<string>)
    requires r.user.None? || !r.user.value.isAuthenticated
    requires forall i | 0 <= i < |r.scopes| :: Text.IsWord(Text.StrWhitespace, r.scopes[i])
    requires Text.IsWord(Text.BytesWhitespace, HeaderPrefix(cfg))
    requires Text.IsWord(Text.BytesWhitespace, jwtValue)
    requires KeySetting(cfg, PublicKeyName(cfg.issuer)).Some?
    requires lib.readUnverified(jwtValue) == Success(TokenGenerator.IssuedPayload(cfg, now, jti, Some(r)))
    requires lib.verify(jwtValue, KeySetting(cfg, PublicKeyName(cfg.issuer)).value, JwsAlgorithms(cfg))
          == Success(TokenGenerator.IssuedPayload(cfg, now, jti, Some(r)))
    requires required != []
    ensures var p := TokenGenerator.IssuedPayload(cfg, now, jti, Some(r));
      JwtAuth.Authenticate(cfg, lib, store, HeaderPrefix(cfg) + " " + jwtValue)
        == JwtAuth.Authenticated(JwtAuth.Anonymous, p)
    ensures JwtAuth.IsValid(TokenGenerator.IssuedPayload(cfg, now, jti, Some(r)), Some(required))
        <==> forall s | s in required :: s in r.scopes
  {
    JwtAuth.BearerHeaderYieldsToken(cfg, jwtValue);
    VerifierSelectsSigningIssuerKey(cfg, lib, now, jti, Some(r), jwtValue);
    ClientCredentialsTokenIsAnonymous(cfg, store, now, jti, Some(r));
    IssuedScopesAuthorize(cfg, now, jti, r, required);
  }

  /** The library checks `aud` whenever the payload carries one and no
      expected audience is passed, as `decode_jwt_token` never passes one: it
      then never accepts such a payload. */
  ghost predicate RejectsUnexpectedAudience(lib: JwtAuth.JwtLibrary) {
    forall jwtValue, key, algorithms ::
      lib.verify(jwtValue, key, algorithms).Success? ==> "aud" !in lib.verify(jwtValue, key, algorithms).value
  }

  /** With such a library a token issued with a client id never
      authenticates with its issued payload, whatever header carries it. */
  lemma AudienceClaimBlocksClientToken(
    cfg: Config, lib: JwtAuth.JwtLibrary, store: JwtAuth.AccountStore,
    now: real, jti: string, r: TokenGenerator.OAuthRequest, header: string)
    requires RejectsUnexpectedAudience(lib)
    requires TokenGenerator.ClientIdOf(r) != ""
    ensures var outcome := JwtAuth.Authenticate(cfg, lib, store, header);
      !(outcome.Authenticated? && outcome.token == TokenGenerator.IssuedPayload(cfg, now, jti, Some(r)))
  {
    var p := TokenGenerator.IssuedPayload(cfg, now, jti, Some(r));
    TokenGenerator.ClientIdClaims(cfg, now, jti, r);
    assert "aud" in p;
    var outcome := JwtAuth.Authenticate(cfg, lib, store, header);
    if outcome.Authenticated? && outcome.token == p {
      assert false;
    }
  }
}
