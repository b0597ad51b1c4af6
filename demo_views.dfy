/**
 * The scope logic of the demonstration endpoints: the access tier picked by
 * the manual scope check, the scope flags of the token-information endpoint,
 * and the scopes each protected endpoint requires.
 */
module DemoViews {
  import opened Wrappers
  import Text
  import opened Claims
  import JwtAuth

  // ---------------------------------------------------------------------------
  // Manual scope check: tiers
  // ---------------------------------------------------------------------------

  datatype Level = Basic | Read | Write | Admin

  function Rank(l: Level): nat {
    match l
    case Basic => 0
    case Read => 1
    case Write => 2
    case Admin => 3
  }

  /** The scope that names a tier; `Basic` is named by none. */
  function LevelName(l: Level): string {
    match l
    case Basic => "basic"
    case Read => "read"
    case Write => "write"
    case Admin => "admin"
  }

  /** The tier a single scope token grants on its own. */
  function TierOf(scope: string): Level {
    if scope == "admin" then Admin
    else if scope == "write" then Write
    else if scope == "read" then Read
    else Basic
  }

  /** `l` is the highest tier any of the scopes grants. */
  ghost predicate IsLevelFor(l: Level, scopes: set<string>) {
    && (forall s | s in scopes :: Rank(TierOf(s)) <= Rank(l))
    && (l == Basic || LevelName(l) in scopes)
  }

  /** The keys of the `data` object shown at each tier: every tier sees what
      the tiers below it see and one key more. */
  function DataKeys(l: Level): set<string> {
    {"public"}
    + (if Rank(l) >= 1 then {"internal"} else {})
    + (if Rank(l) >= 2 then {"sensitive"} else {})
    + (if Rank(l) >= 3 then {"secrets"} else {})
  }

  /** The token carries a numeric `scope` claim, which has no `split`. */
  predicate NumericScope(auth: Option<Payload>) {
    auth.Some? && "scope" in auth.value && auth.value["scope"].Num?
  }

  /** `set(token_scope.split())`, with `''` standing for a missing token or
      a missing scope claim. */
  function GrantedScopes(auth: Option<Payload>): set<string> {
    var tokenScope := if auth.Some? && auth.value != map[] then ScopeText(auth.value) else "";
    set w | w in Text.Split(Text.StrWhitespace, tokenScope)
  }

  datatype ScopeCheckResponse = ScopeCheckResponse(
    message: string,
    yourScopes: set<string>,
    accessLevel: Level,
    data: set<string>)

  /** `split` called on a numeric scope claim. */
  const NoSplit := JwtAuth.Exc(JwtAuth.AttributeError, "'int' object has no attribute 'split'")

  /** `demo_manual_scope_check`: the response lists the scopes, the highest
      tier they grant, and the data keys of that tier; a numeric scope claim
      makes the view raise. */
  method ManualScopeCheck(auth: Option<Payload>) returns (r: Result<ScopeCheckResponse, JwtAuth.Exc>)
    ensures r.Failure? <==> NumericScope(auth)
    ensures r.Failure? ==> r.error == NoSplit
    ensures r.Success? ==>
      && r.value.message == "Scope-based data access"
      && r.value.yourScopes == GrantedScopes(auth)
      && IsLevelFor(r.value.accessLevel, r.value.yourScopes)
      && r.value.data == DataKeys(r.value.accessLevel)
  {
    if NumericScope(auth) {
      return Failure(NoSplit);
    }
    var tokenScope := if auth.Some? && auth.value != map[] then ScopeText(auth.value) else "";
    var scopes := set w | w in Text.Split(Text.StrWhitespace, tokenScope);

    var response := ScopeCheckResponse("Scope-based data access", scopes, Basic, {});

    if "admin" in scopes {
      response := response.(accessLevel := Admin);
      response := response.(data := {"public", "internal", "sensitive", "secrets"});
    } else if "write" in scopes {
      response := response.(accessLevel := Write);
      response := response.(data := {"public", "internal", "sensitive"});
    } else if "read" in scopes {
      response := response.(accessLevel := Read);
      response := response.(data := {"public", "internal"});
    } else {
      response := response.(accessLevel := Basic);
      response := response.(data := {"public"});
    }
    r := Success(response);
  }

  /** At most one tier fits a scope set. */
  lemma LevelUnique(a: Level, b: Level, scopes: set<string>)
    requires IsLevelFor(a, scopes) && IsLevelFor(b, scopes)
    ensures a == b
  {
    if a != Basic {
      assert Rank(TierOf(LevelName(a))) <= Rank(b);
    }
    if b != Basic {
      assert Rank(TierOf(LevelName(b))) <= Rank(a);
    }
  }

  /** Some tier fits every scope set: the first of admin, write, read that
      is granted, or basic. With `LevelUnique`, exactly one tier fits. */
  lemma LevelExists(scopes: set<string>)
    ensures exists l :: IsLevelFor(l, scopes)
  {
    var l := if "admin" in scopes then Admin
      else if "write" in scopes then Write
      else if "read" in scopes then Read
      else Basic;
    forall s | s in scopes
      ensures Rank(TierOf(s)) <= Rank(l)
    {
    }
    assert IsLevelFor(l, scopes);
  }

  /** The tiers in priority order: `admin` wins whatever else is present;
      `write` exactly when write is present and admin is not; `read` exactly
      when read is the only tier scope; `basic` otherwise. */
  lemma LevelPriority(l: Level, scopes: set<string>)
    requires IsLevelFor(l, scopes)
    ensures l == Admin <==> "admin" in scopes
    ensures l == Write <==> "write" in scopes && "admin" !in scopes
    ensures l == Read <==> "read" in scopes && "write" !in scopes && "admin" !in scopes
    ensures l == Basic <==> "read" !in scopes && "write" !in scopes && "admin" !in scopes
  {
    if "admin" in scopes {
      assert Rank(TierOf("admin")) <= Rank(l);
    }
    if "write" in scopes {
      assert Rank(TierOf("write")) <= Rank(l);
    }
    if "read" in scopes {
      assert Rank(TierOf("read")) <= Rank(l);
    }
  }

  /** A higher tier sees strictly more data keys. */
  lemma DataKeysMonotone(a: Level, b: Level)
    ensures Rank(a) <= Rank(b) <==> DataKeys(a) <= DataKeys(b)
    ensures Rank(a) < Rank(b) <==> DataKeys(a) < DataKeys(b)
  {
    if Rank(a) > Rank(b) {
      var extra := if Rank(a) == 1 then "internal" else if Rank(a) == 2 then "sensitive" else "secrets";
      assert extra in DataKeys(a) && extra !in DataKeys(b);
    }
  }

  /** A missing token, an empty one and one without a scope claim all get
      the basic tier with no scopes. */
  lemma NoScopeIsBasic(auth: Option<Payload>)
    requires auth.None? || "scope" !in auth.value
    ensures GrantedScopes(auth) == {}
    ensures IsLevelFor(Basic, GrantedScopes(auth))
  {
  }

  // ---------------------------------------------------------------------------
  // Token information: scope flags
  // ---------------------------------------------------------------------------

  datatype ScopeDetails = ScopeDetails(
    rawScope: Claim,
    parsedScopes: seq<string>,
    hasRead: bool,
    hasWrite: bool,
    hasAdmin: bool)

  const NoTokenDetail := "No authentication token found"
  /** `in` applied to a numeric scope claim. */
  const NotIterable := JwtAuth.Exc(JwtAuth.TypeError, "argument of type 'int' is not iterable")

  /** What `demo_token_info` gives instead of the details: the 401 response,
      or an exception it raises. */
  datatype InfoRefusal = Unauthorized(detail: string) | Raised(exc: JwtAuth.Exc)

  /** The `scope_details` of `demo_token_info`. The flags are substring tests
      on the raw claim, the parsed scopes its whitespace split. A numeric
      scope claim makes the endpoint raise. */
  function TokenInfo(auth: Option<Payload>): (r: Result<ScopeDetails, InfoRefusal>)
    ensures auth.None? || auth.value == map[] <==> r == Failure(Unauthorized(NoTokenDetail))
    ensures r.Failure? <==> auth.None? || auth.value == map[] || NumericScope(auth)
    ensures NumericScope(auth) && auth.value != map[] ==>
      r == Failure(Raised(if auth.value["scope"].value != 0 then NoSplit else NotIterable))
    ensures r.Success? ==> r.value.rawScope == (if "scope" in auth.value then auth.value["scope"] else Str(""))
    ensures r.Success? ==> r.value.rawScope.Str?
    ensures r.Success? ==> var raw := r.value.rawScope.text;
      && r.value.parsedScopes == Text.Split(Text.StrWhitespace, raw)
      && (r.value.hasRead <==> exists i :: Text.OccursAt(raw, "read", i))
      && (r.value.hasWrite <==> exists i :: Text.OccursAt(raw, "write", i))
      && (r.value.hasAdmin <==> exists i :: Text.OccursAt(raw, "admin", i))
  {
    if auth.None? || auth.value == map[] then Failure(Unauthorized(NoTokenDetail))
    else
      var tokenData := auth.value;
      var rawScope := if "scope" in tokenData then tokenData["scope"] else Str("");
      if rawScope.Num? then
        Failure(Raised(if rawScope.value != 0 then NoSplit else NotIterable))
      else
        var parsed := if Truthy(Get(tokenData, "scope")) then Text.Split(Text.StrWhitespace, rawScope.text) else [];
        Success(ScopeDetails(
          rawScope,
          parsed,
          Text.Contains(rawScope.text, "read"),
          Text.Contains(rawScope.text, "write"),
          Text.Contains(rawScope.text, "admin")))
  }

  /** Every flag is set when its scope is among the parsed scopes. */
  lemma ParsedScopeSetsFlag(auth: Option<Payload>)
    requires TokenInfo(auth).Success?
    ensures var d := TokenInfo(auth).value;
      && ("read" in d.parsedScopes ==> d.hasRead)
      && ("write" in d.parsedScopes ==> d.hasWrite)
      && ("admin" in d.parsedScopes ==> d.hasAdmin)
  {
    var d := TokenInfo(auth).value;
    var raw := d.rawScope.text;
    if "read" in d.parsedScopes {
      Text.WordIsSubstring(Text.StrWhitespace, raw, "read");
    }
    if "write" in d.parsedScopes {
      Text.WordIsSubstring(Text.StrWhitespace, raw, "write");
    }
    if "admin" in d.parsedScopes {
      Text.WordIsSubstring(Text.StrWhitespace, raw, "admin");
    }
  }

  /** The converse fails: a `readonly` scope sets `has_read` although `read`
      is not one of the parsed scopes. */
  lemma FlagWithoutParsedScope()
    ensures TokenInfo(Some(map["scope" := Str("readonly")])).Success?
    ensures var d := TokenInfo(Some(map["scope" := Str("readonly")])).value;
      && d.parsedScopes == ["readonly"]
      && d.hasRead
      && "read" !in d.parsedScopes
  {
    var auth := Some(map["scope" := Str("readonly")]);
    assert "scope" in auth.value;
    assert Text.OccursAt("readonly", "read", 0);
    Text.SplitOneWord(Text.StrWhitespace, "readonly");
  }

  /** The manual check and the token information agree on tier scopes: a tier
      granted by the manual check has its flag set. */
  lemma LevelImpliesFlag(p: Payload, l: Level)
    requires p != map[] && ("scope" !in p || p["scope"].Str?)
    requires IsLevelFor(l, GrantedScopes(Some(p)))
    ensures TokenInfo(Some(p)).Success?
    ensures l == Admin ==> TokenInfo(Some(p)).value.hasAdmin
    ensures l == Write ==> TokenInfo(Some(p)).value.hasWrite
    ensures l == Read ==> TokenInfo(Some(p)).value.hasRead
  {
    var raw := ScopeText(p);
    if l != Basic {
      Text.WordIsSubstring(Text.StrWhitespace, raw, LevelName(l));
    }
  }

  // ---------------------------------------------------------------------------
  // Scopes the protected endpoints require
  // ---------------------------------------------------------------------------

  datatype Endpoint = ReadScope | WriteScope | AdminScope | MultipleScopes

  /** The tier a single-scope endpoint is named after. */
  function LevelOfEndpoint(e: Endpoint): Level {
    match e
    case ReadScope => Read
    case WriteScope => Write
    case AdminScope => Admin
    case MultipleScopes => Write
  }

  /** The `required_scopes` set on each endpoint. */
  function RequiredScopes(e: Endpoint): (scopes: seq<string>)
    ensures scopes != []
    ensures forall i | 0 <= i < |scopes| :: Text.IsWord(Text.StrWhitespace, scopes[i]) && TierOf(scopes[i]) != Basic
    ensures e == MultipleScopes <==> |scopes| > 1
    ensures e != MultipleScopes ==> scopes == [LevelName(LevelOfEndpoint(e))]
  {
    match e
    case ReadScope => ["read"]
    case WriteScope => ["write"]
    case AdminScope => ["admin"]
    case MultipleScopes => ["read", "write"]
  }

  /** A token passes an endpoint's scope check iff every required scope is
      one of its scope tokens. */
  lemma EndpointAdmits(e: Endpoint, token: Payload)
    ensures JwtAuth.IsValid(token, Some(RequiredScopes(e))) <==>
      forall s | s in RequiredScopes(e) :: s in ScopeWords(token)
  {
    JwtAuth.AllowScopesIffEveryScopeIsListed(token, RequiredScopes(e));
  }

  /** The multi-scope endpoint asks for both scopes: a token passes it iff
      it passes both the read and the write endpoint. */
  lemma MultipleScopesIsConjunction(token: Payload)
    ensures JwtAuth.IsValid(token, Some(RequiredScopes(MultipleScopes))) <==>
      JwtAuth.IsValid(token, Some(RequiredScopes(ReadScope))) &&
      JwtAuth.IsValid(token, Some(RequiredScopes(WriteScope)))
  {
    EndpointAdmits(MultipleScopes, token);
    EndpointAdmits(ReadScope, token);
    EndpointAdmits(WriteScope, token);
  }

  /** A token that reaches the write endpoint reaches at least the write tier
      of the manual check; one that reaches the admin endpoint, the admin tier. */
  lemma EndpointAndTier(token: Payload, l: Level)
    requires IsLevelFor(l, GrantedScopes(Some(token)))
    ensures JwtAuth.IsValid(token, Some(RequiredScopes(WriteScope))) ==> Rank(l) >= Rank(Write)
    ensures JwtAuth.IsValid(token, Some(RequiredScopes(AdminScope))) <==> l == Admin
    ensures JwtAuth.IsValid(token, Some(RequiredScopes(ReadScope))) ==> l != Basic
  {
    EndpointAdmits(WriteScope, token);
    EndpointAdmits(AdminScope, token);
    EndpointAdmits(ReadScope, token);
    LevelPriority(l, GrantedScopes(Some(token)));
  }
}
