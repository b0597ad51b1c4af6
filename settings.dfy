/**
 * The deployment settings the engine reads, and the rule that turns an issuer
 * name into the name of the setting that holds its key.
 */
module Settings {
  import opened Wrappers
  import Text

  /** The settings object. Text settings, among them every key, are looked up
      by attribute name, so that key names derived at run time can be absent. */
  datatype Config = Config(
    issuer: string,                           // JWT_ISSUER
    text: map<string, string>,                // text settings by name: keys, header prefix, signing algorithm
    jwsAlgorithms: Option<seq<string>>,       // JWT_JWS_ALGORITHMS
    authDisabled: bool,                       // truth value of JWT_AUTH_DISABLED, default False
    accessTokenExpireSeconds: Option<int>)    // OAUTH2_PROVIDER['ACCESS_TOKEN_EXPIRE_SECONDS']

  /** `getattr(settings, name, default)` for a text setting. */
  function TextSetting(cfg: Config, name: string, default: string): string {
    if name in cfg.text then cfg.text[name] else default
  }

  /** `getattr(settings, name, None)` followed by the callers' `if not key`
      test: a key that is absent or empty is missing. */
  function KeySetting(cfg: Config, name: string): (key: Option<string>)
    ensures key.Some? <==> name in cfg.text && cfg.text[name] != ""
    ensures key.Some? ==> key.value != "" && key.value == cfg.text[name]
  {
    if name in cfg.text && cfg.text[name] != "" then Some(cfg.text[name]) else None
  }

  function HeaderPrefix(cfg: Config): string {
    TextSetting(cfg, "JWT_AUTH_HEADER_PREFIX", "Bearer")
  }

  function JwsAlgorithms(cfg: Config): seq<string> {
    if cfg.jwsAlgorithms.Some? then cfg.jwsAlgorithms.value else ["RS256"]
  }

  function EncAlgorithm(cfg: Config): string {
    TextSetting(cfg, "JWT_ENC_ALGORITHM", "RS256")
  }

  function ExpiresIn(cfg: Config): int {
    if cfg.accessTokenExpireSeconds.Some? then cfg.accessTokenExpireSeconds.value else 3600
  }

  /** `issuer.upper().replace('-', '_')`: letters upper-cased, every '-'
      turned into '_', every other character kept where it was. */
  function NormaliseIssuer(issuer: string): (r: string)
    ensures |r| == |issuer|
    ensures forall i | 0 <= i < |r| :: r[i] != '-' && !('a' <= r[i] <= 'z')
    ensures forall i | 0 <= i < |r| :: issuer[i] == '-' ==> r[i] == '_'
    ensures forall i | 0 <= i < |r| :: issuer[i] != '-' ==> r[i] == Text.UpperChar(issuer[i])
  {
    Text.ReplaceChar(Text.Upper(issuer), '-', '_')
  }

  /** The setting holding an issuer's verification key: the fixed prefix
      followed by the normalised issuer. */
  function PublicKeyName(issuer: string): (name: string)
    ensures |name| == |"JWT_PUBLIC_KEY_"| + |issuer|
    ensures name[..|"JWT_PUBLIC_KEY_"|] == "JWT_PUBLIC_KEY_"
    ensures name[|"JWT_PUBLIC_KEY_"|..] == NormaliseIssuer(issuer)
  {
    "JWT_PUBLIC_KEY_" + NormaliseIssuer(issuer)
  }

  /** The setting holding an issuer's signing key: the fixed prefix followed
      by the normalised issuer. */
  function PrivateKeyName(issuer: string): (name: string)
    ensures |name| == |"JWT_PRIVATE_KEY_"| + |issuer|
    ensures name[..|"JWT_PRIVATE_KEY_"|] == "JWT_PRIVATE_KEY_"
    ensures name[|"JWT_PRIVATE_KEY_"|..] == NormaliseIssuer(issuer)
  {
    "JWT_PRIVATE_KEY_" + NormaliseIssuer(issuer)
  }

  /** Normalising twice changes nothing: a name already in setting form
      selects its own key. */
  lemma NormaliseIdempotent(issuer: string)
    ensures NormaliseIssuer(NormaliseIssuer(issuer)) == NormaliseIssuer(issuer)
  {
    var once := NormaliseIssuer(issuer);
    var twice := NormaliseIssuer(once);
    forall i | 0 <= i < |once|
      ensures twice[i] == once[i]
    {
      assert once[i] != '-';
      assert twice[i] == Text.UpperChar(once[i]);
    }
  }

  /** How one character of an issuer appears in a setting name. */
  function SettingChar(c: char): char {
    if c == '-' then '_' else Text.UpperChar(c)
  }

  /** Two issuers share a key setting exactly when they agree character by
      character up to ASCII case and up to writing '-' for '_'. */
  lemma SameKeyNameIffSameUpToCaseAndDash(a: string, b: string)
    ensures PublicKeyName(a) == PublicKeyName(b) <==>
      |a| == |b| && forall i | 0 <= i < |a| :: SettingChar(a[i]) == SettingChar(b[i])
  {
    var na, nb := NormaliseIssuer(a), NormaliseIssuer(b);
    var p := "JWT_PUBLIC_KEY_";
    if PublicKeyName(a) == PublicKeyName(b) {
      assert na == (p + na)[|p|..];
      assert nb == (p + nb)[|p|..];
      forall i | 0 <= i < |a|
        ensures SettingChar(a[i]) == SettingChar(b[i])
      {
        assert na[i] == SettingChar(a[i]);
      }
    }
    if |a| == |b| && forall i | 0 <= i < |a| :: SettingChar(a[i]) == SettingChar(b[i]) {
      assert forall i | 0 <= i < |a| :: na[i] == SettingChar(a[i]) && nb[i] == SettingChar(b[i]);
      assert na == nb;
    }
  }

  /** Only '-' is rewritten: other punctuation survives into the setting name. */
  lemma OnlyDashIsReplaced()
    ensures NormaliseIssuer("my-issuer") == "MY_ISSUER"
    ensures NormaliseIssuer("My_Issuer") == "MY_ISSUER"
    ensures NormaliseIssuer("my.issuer") == "MY.ISSUER"
  {
  }
}
