/**
 * The payload of an access token: a mapping from claim name to JSON value, as
 * the issuer builds it and as the verifier hands it back. Only the two kinds of
 * value the engine puts into a token, text and integers, are represented.
 */
module Claims {
  import opened Wrappers
  import Text

  datatype Claim = Str(text: string) | Num(value: int)

  type Payload = map<string, Claim>

  /** `payload.get(name)`. */
  function Get(p: Payload, name: string): Option<Claim> {
    if name in p then Some(p[name]) else None
  }

  /** Python's truth value of `payload.get(name)`: `None`, `''` and `0` are false. */
  predicate Truthy(c: Option<Claim>) {
    match c
    case None => false
    case Some(Str(t)) => t != ""
    case Some(Num(v)) => v != 0
  }

  /** `payload.get('scope', '')` for a text scope claim. */
  function ScopeText(p: Payload): string {
    if "scope" in p && p["scope"].Str? then p["scope"].text else ""
  }

  /** `scope.split()`: the scope tokens of a payload, in order, repeats kept. */
  function ScopeWords(p: Payload): seq<string> {
    Text.Split(Text.StrWhitespace, ScopeText(p))
  }
}
