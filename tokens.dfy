/** Session tokens as closed claim records (signatures are not modelled).
    `Sign` gives the claims `jsonwebtoken.sign` writes for a payload and the
    options used throughout the service; `GenerateAccessToken` and
    `GenerateRefreshToken` are the two builders of `TokenServices`. */
module Tokens {
  import opened Common
  import opened Strings

  const ISSUER := "auth_service"
  /** `expiresIn: "1h"`, in seconds. */
  const ACCESS_EXPIRES_IN := 60 * 60
  /** `expiresIn: "1y"`, in seconds: the duration parser behind jsonwebtoken
      counts a year as 365.25 days. */
  const REFRESH_EXPIRES_IN := 60 * 60 * 24 * 36525 / 100

  /** RS256 (asymmetric, private key) for access tokens, HS256 (shared secret)
      for refresh tokens. */
  datatype Scheme = RS256 | HS256

  /** The payload the service signs: subject, role and, for refresh tokens
      built by `GenerateRefreshToken`, the id of the stored record. */
  datatype Payload = Payload(sub: string, role: string, id: Option<nat>)

  /** A signed token's claims: the payload plus the registered claims
      `iss`, `iat`, `exp` and, when given, `jti`. */
  datatype Token = Token(scheme: Scheme, payload: Payload, iss: string,
                         iat: nat, exp: nat, jti: Option<string>)

  /** The process configuration the builders read; `None` is an unset variable. */
  datatype Config = Config(privateKey: Option<string>)

  /** The claims of `sign(payload, key, {algorithm, expiresIn, issuer, jwtid})`
      at clock time `nowMs`: `iat` is the clock in whole seconds and `exp`
      lies `expiresIn` seconds after it. */
  function Sign(scheme: Scheme, payload: Payload, nowMs: nat, expiresIn: nat, jti: Option<string>): (t: Token)
    ensures t.scheme == scheme && t.payload == payload && t.iss == ISSUER && t.jti == jti
    ensures t.iat * 1000 <= nowMs < t.iat * 1000 + 1000
    ensures t.exp == t.iat + expiresIn
  {
    Token(scheme, payload, ISSUER, nowMs / 1000, nowMs / 1000 + expiresIn, jti)
  }

  /** `!Config.PRIVATE_KEY`: the key is unset or empty. */
  predicate KeyMissing(config: Config) {
    config.privateKey == None || config.privateKey == Some("")
  }

  /** The error thrown when no private key is configured. */
  const MISSING_KEY_ERROR := HttpError(500, "Private key is not set in environment variables")

  function GenerateAccessToken(config: Config, payload: Payload, nowMs: nat): (r: Result<Token>)
    ensures r.Failure? <==> KeyMissing(config)
    ensures r.Failure? ==> r.error == MISSING_KEY_ERROR
  {
    if KeyMissing(config) then Failure(MISSING_KEY_ERROR)
    else Success(Sign(RS256, payload, nowMs, ACCESS_EXPIRES_IN, None))
  }

  /** `String(payload.id)`: the decimal id, or "undefined" when there is none. */
  function IdString(id: Option<nat>): string {
    match id
    case None => "undefined"
    case Some(n) => NatToString(n)
  }

  function GenerateRefreshToken(payload: Payload, nowMs: nat): Token {
    Sign(HS256, payload, nowMs, REFRESH_EXPIRES_IN, Some(IdString(payload.id)))
  }

  /** An access token carries the payload unchanged, is issued by
      "auth_service" under RS256, expires one hour after issue and has no
      unique id; it is produced exactly when a private key is configured. */
  lemma AccessTokenClaims(config: Config, payload: Payload, nowMs: nat)
    ensures GenerateAccessToken(config, payload, nowMs).Success? <==> !KeyMissing(config)
    ensures !KeyMissing(config) ==>
      var t := GenerateAccessToken(config, payload, nowMs).value;
      && t.scheme == RS256 && t.payload == payload && t.iss == ISSUER
      && t.iat == nowMs / 1000 && t.exp - t.iat == 3600 && t.jti == None
  {
  }

  /** A refresh token's unique id is the decimal form of the payload's record
      id, so reading it back as a number gives that record id; distinct
      records give distinct unique ids. */
  lemma {:induction false} RefreshJtiNamesRecord(payload: Payload, nowMs: nat, id: nat)
    requires payload.id == Some(id)
    ensures var t := GenerateRefreshToken(payload, nowMs);
      && t.scheme == HS256 && t.iss == ISSUER && t.payload == payload
      && t.iat == nowMs / 1000 && t.exp - t.iat == REFRESH_EXPIRES_IN
      && t.jti == Some(NatToString(id)) && NumberOf(t.jti.value) == Some(id)
  {
    NumberOfNatToString(id);
  }

  lemma {:induction false} RefreshJtiInjective(p: Payload, q: Payload, nowMs: nat, m: nat, n: nat)
    requires p.id == Some(m) && q.id == Some(n) && m != n
    ensures GenerateRefreshToken(p, nowMs).jti != GenerateRefreshToken(q, nowMs).jti
  {
    if NatToString(m) == NatToString(n) {
      NatToStringInjective(m, n);
    }
  }

  /** The two builders never produce the same scheme, and the refresh token
      outlives the access token. */
  lemma SchemesDistinct(config: Config, p: Payload, q: Payload, nowMs: nat)
    requires !KeyMissing(config)
    ensures GenerateAccessToken(config, p, nowMs).value.scheme != GenerateRefreshToken(q, nowMs).scheme
    ensures GenerateAccessToken(config, p, nowMs).value.exp < GenerateRefreshToken(q, nowMs).exp
  {
  }
}
