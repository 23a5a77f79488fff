/** The revocation check of the refresh-token middleware. The middleware
    reads the token from the `refreshToken` cookie, and `isRevoked` looks for
    the record named by the token's `id` claim that belongs to the user named
    by its `sub` claim. `IsRevoked` is the rule the check is meant to apply;
    `IsRevokedAsWritten` is what the code does, since the lookup's promise is
    compared with `null` without being awaited. Both are functions of the
    table, so neither can change it. */
module Revocation {
  import opened Common
  import opened Strings
  import opened Tokens
  import opened RefreshTokens

  const REFRESH_COOKIE := "refreshToken"

  /** `getToken`: the token comes from the `refreshToken` cookie alone. */
  function GetToken(cookies: map<string, string>): (r: Option<string>)
    ensures r.Some? <==> REFRESH_COOKIE in cookies
    ensures r.Some? ==> r.value == cookies[REFRESH_COOKIE]
  {
    if REFRESH_COOKIE in cookies then Some(cookies[REFRESH_COOKIE]) else None
  }

  /** No other cookie influences which token is checked. */
  lemma OnlyRefreshCookieConsulted(a: map<string, string>, b: map<string, string>)
    requires REFRESH_COOKIE in a <==> REFRESH_COOKIE in b
    requires REFRESH_COOKIE in a ==> a[REFRESH_COOKIE] == b[REFRESH_COOKIE]
    ensures GetToken(a) == GetToken(b)
  {
  }

  /** What can go wrong during the lookup: the repository cannot be obtained
      (thrown synchronously) or the query itself fails (its promise rejects). */
  datatype LookupFault = NoFault | RepositoryUnavailable | QueryFailed

  /** The `where` clause: the record's id is `Number(payload.id)` and its
      owner's id is `Number(payload.sub)`. */
  predicate RecordMatches(rec: RefreshTokenRecord, token: Token) {
    token.payload.id == Some(rec.id) && NumberOf(token.payload.sub) == Some(rec.userId)
  }

  /** `findOne` on the table as awaited: the matching record, or none. */
  function FindOne(records: map<nat, RefreshTokenRecord>, token: Token): (r: Option<RefreshTokenRecord>)
    requires WellKeyed(records)
    ensures r.Some? ==> r.value in records.Values && RecordMatches(r.value, token)
    ensures r.None? <==> forall k :: k in records ==> !RecordMatches(records[k], token)
  {
    match token.payload.id
    case None => None
    case Some(id) =>
      if id in records && RecordMatches(records[id], token) then Some(records[id]) else None
  }

  /** The intended check: revoked iff no record matches, and revoked whenever
      the lookup fails (fail closed). */
  function IsRevoked(records: map<nat, RefreshTokenRecord>, token: Token, fault: LookupFault): (revoked: bool)
    requires WellKeyed(records)
    ensures fault != NoFault ==> revoked
    ensures fault == NoFault ==>
      (revoked <==> forall k :: k in records ==> !RecordMatches(records[k], token))
  {
    fault != NoFault || FindOne(records, token).None?
  }

  /** The check as written: the un-awaited lookup is a pending promise and
      never `null`, and a failing query rejects that promise outside the
      `try`; only a synchronous throw reaches the `catch`, which answers true. */
  function IsRevokedAsWritten(records: map<nat, RefreshTokenRecord>, token: Token, fault: LookupFault): (revoked: bool)
    ensures revoked <==> fault == RepositoryUnavailable
  {
    match fault
    case RepositoryUnavailable => true
    case _ => false
  }

  /** A record owned by another user never matches: a token naming record
      `k` with a subject other than its owner is revoked. */
  lemma {:induction false} CrossUserNeverMatches(records: map<nat, RefreshTokenRecord>, token: Token, k: nat)
    requires WellKeyed(records) && k in records && token.payload.id == Some(k)
    requires NumberOf(token.payload.sub) != Some(records[k].userId)
    ensures IsRevoked(records, token, NoFault)
  {
    forall j | j in records ensures !RecordMatches(records[j], token) {
      assert records[j].id == j;
    }
  }

  /** Once record `i` is deleted, every token whose id claim is `i` is revoked. */
  lemma {:induction false} RevokedAfterDelete(records: map<nat, RefreshTokenRecord>, token: Token, i: nat)
    requires WellKeyed(records) && token.payload.id == Some(i)
    ensures WellKeyed(Deleted(records, i))
    ensures IsRevoked(Deleted(records, i), token, NoFault)
  {
    var d := Deleted(records, i);
    forall j | j in d ensures !RecordMatches(d[j], token) {
      assert d[j].id == j != i;
    }
  }

  /** The refresh token built for a freshly persisted record, with the
      owner's id as subject, is not revoked. */
  lemma {:induction false} IssuedTokenNotRevoked(records: map<nat, RefreshTokenRecord>, rec: RefreshTokenRecord,
                                                 role: string, nowMs: nat)
    requires WellKeyed(records)
    ensures WellKeyed(records[rec.id := rec])
    ensures !IsRevoked(records[rec.id := rec],
                       GenerateRefreshToken(Payload(NatToString(rec.userId), role, Some(rec.id)), nowMs),
                       NoFault)
  {
    var token := GenerateRefreshToken(Payload(NatToString(rec.userId), role, Some(rec.id)), nowMs);
    NumberOfNatToString(rec.userId);
    assert RecordMatches(rec, token);
  }

  /** As written, an answer of "revoked" never depends on the table: with no
      fault the token is accepted even when its record does not exist. */
  lemma AsWrittenIgnoresTable(a: map<nat, RefreshTokenRecord>, b: map<nat, RefreshTokenRecord>,
                              token: Token, fault: LookupFault)
    ensures IsRevokedAsWritten(a, token, fault) == IsRevokedAsWritten(b, token, fault)
    ensures !IsRevokedAsWritten(a, token, NoFault)
  {
  }

  /** The input that separates the two: an empty table and a token naming
      record 1 of user 1. The intended rule rejects it, the code accepts it. */
  lemma AsWrittenAcceptsMissingRecord()
    ensures var token := Token(HS256, Payload("1", "customer", Some(1)), ISSUER, 0, REFRESH_EXPIRES_IN, Some("1"));
      IsRevoked(map[], token, NoFault) && !IsRevokedAsWritten(map[], token, NoFault)
  {
  }

  /** A failing query is caught only by the intended check. */
  lemma FailedQueryFailsClosedOnlyWhenAwaited(records: map<nat, RefreshTokenRecord>, token: Token)
    requires WellKeyed(records)
    ensures IsRevoked(records, token, QueryFailed)
    ensures !IsRevokedAsWritten(records, token, QueryFailed)
    ensures IsRevoked(records, token, RepositoryUnavailable) && IsRevokedAsWritten(records, token, RepositoryUnavailable)
  {
  }
}
