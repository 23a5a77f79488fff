# Auth service core, modelled in Dafny

This project models the core of the `mernspace-c-auth-service` repository, an Express/TypeORM authentication
service. The model covers these parts:

- **Registration schema and login schema** (`Validators`). Every field is trimmed. Each failing rule adds one
  error with that rule's message. The registration password must match
  `^(?=.*[a-z])(?=.*[A-Z])(?=.*\d)[a-zA-Z\d]{8,}$`.
- **Registration handler** (`Auth.AuthController.Register`). It runs an ordered chain of exits:
  1. schema errors give 400;
  2. a missing field gives 400 "All fields are required";
  3. an e-mail that is already registered gives 400;
  4. otherwise the user is created;
  5. then the private key file is read; when the read fails the handler answers 500 and the user stays stored;
  6. otherwise it signs an RS256 access token and an HS256 refresh token, sets the two cookies and answers 201.
- **User service** (`Users`). It stores users with unique e-mails and bcrypt-hashed passwords, and has the two
  lookups.
- **Token service** (`Tokens`, `RefreshTokens`). It builds access and refresh tokens as claim records. The
  refresh-token table lives one year (365 days) per record.
- **Refresh-token revocation check** (`Revocation`). This is the `isRevoked` hook of the refresh middleware.
- **Tenant service** (`Tenants`). It has create, update, and `getAll`:
  - `getAll` searches case-insensitively over `name + " " + address`;
  - it orders by id, newest first;
  - it returns one page plus the number of matches.

The code works by changing things step by step in three places: the user table, the refresh-token table and
the tenant table. These are classes (`Users.UserService`, `RefreshTokens.RefreshTokenStore`,
`Tenants.TenantService`) with `seq`/`map` fields, and their methods have `modifies` clauses. Everything else
is expressions and is modelled as functions and lemmas.

The outside world becomes parameters:

| parameter | what it stands for |
|---|---|
| `nowMs` / `now` | the clock |
| `saveFails` | the database's answer to an insert |
| `privateKey` | the result of reading the key file |
| `Config.privateKey` | the `PRIVATE_KEY` environment variable |
| `isEmail` | express-validator's e-mail format rule |
| `LookupFault` | a failure of the revocation lookup |

Token signatures are not modelled: a token is the record of its claims.

The user entity file declares no tenant column. `UserService.create` nonetheless saves a `tenant` relation, so
the model follows the service and keeps a tenant link on each user.

## Model

| member | source | states |
|---|---|---|
| Strings.TrimWindow | src/validators/register-validator.ts:5 | The `trim` sanitizer removes exactly a leading and a trailing run of whitespace: the result is a window of the input, everything outside it is whitespace, and its first and last characters are not. |
| Strings.TrimIdempotent | src/validators/register-validator.ts:5 | Trimming twice is trimming once, so re-validating a sanitized field sees the same text. |
| Strings.Lower | src/services/TenantService.ts:21 | The folding ILIKE applies keeps the length and maps each upper-case ASCII letter to its lower-case form. |
| Strings.Contains | src/services/TenantService.ts:20-21 | The `%q%` pattern holds iff `q` occurs as a contiguous substring at some position. |
| Strings.NumberOfNatToString | src/Controllers/AuthController.ts:49 | `Number(String(n)) == n` for the non-negative ids the service converts to claim strings and back. |
| Strings.NatToStringInjective | src/services/TokenServices.ts:43 | Distinct ids have distinct decimal spellings. |
| Validators.RegisterAcceptedIff | src/validators/register-validator.ts:3-36 | The registration schema reports no error iff the trimmed first name, last name and e-mail are non-empty, the e-mail passes the format rule, and the trimmed password matches the pattern. |
| Validators.RegisterPasswordAcceptedIff | src/validators/register-validator.ts:22-34 | The password reports no error iff its trimmed text matches the pattern, and the pattern implies both `notEmpty` and `isLength({min: 8})`. |
| Validators.LoginPasswordAcceptedIff | src/validators/login-validator.ts:12-20 | The login password reports no error iff its trimmed length is at least 8. |
| Validators.LoginAcceptedIff | src/validators/login-validator.ts:3-21 | The login schema reports no error iff the trimmed e-mail is non-empty and well-formed and the trimmed password has at least 8 characters. |
| Validators.RegisterPasswordImpliesLogin | src/validators/register-validator.ts:22-34 | A password the registration schema accepts is accepted at login. |
| Validators.LoginWeakerThanRegister | src/validators/login-validator.ts:12-20 | The converse fails: "abcdefgh" passes the login rules and fails the pattern. |
| Validators.PaddedPasswordAccepted | src/validators/register-validator.ts:22-34 | Whitespace around a password that matches the pattern never causes a rejection, because the trim runs first. |
| Validators.InteriorSymbolRejected | src/validators/register-validator.ts:30-34 | A space or symbol between two non-space characters survives the trim and rejects the password. |
| Validators.SanitizeKeepsErrors | src/validators/register-validator.ts:3-36 | Validating the sanitized body yields the same errors as validating the body as sent. |
| Tokens.Sign | src/services/TokenServices.ts:29-33 | A signed token carries the payload, the issuer "auth_service" and the given scheme and unique id. Its `iat` is the clock in whole seconds and its `exp` is `iat + expiresIn`. |
| Tokens.GenerateAccessToken | src/services/TokenServices.ts:11-36 | It fails with 500 "Private key is not set in environment variables" exactly when `PRIVATE_KEY` is unset or empty. |
| Tokens.AccessTokenClaims | src/services/TokenServices.ts:29-35 | When a key is configured, the access token is RS256, is issued by "auth_service", lives 3600 s and has no unique id. |
| Tokens.RefreshJtiNamesRecord | src/services/TokenServices.ts:38-47 | The refresh token is HS256, lives for "1y" and has `jti = String(payload.id)`, which reads back as the record id. |
| Tokens.RefreshJtiInjective | src/services/TokenServices.ts:38-44 | Refresh tokens for distinct records get distinct unique ids. |
| Tokens.SchemesDistinct | src/services/TokenServices.ts:29-44 | Access and refresh tokens never share a scheme, and a refresh token expires after an access token issued at the same time. |
| Users.TenantLink | src/services/UserServices.ts:35 | A tenant is linked iff `tenantId` is present and non-zero, and then it is that id. |
| Users.FindByEmail | src/services/UserServices.ts:46-49 | The result is null iff no stored user has that e-mail; otherwise it is a stored user with that e-mail. |
| Users.FindById | src/services/UserServices.ts:51-54 | The result is null iff no stored user has that id; otherwise it is a stored user with that id. |
| Users.FindByEmailFindsEach | src/services/UserServices.ts:46-49 | With unique e-mails, every stored user is what the lookup by its e-mail returns. |
| Users.AppendNewEmail | src/services/UserServices.ts:18-36 | Inserting a user under a new e-mail makes the lookup return that user and keeps the e-mails unique. |
| Users.UserService.Create | src/services/UserServices.ts:10-44 | A taken e-mail gives 400 "Email is already exists!" and nothing is stored. A failing insert gives 500 "Failed to store the data in the database" and nothing is stored. Otherwise exactly one row is appended: it has a fresh id, the given fields, `bcrypt(password, 10)` and the tenant link. The e-mails stay unique. |
| RefreshTokens.Deleted | src/services/TokenServices.ts:60-62 | Deleting by id removes exactly that key and keeps every other record unchanged. |
| RefreshTokens.DeleteIdempotent | src/services/TokenServices.ts:60-62 | Deleting an absent id changes nothing, so a second delete is a no-op. |
| RefreshTokens.RefreshTokenStore.PersistRefreshToken | src/services/TokenServices.ts:49-58 | It adds one record under a fresh id, owned by the user and expiring `1000*60*60*24*365` ms after now. Every older record is kept. |
| RefreshTokens.RefreshTokenStore.DeleteRefreshToken | src/services/TokenServices.ts:60-62 | The table becomes `Deleted(old, id)`. The affected count is 1 or 0, and an absent id is not an error. |
| Revocation.GetToken | src/middlewares/validateRefreshToken.ts:13-16 | The token is the `refreshToken` cookie, present iff that cookie is present. |
| Revocation.OnlyRefreshCookieConsulted | src/middlewares/validateRefreshToken.ts:13-16 | No other cookie affects which token is checked. |
| Revocation.FindOne | src/middlewares/validateRefreshToken.ts:20-25 | The awaited lookup returns a record iff some record has the token's `id` and belongs to the user `Number(sub)`. |
| Revocation.IsRevoked | src/middlewares/validateRefreshToken.ts:17-35 | The intended rule: the token is revoked iff no record matches, and it is revoked whenever the lookup faults. |
| Revocation.IsRevokedAsWritten | src/middlewares/validateRefreshToken.ts:17-35 | As written: the token is revoked iff the repository cannot be obtained. |
| Revocation.CrossUserNeverMatches | src/middlewares/validateRefreshToken.ts:21-24 | A token naming another user's record is revoked under the intended rule. |
| Revocation.RevokedAfterDelete | src/middlewares/validateRefreshToken.ts:17-35 | After `deleteRefreshToken(i)`, every token with id claim `i` is revoked under the intended rule. |
| Revocation.IssuedTokenNotRevoked | src/middlewares/validateRefreshToken.ts:20-27 | A refresh token built for a freshly persisted record and its owner is accepted. |
| Revocation.AsWrittenIgnoresTable | src/middlewares/validateRefreshToken.ts:20-27 | As written, the answer never depends on the table, and with no fault every token is accepted. |
| Revocation.AsWrittenAcceptsMissingRecord | src/middlewares/validateRefreshToken.ts:20-27 | An empty table with a token for record 1: the intended rule revokes it and the code accepts it. |
| Revocation.FailedQueryFailsClosedOnlyWhenAwaited | src/middlewares/validateRefreshToken.ts:18-34 | A failing query is revoked only under the intended rule. A synchronous repository failure is revoked under both. |
| Tenants.Filter | src/services/TenantService.ts:19-24 | The matches are exactly the tenants whose `name + " " + address` contains the term case-insensitively, or all tenants when the term is empty or absent. |
| Tenants.SortByIdDesc | src/services/TenantService.ts:29 | The result is strictly descending by id and is a permutation of the input. |
| Tenants.Ordered | src/services/TenantService.ts:19-29 | The matches are newest first and are a permutation of the filter's result. |
| Tenants.Page | src/services/TenantService.ts:27-28 | `skip((p-1)*n).take(n)`: at most `n` rows, equal to the slice starting at `(p-1)*n`, and empty past the end. |
| Tenants.GetAll | src/services/TenantService.ts:16-32 | The rows are newest first, at most `perPage` of them, and every row is a stored match. The count is the total number of matches. |
| Tenants.NoSearchMatchesAll | src/services/TenantService.ts:19 | Without a search term every tenant matches, in table order. |
| Tenants.NameHitMatches | src/services/TenantService.ts:20-23 | A tenant whose name contains the term matches. |
| Tenants.CountIndependentOfPage | src/services/TenantService.ts:26-30 | The count does not depend on the page number or the page size. |
| Tenants.PageIsSlice | src/services/TenantService.ts:26-30 | A page's rows are the slice of the ordered matches that the page names. |
| Tenants.ConsecutivePagesDisjoint | src/services/TenantService.ts:27-28 | Pages `p` and `p+1` share no tenant. |
| Tenants.PagesArePrefix | src/services/TenantService.ts:27-28 | Pages 1..k together are the first `k*perPage` entries. |
| Tenants.AllPagesGiveOrderedMatches | src/services/TenantService.ts:16-32 | Enough pages together return every match exactly once, newest first. |
| Tenants.UpdateOnlyTarget | src/services/TenantService.ts:12-14 | `update(id, data)` rewrites the name and address of tenant `id` and its update time. The id and creation time are kept, other rows are unchanged, and an absent id changes nothing. |
| Tenants.TenantService.Create | src/services/TenantService.ts:8-10 | It appends one tenant with a fresh id and exactly the given name and address, and the table stays ordered by id. |
| Tenants.TenantService.Update | src/services/TenantService.ts:12-14 | The table becomes `Updated(old, id, data, now)`, and the affected count is the number of rows with that id. |
| Tenants.TenantService.List | src/services/TenantService.ts:16-32 | `getAll` over the current table: newest first, page-bounded, only stored matches, and the count of all matches. |
| Auth.CookieLifetimes | src/Controllers/AuthController.ts:72-84 | The refresh cookie lives as long as a persisted record (365 days), and the access cookie as long as the access token (1 h). |
| Auth.RegistrationTokensNameUser | src/Controllers/AuthController.ts:49-70 | Both registration tokens have subject `String(user.id)`, which reads back as the id, and the user's role. Access is RS256 for 1 h, refresh is HS256 for "1y", and neither has a unique id. |
| Auth.OnlyRoleCanBeMissing | src/Controllers/AuthController.ts:28-32 | After the schema accepts a body, the "All fields are required" exit is taken iff `role` is missing or empty. |
| Auth.AuthController.Register | src/Controllers/AuthController.ts:21-92 | The whole exit chain, in order:<br>• schema errors: 400 with those errors;<br>• a missing field: 400 "All fields are required";<br>• an e-mail already stored: 400 "Email is already registered";<br>• a failed insert: the error handler's 500;<br>• an unreadable key: 500 "Error while reading private key", with the user kept;<br>• otherwise: 201 with the new id and the two cookies.<br>Only the last two store a user, and the e-mails stay unique. A 201 is the only response with cookies. |

## Findings

| source | as written | input that shows it | evidently intended | confidence | as-written member | corrected member |
|---|---|---|---|---|---|---|
| src/middlewares/validateRefreshToken.ts:20-27 | `findOne` is not awaited, so `refreshToken === null` compares a pending promise with null and is always false. A failing query rejects outside the `try`. | An empty refresh-token table and a token with `id: "1"` and `sub: "1"`: the token is accepted although record 1 does not exist (`Revocation.AsWrittenAcceptsMissingRecord`). Deleting a record on logout therefore revokes nothing. | A token is revoked iff no record with its id belongs to its subject, and any lookup failure revokes it. | not executed | Revocation.IsRevokedAsWritten | Revocation.IsRevoked |

## Left out

- Signatures, key formats and the HS256 secret: a token is its claim record. An unset `RESPONSE_TOKEN_SECRET`, which makes `sign` throw, is not modelled.
- bcrypt is kept symbolic as `Bcrypt(secret, 10)`. The random salt and the digest are not modelled.
- The e-mail format rule of express-validator is a parameter (`isEmail`), not a definition of e-mail syntax.
- Whitespace and case folding are ASCII only. Unicode whitespace in `trim` and non-ASCII folding in ILIKE are not modelled.
- Strings.NumberOf: models `Number()` only on decimal digit strings with optional surrounding whitespace. Signs, decimals, exponents and hexadecimal forms are read as NaN.
- Tenants.Filter: the `%` and `_` wildcards inside the search term itself are treated as literal characters.
- Tenants.GetAll: requires a page number and a page size of at least 1, because the list query validator that guarantees this is not part of this model. TypeORM's handling of zero or negative `skip`/`take` is not modelled.
- Database failures of `persistRefreshToken`, `deleteRefreshToken`, tenant `create`/`update` and the lookups are not modelled; those methods always succeed.
- Concurrency is not modelled. In particular, two registrations racing between the e-mail check and the insert are not covered.
- TypeORM's `UpdateResult`/`DeleteResult` are reduced to the affected-row count.
- The `try`/`catch` around `privateKey = Config.PRIVATE_KEY` in `generateAccessToken` cannot throw and is not modelled.
- `routes/auth.ts` constructs `AuthController` without its services and does not install the registration schema. The model assumes the controller is wired with both.
- The login and refresh handlers, `authenticate`, `canAccess` and the cookie parser middleware are not part of this model.
- The user entity file has no tenant column. The model follows `UserService.create`, which saves a tenant link.
- The refresh token's `exp` is 365.25 days after issue (the duration parser's year), one quarter-day longer than the 365-day cookie and record lifetime. The model keeps both values as written.
- `UserData` in `types/index.ts` has no `tenantId`. The registration handler passes none, and the model uses `None`.
