/** `AuthController.register`: an ordered chain of early exits (schema
    errors, missing fields, an e-mail already registered), then the user is
    created, the private key file is read, an access and a refresh token are
    signed for the new user and set as cookies, and the handler answers 201.
    Reading the key comes after the insert: when it fails the new user stays. */
module Auth {
  import opened Common
  import opened Strings
  import opened Validators
  import opened Tokens
  import opened Users
  import RefreshTokens

  const COOKIE_DOMAIN := "localhost"
  /** `maxAge` of the `accessToken` cookie: one hour in milliseconds. */
  const ACCESS_COOKIE_MAX_AGE := 1000 * 60 * 60
  /** `maxAge` of the `refreshToken` cookie: 365 days in milliseconds. */
  const REFRESH_COOKIE_MAX_AGE := 1000 * 60 * 60 * 24 * 365

  const ALL_FIELDS_REQUIRED := "All fields are required"
  const EMAIL_REGISTERED := "Email is already registered"
  const REGISTERED := "User registration successfully"
  const KEY_READ_ERROR := HttpError(500, "Error while reading private key")

  datatype SameSite = Strict | Lax | NoRestriction

  datatype Cookie = Cookie(name: string, value: Token, domain: string, sameSite: SameSite,
                           maxAge: nat, httpOnly: bool)

  /** The JSON body of a response: the schema's errors, an `{ Error }`
      message, an error rendered by the application's error handler from an
      HttpError passed to `next`, or the registration acknowledgement. */
  datatype ResponseBody =
    | ValidationFailed(errors: seq<FieldError>)
    | Message(error: string)
    | HandlerError(message: string)
    | Registered(id: nat, message: string)

  datatype Response = Response(status: nat, body: ResponseBody, cookies: seq<Cookie>)

  /** `!email || !firstName || !lastName || !password || !role`. */
  predicate MissingField(b: RegisterBody) {
    Falsy(b.email) || Falsy(b.firstName) || Falsy(b.lastName) || Falsy(b.password) || Falsy(b.role)
  }

  predicate Falsy(v: Option<string>) {
    v == None || v == Some("")
  }

  /** The response an HttpError passed to `next` produces. */
  function ErrorResponse(e: HttpError): Response {
    Response(e.status, HandlerError(e.message), [])
  }

  /** The payload signed into both tokens: `{ sub: String(user.id), role }`. */
  function UserPayload(u: User): Payload {
    Payload(NatToString(u.id), u.role, None)
  }

  function AccessCookie(u: User, nowMs: nat): Cookie {
    Cookie("accessToken", Sign(RS256, UserPayload(u), nowMs, ACCESS_EXPIRES_IN, None),
           COOKIE_DOMAIN, Strict, ACCESS_COOKIE_MAX_AGE, true)
  }

  function RefreshCookie(u: User, nowMs: nat): Cookie {
    Cookie("refreshToken", Sign(HS256, UserPayload(u), nowMs, REFRESH_EXPIRES_IN, None),
           COOKIE_DOMAIN, Strict, REFRESH_COOKIE_MAX_AGE, true)
  }

  /** The refresh cookie lives exactly as long as a persisted refresh-token
      record, and the access cookie as long as the access token. */
  lemma CookieLifetimes()
    ensures REFRESH_COOKIE_MAX_AGE == RefreshTokens.MS_IN_YEAR
    ensures ACCESS_COOKIE_MAX_AGE == ACCESS_EXPIRES_IN * 1000
  {
  }

  /** Both tokens of a registration name the new user: their subject reads
      back as the user's id and their role is the user's role. Neither has a
      unique id, so neither names a refresh-token record. */
  lemma {:induction false} RegistrationTokensNameUser(u: User, nowMs: nat)
    ensures var a := AccessCookie(u, nowMs).value;
      && a.scheme == RS256 && a.iss == ISSUER && a.exp == a.iat + 3600
      && NumberOf(a.payload.sub) == Some(u.id) && a.payload.role == u.role && a.jti == None
    ensures var r := RefreshCookie(u, nowMs).value;
      && r.scheme == HS256 && r.iss == ISSUER && r.exp == r.iat + REFRESH_EXPIRES_IN
      && NumberOf(r.payload.sub) == Some(u.id) && r.payload.role == u.role && r.jti == None
  {
    NumberOfNatToString(u.id);
  }

  /** Once the schema has accepted a body, the names, e-mail and password are
      present and non-empty, so only a missing or empty `role` can still
      produce "All fields are required". */
  lemma {:induction false} OnlyRoleCanBeMissing(b: RegisterBody, isEmail: string -> bool)
    requires RegisterErrors(b, isEmail) == []
    ensures MissingField(Sanitize(b)) <==> Falsy(b.role)
  {
    RegisterAcceptedIff(b, isEmail);
    var s := Sanitize(b);
    assert s.firstName == TrimField(b.firstName) && s.lastName == TrimField(b.lastName);
    assert s.email == TrimField(b.email) && s.password == TrimField(b.password) && s.role == b.role;
    FalsyTrimField(b.firstName);
    FalsyTrimField(b.lastName);
    FalsyTrimField(b.email);
    FalsyTrimField(b.password);
  }

  /** A sanitized field is falsy exactly when the validators saw it empty. */
  lemma FalsyTrimField(v: Option<string>)
    ensures Falsy(TrimField(v)) <==> Checked(v) == ""
  {
  }

  /** The user data `register` passes to `create`: the sanitized fields and
      no tenant. */
  function CreateData(b: RegisterBody): UserData
    requires !MissingField(b)
  {
    UserData(b.firstName.value, b.lastName.value, b.email.value, b.password.value, b.role.value, None)
  }

  class AuthController {
    const userService: UserService

    constructor (userService: UserService)
      ensures this.userService == userService
    {
      this.userService := userService;
    }

    /** `register`. `isEmail` is the e-mail format rule, `saveFails` the
        database's answer to the insert, `privateKey` the result of reading
        the key file (`None` when the read throws) and `nowMs` the clock. */
    method Register(body: RegisterBody, isEmail: string -> bool, saveFails: bool,
                    privateKey: Option<string>, nowMs: nat) returns (res: Response)
      requires userService.Valid()
      modifies userService
      ensures userService.Valid()
      ensures RegisterErrors(body, isEmail) != [] ==>
        && res == Response(400, ValidationFailed(RegisterErrors(body, isEmail)), [])
        && userService.users == old(userService.users) && userService.nextId == old(userService.nextId)
      ensures RegisterErrors(body, isEmail) == [] && MissingField(Sanitize(body)) ==>
        && res == Response(400, Message(ALL_FIELDS_REQUIRED), [])
        && userService.users == old(userService.users) && userService.nextId == old(userService.nextId)
      ensures RegisterErrors(body, isEmail) == [] && !MissingField(Sanitize(body)) ==>
        var data := CreateData(Sanitize(body));
        && (FindByEmail(old(userService.users), data.email).Some? ==>
              && res == Response(400, Message(EMAIL_REGISTERED), [])
              && userService.users == old(userService.users) && userService.nextId == old(userService.nextId))
        && (FindByEmail(old(userService.users), data.email).None? && saveFails ==>
              && res == ErrorResponse(STORE_FAILED)
              && userService.users == old(userService.users) && userService.nextId == old(userService.nextId))
        && (FindByEmail(old(userService.users), data.email).None? && !saveFails ==>
              var u := NewUser(old(userService.nextId), data);
              && userService.users == old(userService.users) + [u]
              && userService.nextId == old(userService.nextId) + 1
              && (privateKey.None? ==> res == ErrorResponse(KEY_READ_ERROR))
              && (privateKey.Some? ==>
                    res == Response(201, Registered(u.id, REGISTERED),
                                    [AccessCookie(u, nowMs), RefreshCookie(u, nowMs)])))
      ensures res.status == 201 <==> res.cookies != []
      ensures EmailsUnique(old(userService.users)) ==> EmailsUnique(userService.users)
    {
      var errors := RegisterErrors(body, isEmail);
      if errors != [] {
        return Response(400, ValidationFailed(errors), []);
      }
      var fields := Sanitize(body);
      if MissingField(fields) {
        return Response(400, Message(ALL_FIELDS_REQUIRED), []);
      }
      var data := CreateData(fields);
      var existing := FindByEmail(userService.users, data.email);
      if existing.Some? {
        return Response(400, Message(EMAIL_REGISTERED), []);
      }
      var created := userService.Create(data, saveFails);
      if created.Failure? {
        return ErrorResponse(created.error);
      }
      var user := created.value;
      if privateKey.None? {
        return ErrorResponse(KEY_READ_ERROR);
      }
      var access := AccessCookie(user, nowMs);
      var refresh := RefreshCookie(user, nowMs);
      res := Response(201, Registered(user.id, REGISTERED), [access, refresh]);
    }
  }
}
