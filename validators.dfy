/** The request-body schemas of `/auth/register` and `/auth/login`.
    Each field is first trimmed, then every rule of the field is checked and
    each failing rule contributes one error (express-validator does not stop
    at the first failure). A field missing from the body is checked as the
    empty string. The e-mail format rule is a library predicate and is a
    parameter here. */
module Validators {
  import opened Common
  import opened Strings

  datatype FieldError = FieldError(path: string, msg: string)

  /** The body of a registration request; `None` is a field that is absent. */
  datatype RegisterBody = RegisterBody(
    firstName: Option<string>,
    lastName: Option<string>,
    email: Option<string>,
    password: Option<string>,
    role: Option<string>)

  datatype LoginBody = LoginBody(email: Option<string>, password: Option<string>)

  const MIN_PASSWORD_LENGTH := 8

  /** The error messages of the two schemas. */
  const FIRST_NAME_REQUIRED := "First name is required"
  const LAST_NAME_REQUIRED := "Last name is required"
  const EMAIL_REQUIRED := "Email is required"
  const EMAIL_INVALID := "Invalid email format"
  const PASSWORD_REQUIRED := "Password is required"
  const PASSWORD_TOO_SHORT := "Password must be at least 8 characters long"
  const PASSWORD_TOO_WEAK := "Password must contain at least one uppercase letter, one lowercase letter, and one number"

  predicate IsLowerAscii(c: char) { 'a' <= c <= 'z' }
  predicate IsUpperAscii(c: char) { 'A' <= c <= 'Z' }
  predicate IsAsciiAlnum(c: char) { IsLowerAscii(c) || IsUpperAscii(c) || IsDigit(c) }

  /** The language of `^(?=.*[a-z])(?=.*[A-Z])(?=.*\d)[a-zA-Z\d]{8,}$`:
      eight or more ASCII letters and digits, among them a lower-case
      letter, an upper-case letter and a digit. */
  predicate MatchesPasswordPattern(s: string) {
    && |s| >= MIN_PASSWORD_LENGTH
    && (forall i :: 0 <= i < |s| ==> IsAsciiAlnum(s[i]))
    && (exists i :: 0 <= i < |s| && IsLowerAscii(s[i]))
    && (exists i :: 0 <= i < |s| && IsUpperAscii(s[i]))
    && (exists i :: 0 <= i < |s| && IsDigit(s[i]))
  }

  /** What a validator sees of a field: its trimmed text, "" when absent. */
  function Checked(v: Option<string>): string {
    match v
    case None => ""
    case Some(s) => Trim(s)
  }

  /** The `notEmpty` rule with the field's own error message. */
  function NotEmptyErrors(path: string, v: Option<string>, msg: string): seq<FieldError> {
    if Checked(v) == "" then [FieldError(path, msg)] else []
  }

  function EmailErrors(v: Option<string>, isEmail: string -> bool): seq<FieldError> {
    NotEmptyErrors("email", v, EMAIL_REQUIRED)
      + (if isEmail(Checked(v)) then [] else [FieldError("email", EMAIL_INVALID)])
  }

  function PasswordLengthErrors(v: Option<string>): seq<FieldError> {
    NotEmptyErrors("password", v, PASSWORD_REQUIRED)
      + (if |Checked(v)| < MIN_PASSWORD_LENGTH
         then [FieldError("password", PASSWORD_TOO_SHORT)]
         else [])
  }

  function RegisterPasswordErrors(v: Option<string>): seq<FieldError> {
    PasswordLengthErrors(v)
      + (if MatchesPasswordPattern(Checked(v)) then []
         else [FieldError("password",
                 PASSWORD_TOO_WEAK)])
  }

  /** The errors of the registration schema, in schema order. */
  function RegisterErrors(b: RegisterBody, isEmail: string -> bool): seq<FieldError> {
    NotEmptyErrors("firstName", b.firstName, FIRST_NAME_REQUIRED)
      + NotEmptyErrors("lastName", b.lastName, LAST_NAME_REQUIRED)
      + EmailErrors(b.email, isEmail)
      + RegisterPasswordErrors(b.password)
  }

  /** The errors of the login schema: the password has only the length rule. */
  function LoginErrors(b: LoginBody, isEmail: string -> bool): seq<FieldError> {
    EmailErrors(b.email, isEmail) + PasswordLengthErrors(b.password)
  }

  /** The body as the handler reads it after the `trim` sanitizers ran;
      `role` has no rule and is left as sent. */
  function Sanitize(b: RegisterBody): RegisterBody {
    b.(firstName := TrimField(b.firstName), lastName := TrimField(b.lastName),
       email := TrimField(b.email), password := TrimField(b.password))
  }

  function TrimField(v: Option<string>): Option<string> {
    match v
    case None => None
    case Some(s) => Some(Trim(s))
  }

  /** The register schema accepts exactly the bodies whose trimmed names and
      e-mail are non-empty, whose e-mail passes the format rule, and whose
      trimmed password matches the pattern. */
  lemma RegisterAcceptedIff(b: RegisterBody, isEmail: string -> bool)
    ensures RegisterErrors(b, isEmail) == [] <==>
      && Checked(b.firstName) != ""
      && Checked(b.lastName) != ""
      && Checked(b.email) != "" && isEmail(Checked(b.email))
      && MatchesPasswordPattern(Checked(b.password))
  {
    RegisterPasswordAcceptedIff(b.password);
  }

  /** The pattern alone decides the registration password: it implies both
      the length rule and `notEmpty`. */
  lemma RegisterPasswordAcceptedIff(v: Option<string>)
    ensures RegisterPasswordErrors(v) == [] <==> MatchesPasswordPattern(Checked(v))
    ensures MatchesPasswordPattern(Checked(v)) ==> PasswordLengthErrors(v) == []
  {
  }

  /** The login schema accepts a password iff its trimmed length is at least 8. */
  lemma LoginPasswordAcceptedIff(v: Option<string>)
    ensures PasswordLengthErrors(v) == [] <==> |Checked(v)| >= MIN_PASSWORD_LENGTH
  {
  }

  lemma LoginAcceptedIff(b: LoginBody, isEmail: string -> bool)
    ensures LoginErrors(b, isEmail) == [] <==>
      && Checked(b.email) != "" && isEmail(Checked(b.email))
      && |Checked(b.password)| >= MIN_PASSWORD_LENGTH
  {
  }

  /** Every password the registration schema accepts, login accepts too. */
  lemma RegisterPasswordImpliesLogin(v: Option<string>)
    requires RegisterPasswordErrors(v) == []
    ensures PasswordLengthErrors(v) == []
  {
  }

  /** The converse fails: "abcdefgh" passes login but not registration. */
  lemma LoginWeakerThanRegister()
    ensures PasswordLengthErrors(Some("abcdefgh")) == []
    ensures RegisterPasswordErrors(Some("abcdefgh")) != []
  {
    var s := "abcdefgh";
    SampleIsTrimmed();
    SampleMissesPattern();
    RegisterPasswordAcceptedIff(Some(s));
    LoginPasswordAcceptedIff(Some(s));
  }

  lemma SampleIsTrimmed()
    ensures Checked(Some("abcdefgh")) == "abcdefgh"
  {
    var s := "abcdefgh";
    TrimPadded([], s, []);
    assert [] + s + [] == s;
  }

  lemma SampleMissesPattern()
    ensures !MatchesPasswordPattern("abcdefgh")
  {
    var s := "abcdefgh";
    assert !IsUpperAscii(s[0]) && !IsUpperAscii(s[1]) && !IsUpperAscii(s[2]) && !IsUpperAscii(s[3]);
    assert !IsUpperAscii(s[4]) && !IsUpperAscii(s[5]) && !IsUpperAscii(s[6]) && !IsUpperAscii(s[7]);
  }

  /** Surrounding whitespace never causes a rejection by itself. */
  lemma {:induction false} PaddedPasswordAccepted(a: string, p: string, b: string)
    requires AllSpace(a) && AllSpace(b) && MatchesPasswordPattern(p)
    ensures RegisterPasswordErrors(Some(a + p + b)) == []
  {
    assert IsAsciiAlnum(p[0]) && IsAsciiAlnum(p[|p| - 1]);
    TrimPadded(a, p, b);
  }

  /** A space or symbol between two non-space characters is kept by the trim
      and so rejects the password. */
  lemma {:induction false} InteriorSymbolRejected(s: string, j: nat, i: nat, k: nat)
    requires j <= i <= k < |s| && !IsSpace(s[j]) && !IsSpace(s[k])
    requires !IsAsciiAlnum(s[i])
    ensures RegisterPasswordErrors(Some(s)) != []
  {
    TrimKeepsInterior(s, j, i, k);
    var t := Trim(s);
    var m :| 0 <= m < |t| && t[m] == s[i];
    assert !IsAsciiAlnum(t[m]);
    assert !MatchesPasswordPattern(t);
    assert Checked(Some(s)) == t;
    RegisterPasswordAcceptedIff(Some(s));
  }

  /** Validating the sanitized body gives the same errors as validating the
      body as sent: the sanitizers change nothing a rule looks at. */
  lemma {:induction false} SanitizeKeepsErrors(b: RegisterBody, isEmail: string -> bool)
    ensures RegisterErrors(Sanitize(b), isEmail) == RegisterErrors(b, isEmail)
  {
    var s := Sanitize(b);
    assert s.firstName == TrimField(b.firstName) && s.lastName == TrimField(b.lastName);
    assert s.email == TrimField(b.email) && s.password == TrimField(b.password);
    CheckedTrimField(b.firstName);
    CheckedTrimField(b.lastName);
    CheckedTrimField(b.email);
    CheckedTrimField(b.password);
    SameCheckedSameNotEmpty("firstName", s.firstName, b.firstName, FIRST_NAME_REQUIRED);
    SameCheckedSameNotEmpty("lastName", s.lastName, b.lastName, LAST_NAME_REQUIRED);
    SameCheckedSameEmailErrors(s.email, b.email, isEmail);
    SameCheckedSamePasswordErrors(s.password, b.password);
  }

  lemma SameCheckedSameNotEmpty(path: string, v: Option<string>, w: Option<string>, msg: string)
    requires Checked(v) == Checked(w)
    ensures NotEmptyErrors(path, v, msg) == NotEmptyErrors(path, w, msg)
  {
  }

  /** Every rule looks only at the trimmed text of its field. */
  lemma SameCheckedSameEmailErrors(v: Option<string>, w: Option<string>, isEmail: string -> bool)
    requires Checked(v) == Checked(w)
    ensures EmailErrors(v, isEmail) == EmailErrors(w, isEmail)
  {
  }

  lemma SameCheckedSamePasswordErrors(v: Option<string>, w: Option<string>)
    requires Checked(v) == Checked(w)
    ensures RegisterPasswordErrors(v) == RegisterPasswordErrors(w)
  {
  }

  lemma CheckedTrimField(v: Option<string>)
    ensures Checked(TrimField(v)) == Checked(v)
  {
    if v.Some? {
      TrimIdempotent(v.value);
    }
  }
}
