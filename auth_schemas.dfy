/**
 * app/schemas/auth.py: the signup and login request bodies and the token
 * response. The e-mail fields are EmailStr, whose validation belongs to a
 * library and is not modelled.
 */
module AuthSchemas {
  import opened Wrappers
  import opened Validators

  datatype SignupRequest = SignupRequest(
    name: string,
    email: string,
    password: string,
    ssn: string,
    dateOfBirth: Date,
    mailingAddress: string)

  datatype LoginRequest = LoginRequest(email: string, password: string)

  datatype TokenResponse = TokenResponse(accessToken: string, refreshToken: string, tokenType: string)

  const DefaultTokenType := "bearer"

  /** The minimum age the date-of-birth validator asks for. */
  const SignupMinimumAge := 18

  const SsnFormatMessage := "SSN must be in format XXX-XX-XXXX"
  const AgeRequirementMessage := "Must be at least 18 years old"

  /** A TokenResponse built from its two tokens, with the default token type. */
  function NewTokenResponse(accessToken: string, refreshToken: string): (r: TokenResponse)
    ensures r.accessToken == accessToken && r.refreshToken == refreshToken
    ensures r.tokenType == "bearer"
  {
    TokenResponse(accessToken, refreshToken, DefaultTokenType)
  }

  /** The SignupRequest fields that carry a constraint. */
  datatype SignupField = Name | Password | Ssn | DateOfBirth | MailingAddress

  /** Whether one field of the request passes its constraint. */
  predicate FieldOk(r: SignupRequest, field: SignupField, today: Date) {
    match field
    case Name => 1 <= |r.name| <= 255
    case Password => |r.password| >= 8
    case Ssn => ValidateSsn(r.ssn)
    case DateOfBirth => ValidateAge(r.dateOfBirth, SignupMinimumAge, today)
    case MailingAddress => 1 <= |r.mailingAddress| <= 500
  }

  /**
   * The SignupRequest fields that fail validation, in declaration order;
   * request validation reports every failing field at once. `today` is the
   * date validate_age reads from the clock.
   */
  function SignupErrors(r: SignupRequest, today: Date): (errors: seq<SignupField>)
    ensures forall f :: f in errors <==> !FieldOk(r, f, today)
    ensures errors == [] <==>
      1 <= |r.name| <= 255 && |r.password| >= 8 && ValidateSsn(r.ssn)
      && ValidateAge(r.dateOfBirth, SignupMinimumAge, today) && 1 <= |r.mailingAddress| <= 500
  {
    FieldError(Name, FieldOk(r, Name, today))
    + FieldError(Password, FieldOk(r, Password, today))
    + FieldError(Ssn, FieldOk(r, Ssn, today))
    + FieldError(DateOfBirth, FieldOk(r, DateOfBirth, today))
    + FieldError(MailingAddress, FieldOk(r, MailingAddress, today))
  }

  /**
   * The message a failing field reports when the schema's own validator
   * raises it: the SSN and date-of-birth validators. The length bounds
   * report pydantic's stock messages, which are not modelled.
   */
  function ValidatorMessage(field: SignupField): (m: Option<string>)
    ensures m.Some? <==> field == Ssn || field == DateOfBirth
    ensures field == Ssn ==> m == Some("SSN must be in format XXX-XX-XXXX")
    ensures field == DateOfBirth ==> m == Some("Must be at least 18 years old")
  {
    match field
    case Ssn => Some(SsnFormatMessage)
    case DateOfBirth => Some(AgeRequirementMessage)
    case _ => None
  }

  /** The error list of one field: the field when its check fails. */
  function FieldError(field: SignupField, ok: bool): (errors: seq<SignupField>)
    ensures forall f :: f in errors <==> f == field && !ok
  {
    if ok then [] else [field]
  }
}
