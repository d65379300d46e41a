/** The rules checked before a login attempt: an email and a password, no
    role, and no store access. */
module LoginUserValidator {

  import opened Wrappers
  import opened Dtos
  import opened ValidationRules

  predicate EmailAccepted(email: Option<string>, format: string -> bool)
  {
    IsNotEmpty(email) && format(email.value)
  }

  predicate Accepted(l: LoginUserDto, format: string -> bool)
  {
    EmailAccepted(l.email, format) && PasswordAccepted(l.password)
  }

  /** Email: `NotEmpty`, then `EmailAddress`. */
  function EmailFailures(email: Option<string>, format: string -> bool): (errs: seq<Failure>)
    ensures errs == [] <==> EmailAccepted(email, format)
    ensures AllAbout(errs, Email)
  {
    Rule(IsNotEmpty(email), Failure(Email, NotEmpty, None))
    + Rule(PassesEmailAddress(email, format), Failure(Email, EmailAddress, None))
  }

  /** The full error list of a login request; it never mentions a role. */
  function Failures(l: LoginUserDto, format: string -> bool): (errs: seq<Failure>)
    ensures errs == [] <==> Accepted(l, format)
    ensures !Reports(errs, Role)
  {
    var e, p := EmailFailures(l.email, format), RequiredPasswordFailures(l.password);
    ReportsConcat(e, p, Role);
    ReportsOwnField(e, Email, Role);
    ReportsOwnField(p, Password, Role);
    e + p
  }

  /** The two fields are checked independently: each is reported iff its
      own rule fails, whatever the other field holds. */
  lemma FailingFieldsReported(l: LoginUserDto, format: string -> bool)
    ensures Reports(Failures(l, format), Email) <==> !EmailAccepted(l.email, format)
    ensures Reports(Failures(l, format), Password) <==> !PasswordAccepted(l.password)
  {
    var e, p := EmailFailures(l.email, format), RequiredPasswordFailures(l.password);
    ReportsConcat(e, p, Email);
    ReportsConcat(e, p, Password);
    ReportsOwnField(e, Email, Password);
    ReportsOwnField(p, Password, Email);
  }
}
