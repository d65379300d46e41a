/** The rules checked before an account is created.  The email rule reads
    the store; the validator never writes to it (it is a function of the
    stored rows). */
module CreateUserValidator {

  import opened Wrappers
  import opened Models
  import opened Dtos
  import opened ValidationRules

  const EmailTakenMessage := "User with that email address is not null"
  const RoleMessage := "Choose: Admin or User"

  predicate EmailAccepted(email: Option<string>, users: map<int, User>, format: string -> bool)
  {
    IsNotEmpty(email) && format(email.value)
    && !EmailTaken(users, email.value)
  }

  predicate RoleAccepted(role: Option<string>)
  {
    role.Some? && IsRole(role.value)
  }

  predicate Accepted(c: CreateUserDto, users: map<int, User>, format: string -> bool)
  {
    EmailAccepted(c.email, users, format) && PasswordAccepted(c.password) && RoleAccepted(c.role)
  }

  /** Email: `NotEmpty`, `EmailAddress`, then the existence query, each
      reported when it fails.  The rule passes iff the email is non-empty,
      well formed and not stored yet. */
  function EmailFailures(email: Option<string>, users: map<int, User>, format: string -> bool): (errs: seq<Failure>)
    ensures errs == [] <==> EmailAccepted(email, users, format)
    ensures AllAbout(errs, Email)
  {
    Rule(IsNotEmpty(email), Failure(Email, NotEmpty, None))
    + Rule(PassesEmailAddress(email, format), Failure(Email, EmailAddress, None))
    + Rule(!(email.Some? && EmailTaken(users, email.value)),
           Failure(Email, EmailNotTaken, Some(EmailTakenMessage)))
  }

  /** Role: `NotEmpty`, then membership in {Admin, User}.  The rule passes
      iff the role is exactly "Admin" or "User". */
  function RoleFailures(role: Option<string>): (errs: seq<Failure>)
    ensures errs == [] <==> RoleAccepted(role)
    ensures AllAbout(errs, Role)
  {
    assert IsAdminOrUser(role) ==> !IsWhiteSpace(role.value[0]);
    Rule(IsNotEmpty(role), Failure(Role, NotEmpty, None))
    + Rule(IsAdminOrUser(role), Failure(Role, AdminOrUser, Some(RoleMessage)))
  }

  /** The full error list of a create request: the three fields in order.
      It is empty iff all three rules pass. */
  function Failures(c: CreateUserDto, users: map<int, User>, format: string -> bool): (errs: seq<Failure>)
    ensures errs == [] <==> Accepted(c, users, format)
  {
    EmailFailures(c.email, users, format) + RequiredPasswordFailures(c.password) + RoleFailures(c.role)
  }

  /** The fields are checked independently: a field is reported iff its own
      rule fails, whatever the other fields hold. */
  lemma FailingFieldsReported(c: CreateUserDto, users: map<int, User>, format: string -> bool)
    ensures Reports(Failures(c, users, format), Email) <==> !EmailAccepted(c.email, users, format)
    ensures Reports(Failures(c, users, format), Password) <==> !PasswordAccepted(c.password)
    ensures Reports(Failures(c, users, format), Role) <==> !RoleAccepted(c.role)
  {
    var e, p, r := EmailFailures(c.email, users, format), RequiredPasswordFailures(c.password), RoleFailures(c.role);
    forall f: Field
      ensures Reports(e + p + r, f) <==> Reports(e, f) || Reports(p, f) || Reports(r, f)
    {
      ReportsConcat(e + p, r, f);
      ReportsConcat(e, p, f);
    }
    ReportsOwnField(e, Email, Password);
    ReportsOwnField(e, Email, Role);
    ReportsOwnField(p, Password, Email);
    ReportsOwnField(p, Password, Role);
    ReportsOwnField(r, Role, Email);
    ReportsOwnField(r, Role, Password);
  }

  /** An email that is already stored is reported with its custom message. */
  lemma TakenEmailMessage(c: CreateUserDto, users: map<int, User>, format: string -> bool)
    requires c.email.Some? && EmailTaken(users, c.email.value)
    ensures Failure(Email, EmailNotTaken, Some(EmailTakenMessage)) in Failures(c, users, format)
  {
    var errs := Failures(c, users, format);
    var e := EmailFailures(c.email, users, format);
    assert e[|e| - 1] == Failure(Email, EmailNotTaken, Some(EmailTakenMessage));
    assert errs[|e| - 1] == e[|e| - 1];
  }

  /** A role other than "Admin" or "User" is reported with its custom
      message. */
  lemma BadRoleMessage(c: CreateUserDto, users: map<int, User>, format: string -> bool)
    requires !IsAdminOrUser(c.role)
    ensures Failure(Role, AdminOrUser, Some(RoleMessage)) in Failures(c, users, format)
  {
    var errs := Failures(c, users, format);
    assert errs[|errs| - 1] == Failure(Role, AdminOrUser, Some(RoleMessage));
  }
}
