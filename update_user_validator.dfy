/** The rules checked before a partial update.  Every rule is skipped when
    its field is null, and only then: an empty string is checked like any
    other value.  The validator takes no store, so there is no uniqueness
    check on the email. */
module UpdateUserValidator {

  import opened Wrappers
  import opened Models
  import opened Dtos
  import opened ValidationRules

  /** Each field passes when it is null or satisfies its single check. */
  predicate Accepted(u: UpdateUserDto, format: string -> bool)
  {
    (u.email.None? || format(u.email.value))
    && (u.password.None? || |u.password.value| >= MinPasswordLength)
    && (u.role.None? || IsRole(u.role.value))
  }

  /** The full error list of an update request. */
  function Failures(u: UpdateUserDto, format: string -> bool): (errs: seq<Failure>)
    ensures errs == [] <==> Accepted(u, format)
  {
    Rule(PassesEmailAddress(u.email, format), Failure(Email, EmailAddress, None))
    + Rule(HasMinimumLength(u.password, MinPasswordLength),
           Failure(Password, MinimumLength(MinPasswordLength), None))
    + Rule(u.role.None? || IsAdminOrUser(u.role), Failure(Role, AdminOrUser, None))
  }

  /** A request that supplies no field at all is valid. */
  lemma AllNullAccepted(format: string -> bool)
    ensures Failures(UpdateUserDto(None, None, None), format) == []
  {
  }

  /** Validation rejects an empty password and an empty role, so in a valid
      request a supplied password or role is never empty; a supplied email
      is never empty when the format rule rejects the empty string. */
  lemma AcceptedFieldsNotEmpty(u: UpdateUserDto, format: string -> bool)
    requires Failures(u, format) == []
    ensures u.password != Some("")
    ensures u.role != Some("")
    ensures !format("") ==> u.email != Some("")
  {
  }

  /** The per-field reasons: a field is reported iff it is supplied and
      fails its check. */
  lemma FailingFieldsReported(u: UpdateUserDto, format: string -> bool)
    ensures Reports(Failures(u, format), Email) <==> u.email.Some? && !format(u.email.value)
    ensures Reports(Failures(u, format), Password)
        <==> u.password.Some? && |u.password.value| < MinPasswordLength
    ensures Reports(Failures(u, format), Role) <==> u.role.Some? && !IsRole(u.role.value)
  {
    var e := Rule(PassesEmailAddress(u.email, format), Failure(Email, EmailAddress, None));
    var p := Rule(HasMinimumLength(u.password, MinPasswordLength),
                  Failure(Password, MinimumLength(MinPasswordLength), None));
    var r := Rule(u.role.None? || IsAdminOrUser(u.role), Failure(Role, AdminOrUser, None));
    forall f: Field
      ensures Reports(e + p + r, f) <==> Reports(e, f) || Reports(p, f) || Reports(r, f)
    {
      ReportsConcat(e + p, r, f);
      ReportsConcat(e, p, f);
    }
    ReportsOwnField(e, Email, Password);
    ReportsOwnField(e, Email, Role);
    ReportsOwnField(p, Password, Email);
    ReportsOwnField(p, Password, Role);
    ReportsOwnField(r, Role, Email);
    ReportsOwnField(r, Role, Password);
  }
}
