/** The building blocks shared by the three validators: the field checks of
    the validation library and the failures they report. */
module ValidationRules {

  import opened Wrappers
  import opened Models

  datatype Field = Email | Password | Role

  /** The kind of check that failed. */
  datatype Check = NotEmpty | EmailAddress | MinimumLength(min: nat) | EmailNotTaken | AdminOrUser

  /** One entry of the error list: the field, the failed check and the
      custom message the rule sets with `WithMessage`, if any (the library's
      default message texts are not modelled). */
  datatype Failure = Failure(field: Field, check: Check, customMessage: Option<string>)

  /** Characters that count as white space. */
  predicate IsWhiteSpace(c: char)
  {
    ('\t' <= c <= '\r') || c == ' ' || c == '\U{85}' || c == '\U{A0}' || c == '\U{1680}'
    || ('\U{2000}' <= c <= '\U{200A}') || c == '\U{2028}' || c == '\U{2029}'
    || c == '\U{202F}' || c == '\U{205F}' || c == '\U{3000}'
  }

  /** The `NotEmpty` check on a string: not null, not empty and not only
      white space. */
  predicate IsNotEmpty(s: Option<string>)
  {
    s.Some? && exists i :: 0 <= i < |s.value| && !IsWhiteSpace(s.value[i])
  }

  /** The `EmailAddress` check: null passes, anything else must satisfy the
      email-format rule `format`. */
  predicate PassesEmailAddress(s: Option<string>, format: string -> bool)
  {
    s.None? || format(s.value)
  }

  /** The `MinimumLength(n)` check: null passes. */
  predicate HasMinimumLength(s: Option<string>, n: nat)
  {
    s.None? || |s.value| >= n
  }

  /** The predicate `r == "Admin" || r == "User"`; null fails it. */
  predicate IsAdminOrUser(s: Option<string>)
  {
    s.Some? && IsRole(s.value)
  }

  /** A single check: no entry when it passes, one entry when it fails. */
  function Rule(passes: bool, failure: Failure): (errs: seq<Failure>)
    ensures errs == [] <==> passes
    ensures !passes ==> failure in errs
    ensures forall i :: 0 <= i < |errs| ==> errs[i] == failure
  {
    if passes then [] else [failure]
  }

  /** A required password: not empty and at least five characters. */
  predicate PasswordAccepted(password: Option<string>)
  {
    IsNotEmpty(password)
    && |password.value| >= MinPasswordLength
  }

  /** The password rule shared by the create and the login validator:
      `NotEmpty`, then `MinimumLength(5)`.  It passes iff the password is
      non-empty and has at least five characters. */
  function RequiredPasswordFailures(password: Option<string>): (errs: seq<Failure>)
    ensures errs == [] <==> PasswordAccepted(password)
    ensures AllAbout(errs, Password)
  {
    Rule(IsNotEmpty(password), Failure(Password, NotEmpty, None))
    + Rule(HasMinimumLength(password, MinPasswordLength),
           Failure(Password, MinimumLength(MinPasswordLength), None))
  }

  /** Some entry of `errs` is about `field`. */
  predicate Reports(errs: seq<Failure>, field: Field)
  {
    exists i :: 0 <= i < |errs| && errs[i].field == field
  }

  /** Reporting distributes over the concatenation of error lists. */
  lemma ReportsConcat(a: seq<Failure>, b: seq<Failure>, field: Field)
    ensures Reports(a + b, field) <==> Reports(a, field) || Reports(b, field)
  {
    if Reports(a + b, field) {
      var i :| 0 <= i < |a + b| && (a + b)[i].field == field;
      if i >= |a| {
        assert b[i - |a|].field == field;
      }
    }
    if Reports(b, field) {
      var i :| 0 <= i < |b| && b[i].field == field;
      assert (a + b)[|a| + i].field == field;
    }
    if Reports(a, field) {
      var i :| 0 <= i < |a| && a[i].field == field;
      assert (a + b)[i].field == field;
    }
  }

  /** Every entry of `errs` is about `field`. */
  predicate AllAbout(errs: seq<Failure>, field: Field)
  {
    forall i :: 0 <= i < |errs| ==> errs[i].field == field
  }

  /** A list all of whose entries are about one field reports that field
      iff it is not empty, and no other field. */
  lemma ReportsOwnField(errs: seq<Failure>, field: Field, other: Field)
    requires AllAbout(errs, field)
    ensures Reports(errs, field) <==> errs != []
    ensures other != field ==> !Reports(errs, other)
  {
    if errs != [] {
      assert errs[0].field == field;
    }
  }
}
