/** The account operations of the users controller, run against an
    in-memory `Users` table.  Each action validates first, then reads or
    writes the table, and answers with one of the outcomes of
    `ActionResult`. */
module Controllers {

  import opened Wrappers
  import opened Models
  import opened Dtos
  import opened ValidationRules
  import opened Hashing
  import opened Tokens
  import CreateUserValidator
  import UpdateUserValidator
  import LoginUserValidator

  /** The outcomes an action can answer with. */
  datatype ActionResult<T> =
    | Ok(value: T)                              // 200 OK, 201 Created or 204 No Content
    | ValidationProblem(errors: seq<Failure>)   // 400 with the validator's error list
    | BadRequestText(message: string)           // 400 with a message
    | NotFound                                  // 404
    | Unauthorized(message: string)             // 401 with a message
    | Unauthenticated                           // 401 from the bearer-token check
    | StoreRejected                             // the write breaks a table constraint

  const InvalidEmailMessage := "Invalid email"
  const InvalidPasswordMessage := "Invalid password"

  predicate IsNullOrEmpty(s: Option<string>)
  {
    s.None? || s.value == ""
  }

  /** What every stored row satisfies, given the email-format rule. */
  ghost predicate StoredRow(u: User, format: string -> bool)
  {
    u.email != "" && format(u.email) && IsRole(u.role) && FitsColumns(u) && IsPasswordHash(u.password)
  }

  /** The in-place edit of a tracked row: a field is overwritten only when
      the request supplies it non-null and non-empty, and a supplied
      password is hashed first. */
  function ApplyUpdate(u: User, update: UpdateUserDto, salt: Salt): User
  {
    u.(email := if IsNullOrEmpty(update.email) then u.email else update.email.value,
       password := if IsNullOrEmpty(update.password) then u.password else Hash(update.password.value, salt),
       role := if IsNullOrEmpty(update.role) then u.role else update.role.value)
  }

  /** After validation the controller's empty-string test only ever skips
      null for Password and Role, and for Email too when the format rule
      rejects the empty string.  The id never changes. */
  lemma ValidUpdateSkipsOnlyNull(u: User, update: UpdateUserDto, salt: Salt, format: string -> bool)
    requires UpdateUserValidator.Failures(update, format) == []
    ensures ApplyUpdate(u, update, salt).id == u.id
    ensures update.password.None? ==> ApplyUpdate(u, update, salt).password == u.password
    ensures update.password.Some? ==> Verify(update.password.value, ApplyUpdate(u, update, salt).password)
    ensures update.role.None? ==> ApplyUpdate(u, update, salt).role == u.role
    ensures update.role.Some? ==> ApplyUpdate(u, update, salt).role == update.role.value
    ensures update.email.None? ==> ApplyUpdate(u, update, salt).email == u.email
    ensures update.email.Some? && !format("") ==> ApplyUpdate(u, update, salt).email == update.email.value
  {
    UpdateUserValidator.AcceptedFieldsNotEmpty(update, format);
  }

  /** An update that supplies nothing leaves the row as it is. */
  lemma EmptyUpdateKeepsRow(u: User, salt: Salt)
    ensures ApplyUpdate(u, UpdateUserDto(None, None, None), salt) == u
  {
  }

  /** An update of the password alone re-hashes it and keeps the email and
      the role. */
  lemma PasswordOnlyUpdate(u: User, password: string, salt: Salt)
    requires password != ""
    ensures ApplyUpdate(u, UpdateUserDto(None, Some(password), None), salt).email == u.email
    ensures ApplyUpdate(u, UpdateUserDto(None, Some(password), None), salt).role == u.role
    ensures Verify(password, ApplyUpdate(u, UpdateUserDto(None, Some(password), None), salt).password)
  {
  }

  /** The protected endpoint: the bearer check refuses a token outside its
      lifetime, otherwise the claims are echoed back. */
  function Protected(token: Token, now: int): (r: ActionResult<Claims>)
    ensures r.Ok? <==> Accepts(token, now)
    ensures r.Ok? ==> r.value == token.claims
    ensures !r.Ok? ==> r == Unauthenticated
  {
    if Accepts(token, now) then Ok(token.claims) else Unauthenticated
  }

  /** A token issued at login for a user echoes that user's email and role
      for sixty minutes from its issue, and is refused outside that window. */
  lemma LoginTokenEchoesUser(u: User, issued: int, now: int)
    ensures Protected(Issue(Claims(u.email, u.role), issued), now)
        == if issued <= now <= issued + TokenLifetimeMinutes * SecondsPerMinute
           then Ok(Claims(u.email, u.role)) else Unauthenticated
  {
    IssuedTokenLifetime(Claims(u.email, u.role), issued, now);
  }

  class UsersController {
    /** The `Users` table, keyed by Id. */
    var users: map<int, User>
    /** The next value of the Id identity column. */
    var nextId: int
    /** The email-format rule the validators use. */
    const emailFormat: string -> bool

    /** Ids are keys, issued below `nextId` and never reused; the email
        index is unique; every row passed validation. */
    ghost predicate Valid()
      reads this
    {
      && 1 <= nextId
      && (forall id :: id in users ==> 1 <= id < nextId && users[id].id == id && StoredRow(users[id], emailFormat))
      && UniqueEmails(users)
    }

    constructor (emailFormat: string -> bool)
      ensures Valid()
      ensures users == map[] && nextId == 1 && this.emailFormat == emailFormat
    {
      users := map[];
      nextId := 1;
      this.emailFormat := emailFormat;
    }

    /** All users, projected to (Id, Email, Role): each stored row appears
        exactly once.  The table is scanned in key order. */
    method GetUsers() returns (views: seq<UserView>)
      requires Valid()
      ensures forall i :: 0 <= i < |views| ==> views[i].id in users && views[i] == View(users[views[i].id])
      ensures forall id :: id in users ==> View(users[id]) in views
      ensures forall i, j :: 0 <= i < j < |views| ==> views[i].id != views[j].id
    {
      views := [];
      for key := 1 to nextId
        invariant forall i :: 0 <= i < |views| ==>
          views[i].id in users && 1 <= views[i].id < key && views[i] == View(users[views[i].id])
        invariant forall id :: id in users && id < key ==> View(users[id]) in views
        invariant forall i, j :: 0 <= i < j < |views| ==> views[i].id < views[j].id
      {
        if key in users {
          views := views + [View(users[key])];
        }
      }
    }

    /** NotFound iff no row has this id; otherwise that row's projection. */
    function GetUserById(id: int): (r: ActionResult<UserView>)
      requires Valid()
      reads this
      ensures r.Ok? || r.NotFound?
      ensures r.NotFound? <==> id !in users
      ensures r.Ok? ==> r.value.id == id && r.value == View(users[id])
    {
      if id in users then Ok(View(users[id])) else NotFound
    }

    /** The row with exactly this email, if any.  The table is scanned in
        key order. */
    method FindByEmail(email: string) returns (found: Option<User>)
      requires Valid()
      ensures found.None? <==> !EmailTaken(users, email)
      ensures found.Some? ==> found.value.id in users && users[found.value.id] == found.value
      ensures found.Some? ==> found.value.email == email
    {
      for key := 1 to nextId
        invariant forall id :: id in users && id < key ==> users[id].email != email
      {
        if key in users && users[key].email == email {
          return Some(users[key]);
        }
      }
      return None;
    }

    /** Creates an account.  A request that fails validation is answered
        with the error list and changes nothing; otherwise one row is added
        under a fresh id, with the request's email and role and a hash of
        its password, and its projection is returned.  An email longer
        than the column is refused by the table. */
    method AddUser(create: CreateUserDto, salt: Salt) returns (r: ActionResult<UserView>)
      requires Valid()
      modifies this
      ensures Valid()
      ensures r.Ok? || r.ValidationProblem? || r.StoreRejected?
      ensures var errs := CreateUserValidator.Failures(create, old(users), emailFormat);
              r.ValidationProblem? <==> errs != [] && r == ValidationProblem(errs)
      ensures r.StoreRejected? <==>
                CreateUserValidator.Accepted(create, old(users), emailFormat) && |create.email.value| > MaxLength
      ensures !r.Ok? ==> users == old(users) && nextId == old(nextId)
      ensures r.Ok? ==>
                && CreateUserValidator.Accepted(create, old(users), emailFormat)
                && r.value.id == old(nextId) && r.value.id !in old(users)
                && users == old(users)[r.value.id := User(r.value.id, create.email.value,
                                                          Hash(create.password.value, salt), create.role.value)]
                && Verify(create.password.value, users[r.value.id].password)
                && r.value == View(users[r.value.id])
                && nextId == old(nextId) + 1
    {
      var errs := CreateUserValidator.Failures(create, users, emailFormat);
      if errs != [] {
        return ValidationProblem(errs);
      }
      var user := User(nextId, create.email.value, Hash(create.password.value, salt), create.role.value);
      if !FitsColumns(user) {
        return StoreRejected;
      }
      assert IsPasswordHash(user.password) by {
        assert |create.password.value| >= MinPasswordLength && user.password == Hash(create.password.value, salt);
      }
      InsertKeepsUnique(users, user);
      users := users[user.id := user];
      nextId := nextId + 1;
      r := Ok(View(user));
    }

    /** Partially updates an account.  Validation comes first, then the
        lookup; the row is edited by `ApplyUpdate`, and the table refuses
        the write when the new email is too long or belongs to another
        row.  Only that row can change. */
    method UpdateUser(update: UpdateUserDto, id: int, salt: Salt) returns (r: ActionResult<()>)
      requires Valid()
      modifies this
      ensures Valid() && nextId == old(nextId)
      ensures var errs := UpdateUserValidator.Failures(update, emailFormat);
              errs != [] ==> r == ValidationProblem(errs)
      ensures UpdateUserValidator.Failures(update, emailFormat) == [] && id !in old(users) ==> r == NotFound
      ensures UpdateUserValidator.Failures(update, emailFormat) == [] && id in old(users) ==>
                var edited := ApplyUpdate(old(users)[id], update, salt);
                if FitsColumns(edited) && !EmailTakenByOther(old(users), id, edited.email)
                then r == Ok(()) && users == old(users)[id := edited]
                else r == StoreRejected
      ensures !r.Ok? ==> users == old(users)
    {
      var errs := UpdateUserValidator.Failures(update, emailFormat);
      if errs != [] {
        return ValidationProblem(errs);
      }
      if id !in users {
        return NotFound;
      }
      var edited := ApplyUpdate(users[id], update, salt);
      if !FitsColumns(edited) || EmailTakenByOther(users, id, edited.email) {
        return StoreRejected;
      }
      if !IsNullOrEmpty(update.password) {
        assert IsPasswordHash(edited.password) by {
          assert |update.password.value| >= MinPasswordLength && edited.password == Hash(update.password.value, salt);
        }
      }
      ReplaceKeepsUnique(users, id, edited);
      users := users[id := edited];
      r := Ok(());
    }

    /** Deletes an account: NotFound iff the id is absent; afterwards the
        id is absent and every other row is unchanged. */
    method DeleteUser(id: int) returns (r: ActionResult<()>)
      requires Valid()
      modifies this
      ensures Valid() && nextId == old(nextId)
      ensures r.Ok? || r.NotFound?
      ensures r.NotFound? <==> id !in old(users)
      ensures users == old(users) - {id}
    {
      if id !in users {
        assert users - {id} == users;
        return NotFound;
      }
      users := users - {id};
      r := Ok(());
    }

    /** Logs in: an invalid request is answered with the error list, an
        unknown email with 401 "Invalid email", a wrong password with 400
        "Invalid password", and otherwise a token with the user's email and
        role that expires sixty minutes after `now`.  The table is only
        read. */
    method Login(login: LoginUserDto, now: int) returns (r: ActionResult<Token>)
      requires Valid()
      ensures var errs := LoginUserValidator.Failures(login, emailFormat);
              errs != [] ==> r == ValidationProblem(errs)
      ensures LoginUserValidator.Accepted(login, emailFormat) && !EmailTaken(users, login.email.value)
              ==> r == Unauthorized(InvalidEmailMessage)
      ensures forall id ::
                (id in users && LoginUserValidator.Accepted(login, emailFormat)
                 && users[id].email == login.email.value) ==>
                r == if Verify(login.password.value, users[id].password)
                     then Ok(Issue(Claims(users[id].email, users[id].role), now))
                     else BadRequestText(InvalidPasswordMessage)
    {
      var errs := LoginUserValidator.Failures(login, emailFormat);
      if errs != [] {
        return ValidationProblem(errs);
      }
      var found := FindByEmail(login.email.value);
      if found.None? {
        return Unauthorized(InvalidEmailMessage);
      }
      var user := found.value;
      if !Verify(login.password.value, user.password) {
        return BadRequestText(InvalidPasswordMessage);
      }
      r := Ok(Issue(Claims(user.email, user.role), now));
    }
  }
}
