/** Sequences of controller calls and what the contracts of the single
    calls guarantee about them. */
module Scenarios {

  import opened Wrappers
  import opened Models
  import opened Dtos
  import opened ValidationRules
  import opened Hashing
  import opened Tokens
  import opened Controllers
  import CreateUserValidator
  import LoginUserValidator

  /** Deleting the same id twice: the second call always answers NotFound. */
  method DeleteTwice(c: UsersController, id: int) returns (first: ActionResult<()>, second: ActionResult<()>)
    requires c.Valid()
    modifies c
    ensures c.Valid()
    ensures first.Ok? <==> id in old(c.users)
    ensures second == NotFound
    ensures c.users == old(c.users) - {id}
  {
    first := c.DeleteUser(id);
    second := c.DeleteUser(id);
  }

  /** Two creates with the same email: once the first succeeds, the second
      is refused with the email-taken failure and adds nothing. */
  method CreateTwice(c: UsersController, first: CreateUserDto, second: CreateUserDto, s1: Salt, s2: Salt)
    returns (r1: ActionResult<UserView>, r2: ActionResult<UserView>)
    requires c.Valid()
    requires second.email == first.email
    modifies c
    ensures c.Valid()
    ensures r1.Ok? ==> r2.ValidationProblem?
    ensures r1.Ok? ==> Failure(Email, EmailNotTaken, Some(CreateUserValidator.EmailTakenMessage)) in r2.errors
    ensures r1.Ok? ==> c.users.Keys == old(c.users).Keys + {r1.value.id}
  {
    r1 := c.AddUser(first, s1);
    ghost var afterFirst := c.users;
    r2 := c.AddUser(second, s2);
    if r1.Ok? {
      assert afterFirst[r1.value.id].email == first.email.value;
      CreateUserValidator.TakenEmailMessage(second, afterFirst, c.emailFormat);
    }
  }

  /** An update of nothing succeeds on an existing id and changes nothing. */
  method EmptyUpdate(c: UsersController, id: int, salt: Salt) returns (r: ActionResult<()>)
    requires c.Valid()
    modifies c
    ensures c.Valid()
    ensures r == (if id in old(c.users) then Ok(()) else NotFound)
    ensures c.users == old(c.users)
  {
    ghost var before := c.users;
    if id in before {
      EmptyUpdateKeepsRow(before[id], salt);
      assert !EmailTakenByOther(before, id, before[id].email);
      assert before[id := before[id]] == before;
    }
    r := c.UpdateUser(UpdateUserDto(None, None, None), id, salt);
  }

  /** Changing only the password of an existing user succeeds, re-hashes
      the password and keeps the email and the role. */
  method ChangePassword(c: UsersController, id: int, password: string, salt: Salt) returns (r: ActionResult<()>)
    requires c.Valid()
    requires id in c.users
    requires |password| >= MinPasswordLength
    modifies c
    ensures c.Valid()
    ensures r == Ok(())
    ensures id in c.users && Verify(password, c.users[id].password)
    ensures c.users[id].email == old(c.users[id].email) && c.users[id].role == old(c.users[id].role)
    ensures forall other :: other in old(c.users) && other != id ==> other in c.users && c.users[other] == old(c.users[other])
  {
    ghost var before := c.users;
    PasswordOnlyUpdate(before[id], password, salt);
    assert !EmailTakenByOther(before, id, before[id].email);
    r := c.UpdateUser(UpdateUserDto(None, Some(password), None), id, salt);
  }

  /** Sign up, log in, and call the protected endpoint with the token. */
  method SignUpAndLogIn(format: string -> bool, salt: Salt, now: int)
    returns (created: ActionResult<UserView>, login: ActionResult<Token>, whoAmI: ActionResult<Claims>)
    requires format("a@b.com")
    ensures created == Ok(UserView(1, "a@b.com", "User"))
    ensures login.Ok? && login.value.expires == now + TokenLifetimeMinutes * SecondsPerMinute
    ensures whoAmI == Ok(Claims("a@b.com", "User"))
  {
    var c := new UsersController(format);
    var create := CreateUserDto(Some("a@b.com"), Some("secret"), Some("User"));
    assert CreateUserValidator.Accepted(create, map[], format) by {
      assert !IsWhiteSpace("a@b.com"[0]) && !IsWhiteSpace("secret"[0]) && IsRole("User");
    }
    created := c.AddUser(create, salt);
    assert created.Ok?;
    var stored := User(1, "a@b.com", Hash("secret", salt), "User");
    assert c.users == map[1 := stored];
    var credentials := LoginUserDto(Some("a@b.com"), Some("secret"));
    assert LoginUserValidator.Accepted(credentials, format) by {
      assert !IsWhiteSpace("a@b.com"[0]) && !IsWhiteSpace("secret"[0]);
    }
    login := c.Login(credentials, now);
    assert login == Ok(Issue(Claims("a@b.com", "User"), now));
    whoAmI := Protected(login.value, now);
  }
}
