# LearningReport user accounts — a Dafny model

This project models the user-account part of the LearningReport web API:
the `Users` table, the three request validators (create, update, login)
and the controller actions that list, read, create, partially update and
delete accounts, log a user in and echo the claims of a presented token.

The table is an in-memory `map<int, User>` held by the class
`Controllers.UsersController`, together with the next value of the Id
identity column. The class invariant `Valid()` says that ids are the keys,
that they are issued below `nextId` and never reused, that the Email index
is unique, and that every stored row passed validation. This means a
non-empty email accepted by the email-format rule, the role "Admin" or
"User", columns within their widths, and a password that is the hash of a
password of at least five characters. Every mutating action keeps the
invariant. Its `ensures` give the answer and the whole new table in terms
of the old one.

External pieces are parameters or stand-ins:

- The email-format rule of the validation library is not part of this
  model. It is the parameter `emailFormat: string -> bool`, and every
  proof holds for any such rule.
- Password hashing is `Hashing.Hash(password, salt)`. The random salt is a
  parameter. `Hashing.Verify` accepts exactly the hashes of that password
  (`VerifyIffHashed`), and a hash never equals its plaintext.
- The clock is the parameter `now`, in seconds. A token is the record
  `(claims, notBefore, expires)`, with `notBefore` the issue time and
  `expires = notBefore + 60 * 60`. The bearer check of `Program.cs` becomes
  `Tokens.Accepts`: with zero clock skew the token is accepted while
  `notBefore <= now <= expires`.
- The database constraints that the table enforces on write are modelled
  at the write. These are the unique Email index and the 100-character
  width of Email and Role. A write that breaks one is answered
  `StoreRejected` and changes nothing.

Validation follows the library's rule semantics as the validators use
them. `NotEmpty` rejects null, the empty string and white space only.
`EmailAddress` and `MinimumLength` let null through. `Must` on a null role
fails. No cascade mode is set, so every failing check of a field is
reported, and every field is checked.

Behaviour of the code worth noting:

- The update validator skips a rule only when its field is null. An empty
  string is validated: an empty password or role is rejected. The
  controller's own "null or empty" test therefore only ever skips null for
  those two fields (`UpdateUserValidator.AcceptedFieldsNotEmpty`,
  `Controllers.ValidUpdateSkipsOnlyNull`).
- The two login failures have different outcomes: an unknown email is a
  401 with "Invalid email", a wrong password a 400 with "Invalid password".
- Role is a string that validation restricts to "Admin" or "User", not a
  closed enumeration.
- Updating the email to one another user already has passes validation,
  because there is no uniqueness check on update. The unique index then
  refuses the write (`StoreRejected`).

## Model

| member | source | states |
|---|---|---|
| `Hashing.Hash` | LearningReport/Controllers/UsersController.cs:56 | the stored hash verifies against the password it was made from and never equals that plaintext |
| `Hashing.VerifyIffHashed` | LearningReport/Controllers/UsersController.cs:120 | password verification succeeds exactly on the hashes of that password under some salt; a malformed hash just fails |
| `Hashing.VerifyOnlyOwnPassword` | LearningReport/Controllers/UsersController.cs:120 | a hash verifies no password other than its own |
| `Hashing.SaltedHashesDiffer` | LearningReport/Controllers/UsersController.cs:56 | hashing one password with two salts gives two different hashes |
| `Models.RoleDefaultsToUser` | LearningReport/Models/User.cs:19 | a user built without a role has the role "User", which is a permitted role |
| `Models.InsertKeepsUnique` | LearningReport/Models/User.cs:6 | inserting a row under a new key keeps the Email index unique exactly when the email is not yet stored |
| `Models.ReplaceKeepsUnique` | LearningReport/Models/User.cs:6 | overwriting a row keeps the Email index unique exactly when no other row has the new email |
| `Models.EmailIdentifiesOneUser` | LearningReport/Models/User.cs:6 | under the unique index two rows with the same email are the same row |
| `Tokens.Issue` | LearningReport/Controllers/UsersController.cs:125-141 | an issued token carries the given claims, is valid from its issue time and expires sixty minutes after it |
| `Tokens.IssuedTokenLifetime` | LearningReport/Program.cs:54-57 | with zero clock skew a fresh token is accepted from its issue time up to sixty minutes after it, and refused before and after |
| `CreateUserValidator.EmailFailures` | LearningReport/Users/Validators/CreateUserValidator.cs:12-17 | the email rule passes iff the email is non-null, not blank, satisfies the format rule and no stored user has exactly that email |
| `ValidationRules.RequiredPasswordFailures` | LearningReport/Users/Validators/CreateUserValidator.cs:19-21 | the password rule passes iff the password is non-null, not blank and at least five characters long; the login validator applies the same rule (LoginUserValidator.cs lines 16-18) |
| `CreateUserValidator.RoleFailures` | LearningReport/Users/Validators/CreateUserValidator.cs:23-26 | the role rule passes iff the role is exactly "Admin" or "User" |
| `CreateUserValidator.Failures` | LearningReport/Users/Validators/CreateUserValidator.cs:12-26 | a create request is valid (no failures) iff all three field rules pass; the store is only read |
| `CreateUserValidator.FailingFieldsReported` | LearningReport/Users/Validators/CreateUserValidator.cs:12-26 | each field is reported iff its own rule fails, whatever the other fields hold, so failures of several fields are all reported |
| `CreateUserValidator.TakenEmailMessage` | LearningReport/Users/Validators/CreateUserValidator.cs:15-17 | an email already stored is reported with "User with that email address is not null" |
| `CreateUserValidator.BadRoleMessage` | LearningReport/Users/Validators/CreateUserValidator.cs:23-26 | a role other than "Admin" or "User" is reported with "Choose: Admin or User" |
| `UpdateUserValidator.Failures` | LearningReport/Users/Validators/UpdateUserValidator.cs:10-17 | an update is valid iff each supplied (non-null) field passes its check: format for Email, length at least five for Password, "Admin" or "User" for Role |
| `UpdateUserValidator.AllNullAccepted` | LearningReport/Users/Validators/UpdateUserValidator.cs:10-17 | a request with every field null is valid |
| `UpdateUserValidator.AcceptedFieldsNotEmpty` | LearningReport/Users/Validators/UpdateUserValidator.cs:13-17 | in a valid update a supplied password or role is never empty, and a supplied email is not empty when the format rule rejects "" |
| `UpdateUserValidator.FailingFieldsReported` | LearningReport/Users/Validators/UpdateUserValidator.cs:10-17 | a field is reported iff it is non-null and fails its check |
| `LoginUserValidator.EmailFailures` | LearningReport/Users/Validators/LoginUserValidator.cs:12-14 | the login email rule passes iff the email is non-null, not blank and satisfies the format rule |
| `LoginUserValidator.FailingFieldsReported` | LearningReport/Users/Validators/LoginUserValidator.cs:12-18 | each of Email and Password is reported iff its own rule fails, whatever the other field holds |
| `LoginUserValidator.Failures` | LearningReport/Users/Validators/LoginUserValidator.cs:10-19 | a login request is valid iff both rules pass; no failure is ever about a role, and the store is not consulted |
| `Controllers.ValidUpdateSkipsOnlyNull` | LearningReport/Controllers/UsersController.cs:82-87 | after validation, Password and Role are overwritten exactly when supplied (a new password is stored hashed), Email whenever supplied provided the format rule rejects ""; the id never changes |
| `Controllers.EmptyUpdateKeepsRow` | LearningReport/Controllers/UsersController.cs:82-87 | an update supplying no field leaves the row unchanged |
| `Controllers.PasswordOnlyUpdate` | LearningReport/Controllers/UsersController.cs:84-85 | updating only the password re-hashes it and keeps email and role |
| `Controllers.Protected` | LearningReport/Controllers/UsersController.cs:149-156 | the claims of a token within its lifetime are echoed back; any other token is refused as unauthenticated |
| `Controllers.LoginTokenEchoesUser` | LearningReport/Controllers/UsersController.cs:125-141 | the token issued at login echoes the user's email and role from its issue time for sixty minutes, and is refused outside that window |
| `Controllers.UsersController.GetUsers` | LearningReport/Controllers/UsersController.cs:26-32 | the list holds the (Id, Email, Role) projection of every stored row, each exactly once, and nothing else |
| `Controllers.UsersController.GetUserById` | LearningReport/Controllers/UsersController.cs:35-41 | NotFound iff no row has that id, otherwise that row's projection |
| `Controllers.UsersController.FindByEmail` | LearningReport/Controllers/UsersController.cs:114 | finds the stored row with exactly that email, and finds nothing iff there is none |
| `Controllers.UsersController.AddUser` | LearningReport/Controllers/UsersController.cs:44-65 | invalid request: the error list, table unchanged; otherwise exactly one new row under a fresh id with the request's email and role and a hash that verifies the password, its projection returned, every other row unchanged; an over-long email is refused by the table |
| `Controllers.UsersController.UpdateUser` | LearningReport/Controllers/UsersController.cs:68-92 | validation before lookup (an invalid request for a missing id is a BadRequest); NotFound iff valid and the id is absent; otherwise only that row changes, to `ApplyUpdate` of it, unless the unique index or a column width refuses the write |
| `Controllers.UsersController.DeleteUser` | LearningReport/Controllers/UsersController.cs:95-103 | NotFound iff the id is absent; the table afterwards is the old table without that id |
| `Controllers.UsersController.Login` | LearningReport/Controllers/UsersController.cs:106-147 | invalid request: error list; no user with exactly that email: 401 "Invalid email"; wrong password: 400 "Invalid password"; otherwise a token with the user's email and role expiring sixty minutes after now; the table is only read |
| `Scenarios.DeleteTwice` | LearningReport/Controllers/UsersController.cs:95-103 | deleting the same id twice answers NotFound the second time |
| `Scenarios.CreateTwice` | LearningReport/Controllers/UsersController.cs:44-65 | after a successful create, a second create with the same email is refused with the email-taken failure and adds nothing |
| `Scenarios.EmptyUpdate` | LearningReport/Controllers/UsersController.cs:68-92 | an all-null update of an existing id succeeds and changes nothing |
| `Scenarios.ChangePassword` | LearningReport/Controllers/UsersController.cs:82-91 | a password-only update of an existing user succeeds, re-hashes the password, keeps email and role and every other row |
| `Scenarios.SignUpAndLogIn` | LearningReport/Controllers/UsersController.cs:44-156 | creating a@b.com / secret / User on an empty table gives id 1; logging in gives a token that the protected endpoint echoes as (a@b.com, User) |

## Left out

- HTTP: routing, status-code plumbing and the `CreatedAtAction` location header. Only the outcome of each action is kept, as `ActionResult`.
- The Entity Framework context is replaced by the map. Asynchronous calls, change tracking, query translation and concurrent requests are not modelled; the model is sequential. A race between two creates with the same email would be caught by the unique index, which the model states as the table invariant.
- A write that breaks a table constraint raises an exception that surfaces as a server error. The model answers `StoreRejected` and leaves the table as it was.
- The Id column is a 32-bit identity. Overflow, and sequence values used up by failed inserts, are not modelled; ids are never reused.
- BCrypt is a stand-in. Its cost factor, its one-wayness and its truncation of passwords longer than 72 bytes are not modelled. The stand-in hash embeds the password; only the `Hash`/`Verify` contract is used by the rest of the model.
- Hashing.Verify: returns false on a malformed hash, where `BCrypt.Verify` raises an exception. The case cannot arise in the model, because `Valid()` makes every stored password a hash (`IsPasswordHash`).
- The Password column width is not checked at the write. A real BCrypt hash is always 60 characters, which the stand-in hash is not.
- `EmailAddress`: the library's format rule is not part of this model; it is the `emailFormat` parameter.
- The library's default error message texts are not modelled. A failure records its field and check, plus the custom message where the validator sets one.
- `MinimumLength` counts UTF-16 code units; the model counts Unicode scalar values. They differ only for characters outside the Basic Multilingual Plane.
- JWT creation, signing with the symmetric key, signature and issuer checks are not modelled. So are the encoding of the expiry in whole seconds and the startup failure when the key or the connection string is missing.
- Models.RoleDefaultsToUser: the default is never observable through the controller, because `AddUser` always assigns the validated role.
- Controllers.UsersController.GetUsers: no order is stated, because the query has no ordering clause. The model scans in key order.
