/** The `User` entity and the constraints that the database schema puts on
    the `Users` table: the primary key, the unique index on Email and the
    column widths. */
module Models {

  import opened Hashing

  /** Width of the Email, Password and Role columns. */
  const MaxLength: nat := 100

  /** The role a `User` gets when none is assigned. */
  const DefaultRole := "User"

  /** Minimum password length required by the validators. */
  const MinPasswordLength: nat := 5

  /** One row of the `Users` table; `password` holds a hash. */
  datatype User = User(id: int, email: string, password: string, role: string := DefaultRole)

  /** What every response shows of a user: never the password. */
  datatype UserView = UserView(id: int, email: string, role: string)

  function View(u: User): UserView
  {
    UserView(u.id, u.email, u.role)
  }

  /** The whole-string match of the pattern `Admin|User` declared on Role. */
  predicate IsRole(r: string)
  {
    r == "Admin" || r == "User"
  }

  /** The character-varying(100) columns the table enforces on write. */
  predicate FitsColumns(u: User)
  {
    |u.email| <= MaxLength && |u.role| <= MaxLength
  }

  /** Some stored user has exactly this email (case-sensitive). */
  predicate EmailTaken(users: map<int, User>, email: string)
  {
    exists id :: id in users && users[id].email == email
  }

  /** Some stored user other than `id` has exactly this email. */
  predicate EmailTakenByOther(users: map<int, User>, id: int, email: string)
  {
    exists other :: other in users && other != id && users[other].email == email
  }

  /** The unique index on Email. */
  predicate UniqueEmails(users: map<int, User>)
  {
    forall i, j :: i in users && j in users && users[i].email == users[j].email ==> i == j
  }

  /** A stored password is the hash of a password that passed the length
      rule, never a plaintext. */
  ghost predicate IsPasswordHash(h: string)
  {
    exists p: string, s: Salt :: |p| >= MinPasswordLength && h == Hash(p, s)
  }

  /** An entity built without a role has the default role. */
  lemma RoleDefaultsToUser(id: int, email: string, password: string)
    ensures User(id, email, password).role == DefaultRole
    ensures IsRole(User(id, email, password).role)
  {
  }

  /** Inserting a row under a new key keeps the index unique exactly when
      its email is not yet taken. */
  lemma InsertKeepsUnique(users: map<int, User>, u: User)
    requires UniqueEmails(users)
    requires u.id !in users
    ensures UniqueEmails(users[u.id := u]) <==> !EmailTaken(users, u.email)
  {
    var after := users[u.id := u];
    if EmailTaken(users, u.email) {
      var other :| other in users && users[other].email == u.email;
      assert after[other].email == after[u.id].email && other != u.id;
    }
  }

  /** Overwriting the row `id` keeps the index unique exactly when no other
      row has the new email. */
  lemma ReplaceKeepsUnique(users: map<int, User>, id: int, u: User)
    requires UniqueEmails(users)
    ensures UniqueEmails(users[id := u]) <==> !EmailTakenByOther(users, id, u.email)
  {
    var after := users[id := u];
    if EmailTakenByOther(users, id, u.email) {
      var other :| other in users && other != id && users[other].email == u.email;
      assert after[other].email == after[id].email;
    }
  }

  /** Under the unique index an email identifies at most one row. */
  lemma EmailIdentifiesOneUser(users: map<int, User>, i: int, j: int)
    requires UniqueEmails(users)
    requires i in users && j in users && users[i].email == users[j].email
    ensures i == j
  {
  }
}
