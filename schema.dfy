/** The table declarations of backend/src/db/schema.ts: the rows of `users` and
    `passwords`, their declared column lengths, the unique user name, the foreign
    key from a credential to its owner with cascading delete, and the timestamp
    defaults. The two tables are kept as maps from primary key to row. */
module Schema {
  import opened Wrappers
  import UserValidation

  /** A `users` row. Every column is not-null, so none is optional. */
  datatype UserRow = UserRow(
    userName: string,
    password: string,
    firstName: string,
    lastName: string,
    createdAt: string)

  /** A `passwords` row; only `image` is nullable. */
  datatype PasswordRow = PasswordRow(
    name: string,
    password: string,
    image: Option<string>,
    userId: int,
    createdAt: string,
    updatedAt: string)

  datatype Tables = Tables(users: map<int, UserRow>, passwords: map<int, PasswordRow>)

  /** The declared `length` of each text column. SQLite treats it as documentation
      only; DeclaredLengthsAreNotEnforced and CreatedUserRowWithinLengths say what
      does and does not keep rows within it. */
  predicate UserRowWithinLengths(u: UserRow) {
    |u.userName| <= 50 && |u.password| <= 256 && |u.firstName| <= 50 && |u.lastName| <= 50
  }

  predicate PasswordRowWithinLengths(p: PasswordRow) {
    |p.name| <= 100 && |p.password| <= 256 && (p.image.Some? ==> |p.image.value| <= 256)
  }

  /** `users.username` is unique. */
  predicate UserNamesUnique(users: map<int, UserRow>) {
    forall i, j :: i in users && j in users && users[i].userName == users[j].userName ==> i == j
  }

  /** `passwords.user_id` references `users.id`. */
  predicate OwnersExist(t: Tables) {
    forall p :: p in t.passwords ==> t.passwords[p].userId in t.users
  }

  predicate Consistent(t: Tables) {
    UserNamesUnique(t.users) && OwnersExist(t)
  }

  /** An inserted user row; `created_at` defaults to the current timestamp. */
  function NewUserRow(userName: string, password: string, firstName: string, lastName: string, now: string): (u: UserRow)
    ensures u.createdAt == now
  {
    UserRow(userName, password, firstName, lastName, now)
  }

  /** An inserted credential row; both timestamps default to the current timestamp. */
  function NewPasswordRow(name: string, password: string, image: Option<string>, userId: int, now: string): (p: PasswordRow)
    ensures p.createdAt == now && p.updatedAt == now
  {
    PasswordRow(name, password, image, userId, now, now)
  }

  datatype Violation = PrimaryKeyTaken | UserNameTaken | OwnerMissing

  /** An INSERT into `users`, refused by the primary key or the unique user name. */
  function InsertUser(t: Tables, id: int, row: UserRow): (r: Result<Tables, Violation>)
    ensures r.Ok? ==> r.value == Tables(t.users[id := row], t.passwords)
  {
    if id in t.users then Err(PrimaryKeyTaken)
    else if exists j :: j in t.users && t.users[j].userName == row.userName then Err(UserNameTaken)
    else Ok(Tables(t.users[id := row], t.passwords))
  }

  /** An INSERT into `passwords`, refused by the primary key or the foreign key.
      Nothing refuses a second credential of the same owner with the same name. */
  function InsertPassword(t: Tables, id: int, row: PasswordRow): (r: Result<Tables, Violation>)
    ensures r.Ok? ==> r.value == Tables(t.users, t.passwords[id := row])
  {
    if id in t.passwords then Err(PrimaryKeyTaken)
    else if row.userId !in t.users then Err(OwnerMissing)
    else Ok(Tables(t.users, t.passwords[id := row]))
  }

  /** A DELETE from `users`, with `onDelete: "cascade"` removing the user's credentials. */
  function DeleteUser(t: Tables, id: int): Tables {
    Tables(t.users - {id}, map p | p in t.passwords && t.passwords[p].userId != id :: t.passwords[p])
  }

  /** An insert the constraints admit keeps them; a duplicate user name is refused. */
  lemma InsertUserKeepsConsistency(t: Tables, id: int, row: UserRow)
    requires Consistent(t)
    ensures InsertUser(t, id, row).Ok? ==> Consistent(InsertUser(t, id, row).value)
    ensures (exists j :: j in t.users && t.users[j].userName == row.userName) ==> InsertUser(t, id, row).Err?
  {
  }

  lemma InsertPasswordKeepsConsistency(t: Tables, id: int, row: PasswordRow)
    requires Consistent(t)
    ensures InsertPassword(t, id, row).Ok? ==> Consistent(InsertPassword(t, id, row).value)
    ensures InsertPassword(t, id, row).Ok? <==> id !in t.passwords && row.userId in t.users
  {
  }

  /** Credential names are not declared unique: the same owner may hold two rows
      with one name (the per-owner check lives in the handlers). */
  lemma SameNameTwiceIsAdmitted(t: Tables, id1: int, id2: int, row: PasswordRow)
    requires Consistent(t) && row.userId in t.users
    requires id1 != id2 && id1 !in t.passwords && id2 !in t.passwords
    ensures var first := InsertPassword(t, id1, row);
      first.Ok? && InsertPassword(first.value, id2, row).Ok?
  {
  }

  /** Deleting a user removes exactly that user's credentials and keeps every
      remaining credential's owner present. */
  lemma DeleteUserCascades(t: Tables, id: int)
    requires Consistent(t)
    ensures var t' := DeleteUser(t, id);
      && Consistent(t')
      && id !in t'.users
      && (forall p :: p in t'.passwords ==> t'.passwords[p].userId != id)
      && (forall p :: p in t.passwords && t.passwords[p].userId != id ==> p in t'.passwords && t'.passwords[p] == t.passwords[p])
  {
  }

  /** An over-long credential row is admitted: no declared text length is checked
      on insert. */
  lemma DeclaredLengthsAreNotEnforced(t: Tables, id: int, row: PasswordRow)
    requires id !in t.passwords && row.userId in t.users
    requires !PasswordRowWithinLengths(row)
    ensures InsertPassword(t, id, row).Ok? && !PasswordRowWithinLengths(InsertPassword(t, id, row).value.passwords[id])
  {
  }

  /** The bounds of createUserSchema keep the user name and the two names within
      their columns, so a row built from an accepted body fits as long as the
      stored password hash does. */
  lemma CreatedUserRowWithinLengths(b: UserValidation.Body, hashed: string, now: string)
    requires UserValidation.CreateUserAccepts(b) && |hashed| <= 256
    ensures UserRowWithinLengths(NewUserRow(b["userName"], hashed, b["firstName"], b["lastName"], now))
  {
  }
}
