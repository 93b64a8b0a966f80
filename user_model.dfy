/** Account creation (addNewUser of backend/src/models/user-model.ts) on the
    `users` table: a look-up by exact user name, then a bcrypt hash and an insert,
    inside a try/catch that turns every failure, the duplicate name included,
    into one 500 error. bcrypt is a function value of the table, applied to the
    password, the cost factor and the salt it would draw at random. */
module UserModel {
  import opened Wrappers
  import opened Errors
  import opened Schema

  const SaltRounds := 12

  /** What addNewUser returns: the user name alone. */
  datatype NewUser = NewUser(userName: string)

  /** The error every failure of addNewUser surfaces as. */
  const AddUserFailure := NewAppError("Error adding user", InternalServerError)

  /** A duplicate user name, or any other failure, reaches the client as a 500:
      the ValidationError the look-up throws never does. */
  lemma AddUserFailureAnswers500()
    ensures ErrorResponse(AddUserFailure) == Response(InternalServerError, ErrorBody("error", "Error adding user"))
    ensures Code(ErrorResponse(AddUserFailure).status) == 500
    ensures ErrorResponse(AddUserFailure) != ErrorResponse(ValidationError(Some("Username already exists")))
  {
  }

  class UserTable {
    var users: map<int, UserRow>
    var nextId: int
    const hash: (string, nat, string) -> string

    ghost predicate Valid()
      reads this
    {
      && nextId >= 1
      && (forall id :: id in users ==> 1 <= id < nextId)
      && UserNamesUnique(users)
    }

    constructor (hash: (string, nat, string) -> string)
      ensures Valid() && users == map[] && nextId == 1 && this.hash == hash
    {
      users := map[];
      nextId := 1;
      this.hash := hash;
    }

    /** `select().from(users).where(eq(users.userName, userName))` is non-empty. */
    predicate UserNameTaken(userName: string)
      reads this
    {
      exists id :: id in users && users[id].userName == userName
    }

    /** addNewUser. `salt` is the salt bcrypt draws, `now` the database's current
        timestamp, and `insertFails` whether the insert itself is refused. */
    method AddNewUser(userName: string, password: string, firstName: string, lastName: string,
                      salt: string, now: string, insertFails: bool)
      returns (r: Result<NewUser, Error>)
      requires Valid()
      modifies this
      ensures Valid()
      ensures old(UserNameTaken(userName)) || insertFails ==>
        r == Err(AddUserFailure) && users == old(users) && nextId == old(nextId)
      ensures !old(UserNameTaken(userName)) && !insertFails ==>
        && r == Ok(NewUser(userName))
        && users == old(users)[old(nextId) := NewUserRow(userName, hash(password, SaltRounds, salt), firstName, lastName, now)]
        && nextId == old(nextId) + 1
    {
      var thrown: Option<Error> := None;
      if UserNameTaken(userName) {
        thrown := Some(ValidationError(Some("Username already exists")));
      } else {
        var hashedPassword := hash(password, SaltRounds, salt);
        if insertFails {
          thrown := Some(NewAppError("insert refused", InternalServerError));
        } else {
          users := users[nextId := NewUserRow(userName, hashedPassword, firstName, lastName, now)];
          nextId := nextId + 1;
        }
      }
      if thrown.Some? {
        return Err(AddUserFailure);
      }
      return Ok(NewUser(userName));
    }
  }
}
