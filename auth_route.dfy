/** The registration handler of auth_route.js as a method on the database object: the lookup, then
    the save, which the database may refuse. Login only reads, and is the function AuthSpec.Login. */
module AuthRoute {
  import opened Common
  import opened Store
  import opened Crypto
  import opened UserModel
  import AuthSpec
  import AuthLaws

  /** POST /api/auth/register; `salt` is the random salt bcryptjs draws. */
  method Register(db: Database, body: Body, salt: nat, now: nat) returns (status: Status)
    requires db.Valid()
    modifies db
    ensures db.Valid()
    ensures Transition(status, db.Snapshot()) == AuthSpec.Register(old(db.Snapshot()), body, salt, now)
  {
    AuthLaws.RegisterKeepsInvariant(db.Snapshot(), body, salt, now);
    status := RegisterChecked(db, body, salt, now);
  }

  /** The checks and writes of Register, in the handler's order. */
  method RegisterChecked(db: Database, body: Body, salt: nat, now: nat) returns (status: Status)
    modifies db
    ensures Transition(status, db.Snapshot()) == AuthSpec.Register(old(db.Snapshot()), body, salt, now)
  {
    if !Truthy(Field(body, "fullName")) || !Truthy(Field(body, "userName"))
      || !Truthy(Field(body, "password")) || !Truthy(Field(body, "email")) {
      return BadRequest(MissingField);
    }
    var email, userName := body["email"], body["userName"];
    var userInDb := AuthSpec.FindOne(db.users, email, userName, 0, db.nextId);
    if userInDb.Some? {
      if db.users[userInDb.value].email == email {
        return BadRequest(EmailTaken);
      }
      return BadRequest(UserNameTaken);
    }
    var hashed := Hash(body["password"], salt);
    var id := db.InsertUser(NewUser(body["fullName"], email, userName, hashed, now));
    if id.None? {
      return InternalError;
    }
    return Created;
  }
}
