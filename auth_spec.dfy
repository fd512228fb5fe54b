/** The handlers of auth_route.js. Registration changes the users collection; login only reads it. */
module AuthSpec {
  import opened Common
  import opened UserModel
  import opened Store
  import opened Crypto
  import opened Text

  /** The `$or` filter `[{ email: e }, { userName: n }]` as Mongoose casts it before the query:
      the schema's `trim` setter runs on the userName condition, and email has no setter. */
  predicate Matches(u: User, e: string, n: string)
  {
    u.email == e || u.userName == Trim(n)
  }

  /** The two unique indexes of the schema. */
  datatype Index = EmailIndex | UserNameIndex

  /** The value of user `u` under index `ix`. */
  function Key(u: User, ix: Index): string
  {
    match ix
    case EmailIndex => u.email
    case UserNameIndex => u.userName
  }

  /** An index scan for the key `x` over the ids in [from, bound): the first user holding `x`. */
  function Scan(users: map<UserId, User>, ix: Index, x: string, from: nat, bound: nat): (r: Option<UserId>)
    requires from <= bound
    ensures r.Some? ==> from <= r.value < bound && r.value in users && Key(users[r.value], ix) == x
    ensures r.Some? ==> forall k :: from <= k < r.value && k in users ==> Key(users[k], ix) != x
    ensures r.None? ==> forall k :: from <= k < bound && k in users ==> Key(users[k], ix) != x
    decreases bound - from
  {
    if from == bound then None
    else if from in users && Key(users[from], ix) == x then Some(from)
    else Scan(users, ix, x, from + 1, bound)
  }

  /** `findOne` with that filter, over the ids in [from, bound). Both conditions are on uniquely
      indexed fields, so MongoDB answers the `$or` with one index scan per condition, in the order
      written, and `findOne` takes the first document: a user holding the email is found before a
      user holding the trimmed userName. */
  function FindOne(users: map<UserId, User>, e: string, n: string, from: nat, bound: nat): (r: Option<UserId>)
    requires from <= bound
    ensures r.Some? ==> from <= r.value < bound && r.value in users && Matches(users[r.value], e, n)
    ensures r.Some? && users[r.value].email != e ==>
      forall k :: from <= k < bound && k in users ==> users[k].email != e
    ensures r.None? <==> forall k :: from <= k < bound && k in users ==> !Matches(users[k], e, n)
  {
    match Scan(users, EmailIndex, e, from, bound)
    case Some(k) => Some(k)
    case None => Scan(users, UserNameIndex, Trim(n), from, bound)
  }

  /** All four mandatory register fields are truthy. */
  predicate RegisterFieldsPresent(body: Body)
  {
    Truthy(Field(body, "fullName")) && Truthy(Field(body, "userName"))
    && Truthy(Field(body, "password")) && Truthy(Field(body, "email"))
  }

  /** Some stored user has the request's email, or its userName once trimmed. */
  predicate LoginTaken(s: State, body: Body)
    requires RegisterFieldsPresent(body)
  {
    exists k :: k in s.users && k < s.nextId && Matches(s.users[k], body["email"], body["userName"])
  }

  /** The user `new UserModel({ fullName, userName, password: hash, email })` builds. */
  function Candidate(body: Body, salt: nat, now: nat): User
    requires RegisterFieldsPresent(body)
  {
    NewUser(body["fullName"], body["email"], body["userName"], Hash(body["password"], salt), now)
  }

  /** POST /api/auth/register. 400 for a missing field; 400 when `findOne` matches a user, with the
      email message exactly when that user's email is the request's; then the save, which fails
      (500) when validation or a unique index rejects the new user; otherwise 201. `salt`
      stands for the random salt of bcryptjs.hash. */
  function Register(s: State, body: Body, salt: nat, now: nat): (r: Transition)
    ensures r.status == BadRequest(MissingField) <==> !RegisterFieldsPresent(body)
    ensures r.status == BadRequest(EmailTaken) || r.status == BadRequest(UserNameTaken) <==>
      RegisterFieldsPresent(body) && LoginTaken(s, body)
    ensures r.status == BadRequest(EmailTaken) ==>
      exists k :: k in s.users && s.users[k].email == body["email"]
    ensures r.status == BadRequest(UserNameTaken) ==>
      && (exists k :: k in s.users && s.users[k].userName == Trim(body["userName"]))
      && forall k :: k in s.users && k < s.nextId ==> s.users[k].email != body["email"]
    ensures r.status == InternalError <==>
      RegisterFieldsPresent(body) && !LoginTaken(s, body) && !Insertable(s.users, Candidate(body, salt, now))
    ensures r.status == Created <==>
      RegisterFieldsPresent(body) && !LoginTaken(s, body) && Insertable(s.users, Candidate(body, salt, now))
    ensures r.status != Created ==> r.post == s
    ensures r.status == Created ==>
      r.post == s.(users := s.users[s.nextId := Candidate(body, salt, now)], nextId := s.nextId + 1)
  {
    if !RegisterFieldsPresent(body) then Transition(BadRequest(MissingField), s)
    else
      var email, userName := body["email"], body["userName"];
      match FindOne(s.users, email, userName, 0, s.nextId)
      case Some(k) =>
        if s.users[k].email == email then Transition(BadRequest(EmailTaken), s)
        else Transition(BadRequest(UserNameTaken), s)
      case None =>
        var u := Candidate(body, salt, now);
        if !Insertable(s.users, u) then Transition(InternalError, s)
        else Transition(Created, s.(users := s.users[s.nextId := u], nextId := s.nextId + 1))
  }

  /** What a successful login sends: the signed token and the user without the password. */
  datatype Session = Session(token: Token, user: PublicUser)

  /** POST /api/auth/login. 400 for a missing field; the single input is matched against email, and
      trimmed against userName; the user `FindOne` picks is the one checked, and an unknown user
      and a wrong password get the same 401. */
  function Login(s: State, body: Body): (r: Response<Session>)
    ensures r.status == BadRequest(MissingField) <==>
      !Truthy(Field(body, "emailOruserName")) || !Truthy(Field(body, "password"))
    ensures r.status == Ok || r.status == Unauthorized || r.status == BadRequest(MissingField)
    ensures r.status != Ok ==> r.payload.None?
    ensures r.status == Ok ==>
      && r.payload.Some?
      && var id := r.payload.value.token.subject;
      && id in s.users && id < s.nextId
      && Matches(s.users[id], body["emailOruserName"], body["emailOruserName"])
      && Compare(body["password"], s.users[id].password)
      && r.payload.value.user == Public(id, s.users[id])
      && FindOne(s.users, body["emailOruserName"], body["emailOruserName"], 0, s.nextId) == Some(id)
      && (s.users[id].email != body["emailOruserName"] ==>
            forall k :: k in s.users && k < s.nextId ==> s.users[k].email != body["emailOruserName"])
    ensures Truthy(Field(body, "emailOruserName")) && Truthy(Field(body, "password")) ==>
      (r.status == Unauthorized <==>
        match FindOne(s.users, body["emailOruserName"], body["emailOruserName"], 0, s.nextId)
        case None => true
        case Some(id) => !Compare(body["password"], s.users[id].password))
  {
    if !Truthy(Field(body, "emailOruserName")) || !Truthy(Field(body, "password")) then
      Response(BadRequest(MissingField), None)
    else
      var x := body["emailOruserName"];
      match FindOne(s.users, x, x, 0, s.nextId)
      case None => Response(Unauthorized, None)
      case Some(id) =>
        if !Compare(body["password"], s.users[id].password) then Response(Unauthorized, None)
        else Response(Ok, Some(Session(Sign(id), Public(id, s.users[id]))))
  }
}
