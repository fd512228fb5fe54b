/** What registration and login promise: registration keeps the store invariant, refuses a second
    registration of the same person, looks a userName up trimmed as it stores it, and a registered
    user can log in with exactly the password given; login does not tell an unknown user from a
    wrong password. */
module AuthLaws {
  import opened Common
  import opened Text
  import opened UserModel
  import opened Store
  import opened Crypto
  import opened AuthSpec

  /** Adding a user with no follow edges to a graph that does not know its id keeps the graph. */
  lemma AddLonelyUserGraph(users: map<UserId, User>, id: UserId, u: User)
    requires FollowGraph(users) && id !in users
    requires u.followers == [] && u.following == []
    ensures FollowGraph(users[id := u])
  {
    var users' := users[id := u];
    forall a, b | a in users' && b in users'
      ensures a in users'[b].followers <==> b in users'[a].following
    {
      if a != id && b != id {
        assert users'[a] == users[a] && users'[b] == users[b];
      } else if a == id && b != id {
        assert users'[b] == users[b];
        assert a !in users[b].followers;
      } else if a != id && b == id {
        assert users'[a] == users[a];
        assert b !in users[a].following;
      }
    }
  }

  /** The user-side conjuncts after a user the unique indexes accept, with no follow edges, is
      stored under a fresh id. */
  lemma AddUserUsers(users: map<UserId, User>, id: UserId, u: User)
    requires UniqueLogins(users) && StoredUsers(users) && FollowGraph(users) && id !in users
    requires Insertable(users, u) && StoredUser(u) && u.followers == [] && u.following == []
    ensures var users' := users[id := u];
      UniqueLogins(users') && StoredUsers(users') && FollowGraph(users')
  {
    AddLonelyUserGraph(users, id, u);
  }

  /** The invariant of a store whose users and counter were replaced, the tweets kept. */
  lemma WithUsers(s: State, users: map<UserId, User>, bound: nat)
    requires Invariant(s) && s.nextId <= bound
    requires forall id :: id in users ==> id < bound
    requires UniqueLogins(users) && StoredUsers(users) && FollowGraph(users)
    ensures Invariant(s.(users := users, nextId := bound))
  {
  }

  /** Registration keeps the store invariant. */
  lemma RegisterKeepsInvariant(s: State, body: Body, salt: nat, now: nat)
    requires Invariant(s)
    ensures Invariant(Register(s, body, salt, now).post)
  {
    if Register(s, body, salt, now).status == Created {
      RegisterCreatedUsers(s, body, salt, now);
      WithUsers(s, Register(s, body, salt, now).post.users, s.nextId + 1);
    }
  }

  /** The user-side conjuncts after a successful registration. */
  lemma RegisterCreatedUsers(s: State, body: Body, salt: nat, now: nat)
    requires UniqueLogins(s.users) && StoredUsers(s.users) && FollowGraph(s.users)
    requires forall id :: id in s.users ==> id < s.nextId
    requires Register(s, body, salt, now).status == Created
    ensures var post := Register(s, body, salt, now).post;
      && UniqueLogins(post.users) && StoredUsers(post.users) && FollowGraph(post.users)
      && (forall id :: id in post.users ==> id < s.nextId + 1)
      && post == s.(users := post.users, nextId := s.nextId + 1)
  {
    var u := Candidate(body, salt, now);
    var post := Register(s, body, salt, now).post;
    assert Insertable(s.users, u) && post.users == s.users[s.nextId := u];
    TrimIdempotent(body["userName"]);
    assert StoredUser(u);
    assert s.nextId !in s.users;
    AddUserUsers(s.users, s.nextId, u);
  }

  /** The stored user holds the fields as sent, except that userName is trimmed, a digest of the
      password that accepts exactly that password, and the schema defaults for the rest. */
  lemma RegisteredUserShape(s: State, body: Body, salt: nat, now: nat)
    requires Register(s, body, salt, now).status == Created
    ensures var u := Register(s, body, salt, now).post.users[s.nextId];
      && u.fullName == body["fullName"] && u.email == body["email"]
      && u.userName == Trim(body["userName"])
      && (forall p :: Compare(p, u.password) <==> p == body["password"])
      && u.profileImg == DefaultProfileImg && u.location == DefaultLocation && u.dateOfBirth.None?
      && u.followers == [] && u.following == [] && u.createdAt == now
  {
  }

  /** Registering the same person again after a successful registration is refused as an email
      already registered, and nothing is written. */
  lemma RegisterTwiceRefused(s: State, body: Body, salt: nat, now: nat, salt2: nat, now2: nat)
    requires Register(s, body, salt, now).status == Created
    ensures var s1 := Register(s, body, salt, now).post;
      Register(s1, body, salt2, now2) == Transition(BadRequest(EmailTaken), s1)
  {
    FindNewest(s.users, body["email"], body["userName"], s.nextId, Candidate(body, salt, now));
  }

  /** When no user below `bound` matches, a matching user stored at `bound` is the one found. */
  lemma FindNewest(users: map<UserId, User>, e: string, n: string, bound: nat, u: User)
    requires forall k :: k in users && k < bound ==> !Matches(users[k], e, n)
    requires Matches(u, e, n)
    ensures FindOne(users[bound := u], e, n, 0, bound + 1) == Some(bound)
  {
    var m := users[bound := u];
    assert bound in m && Matches(m[bound], e, n);
    forall k | k in m && k < bound ensures !Matches(m[k], e, n) {
      assert m[k] == users[k];
    }
  }

  /** When no user below `bound` holds the email `e`, a user holding it stored at `bound` is the
      one found, whatever the older users' userNames. */
  lemma FindNewEmail(users: map<UserId, User>, e: string, n: string, bound: nat, u: User)
    requires forall k :: k in users && k < bound ==> users[k].email != e
    requires u.email == e
    ensures FindOne(users[bound := u], e, n, 0, bound + 1) == Some(bound)
  {
    var m := users[bound := u];
    forall k | k in m && k < bound ensures Key(m[k], EmailIndex) != e {
      assert m[k] == users[k];
    }
    assert bound in m && Key(m[bound], EmailIndex) == e;
    assert Scan(m, EmailIndex, e, 0, bound + 1) == Some(bound);
  }

  /** The email message is sent exactly when somebody holds the email, whoever holds the
      userName: the email index is scanned first. */
  lemma EmailTakenFirst(s: State, body: Body, salt: nat, now: nat)
    requires IdsIssued(s)
    requires RegisterFieldsPresent(body)
    ensures Register(s, body, salt, now).status == BadRequest(EmailTaken) <==>
      exists k :: k in s.users && s.users[k].email == body["email"]
  {
    if k :| k in s.users && s.users[k].email == body["email"] {
      assert LoginTaken(s, body);
    }
  }

  /** The lookup compares the trimmed userName, as the unique index does, so it catches every
      user the indexes would refuse: `save` then fails only on validation, and of the four
      fields only a userName made of white space can fail it. */
  lemma SaveFailsOnlyOnBlankName(s: State, body: Body, salt: nat, now: nat)
    requires IdsIssued(s)
    requires RegisterFieldsPresent(body)
    ensures Register(s, body, salt, now).status == InternalError <==>
      !LoginTaken(s, body) && Trim(body["userName"]) == ""
  {
    var u := Candidate(body, salt, now);
    if !LoginTaken(s, body) {
      forall id | id in s.users ensures s.users[id].email != u.email && s.users[id].userName != u.userName {
        assert !Matches(s.users[id], body["email"], body["userName"]);
      }
    }
  }

  /** A userName that differs from a stored one only by surrounding white space is refused as not
      available, unless the email is already registered, and nothing is written. */
  lemma PaddedNameTaken(s: State, body: Body, salt: nat, now: nat, k: UserId)
    requires IdsIssued(s)
    requires RegisterFieldsPresent(body)
    requires forall j :: j in s.users ==> s.users[j].email != body["email"]
    requires k in s.users && s.users[k].userName == Trim(body["userName"])
    ensures Register(s, body, salt, now) == Transition(BadRequest(UserNameTaken), s)
  {
    assert Matches(s.users[k], body["email"], body["userName"]);
  }

  /** A stored user "bob" with the password "pw"; the fields no lemma looks at are left blank. */
  const Bob: User := User("Bob", "bob@x.io", "bob", Hash("pw", 0), "", "", None, [], [], 0, 0)

  /** The same for a concrete name: when "bob" is registered, " bob" is not available. */
  lemma LeadingBlankNameTaken(s: State, body: Body, salt: nat, now: nat, k: UserId)
    requires IdsIssued(s)
    requires k in s.users && s.users[k].userName == "bob"
    requires Field(body, "userName") == Some(" bob")
    requires RegisterFieldsPresent(body) && forall j :: j in s.users ==> s.users[j].email != body["email"]
    ensures Register(s, body, salt, now) == Transition(BadRequest(UserNameTaken), s)
  {
    var name := body["userName"];
    assert name == " bob";
    assert Trim(name) == "bob" by {
      BlankBob();
    }
    PaddedNameTaken(s, body, salt, now, k);
  }

  /** " bob" and "bob" both trim to "bob". */
  lemma BlankBob()
    ensures Trim("bob") == "bob" && Trim(" bob") == "bob"
  {
    TrimOfTrimmed("bob");
    assert " bob"[1..] == "bob";
    assert TrimStart("bob") == "bob";
  }

  /** Login trims the input it compares with userName: with "bob" registered, " bob" logs in as bob. */
  lemma LeadingBlankLogin(login: Body)
    requires Field(login, "emailOruserName") == Some(" bob") && Field(login, "password") == Some("pw")
    ensures var s := State(map[0 := Bob], map[], 1);
      var r := Login(s, login);
      r.status == Ok && r.payload == Some(Session(Sign(0), Public(0, Bob)))
  {
    var s := State(map[0 := Bob], map[], 1);
    var x := login["emailOruserName"];
    assert x == " bob";
    assert Trim(x) == "bob" by {
      BlankBob();
    }
    assert Matches(s.users[0], x, x);
    assert FindOne(s.users, x, x, 0, s.nextId) == Some(0);
  }

  /** An older user whose userName is "cy@x.io", and a newer one, Cy, whose email it is. */
  const Ann: User := User("Ann", "ann@x.io", "cy@x.io", Hash("pw0", 0), "", "", None, [], [], 0, 0)
  const Cy: User := User("Cy", "cy@x.io", "cy", Hash("pw1", 0), "", "", None, [], [], 0, 0)

  /** The email index is scanned first: logging in as "cy@x.io" reaches Cy, who holds it as
      email, and not Ann, who was stored earlier and holds it as userName. */
  lemma EmailBeforeUserName(login: Body)
    requires Field(login, "emailOruserName") == Some("cy@x.io") && Field(login, "password") == Some("pw1")
    ensures var s := State(map[0 := Ann, 1 := Cy], map[], 2);
      var r := Login(s, login);
      r.status == Ok && r.payload == Some(Session(Sign(1), Public(1, Cy)))
  {
    var s := State(map[0 := Ann, 1 := Cy], map[], 2);
    var x := login["emailOruserName"];
    assert x == "cy@x.io";
    assert Key(s.users[0], EmailIndex) != x;
    assert Key(s.users[1], EmailIndex) == x;
    assert FindOne(s.users, x, x, 0, s.nextId) == Some(1);
  }

  /** After a successful registration, logging in with the registered email succeeds exactly with
      the registered password, for the new user, even when an older user has that email as its
      userName: the email index is scanned first. */
  lemma RegisterThenLogin(s: State, body: Body, salt: nat, now: nat, login: Body)
    requires Register(s, body, salt, now).status == Created
    requires Field(login, "emailOruserName") == Some(body["email"]) && Truthy(Field(login, "password"))
    ensures var s1 := Register(s, body, salt, now).post;
      var r := Login(s1, login);
      && (r.status == Ok <==> login["password"] == body["password"])
      && (r.status == Ok ==> r.payload.value == Session(Sign(s.nextId), Public(s.nextId, Candidate(body, salt, now))))
  {
    var x := login["emailOruserName"];
    forall k | k in s.users && k < s.nextId ensures s.users[k].email != x {
      assert !Matches(s.users[k], body["email"], body["userName"]);
    }
    FindNewEmail(s.users, x, x, s.nextId, Candidate(body, salt, now));
  }

  /** Login answers an unknown user and a known user with a wrong password alike: adding a user
      who matches the input but whose digest does not accept the password changes nothing. */
  lemma LoginFailuresAlike(s: State, body: Body, u: User)
    requires Truthy(Field(body, "emailOruserName")) && Truthy(Field(body, "password"))
    requires forall k :: k in s.users ==> !Matches(s.users[k], body["emailOruserName"], body["emailOruserName"])
    requires Matches(u, body["emailOruserName"], body["emailOruserName"])
    requires !Compare(body["password"], u.password)
    ensures var s' := s.(users := s.users[s.nextId := u], nextId := s.nextId + 1);
      Login(s', body) == Login(s, body) == Response(Unauthorized, None)
  {
    var x := body["emailOruserName"];
    FindNewest(s.users, x, x, s.nextId, u);
  }
}
