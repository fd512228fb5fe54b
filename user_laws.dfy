/** Laws of the user handlers: each keeps the store invariant (in particular the two-sided follow
    graph), follow and unfollow undo each other, and the 400 paths of follow and unfollow still
    write, harmlessly in a consistent store and visibly in an inconsistent one. */
module UserLaws {
  import opened Common
  import opened Lists
  import opened UserModel
  import opened Store
  import opened UploadFilter
  import opened UserSpec
  import Crypto
  import AuthSpec

  /** The invariant of a store whose users map was replaced by one with the same ids that keeps
      the user-side conjuncts. */
  lemma UsersReplaced(s: State, users: map<UserId, User>)
    requires Invariant(s) && users.Keys == s.users.Keys
    requires UniqueLogins(users) && StoredUsers(users) && FollowGraph(users)
    ensures Invariant(s.(users := users))
  {
  }

  lemma SameLinksLogins(users: map<UserId, User>, id: UserId, v: User)
    requires UniqueLogins(users) && id in users
    requires v.email == users[id].email && v.userName == users[id].userName
    ensures UniqueLogins(users[id := v])
  {
  }

  lemma SameLinksStored(users: map<UserId, User>, id: UserId, v: User)
    requires StoredUsers(users) && id in users
    requires v.email == users[id].email && v.userName == users[id].userName
    requires v.followers == users[id].followers && v.following == users[id].following
    ensures StoredUsers(users[id := v])
  {
  }

  lemma SameLinksGraph(users: map<UserId, User>, id: UserId, v: User)
    requires FollowGraph(users) && id in users
    requires v.followers == users[id].followers && v.following == users[id].following
    ensures FollowGraph(users[id := v])
  {
  }

  /** Replacing one user by a record with the same logins and follow lists keeps the invariant. */
  lemma SameLinksKeepsInvariant(s: State, id: UserId, v: User)
    requires Invariant(s) && id in s.users
    requires v.email == s.users[id].email && v.userName == s.users[id].userName
    requires v.followers == s.users[id].followers && v.following == s.users[id].following
    ensures Invariant(s.(users := s.users[id := v]))
  {
    SameLinksLogins(s.users, id, v);
    SameLinksStored(s.users, id, v);
    SameLinksGraph(s.users, id, v);
    UsersReplaced(s, s.users[id := v]);
  }

  lemma TwoUsersLogins(users: map<UserId, User>, a: UserId, b: UserId, va: User, vb: User)
    requires UniqueLogins(users) && a in users && b in users
    requires va.email == users[a].email && va.userName == users[a].userName
    requires vb.email == users[b].email && vb.userName == users[b].userName
    ensures UniqueLogins(users[b := vb][a := va])
  {
  }

  lemma TwoUsersStored(users: map<UserId, User>, a: UserId, b: UserId, va: User, vb: User)
    requires StoredUsers(users) && a in users && b in users
    requires StoredUser(va) && StoredUser(vb)
    ensures StoredUsers(users[b := vb][a := va])
  {
  }

  /** Recording the edge "a follows b" on both sides keeps the follow graph two-sided and closed. */
  lemma AddEdgeGraph(users: map<UserId, User>, a: UserId, b: UserId, va: User, vb: User)
    requires FollowGraph(users) && a in users && b in users && a != b
    requires va.followers == users[a].followers && va.following == AddToSet(users[a].following, b)
    requires vb.following == users[b].following && vb.followers == AddToSet(users[b].followers, a)
    ensures FollowGraph(users[b := vb][a := va])
  {
    var u := users[b := vb][a := va];
    forall x, y | x in u && y in u ensures x in u[y].followers <==> y in u[x].following {
      assert x in users[y].followers <==> y in users[x].following;
    }
  }

  /** Erasing the edge "a follows b" on both sides keeps the follow graph two-sided and closed. */
  lemma RemoveEdgeGraph(users: map<UserId, User>, a: UserId, b: UserId, va: User, vb: User)
    requires FollowGraph(users) && a in users && b in users && a != b
    requires va.followers == users[a].followers && va.following == Pull(users[a].following, b)
    requires vb.following == users[b].following && vb.followers == Pull(users[b].followers, a)
    ensures FollowGraph(users[b := vb][a := va])
  {
    var u := users[b := vb][a := va];
    forall x, y | x in u && y in u ensures x in u[y].followers <==> y in u[x].following {
      RemoveEdgeAt(users, a, b, va, vb, x, y);
    }
    forall x, y | x in u && y in u[x].followers ensures y in u {
      assert y in users[x].followers;
    }
    forall x, y | x in u && y in u[x].following ensures y in u {
      assert y in users[x].following;
    }
  }

  /** One pair of RemoveEdgeGraph's symmetry. */
  lemma RemoveEdgeAt(users: map<UserId, User>, a: UserId, b: UserId, va: User, vb: User, x: UserId, y: UserId)
    requires FollowGraph(users) && a in users && b in users && a != b
    requires va.followers == users[a].followers && va.following == Pull(users[a].following, b)
    requires vb.following == users[b].following && vb.followers == Pull(users[b].followers, a)
    requires x in users && y in users
    ensures var u := users[b := vb][a := va];
      x in u[y].followers <==> y in u[x].following
  {
    assert x in users[y].followers <==> y in users[x].following;
  }

  lemma UploadProfilePicKeepsInvariant(s: State, target: UserId, file: Option<Upload>, now: nat)
    requires Invariant(s)
    ensures Invariant(UploadProfilePic(s, target, file, now).post)
  {
    var r := UploadProfilePic(s, target, file, now);
    if r.status == Ok {
      SameLinksKeepsInvariant(s, target, r.post.users[target]);
    }
  }

  lemma EditProfileKeepsInvariant(s: State, caller: UserId, id: UserId, body: Body, now: nat)
    requires Invariant(s)
    ensures Invariant(EditProfile(s, caller, id, body, now).post)
  {
    var r := EditProfile(s, caller, id, body, now);
    if r.status == Ok {
      SameLinksKeepsInvariant(s, id, r.post.users[id]);
    }
  }

  lemma FollowKeepsInvariant(s: State, caller: UserId, target: UserId, now: nat)
    requires Invariant(s)
    ensures Invariant(Follow(s, caller, target, now).post)
  {
    var r := Follow(s, caller, target, now);
    if r.status == BadRequest(AlreadyFollowing) {
      assert target in s.users[caller].following;
      SameLinksKeepsInvariant(s, caller, r.post.users[caller]);
      assert r.post == s.(users := s.users[caller := r.post.users[caller]]);
    } else if r.status == Ok {
      var va, vb := r.post.users[caller], r.post.users[target];
      assert r.post.users == s.users[target := vb][caller := va];
      AddToSetNoDup(s.users[caller].following, target);
      AddToSetNoDup(s.users[target].followers, caller);
      assert StoredUser(s.users[caller]) && StoredUser(s.users[target]);
      TwoUsersLogins(s.users, caller, target, va, vb);
      TwoUsersStored(s.users, caller, target, va, vb);
      AddEdgeGraph(s.users, caller, target, va, vb);
      UsersReplaced(s, r.post.users);
    }
  }

  lemma UnfollowKeepsInvariant(s: State, caller: UserId, target: UserId, now: nat)
    requires Invariant(s)
    ensures Invariant(Unfollow(s, caller, target, now).post)
  {
    var r := Unfollow(s, caller, target, now);
    if r.status == BadRequest(NotFollowing) && target in s.users {
      assert caller !in s.users[target].followers;
      SameLinksKeepsInvariant(s, target, r.post.users[target]);
      assert r.post == s.(users := s.users[target := r.post.users[target]]);
    } else if r.status == Ok {
      UnfollowEdgeKeepsInvariant(s, caller, target, now);
    }
  }

  lemma UnfollowEdgeKeepsInvariant(s: State, caller: UserId, target: UserId, now: nat)
    requires Invariant(s)
    requires caller in s.users && caller != target && target in s.users[caller].following
    ensures Invariant(Unfollow(s, caller, target, now).post)
  {
    assert target in s.users;
    var c, t := s.users[caller], s.users[target];
    var va := c.(following := Pull(c.following, target), updatedAt := now);
    var vb := t.(followers := Pull(t.followers, caller), updatedAt := now);
    UnfollowEdgePost(s, caller, target, now);
    RemoveEdgeUsers(s.users, caller, target, va, vb);
    UsersReplaced(s, s.users[target := vb][caller := va]);
  }

  /** The user-side conjuncts after the edge "a follows b" is erased on both sides. */
  lemma RemoveEdgeUsers(users: map<UserId, User>, a: UserId, b: UserId, va: User, vb: User)
    requires UniqueLogins(users) && StoredUsers(users) && FollowGraph(users)
    requires a in users && b in users && a != b
    requires va == users[a].(following := Pull(users[a].following, b), updatedAt := va.updatedAt)
    requires vb == users[b].(followers := Pull(users[b].followers, a), updatedAt := vb.updatedAt)
    ensures var u := users[b := vb][a := va];
      UniqueLogins(u) && StoredUsers(u) && FollowGraph(u)
  {
    PullNoDup(users[a].following, b);
    PullNoDup(users[b].followers, a);
    assert StoredUser(users[a]) && StoredUser(users[b]);
    TwoUsersLogins(users, a, b, va, vb);
    TwoUsersStored(users, a, b, va, vb);
    RemoveEdgeGraph(users, a, b, va, vb);
  }

  /** What a successful unfollow writes, as one map update. */
  lemma UnfollowEdgePost(s: State, caller: UserId, target: UserId, now: nat)
    requires caller in s.users && caller != target && target in s.users && target in s.users[caller].following
    ensures var c, t := s.users[caller], s.users[target];
      Unfollow(s, caller, target, now).post
        == s.(users := s.users[target := t.(followers := Pull(t.followers, caller), updatedAt := now)]
                              [caller := c.(following := Pull(c.following, target), updatedAt := now)])
  {
    var c, t := s.users[caller], s.users[target];
    var va := c.(following := Pull(c.following, target), updatedAt := now);
    var vb := t.(followers := Pull(t.followers, caller), updatedAt := now);
    assert s.users[caller := va][target := vb] == s.users[target := vb][caller := va];
  }

  /** The writes of a follow that gets past its first checks, as map updates. */
  lemma FollowSteps(s: State, caller: UserId, target: UserId, now: nat)
    requires caller in s.users && caller != target && target in s.users
    ensures var c, t := s.users[caller], s.users[target];
      var c' := c.(following := AddToSet(c.following, target), updatedAt := now);
      var t' := t.(followers := AddToSet(t.followers, caller), updatedAt := now);
      Follow(s, caller, target, now)
        == if caller in t.followers then Transition(BadRequest(AlreadyFollowing), s.(users := s.users[caller := c']))
           else Transition(Ok, s.(users := s.users[target := t'][caller := c']))
  {
  }

  /** The writes of an unfollow that removes an edge, as map updates. */
  lemma UnfollowedSteps(s: State, caller: UserId, target: UserId, now: nat)
    requires caller in s.users && caller != target && target in s.users[caller].following
    ensures var c := s.users[caller];
      var users := s.users[caller := c.(following := Pull(c.following, target), updatedAt := now)];
      Unfollow(s, caller, target, now)
        == if target in users
           then Transition(Ok, s.(users := users[target := users[target].(followers := Pull(users[target].followers, caller), updatedAt := now)]))
           else Transition(Ok, s.(users := users))
  {
  }

  /** The writes of an unfollow refused with "not following", as map updates. */
  lemma NotFollowingSteps(s: State, caller: UserId, target: UserId, now: nat)
    requires caller in s.users && caller != target && target !in s.users[caller].following
    ensures Unfollow(s, caller, target, now)
        == if target in s.users
           then Transition(BadRequest(NotFollowing), s.(users := s.users[target := s.users[target].(followers := Pull(s.users[target].followers, caller), updatedAt := now)]))
           else Transition(BadRequest(NotFollowing), s)
  {
  }

  /** `users` with only the updatedAt stamp of `id` moved to `now`. */
  function Touched(users: map<UserId, User>, id: UserId, now: nat): map<UserId, User>
    requires id in users
  {
    users[id := users[id].(updatedAt := now)]
  }

  /** Follow followed by unfollow gives back both users' lists as they were; only the two
      updatedAt stamps moved. */
  lemma {:induction false} FollowThenUnfollow(s: State, caller: UserId, target: UserId, t1: nat, t2: nat)
    requires FollowGraph(s.users)
    requires caller in s.users && target in s.users && caller != target
    requires caller !in s.users[target].followers
    ensures Follow(s, caller, target, t1).status == Ok
    ensures Unfollow(Follow(s, caller, target, t1).post, caller, target, t2)
         == Transition(Ok, s.(users := Touched(Touched(s.users, caller, t2), target, t2)))
  {
    var c := s.users[caller];
    var t := s.users[target];
    assert target !in c.following;
    FollowSteps(s, caller, target, t1);
    var c1 := c.(following := AddToSet(c.following, target), updatedAt := t1);
    var t1' := t.(followers := AddToSet(t.followers, caller), updatedAt := t1);
    var s1 := s.(users := s.users[target := t1'][caller := c1]);
    PullAfterAddToSet(c.following, target);
    PullAfterAddToSet(t.followers, caller);
    UnfollowedSteps(s1, caller, target, t2);
    var c2, t2' := c.(updatedAt := t2), t.(updatedAt := t2);
    assert c1.(following := Pull(c1.following, target), updatedAt := t2) == c2;
    assert t1'.(followers := Pull(t1'.followers, caller), updatedAt := t2) == t2';
    OverwriteBoth(s.users, caller, target, t1', c1, c2, t2');
  }

  /** Writing `a` then `b` over a map where both were already written leaves only the last writes. */
  lemma OverwriteBoth<K, V>(m: map<K, V>, a: K, b: K, x: V, y: V, z: V, w: V)
    requires a != b
    ensures m[b := x][a := y][a := z][b := w] == m[a := z][b := w]
  {
  }

  /** A request to one of the routes that write the users collection, with its parameters. */
  datatype UserRequest =
    | PicUpload(target: UserId, file: Option<Upload>)
    | ProfileEdit(caller: UserId, id: UserId, body: Body)
    | FollowUser(caller: UserId, target: UserId)
    | UnfollowUser(caller: UserId, target: UserId)
    | Registration(body: Body, salt: nat)

  /** The router: the step function of the route a request names. */
  function Handle(s: State, req: UserRequest, now: nat): Transition
  {
    match req
    case PicUpload(target, file) => UploadProfilePic(s, target, file, now)
    case ProfileEdit(caller, id, body) => EditProfile(s, caller, id, body, now)
    case FollowUser(caller, target) => Follow(s, caller, target, now)
    case UnfollowUser(caller, target) => Unfollow(s, caller, target, now)
    case Registration(body, salt) => AuthSpec.Register(s, body, salt, now)
  }

  /** `post` has the tweets of `s`, and keeps every user of `s` with its email, userName,
      password digest and creation time. */
  ghost predicate AccountsKept(s: State, post: State)
  {
    && post.tweets == s.tweets
    && forall id :: id in s.users ==>
         && id in post.users
         && post.users[id].email == s.users[id].email
         && post.users[id].userName == s.users[id].userName
         && post.users[id].password == s.users[id].password
         && post.users[id].createdAt == s.users[id].createdAt
  }

  /** Rewriting one user without touching those four fields, or storing a user under an unused
      id, keeps the accounts. */
  lemma PutKeepsAccounts(s: State, post: State, id: UserId, u: User)
    requires post.tweets == s.tweets && post.users == s.users[id := u]
    requires id in s.users ==>
      && u.email == s.users[id].email && u.userName == s.users[id].userName
      && u.password == s.users[id].password && u.createdAt == s.users[id].createdAt
    ensures AccountsKept(s, post)
  {
  }

  /** No route deletes a user, changes the tweets while writing users, or changes a user's email,
      userName, password digest or creation time once stored. */
  lemma AccountsKeptByRoutes(s: State, req: UserRequest, now: nat)
    requires IdsIssued(s)
    ensures AccountsKept(s, Handle(s, req, now).post)
  {
    match req
    case PicUpload(target, file) => UploadKeepsAccounts(s, target, file, now);
    case ProfileEdit(caller, id, body) => EditKeepsAccounts(s, caller, id, body, now);
    case FollowUser(caller, target) => FollowKeepsAccounts(s, caller, target, now);
    case UnfollowUser(caller, target) => UnfollowKeepsAccounts(s, caller, target, now);
    case Registration(body, salt) => RegisterKeepsAccounts(s, body, salt, now);
  }

  /** A picture upload rewrites only profileImg and updatedAt. */
  lemma UploadKeepsAccounts(s: State, target: UserId, file: Option<Upload>, now: nat)
    ensures AccountsKept(s, UploadProfilePic(s, target, file, now).post)
  {
    var r := UploadProfilePic(s, target, file, now);
    if r.status == Ok {
      PutKeepsAccounts(s, r.post, target, r.post.users[target]);
    }
  }

  /** A profile edit rewrites only fullName, dateOfBirth, location and updatedAt. */
  lemma EditKeepsAccounts(s: State, caller: UserId, id: UserId, body: Body, now: nat)
    ensures AccountsKept(s, EditProfile(s, caller, id, body, now).post)
  {
    var r := EditProfile(s, caller, id, body, now);
    if r.status == Ok {
      PutKeepsAccounts(s, r.post, id, r.post.users[id]);
    }
  }

  /** A registration stores its user under the next id, which no stored user has. */
  lemma RegisterKeepsAccounts(s: State, body: Body, salt: nat, now: nat)
    requires s.nextId !in s.users
    ensures AccountsKept(s, AuthSpec.Register(s, body, salt, now).post)
  {
    var r := AuthSpec.Register(s, body, salt, now);
    if r.status == Created {
      PutKeepsAccounts(s, r.post, s.nextId, r.post.users[s.nextId]);
    }
  }

  /** Both writes of a follow, on its 200 and its 400 path, keep the accounts. */
  lemma FollowKeepsAccounts(s: State, caller: UserId, target: UserId, now: nat)
    ensures AccountsKept(s, Follow(s, caller, target, now).post)
  {
    var r := Follow(s, caller, target, now);
    if caller in s.users && caller != target && target in s.users {
      FollowSteps(s, caller, target, now);
      var c, t := s.users[caller], s.users[target];
      var c' := c.(following := AddToSet(c.following, target), updatedAt := now);
      if caller in t.followers {
        PutKeepsAccounts(s, r.post, caller, c');
      } else {
        var mid := s.(users := s.users[target := t.(followers := AddToSet(t.followers, caller), updatedAt := now)]);
        PutKeepsAccounts(s, mid, target, mid.users[target]);
        PutKeepsAccounts(mid, r.post, caller, c');
      }
    }
  }

  /** Both writes of an unfollow, on its 200 and its 400 path, keep the accounts. */
  lemma UnfollowKeepsAccounts(s: State, caller: UserId, target: UserId, now: nat)
    ensures AccountsKept(s, Unfollow(s, caller, target, now).post)
  {
    var r := Unfollow(s, caller, target, now);
    if caller in s.users && caller != target {
      var c := s.users[caller];
      if target in c.following {
        UnfollowedSteps(s, caller, target, now);
        var mid := s.(users := s.users[caller := c.(following := Pull(c.following, target), updatedAt := now)]);
        PutKeepsAccounts(s, mid, caller, mid.users[caller]);
        if target in mid.users {
          PutKeepsAccounts(mid, r.post, target, r.post.users[target]);
        }
      } else {
        NotFollowingSteps(s, caller, target, now);
        if target in s.users {
          PutKeepsAccounts(s, r.post, target, r.post.users[target]);
        }
      }
    }
  }

  /** In a consistent store, the "already following" 400 writes nothing but the caller's updatedAt. */
  lemma AlreadyFollowingOnlyStamps(s: State, caller: UserId, target: UserId, now: nat)
    requires FollowGraph(s.users)
    requires Follow(s, caller, target, now).status == BadRequest(AlreadyFollowing)
    ensures Follow(s, caller, target, now).post
         == s.(users := s.users[caller := s.users[caller].(updatedAt := now)])
  {
    assert target in s.users[caller].following;
  }

  /** In a consistent store, the "not following" 400 writes nothing but the target's updatedAt
      (and nothing at all when the target does not exist). */
  lemma NotFollowingOnlyStamps(s: State, caller: UserId, target: UserId, now: nat)
    requires FollowGraph(s.users)
    requires Unfollow(s, caller, target, now).status == BadRequest(NotFollowing)
    ensures Unfollow(s, caller, target, now).post
         == if target in s.users then s.(users := s.users[target := s.users[target].(updatedAt := now)]) else s
  {
    if target in s.users {
      assert caller !in s.users[target].followers;
    }
  }

  /** A store where user 1 lists user 0 as a follower but user 0 does not list user 1 (the state
      a follow leaves when its second write did not happen). Following again answers 400 and
      nevertheless repairs the edge; unfollowing, decided by user 0's list, answers 400 and
      nevertheless removes user 0 from user 1's followers. */
  lemma FourHundredStillWrites()
    ensures var a := NewUser("Ann", "a@x.io", "ann", Crypto.Hash("p", 1), 0);
      var b := NewUser("Bob", "b@x.io", "bob", Crypto.Hash("q", 2), 0).(followers := [0]);
      var s := State(map[0 := a, 1 := b], map[], 2);
      && Follow(s, 0, 1, 7).status == BadRequest(AlreadyFollowing)
      && Follow(s, 0, 1, 7).post.users[0].following == [1]
      && Unfollow(s, 0, 1, 7).status == BadRequest(NotFollowing)
      && Unfollow(s, 0, 1, 7).post.users[1].followers == []
  {
    var b := NewUser("Bob", "b@x.io", "bob", Crypto.Hash("q", 2), 0).(followers := [0]);
    assert Pull(b.followers, 0) == Pull([], 0);
  }

  /** In a consistent store the profile read returns the stored follower and following lists. */
  lemma GetProfileListsStored(s: State, id: UserId)
    requires FollowGraph(s.users) && id in s.users
    ensures GetProfile(s, id).payload.Some?
    ensures GetProfile(s, id).payload.value.followers == s.users[id].followers
    ensures GetProfile(s, id).payload.value.following == s.users[id].following
  {
  }

  /** After an upload, the profile picture route redirects to the uploaded file. */
  lemma UploadThenGetPic(s: State, target: UserId, f: Upload, now: nat)
    requires UploadProfilePic(s, target, Some(f), now).status == Ok
    ensures GetProfilePic(UploadProfilePic(s, target, Some(f), now).post, target)
         == Response(Found, Some(ProfilePicUrl(f)))
  {
    assert ProfilePicUrl(f) != "";
  }

  /** A profile edit bypasses the schema validators: it can blank the required fullName. */
  lemma EditCanBlankFullName(s: State, caller: UserId, now: nat)
    requires caller in s.users
    ensures var r := EditProfile(s, caller, caller, map["fullName" := "", "location" := "Pune"], now);
      r.status == Ok && r.post.users[caller].fullName == "" && !ValidUser(r.post.users[caller])
  {
    var body := map["fullName" := "", "location" := "Pune"];
    assert Truthy(Field(body, "location"));
    assert body.Keys <= ProfileFields;
  }
}
