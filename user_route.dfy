/** The state-changing handlers of user_route.js as methods on the database object, each proved
    to behave as its step function in UserSpec and to keep the store invariant. The read-only
    handlers (profile picture, profile, tweets by user) are functions in UserSpec. */
module UserRoute {
  import opened Common
  import opened Lists
  import opened Store
  import opened UploadFilter
  import UserSpec
  import UserLaws

  /** POST /api/user/:id/uploadProfilePic */
  method UploadProfilePic(db: Database, target: UserId, file: Option<Upload>, now: nat) returns (status: Status)
    requires db.Valid()
    modifies db
    ensures db.Valid()
    ensures Transition(status, db.Snapshot()) == UserSpec.UploadProfilePic(old(db.Snapshot()), target, file, now)
  {
    UserLaws.UploadProfilePicKeepsInvariant(db.Snapshot(), target, file, now);
    status := UploadProfilePicChecked(db, target, file, now);
  }

  /** The checks and writes of UploadProfilePic, in the handler's order. */
  method UploadProfilePicChecked(db: Database, target: UserId, file: Option<Upload>, now: nat) returns (status: Status)
    modifies db
    ensures Transition(status, db.Snapshot()) == UserSpec.UploadProfilePic(old(db.Snapshot()), target, file, now)
  {
    if file.Some? && !Accepts(file.value) {
      return InternalError;
    }
    if file.None? {
      return BadRequest(NoFile);
    }
    if target !in db.users {
      return NotFound(UserMissing);
    }
    var u := db.users[target];
    db.users := db.users[target := u.(profileImg := UserSpec.ProfilePicUrl(file.value), updatedAt := now)];
    return Ok;
  }

  /** PUT /api/user/:id */
  method EditProfile(db: Database, caller: UserId, id: UserId, body: Body, now: nat) returns (status: Status)
    requires db.Valid()
    modifies db
    ensures db.Valid()
    ensures Transition(status, db.Snapshot()) == UserSpec.EditProfile(old(db.Snapshot()), caller, id, body, now)
  {
    UserLaws.EditProfileKeepsInvariant(db.Snapshot(), caller, id, body, now);
    status := EditProfileChecked(db, caller, id, body, now);
  }

  /** The checks of the profile edit, then the one update. */
  method EditProfileChecked(db: Database, caller: UserId, id: UserId, body: Body, now: nat) returns (status: Status)
    modifies db
    ensures Transition(status, db.Snapshot()) == UserSpec.EditProfile(old(db.Snapshot()), caller, id, body, now)
  {
    if caller !in db.users {
      return InternalError;
    }
    if id != caller {
      return Forbidden;
    }
    var bad := FindDisallowedKey(body, UserSpec.ProfileFields);
    if bad.Some? {
      return BadRequest(FieldNotAllowed);
    }
    if !Truthy(Field(body, "fullName")) && !Truthy(Field(body, "dateOfBirth")) && !Truthy(Field(body, "location")) {
      return BadRequest(NoFieldToUpdate);
    }
    db.users := db.users[id := UserSpec.ApplyProfileEdit(db.users[id], body, now)];
    return Ok;
  }

  /** POST /api/user/:id/follow */
  method Follow(db: Database, caller: UserId, target: UserId, now: nat) returns (status: Status)
    requires db.Valid()
    modifies db
    ensures db.Valid()
    ensures Transition(status, db.Snapshot()) == UserSpec.Follow(old(db.Snapshot()), caller, target, now)
  {
    UserLaws.FollowKeepsInvariant(db.Snapshot(), caller, target, now);
    status := FollowChain(db, caller, target, now);
  }

  /** The handler's checks and its promise chain's two writes, in order. After the "already
      following" 400 the chain goes on to its second write. */
  method FollowChain(db: Database, caller: UserId, target: UserId, now: nat) returns (status: Status)
    modifies db
    ensures Transition(status, db.Snapshot()) == UserSpec.Follow(old(db.Snapshot()), caller, target, now)
  {
    ghost var s0 := db.Snapshot();
    if caller !in db.users {
      return InternalError;
    }
    if caller == target {
      return BadRequest(SelfFollow);
    }
    if target !in db.users {
      return InternalError;
    }
    var t := db.users[target];
    var c := db.users[caller];
    if caller in t.followers {
      status := BadRequest(AlreadyFollowing);
    } else {
      db.users := db.users[target := t.(followers := AddToSet(t.followers, caller), updatedAt := now)];
      status := Ok;
    }
    db.users := db.users[caller := c.(following := AddToSet(c.following, target), updatedAt := now)];
    UserLaws.FollowSteps(s0, caller, target, now);
  }

  /** POST /api/user/:id/unfollow */
  method Unfollow(db: Database, caller: UserId, target: UserId, now: nat) returns (status: Status)
    requires db.Valid()
    modifies db
    ensures db.Valid()
    ensures Transition(status, db.Snapshot()) == UserSpec.Unfollow(old(db.Snapshot()), caller, target, now)
  {
    UserLaws.UnfollowKeepsInvariant(db.Snapshot(), caller, target, now);
    status := UnfollowChain(db, caller, target, now);
  }

  /** The handler's checks and its promise chain's two writes, in order. After the "not following"
      400 the chain goes on to its second write. */
  method UnfollowChain(db: Database, caller: UserId, target: UserId, now: nat) returns (status: Status)
    modifies db
    ensures Transition(status, db.Snapshot()) == UserSpec.Unfollow(old(db.Snapshot()), caller, target, now)
  {
    ghost var s0 := db.Snapshot();
    if caller !in db.users {
      return InternalError;
    }
    if caller == target {
      return BadRequest(SelfUnfollow);
    }
    var c := db.users[caller];
    if target !in c.following {
      status := BadRequest(NotFollowing);
    } else {
      db.users := db.users[caller := c.(following := Pull(c.following, target), updatedAt := now)];
      status := Ok;
    }
    if target in db.users {
      var t := db.users[target];
      db.users := db.users[target := t.(followers := Pull(t.followers, caller), updatedAt := now)];
    }
    if status == Ok {
      UserLaws.UnfollowedSteps(s0, caller, target, now);
    } else {
      UserLaws.NotFollowingSteps(s0, caller, target, now);
    }
  }

}
