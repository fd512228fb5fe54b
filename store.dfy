/** The two MongoDB collections the handlers read and write, the invariant the handlers keep
    over them, and the database object the imperative handlers update in place. */
module Store {
  import opened Common
  import opened Lists
  import opened Text
  import opened UserModel
  import opened TweetModel

  /** Both collections, keyed by ObjectId, and the next ObjectId to issue. */
  datatype State = State(users: map<UserId, User>, tweets: map<TweetId, Tweet>, nextId: nat)

  /** What a state-changing handler does: the response it sends and the collections afterwards. */
  datatype Transition = Transition(status: Status, post: State)

  /** What a read-only handler sends: a status and, on success, the payload. */
  datatype Response<T> = Response(status: Status, payload: Option<T>)

  /** Every stored id, and every id a replies list holds, was issued before `nextId`. */
  ghost predicate IdsIssued(s: State)
  {
    && (forall id :: id in s.users ==> id < s.nextId)
    && (forall id :: id in s.tweets ==> id < s.nextId)
    && (forall id, r :: id in s.tweets && r in s.tweets[id].replies ==> r < s.nextId)
  }

  /** The unique indexes on email and userName. */
  ghost predicate UniqueLogins(users: map<UserId, User>)
  {
    forall a, b :: a in users && b in users && a != b ==>
      users[a].email != users[b].email && users[a].userName != users[b].userName
  }

  /** What holds of every stored user: email and userName are present and no handler changes them
      after insertion, userName went through the `trim` setter, and the follow lists are
      duplicate-free. fullName is not listed: a profile edit can write "" into it. */
  ghost predicate StoredUser(u: User)
  {
    u.email != "" && u.userName != "" && Trim(u.userName) == u.userName
    && NoDup(u.followers) && NoDup(u.following)
  }

  /** What holds of every stored tweet: content present, at most one like and one retweet per user. */
  ghost predicate StoredTweet(t: Tweet)
  {
    ValidTweet(t) && NoDup(t.likes) && NoDup(t.retweetBy)
  }

  /** The follow graph: the lists hold only ids of stored users, and an edge is recorded on both
      sides, `a` in the followers of `b` exactly when `b` is in the following of `a`. */
  ghost predicate FollowGraph(users: map<UserId, User>)
  {
    && (forall a, x :: a in users && x in users[a].followers ==> x in users)
    && (forall a, x :: a in users && x in users[a].following ==> x in users)
    && (forall a, b :: a in users && b in users ==> (a in users[b].followers <==> b in users[a].following))
  }

  ghost predicate StoredUsers(users: map<UserId, User>)
  {
    forall id :: id in users ==> StoredUser(users[id])
  }

  ghost predicate StoredTweets(tweets: map<TweetId, Tweet>)
  {
    forall id :: id in tweets ==> StoredTweet(tweets[id])
  }

  /** The invariant every handler keeps. */
  ghost predicate Invariant(s: State)
  {
    IdsIssued(s) && UniqueLogins(s.users) && StoredUsers(s.users) && StoredTweets(s.tweets)
    && FollowGraph(s.users)
  }

  /** Whether `save` stores a new user: the `required` validators pass and neither unique index
      already holds its email or userName (otherwise `save` rejects with E11000). */
  predicate Insertable(users: map<UserId, User>, u: User)
  {
    ValidUser(u) && forall id :: id in users ==> users[id].email != u.email && users[id].userName != u.userName
  }

  /** The database object: the collections as fields that the handlers read and replace. */
  class Database {
    var users: map<UserId, User>
    var tweets: map<TweetId, Tweet>
    var nextId: nat

    function Snapshot(): State
      reads this
    {
      State(users, tweets, nextId)
    }

    ghost predicate Valid()
      reads this
    {
      Invariant(Snapshot())
    }

    /** Empty collections. */
    constructor ()
      ensures Snapshot() == State(map[], map[], 0)
      ensures Valid()
    {
      users, tweets, nextId := map[], map[], 0;
    }

    /** `new TweetModel(doc).save()` for a document the handler has already checked. */
    method InsertTweet(t: Tweet) returns (id: TweetId)
      modifies this
      ensures id == old(nextId)
      ensures Snapshot() == old(Snapshot()).(tweets := old(tweets)[id := t], nextId := id + 1)
    {
      id := nextId;
      tweets := tweets[id := t];
      nextId := nextId + 1;
    }

    /** `new UserModel(doc).save()`: stores the user unless validation or a unique index rejects it. */
    method InsertUser(u: User) returns (id: Option<UserId>)
      modifies this
      ensures id.None? <==> !Insertable(old(users), u)
      ensures id.None? ==> Snapshot() == old(Snapshot())
      ensures id.Some? ==> id.value == old(nextId)
      ensures id.Some? ==> Snapshot() == old(Snapshot()).(users := old(users)[id.value := u], nextId := id.value + 1)
    {
      if !Insertable(users, u) {
        return None;
      }
      id := Some(nextId);
      users := users[nextId := u];
      nextId := nextId + 1;
    }
  }
}
