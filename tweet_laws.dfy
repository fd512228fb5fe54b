/** Laws of the tweet handlers: each keeps the store invariant, and the handlers relate to one
    another as the routes intend (like/dislike undo each other, a second like or retweet is
    refused, a deleted tweet is gone, a reply is listed once under its parent). */
module TweetLaws {
  import opened Common
  import opened Lists
  import opened Text
  import Crypto
  import opened UserModel
  import opened TweetModel
  import opened Store
  import opened UploadFilter
  import opened TweetSpec

  /** Every tweet id, and every id a replies list holds, is below `bound`. */
  ghost predicate TweetsBelow(tweets: map<TweetId, Tweet>, bound: nat)
  {
    && (forall id :: id in tweets ==> id < bound)
    && (forall id, x :: id in tweets && x in tweets[id].replies ==> x < bound)
  }

  /** Storing one well-formed tweet whose id and replies are below the bound keeps the tweet-side facts. */
  lemma PutTweet(tweets: map<TweetId, Tweet>, bound: nat, id: TweetId, t: Tweet)
    requires StoredTweets(tweets) && TweetsBelow(tweets, bound)
    requires id < bound && StoredTweet(t) && forall x :: x in t.replies ==> x < bound
    ensures StoredTweets(tweets[id := t]) && TweetsBelow(tweets[id := t], bound)
  {
    var u := tweets[id := t];
    forall k, x | k in u && x in u[k].replies ensures x < bound {
      if k != id {
        assert u[k] == tweets[k];
      }
    }
  }

  /** Removing a tweet keeps the tweet-side facts. */
  lemma DropTweet(tweets: map<TweetId, Tweet>, bound: nat, id: TweetId)
    requires StoredTweets(tweets) && TweetsBelow(tweets, bound)
    ensures StoredTweets(tweets - {id}) && TweetsBelow(tweets - {id}, bound)
  {
    var u := tweets - {id};
    forall k, x | k in u && x in u[k].replies ensures x < bound {
      assert u[k] == tweets[k];
    }
  }

  /** The invariant of a store whose tweets and counter were replaced, the users kept. */
  lemma WithTweets(s: State, tweets: map<TweetId, Tweet>, bound: nat)
    requires Invariant(s) && s.nextId <= bound
    requires StoredTweets(tweets) && TweetsBelow(tweets, bound)
    ensures Invariant(s.(tweets := tweets, nextId := bound))
  {
  }

  lemma CreateKeepsInvariant(s: State, caller: UserId, body: Body, file: Option<Upload>, now: nat)
    requires Invariant(s)
    ensures Invariant(Create(s, caller, body, file, now).post)
  {
    var r := Create(s, caller, body, file, now);
    if r.status == Created {
      assert StoredTweet(r.post.tweets[s.nextId]);
      PutTweet(s.tweets, s.nextId + 1, s.nextId, r.post.tweets[s.nextId]);
      WithTweets(s, r.post.tweets, s.nextId + 1);
    }
  }

  lemma ReplyKeepsInvariant(s: State, caller: UserId, parent: TweetId, body: Body, now: nat)
    requires Invariant(s)
    ensures Invariant(Reply(s, caller, parent, body, now).post)
  {
    var r := Reply(s, caller, parent, body, now);
    if r.status == Created || r.status.NotFound? {
      ReplyTweets(s, caller, parent, body, now);
      WithTweets(s, r.post.tweets, s.nextId + 1);
    }
  }

  /** The tweet-side facts after a reply is saved, with or without its parent updated. */
  lemma ReplyTweets(s: State, caller: UserId, parent: TweetId, body: Body, now: nat)
    requires StoredTweets(s.tweets) && TweetsBelow(s.tweets, s.nextId)
    requires Reply(s, caller, parent, body, now).status == Created || Reply(s, caller, parent, body, now).status.NotFound?
    ensures var post := Reply(s, caller, parent, body, now).post;
      && StoredTweets(post.tweets) && TweetsBelow(post.tweets, s.nextId + 1)
      && post == s.(tweets := post.tweets, nextId := s.nextId + 1)
  {
    var r := Reply(s, caller, parent, body, now);
    var bound := s.nextId + 1;
    var t := r.post.tweets[s.nextId];
    assert StoredTweet(t);
    assert TweetsBelow(s.tweets, bound);
    PutTweet(s.tweets, bound, s.nextId, t);
    if r.status == Created && parent != s.nextId {
      var mid := s.tweets[s.nextId := t];
      assert mid[parent] == s.tweets[parent];
      PutTweet(mid, bound, parent, r.post.tweets[parent]);
    }
  }

  lemma LikeKeepsInvariant(s: State, id: TweetId, caller: UserId, now: nat)
    requires Invariant(s)
    ensures Invariant(Like(s, id, caller, now).post)
  {
    if Like(s, id, caller, now).status == Ok {
      NoDupAppend(s.tweets[id].likes, caller);
    }
  }

  lemma DislikeKeepsInvariant(s: State, id: TweetId, caller: UserId, now: nat)
    requires Invariant(s)
    ensures Invariant(Dislike(s, id, caller, now).post)
  {
    if Dislike(s, id, caller, now).status == Ok {
      PullNoDup(s.tweets[id].likes, caller);
    }
  }

  lemma RetweetKeepsInvariant(s: State, id: TweetId, caller: UserId, now: nat)
    requires Invariant(s)
    ensures Invariant(Retweet(s, id, caller, now).post)
  {
    if Retweet(s, id, caller, now).status == Ok {
      NoDupAppend(s.tweets[id].retweetBy, caller);
    }
  }

  lemma DeleteKeepsInvariant(s: State, caller: UserId, tweetId: TweetId, replyId: Option<TweetId>, now: nat)
    requires Invariant(s)
    ensures Invariant(Delete(s, caller, tweetId, replyId, now).post)
  {
    var r := Delete(s, caller, tweetId, replyId, now);
    if r.status == Ok {
      if replyId.Some? {
        assert StoredTweet(s.tweets[tweetId]);
        PutTweet(s.tweets, s.nextId, tweetId, r.post.tweets[tweetId]);
      } else {
        DropTweet(s.tweets, s.nextId, tweetId);
      }
      WithTweets(s, r.post.tweets, s.nextId);
    }
  }

  /** A request to one of the state-changing tweet routes, with its parameters. */
  datatype TweetRequest =
    | TweetPost(caller: UserId, body: Body, file: Option<Upload>)
    | TweetLike(id: TweetId, caller: UserId)
    | TweetDislike(id: TweetId, caller: UserId)
    | TweetRetweet(id: TweetId, caller: UserId)
    | TweetReply(caller: UserId, parent: TweetId, body: Body)
    | TweetDelete(caller: UserId, id: TweetId, replyId: Option<TweetId>)

  /** The router: the step function of the route a request names. */
  function Handle(s: State, req: TweetRequest, now: nat): Transition
  {
    match req
    case TweetPost(caller, body, file) => Create(s, caller, body, file, now)
    case TweetLike(id, caller) => Like(s, id, caller, now)
    case TweetDislike(id, caller) => Dislike(s, id, caller, now)
    case TweetRetweet(id, caller) => Retweet(s, id, caller, now)
    case TweetReply(caller, parent, body) => Reply(s, caller, parent, body, now)
    case TweetDelete(caller, id, replyId) => Delete(s, caller, id, replyId, now)
  }

  /** `post` has the users of `s`, and every tweet of `s` that `post` still holds has kept its
      owner, content, kind and creation time, its retweeters extended at the end at most. */
  ghost predicate HistoryKept(s: State, post: State)
  {
    && post.users == s.users
    && forall id :: id in s.tweets && id in post.tweets ==>
         && post.tweets[id].tweetedBy == s.tweets[id].tweetedBy
         && post.tweets[id].content == s.tweets[id].content
         && post.tweets[id].isReply == s.tweets[id].isReply
         && post.tweets[id].createdAt == s.tweets[id].createdAt
         && s.tweets[id].retweetBy <= post.tweets[id].retweetBy
  }

  /** Rewriting one tweet's lists and stamp, or storing a tweet under an id not yet used, keeps
      the history. */
  lemma PutKeepsHistory(s: State, post: State, id: TweetId, t: Tweet)
    requires post.users == s.users && post.tweets == s.tweets[id := t]
    requires id in s.tweets ==>
      && t.tweetedBy == s.tweets[id].tweetedBy && t.content == s.tweets[id].content
      && t.isReply == s.tweets[id].isReply && t.createdAt == s.tweets[id].createdAt
      && s.tweets[id].retweetBy <= t.retweetBy
    ensures HistoryKept(s, post)
  {
  }

  /** No tweet route changes the users, or a surviving tweet's owner, content, kind or creation
      time, and none removes a retweeter. */
  lemma TweetHistoryKept(s: State, req: TweetRequest, now: nat)
    requires IdsIssued(s)
    ensures HistoryKept(s, Handle(s, req, now).post)
  {
    var r := Handle(s, req, now);
    if r.post != s {
      match req
      case TweetPost(caller, body, file) =>
        PutKeepsHistory(s, r.post, s.nextId, r.post.tweets[s.nextId]);
      case TweetLike(id, caller) =>
        PutKeepsHistory(s, r.post, id, r.post.tweets[id]);
      case TweetDislike(id, caller) =>
        PutKeepsHistory(s, r.post, id, r.post.tweets[id]);
      case TweetRetweet(id, caller) =>
        PutKeepsHistory(s, r.post, id, r.post.tweets[id]);
      case TweetReply(caller, parent, body) =>
        ReplyKeepsHistory(s, caller, parent, body, now);
      case TweetDelete(caller, id, replyId) =>
        if replyId.Some? {
          PutKeepsHistory(s, r.post, id, r.post.tweets[id]);
        }
    }
  }

  /** A reply, saved under a fresh id and perhaps listed under its parent, keeps the history. */
  lemma ReplyKeepsHistory(s: State, caller: UserId, parent: TweetId, body: Body, now: nat)
    requires s.nextId !in s.tweets
    ensures HistoryKept(s, Reply(s, caller, parent, body, now).post)
  {
    var r := Reply(s, caller, parent, body, now);
    if r.status == Created || r.status.NotFound? {
      var mid := s.(tweets := s.tweets[s.nextId := r.post.tweets[s.nextId]]);
      if r.status == Created && parent != s.nextId {
        PutKeepsHistory(s, mid, s.nextId, r.post.tweets[s.nextId]);
        assert r.post.tweets == mid.tweets[parent := r.post.tweets[parent]];
        assert parent in mid.tweets;
        PutKeepsHistory(mid, r.post, parent, r.post.tweets[parent]);
      } else {
        PutKeepsHistory(s, r.post, s.nextId, r.post.tweets[s.nextId]);
      }
    }
  }

  /** A dislike right after a like gives back the likes the tweet had; only updatedAt moved. */
  lemma {:induction false} LikeThenDislike(s: State, id: TweetId, caller: UserId, t1: nat, t2: nat)
    requires Like(s, id, caller, t1).status == Ok
    ensures Dislike(Like(s, id, caller, t1).post, id, caller, t2)
         == Transition(Ok, s.(tweets := s.tweets[id := s.tweets[id].(updatedAt := t2)]))
  {
    PullAfterPush(s.tweets[id].likes, caller);
  }

  /** Liking twice: the second like is refused and changes nothing. */
  lemma LikeTwice(s: State, id: TweetId, caller: UserId, t1: nat, t2: nat)
    requires Like(s, id, caller, t1).status == Ok
    ensures var s1 := Like(s, id, caller, t1).post;
      Like(s1, id, caller, t2) == Transition(BadRequest(AlreadyLiked), s1)
  {
  }

  /** Retweeting twice: the second retweet is refused and changes nothing. */
  lemma RetweetTwice(s: State, id: TweetId, caller: UserId, t1: nat, t2: nat)
    requires Retweet(s, id, caller, t1).status == Ok
    ensures var s1 := Retweet(s, id, caller, t1).post;
      Retweet(s1, id, caller, t2) == Transition(BadRequest(AlreadyRetweeted), s1)
  {
  }

  /** In a store that keeps the invariant, a reply to an existing tweet succeeds and appears exactly
      once in the parent's replies, at the end, after the replies the parent already had. */
  lemma ReplyListedOnce(s: State, caller: UserId, parent: TweetId, body: Body, now: nat)
    requires Invariant(s)
    requires caller in s.users && Truthy(Field(body, "content")) && parent in s.tweets
    ensures var r := Reply(s, caller, parent, body, now);
      && r.status == Created
      && parent in r.post.tweets
      && r.post.tweets[parent].replies == s.tweets[parent].replies + [s.nextId]
      && multiset(r.post.tweets[parent].replies)[s.nextId] == 1
  {
    assert s.nextId !in s.tweets[parent].replies;
    assert multiset(s.tweets[parent].replies)[s.nextId] == 0;
  }

  /** A reply to an id that names no tweet, not even the reply being saved, is answered 404 but
      stays stored, owned by the caller, and no other tweet lists it. */
  lemma OrphanReplyStored(s: State, caller: UserId, parent: TweetId, body: Body, now: nat)
    requires Invariant(s)
    requires caller in s.users && Truthy(Field(body, "content"))
    requires parent !in s.tweets && parent != s.nextId
    ensures var r := Reply(s, caller, parent, body, now);
      && r.status == NotFound(ParentMissing)
      && s.nextId in r.post.tweets && r.post.tweets[s.nextId].isReply
      && r.post.tweets[s.nextId].tweetedBy == caller
      && forall id :: id in r.post.tweets && id != s.nextId ==> s.nextId !in r.post.tweets[id].replies
  {
    var r := Reply(s, caller, parent, body, now);
    forall id | id in r.post.tweets && id != s.nextId ensures s.nextId !in r.post.tweets[id].replies {
      assert r.post.tweets[id] == s.tweets[id];
    }
  }

  /** After a successful top-level delete the tweet cannot be fetched any more. */
  lemma DeleteThenGet(s: State, caller: UserId, id: TweetId, now: nat)
    requires Delete(s, caller, id, None, now).status == Ok
    ensures GetTweet(Delete(s, caller, id, None, now).post, id) == Response(NotFound(TweetMissing), None)
  {
  }

  /** A tweet created with an accepted image is served with the URL of the stored file:
      http://localhost:5000/tweets/tweet-<suffix><extension>. */
  lemma CreateThenGetImage(s: State, caller: UserId, body: Body, f: Upload, now: nat)
    requires Create(s, caller, body, Some(f), now).status == Created
    ensures var g := GetTweet(Create(s, caller, body, Some(f), now).post, s.nextId);
      && g.status == Ok
      && g.payload.value.image == Some(ServerUrl + ("tweets/tweet-" + f.suffix + ExtName(f.originalName)))
      && g.payload.value.tweetedBy.Some? && g.payload.value.tweetedBy.value.id == caller
  {
    var post := Create(s, caller, body, Some(f), now).post;
    var path := "tweets/tweet-" + f.suffix + ExtName(f.originalName);
    assert post.tweets[s.nextId].image == Some(path);
    assert path != [] by {
      assert path[0] == 't';
    }
  }

  /** Whenever the intended reply delete would succeed, the handler as written answers 500. */
  lemma ReplyDeleteNeverSucceeds(s: State, caller: UserId, tweetId: TweetId, reply: TweetId, now: nat)
    requires Delete(s, caller, tweetId, Some(reply), now).status == Ok
    ensures DeleteReplyAsWritten(s, caller, tweetId) == InternalError
  {
  }

  /** A concrete case: user 0 replied (tweet 1) to their own tweet 0 and deletes the reply. The
      intended handler removes it; the handler as written answers 500 and keeps it. */
  lemma ReplyDeleteDiscrepancy()
    ensures var u := NewUser("Ann", "ann@example.com", "ann", Crypto.Hash("pw", 10), 0);
      var parent := NewTweet("hi", 0, None, false, 0).(replies := [1]);
      var s := State(map[0 := u], map[0 := parent, 1 := NewTweet("re", 0, None, true, 0)], 2);
      && Delete(s, 0, 0, Some(1), 5).status == Ok
      && Delete(s, 0, 0, Some(1), 5).post.tweets[0].replies == []
      && DeleteReplyAsWritten(s, 0, 0) == InternalError
  {
  }
}
