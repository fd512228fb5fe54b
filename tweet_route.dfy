/** The state-changing handlers of tweet_route.js as methods on the database object: each loads
    what it needs, tests it, and writes back, in the order the handler does. Each is proved to
    behave as its step function in TweetSpec and to keep the store invariant. The read-only
    handlers (get by id, list) are the functions TweetSpec.GetTweet and TweetSpec.ListTweets. */
module TweetRoute {
  import opened Common
  import Lists
  import opened TweetModel
  import opened Store
  import opened UploadFilter
  import TweetSpec
  import TweetLaws

  /** POST /api/tweet */
  method PostTweet(db: Database, caller: UserId, body: Body, file: Option<Upload>, now: nat) returns (status: Status)
    requires db.Valid()
    modifies db
    ensures db.Valid()
    ensures Transition(status, db.Snapshot()) == TweetSpec.Create(old(db.Snapshot()), caller, body, file, now)
  {
    TweetLaws.CreateKeepsInvariant(db.Snapshot(), caller, body, file, now);
    status := PostTweetChecked(db, caller, body, file, now);
  }

  /** The checks and writes of PostTweet, in the handler's order. */
  method PostTweetChecked(db: Database, caller: UserId, body: Body, file: Option<Upload>, now: nat) returns (status: Status)
    modifies db
    ensures Transition(status, db.Snapshot()) == TweetSpec.Create(old(db.Snapshot()), caller, body, file, now)
  {
    if file.Some? && !Accepts(file.value) {
      return InternalError;
    }
    if caller !in db.users {
      return InternalError;
    }
    if !Truthy(Field(body, "content")) {
      return BadRequest(ContentRequired);
    }
    var bad := FindDisallowedKey(body, TweetSpec.CreateFields);
    if bad.Some? {
      return BadRequest(FieldNotAllowed);
    }
    var image := if file.Some? then Some(TweetSpec.StoredImage(file.value)) else None;
    var id := db.InsertTweet(NewTweet(body["content"], caller, image, false, now));
    return Created;
  }

  /** POST /api/tweet/:id/like */
  method LikeTweet(db: Database, id: TweetId, caller: UserId, now: nat) returns (status: Status)
    requires db.Valid()
    modifies db
    ensures db.Valid()
    ensures Transition(status, db.Snapshot()) == TweetSpec.Like(old(db.Snapshot()), id, caller, now)
  {
    TweetLaws.LikeKeepsInvariant(db.Snapshot(), id, caller, now);
    status := LikeTweetChecked(db, id, caller, now);
  }

  /** The checks and writes of LikeTweet, in the handler's order. */
  method LikeTweetChecked(db: Database, id: TweetId, caller: UserId, now: nat) returns (status: Status)
    modifies db
    ensures Transition(status, db.Snapshot()) == TweetSpec.Like(old(db.Snapshot()), id, caller, now)
  {
    if caller !in db.users {
      return NoReply;
    }
    if id !in db.tweets {
      return NotFound(TweetMissing);
    }
    var tweet := db.tweets[id];
    if caller in tweet.likes {
      return BadRequest(AlreadyLiked);
    }
    tweet := tweet.(likes := tweet.likes + [caller]);
    db.tweets := db.tweets[id := tweet.(updatedAt := now)];
    return Ok;
  }

  /** POST /api/tweet/:id/dislike */
  method DislikeTweet(db: Database, id: TweetId, caller: UserId, now: nat) returns (status: Status)
    requires db.Valid()
    modifies db
    ensures db.Valid()
    ensures Transition(status, db.Snapshot()) == TweetSpec.Dislike(old(db.Snapshot()), id, caller, now)
  {
    TweetLaws.DislikeKeepsInvariant(db.Snapshot(), id, caller, now);
    status := DislikeTweetChecked(db, id, caller, now);
  }

  /** The checks and writes of DislikeTweet, in the handler's order. */
  method DislikeTweetChecked(db: Database, id: TweetId, caller: UserId, now: nat) returns (status: Status)
    modifies db
    ensures Transition(status, db.Snapshot()) == TweetSpec.Dislike(old(db.Snapshot()), id, caller, now)
  {
    if caller !in db.users {
      return NoReply;
    }
    if id !in db.tweets {
      return NotFound(TweetMissing);
    }
    var tweet := db.tweets[id];
    if caller !in tweet.likes {
      return BadRequest(NotLiked);
    }
    tweet := tweet.(likes := Lists.Pull(tweet.likes, caller));
    db.tweets := db.tweets[id := tweet.(updatedAt := now)];
    return Ok;
  }

  /** POST /api/tweet/:id/retweet */
  method RetweetTweet(db: Database, id: TweetId, caller: UserId, now: nat) returns (status: Status)
    requires db.Valid()
    modifies db
    ensures db.Valid()
    ensures Transition(status, db.Snapshot()) == TweetSpec.Retweet(old(db.Snapshot()), id, caller, now)
  {
    TweetLaws.RetweetKeepsInvariant(db.Snapshot(), id, caller, now);
    status := RetweetTweetChecked(db, id, caller, now);
  }

  /** The checks and writes of RetweetTweet, in the handler's order. */
  method RetweetTweetChecked(db: Database, id: TweetId, caller: UserId, now: nat) returns (status: Status)
    modifies db
    ensures Transition(status, db.Snapshot()) == TweetSpec.Retweet(old(db.Snapshot()), id, caller, now)
  {
    if caller !in db.users {
      return NoReply;
    }
    if id !in db.tweets {
      return NotFound(TweetMissing);
    }
    var tweet := db.tweets[id];
    if caller in tweet.retweetBy {
      return BadRequest(AlreadyRetweeted);
    }
    tweet := tweet.(retweetBy := tweet.retweetBy + [caller]);
    db.tweets := db.tweets[id := tweet.(updatedAt := now)];
    return Ok;
  }

  /** POST /api/tweet/:id/reply: save the reply, then `$push` its id onto the parent. */
  method ReplyToTweet(db: Database, caller: UserId, parent: TweetId, body: Body, now: nat) returns (status: Status)
    requires db.Valid()
    modifies db
    ensures db.Valid()
    ensures Transition(status, db.Snapshot()) == TweetSpec.Reply(old(db.Snapshot()), caller, parent, body, now)
  {
    TweetLaws.ReplyKeepsInvariant(db.Snapshot(), caller, parent, body, now);
    status := ReplyToTweetChecked(db, caller, parent, body, now);
  }

  /** The checks and writes of ReplyToTweet, in the handler's order. */
  method ReplyToTweetChecked(db: Database, caller: UserId, parent: TweetId, body: Body, now: nat) returns (status: Status)
    modifies db
    ensures Transition(status, db.Snapshot()) == TweetSpec.Reply(old(db.Snapshot()), caller, parent, body, now)
  {
    if caller !in db.users {
      return InternalError;
    }
    if !Truthy(Field(body, "content")) {
      return BadRequest(ContentRequired);
    }
    var id := db.InsertTweet(NewTweet(body["content"], caller, None, true, now));
    if parent !in db.tweets {
      return NotFound(ParentMissing);
    }
    var p := db.tweets[parent];
    db.tweets := db.tweets[parent := p.(replies := p.replies + [id], updatedAt := now)];
    return Created;
  }

  /** DELETE /api/tweet/:tweetId[?replyId=...], with the reply branch as intended. */
  method DeleteTweet(db: Database, caller: UserId, tweetId: TweetId, replyId: Option<TweetId>, now: nat) returns (status: Status)
    requires db.Valid()
    modifies db
    ensures db.Valid()
    ensures Transition(status, db.Snapshot()) == TweetSpec.Delete(old(db.Snapshot()), caller, tweetId, replyId, now)
  {
    TweetLaws.DeleteKeepsInvariant(db.Snapshot(), caller, tweetId, replyId, now);
    status := DeleteTweetChecked(db, caller, tweetId, replyId, now);
  }

  /** The checks and writes of DeleteTweet, in the handler's order. */
  method DeleteTweetChecked(db: Database, caller: UserId, tweetId: TweetId, replyId: Option<TweetId>, now: nat) returns (status: Status)
    modifies db
    ensures Transition(status, db.Snapshot()) == TweetSpec.Delete(old(db.Snapshot()), caller, tweetId, replyId, now)
  {
    if caller !in db.users {
      return Unauthorized;
    }
    if replyId.Some? {
      if tweetId !in db.tweets {
        return NotFound(ParentMissing);
      }
      var p := db.tweets[tweetId];
      var reply := replyId.value;
      if reply !in p.replies {
        return NotFound(ReplyMissing);
      }
      if reply !in db.tweets || db.tweets[reply].tweetedBy != caller {
        return Forbidden;
      }
      db.tweets := db.tweets[tweetId := p.(replies := Lists.Pull(p.replies, reply), updatedAt := now)];
      return Ok;
    }
    if tweetId !in db.tweets {
      return NotFound(TweetMissing);
    }
    if db.tweets[tweetId].tweetedBy != caller {
      return Forbidden;
    }
    db.tweets := db.tweets - {tweetId};
    return Ok;
  }
}
