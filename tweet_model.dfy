/** The Tweet document of the `TweetModel` schema. A reply is a Tweet with `isReply` set. */
module TweetModel {
  import opened Common

  /** `likes`, `retweetBy` and `replies` are id lists: the schema does not keep them duplicate-free. */
  datatype Tweet = Tweet(
    content: string,
    tweetedBy: UserId,
    likes: seq<UserId>,
    retweetBy: seq<UserId>,
    image: Option<string>,
    replies: seq<TweetId>,
    isReply: bool,
    createdAt: nat,
    updatedAt: nat)

  /** The schema's `required` validators: content must be a non-empty string. `tweetedBy` and
      `isReply` are always given by the handlers that build a tweet. */
  predicate ValidTweet(t: Tweet)
  {
    t.content != ""
  }

  /** `new TweetModel({ content, tweetedBy, isReply[, image] })`: the id lists start empty, because
      no handler that creates a tweet sets them; `save` validates exactly the tweets with content. */
  function NewTweet(content: string, owner: UserId, image: Option<string>, isReply: bool, now: nat): (r: Tweet)
    ensures r.likes == [] && r.retweetBy == [] && r.replies == []
    ensures r.createdAt == now && r.updatedAt == now
    ensures ValidTweet(r) <==> content != ""
  {
    Tweet(content, owner, [], [], image, [], isReply, now, now)
  }
}
