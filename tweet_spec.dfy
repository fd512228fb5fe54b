/** The handlers of tweet_route.js as functions from the collections before a request to the
    response and the collections after it. `caller` is the subject of the bearer token; the
    protectedResource middleware sets `req.user` to the stored user with that id, or to null when
    there is none, which is what `caller !in s.users` stands for. */
module TweetSpec {
  import opened Common
  import opened Lists
  import opened Text
  import opened UserModel
  import opened TweetModel
  import opened Store
  import opened UploadFilter

  const ServerUrl: string := "http://localhost:5000/"

  /** The only body field POST /api/tweet allows; the image comes as a multipart file. */
  const CreateFields: set<string> := {"content"}

  /** Where multer's disk storage puts an accepted tweet image: images/tweets/tweet-<suffix><ext>. */
  function TweetImagePath(f: Upload): string
  {
    "images/tweets/" + StoredName("tweet", f)
  }

  /** `req.file.path.replace('images/', '')`: the path stored in the tweet, relative to the images
      directory the server exposes. */
  function StoredImage(f: Upload): (r: string)
    ensures r == "tweets/tweet-" + f.suffix + ExtName(f.originalName)
  {
    var tail := f.suffix + ExtName(f.originalName);
    assert StoredName("tweet", f) == "tweet-" + tail;
    assert "images/tweets/" == "images/" + "tweets/";
    assert TweetImagePath(f) == "images/" + ("tweets/tweet-" + tail);
    ReplaceFirstOfPrefix("images/", "tweets/tweet-" + tail);
    ReplaceFirst(TweetImagePath(f), "images/", "")
  }

  /** POST /api/tweet. multer runs first: a file its filter rejects goes to Express's default error
      handler (500). Then `req.user._id` throws for a null user (500), then empty content (400),
      then any body key but `content` (400); otherwise the tweet is stored (201). */
  function Create(s: State, caller: UserId, body: Body, file: Option<Upload>, now: nat): (r: Transition)
    ensures r.status == InternalError <==> (file.Some? && !Accepts(file.value)) || caller !in s.users
    ensures r.status == BadRequest(ContentRequired) <==>
      (file.None? || Accepts(file.value)) && caller in s.users && !Truthy(Field(body, "content"))
    ensures r.status == BadRequest(FieldNotAllowed) <==>
      (file.None? || Accepts(file.value)) && caller in s.users && Truthy(Field(body, "content"))
      && !(body.Keys <= CreateFields)
    ensures r.status == Created <==>
      (file.None? || Accepts(file.value)) && caller in s.users && Truthy(Field(body, "content"))
      && body.Keys <= CreateFields
    ensures r.status != Created ==> r.post == s
    ensures r.status == Created ==>
      && r.post.users == s.users
      && r.post.nextId == s.nextId + 1
      && s.nextId in r.post.tweets
      && r.post.tweets == s.tweets[s.nextId := r.post.tweets[s.nextId]]
    ensures r.status == Created ==>
      var t := r.post.tweets[s.nextId];
      && t.content == body["content"] && t.tweetedBy == caller && !t.isReply
      && t.likes == [] && t.retweetBy == [] && t.replies == []
      && t.createdAt == now && t.updatedAt == now
      && t.image == (if file.Some? then Some("tweets/tweet-" + file.value.suffix + ExtName(file.value.originalName)) else None)
  {
    if file.Some? && !Accepts(file.value) then Transition(InternalError, s)
    else if caller !in s.users then Transition(InternalError, s)
    else if !Truthy(Field(body, "content")) then Transition(BadRequest(ContentRequired), s)
    else if !(body.Keys <= CreateFields) then Transition(BadRequest(FieldNotAllowed), s)
    else
      var image := if file.Some? then Some(StoredImage(file.value)) else None;
      var t := NewTweet(body["content"], caller, image, false, now);
      Transition(Created, s.(tweets := s.tweets[s.nextId := t], nextId := s.nextId + 1))
  }

  /** A tweet as the read paths send it: `tweetedBy` populated with the owner minus the password
      (null when the owner is not stored), and the image as a URL, or null when there is none. */
  datatype TweetView = TweetView(
    id: TweetId,
    content: string,
    tweetedBy: Option<PublicUser>,
    likes: seq<UserId>,
    retweetBy: seq<UserId>,
    image: Option<string>,
    replies: seq<TweetId>,
    isReply: bool,
    createdAt: nat,
    updatedAt: nat)

  /** `tweet.image ? 'http://localhost:5000/' + tweet.image : null` */
  function ImageUrl(image: Option<string>): Option<string>
  {
    if image.Some? && image.value != "" then Some(ServerUrl + image.value) else None
  }

  /** The stored tweet under `id` as a read sends it: its own fields, the owner populated without
      the password when the owner is stored, and the image path turned into a URL. */
  function View(s: State, id: TweetId): (v: TweetView)
    requires id in s.tweets
    ensures var t := s.tweets[id];
      && v.id == id && v.content == t.content && v.likes == t.likes && v.retweetBy == t.retweetBy
      && v.replies == t.replies && v.isReply == t.isReply
      && v.createdAt == t.createdAt && v.updatedAt == t.updatedAt
      && (v.tweetedBy.Some? <==> t.tweetedBy in s.users)
      && (v.tweetedBy.Some? ==> v.tweetedBy.value == Public(t.tweetedBy, s.users[t.tweetedBy]))
      && (v.image.None? <==> t.image.None? || t.image.value == "")
      && (v.image.Some? ==> v.image.value == ServerUrl + t.image.value)
  {
    var t := s.tweets[id];
    var owner := if t.tweetedBy in s.users then Some(Public(t.tweetedBy, s.users[t.tweetedBy])) else None;
    TweetView(id, t.content, owner, t.likes, t.retweetBy, ImageUrl(t.image), t.replies, t.isReply,
              t.createdAt, t.updatedAt)
  }

  /** GET /api/tweet/:id */
  function GetTweet(s: State, id: TweetId): (r: Response<TweetView>)
    ensures r.status == Ok <==> id in s.tweets
    ensures r.status != Ok ==> r == Response(NotFound(TweetMissing), None)
    ensures r.status == Ok ==> r.payload.Some? && r.payload.value.id == id
    ensures r.status == Ok ==>
      var v := r.payload.value; var t := s.tweets[id];
      && v.content == t.content && v.likes == t.likes && v.retweetBy == t.retweetBy
      && v.replies == t.replies && v.isReply == t.isReply
      && v.createdAt == t.createdAt && v.updatedAt == t.updatedAt
      && (v.tweetedBy.Some? <==> t.tweetedBy in s.users)
      && (v.tweetedBy.Some? ==> v.tweetedBy.value == Public(t.tweetedBy, s.users[t.tweetedBy]))
      && (v.image.None? <==> t.image.None? || t.image.value == "")
      && (v.image.Some? ==> v.image.value == ServerUrl + t.image.value)
  {
    if id in s.tweets then Response(Ok, Some(View(s, id))) else Response(NotFound(TweetMissing), None)
  }

  /** `m` has the latest createdAt among `ids`. */
  ghost predicate IsNewest(tweets: map<TweetId, Tweet>, ids: set<TweetId>, m: TweetId)
    requires ids <= tweets.Keys
  {
    m in ids && forall j :: j in ids ==> tweets[j].createdAt <= tweets[m].createdAt
  }

  lemma {:induction false} NewestExists(tweets: map<TweetId, Tweet>, ids: set<TweetId>)
    requires ids <= tweets.Keys && ids != {}
    ensures exists m :: IsNewest(tweets, ids, m)
    decreases ids
  {
    var x :| x in ids;
    if ids == {x} {
      assert IsNewest(tweets, ids, x);
    } else {
      NewestExists(tweets, ids - {x});
      var m :| IsNewest(tweets, ids - {x}, m);
      if tweets[x].createdAt <= tweets[m].createdAt {
        assert IsNewest(tweets, ids, m);
      } else {
        assert IsNewest(tweets, ids, x);
      }
    }
  }

  /** `.sort({ createdAt: -1 })` over the tweets with ids in `ids`: each exactly once, latest first.
      Tweets with equal createdAt come in an order the database chooses. */
  ghost function NewestFirst(tweets: map<TweetId, Tweet>, ids: set<TweetId>): (r: seq<TweetId>)
    requires ids <= tweets.Keys
    ensures forall id :: id in r <==> id in ids
    ensures NoDup(r)
    ensures forall i, j :: 0 <= i < j < |r| ==> tweets[r[i]].createdAt >= tweets[r[j]].createdAt
    decreases ids
  {
    if ids == {} then []
    else
      NewestExists(tweets, ids);
      var m :| IsNewest(tweets, ids, m);
      var rest := NewestFirst(tweets, ids - {m});
      assert forall i :: 0 <= i < |[m] + rest| ==> ([m] + rest)[i] == if i == 0 then m else rest[i - 1];
      [m] + rest
  }

  function Views(s: State, order: seq<TweetId>): (r: seq<TweetView>)
    requires forall id :: id in order ==> id in s.tweets
    ensures |r| == |order|
    ensures forall i :: 0 <= i < |r| ==> r[i] == View(s, order[i]) && r[i].id == order[i]
  {
    seq(|order|, i requires 0 <= i < |order| => View(s, order[i]))
  }

  /** The views of the tweets with ids in `ids`, each exactly once, latest first: what a `find`
      followed by `.sort({ createdAt: -1 })` returns. */
  ghost function NewestViews(s: State, ids: set<TweetId>): (r: seq<TweetView>)
    requires ids <= s.tweets.Keys
    ensures forall i :: 0 <= i < |r| ==> r[i].id in ids
    ensures forall i :: 0 <= i < |r| ==> r[i] == View(s, r[i].id)
    ensures forall t :: t in ids ==> exists i :: 0 <= i < |r| && r[i].id == t
    ensures forall i, j :: 0 <= i < j < |r| ==> r[i].id != r[j].id
    ensures forall i, j :: 0 <= i < j < |r| ==> s.tweets[r[i].id].createdAt >= s.tweets[r[j].id].createdAt
  {
    var order := NewestFirst(s.tweets, ids);
    var r := Views(s, order);
    forall t | t in ids ensures exists i :: 0 <= i < |r| && r[i].id == t {
      var i :| 0 <= i < |order| && order[i] == t;
      assert r[i].id == t;
    }
    forall i | 0 <= i < |r| ensures r[i].id in ids {
      assert order[i] in order;
    }
    r
  }

  /** GET /api/tweet: every tweet, latest first. */
  ghost function ListTweets(s: State): (r: seq<TweetView>)
    ensures forall id :: id in s.tweets <==> exists i :: 0 <= i < |r| && r[i].id == id
    ensures forall i :: 0 <= i < |r| ==> r[i].id in s.tweets && r[i] == View(s, r[i].id)
    ensures forall i, j :: 0 <= i < j < |r| ==> r[i].id != r[j].id
    ensures forall i, j :: 0 <= i < j < |r| ==> s.tweets[r[i].id].createdAt >= s.tweets[r[j].id].createdAt
  {
    NewestViews(s, s.tweets.Keys)
  }

  /** POST /api/tweet/:id/like. `req.user._id` is read before the try block of this async handler,
      so for a null user the promise rejects and no response is sent. */
  function Like(s: State, id: TweetId, caller: UserId, now: nat): (r: Transition)
    ensures r.status == NoReply <==> caller !in s.users
    ensures r.status == NotFound(TweetMissing) <==> caller in s.users && id !in s.tweets
    ensures r.status == BadRequest(AlreadyLiked) <==>
      caller in s.users && id in s.tweets && caller in s.tweets[id].likes
    ensures r.status == Ok <==> caller in s.users && id in s.tweets && caller !in s.tweets[id].likes
    ensures r.status != Ok ==> r.post == s
    ensures r.status == Ok ==> id in r.post.tweets && r.post == s.(tweets := s.tweets[id := r.post.tweets[id]])
    ensures r.status == Ok ==>
      r.post.tweets[id] == s.tweets[id].(likes := s.tweets[id].likes + [caller], updatedAt := now)
  {
    if caller !in s.users then Transition(NoReply, s)
    else if id !in s.tweets then Transition(NotFound(TweetMissing), s)
    else
      var t := s.tweets[id];
      if caller in t.likes then Transition(BadRequest(AlreadyLiked), s)
      else Transition(Ok, s.(tweets := s.tweets[id := t.(likes := t.likes + [caller], updatedAt := now)]))
  }

  /** POST /api/tweet/:id/dislike: `likes.pull(userId)` removes the caller. */
  function Dislike(s: State, id: TweetId, caller: UserId, now: nat): (r: Transition)
    ensures r.status == NoReply <==> caller !in s.users
    ensures r.status == NotFound(TweetMissing) <==> caller in s.users && id !in s.tweets
    ensures r.status == BadRequest(NotLiked) <==>
      caller in s.users && id in s.tweets && caller !in s.tweets[id].likes
    ensures r.status == Ok <==> caller in s.users && id in s.tweets && caller in s.tweets[id].likes
    ensures r.status != Ok ==> r.post == s
    ensures r.status == Ok ==> id in r.post.tweets && r.post == s.(tweets := s.tweets[id := r.post.tweets[id]])
    ensures r.status == Ok ==>
      && r.post.tweets[id] == s.tweets[id].(likes := Pull(s.tweets[id].likes, caller), updatedAt := now)
      && caller !in r.post.tweets[id].likes
  {
    if caller !in s.users then Transition(NoReply, s)
    else if id !in s.tweets then Transition(NotFound(TweetMissing), s)
    else
      var t := s.tweets[id];
      if caller !in t.likes then Transition(BadRequest(NotLiked), s)
      else Transition(Ok, s.(tweets := s.tweets[id := t.(likes := Pull(t.likes, caller), updatedAt := now)]))
  }

  /** POST /api/tweet/:id/retweet. No handler removes anyone from retweetBy. */
  function Retweet(s: State, id: TweetId, caller: UserId, now: nat): (r: Transition)
    ensures r.status == NoReply <==> caller !in s.users
    ensures r.status == NotFound(TweetMissing) <==> caller in s.users && id !in s.tweets
    ensures r.status == BadRequest(AlreadyRetweeted) <==>
      caller in s.users && id in s.tweets && caller in s.tweets[id].retweetBy
    ensures r.status == Ok <==> caller in s.users && id in s.tweets && caller !in s.tweets[id].retweetBy
    ensures r.status != Ok ==> r.post == s
    ensures r.status == Ok ==> id in r.post.tweets && r.post == s.(tweets := s.tweets[id := r.post.tweets[id]])
    ensures r.status == Ok ==>
      r.post.tweets[id] == s.tweets[id].(retweetBy := s.tweets[id].retweetBy + [caller], updatedAt := now)
  {
    if caller !in s.users then Transition(NoReply, s)
    else if id !in s.tweets then Transition(NotFound(TweetMissing), s)
    else
      var t := s.tweets[id];
      if caller in t.retweetBy then Transition(BadRequest(AlreadyRetweeted), s)
      else Transition(Ok, s.(tweets := s.tweets[id := t.(retweetBy := t.retweetBy + [caller], updatedAt := now)]))
  }

  /** POST /api/tweet/:id/reply. The reply is saved first; the parent is looked up afterwards, so a
      missing parent answers 404 with the reply already stored. The lookup happens after the save,
      so the reply's own id (`s.nextId`) counts as an existing parent. */
  function Reply(s: State, caller: UserId, parent: TweetId, body: Body, now: nat): (r: Transition)
    ensures r.status == InternalError <==> caller !in s.users
    ensures r.status == BadRequest(ContentRequired) <==> caller in s.users && !Truthy(Field(body, "content"))
    ensures r.status == NotFound(ParentMissing) <==>
      caller in s.users && Truthy(Field(body, "content")) && parent !in s.tweets && parent != s.nextId
    ensures r.status == Created <==>
      caller in s.users && Truthy(Field(body, "content")) && (parent in s.tweets || parent == s.nextId)
    ensures r.status == InternalError || r.status.BadRequest? ==> r.post == s
    ensures r.status == Created || r.status.NotFound? ==>
      && r.post.users == s.users
      && r.post.nextId == s.nextId + 1
      && s.nextId in r.post.tweets
      && var t := r.post.tweets[s.nextId];
      && t.content == body["content"] && t.tweetedBy == caller && t.isReply && t.image.None?
      && t.likes == [] && t.retweetBy == [] && t.createdAt == now
    ensures r.status.NotFound? ==> r.post.tweets == s.tweets[s.nextId := r.post.tweets[s.nextId]]
    ensures r.status == Created && parent == s.nextId ==>
      r.post.tweets == s.tweets[s.nextId := r.post.tweets[s.nextId]] && r.post.tweets[s.nextId].replies == [s.nextId]
    ensures r.status == Created && parent != s.nextId ==>
      && r.post.tweets[s.nextId].replies == []
      && parent in r.post.tweets
      && r.post.tweets == s.tweets[s.nextId := r.post.tweets[s.nextId]][parent := r.post.tweets[parent]]
      && r.post.tweets[parent] == s.tweets[parent].(replies := s.tweets[parent].replies + [s.nextId], updatedAt := now)
  {
    if caller !in s.users then Transition(InternalError, s)
    else if !Truthy(Field(body, "content")) then Transition(BadRequest(ContentRequired), s)
    else
      var id := s.nextId;
      var tweets := s.tweets[id := NewTweet(body["content"], caller, None, true, now)];
      var saved := s.(tweets := tweets, nextId := id + 1);
      if parent !in tweets then Transition(NotFound(ParentMissing), saved)
      else
        var p := tweets[parent];
        Transition(Created, saved.(tweets := tweets[parent := p.(replies := p.replies + [id], updatedAt := now)]))
  }

  /** DELETE /api/tweet/:tweetId[?replyId=...] with the reply branch as it is evidently meant to
      work: 404 unless the parent lists the reply, 403 unless the caller owns the reply, and then
      only that id leaves the parent's replies. Without a replyId: 404, 403 unless the caller owns
      the tweet, then only that record is removed; replies and other tweets' lists are untouched. */
  function Delete(s: State, caller: UserId, tweetId: TweetId, replyId: Option<TweetId>, now: nat): (r: Transition)
    ensures r.status == Unauthorized <==> caller !in s.users
    ensures r.status != Ok ==> r.post == s
    ensures replyId.None? ==>
      && (r.status == NotFound(TweetMissing) <==> caller in s.users && tweetId !in s.tweets)
      && (r.status == Forbidden <==>
            caller in s.users && tweetId in s.tweets && s.tweets[tweetId].tweetedBy != caller)
      && (r.status == Ok <==> caller in s.users && tweetId in s.tweets && s.tweets[tweetId].tweetedBy == caller)
    ensures replyId.None? && r.status == Ok ==> r.post == s.(tweets := s.tweets - {tweetId})
    ensures replyId.Some? ==>
      && (r.status == NotFound(ParentMissing) <==> caller in s.users && tweetId !in s.tweets)
      && (r.status == NotFound(ReplyMissing) <==>
            caller in s.users && tweetId in s.tweets && replyId.value !in s.tweets[tweetId].replies)
      && (r.status == Forbidden <==>
            caller in s.users && tweetId in s.tweets && replyId.value in s.tweets[tweetId].replies
            && (replyId.value !in s.tweets || s.tweets[replyId.value].tweetedBy != caller))
      && (r.status == Ok <==>
            caller in s.users && tweetId in s.tweets && replyId.value in s.tweets[tweetId].replies
            && replyId.value in s.tweets && s.tweets[replyId.value].tweetedBy == caller)
    ensures replyId.Some? && r.status == Ok ==>
      && tweetId in r.post.tweets
      && r.post == s.(tweets := s.tweets[tweetId := r.post.tweets[tweetId]])
      && r.post.tweets[tweetId] == s.tweets[tweetId].(replies := Pull(s.tweets[tweetId].replies, replyId.value), updatedAt := now)
      && replyId.value !in r.post.tweets[tweetId].replies
  {
    if caller !in s.users then Transition(Unauthorized, s)
    else if replyId.Some? then
      if tweetId !in s.tweets then Transition(NotFound(ParentMissing), s)
      else
        var p := s.tweets[tweetId];
        var reply := replyId.value;
        if reply !in p.replies then Transition(NotFound(ReplyMissing), s)
        else if reply !in s.tweets || s.tweets[reply].tweetedBy != caller then Transition(Forbidden, s)
        else Transition(Ok, s.(tweets := s.tweets[tweetId := p.(replies := Pull(p.replies, reply), updatedAt := now)]))
    else if tweetId !in s.tweets then Transition(NotFound(TweetMissing), s)
    else if s.tweets[tweetId].tweetedBy != caller then Transition(Forbidden, s)
    else Transition(Ok, s.(tweets := s.tweets - {tweetId}))
  }

  /** The reply branch of DELETE /api/tweet/:tweetId as written: `replies` is an array of
      ObjectIds, which has no `.id()` method, so once the parent is found the call throws and the
      catch answers 500. It never answers 200 and never changes anything. */
  function DeleteReplyAsWritten(s: State, caller: UserId, tweetId: TweetId): (st: Status)
    ensures st != Ok
    ensures st == Unauthorized <==> caller !in s.users
    ensures st == NotFound(ParentMissing) <==> caller in s.users && tweetId !in s.tweets
    ensures st == InternalError <==> caller in s.users && tweetId in s.tweets
  {
    if caller !in s.users then Unauthorized
    else if tweetId !in s.tweets then NotFound(ParentMissing)
    else InternalError
  }
}
