# Twitter clone backend, modelled in Dafny

This project models the backend of a small Twitter clone. The backend is an Express server over two
MongoDB collections, users and tweets, accessed through Mongoose. The model covers:

- the two schemas (`UserModel`, `TweetModel`);
- every handler of the three route files: tweets, users and the social graph, registration and login;
- the multer file filter both upload routes install.

Each handler is a step function from the collections before a request to the status it answers and
the collections after it (`Store.Transition`). Read-only handlers are functions that return a
`Store.Response`. The handlers that write are also methods on a database object
(`Store.Database`), whose fields are the two collections and the id counter. Each method is proved:

- to end in the state its step function gives;
- to keep the store invariant `Store.Invariant`.

The invariant says that:

- email and userName are unique;
- stored userNames are trimmed;
- follow, like and retweet lists have no duplicates;
- every follow edge is recorded on both users;
- every id was issued.

The protected routes receive the caller's id, the subject of the bearer token. `caller !in s.users`
stands for the middleware having set `req.user` to null. What happens then follows each handler's
code:

- a synchronous handler throws on `req.user._id`, and Express answers 500;
- the async like, dislike and retweet handlers read it outside their `try`, so no response is sent
  (`NoReply`);
- delete checks `req.user` and answers 401.

The clock, the random file-name suffix and the bcrypt salt are parameters: `now`, `Upload.suffix`
and `salt`.

Module layout:

- `Common`, `Lists`, `Text`, `Crypto`: shared vocabulary, and the JavaScript, Mongoose and library
  operations the handlers rely on.
- `UserModel`, `TweetModel`: the schemas.
- `Store`: the collections, the invariant and the database class.
- `UploadFilter`: the multer filter.
- `TweetSpec`, `UserSpec`, `AuthSpec`: the handlers as step functions.
- `TweetLaws`, `UserLaws`, `AuthLaws`: what is proved about them.
- `TweetRoute`, `UserRoute`, `AuthRoute`: the writing handlers as methods.

Every route method is split in two. The handler method proves the invariant by a lemma, then calls
its `...Checked` (or `...Chain`) method. That method performs the handler's checks and writes in the
source's order.

The model follows the code's behaviour where its comments and the client suggest otherwise. The
Mongoose semantics are those of version 6. The update at user_route.js:107 drops keys whose value
is `undefined`, which version 5 would write as null. The tweet delete at tweet_route.js:276 calls
`document.remove()`, which version 7 removed. In version 6 a query casts its filter through the
schema, so the `trim` setter of userName runs on the userName condition of a lookup. The quirks
the model keeps:

- The "conflict" answers (already liked, already following, ...) are 400, not 409.
- Follow and unfollow keep writing after their 400 answers: the promise chain goes on. Unfollow's
  decision is taken on the caller's `following` list.
- A reply is stored before its parent is looked up. It stays stored when the parent is missing
  (404). Its own id counts as an existing parent.
- The upload filter is an unanchored regular-expression test. It lower-cases the extension but not
  the MIME type.
- Registration and login look a userName up trimmed, as it is stored. " bob" is "not available"
  (400) when "bob" exists, and logs in as bob. The email is compared as sent. After the lookup,
  `save` can fail only on a userName made of white space (500).
- The reply branch of delete cannot answer 200 as written (see Findings). The model uses the
  intended behaviour and records the written one beside it.

## Model

| member | source | states |
|---|---|---|
| Common.FindDisallowedKey | backend/routes/tweet_route.js:45-50 | finds a body key outside the allow-list exactly when one exists; a key it returns is in the body and not allowed |
| Lists.Pull | backend/routes/tweet_route.js:174 | `pull(x)`: the result holds exactly the elements of the list other than `x`, and is the list itself when `x` is absent |
| Lists.AddToSet | backend/routes/user_route.js:202-214 | `$addToSet`: the result holds exactly the list's elements and `x` |
| Lists.KeepIn | backend/routes/user_route.js:126-142 | populate drops ids of missing users: the result holds exactly the ids that are also in the keep set, and is the list itself when all are kept |
| Lists.NoDupAppend | backend/routes/tweet_route.js:141-146 | pushing an id that the includes-check found absent keeps a list duplicate-free |
| Lists.AddToSetNoDup | backend/routes/user_route.js:202-214 | `$addToSet` never creates a duplicate |
| Lists.PullNoDup | backend/routes/user_route.js:248-260 | pulling never creates a duplicate |
| Lists.PullAfterPush | backend/routes/tweet_route.js:146-174 | pulling an id just pushed onto a list without it gives back that list |
| Lists.PullAfterAddToSet | backend/routes/user_route.js:202-260 | `$addToSet` then `$pull` of an absent id gives back the list |
| Text.Trim | backend/models/user_model.js:25 | the `trim` setter: leading, then trailing white space removed (what it keeps and cuts is stated by Text.TrimStart, Text.TrimEnd and Text.TrimIsTrimmed) |
| Text.TrimStart | backend/models/user_model.js:25 | removes exactly the leading white space: a suffix of the input, every dropped character a space, the first kept one not |
| Text.TrimEnd | backend/models/user_model.js:25 | removes exactly the trailing white space: a prefix of the input, every dropped character a space, the last kept one not |
| Text.TrimIsTrimmed | backend/models/user_model.js:21-26 | the trimmed userName is a contiguous piece of the input with no white space at either end |
| Text.TrimOfTrimmed | backend/models/user_model.js:21-26 | a string without white space at either end is its own trim |
| Text.TrimIdempotent | backend/models/user_model.js:21-26 | trimming twice is trimming once |
| Text.IndexOfFrom | backend/routes/tweet_route.js:62 | the first occurrence of the pattern at or after `from`, or none when there is no occurrence there |
| Text.ReplaceFirst | backend/routes/tweet_route.js:62 | `replace` with a string pattern: the input unchanged when the pattern does not occur; otherwise the first occurrence, and only it, replaced |
| Text.ReplaceFirstOfPrefix | backend/routes/tweet_route.js:62 | `replace('images/', '')` on a path that starts with "images/" drops exactly that prefix |
| Text.LowerChar | backend/routes/tweet_route.js:26 | `toLowerCase` of one ASCII character: never an upper-case letter; an upper-case letter becomes the same letter in lower case, every other character is kept |
| Text.LowerAscii | backend/routes/tweet_route.js:26 | `toLowerCase` on ASCII: same length, each character lower-cased in place |
| Text.LastDot | backend/routes/tweet_route.js:17 | the index of the last '.', or none when there is no '.' |
| Text.ExtName | backend/routes/tweet_route.js:17 | `path.extname`: a suffix of the name that starts with its only '.'; empty exactly when no '.' follows the first character, or for ".." |
| UserModel.ValidUser | backend/models/user_model.js:8-30 | the `required` validators: fullName, email and userName non-empty |
| UserModel.NewUser | backend/models/user_model.js:5-65 | a new user keeps fullName, email and the digest as given, has the trimmed userName, the schema defaults (the fixed profileImg URL, location "test", dateOfBirth null), empty follow lists and both timestamps at insertion; it is valid exactly when fullName and email are non-empty and the trimmed userName is not |
| TweetModel.NewTweet | backend/models/tweet_model.js:5-50 | a new tweet starts with no likes, retweets or replies and both timestamps at insertion, and is valid exactly when it has content |
| Store.Insertable | backend/models/user_model.js:14-26 | `save` of a new user passes the validators and both unique indexes: no stored user has its email or its userName |
| Store.Database.InsertTweet | backend/routes/tweet_route.js:66-69 | `save` stores the tweet under the next id and changes nothing else |
| Store.Database.InsertUser | backend/routes/auth_route.js:42-49 | `save` refuses exactly the users that fail validation or a unique index, and then changes nothing; otherwise it stores the user under the next id |
| UploadFilter.Accepts | backend/routes/tweet_route.js:22-31 | the `fileFilter` of both upload routes (also user_route.js:25-33): the MIME type as sent and the lower-cased extension must each contain "jpeg", "jpg" or "png" |
| UploadFilter.NoExtensionRefused | backend/routes/tweet_route.js:23-31 | a file name without an extension (a dotfile such as ".png" included) is refused, whatever its MIME type |
| UploadFilter.MimeWithoutJOrPRefused | backend/routes/tweet_route.js:25 | the MIME type is matched as sent, without lower-casing, so "IMAGE/PNG" is refused |
| UploadFilter.UpperCaseExtensionAccepted | backend/routes/tweet_route.js:23-29 | the extension is lower-cased before the test, and the MIME type only has to contain "png": "x.PNG" is accepted |
| TweetSpec.StoredImage | backend/routes/tweet_route.js:62 | the stored image path is tweets/tweet-<suffix><extension>: multer's path with its first "images/" removed |
| TweetSpec.Create | backend/routes/tweet_route.js:35-78 | checks in order: rejected file 500, null user 500, empty content 400, a key other than content 400, each branch iff its condition and writing nothing; otherwise only the new tweet is stored, owned by the caller, not a reply, with empty lists and the stored image path |
| TweetSpec.View | backend/routes/tweet_route.js:85-96 | a tweet as the read routes send it: its stored fields and timestamps, the owner populated without the password when stored (null otherwise), and the image as "http://localhost:5000/" + path, or null when there is none |
| TweetSpec.GetTweet | backend/routes/tweet_route.js:81-104 | 404 iff the tweet is absent; otherwise the stored fields and both timestamps, the owner populated without the password when stored, and the image as "http://localhost:5000/" + path, or null when there is none |
| TweetSpec.NewestFirst | backend/routes/tweet_route.js:110 | `.sort({ createdAt: -1 })`: every id of the set exactly once, createdAt non-increasing |
| TweetSpec.Views | backend/routes/tweet_route.js:114-117 | one view per id, in the same order |
| TweetSpec.NewestViews | backend/routes/tweet_route.js:108-117 | the views of exactly the given tweets, each once and each the view of the stored tweet, ordered by the stored createdAt, latest first |
| TweetSpec.ListTweets | backend/routes/tweet_route.js:107-124 | every stored tweet exactly once and nothing else, each as the view of the stored tweet, ordered by the stored createdAt, latest first |
| TweetSpec.Like | backend/routes/tweet_route.js:129-154 | null user: no reply; 404 iff missing; 400 iff the caller is in likes; otherwise only that tweet changes: the caller is appended to likes and updatedAt is stamped |
| TweetSpec.Dislike | backend/routes/tweet_route.js:157-182 | null user: no reply; 404 iff missing; 400 iff the caller is not in likes; otherwise only that tweet changes and the caller is no longer in likes |
| TweetSpec.Retweet | backend/routes/tweet_route.js:290-321 | null user: no reply; 404 iff missing; 400 iff the caller is in retweetBy; otherwise only that tweet changes: the caller is appended to retweetBy |
| TweetSpec.Reply | backend/routes/tweet_route.js:186-225 | null user 500 and empty content 400, writing nothing; otherwise the reply is stored, owned by the caller with isReply set; 404 iff the parent is missing (the reply stays); otherwise its id is appended to the parent's replies |
| TweetSpec.Delete | backend/routes/tweet_route.js:230-284 | 401 iff null user; reply mode: 404 for a missing parent, 404 unless the parent lists the reply, 403 unless the caller owns it, else only that id leaves the parent's replies; tweet mode: 404, 403 unless owner, else only that record is removed |
| TweetSpec.DeleteReplyAsWritten | backend/routes/tweet_route.js:242-263 | the reply branch as written never answers 200: 401 iff null user, 404 iff the parent is missing, 500 otherwise |
| TweetLaws.CreateKeepsInvariant | backend/routes/tweet_route.js:35-78 | creating a tweet keeps the store invariant |
| TweetLaws.ReplyKeepsInvariant | backend/routes/tweet_route.js:186-225 | replying keeps the invariant, also when the reply is orphaned |
| TweetLaws.ReplyTweets | backend/routes/tweet_route.js:205-213 | after a saved reply the tweets stay well-formed, with ids below the new counter, and the users are untouched |
| TweetLaws.LikeKeepsInvariant | backend/routes/tweet_route.js:141-147 | a like keeps likes duplicate-free, and the invariant |
| TweetLaws.DislikeKeepsInvariant | backend/routes/tweet_route.js:169-175 | a dislike keeps the invariant |
| TweetLaws.RetweetKeepsInvariant | backend/routes/tweet_route.js:303-309 | a retweet keeps retweetBy duplicate-free, and the invariant |
| TweetLaws.DeleteKeepsInvariant | backend/routes/tweet_route.js:230-284 | both delete modes keep the invariant |
| TweetLaws.Handle | backend/routes/tweet_route.js:35-321 | the router over the six writing tweet routes |
| TweetLaws.TweetHistoryKept | backend/routes/tweet_route.js:129-321 | no tweet route changes the users; a tweet that survives a request keeps its owner, content, kind and createdAt; retweetBy only grows at the end (no route removes a retweet) |
| TweetLaws.ReplyKeepsHistory | backend/routes/tweet_route.js:205-213 | the two writes of a reply keep every surviving tweet's history |
| TweetLaws.LikeThenDislike | backend/routes/tweet_route.js:146-174 | a dislike right after a like restores the likes; only updatedAt moved |
| TweetLaws.LikeTwice | backend/routes/tweet_route.js:141-143 | a second like by the same user is refused with 400 and writes nothing |
| TweetLaws.RetweetTwice | backend/routes/tweet_route.js:303-305 | a second retweet by the same user is refused with 400 and writes nothing |
| TweetLaws.ReplyListedOnce | backend/routes/tweet_route.js:209-219 | a reply to an existing tweet answers 201 and its id appears exactly once in the parent's replies, at the end |
| TweetLaws.OrphanReplyStored | backend/routes/tweet_route.js:205-217 | a reply to a missing parent answers 404 yet stays stored, owned by the caller, listed by no tweet |
| TweetLaws.DeleteThenGet | backend/routes/tweet_route.js:276 | after a successful delete the tweet answers 404 |
| TweetLaws.CreateThenGetImage | backend/routes/tweet_route.js:62 | a tweet created with an image is served with http://localhost:5000/tweets/tweet-<suffix><extension> and its owner populated |
| TweetLaws.ReplyDeleteNeverSucceeds | backend/routes/tweet_route.js:249 | whenever the intended reply delete succeeds, the code as written answers 500 |
| TweetLaws.ReplyDeleteDiscrepancy | backend/routes/tweet_route.js:249-263 | a concrete store where the intended handler removes the reply and the written one answers 500 |
| TweetRoute.PostTweet | backend/routes/tweet_route.js:35-78 | the method ends in the state TweetSpec.Create gives and keeps the invariant |
| TweetRoute.PostTweetChecked | backend/routes/tweet_route.js:40-69 | the checks in the handler's order, then the insert: the state TweetSpec.Create gives |
| TweetRoute.LikeTweet | backend/routes/tweet_route.js:129-154 | as TweetSpec.Like, keeping the invariant |
| TweetRoute.LikeTweetChecked | backend/routes/tweet_route.js:134-147 | the lookup, the includes-check and the push, as TweetSpec.Like |
| TweetRoute.DislikeTweet | backend/routes/tweet_route.js:157-182 | as TweetSpec.Dislike, keeping the invariant |
| TweetRoute.DislikeTweetChecked | backend/routes/tweet_route.js:162-175 | the lookup, the includes-check and the pull, as TweetSpec.Dislike |
| TweetRoute.RetweetTweet | backend/routes/tweet_route.js:290-321 | as TweetSpec.Retweet, keeping the invariant |
| TweetRoute.RetweetTweetChecked | backend/routes/tweet_route.js:296-309 | the lookup, the includes-check and the push, as TweetSpec.Retweet |
| TweetRoute.ReplyToTweet | backend/routes/tweet_route.js:186-225 | as TweetSpec.Reply, keeping the invariant |
| TweetRoute.ReplyToTweetChecked | backend/routes/tweet_route.js:192-219 | save first, then the `$push` onto the parent, as TweetSpec.Reply |
| TweetRoute.DeleteTweet | backend/routes/tweet_route.js:230-284 | as TweetSpec.Delete, keeping the invariant |
| TweetRoute.DeleteTweetChecked | backend/routes/tweet_route.js:236-278 | the checks of both modes and the one write, as TweetSpec.Delete |
| UserSpec.ProfilePicUrl | backend/routes/user_route.js:42 | the picture URL is http://localhost:5000/images/profilePic-<suffix><extension> |
| UserSpec.UploadProfilePic | backend/routes/user_route.js:37-56 | rejected file 500, no file 400, missing user 404, each iff its condition and writing nothing; otherwise only the target's profileImg and updatedAt change; the caller is not checked |
| UserSpec.GetProfilePic | backend/routes/user_route.js:59-78 | 404 for a missing user or an empty profileImg; otherwise a redirect to the stored URL |
| UserSpec.ApplyProfileEdit | backend/routes/user_route.js:93-107 | the update writes only fullName, dateOfBirth and location, each only when sent ("" dateOfBirth becomes null); email, userName, password, lists and createdAt are kept |
| UserSpec.EditProfile | backend/routes/user_route.js:82-118 | checks in order: null user 500, another user's id 403, a key outside the three fields 400, all three falsy 400, each writing nothing; otherwise only the caller's record is updated |
| UserSpec.GetProfile | backend/routes/user_route.js:123-156 | 404 iff missing; otherwise the stored fields and both timestamps without the password, and the follow lists restricted to stored users |
| UserSpec.UserTweets | backend/routes/user_route.js:159-178 | exactly the tweets owned by the id, each once and each the view of the stored tweet, ordered by the stored createdAt, latest first; an unknown id gives an empty list |
| UserSpec.Follow | backend/routes/user_route.js:182-225 | null user 500, self 400, missing target 500 (writing nothing); "already following" 400 iff the caller is in the target's followers, and the caller's following still gains the target; otherwise both lists gain the edge; no other user changes |
| UserSpec.Unfollow | backend/routes/user_route.js:229-272 | null user 500, self 400 (writing nothing); "not following" 400 iff the target is not in the caller's following, and the target's followers still lose the caller; otherwise both sides lose the edge; no other user changes |
| UserLaws.SameLinksKeepsInvariant | backend/routes/user_route.js:45 | rewriting a user without touching its logins or follow lists keeps the invariant |
| UserLaws.AddEdgeGraph | backend/routes/user_route.js:202-214 | recording a follow on both sides keeps the follow graph two-sided and closed |
| UserLaws.RemoveEdgeGraph | backend/routes/user_route.js:248-260 | erasing a follow on both sides keeps the follow graph two-sided and closed |
| UserLaws.RemoveEdgeUsers | backend/routes/user_route.js:248-260 | erasing a follow on both sides keeps logins unique, users well-formed and the graph two-sided |
| UserLaws.UploadProfilePicKeepsInvariant | backend/routes/user_route.js:37-56 | a picture upload keeps the invariant |
| UserLaws.EditProfileKeepsInvariant | backend/routes/user_route.js:82-118 | a profile edit keeps the invariant |
| UserLaws.FollowKeepsInvariant | backend/routes/user_route.js:182-225 | follow keeps the invariant on all paths, its 400 included |
| UserLaws.UnfollowKeepsInvariant | backend/routes/user_route.js:229-272 | unfollow keeps the invariant on all paths, its 400 included |
| UserLaws.UnfollowEdgeKeepsInvariant | backend/routes/user_route.js:248-260 | a successful unfollow keeps the invariant |
| UserLaws.UnfollowEdgePost | backend/routes/user_route.js:248-260 | a successful unfollow's two writes as one map update |
| UserLaws.FollowSteps | backend/routes/user_route.js:197-214 | the writes of a follow past its first checks: on "already following" only the caller's following, otherwise both users |
| UserLaws.UnfollowedSteps | backend/routes/user_route.js:248-260 | the writes of an unfollow that removes an edge |
| UserLaws.NotFollowingSteps | backend/routes/user_route.js:243-260 | the writes of an unfollow refused with "not following": only the target's followers |
| UserLaws.Handle | backend/routes/user_route.js:37-272 | the router over the routes that write users, registration included |
| UserLaws.AccountsKeptByRoutes | backend/routes/user_route.js:37-272 | no route deletes a user, touches the tweets, or changes a stored user's email, userName, password digest or createdAt |
| UserLaws.UploadKeepsAccounts | backend/routes/user_route.js:45 | a picture upload keeps every account |
| UserLaws.EditKeepsAccounts | backend/routes/user_route.js:107 | a profile edit keeps every account |
| UserLaws.FollowKeepsAccounts | backend/routes/user_route.js:202-214 | both writes of a follow keep every account |
| UserLaws.UnfollowKeepsAccounts | backend/routes/user_route.js:248-260 | both writes of an unfollow keep every account |
| UserLaws.RegisterKeepsAccounts | backend/routes/auth_route.js:42 | a registration adds a user and keeps every stored one |
| UserLaws.FollowThenUnfollow | backend/routes/user_route.js:202-260 | follow then unfollow, from a consistent graph without the edge, restores both users' lists; only the two updatedAt stamps moved |
| UserLaws.AlreadyFollowingOnlyStamps | backend/routes/user_route.js:197-214 | in a consistent graph the "already following" 400 writes only the caller's updatedAt |
| UserLaws.NotFollowingOnlyStamps | backend/routes/user_route.js:243-260 | in a consistent graph the "not following" 400 writes only the target's updatedAt |
| UserLaws.FourHundredStillWrites | backend/routes/user_route.js:197-260 | on a half-recorded edge, follow answers 400 yet completes it, and unfollow answers 400 yet removes the follower |
| UserLaws.GetProfileListsStored | backend/routes/user_route.js:128-142 | in a consistent graph the profile returns the stored follow lists unchanged |
| UserLaws.UploadThenGetPic | backend/routes/user_route.js:42-72 | after an upload the picture route redirects to the uploaded file's URL |
| UserLaws.EditCanBlankFullName | backend/routes/user_route.js:102-107 | an edit that sends fullName "" with another field succeeds and leaves a user the schema would reject |
| UserRoute.UploadProfilePic | backend/routes/user_route.js:37-56 | as UserSpec.UploadProfilePic, keeping the invariant |
| UserRoute.UploadProfilePicChecked | backend/routes/user_route.js:38-49 | the checks and the update, as UserSpec.UploadProfilePic |
| UserRoute.EditProfile | backend/routes/user_route.js:82-118 | as UserSpec.EditProfile, keeping the invariant |
| UserRoute.EditProfileChecked | backend/routes/user_route.js:84-107 | the checks, the allow-list loop and the update, as UserSpec.EditProfile |
| UserRoute.Follow | backend/routes/user_route.js:182-225 | as UserSpec.Follow, keeping the invariant |
| UserRoute.FollowChain | backend/routes/user_route.js:184-215 | the checks and the chain's two writes in order, as UserSpec.Follow |
| UserRoute.Unfollow | backend/routes/user_route.js:229-272 | as UserSpec.Unfollow, keeping the invariant |
| UserRoute.UnfollowChain | backend/routes/user_route.js:231-261 | the checks and the chain's two writes in order, as UserSpec.Unfollow |
| AuthSpec.Scan | backend/models/user_model.js:14-26 | a scan of one unique index: the first user in the range holding the key, or none when nobody there holds it |
| AuthSpec.FindOne | backend/routes/auth_route.js:21 | `findOne` with the `$or` filter as Mongoose casts it (email as sent, userName trimmed): a matching user, which holds the email whenever any user in the range does; none exactly when no user there matches |
| AuthSpec.Register | backend/routes/auth_route.js:12-60 | 400 iff a field is falsy; 400 iff a stored user has the email or the trimmed userName (the email message only when some user has that email, the userName message only when nobody has it); 500 iff the lookup passes but the unique indexes or validators refuse the new user; 201 otherwise; only a 201 writes, and only the new user |
| AuthSpec.Login | backend/routes/auth_route.js:64-115 | 400 iff a field is falsy; 401 iff nobody matches or the digest of the user `findOne` picks refuses the password; 200 gives a token for that user, who matches by email or trimmed userName and holds the email whenever anybody does, and whose digest accepts the password, with that user's public fields |
| AuthLaws.RegisterKeepsInvariant | backend/routes/auth_route.js:12-60 | registration keeps the invariant |
| AuthLaws.RegisterCreatedUsers | backend/routes/auth_route.js:42-44 | after a 201 logins are unique, users well-formed and the graph two-sided |
| AuthLaws.AddUserUsers | backend/routes/auth_route.js:34-42 | storing an insertable user with no edges under a fresh id keeps the user-side facts |
| AuthLaws.RegisteredUserShape | backend/routes/auth_route.js:32-39 | the stored user has the fields as sent, the userName trimmed, the schema defaults for profileImg, location and dateOfBirth, empty lists, and a digest that accepts exactly the sent password |
| AuthLaws.RegisterTwiceRefused | backend/routes/auth_route.js:21-25 | registering the same body again after a 201 gives the email 400 and writes nothing |
| AuthLaws.EmailTakenFirst | backend/routes/auth_route.js:21-25 | the email 400 comes exactly when somebody holds the email, whoever holds the userName |
| AuthLaws.FindNewEmail | backend/routes/auth_route.js:21 | a user stored under a fresh id with an email nobody older holds is the one found, whatever the older userNames |
| AuthLaws.EmailBeforeUserName | backend/routes/auth_route.js:73-101 | with Ann holding "cy@x.io" as userName and the newer Cy holding it as email, logging in as "cy@x.io" with Cy's password succeeds as Cy |
| AuthLaws.SaveFailsOnlyOnBlankName | backend/routes/auth_route.js:21-48 | once the trimmed lookup finds nobody, `save` fails (500) exactly when the userName is made of white space: the lookup already catches every unique-index clash |
| AuthLaws.PaddedNameTaken | backend/routes/auth_route.js:21-27 | a userName equal to a stored one after trimming gets the "not available" 400, unless the email is taken, and writes nothing |
| AuthLaws.LeadingBlankNameTaken | backend/routes/auth_route.js:21-27 | with "bob" stored, registering " bob" under a free email gets the "not available" 400 and writes nothing |
| AuthLaws.LeadingBlankLogin | backend/routes/auth_route.js:73-101 | with "bob" stored, logging in as " bob" with bob's password succeeds as bob |
| AuthLaws.RegisterThenLogin | backend/routes/auth_route.js:73-101 | after a 201, logging in with the new email succeeds exactly with the registered password, for the new user's id and public fields, even when an older user has that email as userName |
| AuthLaws.LoginFailuresAlike | backend/routes/auth_route.js:75-77 | an unknown user and a matching user with a wrong password get the same 401 |
| AuthRoute.Register | backend/routes/auth_route.js:12-60 | as AuthSpec.Register, keeping the invariant |
| AuthRoute.RegisterChecked | backend/routes/auth_route.js:16-49 | the field checks, the lookup, the hash and the save, as AuthSpec.Register |

## Left out

- The protectedResource middleware is not part of this model: token verification and the 401s it sends itself. Handlers receive the caller's id and whether that user is stored.
- Database and I/O failures are not modelled. This covers failed queries, CastErrors for malformed ids and a dateOfBirth that is not a date, and the 500s they cause in every handler. Only the failures the model can decide are there: unique-index and validation failures at registration, a missing follow target, and a null `req.user`.
- Crypto.Hash and Crypto.Compare: bcryptjs is an ideal digest that accepts exactly its password. The 500s for a failing hash or compare are not modelled.
- Crypto.Sign: jsonwebtoken is a token that records its subject. The secret and the signature are not modelled.
- ObjectIds are drawn from one counter shared by users and tweets. email and userName carry unique indexes (backend/models/user_model.js:17, 24), so MongoDB answers the `$or` of `findOne` with one index scan per condition, email first, and `findOne` takes the first document: AuthSpec.FindOne returns a user holding the email when there is one, and otherwise one holding the trimmed userName. Within one index at most one user holds a key once the indexes hold; AuthSpec.Scan takes the lowest id. A query plan other than these index scans, which would return another order, is not modelled.
- TweetSpec.View, TweetSpec.ListTweets and UserSpec.UserTweets: `tweetedBy` is populated with every public field. The tweets-by-user route projects it to `_id fullName userName profileImg`.
- Retweet's response populates `tweetedBy`. Response bodies are not modelled beyond the status and the read payloads. Error message texts are reduced to the branch they come from.
- The `replyCount` write in the reply branch of delete is not modelled. It is not a schema field, and the branch is not reached as written.
- Text.LowerChar and Text.LowerAscii lower-case ASCII letters only; JavaScript's `toLowerCase` covers all of Unicode.
- Text.ExtName works on bare file names; directory separators in an uploaded file's original name are not handled.
- Request bodies are maps of strings. JSON values of other types and repeated multipart fields are not modelled.
- A multer "Unexpected field" error (a file sent under another field name) is not modelled.
- Dates are natural-number timestamps. dateOfBirth is kept as the text it was sent as.
- Concurrent requests are not modelled. Each handler's writes are one sequential step, so the races between the two writes of follow, unfollow and reply are not captured.

## Findings

| source | as written | input that shows it | evidently intended | confidence | as-written member | corrected member |
|---|---|---|---|---|---|---|
| backend/routes/tweet_route.js:249 | `parentTweet.replies.id(replyId)` is called on an array of ObjectIds, which has no `id` method, so the reply branch of delete throws once the parent is found and answers 500 | user 0 owns tweet 0, whose replies are [1], and reply 1; DELETE /api/tweet/0?replyId=1 as user 0 | 404 unless the parent lists the reply, 403 unless the caller owns it, otherwise remove only that id from the parent's replies and answer 200 | not executed | TweetSpec.DeleteReplyAsWritten, TweetLaws.ReplyDeleteDiscrepancy | TweetSpec.Delete |
