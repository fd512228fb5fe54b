/** Vocabulary shared by the route handlers: identifiers, responses and request bodies. */
module Common {

  /** MongoDB ObjectIds. Users and tweets draw theirs from one counter (see Store.State.nextId). */
  type UserId = nat
  type TweetId = nat

  datatype Option<T> = None | Some(value: T)

  /** Why a handler answered 400; each constructor is one `res.status(400)` branch. */
  datatype Rejection =
    | ContentRequired     // tweet or reply without content
    | FieldNotAllowed     // a body key outside the handler's allow-list
    | AlreadyLiked
    | NotLiked
    | AlreadyRetweeted
    | NoFile              // profile picture upload without a file
    | NoFieldToUpdate     // profile edit with fullName, dateOfBirth and location all falsy
    | SelfFollow
    | AlreadyFollowing
    | SelfUnfollow
    | NotFollowing
    | MissingField        // register or login with a mandatory field falsy
    | EmailTaken
    | UserNameTaken

  /** Which lookup answered 404. */
  datatype Missing = TweetMissing | ParentMissing | ReplyMissing | UserMissing | NoProfilePic

  /** The response a handler sends. `NoReply` is an async handler whose promise rejects before
      its try block, so no response is ever written. */
  datatype Status =
    | Ok
    | Created
    | Found
    | BadRequest(why: Rejection)
    | Unauthorized
    | Forbidden
    | NotFound(what: Missing)
    | InternalError
    | NoReply

  /** The HTTP status code of a response. */
  function HttpCode(st: Status): nat
    requires !st.NoReply?
  {
    match st
    case Ok => 200
    case Created => 201
    case Found => 302
    case BadRequest(_) => 400
    case Unauthorized => 401
    case Forbidden => 403
    case NotFound(_) => 404
    case InternalError => 500
  }

  /** A JSON or multipart request body: field name to string value. An absent key is `undefined`. */
  type Body = map<string, string>

  function Field(body: Body, key: string): Option<string>
  {
    if key in body then Some(body[key]) else None
  }

  /** JavaScript truthiness of a body field: present and not the empty string. */
  predicate Truthy(v: Option<string>)
  {
    v.Some? && v.value != ""
  }

  /** The allow-list loop `for (const key in req.body) if (!allowedFields.includes(key)) return ...`:
      finds a key of the body that is not allowed, if there is one. The order in which JavaScript
      enumerates the keys only decides which key the error message names, so it is left open. */
  method FindDisallowedKey(body: Body, allowed: set<string>) returns (bad: Option<string>)
    ensures bad.None? <==> body.Keys <= allowed
    ensures bad.Some? ==> bad.value in body && bad.value !in allowed
  {
    var unseen := body.Keys;
    while unseen != {}
      invariant unseen <= body.Keys
      invariant body.Keys - unseen <= allowed
      decreases unseen
    {
      var key :| key in unseen;
      if key !in allowed {
        return Some(key);
      }
      unseen := unseen - {key};
    }
    return None;
  }
}
