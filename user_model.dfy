/** The User document of the `UserModel` schema. */
module UserModel {
  import opened Common
  import opened Text
  import opened Crypto

  const DefaultProfileImg: string := "https://images.unsplash.com/photo-1438761681033-6461ffad8d80?ixlib=rb-4.0.3&ixid=MnwxMjA3fDB8MHxzZWFyY2h8Mnx8cGVyc29ufGVufDB8fDB8fA%3D%3D&auto=format&fit=crop&w=500&q=60"
  const DefaultLocation: string := "test"

  /** `dateOfBirth` is a Date or null; the date itself is kept as the text it was given as.
      `followers` and `following` are id lists: the schema does not keep them duplicate-free. */
  datatype User = User(
    fullName: string,
    email: string,
    userName: string,
    password: Digest,
    profileImg: string,
    location: string,
    dateOfBirth: Option<string>,
    followers: seq<UserId>,
    following: seq<UserId>,
    createdAt: nat,
    updatedAt: nat)

  /** The schema's `required` validators, which `save` runs: a required string must be non-empty.
      A digest is always present, so `password` never fails. */
  predicate ValidUser(u: User)
  {
    u.fullName != "" && u.email != "" && u.userName != ""
  }

  /** `new UserModel({ fullName, userName, password, email })`: the `trim` setter on userName,
      the schema defaults, empty id lists and both timestamps set to the insertion time. `save`
      validates exactly the users whose fullName and email are non-empty and whose userName is
      not blank. */
  function NewUser(fullName: string, email: string, userName: string, password: Digest, now: nat): (r: User)
    ensures r.fullName == fullName && r.email == email && r.password == password
    ensures r.userName == Trim(userName)
    ensures r.profileImg == DefaultProfileImg && r.location == DefaultLocation && r.dateOfBirth.None?
    ensures r.followers == [] && r.following == [] && r.createdAt == now && r.updatedAt == now
    ensures ValidUser(r) <==> fullName != "" && email != "" && Trim(userName) != ""
  {
    User(fullName, email, Trim(userName), password, DefaultProfileImg, DefaultLocation, None, [], [], now, now)
  }

  /** A user as the read paths return it: every field except the password digest. */
  datatype PublicUser = PublicUser(
    id: UserId,
    fullName: string,
    email: string,
    userName: string,
    profileImg: string,
    location: string,
    dateOfBirth: Option<string>,
    followers: seq<UserId>,
    following: seq<UserId>,
    createdAt: nat,
    updatedAt: nat)

  function Public(id: UserId, u: User): PublicUser
  {
    PublicUser(id, u.fullName, u.email, u.userName, u.profileImg, u.location, u.dateOfBirth,
               u.followers, u.following, u.createdAt, u.updatedAt)
  }
}
