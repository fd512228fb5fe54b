/** bcryptjs and jsonwebtoken as the handlers see them. Neither algorithm is modelled: a digest is
    an ideal, collision-free value that records the salt and the secret it was computed from, and
    only `Compare` looks inside it; a token records the subject it was signed for. */
module Crypto {
  import opened Common

  datatype Digest = Digest(salt: nat, secret: string)

  /** `bcryptjs.hash(password, 10)`; the salt is drawn at random and so is a parameter. */
  function Hash(password: string, salt: nat): Digest
  {
    Digest(salt, password)
  }

  /** `bcryptjs.compare(password, digest)`. */
  predicate Compare(password: string, d: Digest)
  {
    d.secret == password
  }

  /** The signed payload `{ _id }` of `jwt.sign`; the signature itself is not modelled. */
  datatype Token = Token(subject: UserId)

  function Sign(id: UserId): Token
  {
    Token(id)
  }
}
