/** An abstract model of bcrypt: a salted one-way digest and its check. The
    salt is the randomness of `bcrypt.genSalt`, taken as a parameter. */
module PasswordHash {

  /** The digest of `secret` under `salt`. Nothing but `Compare` looks inside. */
  datatype Hash = Digest(secret: string, salt: nat)

  /** `bcrypt.hash(password, salt)`. */
  function HashPassword(password: string, salt: nat): (h: Hash)
    ensures h.salt == salt
  {
    Digest(password, salt)
  }

  /** `bcrypt.compare(password, hashed)`. */
  predicate Compare(password: string, hashed: Hash) {
    hashed.secret == password
  }

  /** A digest accepts exactly the password it was made from, whatever the salt. */
  lemma CompareAcceptsOnlyHashedPassword(password: string, candidate: string, salt: nat)
    ensures Compare(candidate, HashPassword(password, salt)) <==> candidate == password
  {
    assert HashPassword(password, salt).secret == password;
  }
}
