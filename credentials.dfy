/** The password hashing of `bcrypt.hash(password, 10)` and
    `bcrypt.compare`, kept abstract. */
module Credentials {

  /** The cost factor passed to `bcrypt.hash`. */
  const SaltRounds: nat := 10

  /** A bcrypt digest. The model identifies a digest by its cost, its salt
      and the password it commits to; a digest is of a different type from
      a password, so a stored digest is never the plaintext. */
  datatype Digest = Bcrypt(rounds: nat, salt: nat, committed: string)

  /** `bcrypt.hash(password, SaltRounds)` with the salt it draws. */
  function Hash(password: string, salt: nat): Digest {
    Bcrypt(SaltRounds, salt, password)
  }

  /** `bcrypt.compare(password, digest)`. */
  predicate Compare(password: string, digest: Digest) {
    digest.committed == password
  }

  /** A digest accepts the password it was made from and no other,
      whatever the salt. */
  lemma CompareHash(attempt: string, password: string, salt: nat)
    ensures Compare(attempt, Hash(password, salt)) <==> attempt == password
  {
  }
}
