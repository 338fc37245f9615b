/** Password hashing (bcrypt in the backend). The hash is modelled as an ideal
    one-way function: a digest records the cost factor and stands for the
    password it was computed from, and comparing a candidate succeeds exactly
    for that password. Salts, timing and the digest's text form are not modelled. */
module Credentials {

  /** `bcrypt.hash(password, saltRounds)` is always called with 10 rounds. */
  const SaltRounds := 10

  datatype PasswordHash = Digest(rounds: nat, preimage: string)

  /** `bcrypt.hash(password, 10)` */
  function Hash(password: string): (h: PasswordHash)
    ensures h.rounds == SaltRounds
  {
    Digest(SaltRounds, password)
  }

  /** `bcrypt.compare(candidate, hash)` */
  predicate Verify(candidate: string, h: PasswordHash) {
    candidate == h.preimage
  }

  /** A password verifies against its own hash, and no other password does. */
  lemma VerifyOwnHash(p: string, q: string)
    ensures Verify(p, Hash(p))
    ensures p != q ==> !Verify(q, Hash(p))
  {
  }
}
