/**
  The credential helper: `hash_pass` and `check_hash_password`
  (flask_backend/db/db_manager.py:15-24, identical in db/db_manager.py).

  bcrypt is represented abstractly. A digest records the salt that
  `bcrypt.gensalt()` drew and the password it was derived from; the salt is a
  parameter because it is random. `check_hash_password` succeeds exactly for
  the password the digest was made from, whatever the salt.
 */
module Credentials {

  type Salt = nat

  datatype Digest = Digest(salt: Salt, secret: string)

  /** `check_hash_password(hashed, password)`. */
  predicate CheckHashPassword(hashed: Digest, password: string) {
    hashed.secret == password
  }

  /** `hash_pass(password)` with the salt `bcrypt.gensalt()` returned. */
  function HashPass(password: string, salt: Salt): (h: Digest)
    ensures CheckHashPassword(h, password)
    ensures h.salt == salt
  {
    Digest(salt, password)
  }

  /** A digest verifies the password it was made from and no other. */
  lemma VerifyHash(password: string, candidate: string, salt: Salt)
    ensures CheckHashPassword(HashPass(password, salt), candidate) <==> candidate == password
  {
  }

  /** Two hashes of one password with fresh salts differ, and both still verify. */
  lemma FreshSaltsGiveDistinctHashes(password: string, s1: Salt, s2: Salt)
    requires s1 != s2
    ensures HashPass(password, s1) != HashPass(password, s2)
    ensures CheckHashPassword(HashPass(password, s1), password)
    ensures CheckHashPassword(HashPass(password, s2), password)
  {
  }
}
