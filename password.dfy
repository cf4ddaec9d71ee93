/**
 * bcrypt, as both auth helpers use it: `hash(password, 10)` with a random
 * salt and `compare(password, hash)`. The algorithm itself is not modelled;
 * a `Hasher` is any pair of functions, and `Sound` is the one property the
 * auth code relies on.
 */
module Password {
  /** `bcrypt.hash(password, rounds)` with the salt it draws passed in, and `bcrypt.compare`. */
  datatype Hasher = Hasher(hash: (string, nat, string) -> string, compare: (string, string) -> bool)

  /** The cost factor both helpers pass. */
  const SaltRounds: nat := 10

  /** A password always matches a hash made from it, whatever the salt and cost. */
  ghost predicate Sound(h: Hasher)
  {
    forall password, rounds, salt :: h.compare(password, h.hash(password, rounds, salt))
  }

  /** `hashPassword(password)`. */
  function HashPassword(h: Hasher, password: string, salt: string): (hashed: string)
    ensures Sound(h) ==> h.compare(password, hashed)
  {
    h.hash(password, SaltRounds, salt)
  }

  /** `verifyPassword(password, hashedPassword)`. */
  function VerifyPassword(h: Hasher, password: string, hashedPassword: string): (ok: bool)
    ensures Sound(h) && (exists salt :: hashedPassword == HashPassword(h, password, salt)) ==> ok
  {
    h.compare(password, hashedPassword)
  }
}
