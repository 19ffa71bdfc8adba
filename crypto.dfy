/** The password-hashing scheme (bcrypt through passlib) used for passwords
    and recovery codes. Hashing is a foreign call: the model keeps, inside
    the hash value, the salt bcrypt draws and the secret it was computed
    from, so that verification is decidable. Nothing in the model reads a
    secret back out of a hash except `Verifies`. */
module Crypto {

  /** A salted hash of `secret`; `salt` stands for bcrypt's random salt. */
  datatype Hash = Bcrypt(salt: nat, secret: string)

  /** `pwd_context.hash(secret)` with the salt the library drew. */
  function HashSecret(secret: string, salt: nat): (h: Hash)
    ensures Verifies(secret, h)
  {
    Bcrypt(salt, secret)
  }

  /** `pwd_context.verify(plain, hashed)`. */
  predicate Verifies(plain: string, h: Hash)
  {
    h.secret == plain
  }

  /** Only the secret a hash was made from verifies against it, whatever the salt. */
  lemma VerifiesOnlyPreimage(plain: string, secret: string, salt: nat)
    ensures Verifies(plain, HashSecret(secret, salt)) <==> plain == secret
  {
  }
}
