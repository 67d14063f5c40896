/** Password hashing as the service and the seed script use it (bcryptjs).
    The hash is idealised: a record of the cost factor, the salt and the part of
    the password bcrypt actually digests. `Compare` recomputes that part; nothing
    else in the model reads inside a hash. */
module Bcrypt {

  /** Cost factor passed to `genSalt` by the service and the seed script. */
  const Rounds: nat := 12

  /** bcrypt digests at most this many bytes of the password and ignores the rest
      (counted here in characters, which is exact for ASCII passwords). */
  const MaxKeyLength: nat := 72

  /** A salt as produced by `genSalt`: random, so it is a parameter of the model. */
  type Salt = string

  datatype PasswordHash = PasswordHash(cost: nat, salt: Salt, key: string)

  /** The part of a password that bcrypt digests. */
  function Key(password: string): (k: string)
    ensures |k| <= MaxKeyLength
    ensures k <= password
    ensures |password| <= MaxKeyLength ==> k == password
  {
    if |password| <= MaxKeyLength then password else password[..MaxKeyLength]
  }

  /** `bcrypt.hash(password, genSalt(12))` for a given salt. */
  function Hash(password: string, salt: Salt): (h: PasswordHash)
    ensures h.cost == Rounds && h.salt == salt
    ensures Compare(password, h)
  {
    PasswordHash(Rounds, salt, Key(password))
  }

  /** `bcrypt.compare(password, h)`. */
  predicate Compare(password: string, h: PasswordHash) {
    Key(password) == h.key
  }

  /** A password shorter than the key limit is accepted by its hash and by no other password. */
  lemma CompareExact(p: string, q: string, salt: Salt)
    requires |p| < MaxKeyLength
    ensures Compare(q, Hash(p, salt)) <==> q == p
  {
  }

  /** Two long passwords that agree on their first 72 characters are
      interchangeable at login. */
  lemma LongPasswordsCollide(p: string, q: string, salt: Salt)
    requires |p| > MaxKeyLength && |q| > MaxKeyLength
    requires p[..MaxKeyLength] == q[..MaxKeyLength]
    ensures Compare(q, Hash(p, salt)) && Compare(p, Hash(q, salt))
  {
  }
}
