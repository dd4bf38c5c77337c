/**
 * werkzeug's `generate_password_hash` / `check_password_hash`, as used by
 * `User.set_password` and `User.check_password`. The key-derivation
 * function is not modelled: it is supplied by the caller as `kdf`, and the
 * random salt werkzeug draws is an explicit argument.
 */
module Credentials {
  /** The key-derivation function werkzeug applies to (salt, password). */
  type Kdf = (string, string) -> string

  /** A stored password hash: the salt it was made with and the digest. */
  datatype PasswordHash = PasswordHash(salt: string, digest: string)

  /** `generate_password_hash(password)` with the salt it drew. */
  function GeneratePasswordHash(kdf: Kdf, salt: string, password: string): (h: PasswordHash)
    ensures h.salt == salt
    ensures CheckPasswordHash(kdf, h, password)
  {
    PasswordHash(salt, kdf(salt, password))
  }

  /** `check_password_hash(h, password)`: re-derive with the stored salt and compare. */
  predicate CheckPasswordHash(kdf: Kdf, h: PasswordHash, password: string)
  {
    kdf(h.salt, password) == h.digest
  }

  /**
   * A hash rejects every other password exactly when the derivation tells
   * that password apart from the one hashed. Nothing here assumes it does.
   */
  lemma CheckRejectsOtherPassword(kdf: Kdf, salt: string, password: string, other: string)
    ensures !CheckPasswordHash(kdf, GeneratePasswordHash(kdf, salt, password), other)
        <==> kdf(salt, other) != kdf(salt, password)
  {
  }
}
