/**
 * The cryptography the controllers call into: BCrypt password hashing and
 * verification, and JWT issuance. Their algorithms are not modelled; the
 * controllers receive them as values.
 */
module Security {
  import opened Models

  /** BCrypt.HashPassword and BCrypt.Verify. */
  datatype PasswordHasher = PasswordHasher(hash: string -> string, verify: (string, string) -> bool)

  /** The one fact the model relies on: a password verifies against its own hash. */
  ghost predicate VerifiesOwnHash(h: PasswordHasher) {
    forall p :: h.verify(p, h.hash(p))
  }

  /** IAuthService.GenerateJwtToken. */
  type TokenIssuer = User -> string
}
