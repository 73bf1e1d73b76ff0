/**
 * The cryptographic collaborators, which the model does not implement: Fernet
 * encryption of card numbers and SSNs, Argon2 password hashing, JWT minting.
 * Each is a pair of function values; the laws assumed of them are stated
 * as predicates that the members relying on them require.
 */
module Crypto {
  import opened Records

  /** encryption_service.encrypt and .decrypt */
  datatype Cipher = Cipher(encrypt: string -> Bytes, decrypt: Bytes -> string)

  /** Decrypting what was encrypted gives back the plaintext. */
  ghost predicate RoundTrips(c: Cipher) {
    forall x :: c.decrypt(c.encrypt(x)) == x
  }

  /** hash_password and verify_password */
  datatype PasswordHasher = PasswordHasher(hash: string -> string, verify: (string, string) -> bool)

  /** A password verifies against its own hash. */
  ghost predicate Sound(h: PasswordHasher) {
    forall p :: h.verify(p, h.hash(p))
  }

  /**
   * A hash fits the String(255) password_hash column. Argon2's encoded
   * output has a fixed length set by its parameters, not by the password.
   */
  ghost predicate HashFits(h: PasswordHasher) {
    forall p :: |h.hash(p)| <= PasswordHashMaxLength
  }

  /** create_access_token and create_refresh_token, given the user id and e-mail they embed. */
  datatype TokenIssuer = TokenIssuer(access: (int, string) -> string, refresh: (int, string) -> string)
}
