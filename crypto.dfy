/** The symmetric cipher used for secrets at rest. Its key and IV are fixed for the
    life of the process, so encryption is a deterministic function of the plaintext;
    the cipher itself (AES-256-CBC over hex) is not modelled. The two operations are
    handed to the handlers as a value, and decryption may fail (malformed hex, bad
    padding), which the handlers see as a thrown error. */
module Crypto {
  import opened Wrappers

  datatype Cipher = Cipher(encrypt: string -> string, decrypt: string -> Option<string>)

  /** What a correctly configured cipher delivers: every ciphertext is a non-empty
      string (CBC output is at least one block) that decrypts to its plaintext. */
  ghost predicate Sound(c: Cipher) {
    forall s :: c.encrypt(s) != "" && c.decrypt(c.encrypt(s)) == Some(s)
  }

  /** With a fixed IV equal plaintexts give equal ciphertexts, and a sound cipher
      never maps two plaintexts to one ciphertext. */
  lemma EqualCiphertextsMeanEqualPlaintexts(c: Cipher, s: string, t: string)
    requires Sound(c)
    ensures c.encrypt(s) == c.encrypt(t) <==> s == t
  {
    if c.encrypt(s) == c.encrypt(t) {
      assert Some(s) == c.decrypt(c.encrypt(s)) == c.decrypt(c.encrypt(t)) == Some(t);
    }
  }
}
