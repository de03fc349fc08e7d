/**
 * The cryptographic primitives the vault calls: AES-256-GCM (NIST SP 800-38D),
 * SHA-256 (FIPS 180-4) and Argon2id (RFC 9106). They are not modelled; they are
 * injected as functions, and only their output sizes and the fact that Open
 * undoes Seal are assumed, through `Sound`, by the lemmas that need them.
 */
module Primitives {
  import opened Base

  const KeySize := 32    // AES-256 key length
  const NonceSize := 12  // gcm.NonceSize() of the standard GCM construction
  const TagSize := 16    // GCM authentication tag length
  const SaltSize := 16   // salt prefix of a store file

  datatype Crypto = Crypto(
    /** `gcm.Seal(nil, nonce, plaintext, nil)` for a GCM built on `key`: (key, nonce, plaintext). */
    seal: (Bytes, Bytes, Bytes) -> Bytes,
    /** `gcm.Open(nil, nonce, ciphertext, nil)`; `None` when authentication fails. */
    open: (Bytes, Bytes, Bytes) -> Option<Bytes>,
    /** `sha256.Sum256`. */
    sha256: Bytes -> Bytes,
    /** `crypto.DeriveKey`: `argon2.IDKey(password, salt, 1, 64*1024, 4, 32)`. */
    argon2id: (Bytes, Bytes) -> Bytes)

  /** What the vault relies on from the primitives. */
  ghost predicate Sound(c: Crypto) {
    && (forall k, n, p :: |k| == KeySize && |n| == NonceSize ==>
          |c.seal(k, n, p)| == |p| + TagSize && c.open(k, n, c.seal(k, n, p)) == Some(p))
    && (forall p :: |c.sha256(p)| == KeySize)
    && (forall p, s :: |c.argon2id(p, s)| == KeySize)
  }

  /** `aes.NewCipher(key)` succeeds exactly for 16-, 24- and 32-byte keys. */
  predicate CipherKeyOk(key: Bytes) {
    |key| == 16 || |key| == 24 || |key| == 32
  }
}
