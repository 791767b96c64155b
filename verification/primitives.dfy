/** The library calls the core relies on but that are not modelled: the
    hybrid cipher of encryption.py (AES-256-GCM with an RSA-OAEP wrapped key),
    PBKDF2-HMAC-SHA256, base64, the password-encrypted private-key format and
    `datetime.fromisoformat`.  Each is an uninterpreted function supplied as a
    field of `Primitives`; the properties the code takes for granted are the
    ghost predicates below, assumed only by the lemmas that need them. */
module Primitives {
  import opened Basics

  /** An RSA private key object, held only in memory. */
  datatype PrivateKey = PrivateKey(handle: nat)

  /** The three base64 fields `encrypt_message` returns. */
  datatype Sealed = Sealed(encryptedMessage: string, encryptedKey: string, nonce: string)

  datatype Primitives = Primitives(
    /** `encrypt_message(text, pem)`; the last argument stands for the fresh
        AES key and nonce it draws.  `None` when it raises. */
    encrypt: (string, string, Bytes) -> Option<Sealed>,
    /** `decrypt_message(content, key)`; `None` when it raises. */
    decrypt: (Sealed, PrivateKey) -> Option<string>,
    /** PBKDF2-HMAC-SHA256, 600000 iterations, 32-byte output, over the
        UTF-8 encoding of the password. */
    kdf: (string, Bytes) -> Bytes,
    b64encode: Bytes -> string,
    /** `base64.b64decode`; `None` when it raises. */
    b64decode: string -> Option<Bytes>,
    /** `private_bytes(..., BestAvailableEncryption(password))`. */
    lockKey: (PrivateKey, string) -> string,
    /** `load_pem_private_key(pem, password)`; `None` when it raises. */
    unlockKey: (string, string) -> Option<PrivateKey>,
    /** `datetime.fromisoformat(s)` does not raise. */
    isIsoTimestamp: string -> bool
  )

  /** Base64 decoding inverts encoding. */
  ghost predicate Base64RoundTrips(p: Primitives) {
    forall b :: p.b64decode(p.b64encode(b)) == Some(b)
  }

  /** The KDF is configured with `length=32` (auth.py:74). */
  ghost predicate KdfYields32Bytes(p: Primitives) {
    forall pw, salt :: |p.kdf(pw, salt)| == 32
  }

  /** A key locked under a password unlocks under the same password. */
  ghost predicate KeyCustodyRoundTrips(p: Primitives) {
    forall k, pw :: p.unlockKey(p.lockKey(k, pw), pw) == Some(k)
  }

  /** Hybrid encryption to `pem` is undone by `key`. */
  ghost predicate Opens(p: Primitives, pem: string, key: PrivateKey) {
    forall text, coins :: p.encrypt(text, pem, coins).Some? ==>
      p.decrypt(p.encrypt(text, pem, coins).value, key) == Some(text)
  }

  /** `encrypt_message(text, public_key)` where the key was read from JSON:
      a public key that is not a `str` makes `.encode` raise. */
  function EncryptFor(p: Primitives, text: string, publicKey: Value, coins: Bytes): (r: Option<Sealed>)
    ensures !publicKey.Str? ==> r == None
    ensures publicKey.Str? ==> r == p.encrypt(text, publicKey.text, coins)
  {
    match publicKey
    case Str(pem) => p.encrypt(text, pem, coins)
    case NonStr(_) => None
  }

  /** The `encrypted_message`, `encrypted_key` and `nonce` fields of a stored
      envelope; `None` when one is missing (KeyError) or not a `str` (the
      base64 decoding inside `decrypt_message` raises). */
  function SealedIn(msg: Document): (r: Option<Sealed>)
    ensures r.Some? <==> && "encrypted_message" in msg && msg["encrypted_message"].Str?
                         && "encrypted_key" in msg && msg["encrypted_key"].Str?
                         && "nonce" in msg && msg["nonce"].Str?
    ensures r.Some? ==> r.value == Sealed(msg["encrypted_message"].text,
                                          msg["encrypted_key"].text,
                                          msg["nonce"].text)
  {
    if && "encrypted_message" in msg && msg["encrypted_message"].Str?
       && "encrypted_key" in msg && msg["encrypted_key"].Str?
       && "nonce" in msg && msg["nonce"].Str?
    then Some(Sealed(msg["encrypted_message"].text, msg["encrypted_key"].text, msg["nonce"].text))
    else None
  }

  /** Building `encrypted_content` from a stored envelope and calling
      `decrypt_message` on it; `None` when any step raises. */
  function OpenEnvelope(p: Primitives, msg: Document, key: PrivateKey): (r: Option<string>)
    ensures SealedIn(msg).None? ==> r == None
    ensures SealedIn(msg).Some? ==> r == p.decrypt(SealedIn(msg).value, key)
  {
    match SealedIn(msg)
    case None => None
    case Some(s) => p.decrypt(s, key)
  }
}
