/**
 Abstract cryptography.

 ECDSA signing, P-256 key agreement and AES-GCM are not modelled; they are
 the fields of a `Suite`, a record of uninterpreted functions. What the
 rest of the model may assume about them is stated by the ghost predicates
 below (`SignatureSound`, `SealOpens`, ...), which lemmas take as
 preconditions.

 On top of the suite sit the thin cipher wrapper the core calls
 (`newCipher`, `PublicKey`, `SharedSecret`, `Encrypt`, `Decrypt` of
 ecdh.go): the branches that decide WHETHER these calls fail are modelled,
 the cryptography inside them is not.
 */
module Crypto {
  import opened Bytes
  import opened Outcomes

  /** Long-term ECDSA signing key and the matching verification key. */
  type SigningKey(==, !new)
  type VerifyKey(==, !new)
  /** An ephemeral P-256 private key, generated per handshake. */
  type EphemeralKey(==, !new)

  /** AES-GCM tag length (`gcm.Overhead()`) and nonce length (`gcm.NonceSize()`). */
  const TagSize: nat := 16
  const NonceSize: nat := 12

  datatype Suite = Suite(
    /** The public half of a signing key. */
    verifyKeyOf: SigningKey -> VerifyKey,
    /** `signMessage`: a 64-byte signature, or a failure. */
    sign: (SigningKey, seq<byte>) -> Option<Bytes64>,
    /** `verifySignature`. */
    verify: (VerifyKey, seq<byte>, Bytes64) -> bool,
    /** The 65-byte uncompressed encoding of an ephemeral public key. */
    ephemeralPublic: EphemeralKey -> Bytes65,
    /** `curve.NewPublicKey(remote)` followed by `ECDH`: the raw shared
        secret, or a failure for a malformed or invalid point. */
    agree: (EphemeralKey, seq<byte>) -> Option<seq<byte>>,
    /** `gcm.Seal` split into the ciphertext body and the 16-byte tag that
        Go appends to it. */
    seal: (seq<byte>, Bytes12, seq<byte>) -> (seq<byte>, Bytes16),
    /** `gcm.Open` over ciphertext-then-tag. */
    open: (seq<byte>, Bytes12, seq<byte>) -> Option<seq<byte>>
  )

  /** A signature made with a key verifies under its public half. */
  ghost predicate SignatureSound(s: Suite)
  {
    forall sk, m :: s.sign(sk, m).Some? ==> s.verify(s.verifyKeyOf(sk), m, s.sign(sk, m).value)
  }

  /** GCM is a stream mode: the body is exactly as long as the plaintext. */
  ghost predicate SealLength(s: Suite)
  {
    forall k, n, p :: |s.seal(k, n, p).0| == |p|
  }

  /** Opening what was sealed under the same key and nonce gives back the plaintext. */
  ghost predicate SealOpens(s: Suite)
  {
    forall k, n, p :: s.open(k, n, s.seal(k, n, p).0 + s.seal(k, n, p).1) == Some(p)
  }

  /** Opening strips exactly the 16-byte tag. */
  ghost predicate OpenLength(s: Suite)
  {
    forall k, n, c :: s.open(k, n, c).Some? ==> |s.open(k, n, c).value| + TagSize == |c|
  }

  /** Diffie-Hellman: both ends derive the same 32-byte secret from each
      other's public key. */
  ghost predicate AgreementSound(s: Suite)
  {
    forall a, b :: s.agree(a, s.ephemeralPublic(b)).Some?
      && |s.agree(a, s.ephemeralPublic(b)).value| == 32
      && s.agree(a, s.ephemeralPublic(b)) == s.agree(b, s.ephemeralPublic(a))
  }

  /** The session cipher (`aesCipher`): an ephemeral key pair and, once the
      peer's key is known, the raw ECDH output used directly as the AES key. */
  datatype Cipher = Cipher(ephemeral: EphemeralKey, shared: Option<seq<byte>>)

  /** A sealed payload as `Encrypt` returns it: ciphertext body followed by
      the tag, the nonce, and the offset at which the tag starts. */
  datatype AesCrypted = AesCrypted(ciphertext: seq<byte>, nonce: seq<byte>, tagOffset: int)

  /** `aes.NewCipher` accepts only AES-128, AES-192 and AES-256 keys. */
  predicate AesKeyValid(key: seq<byte>)
  {
    |key| == 16 || |key| == 24 || |key| == 32
  }

  /** `newCipher`: generates an ephemeral key pair. Key generation reads the
      random source; `generated` is its outcome (`None` when it failed). */
  function NewCipher(generated: Option<EphemeralKey>): (r: Result<Cipher>)
    ensures r.Ok? <==> generated.Some?
    ensures r.Ok? ==> r.value.ephemeral == generated.value && r.value.shared == None
    ensures r.Err? ==> r.error == KeyGenerationFailed
  {
    match generated
    case None => Err(KeyGenerationFailed)
    case Some(k) => Ok(Cipher(k, None))
  }

  /** `PublicKey()`: the encoding sent in the handshake. */
  function PublicKey(s: Suite, c: Cipher): Bytes65
  {
    s.ephemeralPublic(c.ephemeral)
  }

  /** `SharedSecret(remote)`: on success the cipher keeps its key pair and
      gains the shared secret; on failure nothing changes. */
  function SharedSecret(s: Suite, c: Cipher, remote: seq<byte>): (r: Result<Cipher>)
    ensures r.Ok? <==> s.agree(c.ephemeral, remote).Some?
    ensures r.Ok? ==> r.value == c.(shared := s.agree(c.ephemeral, remote))
    ensures r.Err? ==> r.error == KeyAgreementFailed
  {
    match s.agree(c.ephemeral, remote)
    case None => Err(KeyAgreementFailed)
    case Some(secret) => Ok(c.(shared := Some(secret)))
  }

  /** The shape `Encrypt` guarantees: a 12-byte nonce and a ciphertext whose
      last 16 bytes, starting at `tagOffset`, are the tag. */
  predicate WellFormed(a: AesCrypted)
  {
    |a.nonce| == NonceSize && 0 <= a.tagOffset && a.tagOffset + TagSize == |a.ciphertext|
  }

  /** `Encrypt`: fails when there is no usable key (no shared secret yet,
      or one of the wrong length) or when the random source cannot supply a
      nonce; `nonce` is the random source's outcome. */
  function Encrypt(s: Suite, c: Cipher, nonce: Option<Bytes12>, data: seq<byte>): (r: Result<AesCrypted>)
    ensures r.Ok? <==> c.shared.Some? && AesKeyValid(c.shared.value) && nonce.Some?
    ensures !(c.shared.Some? && AesKeyValid(c.shared.value)) ==> r == Err(InvalidCipherKey)
    ensures c.shared.Some? && AesKeyValid(c.shared.value) && nonce.None? ==> r == Err(RandomSourceFailed)
    ensures r.Ok? ==> WellFormed(r.value) && r.value.nonce == nonce.value
    ensures r.Ok? ==> r.value.ciphertext[..r.value.tagOffset] == s.seal(c.shared.value, nonce.value, data).0
    ensures r.Ok? ==> r.value.ciphertext[r.value.tagOffset..] == s.seal(c.shared.value, nonce.value, data).1
  {
    if c.shared.None? || !AesKeyValid(c.shared.value) then Err(InvalidCipherKey)
    else if nonce.None? then Err(RandomSourceFailed)
    else
      var sealed := s.seal(c.shared.value, nonce.value, data);
      var ciphertext := sealed.0 + sealed.1;
      Ok(AesCrypted(ciphertext, nonce.value, |ciphertext| - TagSize))
  }

  /** `Decrypt`: the key and the nonce length are checked before the tag. */
  function Decrypt(s: Suite, c: Cipher, x: AesCrypted): (r: Result<seq<byte>>)
    ensures r.Ok? <==> c.shared.Some? && AesKeyValid(c.shared.value) && |x.nonce| == NonceSize
                       && s.open(c.shared.value, x.nonce, x.ciphertext).Some?
    ensures r.Ok? ==> r.value == s.open(c.shared.value, x.nonce, x.ciphertext).value
  {
    if c.shared.None? || !AesKeyValid(c.shared.value) then Err(InvalidCipherKey)
    else if |x.nonce| != NonceSize then Err(InvalidNonceSize)
    else match s.open(c.shared.value, x.nonce, x.ciphertext)
      case None => Err(AuthenticationFailed)
      case Some(p) => Ok(p)
  }

  /** What `Encrypt` produced, `Decrypt` under the same cipher accepts and
      maps back to the plaintext. */
  lemma EncryptDecryptRoundTrip(s: Suite, c: Cipher, nonce: Option<Bytes12>, data: seq<byte>)
    requires SealOpens(s)
    requires Encrypt(s, c, nonce, data).Ok?
    ensures Decrypt(s, c, Encrypt(s, c, nonce, data).value) == Ok(data)
  {
    var sealed := s.seal(c.shared.value, nonce.value, data);
    assert s.open(c.shared.value, nonce.value, sealed.0 + sealed.1) == Some(data);
  }
}
