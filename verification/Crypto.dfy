/** The cryptographic primitives, as function values with their hypotheses spelled out. */
module Crypto {
  import opened Format
  import opened Transcripts

  /** AES-256-GCM-SIV, the two key derivations, the passphrase hash and SHA-256. */
  datatype Crypto = Crypto(
    seal: (Bytes32, Nonce, Bytes, Bytes) -> Buffer,
    open: (Bytes32, Bytes, SealedRecord) -> Option<Bytes>,
    kek: (Bytes32, VaultId) -> Bytes32,
    manifestKey: (Bytes32, VersionId) -> Bytes32,
    passphraseKey: (Bytes, Bytes16) -> Bytes32,
    sha256: Bytes -> Bytes32)

  function Sealed(c: Crypto, key: Bytes32, nonce: Nonce, context: Context, plaintext: Bytes): (r: SealedRecord) {
    SealedRecord(nonce, c.seal(key, nonce, Aad(context), plaintext))
  }

  function Opened(c: Crypto, key: Bytes32, context: Context, record: SealedRecord): (r: Option<Bytes>) {
    c.open(key, Aad(context), record)
  }

  /** Opening inverts sealing, for plaintexts of the sizes that a vault seals. */
  ghost predicate Correct(c: Crypto) {
    forall key, nonce, context, plaintext :: |plaintext| < 0x1_0000_0000 ==>
      Opened(c, key, context, Sealed(c, key, nonce, context, plaintext)) == Some(plaintext)
  }

  /** One use of the sealing primitive. */
  datatype Seal = Seal(key: Bytes32, aad: Bytes, record: SealedRecord, plaintext: Bytes)

  function Digest(c: Crypto, chunks: seq<EncryptedChunk>): (d: Bytes32) {
    c.sha256(DigestTranscript(chunks))
  }

  /** The commitment that a witness acknowledges for an encrypted Manifest. */
  function Commitment(c: Crypto, vault: VaultId, obj: ObjectId, version: VersionId, manifest: SealedRecord): (d: Bytes32) {
    c.sha256(CommitmentTranscript(vault, obj, version, manifest))
  }
}
