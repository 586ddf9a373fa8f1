/**
 Byte transcripts: the additional data that AEAD records authenticate, the messages that the
 witness signs, and the inputs of the two SHA-256 digests.
 */
module Transcripts {
  import opened Format
  import opened BigEndian

  /** "VLT1/CHUNK\0" */
  const CHUNK_DOMAIN: Bytes := [
    0x56, 0x4c, 0x54, 0x31, 0x2f, 0x43, 0x48, 0x55, 0x4e, 0x4b, 0x00]

  /** "VLT1/MANIFEST\0" */
  const MANIFEST_DOMAIN: Bytes := [
    0x56, 0x4c, 0x54, 0x31, 0x2f, 0x4d, 0x41, 0x4e, 0x49, 0x46, 0x45, 0x53, 0x54, 0x00]

  /** "VLT1/WRAPPED-DEK\0" */
  const WRAPPED_DEK_DOMAIN: Bytes := [
    0x56, 0x4c, 0x54, 0x31, 0x2f, 0x57, 0x52, 0x41, 0x50, 0x50, 0x45, 0x44, 0x2d, 0x44,
    0x45, 0x4b, 0x00]

  /** "VLT1/ROOT\0" */
  const ROOT_DOMAIN: Bytes := [
    0x56, 0x4c, 0x54, 0x31, 0x2f, 0x52, 0x4f, 0x4f, 0x54, 0x00]

  /** "VLT1/CHUNK-DIGEST\0" */
  const DIGEST_DOMAIN: Bytes := [
    0x56, 0x4c, 0x54, 0x31, 0x2f, 0x43, 0x48, 0x55, 0x4e, 0x4b, 0x2d, 0x44, 0x49, 0x47,
    0x45, 0x53, 0x54, 0x00]

  /** "VLT/1 witness commitment v1" */
  const COMMITMENT_DOMAIN: Bytes := [
    0x56, 0x4c, 0x54, 0x2f, 0x31, 0x20, 0x77, 0x69, 0x74, 0x6e, 0x65, 0x73, 0x73, 0x20,
    0x63, 0x6f, 0x6d, 0x6d, 0x69, 0x74, 0x6d, 0x65, 0x6e, 0x74, 0x20, 0x76, 0x31]

  /** "VLT/1 witness receipt v1" */
  const RECEIPT_DOMAIN: Bytes := [
    0x56, 0x4c, 0x54, 0x2f, 0x31, 0x20, 0x77, 0x69, 0x74, 0x6e, 0x65, 0x73, 0x73, 0x20,
    0x72, 0x65, 0x63, 0x65, 0x69, 0x70, 0x74, 0x20, 0x76, 0x31]

  /** "VLT/1 witness head v1" */
  const HEAD_DOMAIN: Bytes := [
    0x56, 0x4c, 0x54, 0x2f, 0x31, 0x20, 0x77, 0x69, 0x74, 0x6e, 0x65, 0x73, 0x73, 0x20,
    0x68, 0x65, 0x61, 0x64, 0x20, 0x76, 0x31]

  // ----- Fixed-width fields -----

  function Join(fields: seq<Bytes>): (b: Bytes) {
    if fields == [] then [] else fields[0] + Join(fields[1..])
  }

  lemma SplitEqual(a: Bytes, b: Bytes, c: Bytes, d: Bytes)
    requires |a| == |c| && a + b == c + d
    ensures a == c && b == d
  {
    assert a == (a + b)[..|a|] && c == (c + d)[..|c|];
    assert b == (a + b)[|a|..] && d == (c + d)[|c|..];
  }

  /** Fields of fixed widths can be read back from their concatenation. */
  lemma {:induction false} JoinInjective(a: seq<Bytes>, b: seq<Bytes>)
    requires |a| == |b|
    requires forall i :: 0 <= i < |a| ==> |a[i]| == |b[i]|
    requires Join(a) == Join(b)
    ensures a == b
  {
    if a == [] {
    } else {
      SplitEqual(a[0], Join(a[1..]), b[0], Join(b[1..]));
      JoinInjective(a[1..], b[1..]);
      assert a == [a[0]] + a[1..] && b == [b[0]] + b[1..];
    }
  }

  lemma {:induction false} JoinLength(fields: seq<Bytes>, bound: nat)
    requires forall i :: 0 <= i < |fields| ==> |fields[i]| <= bound
    ensures |Join(fields)| <= |fields| * bound
  {
    if fields == [] {
    } else {
      JoinLength(fields[1..], bound);
    }
  }

  lemma DomainFirst(fields: seq<Bytes>, i: nat)
    requires fields != [] && i < |fields[0]|
    ensures i < |Join(fields)| && Join(fields)[i] == fields[0][i]
  {
  }

  // ----- AEAD additional data -----

  function ChunkAad(vault: VaultId, obj: ObjectId, version: VersionId, index: U32, length: U32): (b: Bytes) {
    Join([CHUNK_DOMAIN, vault, obj, version, U32Bytes(index), U32Bytes(length)])
  }

  function ManifestAad(vault: VaultId, obj: ObjectId, version: VersionId): (b: Bytes) {
    Join([MANIFEST_DOMAIN, vault, obj, version])
  }

  function WrappedDekAad(vault: VaultId, obj: ObjectId, version: VersionId): (b: Bytes) {
    Join([WRAPPED_DEK_DOMAIN, vault, obj, version])
  }

  function RootAad(vault: VaultId): (b: Bytes) {
    Join([ROOT_DOMAIN, vault])
  }

  /** Every context in which a record is sealed. */
  datatype Context =
    | ChunkContext(vault: VaultId, obj: ObjectId, version: VersionId, index: U32, length: U32)
    | ManifestContext(vault: VaultId, obj: ObjectId, version: VersionId)
    | WrappedDekContext(vault: VaultId, obj: ObjectId, version: VersionId)
    | RootContext(vault: VaultId)

  function Aad(c: Context): (b: Bytes) {
    match c
    case ChunkContext(vault, obj, version, index, length) => ChunkAad(vault, obj, version, index, length)
    case ManifestContext(vault, obj, version) => ManifestAad(vault, obj, version)
    case WrappedDekContext(vault, obj, version) => WrappedDekAad(vault, obj, version)
    case RootContext(vault) => RootAad(vault)
  }

  /** The sixth byte of the additional data names the kind of record. */
  lemma AadKind(c: Context)
    ensures |Aad(c)| > 5
    ensures Aad(c)[5] == match c
                         case ChunkContext(_, _, _, _, _) => 0x43
                         case ManifestContext(_, _, _) => 0x4d
                         case WrappedDekContext(_, _, _) => 0x57
                         case RootContext(_) => 0x52
  {
    match c
    case ChunkContext(vault, obj, version, index, length) =>
      DomainFirst([CHUNK_DOMAIN, vault, obj, version, U32Bytes(index), U32Bytes(length)], 5);
    case ManifestContext(vault, obj, version) =>
      DomainFirst([MANIFEST_DOMAIN, vault, obj, version], 5);
    case WrappedDekContext(vault, obj, version) =>
      DomainFirst([WRAPPED_DEK_DOMAIN, vault, obj, version], 5);
    case RootContext(vault) =>
      DomainFirst([ROOT_DOMAIN, vault], 5);
  }

  /** All additional data starts alike, and is short. */
  lemma AadStart(c: Context)
    ensures 3 < |Aad(c)| < 0x1_0000 && Aad(c)[3] == 0x31
  {
    match c
    case ChunkContext(vault, obj, version, index, length) =>
      JoinLength([CHUNK_DOMAIN, vault, obj, version, U32Bytes(index), U32Bytes(length)], 64);
      DomainFirst([CHUNK_DOMAIN, vault, obj, version, U32Bytes(index), U32Bytes(length)], 3);
    case ManifestContext(vault, obj, version) =>
      JoinLength([MANIFEST_DOMAIN, vault, obj, version], 64);
      DomainFirst([MANIFEST_DOMAIN, vault, obj, version], 3);
    case WrappedDekContext(vault, obj, version) =>
      JoinLength([WRAPPED_DEK_DOMAIN, vault, obj, version], 64);
      DomainFirst([WRAPPED_DEK_DOMAIN, vault, obj, version], 3);
    case RootContext(vault) =>
      JoinLength([ROOT_DOMAIN, vault], 64);
      DomainFirst([ROOT_DOMAIN, vault], 3);
  }

  /** Additional data determines its whole context: kinds are disjoint and fields unambiguous. */
  lemma AadInjective(c: Context, d: Context)
    requires Aad(c) == Aad(d)
    ensures c == d
  {
    AadKind(c);
    AadKind(d);
    match c
    case ChunkContext(v, o, w, i, n) =>
      var a := [CHUNK_DOMAIN, v, o, w, U32Bytes(i), U32Bytes(n)];
      var b := [CHUNK_DOMAIN, d.vault, d.obj, d.version, U32Bytes(d.index), U32Bytes(d.length)];
      JoinInjective(a, b);
      assert a[1] == b[1] && a[2] == b[2] && a[3] == b[3] && a[4] == b[4] && a[5] == b[5];
      U32BytesInjective(i, d.index);
      U32BytesInjective(n, d.length);
    case ManifestContext(v, o, w) =>
      var a, b := [MANIFEST_DOMAIN, v, o, w], [MANIFEST_DOMAIN, d.vault, d.obj, d.version];
      JoinInjective(a, b);
      assert a[1] == b[1] && a[2] == b[2] && a[3] == b[3];
    case WrappedDekContext(v, o, w) =>
      var a, b := [WRAPPED_DEK_DOMAIN, v, o, w], [WRAPPED_DEK_DOMAIN, d.vault, d.obj, d.version];
      JoinInjective(a, b);
      assert a[1] == b[1] && a[2] == b[2] && a[3] == b[3];
    case RootContext(v) =>
      var a, b := [ROOT_DOMAIN, v], [ROOT_DOMAIN, d.vault];
      JoinInjective(a, b);
      assert a[1] == b[1];
  }

  // ----- Witness messages -----

  /** A request for the witness to acknowledge one immutable version. */
  datatype WitnessRequest = WitnessRequest(
    vault: VaultId, obj: ObjectId, version: VersionId, commitment: Bytes32)

  /** A signed acknowledgement; key and signature are left to the signed-message log. */
  datatype Receipt = Receipt(
    vault: VaultId, obj: ObjectId, version: VersionId, epoch: U64, commitment: Bytes32)

  /** A challenge-bound view of one object head, as it travels on the wire. */
  datatype Head = Head(
    vault: VaultId,
    obj: ObjectId,
    present: bool,
    version: Option<VersionId>,
    epoch: U64,
    commitment: Option<Bytes32>,
    challenge: Bytes32)

  const ZERO16: Bytes16 := [0, 0, 0, 0, 0, 0, 0, 0, 0, 0, 0, 0, 0, 0, 0, 0]
  const ZERO32: Bytes32 := ZERO16 + ZERO16

  function ReceiptBytes(r: Receipt): (b: Bytes) {
    Join([RECEIPT_DOMAIN, r.vault, r.obj, r.version, U64Bytes(r.epoch), r.commitment])
  }

  function HeadFields(h: Head): (f: seq<Bytes>)
    ensures |f| == 8
  {
    [ HEAD_DOMAIN,
      h.vault,
      h.obj,
      [if h.present then 1 else 0],
      if h.version.Some? then h.version.value else ZERO16,
      U64Bytes(h.epoch),
      if h.commitment.Some? then h.commitment.value else ZERO32,
      h.challenge ]
  }

  function HeadBytes(h: Head): (b: Bytes) {
    Join(HeadFields(h))
  }

  /** The head that an honest witness signs for its stored receipt. */
  function IssuedHead(vault: VaultId, obj: ObjectId, receipt: Option<Receipt>, challenge: Bytes32): (h: Head) {
    match receipt
    case None => Head(vault, obj, false, None, 0, None, challenge)
    case Some(r) => Head(vault, obj, true, Some(r.version), r.epoch, Some(r.commitment), challenge)
  }

  /** The presence checks that a received head must pass before its signature is verified. */
  predicate PresenceConsistent(h: Head) {
    && (h.present <==> h.version.Some? && h.commitment.Some?)
    && (!h.present ==> h.epoch == 0)
  }

  /** Signed messages. */
  datatype Message = ReceiptMessage(receipt: Receipt) | HeadMessage(head: Head)

  function MessageBytes(m: Message): (b: Bytes) {
    match m
    case ReceiptMessage(r) => ReceiptBytes(r)
    case HeadMessage(h) => HeadBytes(h)
  }

  lemma ReceiptBytesInjective(r: Receipt, q: Receipt)
    requires ReceiptBytes(r) == ReceiptBytes(q)
    ensures r == q
  {
    var a := [RECEIPT_DOMAIN, r.vault, r.obj, r.version, U64Bytes(r.epoch), r.commitment];
    var b := [RECEIPT_DOMAIN, q.vault, q.obj, q.version, U64Bytes(q.epoch), q.commitment];
    JoinInjective(a, b);
    assert a[1] == b[1] && a[2] == b[2] && a[3] == b[3] && a[4] == b[4] && a[5] == b[5];
    U64BytesInjective(r.epoch, q.epoch);
  }

  /** What the bytes of a head determine: an absent version reads as zeroes. */
  lemma HeadBytesDetermine(h: Head, g: Head)
    requires HeadBytes(h) == HeadBytes(g)
    ensures h.vault == g.vault && h.obj == g.obj && h.present == g.present
    ensures h.epoch == g.epoch && h.challenge == g.challenge
    ensures (if h.version.Some? then h.version.value else ZERO16) == (if g.version.Some? then g.version.value else ZERO16)
    ensures (if h.commitment.Some? then h.commitment.value else ZERO32)
         == (if g.commitment.Some? then g.commitment.value else ZERO32)
  {
    var a, b := HeadFields(h), HeadFields(g);
    JoinInjective(a, b);
    assert a[1] == b[1] && a[2] == b[2] && a[3] == b[3] && a[4] == b[4] && a[5] == b[5] && a[6] == b[6] && a[7] == b[7];
    assert a[3][0] == b[3][0];
    U64BytesInjective(h.epoch, g.epoch);
  }

  /** A present head that passes the presence checks is exactly the head whose bytes were signed. */
  lemma PresentHeadInjective(h: Head, vault: VaultId, obj: ObjectId, receipt: Option<Receipt>, challenge: Bytes32)
    requires h.present && PresenceConsistent(h)
    requires HeadBytes(h) == HeadBytes(IssuedHead(vault, obj, receipt, challenge))
    ensures receipt.Some? && h == IssuedHead(vault, obj, receipt, challenge)
  {
    HeadBytesDetermine(h, IssuedHead(vault, obj, receipt, challenge));
  }

  /** Among issued heads, bytes determine the head. */
  lemma IssuedHeadInjective(
    v1: VaultId, o1: ObjectId, r1: Option<Receipt>, c1: Bytes32,
    v2: VaultId, o2: ObjectId, r2: Option<Receipt>, c2: Bytes32)
    requires HeadBytes(IssuedHead(v1, o1, r1, c1)) == HeadBytes(IssuedHead(v2, o2, r2, c2))
    ensures IssuedHead(v1, o1, r1, c1) == IssuedHead(v2, o2, r2, c2)
  {
    HeadBytesDetermine(IssuedHead(v1, o1, r1, c1), IssuedHead(v2, o2, r2, c2));
  }

  /** Without the presence flag set, bytes do not determine the version field of a wire head. */
  lemma AbsentHeadAmbiguous(vault: VaultId, obj: ObjectId, challenge: Bytes32)
    ensures var h := Head(vault, obj, false, Some(ZERO16), 0, None, challenge);
            var g := IssuedHead(vault, obj, None, challenge);
            PresenceConsistent(h) && HeadBytes(h) == HeadBytes(g) && h != g
  {
    var h := Head(vault, obj, false, Some(ZERO16), 0, None, challenge);
    assert HeadFields(h) == HeadFields(IssuedHead(vault, obj, None, challenge));
  }

  /** The exact condition under which a verified wire head is the head that was signed. */
  lemma WireHeadExact(h: Head, vault: VaultId, obj: ObjectId, receipt: Option<Receipt>, challenge: Bytes32)
    requires PresenceConsistent(h) && HeadBytes(h) == HeadBytes(IssuedHead(vault, obj, receipt, challenge))
    ensures h == IssuedHead(vault, obj, receipt, challenge) <==> h.present || (h.version.None? && h.commitment.None?)
  {
    HeadBytesDetermine(h, IssuedHead(vault, obj, receipt, challenge));
  }

  /** A receipt signature can never be taken for a head signature. */
  lemma ReceiptsAreNotHeads(r: Receipt, h: Head)
    ensures ReceiptBytes(r) != HeadBytes(h)
  {
    DomainFirst([RECEIPT_DOMAIN, r.vault, r.obj, r.version, U64Bytes(r.epoch), r.commitment], 14);
    DomainFirst(HeadFields(h), 14);
  }

  /** Signed messages and associated data never coincide: their first bytes tell them apart. */
  lemma MessagesAreNotAad(m: Message, c: Context)
    ensures MessageBytes(m) != Aad(c)
  {
    AadStart(c);
    match m
    case ReceiptMessage(r) =>
      DomainFirst([RECEIPT_DOMAIN, r.vault, r.obj, r.version, U64Bytes(r.epoch), r.commitment], 3);
    case HeadMessage(h) => DomainFirst(HeadFields(h), 3);
  }

  // ----- Digest inputs -----

  function CommitmentTranscript(vault: VaultId, obj: ObjectId, version: VersionId, manifest: SealedRecord): (b: Bytes) {
    Join([COMMITMENT_DOMAIN, vault, obj, version, manifest.nonce, U64Bytes(|manifest.ciphertext|),
          manifest.ciphertext])
  }

  function RecordBytes(chunk: EncryptedChunk): (b: Bytes)
    ensures |b| == 24 + |chunk.record.ciphertext|
  {
    U32Bytes(chunk.index) + chunk.record.nonce + U64Bytes(|chunk.record.ciphertext|) + chunk.record.ciphertext
  }

  function RecordsBytes(chunks: seq<EncryptedChunk>): (b: Bytes) {
    if chunks == [] then [] else RecordBytes(chunks[0]) + RecordsBytes(chunks[1..])
  }

  function DigestTranscript(chunks: seq<EncryptedChunk>): (b: Bytes) {
    DIGEST_DOMAIN + RecordsBytes(chunks)
  }

  lemma {:induction false} RecordsBytesSnoc(chunks: seq<EncryptedChunk>, c: EncryptedChunk)
    ensures RecordsBytes(chunks + [c]) == RecordsBytes(chunks) + RecordBytes(c)
  {
    var all := chunks + [c];
    if chunks == [] {
      assert all[1..] == [];
    } else {
      assert all[1..] == chunks[1..] + [c];
      RecordsBytesSnoc(chunks[1..], c);
    }
  }

  lemma Regroup5(a: Bytes, b: Bytes, c: Bytes, d: Bytes, x: Bytes)
    ensures a + b + c + d + x == a + (b + (c + (d + x)))
    ensures a + b + c + d + x == a + (b + c + d + x)
  {
    Regroup(a + b + c, d, x);
    Regroup(a + b, c, d + x);
    Regroup(a, b, c + (d + x));
    Regroup(b + c, d, x);
    Regroup(b, c, d + x);
  }

  lemma RecordBytesPrefixFree(c: EncryptedChunk, d: EncryptedChunk, x: Bytes, y: Bytes)
    requires RecordBytes(c) + x == RecordBytes(d) + y
    ensures c == d && x == y
  {
    var a1, b1 := U32Bytes(c.index), U32Bytes(d.index);
    var a3, b3 := U64Bytes(|c.record.ciphertext|), U64Bytes(|d.record.ciphertext|);
    var a4, b4 := c.record.ciphertext, d.record.ciphertext;
    Regroup5(a1, c.record.nonce, a3, a4, x);
    Regroup5(b1, d.record.nonce, b3, b4, y);
    SplitEqual(a1, c.record.nonce + (a3 + (a4 + x)), b1, d.record.nonce + (b3 + (b4 + y)));
    SplitEqual(c.record.nonce, a3 + (a4 + x), d.record.nonce, b3 + (b4 + y));
    SplitEqual(a3, a4 + x, b3, b4 + y);
    U32BytesInjective(c.index, d.index);
    U64BytesInjective(|a4|, |b4|);
    SplitEqual(a4, x, b4, y);
  }

  lemma {:induction false} RecordsBytesInjective(c: seq<EncryptedChunk>, d: seq<EncryptedChunk>)
    requires RecordsBytes(c) == RecordsBytes(d)
    ensures c == d
  {
    if c == [] || d == [] {
    } else {
      RecordBytesPrefixFree(c[0], d[0], RecordsBytes(c[1..]), RecordsBytes(d[1..]));
      RecordsBytesInjective(c[1..], d[1..]);
      assert c == [c[0]] + c[1..] && d == [d[0]] + d[1..];
    }
  }

  /** The digest input determines the whole sequence of records, of any length. */
  lemma DigestTranscriptInjective(c: seq<EncryptedChunk>, d: seq<EncryptedChunk>)
    requires DigestTranscript(c) == DigestTranscript(d)
    ensures c == d
  {
    SplitEqual(DIGEST_DOMAIN, RecordsBytes(c), DIGEST_DOMAIN, RecordsBytes(d));
    RecordsBytesInjective(c, d);
  }

  lemma CommitmentTranscriptInjective(
    v1: VaultId, o1: ObjectId, w1: VersionId, m1: SealedRecord,
    v2: VaultId, o2: ObjectId, w2: VersionId, m2: SealedRecord)
    requires CommitmentTranscript(v1, o1, w1, m1) == CommitmentTranscript(v2, o2, w2, m2)
    ensures v1 == v2 && o1 == o2 && w1 == w2 && m1 == m2
  {
    var a: seq<Bytes> := [COMMITMENT_DOMAIN, v1, o1, w1, m1.nonce, U64Bytes(|m1.ciphertext|)];
    var b: seq<Bytes> := [COMMITMENT_DOMAIN, v2, o2, w2, m2.nonce, U64Bytes(|m2.ciphertext|)];
    var x, y := m1.ciphertext, m2.ciphertext;
    assert a + [x] == [COMMITMENT_DOMAIN, v1, o1, w1, m1.nonce, U64Bytes(|m1.ciphertext|), m1.ciphertext];
    assert b + [y] == [COMMITMENT_DOMAIN, v2, o2, w2, m2.nonce, U64Bytes(|m2.ciphertext|), m2.ciphertext];
    JoinLastFree(a, b, x, y);
    assert a[1] == b[1] && a[2] == b[2] && a[3] == b[3] && a[4] == b[4];
  }

  /** Fixed-width fields in front of a last field of any width can be read back. */
  lemma {:induction false} JoinLastFree(a: seq<Bytes>, b: seq<Bytes>, x: Bytes, y: Bytes)
    requires |a| == |b|
    requires forall i :: 0 <= i < |a| ==> |a[i]| == |b[i]|
    requires Join(a + [x]) == Join(b + [y])
    ensures a == b && x == y
  {
    if a == [] {
      assert (a + [x])[1..] == [] && (b + [y])[1..] == [];
      assert Join(a + [x]) == x && Join(b + [y]) == y;
    } else {
      assert (a + [x])[1..] == a[1..] + [x] && (b + [y])[1..] == b[1..] + [y];
      SplitEqual(a[0], Join(a[1..] + [x]), b[0], Join(b[1..] + [y]));
      JoinLastFree(a[1..], b[1..], x, y);
      assert a == [a[0]] + a[1..] && b == [b[0]] + b[1..];
    }
  }

  // ----- The incremental digest -----

  class ChunkDigestBuilder {
    var transcript: Bytes
    ghost var records: seq<EncryptedChunk>

    ghost predicate Valid()
      reads this
    {
      transcript == DigestTranscript(records)
    }

    constructor ()
      ensures Valid() && records == []
    {
      transcript := DIGEST_DOMAIN;
      records := [];
    }

    method Update(chunk: EncryptedChunk)
      requires Valid()
      modifies this
      ensures Valid() && records == old(records) + [chunk]
    {
      ghost var before := transcript;
      transcript := transcript + U32Bytes(chunk.index);
      transcript := transcript + chunk.record.nonce;
      transcript := transcript + U64Bytes(|chunk.record.ciphertext|);
      transcript := transcript + chunk.record.ciphertext;
      Regroup5(before, U32Bytes(chunk.index), chunk.record.nonce, U64Bytes(|chunk.record.ciphertext|),
               chunk.record.ciphertext);
      RecordsBytesSnoc(records, chunk);
      Regroup(DIGEST_DOMAIN, RecordsBytes(records), RecordBytes(chunk));
      records := records + [chunk];
    }
  }
}
