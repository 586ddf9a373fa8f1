/** The functions that append fields to byte buffers, with the position of every field in the result. */
module MessageBuilders {
  import opened Format
  import opened BigEndian
  import opened Transcripts

  predicate IsAscii(s: string) {
    forall i :: 0 <= i < |s| ==> s[i] as int < 128
  }

  /** A byte-string literal. */
  function Ascii(s: string): (b: Bytes)
    requires IsAscii(s)
    ensures |b| == |s|
  {
    seq(|s|, i requires 0 <= i < |s| => s[i] as int)
  }

  lemma RecordDomains()
    ensures CHUNK_DOMAIN == Ascii("VLT1/CHUNK\0") && MANIFEST_DOMAIN == Ascii("VLT1/MANIFEST\0")
    ensures WRAPPED_DEK_DOMAIN == Ascii("VLT1/WRAPPED-DEK\0") && ROOT_DOMAIN == Ascii("VLT1/ROOT\0")
  {
  }

  lemma MessageDomains()
    ensures DIGEST_DOMAIN == Ascii("VLT1/CHUNK-DIGEST\0") && COMMITMENT_DOMAIN == Ascii("VLT/1 witness commitment v1")
    ensures RECEIPT_DOMAIN == Ascii("VLT/1 witness receipt v1") && HEAD_DOMAIN == Ascii("VLT/1 witness head v1")
  {
  }

  /** Cuts a byte string into consecutive pieces of the given widths. */
  function Cut(b: Bytes, widths: seq<nat>): (pieces: seq<Bytes>) {
    if widths == [] then (if b == [] then [] else [b])
    else if |b| < widths[0] then []
    else [b[..widths[0]]] + Cut(b[widths[0]..], widths[1..])
  }

  lemma {:induction false} CutJoin(fields: seq<Bytes>, widths: seq<nat>)
    requires |fields| == |widths| && forall i :: 0 <= i < |fields| ==> |fields[i]| == widths[i]
    ensures Cut(Join(fields), widths) == fields
  {
    if fields == [] {
    } else {
      var b := Join(fields);
      CutJoin(fields[1..], widths[1..]);
      assert b[..widths[0]] == fields[0] && b[widths[0]..] == Join(fields[1..]);
      assert fields == [fields[0]] + fields[1..];
    }
  }

  lemma {:induction false} JoinSnoc(fields: seq<Bytes>, x: Bytes)
    ensures Join(fields + [x]) == Join(fields) + x
  {
    var all := fields + [x];
    if fields == [] {
      assert all[1..] == [];
    } else {
      assert all[1..] == fields[1..] + [x];
      JoinSnoc(fields[1..], x);
      Regroup(fields[0], Join(fields[1..]), x);
    }
  }

  lemma JoinFour(a: Bytes, b: Bytes, c: Bytes, d: Bytes)
    ensures Join([a, b, c, d]) == a + b + c + d
  {
    assert Join([a]) == a;
    JoinSnoc([a], b);
    JoinSnoc([a, b], c);
    JoinSnoc([a, b, c], d);
    assert [a] + [b] == [a, b] && [a, b] + [c] == [a, b, c] && [a, b, c] + [d] == [a, b, c, d];
  }

  /** A buffer to which fields are appended. */
  class Buffer {
    var bytes: Bytes
    ghost var fields: seq<Bytes>

    ghost predicate Valid()
      reads this
    {
      bytes == Join(fields)
    }

    constructor ()
      ensures Valid() && fields == [] && bytes == []
    {
      bytes, fields := [], [];
    }

    method ExtendFromSlice(field: Bytes)
      requires Valid()
      modifies this
      ensures Valid() && fields == old(fields) + [field]
    {
      JoinSnoc(fields, field);
      bytes := bytes + field;
      fields := fields + [field];
    }
  }

  method ChunkAad(vault: VaultId, obj: ObjectId, version: VersionId, index: U32, length: U32) returns (aad: Bytes)
    ensures aad == Aad(ChunkContext(vault, obj, version, index, length))
    ensures Cut(aad, [11, 16, 16, 16, 4, 4]) == [CHUNK_DOMAIN, vault, obj, version, U32Bytes(index), U32Bytes(length)]
  {
    var buffer := new Buffer();
    buffer.ExtendFromSlice(CHUNK_DOMAIN);
    buffer.ExtendFromSlice(vault);
    buffer.ExtendFromSlice(obj);
    buffer.ExtendFromSlice(version);
    buffer.ExtendFromSlice(U32Bytes(index));
    buffer.ExtendFromSlice(U32Bytes(length));
    assert buffer.fields == [CHUNK_DOMAIN, vault, obj, version, U32Bytes(index), U32Bytes(length)];
    CutJoin(buffer.fields, [11, 16, 16, 16, 4, 4]);
    aad := buffer.bytes;
  }

  method ManifestAad(vault: VaultId, obj: ObjectId, version: VersionId) returns (aad: Bytes)
    ensures aad == Aad(ManifestContext(vault, obj, version))
    ensures Cut(aad, [14, 16, 16, 16]) == [MANIFEST_DOMAIN, vault, obj, version]
  {
    var buffer := new Buffer();
    buffer.ExtendFromSlice(MANIFEST_DOMAIN);
    buffer.ExtendFromSlice(vault);
    buffer.ExtendFromSlice(obj);
    buffer.ExtendFromSlice(version);
    assert buffer.fields == [MANIFEST_DOMAIN, vault, obj, version];
    CutJoin(buffer.fields, [14, 16, 16, 16]);
    aad := buffer.bytes;
  }

  method WrappedDekAad(vault: VaultId, obj: ObjectId, version: VersionId) returns (aad: Bytes)
    ensures aad == Aad(WrappedDekContext(vault, obj, version))
    ensures Cut(aad, [17, 16, 16, 16]) == [WRAPPED_DEK_DOMAIN, vault, obj, version]
  {
    var buffer := new Buffer();
    buffer.ExtendFromSlice(WRAPPED_DEK_DOMAIN);
    buffer.ExtendFromSlice(vault);
    buffer.ExtendFromSlice(obj);
    buffer.ExtendFromSlice(version);
    assert buffer.fields == [WRAPPED_DEK_DOMAIN, vault, obj, version];
    CutJoin(buffer.fields, [17, 16, 16, 16]);
    aad := buffer.bytes;
  }

  method RootAad(vault: VaultId) returns (aad: Bytes)
    ensures aad == Aad(RootContext(vault)) && Cut(aad, [10, 16]) == [ROOT_DOMAIN, vault]
  {
    var buffer := new Buffer();
    buffer.ExtendFromSlice(ROOT_DOMAIN);
    buffer.ExtendFromSlice(vault);
    CutJoin(buffer.fields, [10, 16]);
    aad := buffer.bytes;
  }

  method ReceiptSigningBytes(r: Receipt) returns (message: Bytes)
    ensures message == MessageBytes(ReceiptMessage(r))
    ensures Cut(message, [24, 16, 16, 16, 8, 32])
         == [RECEIPT_DOMAIN, r.vault, r.obj, r.version, U64Bytes(r.epoch), r.commitment]
  {
    var buffer := new Buffer();
    buffer.ExtendFromSlice(RECEIPT_DOMAIN);
    buffer.ExtendFromSlice(r.vault);
    buffer.ExtendFromSlice(r.obj);
    buffer.ExtendFromSlice(r.version);
    buffer.ExtendFromSlice(U64Bytes(r.epoch));
    buffer.ExtendFromSlice(r.commitment);
    assert buffer.fields == [RECEIPT_DOMAIN, r.vault, r.obj, r.version, U64Bytes(r.epoch), r.commitment];
    CutJoin(buffer.fields, [24, 16, 16, 16, 8, 32]);
    message := buffer.bytes;
  }

  method HeadMessageBytes(
    vault: VaultId, obj: ObjectId, present: Byte, version: Bytes16, epoch: U64, commitment: Bytes32, challenge: Bytes32)
    returns (message: Bytes)
    ensures var fields: seq<Bytes> := [HEAD_DOMAIN, vault, obj, [present], version, U64Bytes(epoch), commitment, challenge];
            message == Join(fields) && Cut(message, [21, 16, 16, 1, 16, 8, 32, 32]) == fields
  {
    var buffer := new Buffer();
    buffer.ExtendFromSlice(HEAD_DOMAIN);
    buffer.ExtendFromSlice(vault);
    buffer.ExtendFromSlice(obj);
    buffer.ExtendFromSlice([present]);
    buffer.ExtendFromSlice(version);
    buffer.ExtendFromSlice(U64Bytes(epoch));
    buffer.ExtendFromSlice(commitment);
    buffer.ExtendFromSlice(challenge);
    assert buffer.fields == [HEAD_DOMAIN, vault, obj, [present], version, U64Bytes(epoch), commitment, challenge];
    CutJoin(buffer.fields, [21, 16, 16, 1, 16, 8, 32, 32]);
    message := buffer.bytes;
  }

  /** An absent version or commitment is written as zeroes. */
  method HeadSigningBytes(h: Head) returns (message: Bytes)
    ensures message == MessageBytes(HeadMessage(h))
    ensures Cut(message, [21, 16, 16, 1, 16, 8, 32, 32])
         == [HEAD_DOMAIN, h.vault, h.obj, [if h.present then 1 else 0],
             if h.version.Some? then h.version.value else ZERO16, U64Bytes(h.epoch),
             if h.commitment.Some? then h.commitment.value else ZERO32, h.challenge]
  {
    var version := if h.version.Some? then h.version.value else ZERO16;
    var commitment := if h.commitment.Some? then h.commitment.value else ZERO32;
    message := HeadMessageBytes(
      h.vault, h.obj, if h.present then 1 else 0, version, h.epoch, commitment, h.challenge);
  }

  /** The input of the version commitment: identifiers, then nonce, length and ciphertext of the Manifest record. */
  method VersionCommitmentInput(vault: VaultId, obj: ObjectId, version: VersionId, manifest: SealedRecord)
    returns (input: Bytes)
    ensures input == CommitmentTranscript(vault, obj, version, manifest)
    ensures Cut(input, [27, 16, 16, 16, 12, 8, |manifest.ciphertext|])
         == [COMMITMENT_DOMAIN, vault, obj, version, manifest.nonce, U64Bytes(|manifest.ciphertext|), manifest.ciphertext]
  {
    var buffer := new Buffer();
    buffer.ExtendFromSlice(COMMITMENT_DOMAIN);
    buffer.ExtendFromSlice(vault);
    buffer.ExtendFromSlice(obj);
    buffer.ExtendFromSlice(version);
    buffer.ExtendFromSlice(manifest.nonce);
    buffer.ExtendFromSlice(U64Bytes(|manifest.ciphertext|));
    buffer.ExtendFromSlice(manifest.ciphertext);
    assert buffer.fields == [COMMITMENT_DOMAIN, vault, obj, version, manifest.nonce, U64Bytes(|manifest.ciphertext|),
                              manifest.ciphertext];
    CutJoin(buffer.fields, [27, 16, 16, 16, 12, 8, |manifest.ciphertext|]);
    input := buffer.bytes;
  }

  /** One record in the chunk digest: index, nonce, length, ciphertext. */
  method DigestRecord(chunk: EncryptedChunk) returns (input: Bytes)
    ensures input == RecordBytes(chunk)
    ensures Cut(input, [4, 12, 8, |chunk.record.ciphertext|])
         == [U32Bytes(chunk.index), chunk.record.nonce, U64Bytes(|chunk.record.ciphertext|), chunk.record.ciphertext]
  {
    var buffer := new Buffer();
    buffer.ExtendFromSlice(U32Bytes(chunk.index));
    buffer.ExtendFromSlice(chunk.record.nonce);
    buffer.ExtendFromSlice(U64Bytes(|chunk.record.ciphertext|));
    buffer.ExtendFromSlice(chunk.record.ciphertext);
    assert buffer.fields == [U32Bytes(chunk.index), chunk.record.nonce, U64Bytes(|chunk.record.ciphertext|),
                             chunk.record.ciphertext];
    CutJoin(buffer.fields, [4, 12, 8, |chunk.record.ciphertext|]);
    JoinFour(U32Bytes(chunk.index), chunk.record.nonce, U64Bytes(|chunk.record.ciphertext|), chunk.record.ciphertext);
    input := buffer.bytes;
  }
}
