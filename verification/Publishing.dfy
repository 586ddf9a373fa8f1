/** The two writers of an immutable version: from a whole plaintext, and from a reader. */
module Publishing {
  import opened Format
  import opened Transcripts
  import opened Crypto
  import opened Storage
  import opened BigEndian
  import opened Chunking
  import opened StreamIo
  import Codec = ManifestCodec

  const MAX_CHUNKS_PER_VERSION: nat := 0x100_0000

  /** The random choices behind one version. */
  datatype Secrets = Secrets(
    version: VersionId,
    dek: Bytes32,
    chunkNonces: nat -> Nonce,
    manifestNonce: Nonce,
    dekNonce: Nonce)

  datatype Prepared = Prepared(row: StoredVersion, chunks: seq<EncryptedChunk>)

  // ----- The stored object, as a function of the plaintext -----

  /** The chunk sizes and chunk counts that both writers accept. */
  predicate Publishable(p: Format.Bytes, size: nat) {
    0 < size < 0x1_0000_0000 && |Chunks(p, size)| <= MAX_CHUNKS_PER_VERSION
  }

  predicate Fits(parts: seq<Format.Bytes>) {
    && |parts| <= MAX_CHUNKS_PER_VERSION
    && forall i :: 0 <= i < |parts| ==> |parts[i]| < 0x1_0000_0000
  }

  function SealChunk(c: Crypto, vault: VaultId, obj: ObjectId, s: Secrets, index: U32, part: Format.Bytes): (e: EncryptedChunk)
    requires |part| < 0x1_0000_0000
  {
    EncryptedChunk(index, Sealed(c, s.dek, s.chunkNonces(index), ChunkContext(vault, obj, s.version, index, |part|), part))
  }

  function SealChunks(c: Crypto, vault: VaultId, obj: ObjectId, s: Secrets, parts: seq<Format.Bytes>): (e: seq<EncryptedChunk>)
    requires Fits(parts)
    ensures |e| == |parts|
    ensures forall i :: 0 <= i < |e| ==> e[i] == SealChunk(c, vault, obj, s, i, parts[i])
  {
    seq(|parts|, i requires 0 <= i < |parts| => SealChunk(c, vault, obj, s, i, parts[i]))
  }

  function ManifestOf(c: Crypto, obj: ObjectId, s: Secrets, length: U64, size: U32, chunks: seq<EncryptedChunk>): (m: Manifest)
    requires |chunks| <= MAX_CHUNKS_PER_VERSION
  {
    Manifest(FORMAT_VERSION, obj, s.version, length, size, |chunks|, Digest(c, chunks))
  }

  function RowOf(c: Crypto, vault: VaultId, root: Bytes32, obj: ObjectId, s: Secrets, m: Manifest): (row: StoredVersion) {
    StoredVersion(
      obj,
      s.version,
      Sealed(c, c.kek(root, vault), s.dekNonce, WrappedDekContext(vault, obj, s.version), s.dek),
      Sealed(c, c.manifestKey(s.dek, s.version), s.manifestNonce, ManifestContext(vault, obj, s.version), Codec.Encoded(m)),
      m.plaintextLen,
      m.chunkSize,
      m.chunkCount)
  }

  /** Accepted plaintexts are far below every integer bound. */
  lemma PublishableFits(p: Format.Bytes, size: nat)
    requires Publishable(p, size)
    ensures Fits(Chunks(p, size))
    ensures |p| <= 0x1_0000_0000 * 0x100_0000 <= I64_MAX
  {
    var parts := Chunks(p, size);
    ChunkLengths(p, size);
    if p != [] {
      MulBound(size, |parts| - 1, 0x1_0000_0000, 0xff_ffff);
    }
  }

  function Published(c: Crypto, vault: VaultId, root: Bytes32, obj: ObjectId, p: Format.Bytes, size: nat, s: Secrets): (r: Prepared)
    requires Publishable(p, size)
  {
    PublishableFits(p, size);
    var chunks := SealChunks(c, vault, obj, s, Chunks(p, size));
    Prepared(RowOf(c, vault, root, obj, s, ManifestOf(c, obj, s, |p|, size, chunks)), chunks)
  }

  lemma SealChunksSnoc(c: Crypto, vault: VaultId, obj: ObjectId, s: Secrets, parts: seq<Format.Bytes>, part: Format.Bytes)
    requires Fits(parts + [part])
    ensures Fits(parts) && |part| < 0x1_0000_0000
    ensures SealChunks(c, vault, obj, s, parts + [part])
         == SealChunks(c, vault, obj, s, parts) + [SealChunk(c, vault, obj, s, |parts|, part)]
  {
    var all := parts + [part];
    assert forall i :: 0 <= i < |parts| ==> all[i] == parts[i];
    assert all[|parts|] == part;
  }

  // ----- Exactly which plaintexts can be published, and when that applies -----

  /** The writers accept exactly the plaintexts of at most 2^24 pieces of a legal size. */
  lemma PublishableExactly(p: Format.Bytes, size: nat)
    ensures Publishable(p, size) <==> 1 <= size < 0x1_0000_0000 && |p| <= size * 0x100_0000
  {
    if 0 < size {
      ChunkLengths(p, size);
      if p != [] {
        var n := |Chunks(p, size)|;
        var last := |Chunks(p, size)[n - 1]|;
        assert |p| == size * (n - 1) + last;
        if n <= 0x100_0000 {
          MulBound(size, n, size, 0x100_0000);
          assert size * n == size * (n - 1) + size;
        } else {
          MulBound(size, 0x100_0000, size, n - 1);
        }
      }
    }
  }

  /** The random nonces of the first `n` chunks are pairwise different. */
  ghost predicate DistinctChunkNonces(s: Secrets, n: nat) {
    forall i, j :: 0 <= i < j < n ==> s.chunkNonces(i) != s.chunkNonces(j)
  }

  lemma SealedNonces(c: Crypto, vault: VaultId, obj: ObjectId, s: Secrets, parts: seq<Format.Bytes>)
    requires Fits(parts)
    ensures InOrder(SealChunks(c, vault, obj, s, parts))
    ensures DistinctNonces(SealChunks(c, vault, obj, s, parts)) <==> DistinctChunkNonces(s, |parts|)
  {
    var e := SealChunks(c, vault, obj, s, parts);
    assert forall i :: 0 <= i < |e| ==> e[i].index == i && e[i].record.nonce == s.chunkNonces(i);
  }

  /** A prepared version can be published if and only if its identifier is new and its nonces distinct. */
  lemma PublishedExactly(
    c: Crypto, vault: VaultId, root: Bytes32, obj: ObjectId, p: Format.Bytes, size: nat, s: Secrets, db: Db)
    requires Valid(db) && Publishable(p, size)
    ensures var whole := Published(c, vault, root, obj, p, size, s);
            && InOrder(whole.chunks)
            && (PublishTx(db, whole.row, whole.chunks).Some? <==>
                  s.version !in db.versions && DistinctChunkNonces(s, |Chunks(p, size)|))
  {
    PublishableFits(p, size);
    var whole := Published(c, vault, root, obj, p, size, s);
    SealedNonces(c, vault, obj, s, Chunks(p, size));
    PublishExactly(db, whole.row, whole.chunks);
  }

  // ----- Writing from a whole plaintext -----

  lemma ChunkCount(p: Format.Bytes, size: nat)
    requires size > 0
    ensures |Chunks(p, size)| == if p == [] then 0 else (|p| + size - 1) / size
  {
    ChunkLengths(p, size);
    if p != [] {
      var n := |Chunks(p, size)|;
      var last := |Chunks(p, size)[n - 1]|;
      assert size * n == size * (n - 1) + size;
      DivideExact(n, last - 1, size);
    }
  }

  /** Accepts exactly the publishable plaintexts of an unlocked vault, and prepares their stored form. */
  method PrepareVersion(
    c: Crypto, vault: VaultId, rootKey: Option<Bytes32>, obj: ObjectId, plaintext: Buffer, chunkSize: nat, s: Secrets)
    returns (r: Result<Prepared>)
    ensures r.Ok? <==> rootKey.Some? && Publishable(plaintext, chunkSize)
    ensures r.Ok? ==> r.value == Published(c, vault, rootKey.value, obj, plaintext, chunkSize, s)
    ensures r.Err? ==> r.error == if rootKey.None? then Locked else InvalidInput
  {
    if rootKey.None? {
      return Err(Locked);
    }
    if chunkSize == 0 || chunkSize >= 0x1_0000_0000 {
      return Err(InvalidInput);
    }
    var chunkCount := if plaintext == [] then 0 else (|plaintext| + chunkSize - 1) / chunkSize;
    ChunkCount(plaintext, chunkSize);
    if chunkCount >= 0x1_0000_0000 || chunkCount > MAX_CHUNKS_PER_VERSION {
      return Err(InvalidInput);
    }
    PublishableFits(plaintext, chunkSize);
    var chunks, digest := SealAll(c, vault, obj, plaintext, chunkSize, s);
    var manifest := Manifest(FORMAT_VERSION, obj, s.version, |plaintext|, chunkSize, chunkCount, digest);
    var bytes := Codec.EncodeManifest(manifest);
    var sealedManifest :=
      Sealed(c, c.manifestKey(s.dek, s.version), s.manifestNonce, ManifestContext(vault, obj, s.version), bytes);
    var wrappedDek :=
      Sealed(c, c.kek(rootKey.value, vault), s.dekNonce, WrappedDekContext(vault, obj, s.version), s.dek);
    r := Ok(Prepared(
      StoredVersion(obj, s.version, wrappedDek, sealedManifest, |plaintext|, chunkSize, chunkCount), chunks));
  }

  /** The encryption loop over the pieces of a plaintext. */
  method SealAll(c: Crypto, vault: VaultId, obj: ObjectId, plaintext: Format.Bytes, chunkSize: nat, s: Secrets)
    returns (chunks: seq<EncryptedChunk>, digest: Bytes32)
    requires Publishable(plaintext, chunkSize) && Fits(Chunks(plaintext, chunkSize))
    ensures chunks == SealChunks(c, vault, obj, s, Chunks(plaintext, chunkSize))
    ensures digest == Digest(c, chunks)
  {
    var builder := new ChunkDigestBuilder();
    chunks := [];
    var offset := 0;
    ghost var sealedParts: seq<Format.Bytes> := [];
    assert plaintext[0..] == plaintext;
    while offset < |plaintext|
      invariant 0 <= offset <= |plaintext|
      invariant Chunks(plaintext, chunkSize) == sealedParts + Chunks(plaintext[offset..], chunkSize)
      invariant Fits(sealedParts)
      invariant builder.Valid() && fresh(builder) && builder.records == chunks
      invariant chunks == SealChunks(c, vault, obj, s, sealedParts)
    {
      var end := if |plaintext| - offset <= chunkSize then |plaintext| else offset + chunkSize;
      var chunk := plaintext[offset..end];
      TakeSlice(plaintext, offset, end, chunkSize, sealedParts);
      SealChunksSnoc(c, vault, obj, s, sealedParts, chunk);
      var context := ChunkContext(vault, obj, s.version, |chunks|, |chunk|);
      var encrypted := EncryptedChunk(|chunks|, Sealed(c, s.dek, s.chunkNonces(|chunks|), context, chunk));
      builder.Update(encrypted);
      chunks := chunks + [encrypted];
      sealedParts := sealedParts + [chunk];
      offset := end;
    }
    assert plaintext[offset..] == [];
    assert Chunks(plaintext, chunkSize) == sealedParts;
    digest := c.sha256(builder.transcript);
  }

  /** One more piece is taken from what is left. */
  lemma TakeChunk(all: seq<Format.Bytes>, done: seq<Format.Bytes>, rest: Format.Bytes, size: nat)
    requires size > 0 && rest != []
    requires all == done + Chunks(rest, size)
    ensures var n := if |rest| <= size then |rest| else size;
            && all == (done + [rest[..n]]) + Chunks(rest[n..], size)
            && (Fits(all) ==> Fits(done + [rest[..n]]))
  {
    var n := if |rest| <= size then |rest| else size;
    NextChunk(rest, size);
    MoveOne(done, rest[..n], Chunks(rest[n..], size));
    var taken := done + [rest[..n]];
    assert forall i :: 0 <= i < |taken| ==> taken[i] == all[i];
  }

  lemma TakeSlice(p: Format.Bytes, offset: nat, end: nat, size: nat, done: seq<Format.Bytes>)
    requires size > 0 && offset < |p| && end == if |p| - offset <= size then |p| else offset + size
    requires Chunks(p, size) == done + Chunks(p[offset..], size) && Fits(Chunks(p, size))
    ensures Chunks(p, size) == (done + [p[offset..end]]) + Chunks(p[end..], size)
    ensures Fits(done + [p[offset..end]])
  {
    var rest := p[offset..];
    TakeChunk(Chunks(p, size), done, rest, size);
    assert p[offset..end] == rest[..end - offset] && p[end..] == rest[end - offset..];
  }

  // ----- Writing from a reader -----

  /** Placeholder first, chunks next, final row last: the outcome is that of the one-shot transaction. */
  lemma StreamedEqualsBatch(db: Db, row: StoredVersion, chunks: seq<EncryptedChunk>)
    requires row.chunkSize > 0 && row.plaintextLen <= I64_MAX && |chunks| == row.chunkCount
    ensures var placed := InsertVersion(db, Placeholder(row.objectId, row.versionId, row.wrappedDek, row.chunkSize));
            && (placed.None? ==> PublishTx(db, row, chunks).None?)
            && (placed.Some? ==>
                  var tx := InsertChunks(placed.value, row.versionId, chunks);
                  && (tx.None? ==> PublishTx(db, row, chunks).None?)
                  && (tx.Some? ==>
                        FinishTx(tx.value, row.objectId, row.versionId, row.manifest, row.plaintextLen, row.chunkCount, row.chunkCount)
                        == PublishTx(db, row, chunks)))
  {
    var placed := InsertVersion(db, Placeholder(row.objectId, row.versionId, row.wrappedDek, row.chunkSize));
    if placed.Some? {
      var whole := InsertVersion(db, row);
      InsertChunksFrame(placed.value, whole.value, row.versionId, chunks);
      var tx := InsertChunks(placed.value, row.versionId, chunks);
      if tx.Some? {
        assert placed.value.versions[row.versionId := row] == whole.value.versions;
      }
    }
  }

  /** The pieces read so far have been sealed, inserted and digested. */
  ghost predicate Progress(
    c: Crypto, vault: VaultId, obj: ObjectId, s: Secrets, size: nat, start: Db,
    publication: StreamingPublication, digest: ChunkDigestBuilder, parts: seq<Format.Bytes>)
    reads publication, digest
  {
    && publication.objectId == obj && publication.versionId == s.version
    && Fits(parts)
    && InsertChunks(start, s.version, SealChunks(c, vault, obj, s, parts)) == Some(publication.tx)
    && publication.nextChunkIndex == |parts|
    && publication.plaintextLen == |Concat(parts)| <= |parts| * size
    && digest.Valid() && digest.records == SealChunks(c, vault, obj, s, parts)
  }

  /** Seals, digests and inserts one piece; fails only by an injected fault or a refused insertion. */
  method AppendPart(
    c: Crypto, vault: VaultId, obj: ObjectId, s: Secrets, size: nat, ghost start: Db,
    publication: StreamingPublication, digest: ChunkDigestBuilder, part: Format.Bytes, count: nat, fault: Fault,
    ghost parts: seq<Format.Bytes>)
    returns (r: Result<()>)
    requires Progress(c, vault, obj, s, size, start, publication, digest, parts)
    requires count == |parts| < MAX_CHUNKS_PER_VERSION && |part| <= size < 0x1_0000_0000
    modifies publication, digest
    ensures r.Ok? ==> Progress(c, vault, obj, s, size, start, publication, digest, parts + [part])
    ensures r.Err? ==> r.error.RequiresLock()
    ensures Fits(parts + [part])
    ensures r.Err? && !fault.StatementFails? ==>
              InsertChunks(start, s.version, SealChunks(c, vault, obj, s, parts + [part])).None?
  {
    PartFits(parts, part, size);
    SealChunksSnoc(c, vault, obj, s, parts, part);
    var context := ChunkContext(vault, obj, s.version, count, |part|);
    var chunk := EncryptedChunk(count, Sealed(c, s.dek, s.chunkNonces(count), context, part));
    InsertOneMore(start, s.version, SealChunks(c, vault, obj, s, parts), chunk);
    digest.Update(chunk);
    r := publication.AppendChunk(chunk, |part|, fault);
  }

  lemma PartFits(parts: seq<Format.Bytes>, part: Format.Bytes, size: nat)
    requires Fits(parts) && |parts| < MAX_CHUNKS_PER_VERSION && |part| <= size < 0x1_0000_0000
    requires |Concat(parts)| <= |parts| * size
    ensures Fits(parts + [part])
    ensures |Concat(parts + [part])| == |Concat(parts)| + |part| <= |parts + [part]| * size
    ensures |parts + [part]| * size <= I64_MAX
  {
    var all := parts + [part];
    assert forall i :: 0 <= i < |parts| ==> all[i] == parts[i];
    ConcatSnoc(parts, part);
    assert |all| * size == |parts| * size + size;
    MulBound(|all|, size, 0x100_0000, 0x1_0000_0000);
  }

  lemma SealChunksPrefix(
    c: Crypto, vault: VaultId, obj: ObjectId, s: Secrets, start: Db, a: seq<Format.Bytes>, b: seq<Format.Bytes>)
    requires Fits(a) && Fits(a + b)
    requires InsertChunks(start, s.version, SealChunks(c, vault, obj, s, a)).None?
    ensures InsertChunks(start, s.version, SealChunks(c, vault, obj, s, a + b)).None?
  {
    var all := SealChunks(c, vault, obj, s, a + b);
    assert all[..|a|] == SealChunks(c, vault, obj, s, a) by {
      assert forall i :: 0 <= i < |a| ==> (a + b)[i] == a[i];
    }
    FailsEarly(start, s.version, all, |a|);
  }

  /** A full or final read is the next piece of what was left. */
  lemma ReadIsNextChunk(all: seq<Format.Bytes>, done: seq<Format.Bytes>, part: Format.Bytes, after: Format.Bytes, size: nat)
    requires size > 0 && part != [] && |part| <= size && (|part| < size ==> after == [])
    requires all == done + Chunks(part + after, size)
    ensures all == (done + [part]) + Chunks(after, size)
  {
    var rest := part + after;
    TakeChunk(all, done, rest, size);
    var n := if |rest| <= size then |rest| else size;
    if |part| == size {
      assert rest[..size] == part && rest[size..] == after;
    } else {
      assert rest == part;
    }
    if n == |rest| {
      assert after == [] && rest[..n] == part && rest[n..] == [];
    }
  }

  datatype Transfer = Done | More | Stopped(error: VaultError)

  /** Reads one piece and appends it. */
  method TransferOne(
    c: Crypto, vault: VaultId, obj: ObjectId, s: Secrets, size: nat, ghost start: Db,
    publication: StreamingPublication, digest: ChunkDigestBuilder, reader: Reader, count: nat, fault: Fault,
    ghost parts: seq<Format.Bytes>)
    returns (t: Transfer, ghost part: Format.Bytes)
    requires reader.Valid() && 0 < size < 0x1_0000_0000
    requires publication !in reader.Footprint() && digest !in reader.Footprint()
    requires count == |parts| && Progress(c, vault, obj, s, size, start, publication, digest, parts)
    modifies publication, digest, reader.Footprint()
    ensures reader.Valid()
    ensures t.Done? ==> old(reader.Rest()) == Some([])
    ensures t.Done? ==> Progress(c, vault, obj, s, size, start, publication, digest, parts)
    ensures t.More? ==> Progress(c, vault, obj, s, size, start, publication, digest, parts + [part])
    ensures t.More? ==> reader.Size() < old(reader.Size()) && (reader.Rest().Some? <==> old(reader.Rest()).Some?)
    ensures old(reader.Healthy()) && t.More? ==> reader.Healthy()
    ensures old(reader.Rest()).Some? && (t.More? || (t.Stopped? && old(reader.Healthy()))) ==>
              && reader.Rest().Some? && old(reader.Rest()).value == part + reader.Rest().value
              && part != [] && |part| <= size && (|part| < size ==> reader.Rest().value == [])
    ensures t.Stopped? && old(reader.Healthy()) && !fault.StatementFails? ==>
              || count >= MAX_CHUNKS_PER_VERSION
              || (Fits(parts + [part]) && InsertChunks(start, s.version, SealChunks(c, vault, obj, s, parts + [part])).None?)
  {
    part := [];
    var next := ReadNextChunk(reader, size);
    if next.Err? {
      return Stopped(next.error), part;
    }
    part := next.value;
    if next.value == [] {
      return Done, part;
    }
    if count >= MAX_CHUNKS_PER_VERSION {
      return Stopped(InvalidInput), part;
    }
    var appended := AppendPart(c, vault, obj, s, size, start, publication, digest, next.value, count, fault, parts);
    t := if appended.Err? then Stopped(appended.error) else More;
  }

  /** Stopping at a refused piece means that the whole input is not acceptable. */
  lemma StoppedMeansRefused(
    c: Crypto, vault: VaultId, obj: ObjectId, s: Secrets, start: Db, size: nat,
    all: seq<Format.Bytes>, parts: seq<Format.Bytes>, part: Format.Bytes, after: Format.Bytes)
    requires size > 0 && Fits(all) && all == (parts + [part]) + Chunks(after, size)
    requires || |parts| >= MAX_CHUNKS_PER_VERSION
             || (Fits(parts + [part]) && InsertChunks(start, s.version, SealChunks(c, vault, obj, s, parts + [part])).None?)
    ensures InsertChunks(start, s.version, SealChunks(c, vault, obj, s, all)).None?
  {
    assert |all| > |parts|;
    SealChunksPrefix(c, vault, obj, s, start, parts + [part], Chunks(after, size));
  }

  /** The transfer loop: on success the pieces are exactly those of the reader's whole input. */
  method TransferAll(
    c: Crypto, vault: VaultId, obj: ObjectId, s: Secrets, size: nat, ghost start: Db,
    publication: StreamingPublication, digest: ChunkDigestBuilder, reader: Reader, fault: Fault)
    returns (r: Result<nat>, ghost parts: seq<Format.Bytes>)
    requires reader.Valid() && 0 < size < 0x1_0000_0000
    requires publication !in reader.Footprint() && digest !in reader.Footprint()
    requires Progress(c, vault, obj, s, size, start, publication, digest, [])
    modifies publication, digest, reader.Footprint()
    ensures r.Ok? ==> Progress(c, vault, obj, s, size, start, publication, digest, parts) && r.value == |parts|
    ensures r.Ok? ==> old(reader.Rest()).Some? && parts == Chunks(old(reader.Rest()).value, size)
    ensures r.Err? && old(reader.Healthy()) && !fault.StatementFails? && old(reader.Rest()).Some? ==>
              var all := Chunks(old(reader.Rest()).value, size);
              Fits(all) ==> InsertChunks(start, s.version, SealChunks(c, vault, obj, s, all)).None?
  {
    ghost var input := reader.Rest();
    var count := 0;
    parts := [];
    while true
      invariant reader.Valid()
      invariant old(reader.Healthy()) ==> reader.Healthy()
      invariant count == |parts| && Progress(c, vault, obj, s, size, start, publication, digest, parts)
      invariant reader.Rest().Some? <==> input.Some?
      invariant input.Some? ==> Chunks(input.value, size) == parts + Chunks(reader.Rest().value, size)
      decreases reader.Size()
    {
      var t;
      ghost var part;
      t, part := TransferOne(c, vault, obj, s, size, start, publication, digest, reader, count, fault, parts);
      match t {
        case Done =>
          return Ok(count), parts;
        case Stopped(error) =>
          if input.Some? && old(reader.Healthy()) && !fault.StatementFails? && Fits(Chunks(input.value, size)) {
            ReadIsNextChunk(Chunks(input.value, size), parts, part, reader.Rest().value, size);
            StoppedMeansRefused(c, vault, obj, s, start, size, Chunks(input.value, size), parts, part, reader.Rest().value);
          }
          return Err(error), parts;
        case More =>
          if input.Some? {
            ReadIsNextChunk(Chunks(input.value, size), parts, part, reader.Rest().value, size);
          }
          parts := parts + [part];
          count := count + 1;
      }
    }
  }

  /** Seals the Manifest of what was transferred, and commits. */
  method CompleteStream(
    c: Crypto, vault: VaultId, root: Bytes32, storage: Storage, obj: ObjectId, size: nat, s: Secrets, fault: Fault,
    publication: StreamingPublication, digest: ChunkDigestBuilder, count: nat, ghost start: Db, ghost p: Format.Bytes)
    returns (r: Result<()>)
    requires Publishable(p, size) && count == |Chunks(p, size)|
    requires Progress(c, vault, obj, s, size, start, publication, digest, Chunks(p, size))
    requires var whole := Published(c, vault, root, obj, p, size, s);
             InsertVersion(storage.db, Placeholder(obj, s.version, whole.row.wrappedDek, size)) == Some(start)
    modifies storage
    ensures var whole := Published(c, vault, root, obj, p, size, s);
            Attempt(fault, PublishTx(old(storage.db), whole.row, whole.chunks), r.Ok?, old(storage.db), storage.db)
  {
    PublishableFits(p, size);
    ConcatChunks(p, size);
    ghost var whole := Published(c, vault, root, obj, p, size, s);
    StreamedEqualsBatch(storage.db, whole.row, whole.chunks);
    var manifest := Manifest(FORMAT_VERSION, obj, s.version, publication.plaintextLen, size, count,
                             c.sha256(digest.transcript));
    var bytes := Codec.EncodeManifest(manifest);
    var sealedManifest :=
      Sealed(c, c.manifestKey(s.dek, s.version), s.manifestNonce, ManifestContext(vault, obj, s.version), bytes);
    assert sealedManifest == whole.row.manifest;
    r := publication.Finish(storage, sealedManifest, count, fault);
  }

  /** What a streaming call leaves behind, in terms of the writer that gets the whole input at once. */
  ghost predicate StreamOutcome(
    c: Crypto, vault: VaultId, rootKey: Option<Bytes32>, obj: ObjectId, input: Option<Format.Bytes>, healthy: bool,
    size: nat, s: Secrets, fault: Fault, db: Db, db': Db, r: Result<VersionId>)
  {
    if rootKey.Some? && input.Some? && Publishable(input.value, size) then
      var whole := Published(c, vault, rootKey.value, obj, input.value, size, s);
      var tx := PublishTx(db, whole.row, whole.chunks);
      && (r.Ok? ==> r.value == s.version && tx == Some(db'))
      && (r.Err? ==> db' == db || (fault == CommitFails(true) && tx == Some(db')))
      && (healthy && fault.NoFault? ==> (r.Ok? <==> tx.Some?))
    else
      r.Err? && db' == db
  }

  /**
   Streaming publication. Whenever it succeeds, the database is the one that publishing the whole
   input at once produces; a failed call leaves the database alone, up to a commit that became
   durable before failing; and on a reader that does not fail it accepts exactly what the other
   writer accepts.
   */
  method PutFromReader(
    c: Crypto, vault: VaultId, rootKey: Option<Bytes32>, storage: Storage, obj: ObjectId, reader: Reader,
    chunkSize: nat, s: Secrets, fault: Fault)
    returns (r: Result<VersionId>)
    requires reader.Valid() && storage !in reader.Footprint()
    modifies storage, reader.Footprint()
    ensures StreamOutcome(c, vault, rootKey, obj, old(reader.Rest()), old(reader.Healthy()), chunkSize, s, fault,
                          old(storage.db), storage.db, r)
    ensures !(1 <= chunkSize < 0x1_0000_0000) ==> r == Err(InvalidInput)
    ensures 1 <= chunkSize < 0x1_0000_0000 && rootKey.None? ==> r == Err(Locked)
  {
    if chunkSize == 0 || chunkSize >= 0x1_0000_0000 {
      return Err(InvalidInput);
    }
    if rootKey.None? {
      return Err(Locked);
    }
    r := StreamVersion(c, vault, rootKey.value, storage, obj, reader, chunkSize, s, fault);
  }

  /** The transaction behind a streaming publication. */
  method StreamVersion(
    c: Crypto, vault: VaultId, root: Bytes32, storage: Storage, obj: ObjectId, reader: Reader,
    size: nat, s: Secrets, fault: Fault)
    returns (r: Result<VersionId>)
    requires reader.Valid() && storage !in reader.Footprint() && 0 < size < 0x1_0000_0000
    modifies storage, reader.Footprint()
    ensures StreamOutcome(c, vault, Some(root), obj, old(reader.Rest()), old(reader.Healthy()), size, s, fault,
                          old(storage.db), storage.db, r)
  {
    var wrappedDek := Sealed(c, c.kek(root, vault), s.dekNonce, WrappedDekContext(vault, obj, s.version), s.dek);
    ghost var db, input := storage.db, reader.Rest();
    if input.Some? {
      StreamedRefusals(c, vault, root, obj, input.value, size, s, db);
    }
    var begun := storage.BeginStreamingPublication(obj, s.version, wrappedDek, size, fault);
    if begun.Err? {
      return Err(begun.error);
    }
    var publication := begun.value;
    ghost var start := publication.tx;
    var digest := new ChunkDigestBuilder();
    var count;
    ghost var parts;
    count, parts := TransferAll(c, vault, obj, s, size, start, publication, digest, reader, fault);
    if count.Err? {
      return Err(count.error);
    }
    var finished := CompleteStream(c, vault, root, storage, obj, size, s, fault, publication, digest,
                             count.value, start, input.value);
    r := if finished.Err? then Err(finished.error) else Ok(s.version);
  }

  /** A refused placeholder or a refused chunk would be refused in the one-shot transaction too. */
  lemma StreamedRefusals(
    c: Crypto, vault: VaultId, root: Bytes32, obj: ObjectId, p: Format.Bytes, size: nat, s: Secrets, db: Db)
    requires 0 < size < 0x1_0000_0000
    ensures Publishable(p, size) ==>
              var whole := Published(c, vault, root, obj, p, size, s);
              var parts := Chunks(p, size);
              var wrappedDek := Sealed(c, c.kek(root, vault), s.dekNonce, WrappedDekContext(vault, obj, s.version), s.dek);
              var start := InsertVersion(db, Placeholder(obj, s.version, wrappedDek, size));
              && wrappedDek == whole.row.wrappedDek && Fits(parts)
              && (start.None? ==> PublishTx(db, whole.row, whole.chunks).None?)
              && (start.Some? && InsertChunks(start.value, s.version, SealChunks(c, vault, obj, s, parts)).None? ==>
                    PublishTx(db, whole.row, whole.chunks).None?)
  {
    if Publishable(p, size) {
      PublishableFits(p, size);
      var whole := Published(c, vault, root, obj, p, size, s);
      StreamedEqualsBatch(db, whole.row, whole.chunks);
    }
  }
}
