/**
 What a read promises: an intact version comes back, and over any database whatsoever a successful
 read returns the bytes that were put under the identifiers it was asked for.
 */
module ReadIntegrity {
  import opened Format
  import opened Transcripts
  import opened Crypto
  import opened Storage
  import opened Chunking
  import opened Publishing
  import opened Reading
  import Codec = ManifestCodec
  import CborMeaning

  /** One earlier publication of a vault. */
  datatype Put = Put(obj: ObjectId, plaintext: Format.Bytes, size: nat, secrets: Secrets)

  predicate Accepted(puts: seq<Put>) {
    forall i :: 0 <= i < |puts| ==> Publishable(puts[i].plaintext, puts[i].size)
  }

  predicate DistinctVersions(puts: seq<Put>) {
    forall i, j :: 0 <= i < |puts| && 0 <= j < |puts| && puts[i].secrets.version == puts[j].secrets.version ==> i == j
  }

  function StoredChunks(c: Crypto, vault: VaultId, put: Put): (chunks: seq<EncryptedChunk>)
    requires Publishable(put.plaintext, put.size)
    ensures |chunks| == |Chunks(put.plaintext, put.size)|
  {
    PublishableFits(put.plaintext, put.size);
    SealChunks(c, vault, put.obj, put.secrets, Chunks(put.plaintext, put.size))
  }

  function StoredManifest(c: Crypto, vault: VaultId, put: Put): (m: Manifest)
    requires Publishable(put.plaintext, put.size)
  {
    PublishableFits(put.plaintext, put.size);
    ManifestOf(c, put.obj, put.secrets, |put.plaintext|, put.size, StoredChunks(c, vault, put))
  }

  function StoredRow(c: Crypto, vault: VaultId, root: Bytes32, put: Put): (row: StoredVersion)
    requires Publishable(put.plaintext, put.size)
  {
    RowOf(c, vault, root, put.obj, put.secrets, StoredManifest(c, vault, put))
  }

  // ----- Hypotheses on the primitives -----

  function DekContext(vault: VaultId, put: Put): (context: Context) {
    WrappedDekContext(vault, put.obj, put.secrets.version)
  }

  function ManifestContextOf(vault: VaultId, put: Put): (context: Context) {
    ManifestContext(vault, put.obj, put.secrets.version)
  }

  function ChunkContextOf(vault: VaultId, put: Put, i: nat): (context: Context)
    requires Publishable(put.plaintext, put.size) && i < |Chunks(put.plaintext, put.size)|
  {
    PublishableFits(put.plaintext, put.size);
    ChunkContext(vault, put.obj, put.secrets.version, i, |Chunks(put.plaintext, put.size)[i]|)
  }

  function DekSeal(c: Crypto, vault: VaultId, root: Bytes32, put: Put): (seal: Seal)
    requires Publishable(put.plaintext, put.size)
  {
    Seal(c.kek(root, vault), Aad(DekContext(vault, put)), StoredRow(c, vault, root, put).wrappedDek, put.secrets.dek)
  }

  function ManifestSeal(c: Crypto, vault: VaultId, root: Bytes32, put: Put): (seal: Seal)
    requires Publishable(put.plaintext, put.size)
  {
    Seal(c.manifestKey(put.secrets.dek, put.secrets.version), Aad(ManifestContextOf(vault, put)),
         StoredRow(c, vault, root, put).manifest, Codec.Encoded(StoredManifest(c, vault, put)))
  }

  /** The sealing operations behind one publication. */
  ghost predicate SealedBy(c: Crypto, vault: VaultId, root: Bytes32, put: Put, seal: Seal)
    requires Publishable(put.plaintext, put.size)
  {
    || seal == DekSeal(c, vault, root, put)
    || seal == ManifestSeal(c, vault, root, put)
    || exists i :: 0 <= i < |Chunks(put.plaintext, put.size)| && ChunkSealed(c, vault, put, i, seal)
  }

  ghost predicate ChunkSealed(c: Crypto, vault: VaultId, put: Put, i: nat, seal: Seal)
    requires Publishable(put.plaintext, put.size) && i < |Chunks(put.plaintext, put.size)|
  {
    seal == Seal(put.secrets.dek, Aad(ChunkContextOf(vault, put, i)), StoredChunks(c, vault, put)[i].record,
                 Chunks(put.plaintext, put.size)[i])
  }

  /** What the put sealed opens again. */
  ghost predicate Opens(c: Crypto, vault: VaultId, root: Bytes32, put: Put)
    requires Publishable(put.plaintext, put.size)
  {
    forall seal :: SealedBy(c, vault, root, put, seal) ==> c.open(seal.key, seal.aad, seal.record) == Some(seal.plaintext)
  }

  /** Associated data of other vaults, and of root-key envelopes. */
  ghost predicate Foreign(vault: VaultId, aad: Format.Bytes) {
    exists context :: Aad(context) == aad && (context.RootContext? || context.vault != vault)
  }

  /** The keys that reads of these puts use. */
  ghost predicate VaultKey(v: View, puts: seq<Put>, key: Bytes32) {
    || key == v.c.kek(v.root, v.vault)
    || exists i :: 0 <= i < |puts| && PutKey(v, puts[i], key)
  }

  predicate PutKey(v: View, put: Put, key: Bytes32) {
    key == put.secrets.dek || key == v.c.manifestKey(put.secrets.dek, put.secrets.version)
  }

  /** The record occurs somewhere in the tables. */
  ghost predicate InTables(db: Db, record: SealedRecord) {
    || (exists x :: x in db.versions && (db.versions[x].wrappedDek == record || db.versions[x].manifest == record))
    || (exists k :: k in db.chunks && db.chunks[k] == record)
  }

  ghost predicate SealedBySome(v: View, puts: seq<Put>, seal: Seal)
    requires Accepted(puts)
  {
    exists i :: 0 <= i < |puts| && SealedBy(v.c, v.vault, v.root, puts[i], seal)
  }

  /**
   The authentic records of the database all come from the puts: whatever record of the tables opens
   with a key of this vault, under associated data of its own, was sealed like that by one of them.
   Nothing is said about records that do not open, nor about where in the tables a record stands.
   */
  ghost predicate Authentic(v: View, puts: seq<Put>)
    requires Accepted(puts)
  {
    forall key, aad, record ::
      VaultKey(v, puts, key) && InTables(v.db, record) && v.c.open(key, aad, record).Some? && !Foreign(v.vault, aad) ==>
        SealedBySome(v, puts, Seal(key, aad, record, v.c.open(key, aad, record).value))
  }

  lemma CorrectOpens(c: Crypto, vault: VaultId, root: Bytes32, put: Put)
    requires Correct(c) && Publishable(put.plaintext, put.size)
    ensures Opens(c, vault, root, put)
  {
    forall seal | SealedBy(c, vault, root, put, seal)
      ensures c.open(seal.key, seal.aad, seal.record) == Some(seal.plaintext)
    {
      var s := put.secrets;
      if seal == DekSeal(c, vault, root, put) {
        assert seal.record == Sealed(c, seal.key, s.dekNonce, DekContext(vault, put), seal.plaintext);
      } else if seal == ManifestSeal(c, vault, root, put) {
        Codec.EncodedLength(StoredManifest(c, vault, put));
        assert seal.record == Sealed(c, seal.key, s.manifestNonce, ManifestContextOf(vault, put), seal.plaintext);
      } else {
        var i :| 0 <= i < |Chunks(put.plaintext, put.size)| && ChunkSealed(c, vault, put, i, seal);
        PublishableFits(put.plaintext, put.size);
        assert seal.record == Sealed(c, seal.key, s.chunkNonces(i), ChunkContextOf(vault, put, i), seal.plaintext);
      }
    }
  }

  /**
   What is stored, record by record: with a correct cipher the wrapped key opens under the vault's
   key-encryption key, the Manifest under the key derived from it, to a map of the version's facts, and
   each chunk under the data key, bound to its index and length.
   */
  lemma StoredFormat(c: Crypto, vault: VaultId, root: Bytes32, put: Put)
    requires Correct(c) && Publishable(put.plaintext, put.size)
    ensures var row, s := StoredRow(c, vault, root, put), put.secrets;
            && row.objectId == put.obj && row.versionId == s.version
            && row.plaintextLen == |put.plaintext| && row.chunkSize == put.size
            && row.chunkCount == |Chunks(put.plaintext, put.size)|
            && row.wrappedDek.nonce == s.dekNonce && row.manifest.nonce == s.manifestNonce
            && Opened(c, c.kek(root, vault), WrappedDekContext(vault, put.obj, s.version), row.wrappedDek) == Some(s.dek)
            && var m := Opened(c, c.manifestKey(s.dek, s.version), ManifestContext(vault, put.obj, s.version), row.manifest);
            m.Some? && CborMeaning.ReadMap(m.value) == Some(CborMeaning.Fields(
                         Manifest(1, put.obj, s.version, |put.plaintext|, put.size, |Chunks(put.plaintext, put.size)|,
                                  c.sha256(DigestTranscript(StoredChunks(c, vault, put))))))
    ensures forall i :: 0 <= i < |StoredChunks(c, vault, put)| ==>
              var chunk, part := StoredChunks(c, vault, put)[i], Chunks(put.plaintext, put.size)[i];
              && chunk.index == i && chunk.record.nonce == put.secrets.chunkNonces(i) && |part| < 0x1_0000_0000
              && Opened(c, put.secrets.dek, ChunkContext(vault, put.obj, put.secrets.version, i, |part|), chunk.record)
              == Some(part)
  {
    PublishableFits(put.plaintext, put.size);
    CborMeaning.EncodedMeans(StoredManifest(c, vault, put));
    Codec.EncodedLength(StoredManifest(c, vault, put));
  }

  /** The rows at hand do not collide with the digest of the put that they claim to belong to. */
  ghost predicate NoDigestCollision(v: View, puts: seq<Put>, version: VersionId, rows: seq<EncryptedChunk>)
    requires Accepted(puts)
  {
    forall i :: 0 <= i < |puts| && puts[i].secrets.version == version ==>
      var x, y := DigestTranscript(rows), DigestTranscript(StoredChunks(v.c, v.vault, puts[i]));
      v.c.sha256(x) == v.c.sha256(y) ==> x == y
  }

  // ----- Authenticity of what opens -----

  lemma NotForeign(vault: VaultId, context: Context)
    requires !context.RootContext? && context.vault == vault
    ensures !Foreign(vault, Aad(context))
  {
    if other :| Aad(other) == Aad(context) && (other.RootContext? || other.vault != vault) {
      AadInjective(other, context);
    }
  }

  /** Whatever record of the tables opens under a context of this vault was sealed under that context by a put. */
  lemma OpenedWasSealed(v: View, puts: seq<Put>, key: Bytes32, context: Context, record: SealedRecord) returns (i: nat)
    requires Accepted(puts) && Authentic(v, puts) && VaultKey(v, puts, key) && InTables(v.db, record)
    requires !context.RootContext? && context.vault == v.vault && Opened(v.c, key, context, record).Some?
    ensures i < |puts|
    ensures SealedBy(v.c, v.vault, v.root, puts[i], Seal(key, Aad(context), record, Opened(v.c, key, context, record).value))
    ensures context.obj == puts[i].obj && context.version == puts[i].secrets.version
  {
    NotForeign(v.vault, context);
    var seal := Seal(key, Aad(context), record, Opened(v.c, key, context, record).value);
    assert SealedBySome(v, puts, seal);
    i :| 0 <= i < |puts| && SealedBy(v.c, v.vault, v.root, puts[i], seal);
    SealIdentifies(v.c, v.vault, v.root, puts[i], context, seal);
  }

  /** A seal of a put names its kind, its identifiers and its plaintext. */
  lemma SealIdentifies(c: Crypto, vault: VaultId, root: Bytes32, put: Put, context: Context, seal: Seal)
    requires Publishable(put.plaintext, put.size)
    requires SealedBy(c, vault, root, put, seal) && seal.aad == Aad(context) && !context.RootContext?
    ensures context.obj == put.obj && context.version == put.secrets.version
    ensures context.WrappedDekContext? ==> seal.plaintext == put.secrets.dek
    ensures context.ManifestContext? ==> seal.plaintext == Codec.Encoded(StoredManifest(c, vault, put))
    ensures context.ChunkContext? ==>
              context.index < |Chunks(put.plaintext, put.size)|
              && seal.plaintext == Chunks(put.plaintext, put.size)[context.index]
  {
    if seal == DekSeal(c, vault, root, put) {
      AadInjective(context, DekContext(vault, put));
    } else if seal == ManifestSeal(c, vault, root, put) {
      AadInjective(context, ManifestContextOf(vault, put));
    } else {
      var i :| 0 <= i < |Chunks(put.plaintext, put.size)| && ChunkSealed(c, vault, put, i, seal);
      AadInjective(context, ChunkContextOf(vault, put, i));
    }
  }

  // ----- The header -----

  /** A header whose keys and Manifest are those of a put. */
  ghost predicate Genuine(v: View, h: Header, put: Put)
    requires Publishable(put.plaintext, put.size)
  {
    && h.row.objectId == put.obj && h.row.versionId == put.secrets.version
    && h.dek == put.secrets.dek
    && h.manifest == StoredManifest(v.c, v.vault, put)
  }

  /** Over any database: a header that opens is the header of a put with those identifiers. */
  lemma HeaderIsGenuine(v: View, obj: ObjectId, puts: seq<Put>) returns (i: nat)
    requires Accepted(puts) && DistinctVersions(puts) && Authentic(v, puts)
    requires OpenedHeader(v, obj).Ok?
    ensures i < |puts| && puts[i].obj == obj && Genuine(v, OpenedHeader(v, obj).value, puts[i])
  {
    var h := OpenedHeader(v, obj).value;
    i := DekIsGenuine(v, h.row, puts);
    ManifestIsGenuine(v, h.row, puts, i);
  }

  lemma DekIsGenuine(v: View, row: StoredVersion, puts: seq<Put>) returns (i: nat)
    requires Accepted(puts) && Authentic(v, puts)
    requires InTables(v.db, row.wrappedDek) && OpenedDek(v, row).Ok?
    ensures i < |puts| && row.objectId == puts[i].obj && row.versionId == puts[i].secrets.version
    ensures OpenedDek(v, row) == Ok(puts[i].secrets.dek)
  {
    var context := WrappedDekContext(v.vault, row.objectId, row.versionId);
    var kek := v.c.kek(v.root, v.vault);
    i := OpenedWasSealed(v, puts, kek, context, row.wrappedDek);
    SealIdentifies(v.c, v.vault, v.root, puts[i], context,
                   Seal(kek, Aad(context), row.wrappedDek, Opened(v.c, kek, context, row.wrappedDek).value));
  }

  lemma ManifestIsGenuine(v: View, row: StoredVersion, puts: seq<Put>, i: nat)
    requires Accepted(puts) && DistinctVersions(puts) && Authentic(v, puts) && InTables(v.db, row.manifest)
    requires i < |puts| && row.versionId == puts[i].secrets.version && OpenedManifest(v, row, puts[i].secrets.dek).Ok?
    ensures OpenedManifest(v, row, puts[i].secrets.dek) == Ok(StoredManifest(v.c, v.vault, puts[i]))
  {
    var context := ManifestContext(v.vault, row.objectId, row.versionId);
    var key := v.c.manifestKey(puts[i].secrets.dek, row.versionId);
    var bytes := Opened(v.c, key, context, row.manifest).value;
    assert PutKey(v, puts[i], key);
    var j := OpenedWasSealed(v, puts, key, context, row.manifest);
    SealIdentifies(v.c, v.vault, v.root, puts[j], context, Seal(key, Aad(context), row.manifest, bytes));
    Codec.DecodedEncoded(StoredManifest(v.c, v.vault, puts[i]));
  }

  // ----- The chunks -----

  /** Over any row of the tables: a chunk that opens at index `k` is the k-th piece of the put. */
  lemma ChunkIsGenuine(v: View, h: Header, puts: seq<Put>, i: nat, row: EncryptedChunk)
    requires Accepted(puts) && DistinctVersions(puts) && Authentic(v, puts) && InTables(v.db, row.record)
    requires i < |puts| && Genuine(v, h, puts[i]) && OpenChunk(v.c, v.vault, h, row).Ok?
    ensures row.index < |Chunks(puts[i].plaintext, puts[i].size)|
    ensures OpenChunk(v.c, v.vault, h, row).value == Chunks(puts[i].plaintext, puts[i].size)[row.index]
  {
    var len := ExpectedChunkLen(h.manifest, row.index).value;
    var context := ChunkContext(v.vault, h.row.objectId, h.row.versionId, row.index, len);
    var part := Opened(v.c, h.dek, context, row.record).value;
    assert PutKey(v, puts[i], h.dek);
    var j := OpenedWasSealed(v, puts, h.dek, context, row.record);
    SealIdentifies(v.c, v.vault, v.root, puts[j], context, Seal(h.dek, Aad(context), row.record, part));
  }

  lemma {:induction false} ChunksAreGenuine(v: View, h: Header, puts: seq<Put>, i: nat, rows: seq<EncryptedChunk>)
    requires Accepted(puts) && DistinctVersions(puts) && Authentic(v, puts)
    requires forall k :: 0 <= k < |rows| ==> InTables(v.db, rows[k].record)
    requires i < |puts| && Genuine(v, h, puts[i])
    requires InOrder(rows) && OpenChunks(v.c, v.vault, h, rows).Ok?
    ensures var parts := Chunks(puts[i].plaintext, puts[i].size);
            |rows| <= |parts| && OpenChunks(v.c, v.vault, h, rows).value == parts[..|rows|]
    decreases |rows|
  {
    if rows == [] {
    } else {
      var n := |rows| - 1;
      ChunksAreGenuine(v, h, puts, i, rows[..n]);
      ChunkIsGenuine(v, h, puts, i, rows[n]);
      OpenOneMore(v.c, v.vault, h, rows, Chunks(puts[i].plaintext, puts[i].size), n);
      assert rows[..n + 1] == rows;
    }
  }

  /** One more row opens to the next piece. */
  lemma OpenOneMore(
    c: Crypto, vault: VaultId, h: Header, rows: seq<EncryptedChunk>, parts: seq<Format.Bytes>, k: nat)
    requires k < |rows| && k < |parts|
    requires OpenChunks(c, vault, h, rows[..k]) == Ok(parts[..k]) && OpenChunk(c, vault, h, rows[k]) == Ok(parts[k])
    ensures OpenChunks(c, vault, h, rows[..k + 1]) == Ok(parts[..k + 1])
  {
    var taken := rows[..k + 1];
    assert taken[..|taken| - 1] == rows[..k];
    assert parts[..k + 1] == parts[..k] + [parts[k]];
  }

  /** A visit of the chunks only sees rows of the table. */
  lemma {:induction false} RowsBelowInTable(chunks: map<(VersionId, U32), SealedRecord>, version: VersionId, n: nat)
    requires n <= 0x1_0000_0000
    ensures forall row :: row in RowsBelow(chunks, version, n) ==>
              (version, row.index) in chunks && chunks[(version, row.index)] == row.record
    decreases n
  {
    if n == 0 {
    } else {
      RowsBelowInTable(chunks, version, n - 1);
    }
  }

  lemma RowsInTables(db: Db, version: VersionId)
    ensures forall k :: 0 <= k < |Rows(db, version)| ==> InTables(db, Rows(db, version)[k].record)
  {
    RowsBelowInTable(db.chunks, version, 0x1_0000_0000);
    forall k | 0 <= k < |Rows(db, version)|
      ensures InTables(db, Rows(db, version)[k].record)
    {
      var row := Rows(db, version)[k];
      assert row in RowsBelow(db.chunks, version, 0x1_0000_0000);
      assert (version, row.index) in db.chunks;
    }
  }

  /** The first `k` rows of the active version open, if they do, to the first `k` pieces of the put. */
  lemma DeliveredIsGenuine(v: View, h: Header, puts: seq<Put>, i: nat, k: nat)
    requires Accepted(puts) && DistinctVersions(puts) && Authentic(v, puts)
    requires i < |puts| && Genuine(v, h, puts[i])
    requires k <= |Rows(v.db, h.row.versionId)| && InOrder(Rows(v.db, h.row.versionId))
    requires OpenChunks(v.c, v.vault, h, Rows(v.db, h.row.versionId)[..k]).Ok?
    ensures var parts := Chunks(puts[i].plaintext, puts[i].size);
            k <= |parts| && OpenChunks(v.c, v.vault, h, Rows(v.db, h.row.versionId)[..k]).value == parts[..k]
  {
    RowsInTables(v.db, h.row.versionId);
    ChunksAreGenuine(v, h, puts, i, Rows(v.db, h.row.versionId)[..k]);
  }

  lemma WholePrefix(rows: seq<EncryptedChunk>, parts: seq<Format.Bytes>)
    ensures rows[..|rows|] == rows && parts[..|parts|] == parts
  {
  }

  lemma {:induction false} ConcatPrefix(parts: seq<Format.Bytes>, k: nat)
    requires k <= |parts|
    ensures Concat(parts[..k]) <= Concat(parts)
  {
    if k == 0 {
    } else {
      var taken := parts[..k];
      assert taken[1..] == parts[1..][..k - 1];
      ConcatPrefix(parts[1..], k - 1);
      PrefixAfter(parts[0], Concat(taken[1..]), Concat(parts[1..]));
    }
  }

  lemma PrefixAfter(a: Format.Bytes, b: Format.Bytes, c: Format.Bytes)
    requires b <= c
    ensures a + b <= a + c
  {
  }

  // ----- The theorems -----

  /**
   Fail-closed read. The database may be any mixture of rows, as long as its authentic records come
   from the puts. If a read succeeds, its output is exactly the plaintext that was put as the object
   and version it read, and the columns of the row are those that were put.
   */
  lemma FailClosedRead(v: View, obj: ObjectId, puts: seq<Put>) returns (i: nat)
    requires Accepted(puts) && DistinctVersions(puts) && Authentic(v, puts)
    requires Get(v, obj).Ok?
    ensures i < |puts| && puts[i].obj == obj && ActiveVersion(v.db, obj).Ok?
    ensures ActiveVersion(v.db, obj).value.versionId == puts[i].secrets.version
    ensures Get(v, obj) == Ok(puts[i].plaintext)
    ensures var row := ActiveVersion(v.db, obj).value;
            && row.plaintextLen == |puts[i].plaintext| && row.chunkSize == puts[i].size
            && row.chunkCount == |Chunks(puts[i].plaintext, puts[i].size)|
  {
    i := HeaderIsGenuine(v, obj, puts);
    ReadHasChecked(v, obj);
    var h := OpenedHeader(v, obj).value;
    WholePrefix(Rows(v.db, h.row.versionId), Chunks(puts[i].plaintext, puts[i].size));
    var n := |Rows(v.db, h.row.versionId)|;
    DeliveredIsGenuine(v, h, puts, i, n);
    ConcatChunks(puts[i].plaintext, puts[i].size);
  }

  // ----- How a read fails -----

  lemma DekFails(v: View, row: StoredVersion, puts: seq<Put>)
    requires Accepted(puts) && Authentic(v, puts) && InTables(v.db, row.wrappedDek)
    ensures OpenedDek(v, row).Err? ==> OpenedDek(v, row).error == Authentication
  {
    var context := WrappedDekContext(v.vault, row.objectId, row.versionId);
    var kek := v.c.kek(v.root, v.vault);
    var bytes := Opened(v.c, kek, context, row.wrappedDek);
    if bytes.Some? {
      var i := OpenedWasSealed(v, puts, kek, context, row.wrappedDek);
      SealIdentifies(v.c, v.vault, v.root, puts[i], context, Seal(kek, Aad(context), row.wrappedDek, bytes.value));
    }
  }

  lemma ManifestFails(v: View, row: StoredVersion, puts: seq<Put>, i: nat)
    requires Accepted(puts) && DistinctVersions(puts) && Authentic(v, puts) && InTables(v.db, row.manifest)
    requires i < |puts| && row.versionId == puts[i].secrets.version
    ensures var m := OpenedManifest(v, row, puts[i].secrets.dek); m.Err? ==> m.error == Authentication
  {
    var context := ManifestContext(v.vault, row.objectId, row.versionId);
    var key := v.c.manifestKey(puts[i].secrets.dek, row.versionId);
    var bytes := Opened(v.c, key, context, row.manifest);
    if bytes.Some? {
      assert PutKey(v, puts[i], key);
      var j := OpenedWasSealed(v, puts, key, context, row.manifest);
      SealIdentifies(v.c, v.vault, v.root, puts[j], context, Seal(key, Aad(context), row.manifest, bytes.value));
      Codec.DecodedEncoded(StoredManifest(v.c, v.vault, puts[j]));
    }
  }

  lemma HeaderFails(v: View, obj: ObjectId, puts: seq<Put>)
    requires Accepted(puts) && DistinctVersions(puts) && Authentic(v, puts)
    requires OpenedHeader(v, obj).Err?
    ensures OpenedHeader(v, obj).error in {NotFound, Authentication, Invariant}
  {
    if ActiveVersion(v.db, obj).Ok? && ActiveVersion(v.db, obj).value.objectId == obj {
      var row := ActiveVersion(v.db, obj).value;
      assert InTables(v.db, row.wrappedDek) && InTables(v.db, row.manifest);
      DekFails(v, row, puts);
      if OpenedDek(v, row).Ok? {
        var i := DekIsGenuine(v, row, puts);
        ManifestFails(v, row, puts, i);
        if OpenedManifest(v, row, puts[i].secrets.dek).Ok? {
          ManifestIsGenuine(v, row, puts, i);
        }
      }
    }
  }

  lemma ChunkFails(v: View, h: Header, puts: seq<Put>, i: nat, row: EncryptedChunk)
    requires Accepted(puts) && DistinctVersions(puts) && Authentic(v, puts) && InTables(v.db, row.record)
    requires i < |puts| && Genuine(v, h, puts[i]) && row.index < |Chunks(puts[i].plaintext, puts[i].size)|
    ensures OpenChunk(v.c, v.vault, h, row).Err? ==> OpenChunk(v.c, v.vault, h, row).error == Authentication
  {
    ExpectedLengthsAreReal(h.manifest, puts[i].plaintext, puts[i].size, row.index);
    var len := ExpectedChunkLen(h.manifest, row.index).value;
    var context := ChunkContext(v.vault, h.row.objectId, h.row.versionId, row.index, len);
    var part := Opened(v.c, h.dek, context, row.record);
    if part.Some? {
      assert PutKey(v, puts[i], h.dek);
      var j := OpenedWasSealed(v, puts, h.dek, context, row.record);
      SealIdentifies(v.c, v.vault, v.root, puts[j], context, Seal(h.dek, Aad(context), row.record, part.value));
    }
  }

  lemma {:induction false} ChunksFail(v: View, h: Header, puts: seq<Put>, i: nat, rows: seq<EncryptedChunk>)
    requires Accepted(puts) && DistinctVersions(puts) && Authentic(v, puts)
    requires forall k :: 0 <= k < |rows| ==> InTables(v.db, rows[k].record)
    requires i < |puts| && Genuine(v, h, puts[i])
    requires InOrder(rows) && |rows| <= |Chunks(puts[i].plaintext, puts[i].size)|
    ensures var r := OpenChunks(v.c, v.vault, h, rows); r.Err? ==> r.error == Authentication
    decreases |rows|
  {
    if rows == [] {
    } else {
      var n := |rows| - 1;
      ChunksFail(v, h, puts, i, rows[..n]);
      ChunkFails(v, h, puts, i, rows[n]);
    }
  }

  /**
   Without forged records a read never meets a malformed one: it fails because the object is absent,
   because a record does not authenticate where it stands, or because rows do not fit together.
   */
  lemma AuthenticReadErrors(v: View, obj: ObjectId, puts: seq<Put>)
    requires Accepted(puts) && DistinctVersions(puts) && Authentic(v, puts)
    requires Get(v, obj).Err?
    ensures Get(v, obj).error in {NotFound, Authentication, Invariant}
  {
    if OpenedHeader(v, obj).Err? {
      HeaderFails(v, obj, puts);
    } else {
      var i := HeaderIsGenuine(v, obj, puts);
      var h := OpenedHeader(v, obj).value;
      var rows := Rows(v.db, h.row.versionId);
      if Layout(v.c, h.manifest, rows).Ok? {
        RowsInTables(v.db, h.row.versionId);
        ChunksFail(v, h, puts, i, rows);
      }
    }
  }

  /** Whatever a read has delivered when it stops early is a prefix of the plaintext that was put. */
  lemma PartialReadIsPrefix(v: View, obj: ObjectId, puts: seq<Put>, k: nat, out: Format.Bytes) returns (i: nat)
    requires Accepted(puts) && DistinctVersions(puts) && Authentic(v, puts)
    requires OpenedHeader(v, obj).Ok?
    requires var h := OpenedHeader(v, obj).value; var rows := Rows(v.db, h.row.versionId);
             Layout(v.c, h.manifest, rows).Ok? && Delivered(v.c, v.vault, h, rows, k, out)
    ensures i < |puts| && puts[i].obj == obj && out <= puts[i].plaintext
    ensures ActiveVersion(v.db, obj).Ok? && ActiveVersion(v.db, obj).value.versionId == puts[i].secrets.version
  {
    i := HeaderIsGenuine(v, obj, puts);
    var h := OpenedHeader(v, obj).value;
    DeliveredIsGenuine(v, h, puts, i, k);
    ConcatPrefix(Chunks(puts[i].plaintext, puts[i].size), k);
    ConcatChunks(puts[i].plaintext, puts[i].size);
  }

  /** A stored chunk opens to its piece. */
  lemma ChunkOpens(v: View, h: Header, put: Put, k: nat)
    requires Publishable(put.plaintext, put.size) && Opens(v.c, v.vault, v.root, put) && Genuine(v, h, put)
    requires k < |Chunks(put.plaintext, put.size)|
    ensures OpenChunk(v.c, v.vault, h, StoredChunks(v.c, v.vault, put)[k]) == Ok(Chunks(put.plaintext, put.size)[k])
  {
    var part := Chunks(put.plaintext, put.size)[k];
    ExpectedLengthsAreReal(h.manifest, put.plaintext, put.size, k);
    var context := ChunkContextOf(v.vault, put, k);
    var seal := Seal(h.dek, Aad(context), StoredChunks(v.c, v.vault, put)[k].record, part);
    assert ChunkSealed(v.c, v.vault, put, k, seal);
    assert SealedBy(v.c, v.vault, v.root, put, seal);
  }

  lemma {:induction false} ChunksOpen(v: View, h: Header, put: Put, k: nat)
    requires Publishable(put.plaintext, put.size) && Opens(v.c, v.vault, v.root, put) && Genuine(v, h, put)
    requires k <= |Chunks(put.plaintext, put.size)|
    ensures OpenChunks(v.c, v.vault, h, StoredChunks(v.c, v.vault, put)[..k]) == Ok(Chunks(put.plaintext, put.size)[..k])
  {
    if k == 0 {
    } else {
      ChunksOpen(v, h, put, k - 1);
      ChunkOpens(v, h, put, k - 1);
      OpenOneMore(v.c, v.vault, h, StoredChunks(v.c, v.vault, put), Chunks(put.plaintext, put.size), k - 1);
    }
  }

  /** A genuine header over the chunks of its put reads back the plaintext. */
  lemma GenuineReads(v: View, obj: ObjectId, put: Put)
    requires Publishable(put.plaintext, put.size) && Opens(v.c, v.vault, v.root, put)
    requires OpenedHeader(v, obj).Ok? && Genuine(v, OpenedHeader(v, obj).value, put)
    requires Rows(v.db, put.secrets.version) == StoredChunks(v.c, v.vault, put)
    ensures Get(v, obj) == Ok(put.plaintext)
  {
    var rows := StoredChunks(v.c, v.vault, put);
    ChunksOpen(v, OpenedHeader(v, obj).value, put, |rows|);
    assert rows[..|rows|] == rows;
    assert Chunks(put.plaintext, put.size)[..|rows|] == Chunks(put.plaintext, put.size);
    ConcatChunks(put.plaintext, put.size);
  }

  /**
   Verify before deliver. Once the header and the first pass have succeeded the second pass cannot
   fail: the read as a whole returns the plaintext that was put.
   */
  lemma FirstPassDecides(v: View, obj: ObjectId, puts: seq<Put>) returns (i: nat)
    requires Accepted(puts) && DistinctVersions(puts) && Authentic(v, puts)
    requires forall i :: 0 <= i < |puts| ==> Opens(v.c, v.vault, v.root, puts[i])
    requires OpenedHeader(v, obj).Ok?
    requires var h := OpenedHeader(v, obj).value; var rows := Rows(v.db, h.row.versionId);
             Layout(v.c, h.manifest, rows).Ok? && NoDigestCollision(v, puts, h.row.versionId, rows)
    ensures i < |puts| && puts[i].obj == obj && Get(v, obj) == Ok(puts[i].plaintext)
  {
    i := HeaderIsGenuine(v, obj, puts);
    DigestTranscriptInjective(Rows(v.db, puts[i].secrets.version), StoredChunks(v.c, v.vault, puts[i]));
    GenuineReads(v, obj, puts[i]);
  }

  /** The version of a put is stored unaltered and is active. */
  ghost predicate Intact(v: View, put: Put)
    requires Publishable(put.plaintext, put.size)
  {
    && put.obj in v.db.objects && v.db.objects[put.obj] == put.secrets.version
    && put.secrets.version in v.db.versions
    && v.db.versions[put.secrets.version] == StoredRow(v.c, v.vault, v.root, put)
    && Rows(v.db, put.secrets.version) == StoredChunks(v.c, v.vault, put)
  }

  lemma IntactHeader(v: View, put: Put)
    requires Publishable(put.plaintext, put.size) && Opens(v.c, v.vault, v.root, put) && Intact(v, put)
    requires CheckReceipt(v, StoredRow(v.c, v.vault, v.root, put)).Ok?
    ensures OpenedHeader(v, put.obj).Ok? && Genuine(v, OpenedHeader(v, put.obj).value, put)
  {
    var row := StoredRow(v.c, v.vault, v.root, put);
    var s := put.secrets;
    var m := StoredManifest(v.c, v.vault, put);
    Codec.DecodedEncoded(m);
    assert OpenedDek(v, row) == Ok(s.dek) by {
      assert SealedBy(v.c, v.vault, v.root, put, DekSeal(v.c, v.vault, v.root, put));
    }
    assert OpenedManifest(v, row, s.dek) == Ok(m) by {
      assert SealedBy(v.c, v.vault, v.root, put, ManifestSeal(v.c, v.vault, v.root, put));
    }
  }

  /** Round trip: an intact active version, with or without a receipt that acknowledges it, reads back. */
  lemma PutThenGet(v: View, put: Put)
    requires Publishable(put.plaintext, put.size) && Opens(v.c, v.vault, v.root, put) && Intact(v, put)
    requires CheckReceipt(v, StoredRow(v.c, v.vault, v.root, put)).Ok?
    ensures Get(v, put.obj) == Ok(put.plaintext)
  {
    IntactHeader(v, put);
    GenuineReads(v, put.obj, put);
  }
}
