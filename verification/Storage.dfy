/** The SQLite tables of a vault and the transactions that change them. */
module Storage {
  import opened Format
  import opened Transcripts

  datatype StoredVersion = StoredVersion(
    objectId: ObjectId,
    versionId: VersionId,
    wrappedDek: SealedRecord,
    manifest: SealedRecord,
    plaintextLen: U64,
    chunkSize: U32,
    chunkCount: U32)

  /** The tables, each keyed by its primary key. */
  datatype Db = Db(
    objects: map<ObjectId, VersionId>,
    versions: map<VersionId, StoredVersion>,
    chunks: map<(VersionId, U32), SealedRecord>,
    pending: map<VersionId, U64>,
    receipts: map<VersionId, Receipt>)

  const EMPTY_DB: Db := Db(map[], map[], map[], map[], map[])

  // ----- Statements: None when a schema constraint refuses the row -----

  function InsertVersion(db: Db, row: StoredVersion): (r: Option<Db>) {
    if row.versionId in db.versions || row.chunkSize == 0 || row.plaintextLen > I64_MAX then None
    else Some(db.(versions := db.versions[row.versionId := row]))
  }

  predicate NonceUsed(db: Db, version: VersionId, nonce: Nonce) {
    exists k <- db.chunks.Keys :: k.0 == version && db.chunks[k].nonce == nonce
  }

  function InsertChunk(db: Db, version: VersionId, chunk: EncryptedChunk): (r: Option<Db>) {
    if version !in db.versions || (version, chunk.index) in db.chunks || NonceUsed(db, version, chunk.record.nonce) then
      None
    else
      Some(db.(chunks := db.chunks[(version, chunk.index) := chunk.record]))
  }

  function InsertChunks(db: Db, version: VersionId, chunks: seq<EncryptedChunk>): (r: Option<Db>) {
    if chunks == [] then Some(db)
    else
      var before := InsertChunks(db, version, chunks[..|chunks| - 1]);
      if before.None? then None else InsertChunk(before.value, version, chunks[|chunks| - 1])
  }

  function InsertPending(db: Db, version: VersionId, expected: U64): (r: Option<Db>) {
    if version in db.pending || version !in db.versions || expected > I64_MAX then None
    else Some(db.(pending := db.pending[version := expected]))
  }

  predicate EpochUsed(db: Db, epoch: U64) {
    exists v <- db.receipts.Keys :: db.receipts[v].epoch == epoch
  }

  /** Receipts carry one fixed public key, so uniqueness of (key, epoch) is uniqueness of the epoch. */
  function InsertReceipt(db: Db, receipt: Receipt): (r: Option<Db>) {
    if receipt.version in db.receipts || receipt.version !in db.versions || receipt.epoch > I64_MAX
       || EpochUsed(db, receipt.epoch) then None
    else Some(db.(receipts := db.receipts[receipt.version := receipt]))
  }

  function SetActive(db: Db, obj: ObjectId, version: VersionId): (r: Db) {
    db.(objects := db.objects[obj := version])
  }

  // ----- Transactions -----

  function VersionTx(db: Db, row: StoredVersion, chunks: seq<EncryptedChunk>): (r: Option<Db>) {
    var d := InsertVersion(db, row);
    if d.None? then None else InsertChunks(d.value, row.versionId, chunks)
  }

  function PublishTx(db: Db, row: StoredVersion, chunks: seq<EncryptedChunk>): (r: Option<Db>) {
    var d := VersionTx(db, row, chunks);
    if |chunks| != row.chunkCount || d.None? then None
    else Some(SetActive(d.value, row.objectId, row.versionId))
  }

  function StageTx(db: Db, row: StoredVersion, chunks: seq<EncryptedChunk>, expected: U64): (r: Option<Db>) {
    var d := VersionTx(db, row, chunks);
    if |chunks| != row.chunkCount || d.None? then None
    else InsertPending(d.value, row.versionId, expected)
  }

  function FinalizeTx(db: Db, row: StoredVersion, receipt: Receipt): (r: Option<Db>) {
    if receipt.obj != row.objectId || receipt.version != row.versionId || row.versionId !in db.pending then None
    else
      var d := InsertReceipt(db, receipt);
      if d.None? then None
      else
        var e := SetActive(d.value, row.objectId, row.versionId);
        Some(e.(pending := e.pending - {row.versionId}))
  }

  /**
   One attempt at a transaction: it reports success only if it was applied, and a reported failure
   leaves the tables as they were unless the commit itself became durable before failing.
   */
  ghost predicate Attempt(fault: Fault, tx: Option<Db>, ok: bool, db: Db, db': Db) {
    && (ok ==> tx == Some(db'))
    && (!ok ==> db' == db || (fault == CommitFails(true) && tx == Some(db')))
    && (fault.NoFault? ==> (ok <==> tx.Some?))
  }

  class Storage {
    var db: Db

    constructor ()
      ensures db == EMPTY_DB
    {
      db := EMPTY_DB;
    }

    /** The statements that publication and staging share: the version row and its chunks. */
    method WriteVersion(row: StoredVersion, chunks: seq<EncryptedChunk>, fault: Fault) returns (tx: Option<Db>)
      ensures tx.Some? ==> tx == VersionTx(db, row, chunks)
      ensures tx.None? && !fault.StatementFails? ==> VersionTx(db, row, chunks).None?
    {
      tx := InsertVersion(db, row);
      if tx.None? || fault == StatementFails(0) {
        return None;
      }
      ghost var started := tx.value;
      var i := 0;
      while i < |chunks|
        invariant 0 <= i <= |chunks|
        invariant tx.Some? && tx == InsertChunks(started, row.versionId, chunks[..i])
      {
        assert chunks[..i + 1][..i] == chunks[..i];
        tx := InsertChunk(tx.value, row.versionId, chunks[i]);
        if tx.None? {
          FailsEarly(started, row.versionId, chunks, i + 1);
          return None;
        }
        if fault == StatementFails(1 + i) {
          return None;
        }
        i := i + 1;
      }
      assert chunks[..i] == chunks;
    }

    method Publish(row: StoredVersion, chunks: seq<EncryptedChunk>, fault: Fault) returns (r: Result<()>)
      modifies this
      ensures Attempt(fault, PublishTx(old(db), row, chunks), r.Ok?, old(db), db)
      ensures r.Err? ==> r.error == if |chunks| != row.chunkCount then Invariant else StorageError
    {
      if |chunks| != row.chunkCount {
        return Err(Invariant);
      }
      var tx := WriteVersion(row, chunks, fault);
      if tx.None? || fault == StatementFails(1 + |chunks|) || fault == CommitFails(false) {
        return Err(StorageError);
      }
      db := SetActive(tx.value, row.objectId, row.versionId);
      r := if fault == CommitFails(true) then Err(StorageError) else Ok(());
    }

    method StageWitnessPublication(row: StoredVersion, chunks: seq<EncryptedChunk>, expected: U64, fault: Fault)
      returns (r: Result<()>)
      modifies this
      ensures Attempt(fault, StageTx(old(db), row, chunks, expected), r.Ok?, old(db), db)
      ensures r.Err? ==> r.error == if |chunks| != row.chunkCount then Invariant else StorageError
    {
      if |chunks| != row.chunkCount {
        return Err(Invariant);
      }
      var tx := WriteVersion(row, chunks, fault);
      if tx.None? {
        return Err(StorageError);
      }
      tx := InsertPending(tx.value, row.versionId, expected);
      if tx.None? || fault == StatementFails(1 + |chunks|) || fault == CommitFails(false) {
        return Err(StorageError);
      }
      db := tx.value;
      r := if fault == CommitFails(true) then Err(StorageError) else Ok(());
    }

    method FinalizeWitnessPublication(row: StoredVersion, receipt: Receipt, fault: Fault) returns (r: Result<()>)
      modifies this
      ensures Attempt(fault, FinalizeTx(old(db), row, receipt), r.Ok?, old(db), db)
      ensures r.Err? ==> r.error == if receipt.obj != row.objectId || receipt.version != row.versionId
                                       || row.versionId !in old(db).pending then Invariant else StorageError
    {
      if receipt.obj != row.objectId || receipt.version != row.versionId {
        return Err(Invariant);
      }
      if row.versionId !in db.pending {
        return Err(Invariant);
      }
      var tx := InsertReceipt(db, receipt);
      if tx.None? || fault == StatementFails(0) || fault == StatementFails(1) || fault == StatementFails(2) {
        return Err(StorageError);
      }
      var d := SetActive(tx.value, row.objectId, row.versionId);
      d := d.(pending := d.pending - {row.versionId});
      if fault == CommitFails(false) {
        return Err(StorageError);
      }
      db := d;
      r := if fault == CommitFails(true) then Err(StorageError) else Ok(());
    }

    /** Opens a transaction holding the placeholder row of a version that is still being written. */
    method BeginStreamingPublication(
      obj: ObjectId, version: VersionId, wrappedDek: SealedRecord, chunkSize: U32, fault: Fault)
      returns (r: Result<StreamingPublication>)
      ensures r.Ok? ==> fresh(r.value) && r.value.Opened(db, obj, version, wrappedDek, chunkSize)
      ensures r.Err? ==> r.error.RequiresLock()
      ensures r.Err? && fault != StatementFails(0) ==> version in db.versions || chunkSize == 0
    {
      var tx := InsertVersion(db, Placeholder(obj, version, wrappedDek, chunkSize));
      if tx.None? || fault == StatementFails(0) {
        return Err(StorageError);
      }
      var p := new StreamingPublication(tx.value, obj, version);
      r := Ok(p);
    }
  }

  function Placeholder(obj: ObjectId, version: VersionId, wrappedDek: SealedRecord, chunkSize: U32): (row: StoredVersion) {
    StoredVersion(obj, version, wrappedDek, SealedRecord(ZERO12, []), 0, chunkSize, 0)
  }

  const ZERO12: Nonce := [0, 0, 0, 0, 0, 0, 0, 0, 0, 0, 0, 0]

  /** Once an insertion is refused, the whole list of insertions is. */
  lemma {:induction false} FailsEarly(db: Db, version: VersionId, chunks: seq<EncryptedChunk>, k: nat)
    requires k <= |chunks| && InsertChunks(db, version, chunks[..k]).None?
    ensures InsertChunks(db, version, chunks).None?
  {
    if k < |chunks| {
      var init := chunks[..|chunks| - 1];
      assert init[..k] == chunks[..k];
      FailsEarly(db, version, init, k);
    } else {
      assert chunks[..k] == chunks;
    }
  }

  lemma InsertOneMore(db: Db, version: VersionId, chunks: seq<EncryptedChunk>, chunk: EncryptedChunk)
    requires InsertChunks(db, version, chunks).Some?
    ensures InsertChunks(db, version, chunks + [chunk]) == InsertChunk(InsertChunks(db, version, chunks).value, version, chunk)
  {
    var all := chunks + [chunk];
    assert all[..|all| - 1] == chunks;
  }

  /** An uncommitted version receiving encrypted chunks incrementally. */
  class StreamingPublication {
    var tx: Db
    const objectId: ObjectId
    const versionId: VersionId
    var nextChunkIndex: U32
    var plaintextLen: U64

    ghost predicate Opened(db: Db, obj: ObjectId, version: VersionId, wrappedDek: SealedRecord, chunkSize: U32)
      reads this
    {
      && InsertVersion(db, Placeholder(obj, version, wrappedDek, chunkSize)) == Some(tx)
      && objectId == obj && versionId == version
      && nextChunkIndex == 0 && plaintextLen == 0
    }

    constructor (tx: Db, obj: ObjectId, version: VersionId)
      ensures this.tx == tx && objectId == obj && versionId == version && nextChunkIndex == 0 && plaintextLen == 0
    {
      this.tx := tx;
      objectId, versionId := obj, version;
      nextChunkIndex, plaintextLen := 0, 0;
    }

    /** Inserts the next chunk; every failure makes the caller drop the transaction. */
    method AppendChunk(chunk: EncryptedChunk, length: U32, fault: Fault) returns (r: Result<()>)
      modifies this
      ensures r.Ok? ==> InsertChunk(old(tx), versionId, chunk) == Some(tx)
      ensures r.Ok? ==> chunk.index == old(nextChunkIndex) && nextChunkIndex == old(nextChunkIndex) + 1
      ensures r.Ok? ==> plaintextLen == old(plaintextLen) + length
      ensures r.Err? ==> r.error.RequiresLock()
      ensures r.Err? && fault != StatementFails(1 + chunk.index) ==>
                || chunk.index != old(nextChunkIndex)
                || InsertChunk(old(tx), versionId, chunk).None?
                || old(nextChunkIndex) == 0xffff_ffff
                || old(plaintextLen) + length > 0xffff_ffff_ffff_ffff
    {
      if chunk.index != nextChunkIndex {
        return Err(Invariant);
      }
      var inserted := InsertChunk(tx, versionId, chunk);
      if inserted.None? || fault == StatementFails(1 + chunk.index) {
        return Err(StorageError);
      }
      tx := inserted.value;
      if nextChunkIndex == 0xffff_ffff {
        return Err(Invariant);
      }
      nextChunkIndex := nextChunkIndex + 1;
      if plaintextLen + length > 0xffff_ffff_ffff_ffff {
        return Err(Invariant);
      }
      plaintextLen := plaintextLen + length;
      r := Ok(());
    }

    /** Replaces the placeholder by the final row, advances the active pointer and commits. */
    method Finish(storage: Storage, manifest: SealedRecord, chunkCount: U32, fault: Fault) returns (r: Result<()>)
      modifies storage
      ensures Attempt(fault, FinishTx(tx, objectId, versionId, manifest, plaintextLen, chunkCount, nextChunkIndex),
                      r.Ok?, old(storage.db), storage.db)
      ensures r.Err? ==> r.error.RequiresLock()
    {
      if chunkCount != nextChunkIndex {
        return Err(Invariant);
      }
      if plaintextLen > I64_MAX || fault == StatementFails(1 + nextChunkIndex) {
        return Err(StorageError);
      }
      if versionId !in tx.versions || tx.versions[versionId].objectId != objectId {
        return Err(Invariant);
      }
      var row := tx.versions[versionId].(manifest := manifest, plaintextLen := plaintextLen, chunkCount := chunkCount);
      var d := tx.(versions := tx.versions[versionId := row]);
      d := SetActive(d, objectId, versionId);
      if fault == StatementFails(2 + nextChunkIndex) || fault == CommitFails(false) {
        return Err(StorageError);
      }
      storage.db := d;
      r := if fault == CommitFails(true) then Err(StorageError) else Ok(());
    }
  }

  function FinishTx(
    tx: Db, obj: ObjectId, version: VersionId, manifest: SealedRecord, plaintextLen: U64, chunkCount: U32, appended: U32)
    : (r: Option<Db>)
  {
    if chunkCount != appended || plaintextLen > I64_MAX || version !in tx.versions
       || tx.versions[version].objectId != obj then None
    else
      var row := tx.versions[version].(manifest := manifest, plaintextLen := plaintextLen, chunkCount := chunkCount);
      Some(SetActive(tx.(versions := tx.versions[version := row]), obj, version))
  }

  // ----- What insertions change -----

  /** `db'` is `db` with the listed chunks of one version added, and nothing else. */
  ghost predicate AddsChunks(db: Db, db': Db, version: VersionId, chunks: seq<EncryptedChunk>) {
    && db'.objects == db.objects && db'.versions == db.versions
    && db'.pending == db.pending && db'.receipts == db.receipts
    && (forall k :: k in db.chunks ==> k in db'.chunks && db'.chunks[k] == db.chunks[k])
    && (forall i :: 0 <= i < |chunks| ==>
          (version, chunks[i].index) in db'.chunks && db'.chunks[(version, chunks[i].index)] == chunks[i].record)
    && (forall k :: k in db'.chunks && k !in db.chunks ==>
          exists i :: 0 <= i < |chunks| && k == (version, chunks[i].index))
  }

  lemma {:induction false} InsertChunksAdds(db: Db, version: VersionId, chunks: seq<EncryptedChunk>)
    requires InsertChunks(db, version, chunks).Some?
    ensures AddsChunks(db, InsertChunks(db, version, chunks).value, version, chunks)
  {
    if chunks == [] {
    } else {
      var n := |chunks| - 1;
      var init := chunks[..n];
      InsertChunksAdds(db, version, init);
      var mid, end := InsertChunks(db, version, init).value, InsertChunks(db, version, chunks).value;
      forall i | 0 <= i < |chunks|
        ensures (version, chunks[i].index) in end.chunks && end.chunks[(version, chunks[i].index)] == chunks[i].record
      {
        if i < n {
          assert init[i] == chunks[i];
        }
      }
      forall k | k in end.chunks && k !in db.chunks
        ensures exists i :: 0 <= i < |chunks| && k == (version, chunks[i].index)
      {
        if k in mid.chunks {
          var i :| 0 <= i < n && k == (version, init[i].index);
          assert k == (version, chunks[i].index);
        } else {
          assert k == (version, chunks[n].index);
        }
      }
    }
  }

  /** Insertions of chunks look only at the chunk table and at the existence of the version. */
  lemma {:induction false} InsertChunksFrame(db: Db, other: Db, version: VersionId, chunks: seq<EncryptedChunk>)
    requires db.chunks == other.chunks && version in db.versions && version in other.versions
    ensures var d, e := InsertChunks(db, version, chunks), InsertChunks(other, version, chunks);
            && (d.Some? <==> e.Some?)
            && (d.Some? ==> d.value == db.(chunks := e.value.chunks) && e.value == other.(chunks := d.value.chunks))
  {
    if chunks == [] {
    } else {
      InsertChunksFrame(db, other, version, chunks[..|chunks| - 1]);
    }
  }

  // ----- The invariant of every reachable database -----

  /** A committed version has exactly its announced chunks, indexed from zero. */
  ghost predicate Complete(db: Db, version: VersionId)
    requires version in db.versions
  {
    forall i: U32 :: (version, i) in db.chunks <==> i < db.versions[version].chunkCount
  }

  ghost predicate Valid(db: Db) {
    && (forall o :: o in db.objects ==> db.objects[o] in db.versions && db.versions[db.objects[o]].objectId == o)
    && (forall v :: v in db.versions ==> db.versions[v].versionId == v && Complete(db, v))
    && (forall k :: k in db.chunks ==> k.0 in db.versions)
    && (forall v :: v in db.pending ==> v in db.versions)
    && (forall v :: v in db.receipts ==> v in db.versions && db.receipts[v].version == v)
  }

  /** Committed versions, their chunks and their receipts are still what they were. */
  ghost predicate Preserves(db: Db, db': Db) {
    && (forall v :: v in db.versions ==> v in db'.versions && db'.versions[v] == db.versions[v])
    && (forall k :: k in db.chunks ==> k in db'.chunks && db'.chunks[k] == db.chunks[k])
    && (forall k :: k in db'.chunks && k.0 in db.versions ==> k in db.chunks)
    && (forall v :: v in db.receipts ==> v in db'.receipts && db'.receipts[v] == db.receipts[v])
  }

  /** The chunks that a writer hands to storage are indexed from zero. */
  ghost predicate InOrder(chunks: seq<EncryptedChunk>) {
    forall i :: 0 <= i < |chunks| ==> chunks[i].index == i
  }

  lemma WriteVersionValid(db: Db, row: StoredVersion, chunks: seq<EncryptedChunk>)
    requires Valid(db) && InOrder(chunks) && |chunks| == row.chunkCount
    requires VersionTx(db, row, chunks).Some?
    ensures var d := VersionTx(db, row, chunks).value;
            && Valid(d) && Preserves(db, d)
            && d.versions == db.versions[row.versionId := row]
            && d.objects == db.objects && d.pending == db.pending && d.receipts == db.receipts
  {
    var started := InsertVersion(db, row).value;
    var d := VersionTx(db, row, chunks).value;
    InsertChunksAdds(started, row.versionId, chunks);
    forall v | v in d.versions
      ensures d.versions[v].versionId == v && Complete(d, v)
    {
      if v == row.versionId {
        forall i: U32
          ensures (v, i) in d.chunks <==> i < row.chunkCount
        {
          if i < row.chunkCount {
            assert chunks[i].index == i;
          }
        }
      } else {
        assert Complete(db, v);
        assert forall i: U32 :: (v, i) in d.chunks <==> (v, i) in db.chunks;
      }
    }
  }

  lemma PublishKeepsValid(db: Db, row: StoredVersion, chunks: seq<EncryptedChunk>)
    requires Valid(db) && InOrder(chunks) && PublishTx(db, row, chunks).Some?
    ensures var d := PublishTx(db, row, chunks).value;
            Valid(d) && Preserves(db, d) && d.objects == db.objects[row.objectId := row.versionId]
  {
    WriteVersionValid(db, row, chunks);
    var e := VersionTx(db, row, chunks).value;
    var d := PublishTx(db, row, chunks).value;
    forall v | v in d.versions
      ensures Complete(d, v)
    {
      assert Complete(e, v);
    }
  }

  lemma StageKeepsValid(db: Db, row: StoredVersion, chunks: seq<EncryptedChunk>, expected: U64)
    requires Valid(db) && InOrder(chunks) && StageTx(db, row, chunks, expected).Some?
    ensures var d := StageTx(db, row, chunks, expected).value;
            && Valid(d) && Preserves(db, d) && d.objects == db.objects
            && d.versions == db.versions[row.versionId := row]
            && d.pending == db.pending[row.versionId := expected] && d.receipts == db.receipts
  {
    WriteVersionValid(db, row, chunks);
    var e := VersionTx(db, row, chunks).value;
    var d := StageTx(db, row, chunks, expected).value;
    forall v | v in d.versions
      ensures Complete(d, v)
    {
      assert Complete(e, v);
    }
  }

  lemma FinalizeKeepsValid(db: Db, row: StoredVersion, receipt: Receipt)
    requires Valid(db) && FinalizeTx(db, row, receipt).Some?
    requires row.versionId in db.versions && db.versions[row.versionId] == row
    ensures var d := FinalizeTx(db, row, receipt).value;
            Valid(d) && Preserves(db, d) && d.objects == db.objects[row.objectId := row.versionId]
  {
    var d := FinalizeTx(db, row, receipt).value;
    forall v | v in d.versions
      ensures Complete(d, v)
    {
      assert Complete(db, v);
    }
  }

  lemma FinalizePreserves(db: Db, row: StoredVersion, receipt: Receipt)
    requires FinalizeTx(db, row, receipt).Some?
    ensures Preserves(db, FinalizeTx(db, row, receipt).value)
    ensures FinalizeTx(db, row, receipt).value.versions == db.versions
  {
  }

  /** The structural checks run before a vault is served. */
  predicate StartupCheck(db: Db) {
    && (forall k <- db.chunks.Keys :: k.0 in db.versions)
    && (forall v <- db.receipts.Keys :: v in db.versions)
    && (forall o <- db.objects.Keys :: db.objects[o] in db.versions && db.versions[db.objects[o]].objectId == o)
    && (forall v <- db.pending.Keys :: v in db.versions)
  }

  lemma ValidPassesStartup(db: Db)
    requires Valid(db)
    ensures StartupCheck(db)
  {
  }

  /** A row that names a version which is not there, or a pointer to another object's version. */
  ghost predicate Dangling(db: Db) {
    || (exists k :: k in db.chunks && k.0 !in db.versions)
    || (exists v :: v in db.receipts && v !in db.versions)
    || (exists v :: v in db.pending && v !in db.versions)
    || (exists o :: o in db.objects && (db.objects[o] !in db.versions || db.versions[db.objects[o]].objectId != o))
  }

  /** The startup check refuses exactly the databases with such a row. */
  lemma StartupExactly(db: Db)
    ensures StartupCheck(db) <==> !Dangling(db)
  {
    assert forall k :: k in db.chunks.Keys <==> k in db.chunks;
    assert forall v :: v in db.receipts.Keys <==> v in db.receipts;
    assert forall v :: v in db.pending.Keys <==> v in db.pending;
    assert forall o :: o in db.objects.Keys <==> o in db.objects;
  }

  // ----- Exactly when the transactions apply -----

  ghost predicate DistinctNonces(chunks: seq<EncryptedChunk>) {
    forall i, j :: 0 <= i < j < |chunks| ==> chunks[i].record.nonce != chunks[j].record.nonce
  }

  /** No two chunks of a version share a nonce. */
  ghost predicate UniqueNonces(db: Db) {
    forall k, l :: k in db.chunks && l in db.chunks && k != l && k.0 == l.0 ==> db.chunks[k].nonce != db.chunks[l].nonce
  }

  ghost predicate NoChunksOf(db: Db, version: VersionId) {
    forall k :: k in db.chunks ==> k.0 != version
  }

  /** After some chunks of a new version have been inserted, the nonces in use are theirs. */
  lemma NoncesInUse(db: Db, db': Db, version: VersionId, chunks: seq<EncryptedChunk>, nonce: Nonce)
    requires NoChunksOf(db, version) && AddsChunks(db, db', version, chunks)
    ensures NonceUsed(db', version, nonce) <==> exists i :: 0 <= i < |chunks| && chunks[i].record.nonce == nonce
  {
    if NonceUsed(db', version, nonce) {
      var k :| k in db'.chunks && k.0 == version && db'.chunks[k].nonce == nonce;
      assert k !in db.chunks;
      var i :| 0 <= i < |chunks| && k == (version, chunks[i].index);
      assert chunks[i].record == db'.chunks[k];
    }
    if i :| 0 <= i < |chunks| && chunks[i].record.nonce == nonce {
      assert (version, chunks[i].index) in db'.chunks.Keys;
    }
  }

  /** The chunks of a new version are accepted if and only if their nonces are pairwise distinct. */
  lemma {:induction false} InsertChunksExactly(db: Db, version: VersionId, chunks: seq<EncryptedChunk>)
    requires version in db.versions && NoChunksOf(db, version) && InOrder(chunks) && |chunks| <= 0x1_0000_0000
    ensures InsertChunks(db, version, chunks).Some? <==> DistinctNonces(chunks)
  {
    if chunks == [] {
    } else {
      var n := |chunks| - 1;
      var init, last := chunks[..n], chunks[n];
      InsertChunksExactly(db, version, init);
      if InsertChunks(db, version, init).Some? {
        var mid := InsertChunks(db, version, init).value;
        InsertChunksAdds(db, version, init);
        NoncesInUse(db, mid, version, init, last.record.nonce);
        NextIndexIsFree(db, mid, version, init, n);
        LastNonce(chunks);
      } else {
        LastNonce(chunks);
      }
    }
  }

  lemma NextIndexIsFree(db: Db, db': Db, version: VersionId, chunks: seq<EncryptedChunk>, n: U32)
    requires NoChunksOf(db, version) && AddsChunks(db, db', version, chunks) && InOrder(chunks) && n == |chunks|
    ensures (version, n) !in db'.chunks
  {
    assert forall i :: 0 <= i < |chunks| ==> chunks[i].index == i;
  }

  lemma LastNonce(chunks: seq<EncryptedChunk>)
    requires chunks != []
    ensures var init := chunks[..|chunks| - 1];
            DistinctNonces(chunks) <==>
              DistinctNonces(init)
              && !exists i :: 0 <= i < |init| && init[i].record.nonce == chunks[|chunks| - 1].record.nonce
  {
    var n := |chunks| - 1;
    var init := chunks[..n];
    if DistinctNonces(chunks) {
      assert forall i :: 0 <= i < n ==> init[i] == chunks[i] && chunks[i].record.nonce != chunks[n].record.nonce;
    } else {
      var i, j :| 0 <= i < j < |chunks| && chunks[i].record.nonce == chunks[j].record.nonce;
      assert init[i] == chunks[i] && (j < n ==> init[j] == chunks[j]);
    }
  }

  /** What a version row and its chunks must satisfy to be stored. */
  ghost predicate Storable(db: Db, row: StoredVersion, chunks: seq<EncryptedChunk>) {
    && row.versionId !in db.versions && row.chunkSize > 0 && row.plaintextLen <= I64_MAX
    && |chunks| == row.chunkCount && DistinctNonces(chunks)
  }

  lemma VersionExactly(db: Db, row: StoredVersion, chunks: seq<EncryptedChunk>)
    requires Valid(db) && InOrder(chunks) && |chunks| == row.chunkCount
    ensures VersionTx(db, row, chunks).Some? <==> Storable(db, row, chunks)
  {
    var started := InsertVersion(db, row);
    if started.Some? {
      InsertChunksExactly(started.value, row.versionId, chunks);
    }
  }

  /** Publication applies if and only if the version is new, its columns are legal and its nonces distinct. */
  lemma PublishExactly(db: Db, row: StoredVersion, chunks: seq<EncryptedChunk>)
    requires Valid(db) && InOrder(chunks)
    ensures PublishTx(db, row, chunks).Some? <==> Storable(db, row, chunks)
  {
    if |chunks| == row.chunkCount {
      VersionExactly(db, row, chunks);
    }
  }

  /** Staging applies if and only if publication would and the expected epoch is a legal column value. */
  lemma StageExactly(db: Db, row: StoredVersion, chunks: seq<EncryptedChunk>, expected: U64)
    requires Valid(db) && InOrder(chunks)
    ensures StageTx(db, row, chunks, expected).Some? <==> Storable(db, row, chunks) && expected <= I64_MAX
  {
    if |chunks| == row.chunkCount {
      VersionExactly(db, row, chunks);
      if VersionTx(db, row, chunks).Some? {
        WriteVersionValid(db, row, chunks);
      }
    }
  }

  /** Finalization applies if and only if the version is staged, without receipt, and the epoch is unused. */
  lemma FinalizeExactly(db: Db, row: StoredVersion, receipt: Receipt)
    requires Valid(db)
    ensures FinalizeTx(db, row, receipt).Some? <==>
              && receipt.obj == row.objectId && receipt.version == row.versionId
              && row.versionId in db.pending && row.versionId !in db.receipts
              && receipt.epoch <= I64_MAX && forall v :: v in db.receipts ==> db.receipts[v].epoch != receipt.epoch
  {
    assert EpochUsed(db, receipt.epoch) <==> exists v :: v in db.receipts && db.receipts[v].epoch == receipt.epoch;
  }

  /** A streamed version is committed if and only if every appended chunk is counted and the row is still its own. */
  lemma FinishExactly(
    tx: Db, obj: ObjectId, version: VersionId, manifest: SealedRecord, plaintextLen: U64, chunkCount: U32, appended: U32)
    ensures FinishTx(tx, obj, version, manifest, plaintextLen, chunkCount, appended).Some? <==>
              && appended == chunkCount && plaintextLen <= I64_MAX
              && version in tx.versions && tx.versions[version].objectId == obj
  {
  }

  lemma {:induction false} InsertChunksKeepsNonces(db: Db, version: VersionId, chunks: seq<EncryptedChunk>)
    requires UniqueNonces(db) && InsertChunks(db, version, chunks).Some?
    ensures UniqueNonces(InsertChunks(db, version, chunks).value)
  {
    if chunks == [] {
    } else {
      var mid := InsertChunks(db, version, chunks[..|chunks| - 1]).value;
      InsertChunksKeepsNonces(db, version, chunks[..|chunks| - 1]);
      assert forall k :: k in mid.chunks && k.0 == version ==> k in mid.chunks.Keys;
    }
  }

  /** No transaction lets two chunks of a version share a nonce. */
  lemma VersionKeepsNonces(db: Db, row: StoredVersion, chunks: seq<EncryptedChunk>)
    requires UniqueNonces(db) && VersionTx(db, row, chunks).Some?
    ensures UniqueNonces(VersionTx(db, row, chunks).value)
  {
    InsertChunksKeepsNonces(InsertVersion(db, row).value, row.versionId, chunks);
  }

  // ----- Reading -----

  /** The rows of a version with an index below `n`, in ascending order. */
  function RowsBelow(chunks: map<(VersionId, U32), SealedRecord>, version: VersionId, n: nat): (rows: seq<EncryptedChunk>)
    requires n <= 0x1_0000_0000
    decreases n, version
  {
    if n == 0 then []
    else RowsBelow(chunks, version, n - 1)
         + (if (version, n - 1) in chunks then [EncryptedChunk(n - 1, chunks[(version, n - 1)])] else [])
  }

  /** What a visit of the chunks of a version sees, ordered by index. */
  function Rows(db: Db, version: VersionId): (rows: seq<EncryptedChunk>) {
    RowsBelow(db.chunks, version, 0x1_0000_0000)
  }

  lemma {:induction false} RowsBelowComplete(
    chunks: map<(VersionId, U32), SealedRecord>, version: VersionId, records: seq<SealedRecord>, n: nat)
    requires n <= 0x1_0000_0000 && |records| <= 0x1_0000_0000
    requires forall i: U32 :: (version, i) in chunks <==> i < |records|
    requires forall i: U32 :: i < |records| ==> chunks[(version, i)] == records[i]
    ensures var rows := RowsBelow(chunks, version, n);
            && |rows| == (if n <= |records| then n else |records|)
            && forall i :: 0 <= i < |rows| ==> rows[i] == EncryptedChunk(i, records[i])
    decreases n
  {
    if n == 0 {
    } else {
      RowsBelowComplete(chunks, version, records, n - 1);
      assert (version, n - 1) in chunks <==> n - 1 < |records|;
    }
  }

  lemma RowsComplete(db: Db, version: VersionId, records: seq<SealedRecord>)
    requires |records| <= 0x1_0000_0000
    requires forall i: U32 :: (version, i) in db.chunks <==> i < |records|
    requires forall i: U32 :: i < |records| ==> db.chunks[(version, i)] == records[i]
    ensures |Rows(db, version)| == |records|
    ensures forall i :: 0 <= i < |records| ==> Rows(db, version)[i] == EncryptedChunk(i, records[i])
  {
    RowsBelowComplete(db.chunks, version, records, 0x1_0000_0000);
  }
}
