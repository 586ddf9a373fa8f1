/** A vault instance over its durable tables, and what survives any sequence of operations on it. */
module Vault {
  import opened Format
  import opened Transcripts
  import opened Crypto
  import opened Storage
  import Tables = Storage
  import Chunking
  import opened StreamIo
  import opened Publishing
  import opened Reading
  import opened ReadIntegrity

  /** The password-protected root key; the key-derivation cost parameters are fixed. */
  datatype RootEnvelope = RootEnvelope(vault: VaultId, salt: Bytes16, record: SealedRecord)

  function OpenRootKey(c: Crypto, passphrase: Format.Bytes, e: RootEnvelope): (r: Result<Bytes32>) {
    var opened' := Opened(c, c.passphraseKey(passphrase, e.salt), RootContext(e.vault), e.record);
    if opened'.None? || |opened'.value| != 32 then Err(UnlockFailed) else Ok(opened'.value)
  }

  function SealRootKey(c: Crypto, passphrase: Format.Bytes, vault: VaultId, root: Bytes32, salt: Bytes16, nonce: Nonce)
    : (e: RootEnvelope)
  {
    RootEnvelope(vault, salt, Sealed(c, c.passphraseKey(passphrase, salt), nonce, RootContext(vault), root))
  }

  function RootSeal(c: Crypto, passphrase: Format.Bytes, e: RootEnvelope, root: Bytes32): (seal: Seal) {
    Seal(c.passphraseKey(passphrase, e.salt), Aad(RootContext(e.vault)), e.record, root)
  }

  /** Durable tables and stored envelope, the loaded envelope and key, and every root-key seal so far. */
  datatype State = State(
    db: Db, stored: RootEnvelope, envelope: RootEnvelope, rootKey: Option<Bytes32>, rootSeals: set<Seal>)

  // ----- Operations as transitions -----

  datatype Op =
    | PutOp(put: Put, ok: bool)
    | StageOp(put: Put, expected: U64, ok: bool)
    | FinalizeOp(row: StoredVersion, receipt: Receipt, ok: bool)
    | GetOp(obj: ObjectId)
    | LockOp
    | UnlockOp(passphrase: Format.Bytes, ok: bool)
    | RotateOp(current: Format.Bytes, replacement: Format.Bytes, salt: Bytes16, nonce: Nonce, ok: bool)
    | ReopenOp

  /** A reported success was applied; a reported failure was not, unless its commit became durable. */
  predicate Committed(tx: Option<Db>, ok: bool, db: Db, db': Db) {
    if ok then tx == Some(db') else db' == db || tx == Some(db')
  }

  predicate KeptOrLocked(s: State, s': State) {
    s'.rootKey == s.rootKey || s'.rootKey == None
  }

  /** Only the tables change, and the key is kept or dropped. */
  predicate TablesOnly(s: State, s': State) {
    s' == s.(db := s'.db, rootKey := s'.rootKey) && KeptOrLocked(s, s')
  }

  ghost predicate PutStep(c: Crypto, vault: VaultId, s: State, put: Put, ok: bool, s': State) {
    && TablesOnly(s, s')
    && (ok ==> s'.rootKey == s.rootKey)
    && if s.rootKey.Some? && Publishable(put.plaintext, put.size) then
         Committed(PublishTx(s.db, StoredRow(c, vault, s.rootKey.value, put), StoredChunks(c, vault, put)), ok, s.db, s'.db)
       else !ok && s'.db == s.db
  }

  ghost predicate StageStep(c: Crypto, vault: VaultId, s: State, put: Put, expected: U64, ok: bool, s': State) {
    && TablesOnly(s, s')
    && (ok ==> s'.rootKey == s.rootKey)
    && if s.rootKey.Some? && Publishable(put.plaintext, put.size) then
         Committed(StageTx(s.db, StoredRow(c, vault, s.rootKey.value, put), StoredChunks(c, vault, put), expected), ok, s.db, s'.db)
       else !ok && s'.db == s.db
  }

  /** The receipt acknowledges exactly this request, under a signature that verifies. */
  predicate VerifiesRequest(receipt: Receipt, q: WitnessRequest, signed: set<Message>) {
    receipt == Receipt(q.vault, q.obj, q.version, receipt.epoch, q.commitment) && ReceiptMessage(receipt) in signed
  }

  /** Finalization of a staged version with a receipt that has been verified against its request. */
  ghost predicate FinalizeStep(
    c: Crypto, vault: VaultId, signed: set<Message>, s: State, row: StoredVersion, receipt: Receipt, ok: bool, s': State)
  {
    && TablesOnly(s, s')
    && row.versionId in s.db.versions && s.db.versions[row.versionId] == row
    && VerifiesRequest(receipt, RequestFor(c, vault, row), signed)
    && Committed(FinalizeTx(s.db, row, receipt), ok, s.db, s'.db)
  }

  ghost predicate RotateStep(
    c: Crypto, vault: VaultId, s: State, current: Format.Bytes, replacement: Format.Bytes, salt: Bytes16, nonce: Nonce,
    ok: bool, s': State)
  {
    var key := OpenRootKey(c, current, s.envelope);
    if key.Err? then
      !ok && s' == s
    else
      var e := SealRootKey(c, replacement, vault, key.value, salt, nonce);
      var seals := s.rootSeals + {RootSeal(c, replacement, e, key.value)};
      if ok then s' == s.(stored := e, envelope := e, rootKey := None, rootSeals := seals)
      else
        && s' == s.(stored := s'.stored, rootKey := s'.rootKey, rootSeals := seals) && KeptOrLocked(s, s')
        && (s'.stored == s.stored || s'.stored == e)
  }

  ghost predicate Step(c: Crypto, vault: VaultId, signed: set<Message>, s: State, op: Op, s': State) {
    match op
    case PutOp(put, ok) => PutStep(c, vault, s, put, ok, s')
    case StageOp(put, expected, ok) => StageStep(c, vault, s, put, expected, ok, s')
    case FinalizeOp(row, receipt, ok) => FinalizeStep(c, vault, signed, s, row, receipt, ok, s')
    case GetOp(_) => s' == s.(rootKey := s'.rootKey) && KeptOrLocked(s, s')
    case LockOp => s' == s.(rootKey := None)
    case UnlockOp(passphrase, ok) =>
      var key := OpenRootKey(c, passphrase, s.envelope);
      if ok then key.Ok? && s' == s.(rootKey := Some(key.value)) else s' == s
    case RotateOp(current, replacement, salt, nonce, ok) => RotateStep(c, vault, s, current, replacement, salt, nonce, ok, s')
    case ReopenOp => StartupCheck(s.db) && s' == s.(envelope := s.stored, rootKey := None)
  }

  /** The version identifier is new and the chunk nonces are pairwise different. */
  ghost predicate CanPut(db: Db, plaintext: Format.Bytes, size: nat, s: Secrets)
    requires Publishable(plaintext, size)
  {
    s.version !in db.versions && DistinctChunkNonces(s, |Chunking.Chunks(plaintext, size)|)
  }

  /** What a streaming call leaves behind is what a put of its whole input may leave behind. */
  lemma StreamIsPut(
    c: Crypto, vault: VaultId, key: Option<Bytes32>, obj: ObjectId, input: Format.Bytes, healthy: bool, size: nat,
    s: Secrets, fault: Fault, db: Db, db': Db, r: Result<VersionId>)
    requires StreamOutcome(c, vault, key, obj, Some(input), healthy, size, s, fault, db, db', r)
    ensures if key.Some? && Publishable(input, size) then
              var put := ReadIntegrity.Put(obj, input, size, s);
              Committed(PublishTx(db, StoredRow(c, vault, key.value, put), StoredChunks(c, vault, put)), r.Ok?, db, db')
            else r.Err? && db' == db
    ensures key.Some? && Publishable(input, size) && healthy && fault.NoFault? && Tables.Valid(db) ==>
              (r.Ok? <==> CanPut(db, input, size, s))
  {
    if key.Some? && Publishable(input, size) && Tables.Valid(db) {
      PublishedExactly(c, vault, key.value, obj, input, size, s, db);
    }
  }

  /** The same for a publication of a whole plaintext. */
  lemma BatchIsPut(
    c: Crypto, vault: VaultId, root: Bytes32, obj: ObjectId, p: Format.Bytes, size: nat, s: Secrets, fault: Fault,
    db: Db, db': Db, ok: bool)
    requires Publishable(p, size)
    requires var whole := Published(c, vault, root, obj, p, size, s);
             Attempt(fault, PublishTx(db, whole.row, whole.chunks), ok, db, db')
    ensures var put := ReadIntegrity.Put(obj, p, size, s);
            Committed(PublishTx(db, StoredRow(c, vault, root, put), StoredChunks(c, vault, put)), ok, db, db')
    ensures fault.NoFault? && Tables.Valid(db) ==> (ok <==> CanPut(db, p, size, s))
  {
    if Tables.Valid(db) {
      PublishedExactly(c, vault, root, obj, p, size, s, db);
    }
  }

  // ----- The instance -----

  class Vault {
    const c: Crypto
    const vault: VaultId
    const signed: set<Message>
    const storage: Storage
    var stored: RootEnvelope
    var envelope: RootEnvelope
    var rootKey: Option<Bytes32>
    ghost var rootSeals: set<Seal>

    ghost function S(): (s: State)
      reads this, storage
    {
      State(storage.db, stored, envelope, rootKey, rootSeals)
    }

    /** Both envelopes belong to this vault. */
    ghost predicate Valid()
      reads this
    {
      stored.vault == vault && envelope.vault == vault
    }

    /** A fresh vault is unlocked, and its envelope holds the root key it works with. */
    constructor Create(c: Crypto, vault: VaultId, passphrase: Format.Bytes, root: Bytes32, salt: Bytes16, nonce: Nonce,
                       signed: set<Message>)
      ensures this.c == c && this.vault == vault && this.signed == signed && fresh(storage)
      ensures Valid() && S() == Initial(c, vault, passphrase, root, salt, nonce)
    {
      this.c, this.vault, this.signed := c, vault, signed;
      storage := new Storage();
      var e := SealRootKey(c, passphrase, vault, root, salt, nonce);
      stored, envelope, rootKey := e, e, Some(root);
      rootSeals := {RootSeal(c, passphrase, e, root)};
    }

    method Lock()
      modifies this
      ensures Step(c, vault, signed, old(S()), LockOp, S())
    {
      rootKey := None;
    }

    method LockAfterFailure(error: VaultError)
      modifies this
      ensures S() == if error.RequiresLock() then old(S()).(rootKey := None) else old(S())
    {
      if error.RequiresLock() {
        rootKey := None;
      }
    }

    method Unlock(passphrase: Format.Bytes) returns (r: Result<()>)
      modifies this
      ensures Step(c, vault, signed, old(S()), UnlockOp(passphrase, r.Ok?), S())
      ensures r.Ok? <==> passphrase != [] && OpenRootKey(c, passphrase, old(envelope)).Ok?
      ensures r.Err? ==> r.error == if passphrase == [] then InvalidInput else UnlockFailed
    {
      if passphrase == [] {
        return Err(InvalidInput);
      }
      var key := OpenRootKey(c, passphrase, envelope);
      if key.Err? {
        return Err(key.error);
      }
      rootKey := Some(key.value);
      r := Ok(());
    }

    /** The process ends and the database is opened again. */
    method Reopen() returns (r: Result<()>)
      modifies this
      ensures r.Ok? <==> StartupCheck(storage.db)
      ensures if r.Ok? then Step(c, vault, signed, old(S()), ReopenOp, S()) else S() == old(S())
    {
      if !StartupCheck(storage.db) {
        return Err(Invariant);
      }
      envelope, rootKey := stored, None;
      r := Ok(());
    }

    method Put(obj: ObjectId, plaintext: Buffer, chunkSize: nat, s: Secrets, fault: Fault) returns (r: Result<VersionId>)
      requires Valid()
      modifies this, storage
      ensures Valid()
      ensures Step(c, vault, signed, old(S()), PutOp(ReadIntegrity.Put(obj, plaintext, chunkSize, s), r.Ok?), S())
      ensures r.Ok? ==> r.value == s.version
      ensures r.Err? && r.error.RequiresLock() ==> rootKey.None?
      ensures old(rootKey).None? ==> r == Err(Locked)
      ensures old(rootKey).Some? && !Publishable(plaintext, chunkSize) ==> r == Err(InvalidInput) && rootKey == old(rootKey)
      ensures fault.NoFault? && Tables.Valid(old(storage.db)) && old(rootKey).Some? && Publishable(plaintext, chunkSize) ==>
                (r.Ok? <==> CanPut(old(storage.db), plaintext, chunkSize, s))
    {
      ghost var key, db := rootKey, storage.db;
      var prepared := PrepareVersion(c, envelope.vault, rootKey, obj, plaintext, chunkSize, s);
      if prepared.Err? {
        LockAfterFailure(prepared.error);
        return Err(prepared.error);
      }
      var published := storage.Publish(prepared.value.row, prepared.value.chunks, fault);
      BatchIsPut(c, vault, key.value, obj, plaintext, chunkSize, s, fault, db, storage.db, published.Ok?);
      if published.Err? {
        LockAfterFailure(published.error);
        return Err(published.error);
      }
      r := Ok(s.version);
    }

    /** Streaming put: the same transition as a put of everything the reader would deliver. */
    method PutFromReader(obj: ObjectId, reader: Reader, chunkSize: nat, s: Secrets, fault: Fault)
      returns (r: Result<VersionId>)
      requires Valid() && reader.Valid() && this !in reader.Footprint() && storage !in reader.Footprint()
      modifies this, storage, reader.Footprint()
      ensures Valid()
      ensures old(reader.Rest()).Some? ==>
                Step(c, vault, signed, old(S()), PutOp(ReadIntegrity.Put(obj, old(reader.Rest()).value, chunkSize, s), r.Ok?), S())
      ensures old(reader.Rest()).None? ==> r.Err? && TablesOnly(old(S()), S()) && storage.db == old(storage.db)
      ensures r.Err? && r.error.RequiresLock() ==> rootKey.None?
      ensures (&& fault.NoFault? && Tables.Valid(old(storage.db)) && old(rootKey).Some? && old(reader.Healthy())
               && old(reader.Rest()).Some? && Publishable(old(reader.Rest()).value, chunkSize)) ==>
                (r.Ok? <==> CanPut(old(storage.db), old(reader.Rest()).value, chunkSize, s))
    {
      ghost var input, healthy, key, db := reader.Rest(), reader.Healthy(), rootKey, storage.db;
      r := Publishing.PutFromReader(c, envelope.vault, rootKey, storage, obj, reader, chunkSize, s, fault);
      if input.Some? {
        StreamIsPut(c, vault, key, obj, input.value, healthy, chunkSize, s, fault, db, storage.db, r);
      }
      if r.Err? {
        LockAfterFailure(r.error);
      }
    }

    /** The first transaction of a witnessed put: stages the version with the epoch of the active receipt. */
    method Stage(obj: ObjectId, plaintext: Buffer, chunkSize: nat, s: Secrets, fault: Fault) returns (r: Result<StoredVersion>)
      requires Valid()
      modifies this, storage
      ensures Valid()
      ensures var active := ActiveReceipt(old(storage.db), signed, obj);
              if active.Ok? then
                var expected := if active.value.Some? then active.value.value.epoch else 0;
                Step(c, vault, signed, old(S()), StageOp(ReadIntegrity.Put(obj, plaintext, chunkSize, s), expected, r.Ok?), S())
              else r.Err? && TablesOnly(old(S()), S()) && storage.db == old(storage.db)
      ensures r.Ok? ==> s.version in storage.db.versions && r.value == storage.db.versions[s.version]
    {
      var prepared := PrepareVersion(c, envelope.vault, rootKey, obj, plaintext, chunkSize, s);
      if prepared.Err? {
        LockAfterFailure(prepared.error);
        return Err(prepared.error);
      }
      var active := ActiveReceipt(storage.db, signed, obj);
      if active.Err? {
        LockAfterFailure(active.error);
        return Err(active.error);
      }
      var expected := if active.value.Some? then active.value.value.epoch else 0;
      ghost var row, chunks := prepared.value.row, prepared.value.chunks;
      var staged := storage.StageWitnessPublication(prepared.value.row, prepared.value.chunks, expected, fault);
      if staged.Err? {
        LockAfterFailure(staged.error);
        return Err(staged.error);
      }
      InsertChunksAdds(InsertVersion(old(storage.db), row).value, row.versionId, chunks);
      r := Ok(prepared.value.row);
    }

    /** Commits a verified receipt for a staged version. */
    method Finalize(row: StoredVersion, receipt: Receipt, fault: Fault) returns (r: Result<()>)
      requires Valid() && row.versionId in storage.db.versions && storage.db.versions[row.versionId] == row
      modifies this, storage
      ensures Valid()
      ensures if VerifiesRequest(receipt, RequestFor(c, vault, row), signed) then
                Step(c, vault, signed, old(S()), FinalizeOp(row, receipt, r.Ok?), S())
              else r.Err? && TablesOnly(old(S()), S()) && storage.db == old(storage.db) && rootKey.None?
      ensures !AcknowledgesRow(c, vault, receipt, row) ==> r == Err(Invariant)
      ensures AcknowledgesRow(c, vault, receipt, row) && ReceiptMessage(receipt) !in signed ==> r == Err(Authentication)
    {
      if !VerifiesRequest(receipt, RequestFor(c, envelope.vault, row), signed) {
        var q := RequestFor(c, envelope.vault, row);
        var binds := receipt == Receipt(q.vault, q.obj, q.version, receipt.epoch, q.commitment);
        var error := if binds then Authentication else Invariant;
        LockAfterFailure(error);
        return Err(error);
      }
      r := storage.FinalizeWitnessPublication(row, receipt, fault);
      if r.Err? {
        LockAfterFailure(r.error);
      }
    }

    /** A read through a sink. */
    method Get(obj: ObjectId, sink: Sink) returns (r: Result<()>)
      requires Valid() && !sink.refused
      modifies this, sink
      ensures Valid() && Step(c, vault, signed, old(S()), GetOp(obj), S())
      ensures old(rootKey).None? ==> r == Err(Locked) && sink.written == old(sink.written)
      ensures old(rootKey).Some? ==>
                var expected := Reading.Get(View(c, vault, old(rootKey).value, storage.db, signed), obj);
                && (r.Ok? ==> expected.Ok? && sink.written == old(sink.written) + expected.value)
                && (r.Err? ==> if sink.refused then r.error == StorageError else expected == Err(r.error))
      ensures old(rootKey).Some? && !HasActive(storage.db, obj) ==>
                r == Err(NotFound) && sink.written == old(sink.written) && rootKey == old(rootKey)
      ensures old(rootKey).Some? && HasActive(storage.db, obj) && r.Err? ==> rootKey.None?
    {
      if rootKey.None? {
        return Err(Locked);
      }
      NotFoundExactly(View(c, vault, rootKey.value, storage.db, signed), obj);
      OtherReadErrorsLock(View(c, vault, rootKey.value, storage.db, signed), obj);
      r := GetToWriter(View(c, envelope.vault, rootKey.value, storage.db, signed), obj, sink);
      if r.Err? {
        LockAfterFailure(r.error);
      }
    }

    method RotatePassphrase(current: Format.Bytes, replacement: Format.Bytes, salt: Bytes16, nonce: Nonce, fault: Fault)
      returns (r: Result<()>)
      requires Valid()
      modifies this
      ensures Valid()
      ensures if replacement == [] then r == Err(InvalidInput) && S() == old(S())
              else Step(c, vault, signed, old(S()), RotateOp(current, replacement, salt, nonce, r.Ok?), S())
      ensures r.Ok? ==> rootKey.None?
      ensures replacement != [] && fault.NoFault? ==> (r.Ok? <==> OpenRootKey(c, current, old(envelope)).Ok?)
      ensures replacement != [] && r.Err? ==>
                if OpenRootKey(c, current, old(envelope)).Err? then r.error == UnlockFailed
                else r.error == StorageError && rootKey.None?
    {
      if replacement == [] {
        return Err(InvalidInput);
      }
      var key := OpenRootKey(c, current, envelope);
      if key.Err? {
        LockAfterFailure(key.error);
        return Err(key.error);
      }
      var e := SealRootKey(c, replacement, envelope.vault, key.value, salt, nonce);
      rootSeals := rootSeals + {RootSeal(c, replacement, e, key.value)};
      if fault.StatementFails? || fault == CommitFails(false) {
        LockAfterFailure(StorageError);
        return Err(StorageError);
      }
      stored := e;
      if fault == CommitFails(true) {
        LockAfterFailure(StorageError);
        return Err(StorageError);
      }
      envelope, rootKey := e, None;
      r := Ok(());
    }
  }

  function Initial(c: Crypto, vault: VaultId, passphrase: Format.Bytes, root: Bytes32, salt: Bytes16, nonce: Nonce): (s: State) {
    var e := SealRootKey(c, passphrase, vault, root, salt, nonce);
    State(EMPTY_DB, e, e, Some(root), {RootSeal(c, passphrase, e, root)})
  }
}
