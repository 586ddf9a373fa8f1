/** Storage invariant and durability over every run of a vault. */
module VaultRuns {
  import opened Format
  import opened Transcripts
  import opened Crypto
  import opened Storage
  import opened Publishing
  import opened Reading
  import opened ReadIntegrity
  import opened Vault

  /** Opening the loaded envelope only succeeds for a seal that has been made. */
  ghost predicate RootUnforgeable(c: Crypto, s: State) {
    forall passphrase :: OpenRootKey(c, passphrase, s.envelope).Ok? ==>
      RootSeal(c, passphrase, s.envelope, OpenRootKey(c, passphrase, s.envelope).value) in s.rootSeals
  }

  /** The fixed surroundings of a run. */
  datatype World = World(c: Crypto, vault: VaultId, root: Bytes32, signed: set<Message>)

  ghost predicate IsRun(w: World, states: seq<State>, ops: seq<Op>) {
    && |states| == |ops| + 1
    && (exists passphrase, salt, nonce :: states[0] == Initial(w.c, w.vault, passphrase, w.root, salt, nonce))
    && (forall i :: 0 <= i < |ops| ==> Step(w.c, w.vault, w.signed, states[i], ops[i], states[i + 1]))
    && (forall i :: 0 <= i < |states| ==> RootUnforgeable(w.c, states[i]))
  }

  // ----- The invariant -----

  ghost predicate ReceiptsBound(w: World, db: Db) {
    forall v :: v in db.receipts ==>
      v in db.versions && VerifiesRequest(db.receipts[v], RequestFor(w.c, w.vault, db.versions[v]), w.signed)
  }

  ghost predicate KeysAgree(w: World, s: State) {
    && s.stored.vault == w.vault && s.envelope.vault == w.vault
    && (s.rootKey.Some? ==> s.rootKey.value == w.root)
    && (forall seal :: seal in s.rootSeals ==> seal.plaintext == w.root)
  }

  ghost predicate Inv(w: World, s: State) {
    Valid(s.db) && UniqueNonces(s.db) && ReceiptsBound(w, s.db) && KeysAgree(w, s)
  }

  /** The key never changes: every envelope ever written holds the same root key. */
  lemma StepKeepsKeys(w: World, s: State, op: Op, s': State)
    requires KeysAgree(w, s) && RootUnforgeable(w.c, s) && Step(w.c, w.vault, w.signed, s, op, s')
    ensures KeysAgree(w, s')
  {
  }

  lemma PublishStep(w: World, db: Db, put: Put)
    requires Valid(db) && ReceiptsBound(w, db) && Publishable(put.plaintext, put.size)
    requires PublishTx(db, StoredRow(w.c, w.vault, w.root, put), StoredChunks(w.c, w.vault, put)).Some?
    ensures var d := PublishTx(db, StoredRow(w.c, w.vault, w.root, put), StoredChunks(w.c, w.vault, put)).value;
            Valid(d) && ReceiptsBound(w, d) && Preserves(db, d) && d.objects == db.objects[put.obj := put.secrets.version]
  {
    var row, chunks := StoredRow(w.c, w.vault, w.root, put), StoredChunks(w.c, w.vault, put);
    PublishKeepsValid(db, row, chunks);
    WriteVersionValid(db, row, chunks);
  }

  lemma StageStepKeeps(w: World, db: Db, put: Put, expected: U64)
    requires Valid(db) && ReceiptsBound(w, db) && Publishable(put.plaintext, put.size)
    requires StageTx(db, StoredRow(w.c, w.vault, w.root, put), StoredChunks(w.c, w.vault, put), expected).Some?
    ensures var d := StageTx(db, StoredRow(w.c, w.vault, w.root, put), StoredChunks(w.c, w.vault, put), expected).value;
            Valid(d) && ReceiptsBound(w, d) && Preserves(db, d) && d.objects == db.objects
  {
    StageKeepsValid(db, StoredRow(w.c, w.vault, w.root, put), StoredChunks(w.c, w.vault, put), expected);
  }

  lemma FinalizeStepKeeps(w: World, db: Db, row: StoredVersion, receipt: Receipt)
    requires Valid(db) && ReceiptsBound(w, db) && FinalizeTx(db, row, receipt).Some?
    requires row.versionId in db.versions && db.versions[row.versionId] == row
    requires VerifiesRequest(receipt, RequestFor(w.c, w.vault, row), w.signed)
    ensures var d := FinalizeTx(db, row, receipt).value;
            Valid(d) && ReceiptsBound(w, d) && Preserves(db, d) && d.objects == db.objects[row.objectId := row.versionId]
  {
    FinalizeKeepsValid(db, row, receipt);
  }

  /** No operation lets two chunks of a version share a nonce. */
  lemma StepKeepsNonces(w: World, s: State, op: Op, s': State)
    requires UniqueNonces(s.db) && Step(w.c, w.vault, w.signed, s, op, s')
    ensures UniqueNonces(s'.db)
  {
    if s'.db != s.db {
      match op
      case PutOp(put, _) =>
        VersionKeepsNonces(s.db, StoredRow(w.c, w.vault, s.rootKey.value, put), StoredChunks(w.c, w.vault, put));
      case StageOp(put, expected, _) =>
        VersionKeepsNonces(s.db, StoredRow(w.c, w.vault, s.rootKey.value, put), StoredChunks(w.c, w.vault, put));
      case FinalizeOp(row, receipt, _) =>
      case _ =>
    }
  }

  /** Every operation keeps the invariant and every committed version, chunk and receipt. */
  lemma StepKeeps(w: World, s: State, op: Op, s': State)
    requires Inv(w, s) && RootUnforgeable(w.c, s) && Step(w.c, w.vault, w.signed, s, op, s')
    ensures Inv(w, s') && Preserves(s.db, s'.db)
  {
    StepKeepsKeys(w, s, op, s');
    StepKeepsNonces(w, s, op, s');
    if s'.db != s.db {
      match op
      case PutOp(put, _) => PublishStep(w, s.db, put);
      case StageOp(put, expected, _) => StageStepKeeps(w, s.db, put, expected);
      case FinalizeOp(row, receipt, _) => FinalizeStepKeeps(w, s.db, row, receipt);
      case _ =>
    }
  }

  lemma {:induction false} RunKeeps(w: World, states: seq<State>, ops: seq<Op>, i: nat)
    requires IsRun(w, states, ops) && i < |states|
    ensures Inv(w, states[i])
  {
    if i == 0 {
    } else {
      RunKeeps(w, states, ops, i - 1);
      StepKeeps(w, states[i - 1], ops[i - 1], states[i]);
    }
  }

  lemma PreservesTransitive(a: Db, b: Db, c: Db)
    requires Preserves(a, b) && Preserves(b, c)
    ensures Preserves(a, c)
  {
  }

  lemma EachStepPreserves(w: World, states: seq<State>, ops: seq<Op>, k: nat)
    requires IsRun(w, states, ops) && k < |ops|
    ensures Preserves(states[k].db, states[k + 1].db)
  {
    RunKeeps(w, states, ops, k);
    StepKeeps(w, states[k], ops[k], states[k + 1]);
  }

  lemma {:induction false} PreservesChain(dbs: seq<Db>, i: nat, j: nat)
    requires i <= j < |dbs| && forall k :: 0 <= k < |dbs| - 1 ==> Preserves(dbs[k], dbs[k + 1])
    ensures Preserves(dbs[i], dbs[j])
    decreases j
  {
    if i == j {
    } else {
      PreservesChain(dbs, i, j - 1);
      var before, after := dbs[j - 1], dbs[(j - 1) + 1];
      assert Preserves(before, after);
      PreservesTransitive(dbs[i], before, after);
    }
  }

  lemma RunPreserves(w: World, states: seq<State>, ops: seq<Op>, i: nat, j: nat)
    requires IsRun(w, states, ops) && i <= j < |states|
    ensures Preserves(states[i].db, states[j].db)
  {
    var dbs := seq(|states|, k requires 0 <= k < |states| => states[k].db);
    forall k | 0 <= k < |dbs| - 1
      ensures Preserves(dbs[k], dbs[k + 1])
    {
      EachStepPreserves(w, states, ops, k);
    }
    PreservesChain(dbs, i, j);
  }

  /** In every reachable state the tables are consistent and the startup check passes. */
  lemma ReachableIsValid(w: World, states: seq<State>, ops: seq<Op>, i: nat)
    requires IsRun(w, states, ops) && i < |states|
    ensures Valid(states[i].db) && StartupCheck(states[i].db)
  {
    RunKeeps(w, states, ops, i);
    ValidPassesStartup(states[i].db);
  }

  /** In every reachable state no version has two chunks with one nonce. */
  lemma ReachableNoncesAreUnique(w: World, states: seq<State>, ops: seq<Op>, i: nat)
    requires IsRun(w, states, ops) && i < |states|
    ensures UniqueNonces(states[i].db)
  {
    RunKeeps(w, states, ops, i);
  }

  // ----- A stored version stays readable -----

  lemma {:induction false} RowsBelowFrame(
    chunks: map<(VersionId, U32), SealedRecord>, other: map<(VersionId, U32), SealedRecord>, version: VersionId, n: nat)
    requires n <= 0x1_0000_0000
    requires forall i: U32 :: (version, i) in chunks <==> (version, i) in other
    requires forall i: U32 :: (version, i) in chunks ==> chunks[(version, i)] == other[(version, i)]
    ensures RowsBelow(chunks, version, n) == RowsBelow(other, version, n)
    decreases n
  {
    if n == 0 {
    } else {
      RowsBelowFrame(chunks, other, version, n - 1);
      assert (version, n - 1) in chunks <==> (version, n - 1) in other;
    }
  }

  /** The row and the chunks of a put are in the tables, unaltered. */
  ghost predicate Holds(w: World, db: Db, put: Put)
    requires Publishable(put.plaintext, put.size)
  {
    && put.secrets.version in db.versions
    && db.versions[put.secrets.version] == StoredRow(w.c, w.vault, w.root, put)
    && Rows(db, put.secrets.version) == StoredChunks(w.c, w.vault, put)
  }

  lemma HoldsPreserved(w: World, db: Db, db': Db, put: Put)
    requires Publishable(put.plaintext, put.size) && Holds(w, db, put) && Preserves(db, db')
    ensures Holds(w, db', put)
  {
    var v := put.secrets.version;
    assert forall i: U32 :: (v, i) in db'.chunks ==> (v, i).0 in db.versions;
    RowsBelowFrame(db.chunks, db'.chunks, v, 0x1_0000_0000);
  }

  lemma WrittenHolds(w: World, db: Db, put: Put)
    requires Valid(db) && Publishable(put.plaintext, put.size)
    requires VersionTx(db, StoredRow(w.c, w.vault, w.root, put), StoredChunks(w.c, w.vault, put)).Some?
    ensures Holds(w, VersionTx(db, StoredRow(w.c, w.vault, w.root, put), StoredChunks(w.c, w.vault, put)).value, put)
  {
    var row, chunks := StoredRow(w.c, w.vault, w.root, put), StoredChunks(w.c, w.vault, put);
    var d := VersionTx(db, row, chunks).value;
    WriteVersionValid(db, row, chunks);
    InsertChunksAdds(InsertVersion(db, row).value, row.versionId, chunks);
    var records := seq(|chunks|, i requires 0 <= i < |chunks| => chunks[i].record);
    assert Complete(d, row.versionId);
    forall i: U32 | i < |records|
      ensures d.chunks[(row.versionId, i)] == records[i]
    {
      assert chunks[i].index == i;
    }
    RowsComplete(d, row.versionId, records);
    assert Rows(d, row.versionId) == chunks;
  }

  lemma HoldsIsAboutTwoTables(w: World, db: Db, db': Db, put: Put)
    requires Publishable(put.plaintext, put.size) && Holds(w, db, put)
    requires db'.versions == db.versions && db'.chunks == db.chunks
    ensures Holds(w, db', put)
  {
  }

  // ----- The active pointer -----

  predicate Targets(op: Op, obj: ObjectId) {
    || (op.PutOp? && op.put.obj == obj)
    || (op.FinalizeOp? && op.row.objectId == obj)
  }

  /** Step `k` publishes a version of the object: it is a put or a finalization, and it took effect. */
  ghost predicate Publishes(states: seq<State>, ops: seq<Op>, k: nat, obj: ObjectId)
    requires k < |ops| && |states| == |ops| + 1
  {
    Targets(ops[k], obj) && states[k + 1].db != states[k].db
  }

  ghost predicate Points(db: Db, obj: ObjectId, version: VersionId) {
    obj in db.objects && db.objects[obj] == version
  }

  lemma OtherStepKeepsPointer(w: World, s: State, op: Op, s': State, obj: ObjectId, version: VersionId)
    requires Inv(w, s) && RootUnforgeable(w.c, s) && Step(w.c, w.vault, w.signed, s, op, s')
    requires !Targets(op, obj) && Points(s.db, obj, version)
    ensures Points(s'.db, obj, version)
  {
    if s'.db != s.db {
      match op
      case PutOp(put, _) => PublishStep(w, s.db, put);
      case StageOp(put, expected, _) => StageStepKeeps(w, s.db, put, expected);
      case FinalizeOp(row, receipt, _) => FinalizeStepKeeps(w, s.db, row, receipt);
      case _ =>
    }
  }

  lemma {:induction false} PointerStays(
    w: World, states: seq<State>, ops: seq<Op>, i: nat, j: nat, obj: ObjectId, version: VersionId)
    requires IsRun(w, states, ops) && i <= j < |states|
    requires forall k :: i <= k < j ==> !Publishes(states, ops, k, obj)
    requires Points(states[i].db, obj, version)
    ensures Points(states[j].db, obj, version)
    decreases j
  {
    if i == j {
    } else {
      PointerStays(w, states, ops, i, j - 1, obj, version);
      if states[j].db != states[j - 1].db {
        assert !Publishes(states, ops, j - 1, obj);
        RunKeeps(w, states, ops, j - 1);
        OtherStepKeepsPointer(w, states[j - 1], ops[j - 1], states[j], obj, version);
      }
    }
  }

  // ----- Durability -----

  /** Once a put is held and active it reads back at any later unlocked state without a newer publication. */
  lemma HeldStaysReadable(w: World, states: seq<State>, ops: seq<Op>, i: nat, j: nat, put: Put)
    requires IsRun(w, states, ops) && i <= j < |states|
    requires Publishable(put.plaintext, put.size) && Opens(w.c, w.vault, w.root, put)
    requires Holds(w, states[i].db, put) && Points(states[i].db, put.obj, put.secrets.version)
    requires forall k :: i <= k < j ==> !Publishes(states, ops, k, put.obj)
    requires states[j].rootKey.Some?
    ensures Reading.Get(View(w.c, w.vault, states[j].rootKey.value, states[j].db, w.signed), put.obj) == Ok(put.plaintext)
  {
    RunKeeps(w, states, ops, j);
    RunPreserves(w, states, ops, i, j);
    HoldsPreserved(w, states[i].db, states[j].db, put);
    PointerStays(w, states, ops, i, j, put.obj, put.secrets.version);
    PutThenGet(View(w.c, w.vault, w.root, states[j].db, w.signed), put);
  }

  /**
   Durability of a put. After a put has succeeded, whatever locks, unlocks, passphrase rotations,
   restarts, reads, stagings, publications of other objects, and puts and finalizations of this one
   that fail without effect follow, the object reads back as it was put whenever the vault is unlocked.
   */
  lemma PutIsDurable(w: World, states: seq<State>, ops: seq<Op>, i: nat, j: nat, put: Put)
    requires IsRun(w, states, ops) && i < j < |states|
    requires ops[i] == PutOp(put, true) && Publishable(put.plaintext, put.size) && Opens(w.c, w.vault, w.root, put)
    requires forall k :: i < k < j ==> !Publishes(states, ops, k, put.obj)
    requires states[j].rootKey.Some?
    ensures Reading.Get(View(w.c, w.vault, states[j].rootKey.value, states[j].db, w.signed), put.obj) == Ok(put.plaintext)
  {
    RunKeeps(w, states, ops, i);
    assert Step(w.c, w.vault, w.signed, states[i], ops[i], states[i + 1]);
    var db := states[i].db;
    PublishStep(w, db, put);
    WrittenHolds(w, db, put);
    var row, chunks := StoredRow(w.c, w.vault, w.root, put), StoredChunks(w.c, w.vault, put);
    HoldsIsAboutTwoTables(w, VersionTx(db, row, chunks).value, states[i + 1].db, put);
    HeldStaysReadable(w, states, ops, i + 1, j, put);
  }

  /** Durability of a witnessed put: staged at `a`, finalized at `b` with a verified receipt. */
  lemma WitnessedPutIsDurable(w: World, states: seq<State>, ops: seq<Op>, a: nat, b: nat, j: nat, put: Put)
    requires IsRun(w, states, ops) && a < b < j < |states|
    requires Publishable(put.plaintext, put.size) && Opens(w.c, w.vault, w.root, put)
    requires ops[a].StageOp? && ops[a].put == put && ops[a].ok
    requires ops[b].FinalizeOp? && ops[b].row.versionId == put.secrets.version && ops[b].ok
    requires forall k :: b < k < j ==> !Publishes(states, ops, k, put.obj)
    requires states[j].rootKey.Some?
    ensures Reading.Get(View(w.c, w.vault, states[j].rootKey.value, states[j].db, w.signed), put.obj) == Ok(put.plaintext)
  {
    StagedHolds(w, states, ops, a, put);
    RunPreserves(w, states, ops, a + 1, b);
    HoldsPreserved(w, states[a + 1].db, states[b].db, put);
    RunKeeps(w, states, ops, b);
    assert Step(w.c, w.vault, w.signed, states[b], ops[b], states[b + 1]);
    FinalizeStepKeeps(w, states[b].db, ops[b].row, ops[b].receipt);
    HoldsPreserved(w, states[b].db, states[b + 1].db, put);
    HeldStaysReadable(w, states, ops, b + 1, j, put);
  }

  lemma StagedHolds(w: World, states: seq<State>, ops: seq<Op>, a: nat, put: Put)
    requires IsRun(w, states, ops) && a < |ops|
    requires Publishable(put.plaintext, put.size) && ops[a].StageOp? && ops[a].put == put && ops[a].ok
    ensures Holds(w, states[a + 1].db, put)
  {
    RunKeeps(w, states, ops, a);
    assert Step(w.c, w.vault, w.signed, states[a], ops[a], states[a + 1]);
    var row, chunks := StoredRow(w.c, w.vault, w.root, put), StoredChunks(w.c, w.vault, put);
    WrittenHolds(w, states[a].db, put);
    HoldsIsAboutTwoTables(w, VersionTx(states[a].db, row, chunks).value, states[a + 1].db, put);
  }

  /** A vault can be unlocked with the passphrase it was created with. */
  lemma CreatedEnvelopeOpens(c: Crypto, vault: VaultId, passphrase: Format.Bytes, root: Bytes32, salt: Bytes16, nonce: Nonce)
    requires Correct(c)
    ensures var s := Initial(c, vault, passphrase, root, salt, nonce);
            OpenRootKey(c, passphrase, s.stored) == Ok(root) && OpenRootKey(c, passphrase, s.envelope) == Ok(root)
  {
  }

  /** Rotation keeps the root key: the new passphrase opens the new envelope to the same key. */
  lemma RotationKeepsRootKey(w: World, states: seq<State>, ops: seq<Op>, i: nat)
    requires IsRun(w, states, ops) && i < |ops| && ops[i].RotateOp? && ops[i].ok && Correct(w.c)
    ensures OpenRootKey(w.c, ops[i].replacement, states[i + 1].envelope) == Ok(w.root)
    ensures states[i + 1].stored == states[i + 1].envelope && states[i + 1].db == states[i].db
  {
    RunKeeps(w, states, ops, i);
    RunKeeps(w, states, ops, i + 1);
    assert Step(w.c, w.vault, w.signed, states[i], ops[i], states[i + 1]);
    var key := OpenRootKey(w.c, ops[i].current, states[i].envelope).value;
    assert RootSeal(w.c, ops[i].current, states[i].envelope, key) in states[i].rootSeals;
  }
}
