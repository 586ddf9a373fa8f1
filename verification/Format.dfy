/** Identifiers, records and errors shared by every part of the VLT/1 model. */
module Format {

  datatype Option<+T> = None | Some(value: T)

  datatype Result<+T> = Ok(value: T) | Err(error: VaultError) {
    predicate IsFailure() {
      Err?
    }

    function PropagateFailure<U>(): Result<U>
      requires Err?
    {
      Err(error)
    }

    function Extract(): T
      requires Ok?
    {
      value
    }
  }

  /** The error categories, without their diagnostic texts. */
  datatype VaultError =
    | Locked
    | UnlockFailed
    | Authentication
    | InvalidFormat
    | Invariant
    | NotFound
    | StorageError
    | InvalidInput
    | WitnessUnavailable
    | WitnessConflict
  {
    /** Errors after which a vault instance drops its root key. */
    predicate RequiresLock() {
      Authentication? || InvalidFormat? || Invariant? || StorageError? || WitnessUnavailable? || WitnessConflict?
    }
  }

  /**
   How a SQLite transaction may go wrong: a statement fails and the transaction rolls back, or the
   commit reports a failure after which the change may or may not have become durable.
   */
  datatype Fault = NoFault | StatementFails(at: nat) | CommitFails(durable: bool)

  type Byte = b: int | 0 <= b < 0x100
  type U32 = n: int | 0 <= n < 0x1_0000_0000
  type U64 = n: int | 0 <= n < 0x1_0000_0000_0000_0000

  /** SQLite integers are signed: a larger unsigned value is refused on insertion. */
  const I64_MAX: nat := 0x7fff_ffff_ffff_ffff

  type Bytes = seq<Byte>
  /** A byte vector, whose length fits a 64-bit machine word. */
  type Buffer = b: Bytes | |b| < 0x1_0000_0000_0000_0000
  type Nonce = b: Bytes | |b| == 12 witness seq(12, _ => 0)
  type Bytes16 = b: Bytes | |b| == 16 witness seq(16, _ => 0)
  type Bytes32 = b: Bytes | |b| == 32 witness seq(32, _ => 0)

  type VaultId = Bytes16
  type ObjectId = Bytes16
  type VersionId = Bytes16

  const FORMAT_VERSION: U32 := 1

  /** An AEAD record: a 96-bit nonce and a ciphertext ending in its tag. */
  datatype SealedRecord = SealedRecord(nonce: Nonce, ciphertext: Buffer)

  datatype EncryptedChunk = EncryptedChunk(index: U32, record: SealedRecord)

  /** Metadata that binds a version to its encrypted contents. */
  datatype Manifest = Manifest(
    formatVersion: U32,
    objectId: ObjectId,
    versionId: VersionId,
    plaintextLen: U64,
    chunkSize: U32,
    chunkCount: U32,
    chunkDigest: Bytes32)

  /** Every error drops the key except those that blame the caller: wrong state, passphrase, object or input. */
  lemma LockingErrors(e: VaultError)
    ensures e.RequiresLock() <==> e !in {Locked, UnlockFailed, NotFound, InvalidInput}
  {
  }

  /** A list without repetitions is as long as the set of its elements. */
  lemma {:induction false} DistinctCount<T>(list: seq<T>, elements: set<T>)
    requires forall x :: x in list <==> x in elements
    requires forall i, j :: 0 <= i < j < |list| ==> list[i] != list[j]
    ensures |list| == |elements|
  {
    if list == [] {
      assert elements == {};
    } else {
      var n := |list| - 1;
      var init := list[..n];
      forall x
        ensures x in init <==> x in elements - {list[n]}
      {
        if x in elements && x != list[n] {
          var i :| 0 <= i < |list| && list[i] == x;
          assert init[i] == x;
        }
      }
      DistinctCount(init, elements - {list[n]});
    }
  }
}
