# VLT/1 in Dafny

A model of the VLT/1 encrypted vault and its freshness witness, with proofs about whole runs of the
system. A vault stores immutable, chunk-encrypted versions of objects in SQLite and can publish them
through an independently operated witness, which keeps one signed head per object. The project
follows the program's own parts:

| file | part of the system |
|---|---|
| `Format.dfy`, `BigEndian.dfy` | identifiers, records, errors, integer layouts |
| `ManifestCodec.dfy` | the deterministic CBOR Manifest codec (section 4.2.1 of RFC 8949) |
| `CborMeaning.dfy` | what Manifest bytes mean to any reader of CBOR (section 3 of RFC 8949) |
| `Transcripts.dfy`, `MessageBuilders.dfy` | associated data, signed messages and digest inputs, byte for byte |
| `Crypto.dfy` | the cryptographic primitives as function values |
| `Storage.dfy` | the SQLite tables, their constraints and transactions |
| `StreamTransport.dfy` | chunking, stream framing, the daemon's stream reader and writer |
| `Publishing.dfy` | the batch writer and the streaming writer of a version |
| `Reading.dfy`, `ReadIntegrity.dfy` | the two-pass verified read and what it guarantees |
| `ReadHypotheses.dfy` | the hypotheses of the read theorems hold together |
| `Vault.dfy`, `VaultRuns.dfy` | the vault instance and durability over its runs |
| `Witness.dfy`, `Provider.dfy` | the witness service, and the in-memory provider that refines to it |
| `Protocol.dfy`, `WitnessedVault.dfy` | witnessed publication across the two stores, and recovery |
| `Freshness.dfy` | verification against challenge-bound heads, rollback detection |
| `Served.dfy` | verification in witnessed runs of genuine puts |
| `Daemon.dfy` | connection permits, the long-operation flag and the mutex order |

How the outside world enters the model:

- **Transactions.** A transaction is one update of the tables or none. A `Fault` says at which
  statement it fails, or that the commit reports a failure and whether it had become durable.
- **Encryption.** `Crypto` is a record of functions. `Correct` says that opening inverts sealing, `Opens`
  that the records of one put open again. `Authentic` is about a database: whatever record in its tables
  opens with a key of this vault was sealed like that by one of the puts. It says nothing about other
  records or other keys. `ReadHypotheses.ReadTheoremsApply` shows that all hypotheses of the read
  theorems hold together for a correct cipher, whatever the puts. `RootUnforgeable` says that the loaded
  root-key envelope opens only if it was sealed by creation or rotation.
- **Hashing.** SHA-256 is a function. The one place that needs it to be injective says so on the rows at
  hand and the put they claim to belong to (`NoDigestCollision`).
- **Signatures.** A signature verifies exactly when its message is in the log of signed messages. A
  signature made in a transaction that does not commit never leaves the service and is not in the log.
  `Freshness.VerifiedReceipt` and `Freshness.VerifiedHead` carry this over to signatures on bytes.
- **Randomness.** Version identifiers, keys, nonces and challenges are inputs. Freshness is stated where
  it is needed: `DistinctVersions` for puts, `FreshChallenge` for challenges.
- **Network.** Issue messages form a set that only grows, from which the witness may process any
  message at any time and any number of times; a client may accept any receipt ever signed.

Where code and documentation disagree the model follows the code. `docs/WITNESS_PROTOCOL.md:26` says
that repeating an issue request returns the original receipt; the service compares only version,
commitment and `epoch > expected`. `Witness.IssueIdempotence` gives the exact condition and
`Witness.ReplayIsNotAlwaysTheOriginal` a history in which the repeated request gets a later receipt.
Likewise the bytes of a head without the presence flag do not determine its version field:
`Transcripts.WireHeadExact` has the exact condition, `Transcripts.AbsentHeadAmbiguous` an example.
The in-memory provider has one counter for all vaults: `Provider.ProviderAgreesExactly` has the exact
condition under which it agrees with the service, `Provider.TwoVaultsDiffer` two requests for which it
does not.

## Model

| member | source | states |
|---|---|---|
| `Protocol.CrossStoreInvariant` | crates/vlt1-core/src/vault.rs:479-529 | over every run with lost, repeated, delayed and reordered messages, failing commits and crashes: at most one staged version; none while unlocked between requests; every head is the local active receipt, or the receipt of the staged version whose expected epoch is the local one |
| `Protocol.RecoveryConverges` | crates/vlt1-core/src/vault.rs:509-529 | in every reachable state the request of a staged version never conflicts, gets the receipt already issued if there is one, fails if and only if none was issued and the epochs are exhausted; finalization always applies and then all heads agree |
| `Protocol.ServedHeadsMatch` | crates/vlt1-core/src/vault.rs:547-562 | an unlocked vault between requests has every witness head equal to its local receipt |
| `Protocol.StepKeeps` | crates/vlt1-core/src/vault.rs:479-529 | each step of vault, witness and network keeps the inductive invariant of the two stores |
| `Protocol.DeliverKeeps` | crates/vlt1-witness/src/lib.rs:164-216 | any message ever sent, processed at any later time, keeps heads and signatures in step with the vault's tables |
| `Protocol.SettledMessage` | crates/vlt1-witness/src/lib.rs:178-193 | a late message for a finalized version changes nothing at the witness |
| `Protocol.StagedHead` | crates/vlt1-core/src/storage.rs:225-252 | the head of a staged object is still the local receipt with the expected epoch, or already the acknowledgement of the staged version |
| `Protocol.FinalizeSucceeds` | crates/vlt1-core/src/storage.rs:280-326 | an accepted receipt never violates a uniqueness constraint of the receipt table |
| `Protocol.AcceptFinalizes` | crates/vlt1-core/src/storage.rs:280-326 | finalizing with any signed receipt that passes the client's checks keeps the invariant, empties the staging table and makes all heads agree |
| `WitnessedVault.VaultParty` | crates/vlt1-core/src/witness.rs:51-62 | the protocol's requests are those that a read checks stored receipts against |
| `Reading.ReceiptBindsManifest` | crates/vlt1-core/src/witness.rs:863-879 | a receipt acknowledges one Manifest record: rows that share it share identifiers, nonce and ciphertext |
| `Reading.SharedReceiptSameManifest` | crates/vlt1-core/src/vault.rs:690-700 | two databases that read under the same receipt hold the same Manifest record |
| `WitnessedVault.WitnessedVault.PutWithWitness` | crates/vlt1-core/src/vault.rs:487-507 | on any database its untroubled outcome is `WitnessedPut`; from a valid state it keeps the cross-store invariant under any failure; success means an active acknowledged version and agreeing heads; failure after staging locks; a lost request or answer is reported as unavailable; without failures it succeeds if and only if the version can be stored and an epoch is left |
| `WitnessedVault.PutExactly` | crates/vlt1-core/src/vault.rs:487-507 | the condition for that, so that an object can be put again and again |
| `WitnessedVault.CheckedExactly` | crates/vlt1-core/src/witness.rs:623-636 | of any answers, honest or not, exactly the newer acknowledgements are accepted, with the error of each refusal |
| `WitnessedVault.WitnessedVault.UnlockAndRecover` | crates/vlt1-daemon/src/lib.rs:384-386 | recovery after unlocking keeps the invariant; success reports how many versions were staged and leaves nothing staged and all heads agreeing, failure locks; with a reachable witness it always succeeds |
| `WitnessedVault.WitnessedVault.RecoverAll` | crates/vlt1-core/src/vault.rs:509-529 | the recovery loop settles every listed version, or locks |
| `WitnessedVault.WitnessedVault.Settle` | crates/vlt1-core/src/vault.rs:515-525 | issuing and finalizing one staged version: success makes its receipt the active one, failure locks and keeps the invariant |
| `WitnessedVault.WitnessedVault.StageOne` | crates/vlt1-core/src/vault.rs:493-501 | staging with the epoch of the active receipt makes the version the only work to do |
| `WitnessedVault.WitnessedVault.IssueReceipt` | crates/vlt1-core/src/witness.rs:623-636 | an accepted answer is signed, acknowledges the request and has a larger epoch; otherwise the error of the failing check |
| `WitnessedVault.WitnessedVault.Ask` | crates/vlt1-core/src/witness.rs:584-596 | lost requests, lost answers and failing commits at the witness keep the invariant |
| `WitnessedVault.WitnessedVault.FinishOne` | crates/vlt1-core/src/storage.rs:280-326 | commits an accepted receipt; cannot fail unless the database does |
| `WitnessedVault.WitnessedVault.PendingWitnessPublications` | crates/vlt1-core/src/storage.rs:255-277 | lists every staged version exactly once with its epoch |
| `Witness.WitnessService.IssueWire` | crates/vlt1-witness/src/lib.rs:164-216 | one conditional issue is atomic: it returns and stores what `Issue` says, and a reported failure leaves the tables alone unless its commit became durable |
| `Witness.WitnessService.HeadWire` | crates/vlt1-witness/src/lib.rs:223-239 | signs the stored head bound to the challenge and changes no table |
| `Witness.ForkFreedom` | crates/vlt1-witness/src/lib.rs:164-216 | for every sequence of requests from any clients: one chain per object, epochs of a vault strictly increase below the counter, the stored head is the newest link, only granted receipts are signed |
| `Witness.IssueAnswersFromHistory` | crates/vlt1-witness/src/lib.rs:164-216 | the answer to any request, error cases included, as a function of the receipts issued before; a new receipt carries the next epoch of its vault |
| `Witness.EpochsAreConsecutive` | crates/vlt1-witness/src/lib.rs:283-307 | the next epoch is one more than the number of receipts issued for the vault |
| `Witness.HeadAnswersFromHistory` | crates/vlt1-witness/src/lib.rs:223-239 | a head request gets the newest receipt of the object or its absence |
| `Witness.IssueIdempotence` | crates/vlt1-witness/src/lib.rs:178-193 | repeating a granted request never changes the witness; it gets its own receipt if and only if nothing newer was issued for the object |
| `Witness.ReplayIsNotAlwaysTheOriginal` | docs/WITNESS_PROTOCOL.md:26 | a history after which the repeated request is answered with a later receipt than the original |
| `Witness.ClientAcceptsHonestWitness` | crates/vlt1-core/src/witness.rs:623-636 | the client's checks on signature, binding and epoch never reject an honest answer |
| `Witness.StaleCopyConflicts` | crates/vlt1-witness/src/lib.rs:185-193 | a request with an epoch other than the newest is refused and the witness stays as it was |
| `Provider.InMemoryTestProvider.IssueReceipt` | crates/vlt1-core/src/witness.rs:700-732 | updates the list of heads and the counter as `IssueInList` says |
| `Provider.InMemoryTestProvider.ObjectHead` | crates/vlt1-core/src/witness.rs:734-748 | returns the challenge-bound head of the list entry |
| `Provider.InMemoryTestProvider.Find` | crates/vlt1-core/src/witness.rs:692-697 | finds the first list entry of an object |
| `Provider.ProviderAgreesExactly` | crates/vlt1-core/src/witness.rs:692-748 | on any request sequence of any vaults, provider and service give the same receipts, conflicts and heads if and only if all issued receipts are for one vault and no request meets an exhausted counter |
| `Provider.ProviderRefinesService` | crates/vlt1-core/src/witness.rs:692-748 | in particular on the requests of one vault, where the list has one entry per object |
| `Provider.RunRepresents` | crates/vlt1-core/src/witness.rs:665-748 | while only one vault gets receipts, the list holds what the tables hold and the other counters have not moved |
| `Provider.SecondVaultDiffers` | crates/vlt1-core/src/witness.rs:700-732 | the first receipt for a second vault gets another epoch from the list than from the service |
| `Provider.TwoVaultsDiffer` | crates/vlt1-core/src/witness.rs:665-748 | requests of two vaults for which provider and service differ |
| `Freshness.VerifyActiveObjectsWithWitness` | crates/vlt1-core/src/vault.rs:542-568 | the first object that does not pass decides the error; success counts the objects and means that each was newest since verification began |
| `Freshness.VerifyObject` | crates/vlt1-core/src/vault.rs:548-564 | receipt, challenge-bound head, comparison and read, with the error of the first that fails |
| `Freshness.VerifyEach` | crates/vlt1-core/src/vault.rs:548-566 | the loop stops at the first object that does not pass, with its error |
| `Freshness.ActiveObjectIds` | crates/vlt1-core/src/storage.rs:393-408 | lists every active object once |
| `Freshness.ChallengeFreshness` | crates/vlt1-core/src/witness.rs:638-658 | whatever heads the network replays, an accepted present head was held by the witness between drawing the challenge and accepting |
| `Freshness.PassingIsNewest` | crates/vlt1-core/src/vault.rs:548-564 | an object of an arbitrary database that passes had the newest issued receipt at some moment of the exchange |
| `Freshness.VerifiedSnapshotWasNewest` | crates/vlt1-core/src/vault.rs:542-568 | the same for every active object of a snapshot whose verification succeeds |
| `Freshness.RolledBackCopyIsDetected` | crates/vlt1-core/src/vault.rs:555-562 | a copy whose receipt was superseded before verification began never passes |
| `Freshness.PassingHoldsAcknowledgedManifest` | crates/vlt1-core/src/vault.rs:548-564 | a passing object holds the very Manifest record that the newest receipt of that moment was issued for |
| `Freshness.HonestAnswerDecides` | crates/vlt1-core/src/vault.rs:549-564 | the exact verdict on an honest answer: conflict without the newest receipt, and with it the outcome of the read |
| `WitnessedVault.StaleCopyCannotPublish` | crates/vlt1-core/src/vault.rs:479-507 | on any database whose active receipt is not the newest issued, a put of a new version is refused with a conflict, locks, leaves the version staged and the witness unchanged |
| `WitnessedVault.SupersededCopyIsStale` | crates/vlt1-core/src/vault.rs:493-496 | a copy whose receipt has been superseded is such a database |
| `WitnessedVault.EmptyCopyIsStale` | crates/vlt1-core/src/vault.rs:493-496 | and so is one without a receipt for an object that has been published |
| `WitnessedVault.UnverifiedReceiptStopsPut` | crates/vlt1-core/src/vault.rs:493-496 | a stored receipt that does not verify stops a put before it touches anything |
| `Freshness.HonestAnswerAgrees` | crates/vlt1-core/src/vault.rs:555-562 | in every served state of a witnessed run an honest answer agrees with the local receipt |
| `Served.ServedObjectsPass` | crates/vlt1-core/src/vault.rs:542-568 | in every served state of a witnessed run of genuine puts, every active object passes verification against an honest answer to any challenge |
| `Served.RunHeld` | crates/vlt1-core/src/vault.rs:570-654 | in every state of such a run every version in the tables is held as it was prepared |
| `Freshness.VerifiedReceipt` | crates/vlt1-core/src/witness.rs:226-228 | receipt bytes verify if and only if that receipt was signed |
| `Freshness.VerifiedHead` | crates/vlt1-core/src/witness.rs:284-314 | a present head whose bytes verify was signed as it stands |
| `Freshness.SignedHeads` | crates/vlt1-core/src/witness.rs:318-352 | every signed head was the stored head at the moment of its request |
| `ReadIntegrity.FailClosedRead` | crates/vlt1-core/src/vault.rs:662-754 | over any database whose authentic records come from the puts, in whatever places, a read that succeeds returns exactly the bytes put as that object and version, under the columns that were put |
| `ReadIntegrity.AuthenticReadErrors` | crates/vlt1-core/src/vault.rs:662-754 | without forged records a read never meets a malformed one |
| `ReadIntegrity.PartialReadIsPrefix` | crates/vlt1-core/src/vault.rs:722-745 | whatever a read has delivered when it stops is a prefix of the plaintext that was put |
| `ReadIntegrity.FirstPassDecides` | crates/vlt1-core/src/vault.rs:702-721 | once the index and digest pass succeeds, no chunk can fail and the read returns the plaintext that was put |
| `ReadIntegrity.PutThenGet` | crates/vlt1-core/src/vault.rs:662-754 | an intact active version reads back |
| `ReadIntegrity.HeaderIsGenuine` | crates/vlt1-core/src/vault.rs:668-700 | a header that opens carries the key and Manifest of a put with the same identifiers |
| `ReadIntegrity.ChunkIsGenuine` | crates/vlt1-core/src/vault.rs:724-737 | any row of the tables that opens at an index is that piece of the plaintext |
| `ReadHypotheses.ReadTheoremsApply` | crates/vlt1-core/src/vault.rs:662-754 | for any puts and any one of them there is a vault with a correct cipher that meets every hypothesis of the read theorems and returns that put |
| `ReadHypotheses.IdealIsAuthentic` | crates/vlt1-core/src/crypto.rs:302-338 | over any arrangement of records of the puts, a correct cipher that binds key and associated data opens only what they sealed |
| `ReadHypotheses.IdealIsCorrect` | crates/vlt1-core/src/crypto.rs:302-338 | the opening of that cipher inverts its sealing |
| `ReadIntegrity.CorrectOpens` | crates/vlt1-core/src/crypto.rs:302-338 | a correct cipher opens every record of a put |
| `ReadIntegrity.StoredFormat` | crates/vlt1-core/src/vault.rs:570-654 | record by record: which key, nonce and associated data, and a Manifest map that states the version's facts |
| `Reading.GetToWriter` | crates/vlt1-core/src/vault.rs:662-754 | delivers what `Get` returns; a failure delivers nothing unless header and first pass succeeded, and then whole verified chunks |
| `Reading.EmitChunks` | crates/vlt1-core/src/vault.rs:723-751 | the sink receives exactly the opened chunks, in order, up to the first failure |
| `Reading.CheckLayout` | crates/vlt1-core/src/vault.rs:702-721 | accepts exactly rows indexed from zero, of the announced number and digest |
| `Reading.OpenHeader` | crates/vlt1-core/src/vault.rs:662-700 | the stages before the chunks, with the error of the first that fails |
| `Reading.NotFoundExactly` | crates/vlt1-core/src/storage.rs:460-472 | a read answers that there is nothing if and only if the object has no active version |
| `Reading.ActiveReceiptExactly` | crates/vlt1-core/src/storage.rs:411-457 | the receipt that stands for an object is that of its active version, and only if its signature verifies |
| `Reading.OtherReadErrorsLock` | crates/vlt1-core/src/error.rs:51-64 | every other failure of a read is one after which the vault locks |
| `Format.LockingErrors` | crates/vlt1-core/src/error.rs:51-64 | every error drops the key except wrong state, passphrase, object or input |
| `Reading.ReadHasChecked` | crates/vlt1-core/src/vault.rs:792-808 | over any database a successful read has matched columns, length, Manifest and stored receipt |
| `Reading.ExpectedLengthsAddUp` | crates/vlt1-core/src/vault.rs:810-823 | if the last index is accepted all are, the lengths sum to the plaintext length, and nothing leaves 64 bits |
| `Reading.ExpectedLengthsAreReal` | crates/vlt1-core/src/vault.rs:810-823 | for a published Manifest each expected length is the real one |
| `Reading.FinalLengthCheck` | crates/vlt1-core/src/vault.rs:745-749 | whatever was opened, the last check of a read can only fail for a Manifest without chunks |
| `Reading.PiecesHaveExpectedLengths` | crates/vlt1-core/src/vault.rs:733-737 | over any records every delivered piece has the length that the Manifest gives its index |
| `Publishing.PrepareVersion` | crates/vlt1-core/src/vault.rs:570-654 | accepts exactly publishable plaintexts of an unlocked vault and returns `Published` of them |
| `Publishing.SealAll` | crates/vlt1-core/src/vault.rs:595-614 | the encryption loop seals every piece in order under its own associated data |
| `Publishing.PutFromReader` | crates/vlt1-core/src/vault.rs:385-477 | whatever way the reader splits or interrupts: success leaves the database of the batch writer on the whole input, failure leaves it alone up to a durable commit, and both writers accept the same inputs |
| `Publishing.StreamVersion` | crates/vlt1-core/src/vault.rs:396-473 | the same for the transaction of a streaming put |
| `Publishing.StreamedEqualsBatch` | crates/vlt1-core/src/storage.rs:812-846 | placeholder, chunks and final update amount to one batch publication |
| `Publishing.TransferAll` | crates/vlt1-core/src/vault.rs:418-452 | the read loop appends the exact pieces of the input, or reports why it stopped |
| `Publishing.TransferOne` | crates/vlt1-core/src/vault.rs:419-451 | one round of the read loop appends the next piece of the input, stops at its end, or fails |
| `Publishing.CompleteStream` | crates/vlt1-core/src/vault.rs:455-473 | sealing the Manifest of what was transferred and finishing amounts to the batch publication of the input |
| `Publishing.ChunkCount` | crates/vlt1-core/src/vault.rs:584-588 | the number of pieces is the rounded-up quotient |
| `Publishing.PublishableFits` | crates/vlt1-core/src/vault.rs:589-593 | accepted plaintexts stay within every integer bound of the formats |
| `Publishing.PublishableExactly` | crates/vlt1-core/src/vault.rs:577-593 | exactly the plaintexts of at most 2^24 pieces of a legal size are accepted |
| `Publishing.PublishedExactly` | crates/vlt1-core/src/storage.rs:605-618 | a prepared version can be published if and only if its identifier is new and its nonces differ |
| `Storage.Storage.Publish` | crates/vlt1-core/src/storage.rs:662-700 | applies `PublishTx` or nothing, under a fault at any statement or at the commit |
| `Storage.Storage.WriteVersion` | crates/vlt1-core/src/storage.rs:728-786 | the version row and its chunks are all inserted, or the transaction is given up |
| `Storage.Storage.StageWitnessPublication` | crates/vlt1-core/src/storage.rs:225-252 | applies `StageTx` or nothing |
| `Storage.Storage.FinalizeWitnessPublication` | crates/vlt1-core/src/storage.rs:280-326 | applies `FinalizeTx` or nothing |
| `Storage.Storage.BeginStreamingPublication` | crates/vlt1-core/src/storage.rs:192-218 | opens a transaction holding exactly the placeholder row |
| `Storage.StreamingPublication.AppendChunk` | crates/vlt1-core/src/storage.rs:791-809 | accepts only the next index, and counts chunks and bytes |
| `Storage.StreamingPublication.Finish` | crates/vlt1-core/src/storage.rs:812-846 | completes the row, moves the pointer and commits, or changes nothing |
| `Storage.WriteVersionValid` | crates/vlt1-core/src/storage.rs:728-786 | writing a version keeps the tables consistent and every committed version, chunk and receipt |
| `Storage.PublishKeepsValid` | crates/vlt1-core/src/storage.rs:662-700 | publication keeps the tables consistent and moves exactly one pointer |
| `Storage.StageKeepsValid` | crates/vlt1-core/src/storage.rs:225-252 | staging keeps the tables consistent and moves no pointer |
| `Storage.FinalizeKeepsValid` | crates/vlt1-core/src/storage.rs:280-326 | finalization keeps the tables consistent and moves exactly one pointer |
| `Storage.RowsComplete` | crates/vlt1-core/src/storage.rs:527-554 | a visit of a complete version sees its chunks in index order |
| `Storage.PublishExactly` | crates/vlt1-core/src/storage.rs:662-700 | publication applies if and only if the version is new, its columns are legal, its chunks complete and their nonces distinct |
| `Storage.StageExactly` | crates/vlt1-core/src/storage.rs:225-252 | staging applies if and only if publication would and the expected epoch is legal |
| `Storage.FinalizeExactly` | crates/vlt1-core/src/storage.rs:280-326 | finalization applies if and only if the version is staged, without receipt, and the epoch unused |
| `Storage.FinishExactly` | crates/vlt1-core/src/storage.rs:812-846 | a streamed version is committed if and only if every appended chunk is counted and the row is its own |
| `Storage.VersionKeepsNonces` | crates/vlt1-core/src/storage.rs:609-619 | no transaction lets two chunks of a version share a nonce |
| `Storage.StartupExactly` | crates/vlt1-core/src/storage.rs:332-376 | the startup check refuses exactly the databases with a row that names a missing version or another object's |
| `Vault.Vault.Put` | crates/vlt1-core/src/vault.rs:144-153 | the put transition, with the lock after a failure that demands it; without a fault a publishable plaintext is put if and only if the identifier is new and the chunk nonces differ |
| `Vault.Vault.PutFromReader` | crates/vlt1-core/src/vault.rs:180-189 | the same transition, and on a healthy reader the same condition, as a put of everything the reader would deliver |
| `Vault.Vault.Stage` | crates/vlt1-core/src/vault.rs:479-501 | the staging transition of a witnessed put, with the epoch of the verified active receipt |
| `Vault.Vault.Finalize` | crates/vlt1-core/src/vault.rs:502-506 | the finalization transition, only with a receipt that verifies against the request |
| `Vault.Vault.Get` | crates/vlt1-core/src/vault.rs:339-343 | delivers the verified plaintext or the error of the read, refuses when locked, keeps the key when the object is absent and drops it after any other failure |
| `Vault.Vault.RotatePassphrase` | crates/vlt1-core/src/vault.rs:352-370 | replaces the envelope durably and locks, or keeps the loaded envelope |
| `Vault.Vault.Unlock` | crates/vlt1-core/src/vault.rs:98-103 | succeeds exactly when the passphrase opens the envelope |
| `Vault.Vault.Reopen` | crates/vlt1-core/src/vault.rs:81-90 | starts locked with the stored envelope, exactly when the startup check passes |
| `Vault.Vault.Create` | crates/vlt1-core/src/vault.rs:62-73 | a fresh vault is unlocked with empty tables, and its envelope seals the root key it works with |
| `VaultRuns.PutIsDurable` | crates/vlt1-core/src/vault.rs:372-383 | after a successful put, whatever locks, unlocks, rotations, restarts, stagings, other publications and failed puts or finalizations follow, the object reads back until another version of it takes effect |
| `VaultRuns.WitnessedPutIsDurable` | crates/vlt1-core/src/vault.rs:479-507 | the same for a staged and finalized put |
| `VaultRuns.ReachableIsValid` | crates/vlt1-core/src/storage.rs:332-376 | in every reachable state the tables are consistent and the startup check passes |
| `VaultRuns.ReachableNoncesAreUnique` | crates/vlt1-core/src/storage.rs:617 | in every reachable state no version has two chunks with one nonce |
| `VaultRuns.CreatedEnvelopeOpens` | crates/vlt1-core/src/crypto.rs:245-281 | the passphrase of creation opens the envelope to the root key |
| `VaultRuns.RunPreserves` | crates/vlt1-core/src/storage.rs:662-700 | committed versions, chunks and receipts never change over any run |
| `VaultRuns.RotationKeepsRootKey` | crates/vlt1-core/src/vault.rs:352-370 | the new passphrase opens the new envelope to the same root key, and no table changes |
| `VaultRuns.StepKeepsKeys` | crates/vlt1-core/src/crypto.rs:245-281 | every envelope ever written holds the one root key of the vault |
| `ManifestCodec.EncodeManifest` | crates/vlt1-core/src/cde.rs:21-33 | writes the canonical encoding |
| `ManifestCodec.PutMajorUint` | crates/vlt1-core/src/cde.rs:136-154 | writes the unique shortest head |
| `ManifestCodec.HeadIsUniqueShortest` | crates/vlt1-core/src/cde.rs:251-263 | among all heads of a value the written one is the only shortest |
| `ManifestCodec.DecodeManifest` | crates/vlt1-core/src/cde.rs:41-122 | accepts exactly the encodings: a result re-encodes to the input, and an error means no Manifest does |
| `ManifestCodec.DecodeField` | crates/vlt1-core/src/cde.rs:58-104 | reads one keyed value, or shows that no Manifest continues this way |
| `ManifestCodec.DecodeFields` | crates/vlt1-core/src/cde.rs:58-104 | the loop over the keys reads the layout of one Manifest, or shows that there is none |
| `ManifestCodec.Decoder.ReadMajorUint` | crates/vlt1-core/src/cde.rs:198-229 | reads a canonical head and nothing else, never past the input |
| `ManifestCodec.Decoder.ReadBytesExact` | crates/vlt1-core/src/cde.rs:179-196 | reads a byte string of exactly the expected length |
| `ManifestCodec.Decoder.ReadUint` | crates/vlt1-core/src/cde.rs:175-177 | reads a canonical unsigned integer and nothing else |
| `ManifestCodec.Decoder.ReadFixed` | crates/vlt1-core/src/cde.rs:231-244 | reads a fixed number of bytes, or fails without reading past the input |
| `ManifestCodec.DecodedEncoded` | crates/vlt1-core/src/cde.rs:21-122 | decoding inverts encoding |
| `ManifestCodec.EncodedInjective` | crates/vlt1-core/src/cde.rs:21-33 | different Manifests have different encodings |
| `ManifestCodec.EncodedLength` | crates/vlt1-core/src/cde.rs:21-33 | every encoding has 82 to 102 bytes |
| `CborMeaning.EncodedMeans` | crates/vlt1-core/src/cde.rs:21-33 | a plain CBOR reader finds in the encoding a map with format version, object, version, plaintext length, chunk size, chunk count, digest and 1 under keys 1 to 8 |
| `CborMeaning.DecodedMeans` | crates/vlt1-core/src/cde.rs:41-122 | each field of a decoded Manifest is what the input carries under its key |
| `Transcripts.AadInjective` | crates/vlt1-core/src/crypto.rs:342-379 | associated data determine their kind and every field |
| `Transcripts.ReceiptBytesInjective` | crates/vlt1-core/src/witness.rs:881-903 | receipt messages determine the receipt |
| `Transcripts.IssuedHeadInjective` | crates/vlt1-core/src/witness.rs:905-935 | messages of issued heads determine the head |
| `Transcripts.PresentHeadInjective` | crates/vlt1-core/src/witness.rs:284-314 | a present wire head with the bytes of an issued head is that head |
| `Transcripts.WireHeadExact` | crates/vlt1-core/src/witness.rs:284-314 | an accepted wire head is the signed head if and only if it is present or leaves version and commitment out |
| `Transcripts.AbsentHeadAmbiguous` | crates/vlt1-core/src/witness.rs:284-314 | an accepted absent head that differs from the signed one |
| `Transcripts.ReceiptsAreNotHeads` | crates/vlt1-core/src/witness.rs:881-935 | no receipt message is a head message |
| `Transcripts.MessagesAreNotAad` | crates/vlt1-core/src/crypto.rs:342-440 | no signed message is associated data |
| `Transcripts.DigestTranscriptInjective` | crates/vlt1-core/src/crypto.rs:382-409 | the digest input determines the whole record sequence |
| `Transcripts.CommitmentTranscriptInjective` | crates/vlt1-core/src/witness.rs:863-879 | the commitment input determines identifiers and Manifest record |
| `Transcripts.ChunkDigestBuilder.Update` | crates/vlt1-core/src/crypto.rs:396-404 | incremental updates build the transcript of the record sequence |
| `MessageBuilders.ChunkAad` | crates/vlt1-core/src/crypto.rs:342-357 | the appended fields, cut out of the result at their positions |
| `MessageBuilders.ManifestAad` | crates/vlt1-core/src/crypto.rs:361-368 | the same for the Manifest |
| `MessageBuilders.WrappedDekAad` | crates/vlt1-core/src/crypto.rs:372-379 | the same for the wrapped key |
| `MessageBuilders.RootAad` | crates/vlt1-core/src/crypto.rs:435-440 | the same for the root-key envelope |
| `MessageBuilders.ReceiptSigningBytes` | crates/vlt1-core/src/witness.rs:881-903 | the same for receipt messages |
| `MessageBuilders.HeadSigningBytes` | crates/vlt1-core/src/witness.rs:905-935 | the same for head messages, with zeroes for absent fields |
| `MessageBuilders.VersionCommitmentInput` | crates/vlt1-core/src/witness.rs:863-879 | the same for the commitment, nonce, length and ciphertext included |
| `MessageBuilders.DigestRecord` | crates/vlt1-core/src/crypto.rs:396-404 | the same for one record of the chunk digest |
| `StreamFraming.WriteStreamChunk` | crates/vlt1-protocol/src/lib.rs:265-275 | appends one data item of legal size, or nothing |
| `StreamFraming.WriteStreamEnd` | crates/vlt1-protocol/src/lib.rs:282-287 | appends the end item |
| `StreamFraming.WriteStreamError` | crates/vlt1-protocol/src/lib.rs:294-302 | appends an error item; a body of illegal size leaves the marker alone on the wire |
| `StreamFraming.ReadStreamItem` | crates/vlt1-protocol/src/lib.rs:310-327 | returns the item at the front and consumes exactly its bytes, or fails when there is none |
| `StreamFraming.ReadFrame` | crates/vlt1-protocol/src/lib.rs:225-238 | reads one length-prefixed frame within the size limit, or fails |
| `StreamFraming.ItemPrefixFree` | crates/vlt1-protocol/src/lib.rs:265-327 | data, end and error items are never confusable |
| `StreamFraming.WireFormat` | crates/vlt1-protocol/src/lib.rs:265-302 | the bytes of each item: length and data, four zero bytes, or the error marker and a framed body |
| `StreamFraming.SendableExactly` | crates/vlt1-protocol/src/lib.rs:21-25 | the size limits of data and error items |
| `StreamIo.StreamReader.Read` | crates/vlt1-daemon/src/lib.rs:661-699 | delivers the next bytes of the payload, across frames, with sticky end; an empty buffer reads nothing |
| `StreamIo.StreamWriter.Write` | crates/vlt1-daemon/src/lib.rs:707-720 | frames the whole buffer in pieces of at most the frame limit |
| `StreamIo.ReadNextChunk` | crates/vlt1-core/src/vault.rs:769-783 | whatever the reader does, returns exactly the next chunk-size bytes, or all that is left |
| `StreamIo.UploadCarries` | crates/vlt1-daemon/src/lib.rs:661-699 | any split into upload frames carries the same payload |
| `StreamIo.DownloadCarries` | crates/vlt1-daemon/src/lib.rs:707-720 | any sequence of writes followed by end decodes to the concatenation |
| `Daemon.ConnectionsAreCounted` | crates/vlt1-daemon/src/lib.rs:265-281 | over every interleaving the counter equals the live permits and never exceeds the limit |
| `Daemon.LongOperationsExclude` | crates/vlt1-daemon/src/lib.rs:255-263 | at most one long operation is live and the flag is set if and only if one is |
| `Daemon.ExclusiveUse` | crates/vlt1-daemon/src/lib.rs:577-641 | no two threads ever work on the vault, the witness client or the recovery state at once |
| `Daemon.TurnedAwayExactly` | crates/vlt1-daemon/src/lib.rs:265-281 | a connection is turned away if and only if all permits are in use |
| `Daemon.LongRefusedExactly` | crates/vlt1-daemon/src/lib.rs:255-263 | a long operation is refused if and only if another one is live |
| `Daemon.CodeNeeds` | crates/vlt1-daemon/src/lib.rs:298-575 | which state each request works on, and which requests are long operations |
| `Daemon.NoDeadlock` | crates/vlt1-daemon/src/lib.rs:577-616 | while a request is being served, some serving thread can take its next step |
| `Daemon.NothingLeaks` | crates/vlt1-daemon/src/lib.rs:136-150 | once all threads have ended no permit, flag or mutex is left |
| `Daemon.CodeOrdered` | crates/vlt1-daemon/src/lib.rs:350-466 | every request takes mutexes in one order, releases them innermost first and gives everything back |

## Left out

- AES-GCM-SIV, Argon2id, HKDF, SHA-256 and Ed25519 themselves, and random generation: only the interfaces above.
- SQLite internals, pragmas, write-ahead log and checkpoints: a transaction is atomic.
- Online backup and restore: a restored copy is an arbitrary database in the read and verification theorems.
- Path checks, permissions and hard-link publication; repairing file permissions after a commit always succeeds.
- HTTP, TLS, bearer tokens, JSON and hexadecimal text: requests and answers are taken as parsed values.
- Signer rollover: there is one witness key, because stored heads are verified again under the current key.
- The command-line client, benchmark, deployment files and fuzz harness.
- Zeroization and timeouts: no functional state.
- The early overload test of `dispatch`: the flag test and the later mutex acquisition are not atomic, so it promises nothing; in the daemon model a request may give up at any point.
- Poisoned mutexes: a panic is an abandoned request whose guards are dropped.
- Unwitnessed puts in witnessed runs: a streaming put publishes without a receipt, so the cross-store results cover witnessed puts and unlock-then-recover only.
- The plain verification of active objects without a witness: it is the read loop of `Freshness.VerifyEach` without the head comparison.
- Upload failures end to end: the daemon frames them as a stream item while the client expects a plain frame.
- The 64-bit counter of bytes written by a read: by `Reading.ExpectedLengthsAddUp` it cannot overflow, so the check is not modelled.
- Vault.Vault.Create: the empty passphrase, which the program refuses, is not distinguished, because a constructor cannot fail.
- WitnessedVault.WitnessedVault.PutWithWitness: takes the prepared version; preparation and its refusals are `Publishing.PrepareVersion`.
- WitnessedVault.WitnessedVault.UnlockAndRecover: without the passphrase check, which is `Vault.Vault.Unlock`, and without the verification that follows recovery, which is `Freshness.VerifyActiveObjectsWithWitness` and succeeds by `Served.ServedObjectsPass`.
- WitnessedVault.WitnessedVault.PendingWitnessPublications: lists in any order; the order by identifier plays no role.
- Freshness.ActiveObjectIds: lists in any order; the order by identifier plays no role.
- StreamFraming.WriteStreamChunk: write failures of the local stream end the connection and are not modelled.
- StreamFraming.WriteStreamEnd: write failures as above.
- StreamIo.StreamWriter.Write: write failures as above.
- StreamFraming.ReadFrame: the JSON text of a frame is kept as bytes, so its decoding errors are not modelled.
- StreamFraming.ReadStreamItem: the JSON text of an error item is kept as bytes.
