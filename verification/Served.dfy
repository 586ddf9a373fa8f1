/** Witnessed runs of genuine puts: what unlocking and verification find in them. */
module Served {
  import opened Format
  import opened Transcripts
  import opened Crypto
  import opened Storage
  import opened Witness
  import opened Publishing
  import opened Reading
  import opened ReadIntegrity
  import opened Freshness
  import opened Protocol
  import Runs = VaultRuns
  import Client = WitnessedVault

  /** A version as the vault prepares it, with records that open again. */
  ghost predicate PreparedAs(w: Runs.World, put: Put, row: StoredVersion, chunks: seq<EncryptedChunk>) {
    && Publishable(put.plaintext, put.size) && Opens(w.c, w.vault, w.root, put)
    && row == StoredRow(w.c, w.vault, w.root, put) && chunks == StoredChunks(w.c, w.vault, put)
  }

  /** Every put of the run starts from a prepared version. */
  ghost predicate GenuinePuts(w: Runs.World, actions: seq<Action>) {
    forall i :: 0 <= i < |actions| ==> GenuineAction(w, actions[i])
  }

  ghost predicate GenuineAction(w: Runs.World, a: Action) {
    a.StartPut? ==> exists put :: PreparedAs(w, put, a.row, a.chunks)
  }

  ghost predicate HeldAs(w: Runs.World, db: Db, v: VersionId, put: Put) {
    && Publishable(put.plaintext, put.size) && Opens(w.c, w.vault, w.root, put)
    && put.secrets.version == v && Runs.Holds(w, db, put)
  }

  /** Every version in the tables is held as some put stored it. */
  ghost predicate AllHeld(w: Runs.World, db: Db) {
    forall v :: v in db.versions ==> exists put :: HeldAs(w, db, v, put)
  }

  lemma HeldVersion(w: Runs.World, db: Db, v: VersionId)
    requires AllHeld(w, db) && v in db.versions
    ensures exists put :: HeldAs(w, db, v, put)
  {
  }

  lemma PreservedHeld(w: Runs.World, db: Db, db': Db, v: VersionId)
    requires AllHeld(w, db) && Preserves(db, db') && v in db.versions
    ensures exists put :: HeldAs(w, db', v, put)
  {
    var put :| HeldAs(w, db, v, put);
    Runs.HoldsPreserved(w, db, db', put);
    assert HeldAs(w, db', v, put);
  }

  lemma StagedHeld(w: Runs.World, db: Db, put: Put, row: StoredVersion, chunks: seq<EncryptedChunk>, expected: U64)
    requires Valid(db) && AllHeld(w, db) && PreparedAs(w, put, row, chunks) && StageTx(db, row, chunks, expected).Some?
    ensures AllHeld(w, StageTx(db, row, chunks, expected).value)
  {
    var d := StageTx(db, row, chunks, expected).value;
    StageKeepsValid(db, row, chunks, expected);
    Runs.WrittenHolds(w, db, put);
    Runs.HoldsIsAboutTwoTables(w, VersionTx(db, row, chunks).value, d, put);
    forall v | v in d.versions
      ensures exists x :: HeldAs(w, d, v, x)
    {
      if v == row.versionId {
        assert HeldAs(w, d, v, put);
      } else {
        PreservedHeld(w, db, d, v);
      }
    }
  }

  lemma PreservedAllHeld(w: Runs.World, db: Db, db': Db)
    requires AllHeld(w, db) && Preserves(db, db') && db'.versions.Keys <= db.versions.Keys
    ensures AllHeld(w, db')
  {
    forall v | v in db'.versions
      ensures exists put :: HeldAs(w, db', v, put)
    {
      assert v in db'.versions.Keys;
      PreservedHeld(w, db, db', v);
    }
  }

  /** Every other step keeps the version rows. */
  lemma OtherStepPreserves(p: Party, s: System, a: Action, s': System)
    requires Inv(p, s) && Protocol.Step(p, s, a, s') && !a.StartPut?
    ensures Preserves(s.db, s'.db) && s'.db.versions == s.db.versions
  {
    if a.Accept? && s'.db != s.db {
      FinalizePreserves(s.db, s.db.versions[s.phase.todo[0].0], a.receipt);
    }
  }

  lemma StartHeld(w: Runs.World, p: Party, s: System, a: Action, s': System)
    requires Inv(p, s) && Protocol.Step(p, s, a, s') && AllHeld(w, s.db) && GenuineAction(w, a)
    requires a.StartPut? && s'.db != s.db
    ensures AllHeld(w, s'.db)
  {
    var put :| PreparedAs(w, put, a.row, a.chunks);
    StagedHeld(w, s.db, put, a.row, a.chunks, LocalEpoch(s.db, a.row.objectId));
  }

  lemma StepHeld(w: Runs.World, p: Party, s: System, a: Action, s': System)
    requires Inv(p, s) && Protocol.Step(p, s, a, s') && AllHeld(w, s.db) && GenuineAction(w, a)
    ensures AllHeld(w, s'.db)
  {
    if s'.db == s.db {
    } else if a.StartPut? {
      StartHeld(w, p, s, a, s');
    } else {
      OtherStepPreserves(p, s, a, s');
      PreservedAllHeld(w, s.db, s'.db);
    }
  }

  lemma EachStepHeld(w: Runs.World, p: Party, states: seq<System>, actions: seq<Action>, k: nat)
    requires IsRun(p, states, actions) && k < |actions| && GenuineAction(w, actions[k])
    requires AllHeld(w, states[k].db)
    ensures AllHeld(w, states[k + 1].db)
  {
    RunKeeps(p, states, actions, k);
    StepHeld(w, p, states[k], actions[k], states[k + 1]);
  }

  lemma {:induction false} Chain(held: seq<bool>, i: nat)
    requires i < |held| && held[0] && forall k :: 0 <= k < |held| - 1 && held[k] ==> held[k + 1]
    ensures held[i]
  {
    if i == 0 {
    } else {
      Chain(held, i - 1);
      assert held[i - 1] ==> held[(i - 1) + 1];
    }
  }

  lemma RunHeld(w: Runs.World, p: Party, states: seq<System>, actions: seq<Action>, i: nat)
    requires IsRun(p, states, actions) && GenuinePuts(w, actions) && i < |states|
    ensures AllHeld(w, states[i].db)
  {
    var held := seq(|states|, k requires 0 <= k < |states| => AllHeld(w, states[k].db));
    forall k | 0 <= k < |held| - 1 && held[k]
      ensures held[k + 1]
    {
      EachStepHeld(w, p, states, actions, k);
    }
    Chain(held, i);
  }

  /** The receipt of an active version acknowledges the request that a read checks it against. */
  lemma ActiveReceiptChecks(v: View, p: Party, state: WitnessState, obj: ObjectId)
    requires p == Client.VaultParty(v.c, v.vault) && v.signed == state.signed
    requires PendingInv(v.db) && ReceiptInv(p, v.db, state) && obj in v.db.objects
    ensures v.db.objects[obj] in v.db.versions && v.db.versions[v.db.objects[obj]].objectId == obj
    ensures v.db.versions[v.db.objects[obj]].versionId == v.db.objects[obj]
    ensures CheckReceipt(v, v.db.versions[v.db.objects[obj]]).Ok?
  {
    var row := v.db.versions[v.db.objects[obj]];
    var q := Request(p, row);
    assert q == RequestFor(v.c, v.vault, row);
    AcknowledgedChecks(v, row, q);
  }

  lemma AcknowledgedChecks(v: View, row: StoredVersion, q: WitnessRequest)
    requires q == RequestFor(v.c, v.vault, row) && row.versionId in v.db.receipts
    requires ReceiptMessage(v.db.receipts[row.versionId]) in v.signed && Acknowledges(v.db.receipts[row.versionId], q)
    ensures CheckReceipt(v, row).Ok?
  {
  }

  /** An active version that is held, and whose receipt checks, reads back. */
  lemma HeldReads(w: Runs.World, v: View, obj: ObjectId, put: Put)
    requires v.c == w.c && v.vault == w.vault && v.root == w.root
    requires obj in v.db.objects && HeldAs(w, v.db, v.db.objects[obj], put)
    requires v.db.objects[obj] in v.db.versions && v.db.versions[v.db.objects[obj]].objectId == obj
    requires CheckReceipt(v, v.db.versions[v.db.objects[obj]]).Ok?
    ensures Get(v, obj) == Ok(put.plaintext)
  {
    assert put.obj == StoredRow(w.c, w.vault, w.root, put).objectId;
    assert Intact(v, put);
    PutThenGet(v, put);
  }

  lemma SomeHeldReads(w: Runs.World, v: View, obj: ObjectId)
    requires v.c == w.c && v.vault == w.vault && v.root == w.root
    requires obj in v.db.objects && exists put :: HeldAs(w, v.db, v.db.objects[obj], put)
    requires v.db.objects[obj] in v.db.versions && v.db.versions[v.db.objects[obj]].objectId == obj
    requires CheckReceipt(v, v.db.versions[v.db.objects[obj]]).Ok?
    ensures Get(v, obj).Ok?
  {
    var put :| HeldAs(w, v.db, v.db.objects[obj], put);
    HeldReads(w, v, obj, put);
  }

  lemma ActiveReads(w: Runs.World, v: View, p: Party, state: WitnessState, obj: ObjectId)
    requires v.c == w.c && v.vault == w.vault && v.root == w.root && v.signed == state.signed
    requires p == Client.VaultParty(w.c, w.vault)
    requires PendingInv(v.db) && ReceiptInv(p, v.db, state) && obj in v.db.objects
    requires exists put :: HeldAs(w, v.db, v.db.objects[obj], put)
    ensures Get(v, obj).Ok?
  {
    ActiveReceiptChecks(v, p, state, obj);
    SomeHeldReads(w, v, obj);
  }

  lemma PassesWith(v: View, obj: ObjectId, round: Round, receipt: Receipt, head: Head)
    requires ActiveReceipt(v.db, v.signed, obj) == Ok(Some(receipt)) && ObjectHead(v.vault, obj, round, true) == Ok(head)
    requires Agrees(head, receipt) && Get(v, obj).Ok?
    ensures Passes(v, obj, round, true)
  {
  }

  /** In a served state every active object has a verified receipt and reads back. */
  lemma ServedObjectReads(w: Runs.World, v: View, p: Party, states: seq<System>, actions: seq<Action>, i: nat, obj: ObjectId)
    requires p == Client.VaultParty(w.c, w.vault) && IsRun(p, states, actions) && GenuinePuts(w, actions)
    requires i < |states| && obj in states[i].db.objects
    requires v == View(w.c, w.vault, w.root, states[i].db, Run(states[i].events).signed)
    ensures Get(v, obj).Ok? && ActiveReceipt(v.db, v.signed, obj) == Ok(LocalReceipt(states[i].db, obj))
  {
    RunKeeps(p, states, actions, i);
    RunHeld(w, p, states, actions, i);
    HeldVersion(w, v.db, v.db.objects[obj]);
    ActiveReads(w, v, p, Run(states[i].events), obj);
    Client.ActiveIsLocal(p, states[i].db, Run(states[i].events), obj);
  }

  /**
   Verification never fails without cause. In every state of every witnessed run of genuine puts in
   which the vault is unlocked between requests, every active object passes verification against an
   honest answer to any challenge.
   */
  lemma ServedObjectsPass(
    w: Runs.World, states: seq<System>, actions: seq<Action>, i: nat, obj: ObjectId, challenge: Bytes32)
    requires IsRun(Client.VaultParty(w.c, w.vault), states, actions) && GenuinePuts(w, actions)
    requires i < |states| && states[i].unlocked && states[i].phase.Idle? && obj in states[i].db.objects
    ensures var state := Run(states[i].events);
            var answer := SignHead(state, w.vault, obj, challenge);
            && answer.result.Ok? && BytesSigned(answer.state, HeadBytes(answer.result.value))
            && Passes(View(w.c, w.vault, w.root, states[i].db, state.signed), obj,
                      Round(challenge, Some(answer.result.value)), true)
  {
    var p := Client.VaultParty(w.c, w.vault);
    var db, state := states[i].db, Run(states[i].events);
    var v := View(w.c, w.vault, w.root, db, state.signed);
    ServedObjectReads(w, v, p, states, actions, i, obj);
    ServedReceipt(p, states, actions, i, obj);
    var receipt := LocalReceipt(db, obj).value;
    SignedHeadAgrees(state, w.vault, obj, receipt, challenge);
    var head := SignHead(state, w.vault, obj, challenge).result.value;
    PassesWith(v, obj, Round(challenge, Some(head)), receipt, head);
  }
}
