/** The client side of witnessed publication: put, unlock and recovery, statement by statement. */
module WitnessedVault {
  import opened Format
  import opened Transcripts
  import opened Storage
  import opened Witness
  import opened Protocol
  import Crypto
  import Reading

  /** The party that a vault with these primitives is: its requests are those that reads check receipts against. */
  function VaultParty(c: Crypto.Crypto, vault: VaultId): (p: Party)
    ensures forall row :: Request(p, row) == Reading.RequestFor(c, vault, row)
  {
    Party(vault, (row: StoredVersion) => Crypto.Commitment(c, vault, row.objectId, row.versionId, row.manifest))
  }

  /** What becomes of one exchange with the witness. */
  datatype Exchange = Delivered | RequestLost | AnswerLost

  /** Where the steps of one publication fail, if they do. */
  datatype Trouble = Trouble(stage: Fault, exchange: Exchange, issue: Fault, finalize: Fault)

  const NO_TROUBLE: Trouble := Trouble(NoFault, Delivered, NoFault, NoFault)

  // ----- One put without trouble, on any database -----

  /** What a put leaves behind. */
  datatype PutOutcome = PutOutcome(result: Result<VersionId>, db: Db, unlocked: bool, state: WitnessState)

  /** The client's checks on the answer to an issue request. */
  function Checked(answer: Result<Receipt>, q: WitnessRequest, expected: U64): (r: Result<Receipt>) {
    if answer.Err? then Err(if answer.error.WitnessConflict? then WitnessConflict else WitnessUnavailable)
    else if !Acknowledges(answer.value, q) then Err(Invariant)
    else if answer.value.epoch <= expected then Err(WitnessConflict)
    else answer
  }

  /**
   Whatever a provider answers, only a receipt that acknowledges the request with a larger epoch is
   accepted; a refusal and an outdated receipt are conflicts, a receipt for something else is not.
   */
  lemma CheckedExactly(answer: Result<Receipt>, q: WitnessRequest, expected: U64)
    ensures var r := Checked(answer, q, expected);
            && (r.Ok? <==> answer.Ok? && Acknowledges(answer.value, q) && expected < answer.value.epoch)
            && (r.Ok? ==> r == answer)
            && (r == Err(WitnessConflict) <==>
                  if answer.Err? then answer.error == WitnessConflict
                  else Acknowledges(answer.value, q) && expected >= answer.value.epoch)
            && (r == Err(WitnessUnavailable) <==> answer.Err? && answer.error != WitnessConflict)
  {
  }

  /** A witnessed put of a prepared version when nothing fails by itself; the database may be any. */
  function WitnessedPut(p: Party, db: Db, w: WitnessState, row: StoredVersion, chunks: seq<EncryptedChunk>): (o: PutOutcome) {
    var active := Reading.ActiveReceipt(db, w.signed, row.objectId);
    if active.Err? then PutOutcome(Err(active.error), db, false, w)
    else
      var expected := EpochOf(active.value);
      var staged := StageTx(db, row, chunks, expected);
      if staged.None? then
        PutOutcome(Err(if |chunks| != row.chunkCount then Invariant else StorageError), db, false, w)
      else
        var issued := Issue(w, Request(p, row), expected);
        var receipt := Checked(issued.result, Request(p, row), expected);
        if receipt.Err? then PutOutcome(Err(receipt.error), staged.value, false, issued.state)
        else
          var finalized := FinalizeTx(staged.value, row, receipt.value);
          if finalized.None? then PutOutcome(Err(StorageError), staged.value, false, issued.state)
          else PutOutcome(Ok(row.versionId), finalized.value, true, issued.state)
  }

  /**
   A copy of the vault whose active receipt is not the newest one issued for the object, be it older
   or missing, cannot publish a new version there: the put is refused with a conflict, locks the copy,
   leaves the version staged and leaves the witness as it was.
   */
  lemma StaleCopyCannotPublish(p: Party, db: Db, events: seq<Event>, row: StoredVersion, chunks: seq<EncryptedChunk>)
    requires Reading.ActiveReceipt(db, Run(events).signed, row.objectId).Ok?
    requires var expected := EpochOf(Reading.ActiveReceipt(db, Run(events).signed, row.objectId).value);
             var newest := Newest(Grants(events), p.vault, row.objectId);
             && expected != EpochOf(newest)
             && (newest.Some? ==> newest.value.version != row.versionId)
             && StageTx(db, row, chunks, expected).Some?
    ensures var expected := EpochOf(Reading.ActiveReceipt(db, Run(events).signed, row.objectId).value);
            var o := WitnessedPut(p, db, Run(events), row, chunks);
            && o.result == Err(WitnessConflict) && !o.unlocked && o.state == Run(events)
            && row.versionId in o.db.pending && o.db.pending[row.versionId] == expected
            && o.db.objects == db.objects && o.db.receipts == db.receipts
  {
    var expected := EpochOf(Reading.ActiveReceipt(db, Run(events).signed, row.objectId).value);
    StaleCopyConflicts(events, Request(p, row), expected);
    InsertChunksAdds(InsertVersion(db, row).value, row.versionId, chunks);
  }

  /** A copy whose receipt has been superseded is such a copy. */
  lemma SupersededCopyIsStale(p: Party, db: Db, events: seq<Event>, obj: ObjectId, x: nat)
    requires x < |Grants(events)| && Superseded(Grants(events), x)
    requires Grants(events)[x].receipt.vault == p.vault && Grants(events)[x].receipt.obj == obj
    requires Reading.ActiveReceipt(db, Run(events).signed, obj) == Ok(Some(Grants(events)[x].receipt))
    ensures Grants(events)[x].receipt.epoch != EpochOf(Newest(Grants(events), p.vault, obj))
  {
    var g := Grants(events);
    ForkFreedom(events);
    NewestAtLeast(g, x);
    var k := NewestIsGranted(g, p.vault, obj);
    assert k != x && g[k].receipt.epoch != g[x].receipt.epoch;
  }

  /** And so is a copy without a receipt for an object that has been published. */
  lemma EmptyCopyIsStale(p: Party, db: Db, events: seq<Event>, obj: ObjectId)
    requires Reading.ActiveReceipt(db, Run(events).signed, obj) == Ok(None)
    requires Newest(Grants(events), p.vault, obj).Some?
    ensures EpochOf(None) != EpochOf(Newest(Grants(events), p.vault, obj))
  {
    ForkFreedom(events);
    var k := NewestIsGranted(Grants(events), p.vault, obj);
    assert 1 <= Grants(events)[k].receipt.epoch;
  }

  /** A stored receipt whose signature does not verify stops a put before it touches anything. */
  lemma UnverifiedReceiptStopsPut(p: Party, db: Db, w: WitnessState, row: StoredVersion, chunks: seq<EncryptedChunk>)
    requires Reading.HasActive(db, row.objectId)
    requires var version := db.versions[db.objects[row.objectId]].versionId;
             version in db.receipts && ReceiptMessage(db.receipts[version]) !in w.signed
    ensures WitnessedPut(p, db, w, row, chunks) == PutOutcome(Err(Authentication), db, false, w)
  {
    Reading.ActiveReceiptExactly(db, w.signed, row.objectId);
  }

  // ----- The client -----

  function PhaseOf(todo: seq<(VersionId, U64)>): (phase: Phase) {
    if todo == [] then Idle else Working(todo)
  }

  class WitnessedVault {
    const p: Party
    const storage: Storage
    const service: WitnessService
    var unlocked: bool
    ghost var events: seq<Event>
    ghost var net: set<IssueMessage>

    ghost function Sys(todo: seq<(VersionId, U64)>): (s: System)
      reads this, storage
    {
      System(storage.db, unlocked, PhaseOf(todo), events, net)
    }

    /** The witness has processed exactly `events`. */
    ghost predicate Tracked()
      reads this, service
    {
      service.State() == Run(events)
    }

    /** With this work left; if `sound`, in a state that satisfies the cross-store invariant. */
    ghost predicate Doing(todo: seq<(VersionId, U64)>, sound: bool)
      reads this, storage, service
    {
      Tracked() && (sound ==> Inv(p, Sys(todo)))
    }

    /** Between requests of a vault that is not a stale or foreign copy. */
    ghost predicate Valid()
      reads this, storage, service
    {
      Doing([], true)
    }

    constructor (p: Party)
      ensures this.p == p && fresh(storage) && fresh(service) && Valid()
      ensures unlocked && storage.db == EMPTY_DB
    {
      this.p := p;
      storage := new Storage();
      service := new WitnessService();
      unlocked, events, net := true, [], {};
      new;
      InitialInv(p);
    }

    /** Drops the key; work in progress stays staged. */
    method Stop(ghost todo: seq<(VersionId, U64)>, ghost sound: bool)
      requires Doing(todo, sound)
      modifies this
      ensures Doing([], sound) && !unlocked
      ensures events == old(events) && net == old(net)
    {
      ghost var before := Sys(todo);
      unlocked := false;
      if sound {
        StepKeeps(p, before, Action.Stop, Sys([]));
      }
    }

    /** One exchange with the witness about the version that is being worked on. */
    method Ask(
      row: StoredVersion, expected: U64, exchange: Exchange, fault: Fault, ghost todo: seq<(VersionId, U64)>, ghost sound: bool)
      returns (answer: Result<Receipt>)
      requires Doing(todo, sound) && WorksOn(storage.db, todo, row, expected)
      modifies this, service
      ensures Doing(todo, sound) && unlocked == old(unlocked)
      ensures answer.Ok? ==> Answers(Run(events), answer.value, Request(p, row), expected)
      ensures !exchange.Delivered? ==> answer == Err(WitnessUnavailable)
      ensures exchange.Delivered? && fault.NoFault? ==>
                Outcome(answer, service.State()) == Issue(old(service.State()), Request(p, row), expected)
    {
      var q := Request(p, row);
      ghost var before := Sys(todo);
      net := net + {IssueMessage(q, expected)};
      if sound {
        AskKeeps(p, before, todo, row, expected, false, Sys(todo));
      }
      if exchange.RequestLost? {
        return Err(WitnessUnavailable);
      }
      ghost var w := service.State();
      HonestAnswers(events, q, expected);
      answer := service.IssueWire(q, expected, fault);
      if service.State() != w || answer.Ok? {
        RunSnoc(events, IssueEvent(q, expected));
        events := events + [IssueEvent(q, expected)];
        if sound {
          AskKeeps(p, before, todo, row, expected, true, Sys(todo));
        }
      }
      if exchange.AnswerLost? {
        answer := Err(WitnessUnavailable);
      }
    }

    /** One issue request with the client's acceptance checks. */
    method IssueReceipt(
      row: StoredVersion, expected: U64, exchange: Exchange, fault: Fault, ghost todo: seq<(VersionId, U64)>, ghost sound: bool)
      returns (r: Result<Receipt>)
      requires Doing(todo, sound) && WorksOn(storage.db, todo, row, expected)
      modifies this, service
      ensures Doing(todo, sound) && unlocked == old(unlocked)
      ensures r.Ok? ==> Answers(Run(events), r.value, Request(p, row), expected)
      ensures r.Err? ==> r.error.RequiresLock()
      ensures !exchange.Delivered? ==> r == Err(WitnessUnavailable)
      ensures exchange.Delivered? && fault.NoFault? ==>
                var issued := Issue(old(service.State()), Request(p, row), expected);
                r == Checked(issued.result, Request(p, row), expected) && service.State() == issued.state
      ensures sound && exchange.Delivered? && fault.NoFault? && NextEpoch(Run(old(events)), p.vault) < I64_MAX ==> r.Ok?
    {
      if sound {
        AnswerFacts(p, Sys(todo), row.versionId, todo);
      }
      var answer := Ask(row, expected, exchange, fault, todo, sound);
      r := Checked(answer, Request(p, row), expected);
    }

    /** Commits an accepted receipt and takes the version off the work list. */
    method FinishOne(
      row: StoredVersion, expected: U64, receipt: Receipt, fault: Fault, ghost todo: seq<(VersionId, U64)>, ghost sound: bool)
      returns (r: Result<()>)
      requires Doing(todo, sound) && WorksOn(storage.db, todo, row, expected)
      requires Answers(Run(events), receipt, Request(p, row), expected)
      modifies this, storage
      ensures events == old(events)
      ensures r.Ok? ==>
                && Doing(todo[1..], sound) && unlocked
                && FinalizeTx(old(storage.db), row, receipt) == Some(storage.db)
      ensures r.Err? ==> Doing([], sound) && !unlocked && r.error.RequiresLock()
      ensures fault.NoFault? && r.Err? ==> FinalizeTx(old(storage.db), row, receipt).None? && storage.db == old(storage.db)
      ensures r.Err? && row.versionId in old(storage.db).pending ==> r.error == StorageError
      ensures sound && fault.NoFault? ==> r.Ok?
    {
      ghost var before := Sys(todo);
      r := storage.FinalizeWitnessPublication(row, receipt, fault);
      unlocked := r.Ok?;
      if sound {
        FinishKeeps(p, before, todo, row, expected, receipt, fault, r.Ok?, Sys(if r.Ok? then todo[1..] else []));
      }
    }

    /** Issues and finalizes one staged version; a failure locks and leaves it staged or settled. */
    method Settle(
      row: StoredVersion, expected: U64, t: Trouble, ghost todo: seq<(VersionId, U64)>, ghost sound: bool)
      returns (r: Result<()>)
      requires Doing(todo, sound) && WorksOn(storage.db, todo, row, expected)
      modifies this, storage, service
      ensures r.Ok? ==>
                && Doing(todo[1..], sound) && unlocked && LocalReceipt(storage.db, row.objectId).Some?
                && Acknowledges(LocalReceipt(storage.db, row.objectId).value, Request(p, row))
      ensures r.Err? ==> Doing([], sound) && !unlocked && r.error.RequiresLock()
      ensures !t.exchange.Delivered? ==> r == Err(WitnessUnavailable)
      ensures sound && t.(stage := NoFault) == NO_TROUBLE && NextEpoch(Run(old(events)), p.vault) < I64_MAX ==> r.Ok?
      ensures t.(stage := NoFault) == NO_TROUBLE && row.versionId in old(storage.db).pending ==>
                Settled(p, old(storage.db), old(service.State()), row, expected, r, storage.db, service.State())
    {
      var receipt := IssueReceipt(row, expected, t.exchange, t.issue, todo, sound);
      if receipt.Err? {
        Stop(todo, sound);
        return Err(receipt.error);
      }
      r := FinishOne(row, expected, receipt.value, t.finalize, todo, sound);
    }

    /** Stages a version with the epoch of the active receipt; it becomes the only work to do. */
    method StageOne(row: StoredVersion, chunks: seq<EncryptedChunk>, expected: U64, fault: Fault, ghost sound: bool)
      returns (r: Result<()>)
      requires Doing([], sound) && unlocked && InOrder(chunks)
      requires sound ==> expected == LocalEpoch(storage.db, row.objectId)
      modifies this, storage
      ensures events == old(events)
      ensures r.Ok? ==>
                && Doing([(row.versionId, expected)], sound) && unlocked
                && StageTx(old(storage.db), row, chunks, expected) == Some(storage.db)
                && row.versionId in storage.db.versions && storage.db.versions[row.versionId] == row
                && row.versionId in storage.db.pending
      ensures r.Err? ==> Doing([], sound) && !unlocked
      ensures r.Err? ==> r.error == if |chunks| != row.chunkCount then Invariant else StorageError
      ensures fault.NoFault? && r.Err? ==>
                StageTx(old(storage.db), row, chunks, expected).None? && storage.db == old(storage.db)
    {
      ghost var before := Sys([]);
      r := storage.StageWitnessPublication(row, chunks, expected, fault);
      unlocked := r.Ok?;
      if sound {
        StepKeeps(p, before, StartPut(row, chunks, fault, r.Ok?), Sys(if r.Ok? then [(row.versionId, expected)] else []));
      }
      if r.Ok? {
        InsertChunksAdds(InsertVersion(before.db, row).value, row.versionId, chunks);
      }
    }

    /**
     Witnessed put of a prepared version. Without trouble its outcome is that of `WitnessedPut`, on
     whatever database. From a valid state it keeps the invariant under any trouble: success means the
     new version is active with a verified receipt and every head agrees with the local receipts; any
     failure after staging locks the vault; a lost request or answer is reported as such; and without
     trouble it succeeds exactly when the version can be stored and the epochs are not exhausted.
     */
    method PutWithWitness(row: StoredVersion, chunks: seq<EncryptedChunk>, t: Trouble) returns (r: Result<VersionId>)
      requires Tracked() && InOrder(chunks)
      modifies this, storage, service
      ensures Tracked() && (old(Valid()) ==> Valid())
      ensures !old(unlocked) ==> r == Err(Locked) && storage.db == old(storage.db) && service.State() == old(service.State())
      ensures t == NO_TROUBLE && old(unlocked) ==>
                PutOutcome(r, storage.db, unlocked, service.State())
                == WitnessedPut(p, old(storage.db), old(service.State()), row, chunks)
      ensures r.Ok? ==>
                && r.value == row.versionId && unlocked && LocalReceipt(storage.db, row.objectId).Some?
                && Acknowledges(LocalReceipt(storage.db, row.objectId).value, Request(p, row))
      ensures r.Ok? && old(Valid()) ==> storage.db.pending == map[] && HeadsMatch(p, storage.db, service.State())
      ensures r.Err? ==> r.error == Locked || (r.error.RequiresLock() && !unlocked)
      ensures old(Valid()) && t == NO_TROUBLE && old(unlocked) ==>
                (r.Ok? <==> Storable(old(storage.db), row, chunks) && NextEpoch(Run(old(events)), p.vault) < I64_MAX)
      ensures (&& old(Valid()) && old(unlocked) && Storable(old(storage.db), row, chunks)
               && t.stage.NoFault? && !t.exchange.Delivered?) ==> r == Err(WitnessUnavailable)
    {
      if !unlocked {
        return Err(Locked);
      }
      ghost var sound, before := Inv(p, Sys([])), Sys([]);
      r := PutUnlocked(row, chunks, t, sound);
      if sound {
        PutExactly(p, before, row, chunks);
        if r.Ok? {
          IdleHeadsMatch(p, Sys([]));
        }
      }
    }

    method PutUnlocked(row: StoredVersion, chunks: seq<EncryptedChunk>, t: Trouble, ghost sound: bool)
      returns (r: Result<VersionId>)
      requires Doing([], sound) && unlocked && InOrder(chunks)
      modifies this, storage, service
      ensures Doing([], sound)
      ensures t == NO_TROUBLE ==>
                PutOutcome(r, storage.db, unlocked, service.State())
                == WitnessedPut(p, old(storage.db), old(service.State()), row, chunks)
      ensures r.Ok? ==>
                && r.value == row.versionId && unlocked && LocalReceipt(storage.db, row.objectId).Some?
                && Acknowledges(LocalReceipt(storage.db, row.objectId).value, Request(p, row))
      ensures r.Err? ==> r.error.RequiresLock() && !unlocked
      ensures (&& Stageable(old(storage.db), old(service.State()).signed, row, chunks)
               && t.stage.NoFault? && !t.exchange.Delivered?) ==> r == Err(WitnessUnavailable)
    {
      var active := Reading.ActiveReceipt(storage.db, service.signed, row.objectId);
      if sound {
        ActiveIsLocal(p, storage.db, service.State(), row.objectId);
      }
      if active.Err? {
        Stop([], sound);
        return Err(active.error);
      }
      var expected := EpochOf(active.value);
      var staged := StageOne(row, chunks, expected, t.stage, sound);
      if staged.Err? {
        return Err(staged.error);
      }
      ghost var todo := [(row.versionId, expected)];
      assert todo[1..] == [];
      var settled := Settle(row, expected, t, todo, sound);
      r := if settled.Err? then Err(settled.error) else Ok(row.versionId);
    }

    /** The staged versions with their epochs. */
    method PendingWitnessPublications() returns (todo: seq<(VersionId, U64)>)
      ensures Lists(todo, storage.db.pending)
    {
      todo := [];
      var left := storage.db.pending.Keys;
      while left != {}
        invariant left <= storage.db.pending.Keys
        invariant forall i :: 0 <= i < |todo| ==> todo[i].0 in storage.db.pending && storage.db.pending[todo[i].0] == todo[i].1
        invariant forall i :: 0 <= i < |todo| ==> todo[i].0 !in left
        invariant forall v :: v in storage.db.pending ==> v in left || exists i :: 0 <= i < |todo| && todo[i].0 == v
        invariant forall i, j :: 0 <= i < j < |todo| ==> todo[i].0 != todo[j].0
        decreases left
      {
        var v :| v in left;
        ghost var before := todo;
        todo := todo + [(v, storage.db.pending[v])];
        left := left - {v};
        assert todo[|before|].0 == v;
        assert forall i :: 0 <= i < |before| ==> todo[i] == before[i];
      }
    }

    /**
     Unlocking: every staged version is issued again with its own expected epoch and finalized before
     anything is served. Success leaves nothing staged and every head in agreement; failure locks; and
     with a reachable witness whose epochs are not exhausted it always succeeds.
     */
    method UnlockAndRecover(troubles: nat -> Trouble) returns (r: Result<nat>)
      requires Valid()
      modifies this, storage, service
      ensures Valid()
      ensures r.Ok? ==> unlocked && storage.db.pending == map[] && HeadsMatch(p, storage.db, service.State())
      ensures r.Ok? ==> r.value == |old(storage.db.pending)|
      ensures r.Err? ==> !unlocked && r.error.RequiresLock()
      ensures troubles(0) == NO_TROUBLE && NextEpoch(Run(old(events)), p.vault) < I64_MAX ==> r.Ok?
    {
      var todo := PendingWitnessPublications();
      CountsListed(todo, storage.db.pending);
      ghost var s0 := Sys([]);
      unlocked := true;
      StepKeeps(p, s0, Unlock(todo), Sys(todo));
      AtMostOneToDo(todo, storage.db);
      r := RecoverAll(todo, troubles);
      if r.Ok? {
        IdleHeadsMatch(p, Sys([]));
      }
    }

    /** Settles the listed versions one after the other. */
    method RecoverAll(todo: seq<(VersionId, U64)>, troubles: nat -> Trouble) returns (r: Result<nat>)
      requires Doing(todo, true) && unlocked && |todo| <= 1
      modifies this, storage, service
      ensures Valid()
      ensures if r.Ok? then unlocked && r.value == |todo| else !unlocked && r.error.RequiresLock()
      ensures troubles(0) == NO_TROUBLE && NextEpoch(Run(old(events)), p.vault) < I64_MAX ==> r.Ok?
    {
      var i := 0;
      assert todo[0..] == todo;
      while i < |todo|
        invariant 0 <= i <= |todo|
        invariant Doing(todo[i..], true) && unlocked
        invariant i == 0 ==> events == old(events)
      {
        ghost var left := todo[i..];
        assert left[0] == todo[i] && left[1..] == todo[i + 1..];
        OneToDo(left, storage.db);
        var settled := Settle(storage.db.versions[todo[i].0], todo[i].1, troubles(i), left, true);
        if settled.Err? {
          return Err(settled.error);
        }
        i := i + 1;
      }
      assert todo[i..] == [];
      r := Ok(|todo|);
    }
  }

  /** The version is in the tables and is the next one to settle. */
  ghost predicate WorksOn(db: Db, todo: seq<(VersionId, U64)>, row: StoredVersion, expected: U64) {
    && todo != [] && todo[0] == (row.versionId, expected)
    && row.versionId in db.versions && db.versions[row.versionId] == row
  }

  /** In a state that satisfies the invariant the stored receipt of an active version always verifies. */
  lemma ActiveIsLocal(p: Party, db: Db, w: WitnessState, obj: ObjectId)
    requires PendingInv(db) && ReceiptInv(p, db, w)
    ensures Reading.ActiveReceipt(db, w.signed, obj) == Ok(LocalReceipt(db, obj))
  {
  }

  /** The outcome of settling a staged version when nothing fails by itself. */
  ghost predicate Settled(
    p: Party, db: Db, w: WitnessState, row: StoredVersion, expected: U64, r: Result<()>, db': Db, w': WitnessState)
  {
    var issued := Issue(w, Request(p, row), expected);
    var receipt := Checked(issued.result, Request(p, row), expected);
    && w' == issued.state
    && if receipt.Err? then r == Err(receipt.error) && db' == db
       else
         var finalized := FinalizeTx(db, row, receipt.value);
         if finalized.None? then r == Err(StorageError) && db' == db else r.Ok? && db' == finalized.value
  }

  /** The receipt is signed, acknowledges the request and is newer than expected. */
  ghost predicate Answers(w: WitnessState, r: Receipt, q: WitnessRequest, expected: U64) {
    ReceiptMessage(r) in w.signed && Acknowledges(r, q) && r.epoch > expected
  }

  lemma HonestAnswers(events: seq<Event>, q: WitnessRequest, expected: U64)
    ensures var o := Issue(Run(events), q, expected);
            o.result.Ok? ==> Answers(o.state, o.result.value, q, expected)
  {
    ClientAcceptsHonestWitness(events, q, expected);
  }

  /** Sending the request, and the witness processing it, keep the invariant. */
  lemma AskKeeps(
    p: Party, s: System, todo: seq<(VersionId, U64)>, row: StoredVersion, expected: U64, processed: bool, s': System)
    requires Inv(p, s) && s.phase == PhaseOf(todo) && WorksOn(s.db, todo, row, expected)
    requires s' == s.(net := s.net + {IssueMessage(Request(p, row), expected)},
                      events := if processed then s.events + [IssueEvent(Request(p, row), expected)] else s.events)
    ensures Inv(p, s')
  {
    var sent := s.(net := s'.net);
    StepKeeps(p, s, Send, sent);
    if processed {
      StepKeeps(p, sent, Deliver(IssueMessage(Request(p, row), expected)), s');
    }
  }

  /** Finalization keeps the invariant, and cannot fail unless the database does. */
  lemma FinishKeeps(
    p: Party, s: System, todo: seq<(VersionId, U64)>, row: StoredVersion, expected: U64, receipt: Receipt, fault: Fault,
    ok: bool, s': System)
    requires Inv(p, s) && s.phase == PhaseOf(todo) && WorksOn(s.db, todo, row, expected)
    requires Answers(Run(s.events), receipt, Request(p, row), expected)
    requires Attempt(fault, FinalizeTx(s.db, row, receipt), ok, s.db, s'.db)
    requires s' == s.(db := s'.db, unlocked := ok, phase := PhaseOf(if ok then todo[1..] else []))
    ensures Inv(p, s') && FinalizeTx(s.db, row, receipt).Some?
  {
    OneToDo(todo, s.db);
    AcceptFinalizes(p, s.db, s.events, s.net, row.versionId, receipt);
    StepKeeps(p, s, Accept(receipt, fault, ok), s');
  }

  /** Every staged version is listed once, so the list is as long as the table. */
  lemma CountsListed(todo: seq<(VersionId, U64)>, pending: map<VersionId, U64>)
    requires Lists(todo, pending)
    ensures |todo| == |pending|
  {
    var listed := seq(|todo|, i requires 0 <= i < |todo| => todo[i].0);
    forall v
      ensures v in listed <==> v in pending.Keys
    {
      if v in pending {
        var i :| 0 <= i < |todo| && todo[i].0 == v;
        assert listed[i] == v;
      }
    }
    DistinctCount(listed, pending.Keys);
  }

  /**
   From a state that satisfies the invariant, a put that meets no trouble succeeds if and only if the
   version can be stored and the vault has an epoch left. In particular an object can be put again.
   */
  lemma PutExactly(p: Party, s: System, row: StoredVersion, chunks: seq<EncryptedChunk>)
    requires Inv(p, s) && s.unlocked && s.phase.Idle? && InOrder(chunks)
    ensures WitnessedPut(p, s.db, Run(s.events), row, chunks).result.Ok? <==>
              Storable(s.db, row, chunks) && NextEpoch(Run(s.events), p.vault) < I64_MAX
    ensures Storable(s.db, row, chunks) ==> Stageable(s.db, Run(s.events).signed, row, chunks)
  {
    var w, expected := Run(s.events), LocalEpoch(s.db, row.objectId);
    ActiveIsLocal(p, s.db, w, row.objectId);
    HistoryFacts(s.events);
    NextExceedsLocal(p, s.db, w, row.objectId);
    StageExactly(s.db, row, chunks, expected);
    if Storable(s.db, row, chunks) {
      var d := StageTx(s.db, row, chunks, expected).value;
      var staged := s.(db := d, phase := Working([(row.versionId, expected)]));
      StartPutKeeps(p, s, row, chunks, NoFault, true, staged);
      StageIsStaged(s.db, row, chunks);
      StagedExactly(p, s, staged, row);
    }
  }

  /** The active receipt verifies and staging with its epoch applies. */
  ghost predicate Stageable(db: Db, signed: set<Message>, row: StoredVersion, chunks: seq<EncryptedChunk>) {
    var active := Reading.ActiveReceipt(db, signed, row.objectId);
    active.Ok? && StageTx(db, row, chunks, EpochOf(active.value)).Some?
  }

  lemma StagedExactly(p: Party, s: System, staged: System, row: StoredVersion)
    requires Inv(p, s) && Inv(p, staged) && staged.events == s.events && Staged(s.db, staged.db, row)
    ensures var w, expected := Run(s.events), LocalEpoch(s.db, row.objectId);
            var issued := Issue(w, Request(p, row), expected);
            var receipt := Checked(issued.result, Request(p, row), expected);
            && (receipt.Ok? <==> NextEpoch(w, p.vault) < I64_MAX)
            && (receipt.Ok? ==> FinalizeTx(staged.db, row, receipt.value).Some?)
  {
    var w, v := Run(s.events), row.versionId;
    HistoryFacts(s.events);
    RecoveryAnswer(p, staged.db, w, v);
    assert forall r :: !Issued(p, w, v, r);
    HonestAnswers(s.events, Request(p, row), LocalEpoch(s.db, row.objectId));
    if NextEpoch(w, p.vault) < I64_MAX {
      RecoveryFinalizes(p, staged, v);
    }
  }

  lemma AtMostOneToDo(todo: seq<(VersionId, U64)>, db: Db)
    requires PendingInv(db) && Lists(todo, db.pending)
    ensures |todo| <= 1
  {
    if todo != [] {
      OneToDo(todo, db);
    }
  }

  lemma AnswerFacts(p: Party, s: System, v: VersionId, todo: seq<(VersionId, U64)>)
    requires Inv(p, s) && s.phase == PhaseOf(todo) && todo != [] && todo[0].0 == v
    ensures v in s.db.pending && s.db.pending[v] == todo[0].1
    ensures var o := Issue(Run(s.events), Request(p, s.db.versions[v]), todo[0].1);
            && (NextEpoch(Run(s.events), p.vault) < I64_MAX ==> o.result.Ok?)
            && (o.result.Ok? ==> Answers(o.state, o.result.value, Request(p, s.db.versions[v]), todo[0].1))
  {
    OneToDo(todo, s.db);
    HistoryFacts(s.events);
    RecoveryAnswer(p, s.db, Run(s.events), v);
    ClientAcceptsHonestWitness(s.events, Request(p, s.db.versions[v]), todo[0].1);
  }

  lemma IdleHeadsMatch(p: Party, s: System)
    requires Inv(p, s) && s.unlocked && s.phase.Idle?
    ensures s.db.pending == map[] && HeadsMatch(p, s.db, Run(s.events))
  {
    forall obj
      ensures StoredReceipt(Run(s.events), p.vault, obj) == LocalReceipt(s.db, obj)
    {
      assert HeadOk(p, s.db, Run(s.events), obj);
    }
  }
}
