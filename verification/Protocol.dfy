/**
 Witnessed publication across two stores: the vault's tables and the witness's tables change in
 separate transactions, joined only by messages that may be lost, repeated, delayed and reordered.
 */
module Protocol {
  import opened Format
  import opened Transcripts
  import opened Storage
  import opened Witness

  /** The publishing vault: its identifier and the commitment it computes for a version. */
  datatype Party = Party(vault: VaultId, commit: StoredVersion -> Bytes32)

  function Request(p: Party, row: StoredVersion): (q: WitnessRequest) {
    WitnessRequest(p.vault, row.objectId, row.versionId, p.commit(row))
  }

  datatype IssueMessage = IssueMessage(request: WitnessRequest, expected: U64)

  /** A vault is between requests, or works through staged versions: its own or those found on unlocking. */
  datatype Phase = Idle | Working(todo: seq<(VersionId, U64)>)

  /** `events` are the requests the witness has committed; its tables and signatures follow from them. */
  datatype System = System(db: Db, unlocked: bool, phase: Phase, events: seq<Event>, net: set<IssueMessage>)

  const INITIAL: System := System(EMPTY_DB, true, Idle, [], {})

  function LocalReceipt(db: Db, obj: ObjectId): (r: Option<Receipt>) {
    if obj in db.objects && db.objects[obj] in db.receipts then Some(db.receipts[db.objects[obj]]) else None
  }

  function LocalEpoch(db: Db, obj: ObjectId): (e: U64) {
    EpochOf(LocalReceipt(db, obj))
  }

  // ----- Steps -----

  datatype Action =
    | StartPut(row: StoredVersion, chunks: seq<EncryptedChunk>, fault: Fault, ok: bool)
    | Send
    | Deliver(message: IssueMessage)
    | ForeignEvent(event: Event)
    | Accept(receipt: Receipt, fault: Fault, ok: bool)
    | Stop
    | Unlock(todo: seq<(VersionId, U64)>)

  predicate AfterWork(phase: Phase, todo: seq<(VersionId, U64)>) {
    phase == if todo == [] then Idle else Working(todo)
  }

  /** The staged versions, each listed once with the epoch it was staged with. */
  ghost predicate Lists(todo: seq<(VersionId, U64)>, pending: map<VersionId, U64>) {
    && (forall i :: 0 <= i < |todo| ==> todo[i].0 in pending && pending[todo[i].0] == todo[i].1)
    && (forall v :: v in pending ==> exists i :: 0 <= i < |todo| && todo[i].0 == v)
    && (forall i, j :: 0 <= i < j < |todo| ==> todo[i].0 != todo[j].0)
  }

  /** Staging: the expected epoch is that of the active receipt, or zero. */
  ghost predicate StartPutStep(s: System, row: StoredVersion, chunks: seq<EncryptedChunk>, fault: Fault, ok: bool, s': System) {
    var expected := LocalEpoch(s.db, row.objectId);
    && s.unlocked && s.phase.Idle? && InOrder(chunks)
    && Attempt(fault, StageTx(s.db, row, chunks, expected), ok, s.db, s'.db)
    && s' == s.(db := s'.db, unlocked := ok, phase := if ok then Working([(row.versionId, expected)]) else Idle)
  }

  ghost predicate SendStep(p: Party, s: System, s': System) {
    && s.phase.Working? && s.phase.todo != [] && s.phase.todo[0].0 in s.db.versions
    && s' == s.(net := s.net + {IssueMessage(Request(p, s.db.versions[s.phase.todo[0].0]), s.phase.todo[0].1)})
  }

  /**
   Finalization with any signed receipt, new or replayed, that passes the client's checks: it
   acknowledges the request and its epoch exceeds the expected one.
   */
  ghost predicate AcceptStep(p: Party, s: System, receipt: Receipt, fault: Fault, ok: bool, s': System) {
    && s.phase.Working? && s.phase.todo != [] && s.phase.todo[0].0 in s.db.versions
    && var row := s.db.versions[s.phase.todo[0].0];
    && ReceiptMessage(receipt) in Run(s.events).signed
    && Acknowledges(receipt, Request(p, row)) && receipt.epoch > s.phase.todo[0].1
    && Attempt(fault, FinalizeTx(s.db, row, receipt), ok, s.db, s'.db)
    && AfterWork(s'.phase, if ok then s.phase.todo[1..] else [])
    && s' == s.(db := s'.db, unlocked := ok, phase := s'.phase)
  }

  ghost predicate Step(p: Party, s: System, a: Action, s': System) {
    match a
    case StartPut(row, chunks, fault, ok) => StartPutStep(s, row, chunks, fault, ok, s')
    case Send => SendStep(p, s, s')
    case Deliver(m) => m in s.net && s' == s.(events := s.events + [IssueEvent(m.request, m.expected)])
    case ForeignEvent(e) =>
      (e.IssueEvent? ==> e.request.vault != p.vault) && s' == s.(events := s.events + [e])
    case Accept(receipt, fault, ok) => AcceptStep(p, s, receipt, fault, ok, s')
    // A lock, a failure that locks, a crash or a restart: only the tables survive.
    case Stop => s' == s.(unlocked := false, phase := Idle)
    case Unlock(todo) =>
      s.phase.Idle? && Lists(todo, s.db.pending) && AfterWork(s'.phase, todo) && s' == s.(unlocked := true, phase := s'.phase)
  }

  ghost predicate IsRun(p: Party, states: seq<System>, actions: seq<Action>) {
    && |states| == |actions| + 1 && states[0] == INITIAL
    && forall i :: 0 <= i < |actions| ==> Step(p, states[i], actions[i], states[i + 1])
  }

  // ----- The invariant -----

  ghost predicate PendingInv(db: Db) {
    && (forall v, w :: v in db.pending && w in db.pending ==> v == w)
    && (forall v :: v in db.pending ==>
          v in db.versions && v !in db.receipts && db.pending[v] == LocalEpoch(db, db.versions[v].objectId))
    && (forall v :: v in db.versions ==> db.versions[v].versionId == v && (v in db.pending || v in db.receipts))
  }

  ghost predicate ReceiptInv(p: Party, db: Db, w: WitnessState) {
    && (forall o :: o in db.objects ==>
          db.objects[o] in db.receipts && db.objects[o] in db.versions && db.versions[db.objects[o]].objectId == o)
    && (forall v :: v in db.receipts ==>
          && v in db.versions && Acknowledges(db.receipts[v], Request(p, db.versions[v]))
          && ReceiptMessage(db.receipts[v]) in w.signed
          && db.versions[v].objectId in db.objects
          && db.receipts[v].epoch <= LocalEpoch(db, db.versions[v].objectId))
  }

  /** A head ahead of the local receipt belongs to the staged version of that object. */
  ghost predicate Ahead(p: Party, db: Db, head: Receipt, obj: ObjectId) {
    && head.version in db.pending && head.version in db.versions && db.versions[head.version].objectId == obj
    && Acknowledges(head, Request(p, db.versions[head.version]))
    && head.epoch > LocalEpoch(db, obj)
  }

  ghost predicate HeadInv(p: Party, db: Db, w: WitnessState) {
    forall obj :: HeadOk(p, db, w, obj)
  }

  ghost predicate HeadOk(p: Party, db: Db, w: WitnessState, obj: ObjectId) {
    var head := StoredReceipt(w, p.vault, obj);
    head == LocalReceipt(db, obj) || (head.Some? && Ahead(p, db, head.value, obj))
  }

  /** The only signed receipts are those in the table, and the head for the staged version. */
  ghost predicate SignedInv(vault: VaultId, db: Db, w: WitnessState) {
    forall r :: ReceiptMessage(r) in w.signed && r.vault == vault ==>
      && r.version in db.versions && r.obj == db.versions[r.version].objectId
      && (r.version in db.receipts ==> r == db.receipts[r.version])
      && (r.version in db.pending ==> StoredReceipt(w, vault, r.obj) == Some(r))
  }

  /** Messages under way ask for a staged version with its own epoch, or for one that is long settled. */
  ghost predicate NetInv(p: Party, db: Db, net: set<IssueMessage>) {
    forall m :: m in net ==>
      && m.request.version in db.versions && m.request == Request(p, db.versions[m.request.version])
      && (m.request.version in db.pending ==> m.expected == db.pending[m.request.version])
      && (m.request.version in db.receipts ==> m.expected < db.receipts[m.request.version].epoch)
  }

  ghost predicate PhaseInv(s: System) {
    && (!s.unlocked ==> s.phase.Idle?)
    && (s.unlocked && s.phase.Idle? ==> s.db.pending == map[])
    && (s.phase.Working? ==> s.unlocked && s.phase.todo != [] && Lists(s.phase.todo, s.db.pending))
  }

  ghost predicate Inv(p: Party, s: System) {
    && Valid(s.db)
    && PendingInv(s.db)
    && ReceiptInv(p, s.db, Run(s.events))
    && HeadInv(p, s.db, Run(s.events))
    && SignedInv(p.vault, s.db, Run(s.events))
    && NetInv(p, s.db, s.net)
    && PhaseInv(s)
  }

  lemma InitialInv(p: Party)
    ensures Inv(p, INITIAL)
  {
    forall obj
      ensures HeadOk(p, EMPTY_DB, EMPTY, obj)
    {
    }
  }

  // ----- What the witness contributes -----

  ghost predicate HeadsVerify(w: WitnessState) {
    forall vault, obj :: LoadReceipt(w, vault, obj) == Ok(StoredReceipt(w, vault, obj))
  }

  ghost predicate EpochsFit(w: WitnessState) {
    && (forall r :: ReceiptMessage(r) in w.signed ==> 1 <= r.epoch < NextEpoch(w, r.vault))
    && (forall vault :: 1 <= NextEpoch(w, vault) <= I64_MAX)
  }

  ghost predicate OnePerEpoch(w: WitnessState) {
    forall r, q :: (ReceiptMessage(r) in w.signed && ReceiptMessage(q) in w.signed
                    && r.vault == q.vault && r.epoch == q.epoch) ==> r == q
  }

  lemma SignedEpochsDiffer(g: seq<Grant>, w: WitnessState, r: Receipt, q: Receipt)
    requires SignedAreGranted(g, w) && EpochsIncrease(g)
    requires ReceiptMessage(r) in w.signed && ReceiptMessage(q) in w.signed && r.vault == q.vault && r.epoch == q.epoch
    ensures r == q
  {
    var i :| 0 <= i < |g| && g[i].receipt == r;
    var j :| 0 <= j < |g| && g[j].receipt == q;
  }

  lemma HistoryFacts(events: seq<Event>)
    ensures HeadsVerify(Run(events)) && EpochsFit(Run(events)) && OnePerEpoch(Run(events))
  {
    var g, w := Grants(events), Run(events);
    ForkFreedom(events);
    forall vault, obj
      ensures LoadReceipt(w, vault, obj) == Ok(StoredReceipt(w, vault, obj))
    {
      StoredVerifies(g, w, vault, obj);
    }
    forall r | ReceiptMessage(r) in w.signed
      ensures 1 <= r.epoch < NextEpoch(w, r.vault)
    {
      var i :| 0 <= i < |g| && g[i].receipt == r;
    }
    forall r, q | ReceiptMessage(r) in w.signed && ReceiptMessage(q) in w.signed && r.vault == q.vault && r.epoch == q.epoch
      ensures r == q
    {
      SignedEpochsDiffer(g, w, r, q);
    }
    forall vault
      ensures 1 <= NextEpoch(w, vault) <= I64_MAX
    {
      CountersFit(events, vault);
    }
  }

  // ----- Deliveries -----

  /** Heads never lag behind the local receipt. */
  lemma HeadAtLeastLocal(p: Party, db: Db, w: WitnessState, obj: ObjectId)
    requires HeadOk(p, db, w, obj) && LocalReceipt(db, obj).Some?
    ensures var head := StoredReceipt(w, p.vault, obj); head.Some? && head.value.epoch >= LocalEpoch(db, obj)
  {
  }

  lemma OutdatedRequest(w: WitnessState, q: WitnessRequest, expected: U64)
    requires LoadReceipt(w, q.vault, q.obj) == Ok(StoredReceipt(w, q.vault, q.obj))
    requires var head := StoredReceipt(w, q.vault, q.obj); head.Some? && head.value.epoch > expected
    ensures Issue(w, q, expected).state == w
  {
  }

  /** A message for a version that already has its receipt changes nothing, however late it arrives. */
  lemma SettledMessage(p: Party, db: Db, w: WitnessState, m: IssueMessage)
    requires HeadsVerify(w) && ReceiptInv(p, db, w) && HeadOk(p, db, w, m.request.obj)
    requires m.request.version in db.receipts && m.request.version in db.versions
    requires m.request == Request(p, db.versions[m.request.version])
    requires m.expected < db.receipts[m.request.version].epoch
    ensures Issue(w, m.request, m.expected).state == w
  {
    var v := m.request.version;
    var obj := db.versions[v].objectId;
    assert obj in db.objects && db.objects[obj] in db.receipts && db.receipts[v].epoch <= LocalEpoch(db, obj);
    HeadAtLeastLocal(p, db, w, obj);
    OutdatedRequest(w, m.request, m.expected);
  }

  /** The head of an object whose version is staged is still the local receipt, or already the new one. */
  lemma StagedHead(p: Party, db: Db, w: WitnessState, v: VersionId)
    requires PendingInv(db) && ReceiptInv(p, db, w) && HeadInv(p, db, w) && v in db.pending
    ensures var obj := db.versions[v].objectId;
            var head := StoredReceipt(w, p.vault, obj);
            if head.Some? && head.value.version == v then
              Acknowledges(head.value, Request(p, db.versions[v])) && head.value.epoch > db.pending[v]
            else
              head == LocalReceipt(db, obj) && EpochOf(head) == db.pending[v]
  {
    var obj := db.versions[v].objectId;
    assert HeadOk(p, db, w, obj);
    LocalIsNotStaged(p, db, w, obj, v);
  }

  lemma LocalIsNotStaged(p: Party, db: Db, w: WitnessState, obj: ObjectId, v: VersionId)
    requires PendingInv(db) && ReceiptInv(p, db, w) && v in db.pending
    ensures LocalReceipt(db, obj).Some? ==> LocalReceipt(db, obj).value.version != v
  {
    if LocalReceipt(db, obj).Some? {
      var active := db.objects[obj];
      assert Acknowledges(db.receipts[active], Request(p, db.versions[active]));
    }
  }

  /** The existing head for the version if there is one, and otherwise a newly issued receipt. */
  function StagedAnswer(w: WitnessState, q: WitnessRequest): (o: Outcome<Receipt>) {
    var head, next := StoredReceipt(w, q.vault, q.obj), NextEpoch(w, q.vault);
    if head.Some? && head.value.version == q.version then Outcome(Ok(head.value), w)
    else if next >= I64_MAX then Outcome(Err(StorageError), w)
    else Outcome(Ok(Receipt(q.vault, q.obj, q.version, next, q.commitment)), Advance(w, q, next))
  }

  /** What the witness does with a request for a staged version. */
  lemma StagedOutcome(w: WitnessState, q: WitnessRequest, e: U64)
    requires LoadReceipt(w, q.vault, q.obj) == Ok(StoredReceipt(w, q.vault, q.obj))
    requires var head := StoredReceipt(w, q.vault, q.obj);
             if head.Some? && head.value.version == q.version then Acknowledges(head.value, q) && head.value.epoch > e
             else EpochOf(head) == e
    ensures Issue(w, q, e) == StagedAnswer(w, q)
  {
  }

  /** Advancing the head of the staged version keeps the two stores in step. */
  lemma AdvanceKeeps(p: Party, db: Db, w: WitnessState, v: VersionId)
    requires EpochsFit(w) && PendingInv(db) && ReceiptInv(p, db, w) && HeadInv(p, db, w)
    requires SignedInv(p.vault, db, w)
    requires v in db.pending && NextEpoch(w, p.vault) < I64_MAX
    requires StoredReceipt(w, p.vault, db.versions[v].objectId) == LocalReceipt(db, db.versions[v].objectId)
    ensures var w' := Advance(w, Request(p, db.versions[v]), NextEpoch(w, p.vault));
            ReceiptInv(p, db, w') && HeadInv(p, db, w') && SignedInv(p.vault, db, w')
  {
    var q := Request(p, db.versions[v]);
    var r := Receipt(p.vault, q.obj, v, NextEpoch(w, p.vault), q.commitment);
    assert db.versions[v].versionId == v;
    NextExceedsLocal(p, db, w, q.obj);
    AdvanceKeepsHeads(p, db, w, q, r);
    NothingSignedYet(p, db, w, v);
    AdvanceKeepsSigned(p.vault, db, w, q, r);
  }

  lemma AdvanceKeepsHeads(p: Party, db: Db, w: WitnessState, q: WitnessRequest, r: Receipt)
    requires HeadInv(p, db, w) && q.vault == p.vault && r.epoch < I64_MAX
    requires r == Receipt(p.vault, q.obj, q.version, r.epoch, q.commitment) && Ahead(p, db, r, q.obj)
    ensures HeadInv(p, db, Advance(w, q, r.epoch))
  {
    var w' := Advance(w, q, r.epoch);
    forall obj
      ensures HeadOk(p, db, w', obj)
    {
      if obj == q.obj {
        assert StoredReceipt(w', p.vault, obj) == Some(r);
      } else {
        assert HeadOk(p, db, w, obj);
        assert StoredReceipt(w', p.vault, obj) == StoredReceipt(w, p.vault, obj);
      }
    }
  }

  lemma AdvanceKeepsSigned(vault: VaultId, db: Db, w: WitnessState, q: WitnessRequest, r: Receipt)
    requires SignedInv(vault, db, w) && PendingInv(db) && q.vault == vault && r.epoch < I64_MAX
    requires r == Receipt(vault, q.obj, q.version, r.epoch, q.commitment)
    requires q.version in db.pending && q.obj == db.versions[q.version].objectId
    requires forall x :: ReceiptMessage(x) in w.signed && x.vault == vault ==> x.version != q.version
    ensures SignedInv(vault, db, Advance(w, q, r.epoch))
  {
    var w' := Advance(w, q, r.epoch);
    forall x | ReceiptMessage(x) in w'.signed && x.vault == vault
      ensures x.version in db.versions && x.obj == db.versions[x.version].objectId
      ensures x.version in db.receipts ==> x == db.receipts[x.version]
      ensures x.version in db.pending ==> StoredReceipt(w', vault, x.obj) == Some(x)
    {
      if x != r {
        assert ReceiptMessage(x) in w.signed;
      }
    }
  }

  lemma NextExceedsLocal(p: Party, db: Db, w: WitnessState, obj: ObjectId)
    requires EpochsFit(w) && ReceiptInv(p, db, w)
    ensures NextEpoch(w, p.vault) > LocalEpoch(db, obj)
  {
    var local := LocalReceipt(db, obj);
    if local.Some? {
      assert ReceiptMessage(local.value) in w.signed && local.value.vault == p.vault;
    }
  }

  lemma NothingSignedYet(p: Party, db: Db, w: WitnessState, v: VersionId)
    requires PendingInv(db) && ReceiptInv(p, db, w) && SignedInv(p.vault, db, w) && v in db.pending
    requires StoredReceipt(w, p.vault, db.versions[v].objectId) == LocalReceipt(db, db.versions[v].objectId)
    ensures forall x :: ReceiptMessage(x) in w.signed && x.vault == p.vault ==> x.version != v
  {
    LocalIsNotStaged(p, db, w, db.versions[v].objectId, v);
  }

  lemma DeliverKeeps(p: Party, db: Db, w: WitnessState, net: set<IssueMessage>, m: IssueMessage)
    requires HeadsVerify(w) && EpochsFit(w) && PendingInv(db) && ReceiptInv(p, db, w) && HeadInv(p, db, w)
    requires SignedInv(p.vault, db, w) && NetInv(p, db, net) && m in net
    ensures var w' := Issue(w, m.request, m.expected).state;
            ReceiptInv(p, db, w') && HeadInv(p, db, w') && SignedInv(p.vault, db, w')
  {
    var v := m.request.version;
    assert HeadOk(p, db, w, m.request.obj);
    if v in db.receipts {
      SettledMessage(p, db, w, m);
    } else {
      StagedHead(p, db, w, v);
      StagedOutcome(w, m.request, m.expected);
      var head := StoredReceipt(w, p.vault, m.request.obj);
      if !(head.Some? && head.value.version == v) && NextEpoch(w, p.vault) < I64_MAX {
        AdvanceKeeps(p, db, w, v);
      }
    }
  }

  /** Requests of other vaults and head requests leave this vault's part of the witness alone. */
  ghost predicate SameFor(vault: VaultId, w: WitnessState, w': WitnessState) {
    && (forall obj :: StoredReceipt(w', vault, obj) == StoredReceipt(w, vault, obj))
    && (forall r: Receipt :: r.vault == vault ==> (ReceiptMessage(r) in w'.signed <==> ReceiptMessage(r) in w.signed))
  }

  lemma ForeignSame(vault: VaultId, w: WitnessState, e: Event)
    requires e.IssueEvent? ==> e.request.vault != vault
    ensures SameFor(vault, w, Witness.Step(w, e))
  {
  }

  lemma SameKeeps(p: Party, db: Db, w: WitnessState, w': WitnessState)
    requires ReceiptInv(p, db, w) && HeadInv(p, db, w) && SignedInv(p.vault, db, w) && SameFor(p.vault, w, w')
    ensures ReceiptInv(p, db, w') && HeadInv(p, db, w') && SignedInv(p.vault, db, w')
  {
    forall obj
      ensures HeadOk(p, db, w', obj)
    {
      assert HeadOk(p, db, w, obj);
    }
  }

  lemma RunSnoc(events: seq<Event>, e: Event)
    ensures Run(events + [e]) == Witness.Step(Run(events), e)
  {
    var all := events + [e];
    assert all[..|all| - 1] == events;
  }

  // ----- Staging and finalization -----

  /** What staging changes, apart from the chunk table. */
  ghost predicate Staged(db: Db, d: Db, row: StoredVersion) {
    && row.versionId !in db.versions && db.pending == map[]
    && d.objects == db.objects && d.receipts == db.receipts
    && d.versions == db.versions[row.versionId := row]
    && d.pending == map[row.versionId := LocalEpoch(db, row.objectId)]
  }

  lemma StageIsStaged(db: Db, row: StoredVersion, chunks: seq<EncryptedChunk>)
    requires Valid(db) && InOrder(chunks) && db.pending == map[]
    requires StageTx(db, row, chunks, LocalEpoch(db, row.objectId)).Some?
    ensures var d := StageTx(db, row, chunks, LocalEpoch(db, row.objectId)).value; Valid(d) && Staged(db, d, row)
  {
    StageKeepsValid(db, row, chunks, LocalEpoch(db, row.objectId));
  }

  lemma StageKeepsLocal(p: Party, db: Db, d: Db, w: WitnessState, row: StoredVersion)
    requires Staged(db, d, row) && PendingInv(db) && ReceiptInv(p, db, w)
    ensures PendingInv(d) && ReceiptInv(p, d, w)
  {
    assert row.versionId !in db.receipts;
    assert forall obj :: LocalEpoch(d, obj) == LocalEpoch(db, obj);
  }

  lemma StageKeepsHeads(p: Party, db: Db, d: Db, w: WitnessState, row: StoredVersion)
    requires Staged(db, d, row) && HeadInv(p, db, w)
    ensures HeadInv(p, d, w)
  {
    forall obj
      ensures HeadOk(p, d, w, obj)
    {
      assert HeadOk(p, db, w, obj);
      assert LocalReceipt(d, obj) == LocalReceipt(db, obj);
    }
  }

  lemma StageKeepsMessages(p: Party, db: Db, d: Db, w: WitnessState, net: set<IssueMessage>, row: StoredVersion)
    requires Staged(db, d, row) && SignedInv(p.vault, db, w) && NetInv(p, db, net)
    ensures SignedInv(p.vault, d, w) && NetInv(p, d, net)
  {
  }

  /** What finalization changes. */
  ghost predicate Finalized(db: Db, d: Db, row: StoredVersion, r: Receipt) {
    && row.versionId in db.pending
    && d.versions == db.versions && d.objects == db.objects[row.objectId := row.versionId]
    && d.receipts == db.receipts[row.versionId := r] && d.pending == db.pending - {row.versionId}
  }

  /** Any accepted receipt for a staged version is the head, and the receipt table has room for it. */
  lemma AcceptedIsHead(p: Party, db: Db, w: WitnessState, v: VersionId, r: Receipt)
    requires PendingInv(db) && SignedInv(p.vault, db, w) && v in db.pending
    requires ReceiptMessage(r) in w.signed && Acknowledges(r, Request(p, db.versions[v]))
    ensures StoredReceipt(w, p.vault, db.versions[v].objectId) == Some(r)
  {
  }

  /** A settled version's receipt carries another epoch than that of a staged version. */
  lemma EpochsDiffer(p: Party, db: Db, w: WitnessState, u: VersionId, v: VersionId, r: Receipt)
    requires PendingInv(db) && ReceiptInv(p, db, w) && OnePerEpoch(w)
    requires u in db.receipts && v in db.pending
    requires ReceiptMessage(r) in w.signed && Acknowledges(r, Request(p, db.versions[v]))
    ensures db.receipts[u].epoch != r.epoch
  {
    var settled := db.receipts[u];
    assert Acknowledges(settled, Request(p, db.versions[u])) && ReceiptMessage(settled) in w.signed;
    assert settled.version == u && r.version == v && u != v;
  }

  lemma FinalizeSucceeds(p: Party, db: Db, w: WitnessState, v: VersionId, r: Receipt)
    requires PendingInv(db) && ReceiptInv(p, db, w) && EpochsFit(w) && OnePerEpoch(w)
    requires v in db.pending && ReceiptMessage(r) in w.signed && Acknowledges(r, Request(p, db.versions[v]))
    ensures FinalizeTx(db, db.versions[v], r).Some?
    ensures Finalized(db, FinalizeTx(db, db.versions[v], r).value, db.versions[v], r)
  {
    forall u | u in db.receipts
      ensures db.receipts[u].epoch != r.epoch
    {
      EpochsDiffer(p, db, w, u, v, r);
    }
    FinalizeApplies(db, w, v, r);
  }

  lemma FinalizeApplies(db: Db, w: WitnessState, v: VersionId, r: Receipt)
    requires PendingInv(db) && EpochsFit(w) && v in db.pending && ReceiptMessage(r) in w.signed
    requires r.version == v && r.obj == db.versions[v].objectId
    requires forall u :: u in db.receipts ==> db.receipts[u].epoch != r.epoch
    ensures FinalizeTx(db, db.versions[v], r).Some?
    ensures Finalized(db, FinalizeTx(db, db.versions[v], r).value, db.versions[v], r)
  {
    assert db.versions[v].versionId == v && !EpochUsed(db, r.epoch);
    assert r.epoch < NextEpoch(w, r.vault) <= I64_MAX;
  }

  lemma FinalizeKeepsEpochs(p: Party, db: Db, d: Db, w: WitnessState, v: VersionId, r: Receipt)
    requires PendingInv(db) && ReceiptInv(p, db, w) && v in db.pending && Finalized(db, d, db.versions[v], r)
    requires r.epoch > db.pending[v]
    ensures forall o :: LocalEpoch(d, o) == if o == db.versions[v].objectId then r.epoch else LocalEpoch(db, o)
    ensures forall o :: LocalEpoch(d, o) >= LocalEpoch(db, o)
  {
    forall o
      ensures LocalEpoch(d, o) == if o == db.versions[v].objectId then r.epoch else LocalEpoch(db, o)
    {
      if o != db.versions[v].objectId && o in db.objects {
        assert db.objects[o] in db.receipts;
      }
    }
  }

  lemma FinalizeKeepsPending(p: Party, db: Db, d: Db, v: VersionId, r: Receipt)
    requires PendingInv(db) && v in db.pending && Finalized(db, d, db.versions[v], r)
    ensures d.pending == map[] && PendingInv(d)
  {
    assert db.versions[v].versionId == v;
    assert d.pending == map[];
  }

  /** A receipt that was there before stays bound, signed and not newer than the active one. */
  lemma FinalizeKeepsReceipt(p: Party, db: Db, d: Db, w: WitnessState, v: VersionId, r: Receipt, u: VersionId)
    requires PendingInv(db) && ReceiptInv(p, db, w) && v in db.pending && Finalized(db, d, db.versions[v], r)
    requires r.epoch > db.pending[v] && u in db.receipts
    ensures u in d.receipts && d.receipts[u] == db.receipts[u] && u in d.versions && d.versions[u] == db.versions[u]
    ensures d.versions[u].objectId in d.objects && d.receipts[u].epoch <= LocalEpoch(d, d.versions[u].objectId)
  {
    FinalizeKeepsEpochs(p, db, d, w, v, r);
  }

  lemma FinalizeKeepsReceipts(p: Party, db: Db, d: Db, w: WitnessState, v: VersionId, r: Receipt)
    requires PendingInv(db) && ReceiptInv(p, db, w) && v in db.pending && Finalized(db, d, db.versions[v], r)
    requires ReceiptMessage(r) in w.signed && Acknowledges(r, Request(p, db.versions[v])) && r.epoch > db.pending[v]
    ensures ReceiptInv(p, d, w)
  {
    assert db.versions[v].versionId == v;
    forall u | u in d.receipts
      ensures u in d.versions && Acknowledges(d.receipts[u], Request(p, d.versions[u]))
      ensures ReceiptMessage(d.receipts[u]) in w.signed && d.versions[u].objectId in d.objects
      ensures d.receipts[u].epoch <= LocalEpoch(d, d.versions[u].objectId)
    {
      if u != v {
        FinalizeKeepsReceipt(p, db, d, w, v, r, u);
      }
    }
  }

  lemma FinalizeKeepsHeads(p: Party, db: Db, d: Db, w: WitnessState, v: VersionId, r: Receipt)
    requires PendingInv(db) && ReceiptInv(p, db, w) && HeadInv(p, db, w)
    requires v in db.pending && Finalized(db, d, db.versions[v], r)
    requires StoredReceipt(w, p.vault, db.versions[v].objectId) == Some(r)
    ensures HeadsMatch(p, d, w)
  {
    forall obj
      ensures StoredReceipt(w, p.vault, obj) == LocalReceipt(d, obj)
    {
      assert HeadOk(p, db, w, obj);
      if obj != db.versions[v].objectId {
        assert LocalReceipt(d, obj) == LocalReceipt(db, obj);
      }
    }
  }

  /** Every head is the local receipt of its object: the comparison that verification makes. */
  ghost predicate HeadsMatch(p: Party, db: Db, w: WitnessState) {
    forall obj :: StoredReceipt(w, p.vault, obj) == LocalReceipt(db, obj)
  }

  lemma FinalizeKeepsMessages(p: Party, db: Db, d: Db, w: WitnessState, net: set<IssueMessage>, v: VersionId, r: Receipt)
    requires PendingInv(db) && v in db.pending && Finalized(db, d, db.versions[v], r)
    requires SignedInv(p.vault, db, w) && NetInv(p, db, net)
    requires StoredReceipt(w, p.vault, db.versions[v].objectId) == Some(r) && r.epoch > db.pending[v]
    ensures SignedInv(p.vault, d, w) && NetInv(p, d, net)
  {
  }

  // ----- Every step keeps the invariant -----

  lemma AttemptCases(fault: Fault, tx: Option<Db>, ok: bool, db: Db, db': Db)
    requires Attempt(fault, tx, ok, db, db')
    ensures tx == Some(db') || (db' == db && !ok)
  {
  }

  lemma ListsOne(v: VersionId, e: U64)
    ensures Lists([(v, e)], map[v := e])
  {
    assert [(v, e)][0].0 == v;
  }

  lemma StartPutKeeps(p: Party, s: System, row: StoredVersion, chunks: seq<EncryptedChunk>, fault: Fault, ok: bool, s': System)
    requires Inv(p, s) && StartPutStep(s, row, chunks, fault, ok, s')
    ensures Inv(p, s')
  {
    var w := Run(s.events);
    AttemptCases(fault, StageTx(s.db, row, chunks, LocalEpoch(s.db, row.objectId)), ok, s.db, s'.db);
    if s'.db != s.db || ok {
      StageIsStaged(s.db, row, chunks);
      StageKeepsLocal(p, s.db, s'.db, w, row);
      StageKeepsHeads(p, s.db, s'.db, w, row);
      StageKeepsMessages(p, s.db, s'.db, w, s.net, row);
    }
    if ok {
      ListsOne(row.versionId, LocalEpoch(s.db, row.objectId));
    }
  }

  lemma SendKeeps(p: Party, s: System, s': System)
    requires Inv(p, s) && SendStep(p, s, s')
    ensures Inv(p, s')
  {
    var v := s.phase.todo[0].0;
    assert v in s.db.pending && s.db.pending[v] == s.phase.todo[0].1;
  }

  lemma EventKeeps(p: Party, s: System, e: Event, s': System)
    requires Inv(p, s) && s' == s.(events := s.events + [e])
    requires (e.IssueEvent? && IssueMessage(e.request, e.expected) in s.net) || (e.IssueEvent? ==> e.request.vault != p.vault)
    ensures Inv(p, s')
  {
    var w := Run(s.events);
    RunSnoc(s.events, e);
    HistoryFacts(s.events);
    if e.IssueEvent? && IssueMessage(e.request, e.expected) in s.net {
      DeliverKeeps(p, s.db, w, s.net, IssueMessage(e.request, e.expected));
    } else {
      ForeignSame(p.vault, w, e);
      SameKeeps(p, s.db, w, Run(s'.events));
    }
  }

  /** With one version staged, the work list holds exactly that version. */
  lemma OneToDo(todo: seq<(VersionId, U64)>, db: Db)
    requires PendingInv(db) && Lists(todo, db.pending) && todo != []
    ensures |todo| == 1 && todo[0].0 in db.pending && db.pending[todo[0].0] == todo[0].1
  {
    var last := todo[|todo| - 1];
    assert last.0 in db.pending && last.0 == todo[0].0;
  }

  /** Finalizing with an accepted receipt: it applies, and brings both stores into agreement. */
  lemma AcceptFinalizes(p: Party, db: Db, events: seq<Event>, net: set<IssueMessage>, v: VersionId, r: Receipt)
    requires Valid(db) && PendingInv(db) && ReceiptInv(p, db, Run(events)) && HeadInv(p, db, Run(events))
    requires SignedInv(p.vault, db, Run(events)) && NetInv(p, db, net)
    requires v in db.pending && ReceiptMessage(r) in Run(events).signed
    requires Acknowledges(r, Request(p, db.versions[v])) && r.epoch > db.pending[v]
    ensures FinalizeTx(db, db.versions[v], r).Some?
    ensures var d, w := FinalizeTx(db, db.versions[v], r).value, Run(events);
            && Valid(d) && d.pending == map[] && PendingInv(d) && ReceiptInv(p, d, w) && HeadsMatch(p, d, w)
            && SignedInv(p.vault, d, w) && NetInv(p, d, net)
  {
    var w := Run(events);
    HistoryFacts(events);
    AcceptedIsHead(p, db, w, v, r);
    FinalizeSucceeds(p, db, w, v, r);
    var d := FinalizeTx(db, db.versions[v], r).value;
    FinalizeKeepsValid(db, db.versions[v], r);
    FinalizeKeepsPending(p, db, d, v, r);
    FinalizeKeepsReceipts(p, db, d, w, v, r);
    FinalizeKeepsHeads(p, db, d, w, v, r);
    FinalizeKeepsMessages(p, db, d, w, net, v, r);
  }

  lemma AcceptKeeps(p: Party, s: System, r: Receipt, fault: Fault, ok: bool, s': System)
    requires Inv(p, s) && AcceptStep(p, s, r, fault, ok, s')
    ensures Inv(p, s')
  {
    var v := s.phase.todo[0].0;
    OneToDo(s.phase.todo, s.db);
    AttemptCases(fault, FinalizeTx(s.db, s.db.versions[v], r), ok, s.db, s'.db);
    AcceptFinalizes(p, s.db, s.events, s.net, v, r);
    if s'.db != s.db {
      MatchingHeads(p, s'.db, Run(s.events));
    }
  }

  lemma MatchingHeads(p: Party, db: Db, w: WitnessState)
    requires HeadsMatch(p, db, w)
    ensures HeadInv(p, db, w)
  {
    forall obj
      ensures HeadOk(p, db, w, obj)
    {
      assert StoredReceipt(w, p.vault, obj) == LocalReceipt(db, obj);
    }
  }

  lemma UnlockKeeps(p: Party, s: System, todo: seq<(VersionId, U64)>, s': System)
    requires Inv(p, s) && Step(p, s, Unlock(todo), s')
    ensures Inv(p, s')
  {
    if todo == [] {
      assert s.db.pending == map[];
    }
  }

  lemma StepKeeps(p: Party, s: System, a: Action, s': System)
    requires Inv(p, s) && Step(p, s, a, s')
    ensures Inv(p, s')
  {
    match a
    case StartPut(row, chunks, fault, ok) => StartPutKeeps(p, s, row, chunks, fault, ok, s');
    case Send => SendKeeps(p, s, s');
    case Deliver(m) => EventKeeps(p, s, IssueEvent(m.request, m.expected), s');
    case ForeignEvent(e) => EventKeeps(p, s, e, s');
    case Accept(receipt, fault, ok) => AcceptKeeps(p, s, receipt, fault, ok, s');
    case Stop =>
    case Unlock(todo) => UnlockKeeps(p, s, todo, s');
  }

  lemma {:induction false} RunKeeps(p: Party, states: seq<System>, actions: seq<Action>, i: nat)
    requires IsRun(p, states, actions) && i < |states|
    ensures Inv(p, states[i])
  {
    if i == 0 {
      InitialInv(p);
    } else {
      RunKeeps(p, states, actions, i - 1);
      StepKeeps(p, states[i - 1], actions[i - 1], states[i]);
    }
  }

  // ----- The theorems -----

  /**
   The cross-store invariant. In every state of every run at most one publication is staged; none is
   while the vault is unlocked between requests; and the witness head of every object is the local
   active receipt, or the receipt of the staged version of that object, whose expected epoch is the
   local one.
   */
  lemma CrossStoreInvariant(p: Party, states: seq<System>, actions: seq<Action>, i: nat)
    requires IsRun(p, states, actions) && i < |states|
    ensures var s := states[i];
            && (forall v, w :: v in s.db.pending && w in s.db.pending ==> v == w)
            && (s.unlocked && s.phase.Idle? ==> s.db.pending == map[])
    ensures forall obj ::
              var db, head := states[i].db, StoredReceipt(Run(states[i].events), p.vault, obj);
              || head == LocalReceipt(db, obj)
              || (&& head.Some? && head.value.version in db.pending && head.value.version in db.versions
                  && Acknowledges(head.value, Request(p, db.versions[head.value.version]))
                  && db.pending[head.value.version] == LocalEpoch(db, obj) < head.value.epoch)
  {
    RunKeeps(p, states, actions, i);
    var db, w := states[i].db, Run(states[i].events);
    forall obj
      ensures var head := StoredReceipt(w, p.vault, obj);
              || head == LocalReceipt(db, obj)
              || (&& head.Some? && head.value.version in db.pending && head.value.version in db.versions
                  && Acknowledges(head.value, Request(p, db.versions[head.value.version]))
                  && db.pending[head.value.version] == LocalEpoch(db, obj) < head.value.epoch)
    {
      assert HeadOk(p, db, w, obj);
    }
  }

  /** Between requests of an unlocked vault the head comparison passes for every object. */
  lemma ServedHeadsMatch(p: Party, states: seq<System>, actions: seq<Action>, i: nat)
    requires IsRun(p, states, actions) && i < |states| && states[i].unlocked && states[i].phase.Idle?
    ensures HeadsMatch(p, states[i].db, Run(states[i].events))
  {
    RunKeeps(p, states, actions, i);
    forall obj
      ensures StoredReceipt(Run(states[i].events), p.vault, obj) == LocalReceipt(states[i].db, obj)
    {
      assert HeadOk(p, states[i].db, Run(states[i].events), obj);
    }
  }

  /** A receipt for this version has been issued. */
  ghost predicate Issued(p: Party, w: WitnessState, v: VersionId, r: Receipt) {
    ReceiptMessage(r) in w.signed && r.vault == p.vault && r.version == v
  }

  /**
   Recovery converges. In every reachable state the witness answers the request of a staged version:
   never with a conflict, and with the receipt it has issued before if there is one; it can only fail
   when none has been issued and the epochs of the vault are exhausted. Finalization with the answer
   always applies, leaves nothing staged, and makes the head comparison pass for every object.
   */
  lemma RecoveryConverges(p: Party, states: seq<System>, actions: seq<Action>, i: nat, v: VersionId)
    requires IsRun(p, states, actions) && i < |states| && v in states[i].db.pending
    ensures v in states[i].db.versions
    ensures var s := states[i];
            var o := Issue(Run(s.events), Request(p, s.db.versions[v]), s.db.pending[v]);
            && (o.result.Err? <==> NextEpoch(Run(s.events), p.vault) >= I64_MAX && !exists r :: Issued(p, Run(s.events), v, r))
            && (o.result.Err? ==> o.result.error == StorageError)
            && (forall r :: Issued(p, Run(s.events), v, r) ==> o.result == Ok(r))
            && (o.result.Ok? ==>
                  var tx := FinalizeTx(s.db, s.db.versions[v], o.result.value);
                  tx.Some? && tx.value.pending == map[] && HeadsMatch(p, tx.value, o.state))
  {
    RunKeeps(p, states, actions, i);
    var s := states[i];
    var w, q, e := Run(s.events), Request(p, s.db.versions[v]), s.db.pending[v];
    HistoryFacts(s.events);
    RecoveryAnswer(p, s.db, w, v);
    if Issue(w, q, e).result.Ok? {
      RecoveryFinalizes(p, s, v);
    }
  }

  lemma RecoveryAnswer(p: Party, db: Db, w: WitnessState, v: VersionId)
    requires PendingInv(db) && ReceiptInv(p, db, w) && HeadInv(p, db, w) && SignedInv(p.vault, db, w)
    requires HeadsVerify(w) && EpochsFit(w) && v in db.pending
    ensures var q, o := Request(p, db.versions[v]), Issue(w, Request(p, db.versions[v]), db.pending[v]);
            && o == StagedAnswer(w, q)
            && (o.result.Err? <==> NextEpoch(w, p.vault) >= I64_MAX && !exists r :: Issued(p, w, v, r))
            && (forall r :: Issued(p, w, v, r) ==> o.result == Ok(r))
  {
    var q := Request(p, db.versions[v]);
    StagedHead(p, db, w, v);
    assert LoadReceipt(w, q.vault, q.obj) == Ok(StoredReceipt(w, q.vault, q.obj));
    StagedOutcome(w, q, db.pending[v]);
    var head := StoredReceipt(w, p.vault, q.obj);
    forall r | Issued(p, w, v, r)
      ensures head == Some(r)
    {
    }
    if head.Some? && head.value.version == v {
      assert Issued(p, w, v, head.value);
    }
  }

  lemma RecoveryFinalizes(p: Party, s: System, v: VersionId)
    requires Inv(p, s) && v in s.db.pending
    requires Issue(Run(s.events), Request(p, s.db.versions[v]), s.db.pending[v]).result.Ok?
    ensures var o := Issue(Run(s.events), Request(p, s.db.versions[v]), s.db.pending[v]);
            var tx := FinalizeTx(s.db, s.db.versions[v], o.result.value);
            tx.Some? && tx.value.pending == map[] && HeadsMatch(p, tx.value, o.state)
  {
    var q, e := Request(p, s.db.versions[v]), s.db.pending[v];
    var asked := s.(net := s.net + {IssueMessage(q, e)});
    var answered := asked.(events := s.events + [IssueEvent(q, e)]);
    EventKeeps(p, asked, IssueEvent(q, e), answered);
    RunSnoc(s.events, IssueEvent(q, e));
    ClientAcceptsHonestWitness(s.events, q, e);
    AcceptFinalizes(p, s.db, answered.events, answered.net, v, Issue(Run(s.events), q, e).result.value);
  }
}
