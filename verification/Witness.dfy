/** The freshness witness: durable conditional heads and the messages signed over them. */
module Witness {
  import opened Format
  import opened Transcripts

  datatype HeadRow = HeadRow(version: VersionId, epoch: U64, commitment: Bytes32)

  /**
   The two witness tables, and the log of every message signed with the one witness key: a signature
   verifies exactly when its message is in the log.
   */
  datatype WitnessState = WitnessState(
    epochs: map<VaultId, U64>,
    heads: map<(VaultId, ObjectId), HeadRow>,
    signed: set<Message>)

  const EMPTY: WitnessState := WitnessState(map[], map[], {})

  function NextEpoch(w: WitnessState, vault: VaultId): (e: U64) {
    if vault in w.epochs then w.epochs[vault] else 1
  }

  function StoredReceipt(w: WitnessState, vault: VaultId, obj: ObjectId): (r: Option<Receipt>) {
    if (vault, obj) in w.heads then
      var row := w.heads[(vault, obj)];
      Some(Receipt(vault, obj, row.version, row.epoch, row.commitment))
    else
      None
  }

  /** The stored receipt, after its signature has been verified again. */
  function LoadReceipt(w: WitnessState, vault: VaultId, obj: ObjectId): (r: Result<Option<Receipt>>) {
    var stored := StoredReceipt(w, vault, obj);
    if stored.Some? && ReceiptMessage(stored.value) !in w.signed then Err(Authentication) else Ok(stored)
  }

  function EpochOf(r: Option<Receipt>): (e: U64) {
    if r.Some? then r.value.epoch else 0
  }

  predicate Acknowledges(r: Receipt, q: WitnessRequest) {
    r.vault == q.vault && r.obj == q.obj && r.version == q.version && r.commitment == q.commitment
  }

  /** The request repeats the version that the head already holds, with an older expected epoch. */
  predicate IsReplay(current: Option<Receipt>, q: WitnessRequest, expected: U64) {
    current.Some? && current.value.version == q.version && current.value.commitment == q.commitment
    && current.value.epoch > expected
  }

  datatype Outcome<T> = Outcome(result: Result<T>, state: WitnessState)

  /** Advances the head of `q.obj` to a newly signed receipt with this epoch. */
  function Advance(w: WitnessState, q: WitnessRequest, epoch: U64): (w': WitnessState)
    requires epoch < I64_MAX
  {
    var receipt := Receipt(q.vault, q.obj, q.version, epoch, q.commitment);
    WitnessState(
      w.epochs[q.vault := epoch + 1],
      w.heads[(q.vault, q.obj) := HeadRow(q.version, epoch, q.commitment)],
      w.signed + {ReceiptMessage(receipt)})
  }

  /** One conditional issue request. */
  function Issue(w: WitnessState, q: WitnessRequest, expected: U64): (o: Outcome<Receipt>) {
    var loaded := LoadReceipt(w, q.vault, q.obj);
    var epoch := NextEpoch(w, q.vault);
    if loaded.Err? then Outcome(Err(loaded.error), w)
    else if IsReplay(loaded.value, q, expected) then Outcome(Ok(loaded.value.value), w)
    else if EpochOf(loaded.value) != expected then Outcome(Err(WitnessConflict), w)
    else if epoch >= I64_MAX then Outcome(Err(StorageError), w)
    else Outcome(Ok(Receipt(q.vault, q.obj, q.version, epoch, q.commitment)), Advance(w, q, epoch))
  }

  /** One challenge-bound head request. */
  function SignHead(w: WitnessState, vault: VaultId, obj: ObjectId, challenge: Bytes32): (o: Outcome<Head>) {
    var loaded := LoadReceipt(w, vault, obj);
    if loaded.Err? then Outcome(Err(loaded.error), w)
    else
      var head := IssuedHead(vault, obj, loaded.value, challenge);
      Outcome(Ok(head), w.(signed := w.signed + {HeadMessage(head)}))
  }

  // ----- The service, statement by statement -----

  class WitnessService {
    var epochs: map<VaultId, U64>
    var heads: map<(VaultId, ObjectId), HeadRow>
    var signed: set<Message>

    function State(): (w: WitnessState)
      reads this
    {
      WitnessState(epochs, heads, signed)
    }

    constructor ()
      ensures State() == EMPTY
    {
      epochs, heads, signed := map[], map[], {};
    }

    /** Runs one issue transaction; `fault` says where SQLite fails, if it does. */
    method IssueWire(q: WitnessRequest, expected: U64, fault: Fault) returns (r: Result<Receipt>)
      modifies this
      ensures fault.NoFault? ==> Outcome(r, State()) == Issue(old(State()), q, expected)
      ensures r.Ok? ==> Outcome(r, State()) == Issue(old(State()), q, expected)
      ensures r.Err? ==> State() == old(State()) || (fault == CommitFails(true) && State() == Issue(old(State()), q, expected).state)
    {
      var current :- LoadReceipt(State(), q.vault, q.obj);
      if current.Some? {
        var receipt := current.value;
        if receipt.version == q.version && receipt.commitment == q.commitment && receipt.epoch > expected {
          return Ok(receipt);
        }
        if receipt.epoch != expected {
          return Err(WitnessConflict);
        }
      } else if expected != 0 {
        return Err(WitnessConflict);
      }

      var epoch := if q.vault in epochs then epochs[q.vault] else 1;
      if epoch >= I64_MAX || fault == StatementFails(0) {
        return Err(StorageError);
      }
      var newEpochs := epochs[q.vault := epoch + 1];
      var receipt := Receipt(q.vault, q.obj, q.version, epoch, q.commitment);
      if fault == StatementFails(1) {
        return Err(StorageError);
      }
      var newHeads := heads[(receipt.vault, receipt.obj) := HeadRow(receipt.version, receipt.epoch, receipt.commitment)];
      if fault == CommitFails(false) {
        return Err(StorageError);
      }
      epochs, heads, signed := newEpochs, newHeads, signed + {ReceiptMessage(receipt)};
      r := if fault == CommitFails(true) then Err(StorageError) else Ok(receipt);
    }

    method HeadWire(vault: VaultId, obj: ObjectId, challenge: Bytes32) returns (r: Result<Head>)
      modifies this
      ensures Outcome(r, State()) == SignHead(old(State()), vault, obj, challenge)
    {
      var receipt :- LoadReceipt(State(), vault, obj);
      var head := IssuedHead(vault, obj, receipt, challenge);
      signed := signed + {HeadMessage(head)};
      r := Ok(head);
    }
  }

  // ----- Runs of requests from any number of clients -----

  datatype Event =
    | IssueEvent(request: WitnessRequest, expected: U64)
    | HeadEvent(vault: VaultId, obj: ObjectId, challenge: Bytes32)

  function Step(w: WitnessState, e: Event): (w': WitnessState) {
    match e
    case IssueEvent(q, expected) => Issue(w, q, expected).state
    case HeadEvent(vault, obj, challenge) => SignHead(w, vault, obj, challenge).state
  }

  function Run(events: seq<Event>): (w: WitnessState) {
    if events == [] then EMPTY else Step(Run(events[..|events| - 1]), events[|events| - 1])
  }

  /** A receipt that was newly issued, with the epoch its request expected. */
  datatype Grant = Grant(receipt: Receipt, expected: U64)

  predicate IsFresh(w: WitnessState, q: WitnessRequest, expected: U64) {
    var loaded := LoadReceipt(w, q.vault, q.obj);
    && loaded.Ok?
    && !IsReplay(loaded.value, q, expected)
    && EpochOf(loaded.value) == expected
    && NextEpoch(w, q.vault) < I64_MAX
  }

  function Granted(w: WitnessState, e: Event): (g: seq<Grant>) {
    if e.IssueEvent? && IsFresh(w, e.request, e.expected) then
      var q := e.request;
      [Grant(Receipt(q.vault, q.obj, q.version, NextEpoch(w, q.vault), q.commitment), e.expected)]
    else
      []
  }

  function Grants(events: seq<Event>): (g: seq<Grant>) {
    if events == [] then []
    else
      var before := events[..|events| - 1];
      Grants(before) + Granted(Run(before), events[|events| - 1])
  }

  predicate ForObject(g: Grant, vault: VaultId, obj: ObjectId) {
    g.receipt.vault == vault && g.receipt.obj == obj
  }

  /** The newest receipt issued for an object. */
  function Newest(g: seq<Grant>, vault: VaultId, obj: ObjectId): (r: Option<Receipt>) {
    if g == [] then None
    else if ForObject(g[|g| - 1], vault, obj) then Some(g[|g| - 1].receipt)
    else Newest(g[..|g| - 1], vault, obj)
  }

  // ----- Fork freedom -----

  ghost predicate HeadsAreNewest(g: seq<Grant>, w: WitnessState) {
    forall vault, obj :: StoredReceipt(w, vault, obj) == Newest(g, vault, obj)
  }

  ghost predicate EpochsIncrease(g: seq<Grant>) {
    forall i, j :: 0 <= i < j < |g| && g[i].receipt.vault == g[j].receipt.vault ==>
      g[i].receipt.epoch < g[j].receipt.epoch
  }

  ghost predicate EpochsBelowNext(g: seq<Grant>, w: WitnessState) {
    forall i :: 0 <= i < |g| ==> 1 <= g[i].receipt.epoch < NextEpoch(w, g[i].receipt.vault)
  }

  /** Every grant expected exactly the epoch of its predecessor, or zero as the first. */
  ghost predicate OneChain(g: seq<Grant>) {
    forall i :: 0 <= i < |g| ==>
      g[i].expected == EpochOf(Newest(g[..i], g[i].receipt.vault, g[i].receipt.obj))
  }

  ghost predicate SignedAreGranted(g: seq<Grant>, w: WitnessState) {
    && (forall i :: 0 <= i < |g| ==> ReceiptMessage(g[i].receipt) in w.signed)
    && (forall r :: ReceiptMessage(r) in w.signed ==> exists i :: 0 <= i < |g| && g[i].receipt == r)
  }

  ghost predicate Consistent(g: seq<Grant>, w: WitnessState) {
    && HeadsAreNewest(g, w)
    && EpochsIncrease(g)
    && EpochsBelowNext(g, w)
    && OneChain(g)
    && SignedAreGranted(g, w)
  }

  lemma {:induction false} NewestIsGranted(g: seq<Grant>, vault: VaultId, obj: ObjectId) returns (k: nat)
    requires Newest(g, vault, obj).Some?
    ensures k < |g| && g[k].receipt == Newest(g, vault, obj).value && ForObject(g[k], vault, obj)
    ensures forall j :: k < j < |g| ==> !ForObject(g[j], vault, obj)
  {
    k := |g| - 1;
    if !ForObject(g[k], vault, obj) {
      k := NewestIsGranted(g[..|g| - 1], vault, obj);
    }
  }

  lemma {:induction false} NewestAbsent(g: seq<Grant>, vault: VaultId, obj: ObjectId)
    requires Newest(g, vault, obj).None?
    ensures forall j :: 0 <= j < |g| ==> !ForObject(g[j], vault, obj)
  {
    if g == [] {
    } else {
      NewestAbsent(g[..|g| - 1], vault, obj);
      assert forall j :: 0 <= j < |g| - 1 ==> g[j] == g[..|g| - 1][j];
    }
  }

  lemma NewestSnoc(g: seq<Grant>, x: Grant, vault: VaultId, obj: ObjectId)
    ensures Newest(g + [x], vault, obj) == if ForObject(x, vault, obj) then Some(x.receipt) else Newest(g, vault, obj)
  {
    var h := g + [x];
    assert h[..|h| - 1] == g;
  }

  /** In a consistent state every stored receipt verifies. */
  lemma StoredVerifies(g: seq<Grant>, w: WitnessState, vault: VaultId, obj: ObjectId)
    requires Consistent(g, w)
    ensures LoadReceipt(w, vault, obj) == Ok(StoredReceipt(w, vault, obj))
  {
    if StoredReceipt(w, vault, obj).Some? {
      var k := NewestIsGranted(g, vault, obj);
      assert ReceiptMessage(g[k].receipt) in w.signed;
    }
  }

  lemma GrantKeepsHeads(g: seq<Grant>, w: WitnessState, q: WitnessRequest, x: Grant)
    requires HeadsAreNewest(g, w) && x.receipt.epoch < I64_MAX
    requires x.receipt == Receipt(q.vault, q.obj, q.version, x.receipt.epoch, q.commitment)
    ensures HeadsAreNewest(g + [x], Advance(w, q, x.receipt.epoch))
  {
    var w' := Advance(w, q, x.receipt.epoch);
    forall vault, obj
      ensures StoredReceipt(w', vault, obj) == Newest(g + [x], vault, obj)
    {
      NewestSnoc(g, x, vault, obj);
      assert StoredReceipt(w, vault, obj) == Newest(g, vault, obj);
    }
  }

  lemma GrantKeepsEpochs(g: seq<Grant>, w: WitnessState, w': WitnessState, x: Grant)
    requires EpochsIncrease(g) && EpochsBelowNext(g, w)
    requires x.receipt.epoch == NextEpoch(w, x.receipt.vault) >= 1 && x.receipt.epoch < I64_MAX
    requires w'.epochs == w.epochs[x.receipt.vault := x.receipt.epoch + 1]
    ensures EpochsIncrease(g + [x]) && EpochsBelowNext(g + [x], w')
  {
  }

  lemma GrantKeepsChain(g: seq<Grant>, x: Grant)
    requires OneChain(g)
    requires x.expected == EpochOf(Newest(g, x.receipt.vault, x.receipt.obj))
    ensures OneChain(g + [x])
  {
    var h := g + [x];
    forall i | 0 <= i < |h|
      ensures h[i].expected == EpochOf(Newest(h[..i], h[i].receipt.vault, h[i].receipt.obj))
    {
      if i < |g| {
        assert h[..i] == g[..i] && h[i] == g[i];
      } else {
        assert h[..i] == g;
      }
    }
  }

  lemma GrantKeepsSigned(g: seq<Grant>, w: WitnessState, w': WitnessState, x: Grant)
    requires SignedAreGranted(g, w)
    requires w'.signed == w.signed + {ReceiptMessage(x.receipt)}
    ensures SignedAreGranted(g + [x], w')
  {
    var h := g + [x];
    forall r | ReceiptMessage(r) in w'.signed
      ensures exists i :: 0 <= i < |h| && h[i].receipt == r
    {
      if ReceiptMessage(r) in w.signed {
        var i :| 0 <= i < |g| && g[i].receipt == r;
        assert h[i].receipt == r;
      } else {
        assert h[|g|].receipt == r;
      }
    }
  }

  lemma GrantConsistent(g: seq<Grant>, w: WitnessState, q: WitnessRequest, expected: U64)
    requires Consistent(g, w) && IsFresh(w, q, expected) && NextEpoch(w, q.vault) >= 1
    ensures Consistent(g + Granted(w, IssueEvent(q, expected)), Issue(w, q, expected).state)
  {
    var x := Grant(Receipt(q.vault, q.obj, q.version, NextEpoch(w, q.vault), q.commitment), expected);
    var w' := Advance(w, q, NextEpoch(w, q.vault));
    assert Granted(w, IssueEvent(q, expected)) == [x] && Issue(w, q, expected).state == w';
    StoredVerifies(g, w, q.vault, q.obj);
    assert StoredReceipt(w, q.vault, q.obj) == Newest(g, q.vault, q.obj);
    GrantKeepsHeads(g, w, q, x);
    GrantKeepsEpochs(g, w, w', x);
    GrantKeepsChain(g, x);
    GrantKeepsSigned(g, w, w', x);
  }

  /** A head signature, a replay or a refusal changes neither table nor any receipt signature. */
  lemma OtherStepConsistent(g: seq<Grant>, w: WitnessState, w': WitnessState)
    requires Consistent(g, w)
    requires w'.heads == w.heads && w'.epochs == w.epochs
    requires forall r :: ReceiptMessage(r) in w'.signed <==> ReceiptMessage(r) in w.signed
    ensures Consistent(g, w')
  {
    assert HeadsAreNewest(g, w') by {
      forall vault, obj
        ensures StoredReceipt(w', vault, obj) == Newest(g, vault, obj)
      {
        assert StoredReceipt(w, vault, obj) == Newest(g, vault, obj);
      }
    }
  }

  ghost predicate EpochsPositive(w: WitnessState) {
    forall vault :: vault in w.epochs ==> w.epochs[vault] >= 1
  }

  lemma OtherStep(w: WitnessState, e: Event)
    requires !(e.IssueEvent? && IsFresh(w, e.request, e.expected))
    ensures Step(w, e).heads == w.heads && Step(w, e).epochs == w.epochs
    ensures forall r :: ReceiptMessage(r) in Step(w, e).signed <==> ReceiptMessage(r) in w.signed
  {
  }

  lemma StepKeepsEpochsPositive(w: WitnessState, e: Event)
    requires EpochsPositive(w)
    ensures EpochsPositive(Step(w, e))
  {
    if e.IssueEvent? && IsFresh(w, e.request, e.expected) {
      assert Step(w, e).epochs == w.epochs[e.request.vault := NextEpoch(w, e.request.vault) + 1];
    } else {
      OtherStep(w, e);
    }
  }

  lemma StepConsistent(g: seq<Grant>, w: WitnessState, e: Event)
    requires Consistent(g, w) && EpochsPositive(w)
    ensures Consistent(g + Granted(w, e), Step(w, e))
  {
    if e.IssueEvent? && IsFresh(w, e.request, e.expected) {
      GrantConsistent(g, w, e.request, e.expected);
    } else {
      assert g + Granted(w, e) == g;
      OtherStep(w, e);
      OtherStepConsistent(g, w, Step(w, e));
    }
  }

  /**
   Fork freedom: whatever requests arrive, in whatever order and from however many clients, the
   receipts issued for an object form one chain, epochs of a vault strictly increase and stay below
   its counter, the stored head is the newest link, and nothing else carries a receipt signature.
   */
  lemma {:induction false} ForkFreedom(events: seq<Event>)
    ensures Consistent(Grants(events), Run(events)) && EpochsPositive(Run(events))
  {
    if events == [] {
    } else {
      var before := events[..|events| - 1];
      ForkFreedom(before);
      StepConsistent(Grants(before), Run(before), events[|events| - 1]);
      StepKeepsEpochsPositive(Run(before), events[|events| - 1]);
    }
  }

  lemma {:induction false} GrantsPrefix(events: seq<Event>, m: nat)
    requires m <= |events|
    ensures Grants(events[..m]) <= Grants(events)
  {
    if m < |events| {
      var before := events[..|events| - 1];
      assert before[..m] == events[..m];
      GrantsPrefix(before, m);
    } else {
      assert events[..m] == events;
    }
  }

  lemma {:induction false} CountersFit(events: seq<Event>, vault: VaultId)
    ensures NextEpoch(Run(events), vault) <= I64_MAX
  {
    if events == [] {
    } else {
      CountersFit(events[..|events| - 1], vault);
    }
  }

  // ----- The answers, in terms of what was issued before -----

  /** How many receipts have been issued for a vault. */
  function Count(g: seq<Grant>, vault: VaultId): (n: nat) {
    if g == [] then 0 else Count(g[..|g| - 1], vault) + (if g[|g| - 1].receipt.vault == vault then 1 else 0)
  }

  lemma CountSnoc(g: seq<Grant>, x: Grant, vault: VaultId)
    ensures Count(g + [x], vault) == Count(g, vault) + (if x.receipt.vault == vault then 1 else 0)
  {
    var h := g + [x];
    assert h[..|h| - 1] == g;
  }

  /** Epochs are consecutive: the next one is one more than the number of receipts issued for the vault. */
  lemma {:induction false} EpochsAreConsecutive(events: seq<Event>, vault: VaultId)
    ensures NextEpoch(Run(events), vault) == Count(Grants(events), vault) + 1
  {
    if events == [] {
    } else {
      var before, e := events[..|events| - 1], events[|events| - 1];
      EpochsAreConsecutive(before, vault);
      if e.IssueEvent? && IsFresh(Run(before), e.request, e.expected) {
        CountSnoc(Grants(before), Granted(Run(before), e)[0], vault);
      } else {
        assert Grants(events) == Grants(before);
        OtherStep(Run(before), e);
      }
    }
  }

  /** What an issue request is answered after some receipts have been issued. */
  function IssueAnswerAfter(g: seq<Grant>, q: WitnessRequest, expected: U64): (r: Result<Receipt>)
    requires Count(g, q.vault) < I64_MAX
  {
    var newest := Newest(g, q.vault, q.obj);
    if newest.Some? && Acknowledges(newest.value, q) && newest.value.epoch > expected then Ok(newest.value)
    else if EpochOf(newest) != expected then Err(WitnessConflict)
    else if Count(g, q.vault) + 1 >= I64_MAX then Err(StorageError)
    else Ok(Receipt(q.vault, q.obj, q.version, Count(g, q.vault) + 1, q.commitment))
  }

  lemma LoadsNewest(events: seq<Event>, vault: VaultId, obj: ObjectId)
    ensures LoadReceipt(Run(events), vault, obj) == Ok(Newest(Grants(events), vault, obj))
  {
    ForkFreedom(events);
    StoredVerifies(Grants(events), Run(events), vault, obj);
    assert StoredReceipt(Run(events), vault, obj) == Newest(Grants(events), vault, obj);
  }

  lemma IssueAnswer(w: WitnessState, g: seq<Grant>, q: WitnessRequest, expected: U64)
    requires LoadReceipt(w, q.vault, q.obj) == Ok(Newest(g, q.vault, q.obj))
    requires NextEpoch(w, q.vault) == Count(g, q.vault) + 1 <= I64_MAX
    ensures Issue(w, q, expected).result == IssueAnswerAfter(g, q, expected)
  {
    NewestIsForObject(g, q.vault, q.obj);
  }

  /**
   The service answers from its history alone: a repeated request gets the newest receipt if that is
   for the same version, a wrong expected epoch is a conflict, and otherwise the receipt carries the
   next epoch of the vault.
   */
  lemma IssueAnswersFromHistory(events: seq<Event>, q: WitnessRequest, expected: U64)
    ensures Count(Grants(events), q.vault) < I64_MAX
    ensures Issue(Run(events), q, expected).result == IssueAnswerAfter(Grants(events), q, expected)
  {
    LoadsNewest(events, q.vault, q.obj);
    EpochsAreConsecutive(events, q.vault);
    CountersFit(events, q.vault);
    IssueAnswer(Run(events), Grants(events), q, expected);
  }

  /** A head request gets the newest receipt of the object, or its absence. */
  lemma HeadAnswersFromHistory(events: seq<Event>, vault: VaultId, obj: ObjectId, challenge: Bytes32)
    ensures SignHead(Run(events), vault, obj, challenge).result
         == Ok(IssuedHead(vault, obj, Newest(Grants(events), vault, obj), challenge))
  {
    LoadsNewest(events, vault, obj);
  }

  // ----- Replays and stale requests -----

  /** A later grant for the same object exists. */
  ghost predicate Superseded(g: seq<Grant>, i: nat)
    requires i < |g|
  {
    exists j :: i < j < |g| && ForObject(g[j], g[i].receipt.vault, g[i].receipt.obj)
  }

  lemma {:induction false} NewestAtLeast(g: seq<Grant>, i: nat)
    requires i < |g| && EpochsIncrease(g)
    ensures var newest := Newest(g, g[i].receipt.vault, g[i].receipt.obj);
            newest.Some? && newest.value.epoch >= g[i].receipt.epoch
    ensures var newest := Newest(g, g[i].receipt.vault, g[i].receipt.obj);
            newest == Some(g[i].receipt) <==> !Superseded(g, i)
  {
    var vault, obj := g[i].receipt.vault, g[i].receipt.obj;
    if Newest(g, vault, obj).None? {
      NewestAbsent(g, vault, obj);
    } else {
      var k := NewestIsGranted(g, vault, obj);
    }
  }

  lemma {:induction false} ExpectedIsOlder(g: seq<Grant>, i: nat)
    requires i < |g| && EpochsIncrease(g) && OneChain(g) && g[i].receipt.epoch >= 1
    ensures g[i].expected < g[i].receipt.epoch
  {
    var vault, obj := g[i].receipt.vault, g[i].receipt.obj;
    var newest := Newest(g[..i], vault, obj);
    if newest.Some? {
      var k := NewestIsGranted(g[..i], vault, obj);
      assert g[..i][k] == g[k];
    }
  }

  /**
   A request that was granted once never changes the witness again. It is answered with the original
   receipt exactly as long as nothing newer has been issued for its object; after that it is refused,
   unless its own version has been issued again, in which case it gets that newer receipt.
   */
  lemma IssueIdempotence(events: seq<Event>, i: nat, q: WitnessRequest)
    requires i < |Grants(events)| && Acknowledges(Grants(events)[i].receipt, q)
    ensures var g, w := Grants(events), Run(events);
            var newest, again := Newest(g, q.vault, q.obj), Issue(w, q, g[i].expected);
            && newest.Some?
            && again.state == w
            && again.result == (if Acknowledges(newest.value, q) then Ok(newest.value) else Err(WitnessConflict))
            && (again.result == Ok(g[i].receipt) <==> !Superseded(g, i))
  {
    ForkFreedom(events);
    var g, w := Grants(events), Run(events);
    assert 1 <= g[i].receipt.epoch;
    NewestAtLeast(g, i);
    ExpectedIsOlder(g, i);
    var newest := Newest(g, q.vault, q.obj);
    StoredVerifies(g, w, q.vault, q.obj);
    assert LoadReceipt(w, q.vault, q.obj) == Ok(newest);
    AgainOutcome(w, q, g[i].expected, newest.value);
    NewestIsForObject(g, q.vault, q.obj);
  }

  lemma {:induction false} NewestIsForObject(g: seq<Grant>, vault: VaultId, obj: ObjectId)
    ensures var newest := Newest(g, vault, obj);
            newest.Some? ==> newest.value.vault == vault && newest.value.obj == obj
  {
    if g == [] {
    } else {
      NewestIsForObject(g[..|g| - 1], vault, obj);
    }
  }

  lemma AgainOutcome(w: WitnessState, q: WitnessRequest, expected: U64, newest: Receipt)
    requires LoadReceipt(w, q.vault, q.obj) == Ok(Some(newest)) && newest.epoch > expected
    ensures Issue(w, q, expected)
         == Outcome(if Acknowledges(newest, q) then Ok(newest) else Err(WitnessConflict), w)
  {
    assert newest.vault == q.vault && newest.obj == q.obj;
  }

  /** Issuing a version a second time at a later epoch makes a replay return the later receipt. */
  lemma ReplayIsNotAlwaysTheOriginal(vault: VaultId, obj: ObjectId, v1: VersionId, v2: VersionId, c: Bytes32)
    requires v1 != v2
    ensures var q, q2 := WitnessRequest(vault, obj, v1, c), WitnessRequest(vault, obj, v2, c);
            var events := [IssueEvent(q, 0), IssueEvent(q2, 1), IssueEvent(q, 2)];
            && |Grants(events)| == 3
            && Grants(events)[0] == Grant(Receipt(vault, obj, v1, 1, c), 0)
            && Issue(Run(events), q, 0).result == Ok(Receipt(vault, obj, v1, 3, c))
  {
    var q, q2 := WitnessRequest(vault, obj, v1, c), WitnessRequest(vault, obj, v2, c);
    var e1, e2 := [IssueEvent(q, 0)], [IssueEvent(q, 0), IssueEvent(q2, 1)];
    var events := [IssueEvent(q, 0), IssueEvent(q2, 1), IssueEvent(q, 2)];
    assert events[..2] == e2 && e2[..1] == e1 && e1[..0] == [];
    assert Run(e1) == Advance(EMPTY, q, 1);
    assert Grants(e1) == [Grant(Receipt(vault, obj, v1, 1, c), 0)];
    assert Run(e2) == Advance(Run(e1), q2, 2);
    assert |Grants(e2)| == 2 && Grants(e2)[0] == Grants(e1)[0];
    assert Run(events) == Advance(Run(e2), q, 3);
    assert Grants(events)[0] == Grants(e2)[0];
  }

  /** The client's acceptance checks never reject what an honest witness returns. */
  lemma ClientAcceptsHonestWitness(events: seq<Event>, q: WitnessRequest, expected: U64)
    ensures var o := Issue(Run(events), q, expected);
            o.result.Ok? ==>
              && Acknowledges(o.result.value, q)
              && o.result.value.epoch > expected
              && ReceiptMessage(o.result.value) in o.state.signed
  {
    ForkFreedom(events);
    var g, w := Grants(events), Run(events);
    StoredVerifies(g, w, q.vault, q.obj);
    assert StoredReceipt(w, q.vault, q.obj) == Newest(g, q.vault, q.obj);
    if StoredReceipt(w, q.vault, q.obj).Some? {
      var k := NewestIsGranted(g, q.vault, q.obj);
      assert g[k].receipt.epoch < NextEpoch(w, q.vault);
    }
  }

  /**
   A copy of the vault whose newest receipt is not the newest issued cannot publish: its request for
   a version that the head does not hold is refused and the witness stays as it was.
   */
  lemma StaleCopyConflicts(events: seq<Event>, q: WitnessRequest, expected: U64)
    requires var newest := Newest(Grants(events), q.vault, q.obj);
             expected != EpochOf(newest) && !(newest.Some? && newest.value.version == q.version)
    ensures Issue(Run(events), q, expected) == Outcome(Err(WitnessConflict), Run(events))
  {
    ForkFreedom(events);
    StoredVerifies(Grants(events), Run(events), q.vault, q.obj);
    assert StoredReceipt(Run(events), q.vault, q.obj) == Newest(Grants(events), q.vault, q.obj);
  }
}
