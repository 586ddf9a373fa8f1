/** The in-process development witness: one counter and a list searched from the front. */
module Provider {
  import opened Format
  import opened Transcripts
  import opened Witness

  datatype ListState = ListState(nextEpoch: U64, heads: seq<Receipt>)

  const INITIAL: ListState := ListState(1, [])

  /** Index of the first receipt for an object, or the length of the list. */
  function Position(heads: seq<Receipt>, vault: VaultId, obj: ObjectId): (i: nat)
    ensures i <= |heads|
    ensures i < |heads| ==> heads[i].vault == vault && heads[i].obj == obj
    ensures forall j :: 0 <= j < i ==> !(heads[j].vault == vault && heads[j].obj == obj)
  {
    if heads == [] || (heads[0].vault == vault && heads[0].obj == obj) then 0
    else
      var i := Position(heads[1..], vault, obj);
      assert forall j :: 1 <= j < |heads| ==> heads[j] == heads[1..][j - 1];
      1 + i
  }

  function CurrentReceipt(heads: seq<Receipt>, vault: VaultId, obj: ObjectId): (r: Option<Receipt>) {
    var i := Position(heads, vault, obj);
    if i < |heads| then Some(heads[i]) else None
  }

  /** Replaces the entry of an object, or appends one. */
  function Place(heads: seq<Receipt>, r: Receipt): (placed: seq<Receipt>) {
    var i := Position(heads, r.vault, r.obj);
    if i < |heads| then heads[i := r] else heads + [r]
  }

  datatype ListOutcome = ListOutcome(result: Result<Receipt>, state: ListState)

  function IssueInList(l: ListState, q: WitnessRequest, expected: U64): (o: ListOutcome) {
    var current := CurrentReceipt(l.heads, q.vault, q.obj);
    if IsReplay(current, q, expected) then ListOutcome(Ok(current.value), l)
    else if EpochOf(current) != expected then ListOutcome(Err(WitnessConflict), l)
    else if l.nextEpoch == 0xffff_ffff_ffff_ffff then ListOutcome(Err(Invariant), l)
    else
      var receipt := Receipt(q.vault, q.obj, q.version, l.nextEpoch, q.commitment);
      ListOutcome(Ok(receipt), ListState(l.nextEpoch + 1, Place(l.heads, receipt)))
  }

  class InMemoryTestProvider {
    var nextEpoch: U64
    var heads: seq<Receipt>

    function State(): (l: ListState)
      reads this
    {
      ListState(nextEpoch, heads)
    }

    constructor ()
      ensures State() == INITIAL
    {
      nextEpoch, heads := 1, [];
    }

    method Find(vault: VaultId, obj: ObjectId) returns (i: nat)
      ensures i == Position(heads, vault, obj)
    {
      i := 0;
      while i < |heads| && !(heads[i].vault == vault && heads[i].obj == obj)
        invariant i <= |heads|
        invariant forall j :: 0 <= j < i ==> !(heads[j].vault == vault && heads[j].obj == obj)
      {
        i := i + 1;
      }
    }

    method IssueReceipt(q: WitnessRequest, expected: U64) returns (r: Result<Receipt>)
      modifies this
      ensures ListOutcome(r, State()) == IssueInList(old(State()), q, expected)
    {
      var i := Find(q.vault, q.obj);
      if i < |heads| {
        var current := heads[i];
        if current.version == q.version && current.commitment == q.commitment && current.epoch > expected {
          return Ok(current);
        }
        if current.epoch != expected {
          return Err(WitnessConflict);
        }
      } else if expected != 0 {
        return Err(WitnessConflict);
      }
      var epoch := nextEpoch;
      if nextEpoch == 0xffff_ffff_ffff_ffff {
        return Err(Invariant);
      }
      nextEpoch := nextEpoch + 1;
      var receipt := Receipt(q.vault, q.obj, q.version, epoch, q.commitment);
      i := Find(q.vault, q.obj);
      if i < |heads| {
        heads := heads[i := receipt];
      } else {
        heads := heads + [receipt];
      }
      r := Ok(receipt);
    }

    method ObjectHead(vault: VaultId, obj: ObjectId, challenge: Bytes32) returns (h: Head)
      ensures h == IssuedHead(vault, obj, CurrentReceipt(heads, vault, obj), challenge)
    {
      var i := Find(vault, obj);
      h := IssuedHead(vault, obj, if i < |heads| then Some(heads[i]) else None, challenge);
    }
  }

  // ----- Refinement -----

  /** What a request is answered with. */
  datatype Answer = IssueAnswer(receipt: Result<Receipt>) | HeadAnswer(head: Result<Head>)

  function ServiceAnswer(w: WitnessState, e: Event): (a: Answer) {
    match e
    case IssueEvent(q, expected) => IssueAnswer(Issue(w, q, expected).result)
    case HeadEvent(vault, obj, challenge) => HeadAnswer(SignHead(w, vault, obj, challenge).result)
  }

  function ListAnswer(l: ListState, e: Event): (a: Answer) {
    match e
    case IssueEvent(q, expected) => IssueAnswer(IssueInList(l, q, expected).result)
    case HeadEvent(vault, obj, challenge) =>
      HeadAnswer(Ok(IssuedHead(vault, obj, CurrentReceipt(l.heads, vault, obj), challenge)))
  }

  function ListStep(l: ListState, e: Event): (l': ListState) {
    if e.IssueEvent? then IssueInList(l, e.request, e.expected).state else l
  }

  function ListRun(events: seq<Event>): (l: ListState) {
    if events == [] then INITIAL else ListStep(ListRun(events[..|events| - 1]), events[|events| - 1])
  }

  function VaultOf(e: Event): (vault: VaultId) {
    if e.IssueEvent? then e.request.vault else e.vault
  }

  function ObjectOf(e: Event): (obj: ObjectId) {
    if e.IssueEvent? then e.request.obj else e.obj
  }

  ghost predicate OneVault(events: seq<Event>, vault: VaultId) {
    forall i :: 0 <= i < |events| ==> VaultOf(events[i]) == vault
  }

  /** Request by request, provider and service give the same answer. */
  ghost predicate AllAgree(events: seq<Event>) {
    forall k :: 0 <= k < |events| ==> AgreeAt(events, k)
  }

  ghost predicate AgreeAt(events: seq<Event>, k: nat)
    requires k < |events|
  {
    ListAnswer(ListRun(events[..k]), events[k]) == ServiceAnswer(Run(events[..k]), events[k])
  }

  /** All receipts that the service issues are for one vault. */
  ghost predicate OneVaultGranted(g: seq<Grant>) {
    forall i, j :: 0 <= i < |g| && 0 <= j < |g| ==> g[i].receipt.vault == g[j].receipt.vault
  }

  /** The request would advance the head of its object, but its vault has no epoch left. */
  predicate Starved(w: WitnessState, e: Event) {
    && e.IssueEvent?
    && var current := StoredReceipt(w, e.request.vault, e.request.obj);
    !IsReplay(current, e.request, e.expected) && EpochOf(current) == e.expected && NextEpoch(w, e.request.vault) >= I64_MAX
  }

  ghost predicate NeverStarved(events: seq<Event>) {
    forall k :: 0 <= k < |events| ==> !Starved(Run(events[..k]), events[k])
  }

  ghost predicate OneEntryPerObject(heads: seq<Receipt>, vault: VaultId) {
    && (forall i :: 0 <= i < |heads| ==> heads[i].vault == vault)
    && (forall i, j :: 0 <= i < j < |heads| ==> heads[i].obj != heads[j].obj)
  }

  /** The list holds what the service's tables hold: the heads of one vault, and nothing of the others. */
  ghost predicate Represents(l: ListState, w: WitnessState, vault: VaultId) {
    && OneEntryPerObject(l.heads, vault)
    && l.nextEpoch == NextEpoch(w, vault)
    && SameHeads(l.heads, w)
    && (forall u :: u != vault ==> NextEpoch(w, u) == 1)
  }

  ghost predicate SameHeads(heads: seq<Receipt>, w: WitnessState) {
    forall vault, obj :: CurrentReceipt(heads, vault, obj) == StoredReceipt(w, vault, obj)
  }

  lemma PlaceKeepsOneEntry(heads: seq<Receipt>, r: Receipt)
    requires OneEntryPerObject(heads, r.vault)
    ensures OneEntryPerObject(Place(heads, r), r.vault)
  {
  }

  /** Placing the receipt of one object changes the lookup of that object only. */
  lemma PlaceReceipt(heads: seq<Receipt>, r: Receipt, obj: ObjectId)
    requires OneEntryPerObject(heads, r.vault)
    ensures CurrentReceipt(Place(heads, r), r.vault, obj)
         == if obj == r.obj then Some(r) else CurrentReceipt(heads, r.vault, obj)
  {
    var i := Position(heads, r.vault, r.obj);
    var placed := Place(heads, r);
    PlaceKeepsOneEntry(heads, r);
    var k, k' := Position(heads, r.vault, obj), Position(placed, r.vault, obj);
    if obj == r.obj {
      assert placed[i].obj == obj && k' <= i;
    } else if k < |heads| {
      assert placed[k] == heads[k] && k' <= k;
      assert k' == k;
    } else {
      assert forall j :: 0 <= j < |heads| ==> heads[j].obj != obj;
      assert k' == |placed|;
    }
  }

  /** A list of one vault holds nothing of another. */
  lemma OtherVaultAbsent(heads: seq<Receipt>, vault: VaultId, other: VaultId, obj: ObjectId)
    requires OneEntryPerObject(heads, vault) && other != vault
    ensures CurrentReceipt(heads, other, obj).None?
  {
  }

  /** The tables alone decide what is represented. */
  lemma TablesDetermine(l: ListState, w: WitnessState, w': WitnessState, vault: VaultId)
    requires Represents(l, w, vault) && w'.heads == w.heads && w'.epochs == w.epochs
    ensures Represents(l, w', vault)
  {
    forall v, obj
      ensures CurrentReceipt(l.heads, v, obj) == StoredReceipt(w', v, obj)
    {
      assert CurrentReceipt(l.heads, v, obj) == StoredReceipt(w, v, obj);
    }
    assert forall u :: NextEpoch(w', u) == NextEpoch(w, u);
  }

  lemma IssueRepresents(l: ListState, w: WitnessState, q: WitnessRequest)
    requires Represents(l, w, q.vault) && l.nextEpoch < I64_MAX
    ensures var receipt := Receipt(q.vault, q.obj, q.version, l.nextEpoch, q.commitment);
            Represents(ListState(l.nextEpoch + 1, Place(l.heads, receipt)), Advance(w, q, l.nextEpoch), q.vault)
  {
    var receipt := Receipt(q.vault, q.obj, q.version, l.nextEpoch, q.commitment);
    var w' := Advance(w, q, l.nextEpoch);
    PlaceKeepsOneEntry(l.heads, receipt);
    forall vault, obj
      ensures CurrentReceipt(Place(l.heads, receipt), vault, obj) == StoredReceipt(w', vault, obj)
    {
      assert CurrentReceipt(l.heads, vault, obj) == StoredReceipt(w, vault, obj);
      if vault == q.vault {
        PlaceReceipt(l.heads, receipt, obj);
      } else {
        OtherVaultAbsent(l.heads, q.vault, vault, obj);
        OtherVaultAbsent(Place(l.heads, receipt), q.vault, vault, obj);
      }
    }
    assert forall u :: u != q.vault ==> NextEpoch(w', u) == NextEpoch(w, u);
  }

  // ----- One request -----

  lemma Looked(events: seq<Event>, l: ListState, vault: VaultId, obj: ObjectId)
    requires SameHeads(l.heads, Run(events))
    ensures LoadReceipt(Run(events), vault, obj) == Ok(CurrentReceipt(l.heads, vault, obj))
  {
    ForkFreedom(events);
    StoredVerifies(Grants(events), Run(events), vault, obj);
    assert CurrentReceipt(l.heads, vault, obj) == StoredReceipt(Run(events), vault, obj);
  }

  /** A request that is neither granted nor starved gets the same answer and changes nothing. */
  lemma RefusalsAgree(events: seq<Event>, l: ListState, vault: VaultId, e: Event)
    requires Represents(l, Run(events), vault)
    requires Granted(Run(events), e) == [] && !Starved(Run(events), e)
    ensures ListAnswer(l, e) == ServiceAnswer(Run(events), e)
    ensures ListStep(l, e) == l && Represents(l, Step(Run(events), e), vault)
  {
    Looked(events, l, VaultOf(e), ObjectOf(e));
    OtherStep(Run(events), e);
    TablesDetermine(l, Run(events), Step(Run(events), e), vault);
  }

  /** A grant for the represented vault gets the same answer. */
  lemma GrantsAgree(events: seq<Event>, l: ListState, vault: VaultId, e: Event)
    requires Represents(l, Run(events), vault) && Granted(Run(events), e) != [] && VaultOf(e) == vault
    ensures ListAnswer(l, e) == ServiceAnswer(Run(events), e)
    ensures Represents(ListStep(l, e), Step(Run(events), e), vault)
  {
    Looked(events, l, vault, ObjectOf(e));
    IssueRepresents(l, Run(events), e.request);
  }

  /** The first grant for a second vault gets another epoch from the list than from the service. */
  lemma SecondVaultDiffers(events: seq<Event>, l: ListState, vault: VaultId, e: Event)
    requires Represents(l, Run(events), vault) && Granted(Run(events), e) != [] && VaultOf(e) != vault
    requires Grants(events) != [] && Grants(events)[0].receipt.vault == vault
    ensures ListAnswer(l, e) != ServiceAnswer(Run(events), e)
  {
    Looked(events, l, VaultOf(e), ObjectOf(e));
    CounterMoved(events, vault);
  }

  lemma CounterMoved(events: seq<Event>, vault: VaultId)
    requires Grants(events) != [] && Grants(events)[0].receipt.vault == vault
    ensures 2 <= NextEpoch(Run(events), vault) <= I64_MAX
  {
    ForkFreedom(events);
    assert 1 <= Grants(events)[0].receipt.epoch < NextEpoch(Run(events), vault);
    CountersFit(events, vault);
  }

  lemma StarvedDiffers(events: seq<Event>, l: ListState, vault: VaultId, e: Event)
    requires Represents(l, Run(events), vault) && Starved(Run(events), e)
    ensures ListAnswer(l, e) != ServiceAnswer(Run(events), e)
  {
    Looked(events, l, VaultOf(e), ObjectOf(e));
  }

  // ----- Whole sequences -----

  ghost predicate GrantsOnlyFor(g: seq<Grant>, vault: VaultId) {
    forall i :: 0 <= i < |g| ==> g[i].receipt.vault == vault
  }

  lemma GrantsSnoc(events: seq<Event>, e: Event)
    ensures Grants(events + [e]) == Grants(events) + Granted(Run(events), e)
    ensures Run(events + [e]) == Step(Run(events), e) && ListRun(events + [e]) == ListStep(ListRun(events), e)
  {
    var all := events + [e];
    assert all[..|all| - 1] == events;
  }

  /** While only one vault gets receipts and none is starved, the list follows the tables. */
  lemma {:induction false} RunRepresents(events: seq<Event>, vault: VaultId)
    requires NeverStarved(events) && GrantsOnlyFor(Grants(events), vault)
    ensures Represents(ListRun(events), Run(events), vault)
  {
    if events == [] {
    } else {
      var before, e := events[..|events| - 1], events[|events| - 1];
      assert events == before + [e];
      GrantsSnoc(before, e);
      EarlierGrants(Grants(before), Granted(Run(before), e), vault);
      NeverStarvedBefore(events, |before|);
      RunRepresents(before, vault);
      if Granted(Run(before), e) == [] {
        RefusalsAgree(before, ListRun(before), vault, e);
      } else {
        GrantsAgree(before, ListRun(before), vault, e);
      }
    }
  }

  lemma EarlierGrants(g: seq<Grant>, x: seq<Grant>, vault: VaultId)
    requires GrantsOnlyFor(g + x, vault)
    ensures GrantsOnlyFor(g, vault) && GrantsOnlyFor(x, vault)
  {
    forall i | 0 <= i < |g|
      ensures g[i].receipt.vault == vault
    {
      assert (g + x)[i] == g[i];
    }
    forall i | 0 <= i < |x|
      ensures x[i].receipt.vault == vault
    {
      assert (g + x)[|g| + i] == x[i];
    }
  }

  lemma NeverStarvedBefore(events: seq<Event>, n: nat)
    requires NeverStarved(events) && n <= |events|
    ensures NeverStarved(events[..n])
  {
    forall k | 0 <= k < n
      ensures !Starved(Run(events[..n][..k]), events[..n][k])
    {
      assert events[..n][..k] == events[..k];
    }
  }

  lemma NextAgrees(before: seq<Event>, e: Event, vault: VaultId)
    requires NeverStarved(before) && !Starved(Run(before), e)
    requires GrantsOnlyFor(Grants(before), vault) && GrantsOnlyFor(Granted(Run(before), e), vault)
    ensures ListAnswer(ListRun(before), e) == ServiceAnswer(Run(before), e)
  {
    RunRepresents(before, vault);
    if Granted(Run(before), e) == [] {
      RefusalsAgree(before, ListRun(before), vault, e);
    } else {
      assert Granted(Run(before), e)[0].receipt.vault == VaultOf(e);
      GrantsAgree(before, ListRun(before), vault, e);
    }
  }

  lemma GrantsAt(events: seq<Event>, k: nat)
    requires k < |events|
    ensures Grants(events[..k + 1]) == Grants(events[..k]) + Granted(Run(events[..k]), events[k])
  {
    var upTo := events[..k + 1];
    assert upTo[..|upTo| - 1] == events[..k];
  }

  lemma SplitGrants(g: seq<Grant>, x: seq<Grant>, taken: seq<Grant>, all: seq<Grant>, vault: VaultId)
    requires taken == g + x && taken <= all && GrantsOnlyFor(all, vault)
    ensures GrantsOnlyFor(g, vault) && GrantsOnlyFor(x, vault)
  {
    assert GrantsOnlyFor(taken, vault) by {
      assert forall i :: 0 <= i < |taken| ==> taken[i] == all[i];
    }
    EarlierGrants(g, x, vault);
  }

  lemma GrantsUpTo(events: seq<Event>, vault: VaultId, k: nat)
    requires GrantsOnlyFor(Grants(events), vault) && k < |events|
    ensures GrantsOnlyFor(Grants(events[..k]), vault) && GrantsOnlyFor(Granted(Run(events[..k]), events[k]), vault)
  {
    GrantsAt(events, k);
    GrantsPrefix(events, k + 1);
    SplitGrants(Grants(events[..k]), Granted(Run(events[..k]), events[k]), Grants(events[..k + 1]), Grants(events), vault);
  }

  /** If only one vault gets receipts and no request is starved, all answers agree. */
  lemma OneVaultAgrees(events: seq<Event>, vault: VaultId, k: nat)
    requires GrantsOnlyFor(Grants(events), vault) && NeverStarved(events) && k < |events|
    ensures AgreeAt(events, k)
  {
    GrantsUpTo(events, vault, k);
    NeverStarvedBefore(events, k);
    NextAgrees(events[..k], events[k], vault);
  }

  /** An answer that agrees was not starved, and a receipt it carries is for the vault of the earlier ones. */
  lemma AgreementStep(before: seq<Event>, e: Event, vault: VaultId)
    requires NeverStarved(before) && GrantsOnlyFor(Grants(before), vault) && (Grants(before) == [] ==> vault == VaultOf(e))
    requires ListAnswer(ListRun(before), e) == ServiceAnswer(Run(before), e)
    ensures !Starved(Run(before), e) && GrantsOnlyFor(Granted(Run(before), e), vault)
  {
    RunRepresents(before, vault);
    if Starved(Run(before), e) {
      StarvedDiffers(before, ListRun(before), vault, e);
    } else if Granted(Run(before), e) != [] && VaultOf(e) != vault {
      SecondVaultDiffers(before, ListRun(before), vault, e);
    }
  }

  lemma AgreementSnoc(before: seq<Event>, e: Event, vault: VaultId)
    requires NeverStarved(before) && !Starved(Run(before), e)
    requires GrantsOnlyFor(Grants(before), vault) && GrantsOnlyFor(Granted(Run(before), e), vault)
    ensures OneVaultGranted(Grants(before + [e])) && NeverStarved(before + [e])
  {
    StarvedSnoc(before, e);
    GrantsSnoc(before, e);
  }

  /** If all answers agree, only one vault got receipts and no request was starved. */
  lemma {:induction false} AgreementMeans(events: seq<Event>)
    requires AllAgree(events)
    ensures OneVaultGranted(Grants(events)) && NeverStarved(events)
  {
    if events == [] {
    } else {
      var n := |events| - 1;
      var before, e := events[..n], events[n];
      AgreeBefore(events, n);
      AgreementMeans(before);
      assert AgreeAt(events, n);
      var vault := if Grants(before) == [] then VaultOf(e) else Grants(before)[0].receipt.vault;
      AgreementStep(before, e, vault);
      AgreementSnoc(before, e, vault);
      assert events == before + [e];
    }
  }

  lemma AgreeBefore(events: seq<Event>, n: nat)
    requires AllAgree(events) && n <= |events|
    ensures AllAgree(events[..n])
  {
    forall k | 0 <= k < n
      ensures AgreeAt(events[..n], k)
    {
      assert AgreeAt(events, k) && events[..n][..k] == events[..k];
    }
  }

  lemma StarvedSnoc(events: seq<Event>, e: Event)
    requires NeverStarved(events) && !Starved(Run(events), e)
    ensures NeverStarved(events + [e])
  {
    var all := events + [e];
    forall k | 0 <= k < |all|
      ensures !Starved(Run(all[..k]), all[k])
    {
      assert all[..k] == events[..k];
      assert events[..|events|] == events;
    }
  }

  /**
   The exact extent of the refinement. On any sequence of requests from any number of vaults, the
   in-memory provider and the durable service give the same receipts, conflicts and heads if and only
   if all issued receipts are for one vault and no request meets an exhausted epoch counter.
   */
  lemma ProviderAgreesExactly(events: seq<Event>)
    ensures AllAgree(events) <==> OneVaultGranted(Grants(events)) && NeverStarved(events)
  {
    if AllAgree(events) {
      AgreementMeans(events);
    }
    if OneVaultGranted(Grants(events)) && NeverStarved(events) {
      var vault := if Grants(events) == [] then ZERO16 else Grants(events)[0].receipt.vault;
      forall k | 0 <= k < |events|
        ensures AgreeAt(events, k)
      {
        OneVaultAgrees(events, vault, k);
      }
    }
  }

  lemma {:induction false} OneVaultGrants(events: seq<Event>, vault: VaultId)
    requires OneVault(events, vault)
    ensures GrantsOnlyFor(Grants(events), vault)
  {
    if events == [] {
    } else {
      OneVaultGrants(events[..|events| - 1], vault);
    }
  }

  /** In particular on the requests of one vault, where the list never holds two entries for one object. */
  lemma ProviderRefinesService(events: seq<Event>, vault: VaultId)
    requires OneVault(events, vault) && NeverStarved(events)
    ensures AllAgree(events) && OneEntryPerObject(ListRun(events).heads, vault)
  {
    OneVaultGrants(events, vault);
    ProviderAgreesExactly(events);
    RunRepresents(events, vault);
  }

  /** The single counter is shared: with two vaults the two providers give different epochs. */
  lemma TwoVaultsDiffer(v1: VaultId, v2: VaultId, obj: ObjectId, version: VersionId, c: Bytes32)
    requires v1 != v2
    ensures var first, second := IssueEvent(WitnessRequest(v1, obj, version, c), 0), IssueEvent(WitnessRequest(v2, obj, version, c), 0);
            && ListAnswer(ListRun([first]), second) == IssueAnswer(Ok(Receipt(v2, obj, version, 2, c)))
            && ServiceAnswer(Run([first]), second) == IssueAnswer(Ok(Receipt(v2, obj, version, 1, c)))
  {
    var q1, q2 := WitnessRequest(v1, obj, version, c), WitnessRequest(v2, obj, version, c);
    var first := IssueEvent(q1, 0);
    assert [first][..0] == [];
    assert Run([first]) == Advance(EMPTY, q1, 1);
    assert ListRun([first]) == ListState(2, [Receipt(v1, obj, version, 1, c)]);
  }
}
