/** Verification against challenge-bound witness heads, and what it detects. */
module Freshness {
  import opened Format
  import opened Transcripts
  import opened Storage
  import opened Witness
  import opened Reading
  import Protocol

  // ----- Signatures over bytes -----

  /** A signature verifies when exactly these bytes were signed. */
  ghost predicate BytesSigned(w: WitnessState, bytes: Format.Bytes) {
    exists m :: m in w.signed && MessageBytes(m) == bytes
  }

  /** Signed heads are heads that the witness held when it signed them. */
  ghost predicate SignedAt(events: seq<Event>, h: Head, m: nat) {
    && m < |events| && events[m] == HeadEvent(h.vault, h.obj, h.challenge)
    && h == IssuedHead(h.vault, h.obj, StoredReceipt(Run(events[..m]), h.vault, h.obj), h.challenge)
  }

  lemma {:induction false} SignedHeads(events: seq<Event>, h: Head) returns (m: nat)
    requires HeadMessage(h) in Run(events).signed
    ensures SignedAt(events, h, m)
  {
    var n := |events| - 1;
    var before := events[..n];
    if HeadMessage(h) in Run(before).signed {
      m := SignedHeads(before, h);
      assert events[..m] == before[..m] && events[m] == before[m];
    } else {
      m := n;
    }
  }

  /** Verified receipt bytes belong to a receipt that was signed. */
  lemma VerifiedReceipt(w: WitnessState, r: Receipt)
    ensures BytesSigned(w, ReceiptBytes(r)) <==> ReceiptMessage(r) in w.signed
  {
    if ReceiptMessage(r) in w.signed {
      assert MessageBytes(ReceiptMessage(r)) == ReceiptBytes(r);
    }
    if BytesSigned(w, ReceiptBytes(r)) {
      var m :| m in w.signed && MessageBytes(m) == ReceiptBytes(r);
      match m
      case ReceiptMessage(q) => ReceiptBytesInjective(r, q);
      case HeadMessage(h) => ReceiptsAreNotHeads(r, h);
    }
  }

  /** A present head whose bytes verify was signed as it stands. */
  lemma VerifiedHead(events: seq<Event>, h: Head)
    requires h.present && PresenceConsistent(h) && BytesSigned(Run(events), HeadBytes(h))
    ensures HeadMessage(h) in Run(events).signed
  {
    var m :| m in Run(events).signed && MessageBytes(m) == HeadBytes(h);
    match m
    case ReceiptMessage(q) => ReceiptsAreNotHeads(q, h);
    case HeadMessage(g) =>
      var k := SignedHeads(events, g);
      PresentHeadInjective(h, g.vault, g.obj, StoredReceipt(Run(events[..k]), g.vault, g.obj), g.challenge);
  }

  // ----- Verification of a snapshot -----

  /** One exchange: the challenge that was sent and what came back, if anything did. */
  datatype Round = Round(challenge: Bytes32, answer: Option<Head>)

  /** The client's checks on an answer; `verifies` says whether its signature does. */
  function ObjectHead(vault: VaultId, obj: ObjectId, round: Round, verifies: bool): (r: Result<Head>) {
    if round.answer.None? then Err(WitnessUnavailable)
    else
      var h := round.answer.value;
      if !PresenceConsistent(h) then Err(InvalidFormat)
      else if !verifies then Err(Authentication)
      else if h.vault != vault || h.obj != obj || h.challenge != round.challenge then Err(WitnessConflict)
      else Ok(h)
  }

  predicate Agrees(h: Head, r: Receipt) {
    h.present && h.version == Some(r.version) && h.epoch == r.epoch && h.commitment == Some(r.commitment)
  }

  /** The error with which verification stops at an object, or none. */
  ghost function Verdict(v: View, obj: ObjectId, round: Round, verifies: bool): (error: Option<VaultError>) {
    var receipt, head := ActiveReceipt(v.db, v.signed, obj), ObjectHead(v.vault, obj, round, verifies);
    if receipt.Err? then Some(receipt.error)
    else if receipt.value.None? then Some(WitnessConflict)
    else if head.Err? then Some(head.error)
    else if !Agrees(head.value, receipt.value.value) then Some(WitnessConflict)
    else if Get(v, obj).Err? then Some(Get(v, obj).error)
    else None
  }

  ghost predicate Passes(v: View, obj: ObjectId, round: Round, verifies: bool) {
    Verdict(v, obj, round, verifies).None?
  }

  /** A result that reports exactly this error, or success if there is none. */
  predicate Reports<T>(r: Result<T>, error: Option<VaultError>) {
    if error.Some? then r.Err? && r.error == error.value else r.Ok?
  }

  method VerifyObject(v: View, obj: ObjectId, round: Round, verifies: bool) returns (r: Result<()>)
    ensures Reports(r, Verdict(v, obj, round, verifies))
  {
    var receipt :- ActiveReceipt(v.db, v.signed, obj);
    if receipt.None? {
      return Err(WitnessConflict);
    }
    var head :- ObjectHead(v.vault, obj, round, verifies);
    if !head.present || head.version != Some(receipt.value.version) || head.epoch != receipt.value.epoch
       || head.commitment != Some(receipt.value.commitment) {
      return Err(WitnessConflict);
    }
    var sink := new Sink(None);
    r := GetToWriter(v, obj, sink);
  }

  method ActiveObjectIds(db: Db) returns (ids: seq<ObjectId>)
    ensures forall o :: o in ids <==> o in db.objects
    ensures forall i, j :: 0 <= i < j < |ids| ==> ids[i] != ids[j]
  {
    ids := [];
    var left := db.objects.Keys;
    while left != {}
      invariant left <= db.objects.Keys
      invariant forall o :: o in ids <==> o in db.objects && o !in left
      invariant forall i, j :: 0 <= i < j < |ids| ==> ids[i] != ids[j]
      decreases left
    {
      var o :| o in left;
      ids := ids + [o];
      left := left - {o};
    }
  }

  /** `verdict` names the outcome of each round. */
  ghost predicate Names(
    verdict: nat -> Option<VaultError>, v: View, ids: seq<ObjectId>, rounds: nat -> Round, verifies: nat -> bool)
  {
    forall k {:trigger Verdict(v, ids[k], rounds(k), verifies(k))} :: 0 <= k < |ids| ==>
      verdict(k) == Verdict(v, ids[k], rounds(k), verifies(k))
  }

  /** The first of `n` rounds that does not pass decides; success counts them. */
  ghost predicate Decides(r: Result<nat>, verdict: nat -> Option<VaultError>, n: nat) {
    if r.Ok? then r.value == n && forall k :: 0 <= k < n ==> verdict(k).None?
    else exists k :: 0 <= k < n && verdict(k) == Some(r.error) && forall i :: 0 <= i < k ==> verdict(i).None?
  }

  method VerifyOne(
    v: View, ids: seq<ObjectId>, rounds: nat -> Round, verifies: nat -> bool, k: nat, ghost verdict: nat -> Option<VaultError>)
    returns (r: Result<()>)
    requires Names(verdict, v, ids, rounds, verifies) && k < |ids|
    ensures Reports(r, verdict(k))
  {
    r := VerifyObject(v, ids[k], rounds(k), verifies(k));
  }

  /** The loop over the objects stops at the first that does not pass, with its error. */
  method VerifyEach(
    v: View, ids: seq<ObjectId>, rounds: nat -> Round, verifies: nat -> bool, ghost verdict: nat -> Option<VaultError>)
    returns (r: Result<nat>)
    requires Names(verdict, v, ids, rounds, verifies)
    ensures Decides(r, verdict, |ids|)
  {
    var k := 0;
    while k < |ids|
      invariant 0 <= k <= |ids|
      invariant forall i :: 0 <= i < k ==> verdict(i).None?
    {
      var one := VerifyOne(v, ids, rounds, verifies, k, verdict);
      if one.Err? {
        return Err(one.error);
      }
      k := k + 1;
    }
    r := Ok(|ids|);
  }

  // ----- Freshness -----

  /** A challenge drawn after `asked` requests has not been used in any of them. */
  ghost predicate FreshChallenge(events: seq<Event>, asked: nat, challenge: Bytes32) {
    asked <= |events| && forall m :: 0 <= m < asked ==> !(events[m].HeadEvent? && events[m].challenge == challenge)
  }

  /**
   Challenge freshness: whatever signed heads the network replays, an accepted present head is the
   one that the witness held at some moment between the drawing of the challenge and the acceptance.
   */
  lemma ChallengeFreshness(events: seq<Event>, asked: nat, vault: VaultId, obj: ObjectId, round: Round, h: Head)
    returns (m: nat)
    requires FreshChallenge(events, asked, round.challenge)
    requires BytesSigned(Run(events), HeadBytes(h))
    requires ObjectHead(vault, obj, round, true) == Ok(h) && h.present
    ensures asked <= m < |events|
    ensures h == IssuedHead(vault, obj, Newest(Grants(events[..m]), vault, obj), round.challenge)
  {
    VerifiedHead(events, h);
    m := SignedHeads(events, h);
    ForkFreedom(events[..m]);
    assert StoredReceipt(Run(events[..m]), vault, obj) == Newest(Grants(events[..m]), vault, obj);
  }

  /**
   When an object of any snapshot passes, its local receipt was the newest one issued at some moment
   during the exchange. `events` is the history of the witness up to the acceptance.
   */
  lemma PassingIsNewest(v: View, obj: ObjectId, round: Round, events: seq<Event>, asked: nat) returns (m: nat)
    requires Passes(v, obj, round, true) && FreshChallenge(events, asked, round.challenge)
    requires BytesSigned(Run(events), HeadBytes(round.answer.value))
    ensures asked <= m < |events| && obj in v.db.objects && v.db.objects[obj] in v.db.versions
    ensures ActiveReceipt(v.db, v.signed, obj).Ok? && ActiveReceipt(v.db, v.signed, obj).value.Some?
    ensures Newest(Grants(events[..m]), v.vault, obj) == ActiveReceipt(v.db, v.signed, obj).value
    ensures ActiveReceipt(v.db, v.signed, obj).value.value.version == v.db.versions[v.db.objects[obj]].versionId
  {
    var h := round.answer.value;
    m := ChallengeFreshness(events, asked, v.vault, obj, round, h);
    var newest := Newest(Grants(events[..m]), v.vault, obj);
    NewestIsForObject(Grants(events[..m]), v.vault, obj);
    var row := ActiveVersion(v.db, obj).value;
    assert OpenedHeader(v, obj).Ok? && CheckReceipt(v, row).Ok? && row.objectId == obj;
    var local := ActiveReceipt(v.db, v.signed, obj).value.value;
    assert local.vault == v.vault && local.obj == obj && local.version == row.versionId;
    assert newest.value == local;
  }

  /**
   The Manifest is fresh, too: a passing object holds the very Manifest record that the newest receipt
   of that moment was issued for, whichever copy of the vault asked for it.
   */
  lemma PassingHoldsAcknowledgedManifest(
    v: View, obj: ObjectId, round: Round, events: seq<Event>, asked: nat, published: StoredVersion) returns (m: nat)
    requires Passes(v, obj, round, true) && FreshChallenge(events, asked, round.challenge)
    requires BytesSigned(Run(events), HeadBytes(round.answer.value))
    ensures asked <= m < |events| && Newest(Grants(events[..m]), v.vault, obj).Some? && HasActive(v.db, obj)
    ensures var newest, row := Newest(Grants(events[..m]), v.vault, obj).value, v.db.versions[v.db.objects[obj]];
            AcknowledgesRow(v.c, v.vault, newest, published) && NoCommitmentCollision(v.c, v.vault, row, published) ==>
              SameManifest(row, published)
  {
    m := PassingIsNewest(v, obj, round, events, asked);
    var newest, row := Newest(Grants(events[..m]), v.vault, obj).value, v.db.versions[v.db.objects[obj]];
    ReadHasChecked(v, obj);
    if AcknowledgesRow(v.c, v.vault, newest, published) && NoCommitmentCollision(v.c, v.vault, row, published) {
      ReceiptBindsManifest(v.c, v.vault, newest, row, published);
    }
  }

  /** The witness's requests, when verification began, and when each challenge was drawn and answered. */
  datatype History = History(events: seq<Event>, start: nat, asked: nat -> nat, answered: nat -> nat)

  /**
   Round `k` took place after the start with a new challenge, and the signature of its answer verifies
   exactly if the witness had signed those bytes by then.
   */
  ghost predicate RoundObserved(h: History, k: nat, round: Round, verifies: bool) {
    && h.start <= h.asked(k) && h.answered(k) <= |h.events|
    && FreshChallenge(h.events[..h.answered(k)], h.asked(k), round.challenge)
    && (verifies <==> round.answer.Some? && BytesSigned(Run(h.events[..h.answered(k)]), HeadBytes(round.answer.value)))
  }

  ghost predicate Observed(h: History, rounds: nat -> Round, verifies: nat -> bool, n: nat) {
    forall k :: 0 <= k < n ==> RoundObserved(h, k, rounds(k), verifies(k))
  }

  /** At some moment after `start` the active receipt of the object was the newest issued. */
  ghost predicate NewestSince(v: View, obj: ObjectId, events: seq<Event>, start: nat) {
    var active := ActiveReceipt(v.db, v.signed, obj);
    && active.Ok? && active.value.Some?
    && exists m :: start <= m < |events| && Newest(Grants(events[..m]), v.vault, obj) == active.value
  }

  lemma ObjectWasNewest(v: View, obj: ObjectId, round: Round, verifies: bool, h: History, k: nat)
    requires Passes(v, obj, round, verifies) && RoundObserved(h, k, round, verifies)
    ensures NewestSince(v, obj, h.events, h.start)
  {
    var upTo := h.events[..h.answered(k)];
    var m := PassingIsNewest(v, obj, round, upTo, h.asked(k));
    assert upTo[..m] == h.events[..m];
  }

  /**
   Rollback detection for a whole snapshot: if every object of an arbitrary database passes, the
   active version of each was the newest issued at some moment since verification began.
   */
  lemma VerifiedSnapshotWasNewest(v: View, ids: seq<ObjectId>, rounds: nat -> Round, verifies: nat -> bool, h: History)
    requires Observed(h, rounds, verifies, |ids|) && forall o :: o in ids <==> o in v.db.objects
    requires forall k :: 0 <= k < |ids| ==> Passes(v, ids[k], rounds(k), verifies(k))
    ensures forall obj :: obj in v.db.objects ==> NewestSince(v, obj, h.events, h.start)
  {
    forall obj | obj in v.db.objects
      ensures NewestSince(v, obj, h.events, h.start)
    {
      var k :| 0 <= k < |ids| && ids[k] == obj;
      assert RoundObserved(h, k, rounds(k), verifies(k));
      ObjectWasNewest(v, obj, rounds(k), verifies(k), h, k);
    }
  }

  /**
   Verification of every active object. The first object that does not pass its own round decides the
   error; success counts the objects and means that each of them was newest since verification began.
   */
  method VerifyActiveObjectsWithWitness(v: View, rounds: nat -> Round, verifies: nat -> bool, ghost h: History)
    returns (r: Result<nat>, ids: seq<ObjectId>)
    requires Observed(h, rounds, verifies, |v.db.objects|)
    ensures forall o :: o in ids <==> o in v.db.objects
    ensures Decides(r, (k: nat) => if k < |ids| then Verdict(v, ids[k], rounds(k), verifies(k)) else None, |ids|)
    ensures r.Ok? ==> r.value == |v.db.objects|
    ensures r.Ok? ==> forall obj :: obj in v.db.objects ==> NewestSince(v, obj, h.events, h.start)
  {
    ids := ActiveObjectIds(v.db);
    DistinctCount(ids, v.db.objects.Keys);
    ghost var verdict := (k: nat) => if k < |ids| then Verdict(v, ids[k], rounds(k), verifies(k)) else None;
    r := VerifyEach(v, ids, rounds, verifies, verdict);
    if r.Ok? {
      assert forall k :: 0 <= k < |ids| ==> verdict(k).None?;
      VerifiedSnapshotWasNewest(v, ids, rounds, verifies, h);
    }
  }

  lemma SupersededLater(g: seq<Grant>, later: seq<Grant>, x: nat)
    requires x < |g| && g <= later && Superseded(g, x)
    ensures Superseded(later, x) && later[x] == g[x]
  {
    var j :| x < j < |g| && ForObject(g[j], g[x].receipt.vault, g[x].receipt.obj);
    assert later[j] == g[j];
  }

  /** A copy whose active receipt had been superseded before the exchange began never passes. */
  lemma RolledBackCopyIsDetected(v: View, obj: ObjectId, round: Round, events: seq<Event>, asked: nat, x: nat)
    requires FreshChallenge(events, asked, round.challenge)
    requires round.answer.Some? ==> BytesSigned(Run(events), HeadBytes(round.answer.value))
    requires x < |Grants(events[..asked])| && Superseded(Grants(events[..asked]), x)
    requires ActiveReceipt(v.db, v.signed, obj) == Ok(Some(Grants(events[..asked])[x].receipt))
    ensures !Passes(v, obj, round, true)
  {
    if Passes(v, obj, round, true) {
      var m := PassingIsNewest(v, obj, round, events, asked);
      assert events[..m][..asked] == events[..asked];
      GrantsPrefix(events[..m], asked);
      SupersededLater(Grants(events[..asked]), Grants(events[..m]), x);
      ForkFreedom(events[..m]);
      NewestAtLeast(Grants(events[..m]), x);
      NewestIsForObject(Grants(events[..m]), v.vault, obj);
    }
  }

  /**
   The verdict on an honest answer, exactly: an object without a receipt conflicts, one whose receipt
   is not the newest issued conflicts, and with the newest the read decides.
   */
  lemma HonestAnswerDecides(v: View, obj: ObjectId, events: seq<Event>, challenge: Bytes32)
    requires var active := ActiveReceipt(v.db, v.signed, obj);
             active.Ok? && (active.value.Some? ==> active.value.value.vault == v.vault && active.value.value.obj == obj)
    ensures var answer := SignHead(Run(events), v.vault, obj, challenge).result;
            && answer.Ok?
            && var active := ActiveReceipt(v.db, v.signed, obj).value;
            Verdict(v, obj, Round(challenge, Some(answer.value)), true)
            == if active.None? || Newest(Grants(events), v.vault, obj) != active then Some(WitnessConflict)
               else if Get(v, obj).Err? then Some(Get(v, obj).error) else None
  {
    HeadAnswersFromHistory(events, v.vault, obj, challenge);
    NewestIsForObject(Grants(events), v.vault, obj);
  }

  // ----- No false alarms -----

  /** A witness that holds a receipt signs a head that agrees with it and passes the client's checks. */
  lemma SignedHeadAgrees(w: WitnessState, vault: VaultId, obj: ObjectId, r: Receipt, challenge: Bytes32)
    requires LoadReceipt(w, vault, obj) == Ok(Some(r))
    ensures var answer := SignHead(w, vault, obj, challenge);
            && answer.result.Ok? && Agrees(answer.result.value, r)
            && ObjectHead(vault, obj, Round(challenge, Some(answer.result.value)), true) == answer.result
            && BytesSigned(answer.state, HeadBytes(answer.result.value))
  {
    var answer := SignHead(w, vault, obj, challenge);
    var message := HeadMessage(answer.result.value);
    assert message in answer.state.signed && MessageBytes(message) == HeadBytes(answer.result.value);
  }

  /** In every served state of a witnessed run the witness holds the local receipt of every active object. */
  lemma ServedReceipt(p: Protocol.Party, states: seq<Protocol.System>, actions: seq<Protocol.Action>, i: nat, obj: ObjectId)
    requires Protocol.IsRun(p, states, actions) && i < |states| && states[i].unlocked && states[i].phase.Idle?
    requires obj in states[i].db.objects
    ensures Protocol.LocalReceipt(states[i].db, obj).Some?
    ensures LoadReceipt(Run(states[i].events), p.vault, obj) == Ok(Protocol.LocalReceipt(states[i].db, obj))
  {
    Protocol.RunKeeps(p, states, actions, i);
    Protocol.ServedHeadsMatch(p, states, actions, i);
    Protocol.HistoryFacts(states[i].events);
    assert StoredReceipt(Run(states[i].events), p.vault, obj) == Protocol.LocalReceipt(states[i].db, obj);
  }

  /**
   In every state of every witnessed run in which the vault is unlocked between requests, an honest
   answer about any active object agrees with its local receipt.
   */
  lemma HonestAnswerAgrees(
    p: Protocol.Party, states: seq<Protocol.System>, actions: seq<Protocol.Action>, i: nat, obj: ObjectId, challenge: Bytes32)
    requires Protocol.IsRun(p, states, actions) && i < |states| && states[i].unlocked && states[i].phase.Idle?
    requires obj in states[i].db.objects
    ensures Protocol.LocalReceipt(states[i].db, obj).Some?
    ensures var answer := SignHead(Run(states[i].events), p.vault, obj, challenge).result;
            && answer.Ok? && Agrees(answer.value, Protocol.LocalReceipt(states[i].db, obj).value)
            && ObjectHead(p.vault, obj, Round(challenge, Some(answer.value)), true) == answer
  {
    ServedReceipt(p, states, actions, i, obj);
    SignedHeadAgrees(Run(states[i].events), p.vault, obj, Protocol.LocalReceipt(states[i].db, obj).value, challenge);
  }
}
