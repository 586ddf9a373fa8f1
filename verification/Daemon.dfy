/** Permits and mutexes of the daemon, over every interleaving of any number of threads. */
module Daemon {
  datatype Mutex = Witness | Vault | Recovery

  /** The order in which requests take mutexes. */
  function Rank(m: Mutex): (r: nat)
    ensures r <= 2
  {
    match m
    case Witness => 0
    case Vault => 1
    case Recovery => 2
  }

  /** `Use` stands for the work on what a mutex protects. */
  datatype Instr = TryLong | Acquire(m: Mutex) | Use(m: Mutex) | Release(m: Mutex) | DropLong

  type Tid = nat

  /**
   A thread is in the acceptance loop, before its load or between load and compare-exchange; or holds
   a connection permit and has some of its request's code left; or has ended.
   */
  datatype Thread =
    | Accepting(observed: int)
    | Serving(code: seq<Instr>, held: seq<Mutex>, long: bool)
    | Gone

  /** An acceptance loop that has not loaded the counter yet. */
  const UNREAD: int := -1

  datatype Daemon = Daemon(active: int, flag: bool, owners: map<Mutex, Tid>, threads: map<Tid, Thread>)

  const INITIAL: Daemon := Daemon(0, false, map[], map[])

  // ----- The code of each request -----

  datatype Request =
    | Status | Unlock | Lock | Put | Get | PutStream | GetStream | Rotate | Verify | Checkpoint | Backup | Shutdown

  const WITH_VAULT: seq<Instr> := [Acquire(Vault), Use(Vault), Release(Vault)]
  const WITH_WITNESS: seq<Instr> :=
    [Acquire(Witness), Acquire(Vault), Use(Witness), Use(Vault), Release(Vault), Release(Witness)]
  const WITH_RECOVERY: seq<Instr> := [Acquire(Recovery), Use(Recovery), Release(Recovery)]

  /** The synchronization of a request that runs to its end; `witnessed` says whether a witness is configured. */
  function Code(r: Request, witnessed: bool): (code: seq<Instr>) {
    match r
    case Status => WITH_VAULT + WITH_RECOVERY
    case Unlock => if witnessed then WITH_WITNESS else WITH_VAULT
    case Put => if witnessed then WITH_WITNESS else WITH_VAULT
    case Get => if witnessed then WITH_WITNESS else WITH_VAULT
    case Lock => WITH_VAULT
    case Rotate => WITH_VAULT
    case Checkpoint => WITH_VAULT
    case Verify => [TryLong] + (if witnessed then WITH_WITNESS else WITH_VAULT) + WITH_RECOVERY + [DropLong]
    case PutStream => [TryLong] + WITH_VAULT + [DropLong]
    case GetStream => [TryLong] + WITH_VAULT + [DropLong]
    case Backup => [TryLong] + WITH_VAULT + [DropLong]
    case Shutdown => []
  }

  /** What is left of an abandoned request: guards are dropped innermost first, then the long permit. */
  function Cleanup(held: seq<Mutex>, long: bool): (code: seq<Instr>) {
    if held == [] then (if long then [DropLong] else [])
    else [Release(held[|held| - 1])] + Cleanup(held[..|held| - 1], long)
  }

  // ----- Steps -----

  datatype Move = Spawn | Load | Swap(succeeds: bool, request: Request, witnessed: bool) | Next | Abandon | Finish

  ghost predicate Execute(s: Daemon, t: Tid, x: Thread, s': Daemon)
    requires x.Serving? && x.code != []
  {
    var rest := x.code[1..];
    match x.code[0]
    case TryLong =>
      if s.flag then s' == s.(threads := s.threads[t := x.(code := Cleanup(x.held, x.long))])
      else s' == s.(flag := true, threads := s.threads[t := x.(code := rest, long := true)])
    case Acquire(m) =>
      m !in s.owners && s' == s.(owners := s.owners[m := t], threads := s.threads[t := x.(code := rest, held := x.held + [m])])
    case Use(m) => s' == s.(threads := s.threads[t := x.(code := rest)])
    case Release(m) =>
      x.held != [] && s' == s.(owners := s.owners - {m}, threads := s.threads[t := x.(code := rest, held := x.held[..|x.held| - 1])])
    case DropLong =>
      s' == s.(flag := false, threads := s.threads[t := x.(code := rest, long := false)])
  }

  ghost predicate Step(max: nat, s: Daemon, t: Tid, move: Move, s': Daemon) {
    match move
    case Spawn => t !in s.threads && s' == s.(threads := s.threads[t := Accepting(UNREAD)])
    case Load =>
      && t in s.threads && s.threads[t] == Accepting(UNREAD)
      && s' == s.(threads := s.threads[t := if s.active >= max then Gone else Accepting(s.active)])
    case Swap(succeeds, request, witnessed) =>
      && t in s.threads && s.threads[t].Accepting? && s.threads[t].observed != UNREAD
      // A weak compare-exchange may fail although the counter is as observed.
      && if succeeds then
           && s.active == s.threads[t].observed
           && s' == s.(active := s.active + 1, threads := s.threads[t := Serving(Code(request, witnessed), [], false)])
         else s' == s.(threads := s.threads[t := Accepting(UNREAD)])
    case Next => t in s.threads && s.threads[t].Serving? && s.threads[t].code != [] && Execute(s, t, s.threads[t], s')
    case Abandon =>
      && t in s.threads && s.threads[t].Serving?
      && var x := s.threads[t];
      s' == s.(threads := s.threads[t := x.(code := Cleanup(x.held, x.long))])
    case Finish =>
      && t in s.threads && s.threads[t].Serving? && s.threads[t].code == []
      && s' == s.(active := s.active - 1, threads := s.threads[t := Gone])
  }

  ghost predicate IsRun(max: nat, states: seq<Daemon>, who: seq<Tid>, moves: seq<Move>) {
    && |states| == |moves| + 1 && |who| == |moves| && states[0] == INITIAL
    && forall i :: 0 <= i < |moves| ==> Step(max, states[i], who[i], moves[i], states[i + 1])
  }

  // ----- Discipline of the code -----

  predicate Above(held: seq<Mutex>, m: Mutex) {
    forall i :: 0 <= i < |held| ==> Rank(held[i]) < Rank(m)
  }

  /** Mutexes are taken in rank order and released innermost first, and everything is given back. */
  predicate Ordered(code: seq<Instr>, held: seq<Mutex>, long: bool)
    decreases |code|
  {
    if code == [] then held == [] && !long
    else
      var rest := code[1..];
      match code[0]
      case TryLong => !long && held == [] && Ordered(rest, held, true)
      case Acquire(m) => Above(held, m) && Ordered(rest, held + [m], long)
      case Use(m) => m in held && Ordered(rest, held, long)
      case Release(m) => held != [] && held[|held| - 1] == m && Ordered(rest, held[..|held| - 1], long)
      case DropLong => long && held == [] && Ordered(rest, held, false)
  }

  lemma {:induction false} CleanupOrdered(held: seq<Mutex>, long: bool)
    ensures Ordered(Cleanup(held, long), held, long)
  {
    if held != [] {
      var rest := held[..|held| - 1];
      CleanupOrdered(rest, long);
      assert Cleanup(held, long)[1..] == Cleanup(rest, long);
    } else if long {
      assert [DropLong][1..] == [];
    }
  }

  lemma ReleaseThen(m: Mutex, held: seq<Mutex>, rest: seq<Instr>, long: bool)
    requires Ordered(rest, held, long)
    ensures Ordered([Release(m)] + rest, held + [m], long)
  {
    var code, holding := [Release(m)] + rest, held + [m];
    assert code[1..] == rest && holding[..|holding| - 1] == held;
  }

  lemma UseThen(m: Mutex, held: seq<Mutex>, rest: seq<Instr>, long: bool)
    requires Ordered(rest, held, long) && m in held
    ensures Ordered([Use(m)] + rest, held, long)
  {
    var code := [Use(m)] + rest;
    assert code[1..] == rest;
  }

  lemma AcquireThen(m: Mutex, held: seq<Mutex>, rest: seq<Instr>, long: bool)
    requires Ordered(rest, held + [m], long) && Above(held, m)
    ensures Ordered([Acquire(m)] + rest, held, long)
  {
    var code := [Acquire(m)] + rest;
    assert code[1..] == rest;
  }

  /** The critical sections of a request can stand before any disciplined code. */
  lemma SectionThen(m: Mutex, rest: seq<Instr>, long: bool)
    requires Ordered(rest, [], long)
    ensures Ordered([Acquire(m), Use(m), Release(m)] + rest, [], long)
  {
    ReleaseThen(m, [], rest, long);
    UseThen(m, [] + [m], [Release(m)] + rest, long);
    AcquireThen(m, [], [Use(m)] + ([Release(m)] + rest), long);
    assert [Acquire(m)] + ([Use(m)] + ([Release(m)] + rest)) == [Acquire(m), Use(m), Release(m)] + rest;
  }

  lemma WitnessThen(rest: seq<Instr>, long: bool)
    requires Ordered(rest, [], long)
    ensures Ordered(WITH_WITNESS + rest, [], long)
  {
    var one := [] + [Witness];
    var both := one + [Vault];
    var c5 := [Release(Witness)] + rest;
    var c4 := [Release(Vault)] + c5;
    var c3 := [Use(Vault)] + c4;
    var c2 := [Use(Witness)] + c3;
    ReleaseThen(Witness, [], rest, long);
    ReleaseThen(Vault, one, c5, long);
    UseThen(Vault, both, c4, long);
    UseThen(Witness, both, c3, long);
    AcquireThen(Vault, one, c2, long);
    AcquireThen(Witness, [], [Acquire(Vault)] + c2, long);
    assert [Acquire(Witness)] + ([Acquire(Vault)] + c2) == WITH_WITNESS + rest;
  }

  lemma LongThen(rest: seq<Instr>)
    requires Ordered(rest, [], true)
    ensures Ordered([TryLong] + rest, [], false)
  {
    var code := [TryLong] + rest;
    assert code[1..] == rest;
  }

  lemma ShortOrdered()
    ensures Ordered([], [], false) && Ordered([DropLong], [], true)
  {
    assert [DropLong][1..] == [];
  }

  lemma SectionsOrdered()
    ensures Ordered(WITH_VAULT, [], false) && Ordered(WITH_WITNESS, [], false) && Ordered(WITH_VAULT + WITH_RECOVERY, [], false)
  {
    ShortOrdered();
    SectionThen(Vault, [], false);
    WitnessThen([], false);
    SectionThen(Recovery, [], false);
    assert WITH_VAULT + [] == WITH_VAULT && WITH_WITNESS + [] == WITH_WITNESS && WITH_RECOVERY + [] == WITH_RECOVERY;
    SectionThen(Vault, WITH_RECOVERY, false);
  }

  lemma LongVaultOrdered()
    ensures Ordered([TryLong] + WITH_VAULT + [DropLong], [], false)
  {
    ShortOrdered();
    SectionThen(Vault, [DropLong], true);
    LongThen(WITH_VAULT + [DropLong]);
    assert [TryLong] + (WITH_VAULT + [DropLong]) == [TryLong] + WITH_VAULT + [DropLong];
  }

  lemma VerifyOrdered(witnessed: bool)
    ensures Ordered(Code(Verify, witnessed), [], false)
  {
    ShortOrdered();
    SectionThen(Recovery, [DropLong], true);
    var tail := WITH_RECOVERY + [DropLong];
    SectionThen(Vault, tail, true);
    WitnessThen(tail, true);
    var first := if witnessed then WITH_WITNESS else WITH_VAULT;
    LongThen(first + tail);
    assert Code(Verify, witnessed) == [TryLong] + (first + tail);
  }

  /** Every request keeps to the discipline. */
  lemma CodeOrdered(r: Request, witnessed: bool)
    ensures Ordered(Code(r, witnessed), [], false)
  {
    match r
    case Verify => VerifyOrdered(witnessed);
    case PutStream => LongVaultOrdered();
    case GetStream => LongVaultOrdered();
    case Backup => LongVaultOrdered();
    case Shutdown => ShortOrdered();
    case _ => SectionsOrdered();
  }

  /** What each request works on, and which ones are long operations. */
  lemma CodeNeeds(r: Request, witnessed: bool)
    ensures Use(Vault) in Code(r, witnessed) <==> r != Shutdown
    ensures Use(Witness) in Code(r, witnessed) <==> witnessed && r in {Unlock, Put, Get, Verify}
    ensures Use(Recovery) in Code(r, witnessed) <==> r in {Status, Verify}
    ensures TryLong in Code(r, witnessed) <==> r in {Verify, PutStream, GetStream, Backup}
    ensures TryLong in Code(r, witnessed) ==> Code(r, witnessed)[0] == TryLong
  {
    var v, w, c := WITH_VAULT, WITH_WITNESS, WITH_RECOVERY;
    assert v[1] == Use(Vault) && w[2] == Use(Witness) && w[3] == Use(Vault) && c[1] == Use(Recovery);
  }

  // ----- The invariant -----

  ghost function ServingThreads(threads: map<Tid, Thread>): (s: set<Tid>) {
    set t | t in threads && threads[t].Serving?
  }

  /** The counter counts the live permits and respects the limit. */
  ghost predicate PermitInv(max: nat, s: Daemon) {
    && s.active == |ServingThreads(s.threads)| <= max
    && forall t :: t in s.threads && s.threads[t].Accepting? ==> UNREAD <= s.threads[t].observed < max
  }

  ghost predicate IsLong(s: Daemon, t: Tid) {
    t in s.threads && s.threads[t].Serving? && s.threads[t].long
  }

  /** The flag is set exactly while one long operation is live. */
  ghost predicate LongInv(s: Daemon) {
    && (forall t, u :: IsLong(s, t) && IsLong(s, u) ==> t == u)
    && (s.flag <==> exists t :: IsLong(s, t))
  }

  ghost predicate Holds(s: Daemon, t: Tid, m: Mutex) {
    t in s.threads && s.threads[t].Serving? && m in s.threads[t].held
  }

  /** A mutex has an owner exactly when that thread holds its guard, and guards are in rank order. */
  ghost predicate MutexInv(s: Daemon) {
    && (forall t, m :: Holds(s, t, m) <==> m in s.owners && s.owners[m] == t)
    && (forall t :: t in s.threads && s.threads[t].Serving? ==>
          && Ordered(s.threads[t].code, s.threads[t].held, s.threads[t].long)
          && Distinct(s.threads[t].held))
  }

  ghost predicate Inv(max: nat, s: Daemon) {
    PermitInv(max, s) && LongInv(s) && MutexInv(s)
  }

  // ----- Every step keeps the invariant -----

  lemma CountJoins(threads: map<Tid, Thread>, t: Tid, x: Thread)
    ensures var before, after := ServingThreads(threads), ServingThreads(threads[t := x]);
            |after| == |before| + (if x.Serving? then 1 else 0) - (if t in before then 1 else 0)
  {
    var before, after := ServingThreads(threads), ServingThreads(threads[t := x]);
    if x.Serving? {
      assert after == before + {t};
    } else {
      assert after == before - {t};
    }
  }

  lemma StepKeepsPermits(max: nat, s: Daemon, t: Tid, move: Move, s': Daemon)
    requires PermitInv(max, s) && Step(max, s, t, move, s')
    ensures PermitInv(max, s')
  {
    CountJoins(s.threads, t, s'.threads[t]);
    assert s'.threads == s.threads[t := s'.threads[t]];
  }

  lemma StepKeepsLong(max: nat, s: Daemon, t: Tid, move: Move, s': Daemon)
    requires LongInv(s) && MutexInv(s) && Step(max, s, t, move, s')
    ensures LongInv(s')
  {
    assert forall u :: u != t ==> (IsLong(s', u) <==> IsLong(s, u));
    if IsLong(s', t) && !IsLong(s, t) {
      assert !s.flag && s'.flag;
    } else if !IsLong(s', t) && IsLong(s, t) {
      assert !s'.flag;
    } else {
      assert s'.flag == s.flag;
      if s.flag {
        var u :| IsLong(s, u);
        assert IsLong(s', u);
      }
    }
  }

  predicate Distinct(held: seq<Mutex>) {
    forall i, j :: 0 <= i < j < |held| ==> held[i] != held[j]
  }

  lemma PushHeld(held: seq<Mutex>, m: Mutex)
    requires Distinct(held) && Above(held, m)
    ensures Distinct(held + [m]) && m !in held
    ensures forall x :: x in held + [m] <==> x in held || x == m
  {
  }

  lemma PopHeld(held: seq<Mutex>)
    requires held != [] && Distinct(held)
    ensures var last, rest := held[|held| - 1], held[..|held| - 1];
            Distinct(rest) && last in held && forall x :: x in rest <==> x in held && x != last
  {
    var rest := held[..|held| - 1];
    forall x | x in held && x != held[|held| - 1]
      ensures x in rest
    {
      var i :| 0 <= i < |held| && held[i] == x;
      assert rest[i] == x;
    }
  }

  /** A thread that keeps its guards, or has none before and after, leaves the mutexes alone. */
  lemma SameGuards(s: Daemon, t: Tid, x: Thread, s': Daemon)
    requires MutexInv(s) && s'.owners == s.owners && s'.threads == s.threads[t := x]
    requires forall m :: Holds(s, t, m) <==> x.Serving? && m in x.held
    requires x.Serving? ==> Ordered(x.code, x.held, x.long) && Distinct(x.held)
    ensures MutexInv(s')
  {
    assert forall u, m :: Holds(s', u, m) <==> Holds(s, u, m);
  }

  lemma AcquireKeeps(s: Daemon, t: Tid, m: Mutex, s': Daemon)
    requires MutexInv(s) && t in s.threads && s.threads[t].Serving? && s.threads[t].code != []
    requires s.threads[t].code[0] == Acquire(m) && Execute(s, t, s.threads[t], s')
    ensures MutexInv(s')
  {
    PushHeld(s.threads[t].held, m);
    forall u, n
      ensures Holds(s', u, n) <==> n in s'.owners && s'.owners[n] == u
    {
      assert Holds(s, u, n) <==> n in s.owners && s.owners[n] == u;
      assert Holds(s', u, n) <==> Holds(s, u, n) || (u == t && n == m);
    }
  }

  lemma ReleaseKeeps(s: Daemon, t: Tid, m: Mutex, s': Daemon)
    requires MutexInv(s) && t in s.threads && s.threads[t].Serving? && s.threads[t].code != []
    requires s.threads[t].code[0] == Release(m) && Execute(s, t, s.threads[t], s')
    ensures MutexInv(s')
  {
    PopHeld(s.threads[t].held);
    assert Holds(s, t, m);
    forall u, n
      ensures Holds(s', u, n) <==> n in s'.owners && s'.owners[n] == u
    {
      assert Holds(s, u, n) <==> n in s.owners && s.owners[n] == u;
      assert Holds(s', u, n) <==> Holds(s, u, n) && !(u == t && n == m);
    }
  }

  lemma StepKeepsMutexes(max: nat, s: Daemon, t: Tid, move: Move, s': Daemon)
    requires MutexInv(s) && Step(max, s, t, move, s')
    ensures MutexInv(s')
  {
    if move.Next? && s.threads[t].code[0].Acquire? {
      AcquireKeeps(s, t, s.threads[t].code[0].m, s');
    } else if move.Next? && s.threads[t].code[0].Release? {
      ReleaseKeeps(s, t, s.threads[t].code[0].m, s');
    } else {
      if move.Swap? {
        CodeOrdered(move.request, move.witnessed);
      }
      if t in s.threads && s.threads[t].Serving? {
        CleanupOrdered(s.threads[t].held, s.threads[t].long);
      }
      SameGuards(s, t, s'.threads[t], s');
    }
  }

  lemma {:induction false} RunKeeps(max: nat, states: seq<Daemon>, who: seq<Tid>, moves: seq<Move>, i: nat)
    requires IsRun(max, states, who, moves) && i < |states|
    ensures Inv(max, states[i])
  {
    if i == 0 {
      assert ServingThreads(INITIAL.threads) == {};
    } else {
      RunKeeps(max, states, who, moves, i - 1);
      StepKeepsPermits(max, states[i - 1], who[i - 1], moves[i - 1], states[i]);
      StepKeepsLong(max, states[i - 1], who[i - 1], moves[i - 1], states[i]);
      StepKeepsMutexes(max, states[i - 1], who[i - 1], moves[i - 1], states[i]);
    }
  }

  // ----- The theorems -----

  /** Over every interleaving the counter is the number of live permits, and never exceeds the limit. */
  lemma ConnectionsAreCounted(max: nat, states: seq<Daemon>, who: seq<Tid>, moves: seq<Move>, i: nat)
    requires IsRun(max, states, who, moves) && i < |states|
    ensures states[i].active == |ServingThreads(states[i].threads)| && 0 <= states[i].active <= max
  {
    RunKeeps(max, states, who, moves, i);
  }

  /** At most one long operation is live, and the flag is set exactly while one is. */
  lemma LongOperationsExclude(max: nat, states: seq<Daemon>, who: seq<Tid>, moves: seq<Move>, i: nat)
    requires IsRun(max, states, who, moves) && i < |states|
    ensures forall t, u :: IsLong(states[i], t) && IsLong(states[i], u) ==> t == u
    ensures states[i].flag <==> exists t :: IsLong(states[i], t)
  {
    RunKeeps(max, states, who, moves, i);
  }

  /** The thread is about to work on what the mutex protects. */
  ghost predicate Works(s: Daemon, t: Tid, m: Mutex) {
    t in s.threads && s.threads[t].Serving? && s.threads[t].code != [] && s.threads[t].code[0] == Use(m)
  }

  /** Mutual exclusion: no two threads ever work on the vault, the witness client or the recovery state at once. */
  lemma ExclusiveUse(max: nat, states: seq<Daemon>, who: seq<Tid>, moves: seq<Move>, i: nat, t: Tid, u: Tid, m: Mutex)
    requires IsRun(max, states, who, moves) && i < |states| && Works(states[i], t, m) && Works(states[i], u, m)
    ensures t == u && m in states[i].owners && states[i].owners[m] == t
  {
    RunKeeps(max, states, who, moves, i);
    assert Holds(states[i], t, m) && Holds(states[i], u, m);
  }

  /** A connection is turned away if and only if all permits are in use when the counter is read. */
  lemma TurnedAwayExactly(max: nat, states: seq<Daemon>, who: seq<Tid>, moves: seq<Move>, i: nat)
    requires IsRun(max, states, who, moves) && i < |moves| && moves[i] == Load
    ensures states[i + 1].threads[who[i]].Gone? <==> |ServingThreads(states[i].threads)| == max
  {
    RunKeeps(max, states, who, moves, i);
    assert Step(max, states[i], who[i], moves[i], states[i + 1]);
  }

  /** A long operation is refused if and only if another one is live. */
  lemma LongRefusedExactly(max: nat, states: seq<Daemon>, who: seq<Tid>, moves: seq<Move>, i: nat)
    requires IsRun(max, states, who, moves) && i < |moves| && moves[i] == Next
    requires var x := states[i].threads; who[i] in x && x[who[i]].Serving? && x[who[i]].code != [] && x[who[i]].code[0] == TryLong
    ensures IsLong(states[i + 1], who[i]) <==> forall u :: !IsLong(states[i], u)
  {
    RunKeeps(max, states, who, moves, i);
    assert Step(max, states[i], who[i], moves[i], states[i + 1]);
  }

  ghost predicate CanMove(max: nat, s: Daemon, t: Tid) {
    exists move, s' :: move != Spawn && move != Abandon && Step(max, s, t, move, s')
  }

  lemma MovesWith(max: nat, s: Daemon, t: Tid, move: Move, s': Daemon)
    requires move != Spawn && move != Abandon && Step(max, s, t, move, s')
    ensures CanMove(max, s, t)
  {
  }

  /** A thread that is not waiting for a mutex can move. */
  lemma FreeThreadMoves(max: nat, s: Daemon, t: Tid)
    requires MutexInv(s) && t in s.threads && !s.threads[t].Gone?
    requires var x := s.threads[t]; x.Serving? && x.code != [] && x.code[0].Acquire? ==> x.code[0].m !in s.owners
    ensures CanMove(max, s, t)
  {
    match s.threads[t]
    case Accepting(observed) =>
      if observed == UNREAD {
        MovesWith(max, s, t, Load, s.(threads := s.threads[t := if s.active >= max then Gone else Accepting(s.active)]));
      } else {
        MovesWith(max, s, t, Swap(false, Status, false), s.(threads := s.threads[t := Accepting(UNREAD)]));
      }
    case Serving(code, held, long) =>
      if code == [] {
        MovesWith(max, s, t, Finish, s.(active := s.active - 1, threads := s.threads[t := Gone]));
      } else {
        InstructionMoves(max, s, t);
      }
  }

  lemma InstructionMoves(max: nat, s: Daemon, t: Tid)
    requires MutexInv(s) && t in s.threads && s.threads[t].Serving? && s.threads[t].code != []
    requires s.threads[t].code[0].Acquire? ==> s.threads[t].code[0].m !in s.owners
    ensures CanMove(max, s, t)
  {
    var x := s.threads[t];
    var rest := x.code[1..];
    match x.code[0]
    case TryLong =>
      MovesWith(max, s, t, Next,
                if s.flag then s.(threads := s.threads[t := x.(code := Cleanup(x.held, x.long))])
                else s.(flag := true, threads := s.threads[t := x.(code := rest, long := true)]));
    case Acquire(m) =>
      MovesWith(max, s, t, Next,
                s.(owners := s.owners[m := t], threads := s.threads[t := x.(code := rest, held := x.held + [m])]));
    case Use(m) =>
      MovesWith(max, s, t, Next, s.(threads := s.threads[t := x.(code := rest)]));
    case Release(m) =>
      MovesWith(max, s, t, Next,
                s.(owners := s.owners - {m}, threads := s.threads[t := x.(code := rest, held := x.held[..|x.held| - 1])]));
    case DropLong =>
      MovesWith(max, s, t, Next, s.(flag := false, threads := s.threads[t := x.(code := rest, long := false)]));
  }

  /** Following a waiting thread to the holder of its mutex climbs in rank, and so ends at one that can move. */
  lemma {:induction false} SomeThreadMoves(max: nat, s: Daemon, t: Tid, rank: nat) returns (u: Tid)
    requires MutexInv(s) && t in s.threads && !s.threads[t].Gone?
    requires var x := s.threads[t]; x.Serving? && x.code != [] && x.code[0].Acquire? ==> Rank(x.code[0].m) >= rank
    ensures u in s.threads && CanMove(max, s, u)
    ensures s.threads[t].Serving? ==> s.threads[u].Serving?
    decreases 3 - rank
  {
    var x := s.threads[t];
    if x.Serving? && x.code != [] && x.code[0].Acquire? && x.code[0].m in s.owners {
      var m := x.code[0].m;
      var owner := s.owners[m];
      assert Holds(s, owner, m);
      HolderIsAbove(s, owner, m);
      u := SomeThreadMoves(max, s, owner, Rank(m) + 1);
    } else {
      FreeThreadMoves(max, s, t);
      u := t;
    }
  }

  lemma HolderIsAbove(s: Daemon, t: Tid, m: Mutex)
    requires MutexInv(s) && Holds(s, t, m)
    ensures s.threads[t].code != []
    ensures s.threads[t].code[0].Acquire? ==> Rank(s.threads[t].code[0].m) > Rank(m)
  {
    var i :| 0 <= i < |s.threads[t].held| && s.threads[t].held[i] == m;
  }

  /** No deadlock: while any request is being served, some thread that serves one can take its next step. */
  lemma NoDeadlock(max: nat, states: seq<Daemon>, who: seq<Tid>, moves: seq<Move>, i: nat, t: Tid) returns (u: Tid)
    requires IsRun(max, states, who, moves) && i < |states|
    requires t in states[i].threads && states[i].threads[t].Serving?
    ensures u in states[i].threads && states[i].threads[u].Serving? && CanMove(max, states[i], u)
  {
    RunKeeps(max, states, who, moves, i);
    u := SomeThreadMoves(max, states[i], t, 0);
  }

  lemma OwnersServe(s: Daemon)
    requires MutexInv(s)
    ensures forall m :: m in s.owners ==> s.owners[m] in s.threads && s.threads[s.owners[m]].Serving?
  {
    forall m | m in s.owners
      ensures s.owners[m] in s.threads && s.threads[s.owners[m]].Serving?
    {
      assert Holds(s, s.owners[m], m);
    }
  }

  /** Nothing leaks: once every thread has ended, no permit, flag or mutex is left behind. */
  lemma NothingLeaks(max: nat, states: seq<Daemon>, who: seq<Tid>, moves: seq<Move>, i: nat)
    requires IsRun(max, states, who, moves) && i < |states|
    requires forall t :: t in states[i].threads ==> states[i].threads[t].Gone?
    ensures states[i].active == 0 && !states[i].flag && states[i].owners == map[]
  {
    RunKeeps(max, states, who, moves, i);
    assert ServingThreads(states[i].threads) == {};
    OwnersServe(states[i]);
  }
}
