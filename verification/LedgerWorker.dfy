/** The ledger worker over whole runs: ticks that take the worker's lease, batches that take
    the lock of their range, failures at every await, other processes, and restarts. */
module LedgerWorker {
  import opened Wrappers
  import opened LedgerBatch
  import L = LockManager

  const TICK_LOCK := "escrow_verifying_lock"
  const TICK_TTL := 300_000

  /** Where a tick is.  `n` numbers the attempt at a batch, and is the token of its range lock;
      `notBefore` is when its next try is due. */
  datatype Phase =
    | Fetching
    | Locking(latest: int, batch: Batch, n: nat, tries: nat, notBefore: int)
    | Locked(latest: int, batch: Batch, n: nat)
    | Dispatching(latest: int, batch: Batch, n: nat)
    | Releasing(latest: int, batch: Batch, n: nat)
    | Saving(latest: int, value: int)
    | Ending

  /** `locks` is every process's view of the lease, and the clock; `ticks` are this process's
      ticks between acquire and release, by lock token; `ranges` are the range locks in Redis,
      `batches` moved the cursor in this life, and `attempts` and `dispatched` are those of
      all lives. */
  datatype State = State(
    locks: L.State, cursor: int, saved: int, ticks: map<L.Token, Phase>, start: int, batches: seq<Batch>,
    ranges: Ranges, attempts: seq<Attempt>, dispatched: set<int>)

  datatype Step =
    | Begin(token: L.Token, link: L.Link)
    | Fetched(token: L.Token, latest: int)
    | TryLock(token: L.Token, link: L.Link)
    | GotEvents(token: L.Token)
    | DispatchNext(token: L.Token)          // all events of the next ledger
    | Unlock(token: L.Token, link: L.Link)
    | SaveDone(token: L.Token)
    | Fails(token: L.Token, written: bool)  // the await throws
    | Ends(token: L.Token, link: L.Link)
    | Lease(step: L.Step)                   // renewals, other processes, and time
    | Others(ranges: Ranges)                // other processes' range locks
    | Restart

  function Initial(saved: int): State {
    State(L.START, saved, saved, map[], saved, [], map[], [], {})
  }

  predicate Enabled(s: State, step: Step) {
    match step
    case Begin(token, link) => L.Enabled(s.locks, L.Acquire(TICK_LOCK, token, TICK_TTL, link))
    case Fetched(token, _) => token in s.ticks && s.ticks[token].Fetching?
    case TryLock(token, _) => token in s.ticks && s.ticks[token].Locking? && s.locks.now >= s.ticks[token].notBefore
    case GotEvents(token) => token in s.ticks && s.ticks[token].Locked?
    case DispatchNext(token) => token in s.ticks && s.ticks[token].Dispatching?
    case Unlock(token, _) => token in s.ticks && s.ticks[token].Releasing?
    case SaveDone(token) => token in s.ticks && s.ticks[token].Saving?
    case Fails(token, _) =>
      token in s.ticks && var p := s.ticks[token]; p.Fetching? || p.Locked? || p.Dispatching? || p.Saving?
    case Ends(token, link) => token in s.ticks && s.ticks[token].Ending? && L.Enabled(s.locks, L.Release(token, link))
    case Lease(step) => L.Enabled(s.locks, step) && !(step.Release? && step.token in s.ticks)
    case Others(_) => true
    case Restart => true
  }

  /** The head of the catch-up loop. */
  function Next(size: int, s: State, token: L.Token, latest: int): State {
    if s.cursor < latest then
      var b := Batch(s.cursor + 1, Min(s.cursor + size, latest));
      s.(ticks := s.ticks[token := Locking(latest, b, |s.attempts|, 0, s.locks.now)],
         attempts := s.attempts + [Attempt(b, false, b.from - 1, false)])
    else s.(ticks := s.ticks[token := Ending])
  }

  function GetAttempt(s: State, n: nat): Attempt {
    if n < |s.attempts| then s.attempts[n] else Attempt(Batch(0, 0), false, -1, false)
  }

  function SetAttempt(s: State, n: nat, a: Attempt): State {
    if n < |s.attempts| then s.(attempts := s.attempts[n := a]) else s
  }

  /** processBatch returned normally, with or without the lock. */
  function Returned(s: State, token: L.Token, latest: int, b: Batch, n: nat): State {
    SetAttempt(s, n, GetAttempt(s, n).(returned := true)).
      (cursor := b.to, batches := s.batches + [b], ticks := s.ticks[token := Saving(latest, b.to)])
  }

  function Tried(s: State, token: L.Token, link: L.Link, p: Phase): State
    requires p.Locking?
  {
    var Locking(latest, b, n, tries, _) := p;
    var tried := Try(s.ranges, b, n, link, s.locks.now);
    var s1 := s.(ranges := tried.0);
    if tried.1 then
      SetAttempt(s1, n, GetAttempt(s1, n).(locked := true)).(ticks := s.ticks[token := Locked(latest, b, n)])
    else if tries + 1 >= LOCK_RETRY_COUNT then Returned(s1, token, latest, b, n)
    else s1.(ticks := s.ticks[token := Locking(latest, b, n, tries + 1, s.locks.now + LOCK_RETRY_DELAY_MS)])
  }

  function Apply(size: int, s: State, step: Step): State
    requires Enabled(s, step)
  {
    match step
    case Begin(token, link) =>
      var locks := L.Apply(s.locks, L.Acquire(TICK_LOCK, token, TICK_TTL, link));
      s.(locks := locks, ticks := if token in locks.locks then s.ticks[token := Fetching] else s.ticks)
    case Fetched(token, latest) => Next(size, s, token, latest)
    case TryLock(token, link) => Tried(s, token, link, s.ticks[token])
    case GotEvents(token) =>
      var Locked(latest, b, n) := s.ticks[token];
      s.(ticks := s.ticks[token := Dispatching(latest, b, n)])
    case DispatchNext(token) =>
      var Dispatching(latest, b, n) := s.ticks[token];
      var ledger := GetAttempt(s, n).reached + 1;
      SetAttempt(s, n, GetAttempt(s, n).(reached := ledger)).
        (dispatched := s.dispatched + {ledger},
         ticks := s.ticks[token := if ledger < b.to then Dispatching(latest, b, n) else Releasing(latest, b, n)])
    case Unlock(token, link) =>
      var Releasing(latest, b, n) := s.ticks[token];
      var s1 := s.(ranges := Unlocked(s.ranges, b, n, link, s.locks.now));
      if GetAttempt(s, n).reached == b.to then Returned(s1, token, latest, b, n)
      else s1.(ticks := s.ticks[token := Ending])
    case SaveDone(token) =>
      var Saving(latest, value) := s.ticks[token];
      Next(size, s.(saved := value), token, latest)
    case Fails(token, written) =>
      match s.ticks[token] {
        case Locked(latest, b, n) => s.(ticks := s.ticks[token := Releasing(latest, b, n)])
        case Dispatching(latest, b, n) => s.(ticks := s.ticks[token := Releasing(latest, b, n)])
        case Saving(_, value) => s.(saved := if written then value else s.saved, ticks := s.ticks[token := Ending])
        case _ => s.(ticks := s.ticks[token := Ending])
      }
    case Ends(token, link) => s.(locks := L.Apply(s.locks, L.Release(token, link)), ticks := s.ticks - {token})
    case Lease(step) => s.(locks := L.Apply(s.locks, step))
    case Others(ranges) => s.(ranges := ranges)
    case Restart => s.(cursor := s.saved, ticks := map[], start := s.saved, batches := [])
  }

  /** The lease is kept: every tick under way is within the TTL of its last grant. */
  ghost predicate LeaseKept(s: State) {
    forall t :: t in s.ticks ==> L.Live(s.locks, t)
  }

  ghost predicate Run(size: int, s: State, run: seq<Step>)
    decreases |run|
  {
    LeaseKept(s) && (run != [] ==> Enabled(s, run[0]) && Run(size, Apply(size, s, run[0]), run[1..]))
  }

  function End(size: int, s: State, run: seq<Step>): State
    requires Run(size, s, run)
    decreases |run|
  {
    if run == [] then s else End(size, Apply(size, s, run[0]), run[1..])
  }

  // ---- What every step keeps -----------------------------------------------------------------

  ghost predicate TicksOwnTheLock(s: State) {
    forall t :: t in s.ticks ==> t in s.locks.locks && s.locks.locks[t].key == TICK_LOCK
  }

  /** The batch in hand starts behind the cursor, and its attempt says how far it got. */
  ghost predicate InHand(size: int, s: State, b: Batch, n: nat, locked: bool) {
    && b.from == s.cursor + 1 && b.from <= b.to < b.from + size
    && n < |s.attempts| && s.attempts[n].batch == b && s.attempts[n].locked == locked && !s.attempts[n].returned
  }

  ghost predicate PhaseInv(size: int, s: State, p: Phase) {
    match p
    case Locking(_, b, n, tries, _) => InHand(size, s, b, n, false) && tries < LOCK_RETRY_COUNT
    case Locked(_, b, n) => InHand(size, s, b, n, true) && s.attempts[n].reached < b.to
    case Dispatching(_, b, n) => InHand(size, s, b, n, true) && s.attempts[n].reached < b.to
    case Releasing(_, b, n) => InHand(size, s, b, n, true)
    case Saving(_, value) => value == s.cursor
    case _ => true
  }

  ghost predicate LocksInv(s: State) { L.Inv(s.locks) && TicksOwnTheLock(s) }

  ghost predicate TilesInv(size: int, s: State) {
    Tiles(s.batches, s.start, s.cursor, size) && s.saved <= s.cursor
  }

  ghost predicate AccountsInv(origin: int, s: State) {
    Accounts(s.attempts, s.dispatched) && PassedTo(s.attempts, origin, s.cursor)
  }

  ghost predicate Inv(size: int, origin: int, s: State) {
    && LocksInv(s) && (forall t :: t in s.ticks ==> PhaseInv(size, s, s.ticks[t]))
    && TilesInv(size, s) && AccountsInv(origin, s)
  }

  lemma TickIsAlone(s: State, t: L.Token, u: L.Token)
    requires LocksInv(s) && LeaseKept(s) && t in s.ticks && u in s.ticks
    ensures t == u
  {
    L.LiveHoldersAreOne(s.locks, t, u);
  }

  /** A step of a tick other than its end changes nothing about the lease. */
  predicate OfTick(step: Step) {
    step.Fetched? || step.TryLock? || step.GotEvents? || step.DispatchNext? || step.Unlock? || step.SaveDone? ||
        step.Fails?
  }

  lemma TickStepKeepsLocks(size: int, s: State, step: Step)
    requires Enabled(s, step) && OfTick(step)
    ensures var s' := Apply(size, s, step); s'.locks == s.locks && s'.ticks.Keys == s.ticks.Keys
    ensures forall t :: t in s.ticks && t != step.token ==> Apply(size, s, step).ticks[t] == s.ticks[t]
  {}

  lemma NextKeepsInv(size: int, origin: int, s: State, token: L.Token, latest: int)
    requires size >= 1 && TilesInv(size, s) && AccountsInv(origin, s)
    ensures var s' := Next(size, s, token, latest);
            TilesInv(size, s') && AccountsInv(origin, s') && PhaseInv(size, s', s'.ticks[token])
  {
    if s.cursor < latest {
      StartAttempt(s.attempts, s.dispatched, Batch(s.cursor + 1, Min(s.cursor + size, latest)), origin, s.cursor);
    }
  }

  lemma ReturnedKeepsInv(size: int, origin: int, s: State, token: L.Token, latest: int, b: Batch, n: nat)
    requires TilesInv(size, s) && AccountsInv(origin, s) && n < |s.attempts|
    requires InHand(size, s, b, n, s.attempts[n].locked) && (s.attempts[n].locked ==> s.attempts[n].reached == b.to)
    ensures var s' := Returned(s, token, latest, b, n);
            TilesInv(size, s') && AccountsInv(origin, s') && PhaseInv(size, s', s'.ticks[token])
  {
    var s', a := Returned(s, token, latest, b, n), s.attempts[n].(returned := true);
    OneMoreTile(s.batches, s.start, s.cursor, size, b);
    assert forall l :: Reaches(a, l) <==> Reaches(s.attempts[n], l);
    assert forall l :: Reaches(s.attempts[n], l) ==> Reached(s.attempts, l);
    ChangeAttempt(s.attempts, s.dispatched, n, a, s.dispatched, origin, s.cursor, b.to);
  }

  lemma LockedKeepsAccounts(origin: int, s: State, n: nat)
    requires AccountsInv(origin, s) && n < |s.attempts| && !s.attempts[n].returned
    ensures AccountsInv(origin, SetAttempt(s, n, s.attempts[n].(locked := true)))
  {
    var a := s.attempts[n].(locked := true);
    assert forall l :: Reaches(a, l) <==> Reaches(s.attempts[n], l);
    assert forall l :: Reaches(s.attempts[n], l) ==> Reached(s.attempts, l);
    ChangeAttempt(s.attempts, s.dispatched, n, a, s.dispatched, origin, s.cursor, s.cursor);
  }

  lemma DispatchKeepsAccounts(origin: int, s: State, n: nat)
    requires AccountsInv(origin, s) && n < |s.attempts| && s.attempts[n].locked
    requires !s.attempts[n].returned && s.attempts[n].reached < s.attempts[n].batch.to
    ensures var ledger := s.attempts[n].reached + 1;
            var s1 := SetAttempt(s, n, s.attempts[n].(reached := ledger));
            AccountsInv(origin, s1.(dispatched := s.dispatched + {ledger}))
  {
    var ledger := s.attempts[n].reached + 1;
    var a := s.attempts[n].(reached := ledger);
    assert forall l :: Reaches(a, l) <==> Reaches(s.attempts[n], l) || l == ledger;
    assert forall l :: Reaches(s.attempts[n], l) ==> Reached(s.attempts, l);
    ChangeAttempt(s.attempts, s.dispatched, n, a, s.dispatched + {ledger}, origin, s.cursor, s.cursor);
  }

  lemma TriedKeepsInv(size: int, origin: int, s: State, token: L.Token, link: L.Link)
    requires Inv(size, origin, s) && Enabled(s, TryLock(token, link))
    ensures var s' := Apply(size, s, TryLock(token, link));
            TilesInv(size, s') && AccountsInv(origin, s') && PhaseInv(size, s', s'.ticks[token])
  {
    var Locking(latest, b, n, tries, _) := s.ticks[token];
    var tried := Try(s.ranges, b, n, link, s.locks.now);
    assert PhaseInv(size, s, s.ticks[token]) && Sane(s.attempts[n]);
    if tried.1 {
      LockedKeepsAccounts(origin, s, n);
    } else if tries + 1 >= LOCK_RETRY_COUNT {
      ReturnedKeepsInv(size, origin, s.(ranges := tried.0), token, latest, b, n);
    }
  }

  lemma UnlockKeepsInv(size: int, origin: int, s: State, token: L.Token, link: L.Link)
    requires Inv(size, origin, s) && Enabled(s, Unlock(token, link))
    ensures var s' := Apply(size, s, Unlock(token, link));
            TilesInv(size, s') && AccountsInv(origin, s') && PhaseInv(size, s', s'.ticks[token])
  {
    var Releasing(latest, b, n) := s.ticks[token];
    assert PhaseInv(size, s, s.ticks[token]);
    if GetAttempt(s, n).reached == b.to {
      ReturnedKeepsInv(size, origin, s.(ranges := Unlocked(s.ranges, b, n, link, s.locks.now)), token, latest, b, n);
    }
  }

  lemma PhaseStepKeepsInv(size: int, origin: int, s: State, step: Step)
    requires TilesInv(size, s) && AccountsInv(origin, s) && Enabled(s, step) && (step.GotEvents? || step.Fails?)
    requires PhaseInv(size, s, s.ticks[step.token])
    ensures var s' := Apply(size, s, step);
            TilesInv(size, s') && AccountsInv(origin, s') && PhaseInv(size, s', s'.ticks[step.token])
  {}

  lemma DispatchStepKeepsInv(size: int, origin: int, s: State, token: L.Token)
    requires TilesInv(size, s) && AccountsInv(origin, s) && Enabled(s, DispatchNext(token))
    requires PhaseInv(size, s, s.ticks[token])
    ensures var s' := Apply(size, s, DispatchNext(token));
            TilesInv(size, s') && AccountsInv(origin, s') && PhaseInv(size, s', s'.ticks[token])
  {
    DispatchKeepsAccounts(origin, s, s.ticks[token].n);
  }

  lemma TickStepKeepsInv(size: int, origin: int, s: State, step: Step)
    requires size >= 1 && Inv(size, origin, s) && Enabled(s, step) && OfTick(step)
    ensures var s' := Apply(size, s, step);
            TilesInv(size, s') && AccountsInv(origin, s') && PhaseInv(size, s', s'.ticks[step.token])
  {
    assert PhaseInv(size, s, s.ticks[step.token]);
    match step
    case Fetched(token, latest) => NextKeepsInv(size, origin, s, token, latest);
    case TryLock(token, link) => TriedKeepsInv(size, origin, s, token, link);
    case DispatchNext(token) => DispatchStepKeepsInv(size, origin, s, token);
    case Unlock(token, link) => UnlockKeepsInv(size, origin, s, token, link);
    case SaveDone(token) => NextKeepsInv(size, origin, s.(saved := s.ticks[token].value), token, s.ticks[token].latest);
    case GotEvents(token) => PhaseStepKeepsInv(size, origin, s, step);
    case Fails(_, _) => PhaseStepKeepsInv(size, origin, s, step);
  }

  lemma StepKeepsInv(size: int, origin: int, s: State, step: Step)
    requires size >= 1 && Inv(size, origin, s) && LeaseKept(s) && Enabled(s, step)
    ensures Inv(size, origin, Apply(size, s, step))
  {
    if OfTick(step) {
      var s' := Apply(size, s, step);
      TickStepKeepsLocks(size, s, step);
      TickStepKeepsInv(size, origin, s, step);
      forall t | t in s'.ticks ensures PhaseInv(size, s', s'.ticks[t]) { TickIsAlone(s, t, step.token); }
    } else {
      OtherStepKeepsInv(size, origin, s, step);
    }
  }

  lemma OtherStepKeepsLocks(size: int, s: State, step: Step)
    requires LocksInv(s) && Enabled(s, step) && !OfTick(step)
    ensures LocksInv(Apply(size, s, step))
  {
    match step
    case Begin(token, link) => L.StepKeepsInv(s.locks, L.Acquire(TICK_LOCK, token, TICK_TTL, link));
    case Ends(token, link) => L.StepKeepsInv(s.locks, L.Release(token, link));
    case Lease(step) => L.StepKeepsInv(s.locks, step);
    case Others(_) =>
    case Restart =>
  }

  lemma OtherStepKeepsInv(size: int, origin: int, s: State, step: Step)
    requires Inv(size, origin, s) && Enabled(s, step) && !OfTick(step)
    ensures Inv(size, origin, Apply(size, s, step))
  {
    OtherStepKeepsLocks(size, s, step);
    var s' := Apply(size, s, step);
    if !step.Restart? {
      assert s'.attempts == s.attempts && s'.cursor == s.cursor;
      forall t | t in s'.ticks ensures PhaseInv(size, s', s'.ticks[t]) {
        if t in s.ticks && s'.ticks[t] == s.ticks[t] { assert PhaseInv(size, s, s.ticks[t]); }
      }
    }
  }

  lemma {:induction false} RunKeepsInv(size: int, origin: int, s: State, run: seq<Step>)
    requires size >= 1 && Inv(size, origin, s) && Run(size, s, run)
    ensures Inv(size, origin, End(size, s, run)) && LeaseKept(End(size, s, run))
    decreases |run|
  {
    if run != [] {
      StepKeepsInv(size, origin, s, run[0]);
      RunKeepsInv(size, origin, Apply(size, s, run[0]), run[1..]);
    }
  }

  /** Over every run that keeps the lease: two ticks never interleave; the batches of the
      current life tile the ledgers from its start to the cursor; the saved cursor is not
      ahead of the one in memory. */
  lemma TicksTile(size: int, saved: int, run: seq<Step>)
    requires size >= 1 && Run(size, Initial(saved), run)
    ensures var s := End(size, Initial(saved), run);
            && (forall t, u :: t in s.ticks && u in s.ticks ==> t == u)
            && Tiles(s.batches, s.start, s.cursor, size)
            && s.saved <= s.cursor
  {
    RunKeepsInv(size, saved, Initial(saved), run);
    var s := End(size, Initial(saved), run);
    forall t, u | t in s.ticks && u in s.ticks ensures t == u {
      TickIsAlone(s, t, u);
    }
  }

  // ---- Which ledgers are lost ------------------------------------------------------------------

  /** A restart resumes behind ledgers that were all in some batch which returned normally;
      that alone does not mean that their events were dispatched. */
  lemma RestartResumesBehindReturnedBatches(size: int, saved: int, run: seq<Step>, ledger: int)
    requires size >= 1 && Run(size, Initial(saved), run)
    requires saved < ledger <= Apply(size, End(size, Initial(saved), run), Restart).cursor
    ensures Passed(End(size, Initial(saved), run).attempts, ledger)
  {
    RunKeepsInv(size, saved, Initial(saved), run);
  }

  lemma StepKeepsPast(size: int, origin: int, s: State, step: Step, ledger: int)
    requires Inv(size, origin, s) && Enabled(s, step) && ledger <= s.saved
    ensures var s' := Apply(size, s, step); ledger <= s'.saved && (ledger in s'.dispatched <==> ledger in s.dispatched)
  {
    if OfTick(step) {
      assert PhaseInv(size, s, s.ticks[step.token]);
      if step.DispatchNext? { assert Sane(s.attempts[s.ticks[step.token].n]); }
    }
  }

  lemma {:induction false} PastIsPast(size: int, origin: int, s: State, run: seq<Step>, ledger: int)
    requires size >= 1 && Inv(size, origin, s) && Run(size, s, run) && ledger <= s.saved
    ensures var s' := End(size, s, run); ledger <= s'.saved && (ledger in s'.dispatched <==> ledger in s.dispatched)
    decreases |run|
  {
    if run != [] {
      StepKeepsPast(size, origin, s, run[0], ledger);
      StepKeepsInv(size, origin, s, run[0]);
      PastIsPast(size, origin, Apply(size, s, run[0]), run[1..], ledger);
    }
  }

  /** For every ledger behind the saved cursor: its events are dispatched, then or at any later
      time in any run, if and only if some processBatch got the lock of its range and moved the
      cursor past the ledger, or came that far before it failed.  Otherwise every processBatch
      that moved the cursor past it, and there is one, returned without the lock. */
  lemma SavedLedgerIsDispatchedIff(size: int, saved: int, run: seq<Step>, later: seq<Step>, ledger: int)
    requires size >= 1 && Run(size, Initial(saved), run) && saved < ledger <= End(size, Initial(saved), run).saved
    requires Run(size, End(size, Initial(saved), run), later)
    ensures var s := End(size, Initial(saved), run);
            && (ledger in End(size, s, later).dispatched <==> LockedPassOrReach(s.attempts, ledger))
            && (ledger in End(size, s, later).dispatched <==> LockedAndReached(s.attempts, ledger))
            && (!LockedAndReached(s.attempts, ledger) ==>
                  && Passed(s.attempts, ledger)
                  && forall n :: 0 <= n < |s.attempts| && Passes(s.attempts[n], ledger) ==> !s.attempts[n].locked)
  {
    var s := End(size, Initial(saved), run);
    RunKeepsInv(size, saved, Initial(saved), run);
    DispatchedIff(s.attempts, s.dispatched, ledger);
    PastIsPast(size, saved, s, later, ledger);
  }

  /** No ledger is lost as long as every batch gets its range's lock. */
  lemma NoneLostIfAllLocked(size: int, saved: int, run: seq<Step>, ledger: int)
    requires size >= 1 && Run(size, Initial(saved), run) && saved < ledger <= End(size, Initial(saved), run).saved
    requires var s := End(size, Initial(saved), run);
             forall n :: 0 <= n < |s.attempts| && s.attempts[n].returned ==> s.attempts[n].locked
    ensures ledger in End(size, Initial(saved), run).dispatched
  {
    var s := End(size, Initial(saved), run);
    RunKeepsInv(size, saved, Initial(saved), run);
    DispatchedIff(s.attempts, s.dispatched, ledger);
    assert Passed(s.attempts, ledger);
    var n :| 0 <= n < |s.attempts| && Passes(s.attempts[n], ledger);
  }

  // ---- Two runs that lose a batch --------------------------------------------------------------

  lemma Then(size: int, s: State, step: Step, rest: seq<Step>) returns (run: seq<Step>)
    requires LeaseKept(s) && Enabled(s, step) && Run(size, Apply(size, s, step), rest)
    ensures run == [step] + rest && Run(size, s, run) && End(size, s, run) == End(size, Apply(size, s, step), rest)
  {
    run := [step] + rest;
    assert run[1..] == rest;
  }

  /** One tick, with time left on its lease, at its `tries`-th try for a range that is held for
      longer than all its tries take. */
  ghost predicate AboutToSkip(s: State, t: L.Token) {
    && t in s.ticks && s.ticks.Keys == {t} && s.ticks[t].Locking? && t in s.locks.locks && !s.locks.locks[t].released
    && var p := s.ticks[t]; var left := LOCK_RETRY_COUNT - p.tries;
    && p.tries < LOCK_RETRY_COUNT && p.notBefore <= s.locks.now + LOCK_RETRY_DELAY_MS
    && s.locks.now + left * LOCK_RETRY_DELAY_MS < s.locks.locks[t].grantedAt + s.locks.locks[t].ttl
    && p.batch in s.ranges && s.locks.now + left * LOCK_RETRY_DELAY_MS < s.ranges[p.batch].expiresAt
  }

  /** Then the batch is skipped and the cursor saved behind it, whatever its links do. */
  lemma {:induction false} SkipsAHeldRange(size: int, s: State, t: L.Token) returns (run: seq<Step>)
    requires AboutToSkip(s, t)
    ensures Run(size, s, run)
    ensures var s' := End(size, s, run);
            s'.saved == s'.cursor == s.ticks[t].batch.to && s'.dispatched == s.dispatched
    decreases LOCK_RETRY_COUNT - s.ticks[t].tries
  {
    var wait, try := Lease(L.Advance(LOCK_RETRY_DELAY_MS)), TryLock(t, L.Delivered);
    var s1 := Apply(size, s, wait);
    var s2 := Apply(size, s1, try);
    var rest: seq<Step> := [];
    if s.ticks[t].tries + 1 < LOCK_RETRY_COUNT {
      rest := SkipsAHeldRange(size, s2, t);
    } else {
      rest := Then(size, s2, SaveDone(t), []);
    }
    var tail := Then(size, s1, try, rest);
    run := Then(size, s, wait, tail);
  }

  /** The first tick of a process, up to its first try. */
  lemma FirstTick(size: int, saved: int, latest: int, t: L.Token)
    requires size >= 1 && saved < latest
    ensures var s0 := Initial(saved); LeaseKept(s0) && Enabled(s0, Begin(t, L.Delivered))
    ensures var s1 := Apply(size, Initial(saved), Begin(t, L.Delivered));
            LeaseKept(s1) && Enabled(s1, Fetched(t, latest))
    ensures var s2 := Apply(size, Apply(size, Initial(saved), Begin(t, L.Delivered)), Fetched(t, latest));
            && LeaseKept(s2) && s2.ranges == map[] && s2.dispatched == {} && s2.ticks.Keys == {t}
            && s2.ticks[t] == Locking(latest, Batch(saved + 1, Min(saved + size, latest)), 0, 0, 0)
            && s2.locks.now == 0 && |s2.attempts| == 1
            && s2.locks.locks == map[t := L.Grant(TICK_LOCK, TICK_TTL, 0, false)] && s2.attempts[0].reached == saved
            && s2.cursor == saved
            && s2.locks.store == map[TICK_LOCK := L.Lease(t, TICK_TTL)] && s2.locks.used == {t}
  {}

  /** One lost reply is enough.  The first try sets the key but its reply is lost; the next
      two find the key taken, by the batch itself; the batch is skipped, the cursor saved
      behind it, and its events are never dispatched. */
  lemma LostReplyLosesBatch(size: int, saved: int, latest: int, t: L.Token, later: seq<Step>) returns (run: seq<Step>)
    requires size >= 1 && saved < latest
    ensures Run(size, Initial(saved), run) && saved < End(size, Initial(saved), run).saved
    ensures Run(size, End(size, Initial(saved), run), later) ==>
              saved + 1 !in End(size, End(size, Initial(saved), run), later).dispatched
  {
    FirstTick(size, saved, latest, t);
    var s0, begin, fetched, try := Initial(saved), Begin(t, L.Delivered), Fetched(t, latest), TryLock(t, L.ReplyLost);
    var s1 := Apply(size, s0, begin);
    var s2 := Apply(size, s1, fetched);
    var s3 := Apply(size, s2, try);
    run := SkipsAHeldRange(size, s3, t);
    run := Then(size, s2, try, run);
    run := Then(size, s1, fetched, run);
    run := Then(size, s0, begin, run);
    NeverDispatched(size, saved, run, later, saved + 1);
  }

  lemma NeverDispatched(size: int, saved: int, run: seq<Step>, later: seq<Step>, ledger: int)
    requires size >= 1 && Run(size, Initial(saved), run) && ledger <= End(size, Initial(saved), run).saved
    requires ledger !in End(size, Initial(saved), run).dispatched
    ensures var s := End(size, Initial(saved), run); Run(size, s, later) ==> ledger !in End(size, s, later).dispatched
  {
    RunKeepsInv(size, saved, Initial(saved), run);
    var s := End(size, Initial(saved), run);
    if Run(size, s, later) { PastIsPast(size, saved, s, later, ledger); }
  }

  /** The state after a tick's fetch of events has failed and its release been lost. */
  function Abandoned(size: int, s: State, t: L.Token): State
    requires t in s.ticks && s.ticks[t].Locked? && t in s.locks.locks
  {
    var s1 := Apply(size, s, Fails(t, false));
    var s2 := Apply(size, s1, Unlock(t, L.RequestLost));
    if s2.ticks[t].Ending? then Apply(size, s2, Ends(t, L.Delivered)) else s2
  }

  lemma Abandons(size: int, s: State, t: L.Token, rest: seq<Step>) returns (run: seq<Step>)
    requires LeaseKept(s) && t in s.ticks && s.ticks[t].Locked? && t in s.locks.locks
    requires var Locked(_, b, n) := s.ticks[t]; GetAttempt(s, n).reached < b.to
    requires Run(size, Abandoned(size, s, t), rest)
    ensures Run(size, s, run) && End(size, s, run) == End(size, Abandoned(size, s, t), rest)
  {
    var s1 := Apply(size, s, Fails(t, false));
    var s2 := Apply(size, s1, Unlock(t, L.RequestLost));
    run := Then(size, s2, Ends(t, L.Delivered), rest);
    run := Then(size, s1, Unlock(t, L.RequestLost), run);
    run := Then(size, s, Fails(t, false), run);
  }

  /** What a failed first tick leaves: the key of its range, and nothing else. */
  lemma AbandonedLeavesTheKey(size: int, s: State, t: L.Token)
    requires t in s.ticks && s.ticks.Keys == {t} && s.ticks[t].Locked? && t in s.locks.locks
    requires var Locked(_, b, n) := s.ticks[t]; GetAttempt(s, n).reached < b.to
    requires s.locks.locks[t].key == TICK_LOCK && s.locks.store == map[TICK_LOCK := L.Lease(t, TICK_TTL)] &&
              s.locks.now == 0
    ensures var s' := Abandoned(size, s, t);
            && s'.ticks == map[] && s'.ranges == s.ranges && s'.cursor == s.cursor && s'.dispatched == s.dispatched
            && s'.locks.now == 0 && s'.locks.store == map[] && s'.locks.used == s.locks.used
            && s'.locks.locks.Keys == s.locks.locks.Keys
  {}

  /** A lost release is enough as well.  The fetch of the events fails, the range's key stays,
      and the next tick, five seconds later, finds it taken and skips the batch for good. */
  lemma StaleLockLosesBatch(size: int, saved: int, latest: int, t: L.Token, u: L.Token, later: seq<Step>)
    returns (run: seq<Step>)
    requires size >= 1 && saved < latest && t != u
    ensures Run(size, Initial(saved), run) && saved < End(size, Initial(saved), run).saved
    ensures Run(size, End(size, Initial(saved), run), later) ==>
              saved + 1 !in End(size, End(size, Initial(saved), run), later).dispatched
  {
    FirstTick(size, saved, latest, t);
    var s1 := Apply(size, Initial(saved), Begin(t, L.Delivered));
    var s2 := Apply(size, s1, Fetched(t, latest));
    run := FailsThenSkips(size, s2, latest, t, u);
    run := Then(size, s1, Fetched(t, latest), run);
    run := Then(size, Initial(saved), Begin(t, L.Delivered), run);
    NeverDispatched(size, saved, run, later, saved + 1);
  }

  lemma FailsThenSkips(size: int, s: State, latest: int, t: L.Token, u: L.Token) returns (run: seq<Step>)
    requires size >= 1 && s.cursor < latest && t != u && LeaseKept(s) && s.ticks.Keys == {t} && s.ranges == map[]
    requires var b := Batch(s.cursor + 1, Min(s.cursor + size, latest)); s.ticks[t] == Locking(latest, b, 0, 0, 0)
    requires s.locks.now == 0 && |s.attempts| == 1 && s.attempts[0].reached == s.cursor
    requires s.locks.locks == map[t := L.Grant(TICK_LOCK, TICK_TTL, 0, false)] && s.locks.used == {t}
    requires s.locks.store == map[TICK_LOCK := L.Lease(t, TICK_TTL)]
    ensures Run(size, s, run)
    ensures var s' := End(size, s, run); s'.saved > s.cursor && s'.dispatched == s.dispatched
  {
    var s1 := Apply(size, s, TryLock(t, L.Delivered));
    AbandonedLeavesTheKey(size, s1, t);
    run := SecondTick(size, Abandoned(size, s1, t), latest, u);
    run := Abandons(size, s1, t, run);
    run := Then(size, s, TryLock(t, L.Delivered), run);
  }

  lemma SecondTick(size: int, s: State, latest: int, u: L.Token) returns (run: seq<Step>)
    requires size >= 1 && s.ticks == map[] && s.cursor < latest && u !in s.locks.used && u !in s.locks.locks
    requires s.locks.now == 0 && s.locks.store == map[]
    requires var b := Batch(s.cursor + 1, Min(s.cursor + size, latest));
             b in s.ranges && s.ranges[b].expiresAt == LOCK_TTL_MS
    ensures Run(size, s, run)
    ensures var s' := End(size, s, run); s'.saved > s.cursor && s'.dispatched == s.dispatched
  {
    var wait := Lease(L.Advance(5_000));
    var s1 := Apply(size, s, wait);
    var s2 := Apply(size, s1, Begin(u, L.Delivered));
    var s3 := Apply(size, s2, Fetched(u, latest));
    assert AboutToSkip(s3, u);
    run := SkipsAHeldRange(size, s3, u);
    run := Then(size, s2, Fetched(u, latest), run);
    run := Then(size, s1, Begin(u, L.Delivered), run);
    run := Then(size, s, wait, run);
  }
}
