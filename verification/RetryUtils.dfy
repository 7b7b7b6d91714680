/** Retrying a database operation through the shared "database" circuit breaker. */
module RetryUtils {
  import opened Wrappers
  import opened CircuitBreaker

  datatype DbError = DbError(code: string, message: Option<string>)

  const PRISMA_CODES := {"P1001", "P1008", "P1017", "P2028"}
  const PG_CODES := {"ECONNRESET", "ECONNREFUSED", "ETIMEDOUT", "ENOTFOUND"}

  predicate OccursAt(text: string, part: string, i: nat) {
    i + |part| <= |text| && text[i..i + |part|] == part
  }

  predicate Includes(text: string, part: string) {
    exists i :: 0 <= i <= |text| && OccursAt(text, part, i)
  }

  predicate IsRetryable(e: DbError) {
    || e.code in PRISMA_CODES
    || e.code in PG_CODES
    || (e.message.Some? && (Includes(e.message.value, "connection") || Includes(e.message.value, "timeout")))
  }

  lemma IncludesIff(text: string, part: string)
    ensures Includes(text, part) <==> SpeaksOf(text, part)
  {
    if Includes(text, part) {
      var i :| 0 <= i <= |text| && OccursAt(text, part, i);
      assert text == text[..i] + part + text[i + |part|..];
    }
    if before, rest :| text == before + part + rest {
      assert OccursAt(text, part, |before|);
    }
  }

  /** An error is retried exactly when it has one of the eight codes, or a message that speaks of a
      connection or a timeout. */
  lemma RetriedIff(e: DbError)
    ensures IsRetryable(e) <==>
              || e.code == "P1001" || e.code == "P1008" || e.code == "P1017" || e.code == "P2028"
              || e.code == "ECONNRESET" || e.code == "ECONNREFUSED" || e.code == "ETIMEDOUT" || e.code == "ENOTFOUND"
              || (e.message.Some? && SpeaksOf(e.message.value, "connection"))
              || (e.message.Some? && SpeaksOf(e.message.value, "timeout"))
  {
    if e.message.Some? {
      IncludesIff(e.message.value, "connection");
      IncludesIff(e.message.value, "timeout");
    }
  }

  ghost predicate SpeaksOf(text: string, part: string) {
    exists before, rest :: text == before + part + rest
  }

  datatype Attempt = Returned | Threw(error: DbError)

  /** One turn of the loop, as the clock and the other callers of the breaker make it: the
      steps others take while the operation runs, and while the loop sleeps afterwards. */
  datatype Round = Round(startAt: int, during: seq<Event>, result: Attempt, finishAt: int, asleep: seq<Event>)

  datatype Outcome =
    | Done
    | Failed(error: DbError)
    | CircuitOpen
    | NothingTried  // `throw lastError` with no attempt made

  function Finish(r: Round): Event {
    if r.result.Returned? then Succeed(r.finishAt) else Fail(r.finishAt)
  }

  /** Breaker steps of a turn in which the operation ran. */
  function Ran(r: Round): seq<Event> {
    [Start(r.startAt)] + r.during + [Finish(r)]
  }

  method Replay(b: Breaker, events: seq<Event>)
    modifies b
    ensures b.View() == After(b.opts, old(b.View()), events)
  {
    for i := 0 to |events|
      invariant b.View() == After(b.opts, old(b.View()), events[..i])
    {
      assert events[..i + 1][..i] == events[..i];
      match events[i] {
        case Start(now) => var _ := b.StartCall(now);
        case Succeed(now) => b.Succeeded(now);
        case Fail(now) => b.Failed(now);
        case Reset(now) => b.ResetCircuit(now);
        case Inspect(now) => var _ := b.ToJson(now);
      }
    }
    assert events[..|events|] == events;
  }

  /** One pass through the breaker, with whatever others do meanwhile. */
  method Execute(b: Breaker, r: Round) returns (admitted: bool)
    modifies b
    ensures admitted == Admits(old(b.View()), r.startAt)
    ensures b.View() == if admitted then After(b.opts, old(b.View()), Ran(r)) else old(b.View())
  {
    ghost var s := b.View();
    admitted := b.StartCall(r.startAt);
    if admitted {
      Replay(b, r.during);
      if r.result == Returned { b.Succeeded(r.finishAt); } else { b.Failed(r.finishAt); }
      RanIsItsSteps(b.opts, s, r);
    }
  }

  lemma RanIsItsSteps(o: Options, s: State, r: Round)
    ensures After(o, s, Ran(r)) == Step(o, After(o, Step(o, s, Start(r.startAt)), r.during), Finish(r))
  {
    var begun := [Start(r.startAt)];
    assert begun[..0] == [];
    assert After(o, s, begun) == Step(o, s, begun[0]);
    AfterAppend(o, s, begun, r.during);
    assert Ran(r)[..|Ran(r)| - 1] == begun + r.during;
  }

  /** The first `n` turns each led to another: the operation ran and threw a retryable error. */
  ghost predicate Retried(script: seq<Round>, n: nat) {
    n <= |script| && forall i :: 0 <= i < n ==> script[i].result.Threw? && IsRetryable(script[i].result.error)
  }

  /** All steps of `n` turns that led to another. */
  ghost function Turns(script: seq<Round>, n: nat): seq<Event>
    requires n <= |script|
  {
    if n == 0 then [] else Turns(script, n - 1) + Ran(script[n - 1]) + script[n - 1].asleep
  }

  /** The breaker after these turns. */
  ghost function Between(o: Options, s: State, script: seq<Round>, n: nat): State
    requires n <= |script|
  {
    After(o, s, Turns(script, n))
  }

  lemma AfterThree(o: Options, s: State, a: seq<Event>, b: seq<Event>, c: seq<Event>, all: seq<Event>, end: State)
    requires all == a + b + c && end == After(o, After(o, After(o, s, a), b), c)
    ensures After(o, s, all) == end
  {
    AfterAppend(o, s, a, b);
    AfterAppend(o, s, a + b, c);
  }

  /** Whatever steps brought the breaker to `s`: turn `n` comes less than the timeout after one
      that opened it, with no reset since. */
  ghost predicate ComesWhileShut(o: Options, s: State, script: seq<Round>, n: nat)
    requires n < |script|
  {
    forall past :: After(o, INITIAL, past) == s && InOrder(past, script, n) ==>
      Shut(o, past + Turns(script, n), script[n].startAt)
  }

  /** The same for a turn that does not. */
  ghost predicate ComesWhileNotShut(o: Options, s: State, script: seq<Round>, n: nat)
    requires n < |script|
  {
    forall past :: After(o, INITIAL, past) == s && InOrder(past, script, n) ==>
      !Shut(o, past + Turns(script, n), script[n].startAt)
  }

  /** The clock did not go back up to the start of turn `n`. */
  ghost predicate InOrder(past: seq<Event>, script: seq<Round>, n: nat)
    requires n < |script|
  {
    Monotone(past + Turns(script, n) + [Start(script[n].startAt)])
  }

  lemma AdmissionIsRight(o: Options, s: State, script: seq<Round>, n: nat)
    requires n < |script|
    ensures if Admits(Between(o, s, script, n), script[n].startAt) then ComesWhileNotShut(o, s, script, n)
            else ComesWhileShut(o, s, script, n)
  {
    forall past | After(o, INITIAL, past) == s && InOrder(past, script, n)
      ensures Admits(Between(o, s, script, n), script[n].startAt) <==>
              !Shut(o, past + Turns(script, n), script[n].startAt)
    {
      AfterAppend(o, INITIAL, past, Turns(script, n));
      RefusedIffShut(o, past + Turns(script, n), script[n].startAt);
    }
  }

  /** None of the first `n` turns comes while the breaker is shut. */
  ghost predicate NoneWhileShut(o: Options, s: State, script: seq<Round>, n: nat) {
    n <= |script| && forall i :: 0 <= i < n ==> ComesWhileNotShut(o, s, script, i)
  }

  lemma OneMoreNotShut(o: Options, s: State, script: seq<Round>, n: nat)
    requires n < |script| && NoneWhileShut(o, s, script, n) && Admits(Between(o, s, script, n), script[n].startAt)
    ensures NoneWhileShut(o, s, script, n + 1)
  {
    AdmissionIsRight(o, s, script, n);
  }

  /** `started` counts the operations begun.  At most `attempts` are; a rejection by the
      breaker ends the call, so nothing starts after it; every operation but the last one
      threw a retryable error; and the breaker ends where the turns, interleaved with
      everyone else's steps, leave it.  Past the first look a turn is rejected exactly when it
      comes less than the timeout after a step that opened the breaker, with no reset since. */
  method RetryDatabaseOperation(b: Breaker, attempts: int, script: seq<Round>)
    returns (outcome: Outcome, started: nat)
    requires |script| >= attempts
    modifies b
    ensures started <= if attempts < 0 then 0 else attempts
    ensures old(b.mode) != Open && outcome == CircuitOpen ==>
              started < |script| && ComesWhileShut(b.opts, old(b.View()), script, started)
    ensures NoneWhileShut(b.opts, old(b.View()), script, started)
    ensures old(b.mode) == Open ==> outcome == CircuitOpen && started == 0 && b.View() == old(b.View())
    ensures old(b.mode) != Open && attempts <= 0 ==> outcome == NothingTried && b.View() == old(b.View())
    ensures old(b.mode) != Open && attempts > 0 ==>
              match outcome
              case Done => started > 0 && Retried(script, started - 1) && script[started - 1].result == Returned
              case Failed(error) =>
                started > 0 && Retried(script, started - 1) && script[started - 1].result == Threw(error) &&
                (started == attempts || !IsRetryable(error))
              case CircuitOpen =>
                started < attempts && Retried(script, started) && !Admits(b.View(), script[started].startAt)
              case NothingTried => false
    ensures old(b.mode) != Open && attempts > 0 ==>
              b.View() == if outcome == CircuitOpen || started == 0 then Between(b.opts, old(b.View()), script, started)
                          else After(b.opts, Between(b.opts, old(b.View()), script, started - 1),
                              Ran(script[started - 1]))
  {
    started := 0;
    if b.mode == Open { return CircuitOpen, 0; }
    var attempt := 1;
    while attempt <= attempts
      invariant attempt >= 1 && started == attempt - 1
      invariant attempts > 0 ==> started < attempts
      invariant attempts <= 0 ==> started == 0
      invariant Retried(script, started)
      invariant b.View() == Between(b.opts, old(b.View()), script, started)
      invariant NoneWhileShut(b.opts, old(b.View()), script, started)
    {
      var round := script[attempt - 1];
      var admitted := Execute(b, round);
      if !admitted {
        AdmissionIsRight(b.opts, old(b.View()), script, started);
        return CircuitOpen, started;
      }
      OneMoreNotShut(b.opts, old(b.View()), script, started);
      started := attempt;
      if round.result == Returned { return Done, started; }
      if attempt == attempts || !IsRetryable(round.result.error) {
        return Failed(round.result.error), started;
      }
      Replay(b, round.asleep);
      AfterThree(b.opts, old(b.View()), Turns(script, started - 1), Ran(round), round.asleep, Turns(script, started),
                 b.View());
      attempt := attempt + 1;
    }
    return NothingTried, started;
  }

  // ---- A breaker reached only through retries --------------------------------------

  datatype Config = Config(attempts: int, delay: nat, backoff: nat)

  function Pow(base: nat, exponent: nat): nat {
    if exponent == 0 then 1 else base * Pow(base, exponent - 1)
  }

  function Delay(c: Config, attempt: nat): nat
    requires attempt >= 1
  {
    c.delay * Pow(c.backoff, attempt - 1)
  }

  /** The first wait is the configured delay, and each further one longer by the factor. */
  lemma DelayGrows(c: Config, attempt: nat)
    requires attempt >= 1
    ensures Delay(c, 1) == c.delay && Delay(c, attempt + 1) == c.backoff * Delay(c, attempt)
  {
    assert Pow(c.backoff, attempt) == c.backoff * Pow(c.backoff, attempt - 1);
    assert c.delay * (c.backoff * Pow(c.backoff, attempt - 1)) == c.backoff * (c.delay * Pow(c.backoff, attempt - 1));
  }

  /** A call in progress: its operation is running for the `attempt`-th time, or it sleeps
      after that attempt and may wake at `wakeAt`. */
  datatype Phase = Running(attempt: nat) | Asleep(attempt: nat, wakeAt: int)

  /** The breaker, the clock, and the calls of RetryDatabaseOperation in progress. */
  datatype System = System(breaker: State, now: int, calls: map<nat, Phase>, nextId: nat)

  const START := System(INITIAL, 0, map[], 0)

  datatype Move =
    | Call(at: int)
    | Again(at: int, id: nat)      // a sleeping call makes its next attempt
    | Return(at: int, id: nat)
    | Throw(at: int, id: nat, retryable: bool)

  /** The clock does not go back, a timer fires no sooner than it is due, and no timer is
      later than `lag`. */
  ghost predicate Enabled(s: System, lag: nat, m: Move) {
    && m.at >= s.now
    && (forall id :: id in s.calls && s.calls[id].Asleep? ==> m.at <= s.calls[id].wakeAt + lag)
    && match m
       case Call(_) => true
       case Again(at, id) => id in s.calls && s.calls[id].Asleep? && at >= s.calls[id].wakeAt
       case Return(_, id) => id in s.calls && s.calls[id].Running?
       case Throw(_, id, _) => id in s.calls && s.calls[id].Running?
  }

  function Apply(o: Options, c: Config, s: System, m: Move): System {
    match m
    case Call(at) =>
      if s.breaker.mode == Open || c.attempts < 1 then s.(now := at)
      else System(Begin(o, s.breaker, at), at, s.calls[s.nextId := Running(1)], s.nextId + 1)
    case Again(at, id) =>
      if id in s.calls && Admits(s.breaker, at) then
        System(Begin(o, s.breaker, at), at, s.calls[id := Running(s.calls[id].attempt + 1)], s.nextId)
      else s.(now := at, calls := s.calls - {id})
    case Return(at, id) => System(OnSuccess(o, s.breaker, at), at, s.calls - {id}, s.nextId)
    case Throw(at, id, retryable) =>
      var attempt := if id in s.calls then s.calls[id].attempt else 0;
      System(OnFailure(o, s.breaker, at), at,
             if retryable && 1 <= attempt < c.attempts then s.calls[id := Asleep(attempt, at + Delay(c, attempt))]
             else s.calls - {id},
             s.nextId)
  }

  ghost predicate Possible(o: Options, c: Config, lag: nat, s: System, run: seq<Move>)
    decreases |run|
  {
    run != [] ==> Enabled(s, lag, run[0]) && Possible(o, c, lag, Apply(o, c, s, run[0]), run[1..])
  }

  function Final(o: Options, c: Config, s: System, run: seq<Move>): System
    decreases |run|
  {
    if run == [] then s else Final(o, c, Apply(o, c, s, run[0]), run[1..])
  }

  /** A call sleeps only if an attempt is left, and no longer than its timer's lag. */
  ghost predicate Valid(c: Config, lag: nat, s: System) {
    forall id :: id in s.calls ==>
      && id < s.nextId
      && match s.calls[id]
         case Running(attempt) => 1 <= attempt <= c.attempts
         case Asleep(attempt, wakeAt) => 1 <= attempt < c.attempts && s.now <= wakeAt + lag
  }

  lemma StepKeepsValid(o: Options, c: Config, lag: nat, s: System, m: Move)
    requires Valid(c, lag, s) && Enabled(s, lag, m)
    ensures Valid(c, lag, Apply(o, c, s, m))
  {}

  lemma {:induction false} RunKeepsValid(o: Options, c: Config, lag: nat, s: System, run: seq<Move>)
    requires Valid(c, lag, s) && Possible(o, c, lag, s, run)
    ensures Valid(c, lag, Final(o, c, s, run))
    decreases |run|
  {
    if run != [] {
      StepKeepsValid(o, c, lag, s, run[0]);
      RunKeepsValid(o, c, lag, Apply(o, c, s, run[0]), run[1..]);
    }
  }

  /** A call that can still probe: one that runs with an attempt left, or one whose timer may
      fire when the probe is due. */
  predicate CanProbe(c: Config, lag: nat, s: System, id: nat)
    requires id in s.calls
  {
    match s.calls[id]
    case Running(attempt) => attempt < c.attempts
    case Asleep(_, wakeAt) => wakeAt + lag >= s.breaker.nextAttemptAt
  }

  ghost predicate SomeoneCanProbe(c: Config, lag: nat, s: System) {
    exists id :: id in s.calls && CanProbe(c, lag, s, id)
  }

  lemma StuckStep(o: Options, c: Config, lag: nat, s: System, m: Move)
    requires Valid(c, lag, s) && s.breaker.mode == Open && !SomeoneCanProbe(c, lag, s) && Enabled(s, lag, m)
    ensures var s' := Apply(o, c, s, m); s'.breaker.mode == Open && !SomeoneCanProbe(c, lag, s')
  {
    var s' := Apply(o, c, s, m);
    if m.Again? {
      assert !CanProbe(c, lag, s, m.id);
    } else if m.Throw? {
      assert !CanProbe(c, lag, s, m.id);
    }
    assert s'.breaker.mode == Open && s'.breaker.nextAttemptAt == s.breaker.nextAttemptAt;
    forall id | id in s'.calls ensures !CanProbe(c, lag, s', id) {
      assert id in s.calls && s'.calls[id] == s.calls[id] && !CanProbe(c, lag, s, id);
    }
  }

  lemma {:induction false} StuckForever(o: Options, c: Config, lag: nat, s: System, run: seq<Move>)
    requires Valid(c, lag, s) && s.breaker.mode == Open && !SomeoneCanProbe(c, lag, s)
    requires Possible(o, c, lag, s, run)
    ensures Final(o, c, s, run).breaker.mode == Open
    decreases |run|
  {
    if run != [] {
      StuckStep(o, c, lag, s, run[0]);
      StepKeepsValid(o, c, lag, s, run[0]);
      StuckForever(o, c, lag, Apply(o, c, s, run[0]), run[1..]);
    }
  }

  ghost predicate Sleeps(s: System, id: nat) { id in s.calls && s.calls[id].Asleep? }

  /** The sleeping call that wakes first. */
  lemma FirstToWake(calls: map<nat, Phase>, some: nat) returns (first: nat)
    requires some in calls && calls[some].Asleep?
    ensures first in calls && calls[first].Asleep?
    ensures forall id :: id in calls && calls[id].Asleep? ==> calls[first].wakeAt <= calls[id].wakeAt
    decreases |calls|
  {
    var rest := calls - {some};
    if other :| other in rest && rest[other].Asleep? {
      assert |rest| < |calls| by { assert rest.Keys == calls.Keys - {some}; SmallerWithout(calls, some); }
      first := FirstToWake(rest, other);
      if calls[some].wakeAt < calls[first].wakeAt { first := some; }
    } else {
      first := some;
    }
    forall id | id in calls && calls[id].Asleep? ensures calls[first].wakeAt <= calls[id].wakeAt {
      assert id == some || id in rest;
    }
  }

  lemma SmallerWithout(calls: map<nat, Phase>, id: nat)
    requires id in calls
    ensures |calls - {id}| < |calls|
  {
    var rest := calls - {id};
    assert rest.Keys == calls.Keys - {id};
    assert |rest.Keys| == |rest| && |calls.Keys| == |calls|;
  }

  lemma OneMove(o: Options, c: Config, lag: nat, s: System, m: Move, rest: seq<Move>) returns (run: seq<Move>)
    requires Enabled(s, lag, m) && Possible(o, c, lag, Apply(o, c, s, m), rest)
    ensures run == [m] + rest && Possible(o, c, lag, s, run)
    ensures Final(o, c, s, run) == Final(o, c, Apply(o, c, s, m), rest)
  {
    run := [m] + rest;
    assert run[1..] == rest;
  }

  function Latest(x: int, y: int): int { if x >= y then x else y }

  /** A run that lets the sleeping calls which are too early be rejected, and then has one
      call probe. */
  lemma ARunThatProbes(o: Options, c: Config, lag: nat, s: System) returns (run: seq<Move>)
    requires Valid(c, lag, s) && s.breaker.mode == Open && SomeoneCanProbe(c, lag, s)
    ensures Possible(o, c, lag, s, run) && Final(o, c, s, run).breaker.mode == HalfOpen
    decreases |s.calls|
  {
    if some :| Sleeps(s, some) {
      var first := FirstToWake(s.calls, some);
      var wakeAt, probeAt := s.calls[first].wakeAt, s.breaker.nextAttemptAt;
      if wakeAt + lag >= probeAt {
        run := OneMove(o, c, lag, s, Again(Latest(Latest(s.now, wakeAt), probeAt), first), []);
      } else {
        var early := Again(Latest(s.now, wakeAt), first);
        var s' := Apply(o, c, s, early);
        assert s' == s.(now := early.at, calls := s.calls - {first});
        StepKeepsValid(o, c, lag, s, early);
        SmallerWithout(s.calls, first);
        var id :| id in s.calls && CanProbe(c, lag, s, id);
        assert id != first && id in s'.calls && CanProbe(c, lag, s', id);
        var rest := ARunThatProbes(o, c, lag, s');
        run := OneMove(o, c, lag, s, early, rest);
      }
    } else {
      var id :| id in s.calls && CanProbe(c, lag, s, id);
      assert !Sleeps(s, id);
      run := ThrowThenProbe(o, c, lag, s, id);
    }
  }

  lemma ThrowThenProbe(o: Options, c: Config, lag: nat, s: System, id: nat) returns (run: seq<Move>)
    requires s.breaker.mode == Open && id in s.calls && s.calls[id].Running? && 1 <= s.calls[id].attempt < c.attempts
    requires forall other :: other in s.calls ==> !Sleeps(s, other)
    ensures Possible(o, c, lag, s, run) && Final(o, c, s, run).breaker.mode == HalfOpen
  {
    var throw := Throw(Latest(s.now, s.breaker.nextAttemptAt), id, true);
    assert forall other :: other in s.calls ==> !Sleeps(s, other) && !s.calls[other].Asleep?;
    var s' := Apply(o, c, s, throw);
    assert s'.breaker.mode == Open && s'.breaker.nextAttemptAt == s.breaker.nextAttemptAt;
    var rest := OneMove(o, c, lag, s', Again(s'.calls[id].wakeAt, id), []);
    run := OneMove(o, c, lag, s, throw, rest);
  }

  /** Can a run of calls lead out of the open state? */
  ghost predicate CanRecover(o: Options, c: Config, lag: nat, s: System) {
    exists run :: Possible(o, c, lag, s, run) && Final(o, c, s, run).breaker.mode != Open
  }

  /** The early rejection of `retryDatabaseOperation` looks only at the state, so an open
      breaker reached by retries alone can recover exactly if some call in progress can still
      probe it: new calls never do. */
  lemma RecoversIffACallCanProbe(o: Options, c: Config, lag: nat, s: System)
    requires Valid(c, lag, s) && s.breaker.mode == Open
    ensures CanRecover(o, c, lag, s) <==> SomeoneCanProbe(c, lag, s)
  {
    if SomeoneCanProbe(c, lag, s) {
      var run := ARunThatProbes(o, c, lag, s);
      assert Possible(o, c, lag, s, run) && Final(o, c, s, run).breaker.mode != Open;
    } else {
      forall run | Possible(o, c, lag, s, run) ensures Final(o, c, s, run).breaker.mode == Open {
        StuckForever(o, c, lag, s, run);
      }
    }
  }

  /** If timers may be late by any amount: exactly if some call is asleep, or runs with an
      attempt left. */
  lemma RecoversIffAnAttemptIsLeft(o: Options, c: Config, lag: nat, s: System)
    requires Valid(c, lag, s) && s.breaker.mode == Open
    ensures (exists longer: nat :: longer >= lag && CanRecover(o, c, longer, s)) <==>
            exists id :: id in s.calls && (s.calls[id].Asleep? || s.calls[id].attempt < c.attempts)
  {
    if longer: nat :| longer >= lag && CanRecover(o, c, longer, s) {
      RecoversIffACallCanProbe(o, c, longer, s);
      var id :| id in s.calls && CanProbe(c, longer, s, id);
      assert s.calls[id].Asleep? || s.calls[id].attempt < c.attempts;
    }
    if id :| id in s.calls && (s.calls[id].Asleep? || s.calls[id].attempt < c.attempts) {
      var more := if s.calls[id].Asleep? then Latest(0, s.breaker.nextAttemptAt - s.calls[id].wakeAt) else 0;
      var longer: nat := lag + more;
      assert CanProbe(c, longer, s, id);
      RecoversIffACallCanProbe(o, c, longer, s);
    }
  }

  /** With no call in progress the breaker stays open for ever, whatever calls come. */
  lemma OpenForeverWithoutCallsInProgress(o: Options, c: Config, lag: nat, s: System, run: seq<Move>)
    requires s.breaker.mode == Open && s.calls == map[]
    requires Possible(o, c, lag, s, run)
    ensures Final(o, c, s, run).breaker.mode == Open
  {
    StuckForever(o, c, lag, s, run);
  }
}
