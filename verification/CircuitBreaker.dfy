/** The circuit breaker.  `execute` awaits its operation, so a call is a start step and a
    later success or failure step, and the steps of different calls interleave freely.
    Every step carries the clock reading it made. */
module CircuitBreaker {

  datatype Mode = Closed | Open | HalfOpen

  datatype Options = Options(failureThreshold: int, successThreshold: int, timeout: int, windowSize: int)

  datatype State = State(mode: Mode, failures: seq<int>, successCount: nat, nextAttemptAt: int)

  datatype Event = Start(at: int) | Succeed(at: int) | Fail(at: int) | Reset(at: int) | Inspect(at: int)

  const INITIAL := State(Closed, [], 0, 0)

  /** The times later than `cutoff`. */
  function Recent(times: seq<int>, cutoff: int): seq<int> {
    if times == [] then []
    else
      var last := times[|times| - 1];
      Recent(times[..|times| - 1], cutoff) + if last > cutoff then [last] else []
  }

  function TransitionTo(o: Options, s: State, mode: Mode, now: int): State {
    if s.mode == mode then s
    else match mode
      case Open => State(Open, s.failures, 0, now + o.timeout)
      case HalfOpen => State(HalfOpen, s.failures, 0, s.nextAttemptAt)
      case Closed => State(Closed, [], 0, 0)
  }

  /** The part of `execute` before the operation starts. */
  function Begin(o: Options, s: State, now: int): State {
    if s.mode == Open && now >= s.nextAttemptAt then TransitionTo(o, s, HalfOpen, now) else s
  }

  /** Does a call arriving at `now` start its operation? */
  predicate Admits(s: State, now: int) {
    s.mode == Open ==> now >= s.nextAttemptAt
  }

  function OnSuccess(o: Options, s: State, now: int): State {
    if s.mode == HalfOpen then
      var counted := s.(successCount := s.successCount + 1);
      if counted.successCount >= o.successThreshold then TransitionTo(o, counted, Closed, now) else counted
    else s.(failures := Recent(s.failures, now - o.windowSize))
  }

  function OnFailure(o: Options, s: State, now: int): State {
    FailWith(o, s, Recent(s.failures + [now], now - o.windowSize), now)
  }

  /** What a failure does, given the window it leaves. */
  function FailWith(o: Options, s: State, window: seq<int>, now: int): State {
    var pruned := s.(failures := window);
    if s.mode == HalfOpen || |window| >= o.failureThreshold then TransitionTo(o, pruned, Open, now) else pruned
  }

  function ResetBreaker(s: State): State {
    State(Closed, [], 0, if s.mode == Closed then s.nextAttemptAt else 0)
  }

  function Step(o: Options, s: State, e: Event): State {
    match e
    case Start(now) => Begin(o, s, now)
    case Succeed(now) => OnSuccess(o, s, now)
    case Fail(now) => OnFailure(o, s, now)
    case Reset(now) => ResetBreaker(s)
    case Inspect(now) => s.(failures := Recent(s.failures, now - o.windowSize))
  }

  function After(o: Options, s: State, run: seq<Event>): State {
    if run == [] then s else Step(o, After(o, s, run[..|run| - 1]), run[|run| - 1])
  }

  ghost predicate Monotone(run: seq<Event>) {
    forall i, j :: 0 <= i <= j < |run| ==> run[i].at <= run[j].at
  }

  /** Step `i` of a run opens the breaker. */
  ghost predicate OpensAt(o: Options, run: seq<Event>, i: nat)
    requires i < |run|
  {
    After(o, INITIAL, run[..i]).mode != Open && After(o, INITIAL, run[..i + 1]).mode == Open
  }

  predicate NoResetSince(run: seq<Event>, i: nat) {
    forall k :: i < k < |run| ==> !run[k].Reset?
  }

  /** Some step opened the breaker less than the timeout ago, and no one has reset it since. */
  ghost predicate Shut(o: Options, run: seq<Event>, now: int) {
    exists i :: 0 <= i < |run| && OpensAt(o, run, i) && NoResetSince(run, i) && now < run[i].at + o.timeout
  }

  class Breaker {
    const opts: Options
    var mode: Mode
    var failureTimestamps: seq<int>
    var successCount: nat
    var nextAttemptAt: int

    constructor (opts: Options)
      ensures View() == INITIAL && this.opts == opts
    {
      this.opts := opts;
      mode, failureTimestamps, successCount, nextAttemptAt := Closed, [], 0, 0;
    }

    ghost function View(): State
      reads this
    {
      State(mode, failureTimestamps, successCount, nextAttemptAt)
    }

    method Transition(newMode: Mode, now: int)
      modifies `mode, `failureTimestamps, `successCount, `nextAttemptAt
      ensures View() == TransitionTo(opts, old(View()), newMode, now)
    {
      if mode == newMode { return; }
      mode := newMode;
      match newMode {
        case Open =>
          nextAttemptAt := now + opts.timeout;
          successCount := 0;
        case HalfOpen =>
          successCount := 0;
        case Closed =>
          failureTimestamps := [];
          successCount := 0;
          nextAttemptAt := 0;
      }
    }

    method PruneFailureWindow(now: int)
      modifies `failureTimestamps
      ensures View() == old(View()).(failures := Recent(old(failureTimestamps), now - opts.windowSize))
    {
      var cutoff := now - opts.windowSize;
      var kept: seq<int> := [];
      for i := 0 to |failureTimestamps|
        invariant kept == Recent(failureTimestamps[..i], cutoff)
        invariant View() == old(View())
      {
        assert failureTimestamps[..i + 1][..i] == failureTimestamps[..i];
        if failureTimestamps[i] > cutoff { kept := kept + [failureTimestamps[i]]; }
      }
      assert failureTimestamps[..|failureTimestamps|] == failureTimestamps;
      failureTimestamps := kept;
    }

    /** Counting prunes again, which changes nothing right after a prune. */
    method CountRecentFailures(now: int, ghost all: seq<int>) returns (count: nat)
      requires failureTimestamps == Recent(all, now - opts.windowSize)
      modifies `failureTimestamps
      ensures View() == old(View()) && count == |failureTimestamps|
    {
      RecentTwice(all, now - opts.windowSize, now - opts.windowSize);
      PruneFailureWindow(now);
      count := |failureTimestamps|;
    }

    /** Whatever steps brought the breaker here, a call is refused exactly when one of them opened
        it less than the timeout ago and no one has reset it since. */
    method StartCall(now: int) returns (admitted: bool)
      modifies this
      ensures forall run :: After(opts, INITIAL, run) == old(View()) && Monotone(run + [Start(now)]) ==>
                (admitted <==> !Shut(opts, run, now))
      ensures old(mode) != Open ==> admitted
      ensures admitted == Admits(old(View()), now)
      ensures View() == Step(opts, old(View()), Start(now))
    {
      forall run | After(opts, INITIAL, run) == View() && Monotone(run + [Start(now)])
        ensures Admits(View(), now) <==> !Shut(opts, run, now)
      {
        RefusedIffShut(opts, run, now);
      }
      if mode == Open && now >= nextAttemptAt {
        Transition(HalfOpen, now);
      }
      admitted := mode != Open;
    }

    method Succeeded(now: int)
      modifies this
      ensures View() == Step(opts, old(View()), Succeed(now))
    {
      if mode == HalfOpen {
        successCount := successCount + 1;
        if successCount >= opts.successThreshold {
          Transition(Closed, now);
        }
      } else {
        PruneFailureWindow(now);
      }
    }

    method Failed(now: int)
      modifies this
      ensures View() == Step(opts, old(View()), Fail(now))
    {
      failureTimestamps := failureTimestamps + [now];
      PruneFailureWindow(now);
      ghost var pruned := old(View()).(failures := Recent(old(failureTimestamps) + [now], now - opts.windowSize));
      assert View() == pruned;
      if mode == HalfOpen {
        Transition(Open, now);
      } else {
        var count := CountRecentFailures(now, old(failureTimestamps) + [now]);
        if count >= opts.failureThreshold {
          Transition(Open, now);
        }
      }
    }

    /** The snapshot for health endpoints: counting the recent failures prunes the list. */
    method ToJson(now: int) returns (failureCount: nat)
      modifies this
      ensures View() == Step(opts, old(View()), Inspect(now))
      ensures failureCount == |Recent(old(failureTimestamps), now - opts.windowSize)|
    {
      PruneFailureWindow(now);
      failureCount := |failureTimestamps|;
    }

    method ResetCircuit(now: int)
      modifies this
      ensures View() == Step(opts, old(View()), Reset(now))
    {
      Transition(Closed, now);
      failureTimestamps := [];
      successCount := 0;
    }
  }

  lemma OneMoreStep(o: Options, run: seq<Event>, e: Event)
    ensures After(o, INITIAL, run + [e]) == Step(o, After(o, INITIAL, run), e)
  {
    assert (run + [e])[..|run|] == run;
  }

  // ---- The eager window against the full history --------------------------------

  lemma {:induction false} RecentAppend(a: seq<int>, b: seq<int>, cutoff: int)
    ensures Recent(a + b, cutoff) == Recent(a, cutoff) + Recent(b, cutoff)
  {
    if b == [] {
      assert a + b == a;
    } else {
      RecentAppend(a, b[..|b| - 1], cutoff);
      assert (a + b)[..|a + b| - 1] == a + b[..|b| - 1];
    }
  }

  lemma {:induction false} RecentTwice(times: seq<int>, early: int, late: int)
    requires early <= late
    ensures Recent(Recent(times, early), late) == Recent(times, late)
  {
    if times != [] {
      var init, last := times[..|times| - 1], times[|times| - 1];
      RecentTwice(init, early, late);
      RecentAppend(Recent(init, early), if last > early then [last] else [], late);
    }
  }

  /** A breaker that forgets nothing: `history` is every failure since it last closed or
      was reset, and the window is counted afresh whenever it is needed. */
  datatype Reference = Reference(mode: Mode, history: seq<int>, successCount: nat, nextAttemptAt: int)

  const REFERENCE := Reference(Closed, [], 0, 0)

  function Opened(o: Options, r: Reference, now: int): Reference {
    if r.mode == Open then r else r.(mode := Open, successCount := 0, nextAttemptAt := now + o.timeout)
  }

  function ReferenceStep(o: Options, r: Reference, e: Event): Reference {
    match e
    case Start(now) =>
      if r.mode == Open && now >= r.nextAttemptAt then r.(mode := HalfOpen, successCount := 0) else r
    case Succeed(now) =>
      if r.mode != HalfOpen then r
      else if r.successCount + 1 >= o.successThreshold then REFERENCE
      else r.(successCount := r.successCount + 1)
    case Fail(now) =>
      var seen := r.(history := r.history + [now]);
      if r.mode == HalfOpen || |Recent(seen.history, now - o.windowSize)| >= o.failureThreshold
          then Opened(o, seen, now)
      else seen
    case Reset(now) => Reference(Closed, [], 0, if r.mode == Closed then r.nextAttemptAt else 0)
    case Inspect(_) => r
  }

  function ReferenceAfter(o: Options, run: seq<Event>): Reference {
    if run == [] then REFERENCE else ReferenceStep(o, ReferenceAfter(o, run[..|run| - 1]), run[|run| - 1])
  }

  /** The pruned list is the part of the history after some cutoff that has left the window. */
  ghost predicate Refines(o: Options, s: State, r: Reference, cutoff: int, now: int) {
    && s.mode == r.mode && s.successCount == r.successCount && s.nextAttemptAt == r.nextAttemptAt
    && cutoff <= now - o.windowSize && s.failures == Recent(r.history, cutoff)
  }

  lemma SameWindow(failures: seq<int>, history: seq<int>, now: int, cutoff: int, edge: int)
    requires failures == Recent(history, cutoff) && cutoff <= edge
    ensures Recent(failures + [now], edge) == Recent(history + [now], edge)
  {
    RecentTwice(history, cutoff, edge);
    RecentAppend(failures, [now], edge);
    RecentAppend(history, [now], edge);
  }

  lemma FailRefines(o: Options, s: State, r: Reference, window: seq<int>, history: seq<int>, now: int)
    requires s.mode == r.mode && s.successCount == r.successCount && s.nextAttemptAt == r.nextAttemptAt
    requires window == Recent(history, now - o.windowSize)
    ensures var seen := r.(history := history);
            var r' := if r.mode == HalfOpen || |window| >= o.failureThreshold then Opened(o, seen, now) else seen;
            Refines(o, FailWith(o, s, window, now), r', now - o.windowSize, now)
  {}

  /** A failure's step on either breaker, given the window it leaves. */
  lemma FailSteps(o: Options, s: State, r: Reference, now: int, window: seq<int>, history: seq<int>)
    requires history == r.history + [now]
    requires window == Recent(s.failures + [now], now - o.windowSize) == Recent(history, now - o.windowSize)
    ensures Step(o, s, Fail(now)) == FailWith(o, s, window, now)
    ensures var seen := r.(history := history);
            ReferenceStep(o, r, Fail(now)) ==
              if r.mode == HalfOpen || |window| >= o.failureThreshold then Opened(o, seen, now) else seen
  {}

  lemma FailStepRefines(o: Options, s: State, r: Reference, now: int, cutoff: int)
    requires Refines(o, s, r, cutoff, now)
    ensures Refines(o, Step(o, s, Fail(now)), ReferenceStep(o, r, Fail(now)), now - o.windowSize, now)
  {
    var window, history := Recent(s.failures + [now], now - o.windowSize), r.history + [now];
    SameWindow(s.failures, r.history, now, cutoff, now - o.windowSize);
    FailSteps(o, s, r, now, window, history);
    FailRefines(o, s, r, window, history, now);
  }

  lemma SucceedStepRefines(o: Options, s: State, r: Reference, now: int, cutoff: int) returns (cutoff': int)
    requires Refines(o, s, r, cutoff, now)
    ensures Refines(o, Step(o, s, Succeed(now)), ReferenceStep(o, r, Succeed(now)), cutoff', now)
  {
    if s.mode == HalfOpen {
      cutoff' := cutoff;
    } else {
      cutoff' := now - o.windowSize;
      RecentTwice(r.history, cutoff, cutoff');
    }
  }

  lemma StartStepRefines(o: Options, s: State, r: Reference, now: int, cutoff: int)
    requires Refines(o, s, r, cutoff, now)
    ensures Refines(o, Step(o, s, Start(now)), ReferenceStep(o, r, Start(now)), cutoff, now)
  {}

  lemma ResetStepRefines(o: Options, s: State, r: Reference, now: int, cutoff: int)
    requires Refines(o, s, r, cutoff, now)
    ensures Refines(o, Step(o, s, Reset(now)), ReferenceStep(o, r, Reset(now)), cutoff, now)
  {}

  lemma InspectStepRefines(o: Options, s: State, r: Reference, now: int, cutoff: int)
    requires Refines(o, s, r, cutoff, now)
    ensures Refines(o, Step(o, s, Inspect(now)), ReferenceStep(o, r, Inspect(now)), now - o.windowSize, now)
  {
    RecentTwice(r.history, cutoff, now - o.windowSize);
  }

  lemma StepRefines(o: Options, s: State, r: Reference, e: Event, cutoff: int) returns (cutoff': int)
    requires Refines(o, s, r, cutoff, e.at)
    ensures Refines(o, Step(o, s, e), ReferenceStep(o, r, e), cutoff', e.at)
  {
    match e
    case Start(now) =>
      StartStepRefines(o, s, r, now, cutoff);
      cutoff' := cutoff;
    case Succeed(now) => cutoff' := SucceedStepRefines(o, s, r, now, cutoff);
    case Fail(now) =>
      FailStepRefines(o, s, r, now, cutoff);
      cutoff' := now - o.windowSize;
    case Reset(now) =>
      ResetStepRefines(o, s, r, now, cutoff);
      cutoff' := cutoff;
    case Inspect(now) =>
      InspectStepRefines(o, s, r, now, cutoff);
      cutoff' := now - o.windowSize;
  }

  lemma {:induction false} RunRefines(o: Options, run: seq<Event>) returns (cutoff: int)
    requires Monotone(run)
    ensures var now := if run == [] then 0 else run[|run| - 1].at;
            Refines(o, After(o, INITIAL, run), ReferenceAfter(o, run), cutoff, now)
  {
    if run == [] {
      cutoff := -o.windowSize;
    } else {
      var init, e := run[..|run| - 1], run[|run| - 1];
      cutoff := RunRefines(o, init);
      if init == [] { cutoff := e.at - o.windowSize; }
      cutoff := StepRefines(o, After(o, INITIAL, init), ReferenceAfter(o, init), e, cutoff);
    }
  }

  /** Where the failures that still count begin: just after the last step that reset the
      breaker or closed it. */
  ghost function LastClear(o: Options, run: seq<Event>): (k: nat)
    ensures k <= |run|
  {
    if run == [] then 0
    else
      var init, e := run[..|run| - 1], run[|run| - 1];
      if e.Reset? || (After(o, INITIAL, init).mode != Closed && After(o, INITIAL, run).mode == Closed) then |run|
      else LastClear(o, init)
  }

  function FailureTimes(run: seq<Event>): seq<int> {
    if run == [] then []
    else
      var e := run[|run| - 1];
      FailureTimes(run[..|run| - 1]) + if e.Fail? then [e.at] else []
  }

  lemma HistoryStep(o: Options, s: State, r: Reference, e: Event)
    requires s.mode == r.mode && s.successCount == r.successCount
    ensures ReferenceStep(o, r, e).history ==
              if e.Reset? || (s.mode != Closed && Step(o, s, e).mode == Closed) then []
              else r.history + if e.Fail? then [e.at] else []
  {}

  lemma {:induction false} HistorySinceLastClear(o: Options, run: seq<Event>)
    requires Monotone(run)
    ensures ReferenceAfter(o, run).history == FailureTimes(run[LastClear(o, run)..])
  {
    if run != [] {
      var init, e, k := run[..|run| - 1], run[|run| - 1], LastClear(o, run);
      HistorySinceLastClear(o, init);
      var _ := RunRefines(o, init);
      HistoryStep(o, After(o, INITIAL, init), ReferenceAfter(o, init), e);
      if k < |run| {
        assert run[k..][..|run[k..]| - 1] == init[k..];
        assert run[k..][|run[k..]| - 1] == e;
      }
    }
  }

  /** However calls overlap, the pruned list counts exactly the failures since the last
      close or reset that lie in the window, and the breaker admits a call exactly when
      the one that never prunes does. */
  lemma WindowCountIsExact(o: Options, run: seq<Event>, now: int)
    requires Monotone(run) && (run != [] ==> run[|run| - 1].at <= now)
    ensures SameWindowAs(o, After(o, INITIAL, run), ReferenceAfter(o, run), FailureTimes(run[LastClear(o, run)..]), now)
  {
    if run != [] {
      var cutoff := RunRefines(o, run);
      HistorySinceLastClear(o, run);
      SameCount(o, After(o, INITIAL, run), ReferenceAfter(o, run), FailureTimes(run[LastClear(o, run)..]), cutoff,
                run[|run| - 1].at, now);
    }
  }

  /** The pruned list has, of some times, those in the window at `now`; both breakers stand alike. */
  ghost predicate SameWindowAs(o: Options, s: State, r: Reference, times: seq<int>, now: int) {
    && Recent(s.failures, now - o.windowSize) == Recent(times, now - o.windowSize)
    && s.mode == r.mode && s.nextAttemptAt == r.nextAttemptAt
  }

  lemma SameCount(o: Options, s: State, r: Reference, times: seq<int>, cutoff: int, last: int, now: int)
    requires Refines(o, s, r, cutoff, last) && r.history == times && last <= now
    ensures SameWindowAs(o, s, r, times, now)
  {
    RecentTwice(times, cutoff, now - o.windowSize);
  }

  // ---- What every run keeps ------------------------------------------------------

  /** A closed breaker holds fewer failures than would open it. */
  lemma {:induction false} ClosedIsBelowThreshold(o: Options, run: seq<Event>)
    requires o.failureThreshold >= 1
    ensures BelowThreshold(o, After(o, INITIAL, run))
  {
    if run != [] {
      var init, e := run[..|run| - 1], run[|run| - 1];
      ClosedIsBelowThreshold(o, init);
      StepStaysBelowThreshold(o, After(o, INITIAL, init), e);
    }
  }

  predicate BelowThreshold(o: Options, s: State) {
    s.mode == Closed ==> |s.failures| < o.failureThreshold && s.nextAttemptAt == 0
  }

  lemma StepStaysBelowThreshold(o: Options, s: State, e: Event)
    requires o.failureThreshold >= 1 && BelowThreshold(o, s)
    ensures BelowThreshold(o, Step(o, s, e))
  {
    match e
    case Succeed(now) => RecentIsShorter(s.failures, now - o.windowSize);
    case Inspect(now) => RecentIsShorter(s.failures, now - o.windowSize);
    case Fail(now) => FailStaysBelowThreshold(o, s, Recent(s.failures + [now], now - o.windowSize), now);
    case _ =>
  }

  lemma FailStaysBelowThreshold(o: Options, s: State, window: seq<int>, now: int)
    requires BelowThreshold(o, s)
    ensures BelowThreshold(o, FailWith(o, s, window, now))
  {}

  lemma RecentIsShorter(times: seq<int>, cutoff: int)
    ensures |Recent(times, cutoff)| <= |times|
  {}

  /** While it is open and before its probe time, nothing but a reset moves it. */
  lemma {:induction false} OpenHolds(o: Options, s: State, run: seq<Event>)
    requires s.mode == Open
    requires forall e | e in run :: !e.Reset? && e.at < s.nextAttemptAt
    ensures After(o, s, run).mode == Open && After(o, s, run).nextAttemptAt == s.nextAttemptAt
  {
    if run != [] {
      assert run[|run| - 1] in run;
      assert forall e | e in run[..|run| - 1] :: e in run;
      OpenHolds(o, s, run[..|run| - 1]);
    }
  }

  lemma {:induction false} AfterAppend(o: Options, s: State, a: seq<Event>, b: seq<Event>)
    ensures After(o, s, a + b) == After(o, After(o, s, a), b)
  {
    if b == [] {
      assert a + b == a;
    } else {
      AfterAppend(o, s, a, b[..|b| - 1]);
      assert (a + b)[..|a + b| - 1] == a + b[..|b| - 1];
    }
  }

  lemma OpeningSetsProbeTime(o: Options, s: State, e: Event)
    requires s.mode != Open && Step(o, s, e).mode == Open
    ensures Step(o, s, e).nextAttemptAt == e.at + o.timeout
  {}

  /** If step `i` opened the breaker, then until `timeout` later no call starts its
      operation, whatever late successes and failures arrive, unless someone resets it. */
  lemma NoStartWhileOpen(o: Options, run: seq<Event>, i: nat, j: nat)
    requires Monotone(run) && i < j < |run|
    requires After(o, INITIAL, run[..i]).mode != Open && After(o, INITIAL, run[..i + 1]).mode == Open
    requires forall k :: i < k < j ==> !run[k].Reset?
    requires run[j].at < run[i].at + o.timeout
    ensures !Admits(After(o, INITIAL, run[..j]), run[j].at)
  {
    assert run[..i + 1][..i] == run[..i];
    var s := After(o, INITIAL, run[..i + 1]);
    OpeningSetsProbeTime(o, After(o, INITIAL, run[..i]), run[i]);
    var later := run[i + 1..j];
    forall e | e in later ensures !e.Reset? && e.at < s.nextAttemptAt {
      var k :| 0 <= k < |later| && later[k] == e;
      assert e == run[i + 1 + k];
    }
    OpenHolds(o, s, later);
    AfterAppend(o, INITIAL, run[..i + 1], later);
    assert run[..i + 1] + later == run[..j];
  }

  lemma OpenStays(o: Options, s: State, e: Event)
    requires s.mode == Open && Step(o, s, e).mode == Open
    ensures !e.Reset? && Step(o, s, e).nextAttemptAt == s.nextAttemptAt
  {}

  lemma OpensAtStays(o: Options, init: seq<Event>, e: Event, run: seq<Event>, i: nat)
    requires i < |init| && OpensAt(o, init, i) && NoResetSince(init, i) && !e.Reset? && run == init + [e]
    ensures OpensAt(o, run, i) && NoResetSince(run, i)
  {
    assert run[..i] == init[..i] && run[..i + 1] == init[..i + 1];
  }

  /** An open breaker was opened by some step, with no reset since. */
  lemma {:induction false} OpenSince(o: Options, run: seq<Event>) returns (i: nat)
    requires After(o, INITIAL, run).mode == Open
    ensures i < |run| && OpensAt(o, run, i) && NoResetSince(run, i)
    ensures After(o, INITIAL, run).nextAttemptAt == run[i].at + o.timeout
  {
    var init, e := run[..|run| - 1], run[|run| - 1];
    if After(o, INITIAL, init).mode == Open {
      i := OpenSince(o, init);
      OpenStays(o, After(o, INITIAL, init), e);
      OpensAtStays(o, init, e, run, i);
    } else {
      i := |run| - 1;
      assert run[..i + 1] == run;
      OpeningSetsProbeTime(o, After(o, INITIAL, init), e);
    }
  }

  /** A breaker refuses a call exactly when some step opened it less than the timeout ago and no
      one has reset it since; so a new one, a closed one and a probing one never do. */
  lemma RefusedIffShut(o: Options, run: seq<Event>, now: int)
    requires Monotone(run + [Start(now)])
    ensures !Admits(After(o, INITIAL, run), now) <==> Shut(o, run, now)
  {
    var all := run + [Start(now)];
    if Shut(o, run, now) {
      var i :| 0 <= i < |run| && OpensAt(o, run, i) && NoResetSince(run, i) && now < run[i].at + o.timeout;
      assert all[..i] == run[..i] && all[..i + 1] == run[..i + 1] && all[..|run|] == run;
      assert forall k :: i < k < |run| ==> !all[k].Reset?;
      NoStartWhileOpen(o, all, i, |run|);
    }
    if !Admits(After(o, INITIAL, run), now) {
      var i := OpenSince(o, run);
    }
  }

  /** Once the timeout has passed the next call is let through as a probe, whose failure
      opens the breaker again. */
  lemma ProbeAfterTimeout(o: Options, s: State, now: int, later: int)
    requires s.mode == Open && now >= s.nextAttemptAt
    ensures Admits(s, now) && Step(o, s, Start(now)).mode == HalfOpen
    ensures var t := Step(o, Step(o, s, Start(now)), Fail(later));
            t.mode == Open && t.nextAttemptAt == later + o.timeout
  {}

  // ---- Which steps move it, from the steps alone -----------------------------------------

  /** The times that still count are those after the cutoff, each as often as it occurred. */
  lemma {:induction false} RecentCounts(times: seq<int>, cutoff: int, t: int)
    ensures multiset(Recent(times, cutoff))[t] == if t > cutoff then multiset(times)[t] else 0
  {
    if times != [] {
      var init, last := times[..|times| - 1], times[|times| - 1];
      RecentCounts(init, cutoff, t);
      assert times == init + [last];
      assert multiset(times)[t] == multiset(init)[t] + if t == last then 1 else 0;
    }
  }

  /** Just after the last step that let a probe through. */
  ghost function LastProbe(o: Options, run: seq<Event>): (k: nat)
    ensures k <= |run|
  {
    if run == [] then 0
    else
      var init := run[..|run| - 1];
      if After(o, INITIAL, init).mode == Open && After(o, INITIAL, run).mode == HalfOpen then |run|
      else LastProbe(o, init)
  }

  function Successes(run: seq<Event>): nat {
    if run == [] then 0 else Successes(run[..|run| - 1]) + if run[|run| - 1].Succeed? then 1 else 0
  }

  lemma {:induction false} SuccessesSinceProbe(o: Options, run: seq<Event>)
    requires After(o, INITIAL, run).mode == HalfOpen
    ensures After(o, INITIAL, run).successCount == Successes(run[LastProbe(o, run)..])
  {
    var init, e, k := run[..|run| - 1], run[|run| - 1], LastProbe(o, run);
    if k < |run| {
      HalfOpenStep(o, After(o, INITIAL, init), e);
      SuccessesSinceProbe(o, init);
      assert run[k..][..|run[k..]| - 1] == init[k..];
      assert run[k..][|run[k..]| - 1] == e;
    }
  }

  lemma HalfOpenStep(o: Options, s: State, e: Event)
    requires Step(o, s, e).mode == HalfOpen && s.mode != Open
    ensures s.mode == HalfOpen && Step(o, s, e).successCount == s.successCount + if e.Succeed? then 1 else 0
  {}

  /** The failures since the last close or reset that lie in the window, one just now included. */
  ghost function Counted(o: Options, run: seq<Event>, now: int): nat {
    |Recent(FailureTimes(run[LastClear(o, run)..]) + [now], now - o.windowSize)|
  }

  lemma FailureCounts(o: Options, run: seq<Event>, now: int)
    requires Monotone(run) && (run != [] ==> run[|run| - 1].at <= now)
    ensures |Recent(After(o, INITIAL, run).failures + [now], now - o.windowSize)| == Counted(o, run, now)
  {
    var edge, times := now - o.windowSize, FailureTimes(run[LastClear(o, run)..]);
    WindowCountIsExact(o, run, now);
    RecentAppend(After(o, INITIAL, run).failures, [now], edge);
    RecentAppend(times, [now], edge);
  }

  /** What one more step does to the mode, whatever came before: a closed breaker opens on the
      failure that fills its window; a probing one opens on any failure and closes on the
      success that completes its count; an open one starts probing on the first call after
      its timeout; a reset closes it; and nothing else moves it. */
  lemma ModeChanges(o: Options, run: seq<Event>, e: Event)
    requires Monotone(run + [e])
    ensures var s, s' := After(o, INITIAL, run).mode, After(o, INITIAL, run + [e]).mode;
            && (s == Closed ==> s' == if e.Fail? && Counted(o, run, e.at) >= o.failureThreshold then Open else Closed)
            && (s == HalfOpen ==>
                  s' == if e.Fail? then Open
                        else if e.Reset? || (e.Succeed? && SuccessesNow(o, run) + 1 >= o.successThreshold) then Closed
                        else HalfOpen)
            && (s == Open ==>
                  s' == if e.Reset? then Closed
                        else if e.Start? && !Shut(o, run, e.at) then HalfOpen
                        else Open)
  {
    var s := After(o, INITIAL, run);
    OneMoreStep(o, run, e);
    MonotonePart(run, e);
    if e.Fail? { FailureCounts(o, run, e.at); }
    if e.Start? { RefusedIffShut(o, run, e.at); }
    if s.mode == HalfOpen { SuccessesSinceProbe(o, run); }
    StepChangesMode(o, s, e);
  }

  /** The successes since the last step that let a probe through. */
  ghost function SuccessesNow(o: Options, run: seq<Event>): nat { Successes(run[LastProbe(o, run)..]) }

  lemma MonotonePart(run: seq<Event>, e: Event)
    requires Monotone(run + [e])
    ensures Monotone(run) && (run != [] ==> run[|run| - 1].at <= e.at)
  {
    var all := run + [e];
    assert forall i :: 0 <= i < |run| ==> all[i] == run[i];
    if run != [] { assert all[|run| - 1].at <= all[|run|].at; }
  }

  lemma StepChangesMode(o: Options, s: State, e: Event)
    ensures var s' := Step(o, s, e);
            && (s.mode == Closed ==>
                  s'.mode == if e.Fail? && |Recent(s.failures + [e.at], e.at - o.windowSize)| >= o.failureThreshold
                             then Open else Closed)
            && (s.mode == HalfOpen ==>
                  s'.mode == if e.Fail? then Open
                             else if e.Reset? || (e.Succeed? && s.successCount + 1 >= o.successThreshold) then Closed
                             else HalfOpen)
            && (s.mode == Open ==>
                  s'.mode == if e.Reset? then Closed
                             else if e.Start? && Admits(s, e.at) then HalfOpen
                             else Open)
  {}
}
