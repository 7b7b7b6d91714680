/** The idempotency middleware: a cache of requests in flight and of stored responses,
    changed by requests, by `res.json`, by the response's finish event, and by timers. */
module Idempotency {
  import opened Wrappers

  const TTL_MS := 24 * 60 * 60 * 1000

  type Key = string
  type Fingerprint = string

  datatype Entry = InFlight(requestHash: Fingerprint) | Stored(requestHash: Fingerprint, status: int, body: string)

  /** A request whose handler was run; `responded` once its `res.json` was called. */
  datatype Handler = Handler(key: Key, requestHash: Fingerprint, responded: bool)

  datatype Timer = Timer(key: Key, due: int)

  datatype State = State(cache: map<Key, Entry>, timers: multiset<Timer>, handlers: map<nat, Handler>, nextId: nat)

  const EMPTY := State(map[], multiset{}, map[], 0)

  datatype Answer = RunHandler | Conflict | Busy | Replay(status: int, body: string)

  datatype Step =
    | Request(key: Key, requestHash: Fingerprint)
    | Respond(id: nat, status: int, body: string, at: int)
    | Finish(id: nat)
    | Fire(timer: Timer, at: int)

  function AnswerTo(s: State, key: Key, requestHash: Fingerprint): Answer {
    if key !in s.cache then RunHandler
    else if s.cache[key].requestHash != requestHash then Conflict
    else match s.cache[key]
      case InFlight(_) => Busy
      case Stored(_, status, body) => Replay(status, body)
  }

  /** What can happen at all: a handler responds once and finishes once, and a timer fires
      when it is due. */
  predicate Enabled(s: State, step: Step) {
    match step
    case Request(_, _) => true
    case Respond(id, _, _, _) => id in s.handlers && !s.handlers[id].responded
    case Finish(id) => id in s.handlers
    case Fire(timer, at) => timer in s.timers && at >= timer.due
  }

  function Apply(s: State, step: Step): State
    requires Enabled(s, step)
  {
    match step
    case Request(key, requestHash) =>
      if key in s.cache then s
      else s.(cache := s.cache[key := InFlight(requestHash)],
              handlers := s.handlers[s.nextId := Handler(key, requestHash, false)], nextId := s.nextId + 1)
    case Respond(id, status, body, at) =>
      var h := s.handlers[id];
      var done := s.handlers[id := h.(responded := true)];
      if status >= 500 then s.(cache := s.cache - {h.key}, handlers := done)
      else s.(cache := s.cache[h.key := Stored(h.requestHash, status, body)],
              timers := s.timers + multiset{Timer(h.key, at + TTL_MS)}, handlers := done)
    case Finish(id) =>
      var key := s.handlers[id].key;
      s.(cache := if key in s.cache && s.cache[key].InFlight? then s.cache - {key} else s.cache,
         handlers := s.handlers - {id})
    case Fire(timer, at) => s.(cache := s.cache - {timer.key}, timers := s.timers - multiset{timer})
  }

  class IdempotencyCache {
    var cache: map<Key, Entry>
    var timers: multiset<Timer>
    var handlers: map<nat, Handler>
    var nextId: nat

    constructor ()
      ensures View() == EMPTY
    {
      cache, timers, handlers, nextId := map[], multiset{}, map[], 0;
    }

    ghost function View(): State
      reads this
    {
      State(cache, timers, handlers, nextId)
    }

    /** The middleware itself.  Requests without a key, or with a method that is not a
        protected one, go straight to the handler. */
    method Middleware(header: Option<string>, httpMethod: string, key: Key, requestHash: Fingerprint)
      returns (answer: Answer, guarded: bool)
      modifies this
      ensures guarded <==> header.Some? && header.value != "" && httpMethod in {"POST", "PATCH", "PUT"}
      ensures guarded ==> answer == AnswerTo(old(View()), key, requestHash) &&
                          View() == Apply(old(View()), Request(key, requestHash))
      ensures !guarded ==> answer == RunHandler && View() == old(View())
    {
      if header.None? || header.value == "" || httpMethod !in {"POST", "PATCH", "PUT"} {
        return RunHandler, false;
      }
      guarded := true;
      if key in cache {
        var cached := cache[key];
        if cached.requestHash != requestHash { return Conflict, true; }
        if cached.InFlight? { return Busy, true; }
        return Replay(cached.status, cached.body), true;
      }
      cache := cache[key := InFlight(requestHash)];
      handlers := handlers[nextId := Handler(key, requestHash, false)];
      nextId := nextId + 1;
      answer := RunHandler;
    }

    method Json(id: nat, status: int, body: string, now: int)
      requires Enabled(View(), Respond(id, status, body, now))
      modifies this
      ensures View() == Apply(old(View()), Respond(id, status, body, now))
    {
      var h := handlers[id];
      if status >= 500 {
        cache := cache - {h.key};
      } else {
        cache := cache[h.key := Stored(h.requestHash, status, body)];
        timers := timers + multiset{Timer(h.key, now + TTL_MS)};
      }
      handlers := handlers[id := h.(responded := true)];
    }

    method OnFinish(id: nat)
      requires Enabled(View(), Finish(id))
      modifies this
      ensures View() == Apply(old(View()), Finish(id))
    {
      var key := handlers[id].key;
      if key in cache && cache[key].InFlight? {
        cache := cache - {key};
      }
      handlers := handlers - {id};
    }

    method OnTimer(timer: Timer, now: int)
      requires Enabled(View(), Fire(timer, now))
      modifies this
      ensures View() == Apply(old(View()), Fire(timer, now))
    {
      cache := cache - {timer.key};
      timers := timers - multiset{timer};
    }
  }

  // ---- Runs ----------------------------------------------------------------------------

  /** A request that is let through finds no handler of its key that has responded and not yet
      finished.  One that an entry answers may come at any time. */
  predicate Orderly(s: State, step: Step) {
    step.Request? && step.key !in s.cache ==>
      forall id | id in s.handlers && s.handlers[id].responded :: s.handlers[id].key != step.key
  }

  ghost predicate Possible(s: State, run: seq<Step>)
    decreases |run|
  {
    run != [] ==> Enabled(s, run[0]) && Possible(Apply(s, run[0]), run[1..])
  }

  ghost predicate Run(s: State, run: seq<Step>)
    decreases |run|
  {
    run != [] ==> Enabled(s, run[0]) && Orderly(s, run[0]) && Run(Apply(s, run[0]), run[1..])
  }

  function End(s: State, run: seq<Step>): State
    requires Run(s, run)
    decreases |run|
  {
    if run == [] then s else End(Apply(s, run[0]), run[1..])
  }

  ghost predicate OneHandlerPerKey(s: State) {
    forall a, b :: a in s.handlers && b in s.handlers && s.handlers[a].key == s.handlers[b].key ==> a == b
  }

  /** A handler still to respond holds its key in flight, one that has responded does not,
      and timers stand behind stored responses only, one each. */
  ghost predicate HandlersInv(s: State) {
    forall id :: id in s.handlers ==>
      var h := s.handlers[id];
      && id < s.nextId
      && (!h.responded ==> h.key in s.cache && s.cache[h.key] == InFlight(h.requestHash))
      && (h.responded && h.key in s.cache ==> s.cache[h.key].Stored?)
  }

  ghost predicate TimersInv(s: State) {
    && (forall t :: t in s.timers ==> s.timers[t] == 1 && t.key in s.cache && s.cache[t.key].Stored?)
    && (forall t, u :: t in s.timers && u in s.timers && t.key == u.key ==> t == u)
  }

  ghost predicate Inv(s: State) {
    OneHandlerPerKey(s) && HandlersInv(s) && TimersInv(s)
  }

  lemma RequestKeepsInv(s: State, key: Key, requestHash: Fingerprint)
    requires Inv(s) && Orderly(s, Request(key, requestHash))
    ensures Inv(Apply(s, Request(key, requestHash)))
  {
    if key !in s.cache {
      assert s.nextId !in s.handlers;
      assert forall id :: id in s.handlers ==> s.handlers[id].key != key;
    }
  }

  lemma RespondKeepsInv(s: State, id: nat, status: int, body: string, at: int)
    requires Inv(s) && Enabled(s, Respond(id, status, body, at))
    ensures Inv(Apply(s, Respond(id, status, body, at)))
  {
    var key := s.handlers[id].key;
    assert forall t :: t in s.timers ==> t.key != key;
    assert Timer(key, at + TTL_MS) !in s.timers;
  }

  lemma FinishKeepsInv(s: State, id: nat)
    requires Inv(s) && Enabled(s, Finish(id))
    ensures Inv(Apply(s, Finish(id)))
  {}

  lemma FireKeepsInv(s: State, timer: Timer, at: int)
    requires Inv(s) && Enabled(s, Fire(timer, at))
    ensures Inv(Apply(s, Fire(timer, at)))
  {}

  lemma StepKeepsInv(s: State, step: Step)
    requires Inv(s) && Enabled(s, step) && Orderly(s, step)
    ensures Inv(Apply(s, step))
  {
    match step
    case Request(key, requestHash) => RequestKeepsInv(s, key, requestHash);
    case Respond(id, status, body, at) => RespondKeepsInv(s, id, status, body, at);
    case Finish(id) => FinishKeepsInv(s, id);
    case Fire(timer, at) => FireKeepsInv(s, timer, at);
  }

  lemma {:induction false} RunKeepsInv(s: State, run: seq<Step>)
    requires Inv(s) && Run(s, run)
    ensures Inv(End(s, run))
    decreases |run|
  {
    if run != [] {
      StepKeepsInv(s, run[0]);
      RunKeepsInv(Apply(s, run[0]), run[1..]);
    }
  }

  /** At any time at most one handler per key has been run and not yet finished. */
  lemma AtMostOneHandlerInFlight(run: seq<Step>)
    requires Run(EMPTY, run)
    ensures OneHandlerPerKey(End(EMPTY, run))
  {
    RunKeepsInv(EMPTY, run);
  }

  /** The exclusion holds at every point of a run. */
  ghost predicate AlwaysOneHandlerPerKey(s: State, run: seq<Step>)
    requires Possible(s, run)
    decreases |run|
  {
    OneHandlerPerKey(s) && (run != [] ==> AlwaysOneHandlerPerKey(Apply(s, run[0]), run[1..]))
  }

  lemma DisorderlyStepBreaksExclusion(s: State, step: Step)
    requires Inv(s) && Enabled(s, step) && !Orderly(s, step)
    ensures !OneHandlerPerKey(Apply(s, step))
  {
    var s' := Apply(s, step);
    var id :| id in s.handlers && s.handlers[id].key == step.key;
    assert id != s.nextId && id in s'.handlers && s.nextId in s'.handlers;
    assert s'.handlers[id].key == s'.handlers[s.nextId].key;
  }

  lemma {:induction false} ExclusionFrom(s: State, run: seq<Step>)
    requires Inv(s) && Possible(s, run)
    ensures AlwaysOneHandlerPerKey(s, run) <==> Run(s, run)
    decreases |run|
  {
    if run != [] {
      if Orderly(s, run[0]) {
        StepKeepsInv(s, run[0]);
        ExclusionFrom(Apply(s, run[0]), run[1..]);
      } else {
        DisorderlyStepBreaksExclusion(s, run[0]);
      }
    }
  }

  /** The cache keeps out every handler still to respond, and the order is exactly what the
      exclusion needs besides: over everything that can happen, there is never more than one
      handler per key if and only if no request is let through between the response and the
      finish event of a handler of its key. */
  lemma ExclusionIffOrderly(run: seq<Step>)
    requires Possible(EMPTY, run)
    ensures AlwaysOneHandlerPerKey(EMPTY, run) <==> Run(EMPTY, run)
  {
    ExclusionFrom(EMPTY, run);
  }

  /** The handler that a request started has neither responded nor finished. */
  ghost predicate Pending(s: State, id: nat, key: Key, requestHash: Fingerprint) {
    id in s.handlers && s.handlers[id] == Handler(key, requestHash, false)
  }

  predicate Touches(step: Step, id: nat) {
    (step.Respond? || step.Finish?) && step.id == id
  }

  lemma StepStaysPending(s: State, step: Step, id: nat, key: Key, requestHash: Fingerprint)
    requires Inv(s) && Pending(s, id, key, requestHash) && Enabled(s, step) && !Touches(step, id)
    ensures Pending(Apply(s, step), id, key, requestHash)
  {}

  lemma {:induction false} StaysPending(s: State, run: seq<Step>, id: nat, key: Key, requestHash: Fingerprint)
    requires Inv(s) && Pending(s, id, key, requestHash) && Run(s, run)
    requires forall step :: step in run ==> !Touches(step, id)
    ensures Inv(End(s, run)) && Pending(End(s, run), id, key, requestHash)
    decreases |run|
  {
    if run != [] {
      assert run[0] in run && forall step :: step in run[1..] ==> step in run;
      StepKeepsInv(s, run[0]);
      StepStaysPending(s, run[0], id, key, requestHash);
      StaysPending(Apply(s, run[0]), run[1..], id, key, requestHash);
    }
  }

  /** From the request that is let through until its handler responds or finishes, whatever
      else happens, every request on the key is refused: as busy with the same payload, as a
      conflict with another one; and neither changes anything. */
  lemma BusyUntilAnswered(before: seq<Step>, key: Key, requestHash: Fingerprint, after: seq<Step>, other: Fingerprint)
    requires Run(EMPTY, before) && key !in End(EMPTY, before).cache
    requires Orderly(End(EMPTY, before), Request(key, requestHash))
    requires Run(Apply(End(EMPTY, before), Request(key, requestHash)), after)
    requires forall step :: step in after ==> !Touches(step, End(EMPTY, before).nextId)
    ensures var s := End(Apply(End(EMPTY, before), Request(key, requestHash)), after);
            && AnswerTo(s, key, other) == (if other == requestHash then Busy else Conflict)
            && Apply(s, Request(key, other)) == s
  {
    var s := End(EMPTY, before);
    RunKeepsInv(EMPTY, before);
    StepKeepsInv(s, Request(key, requestHash));
    StaysPending(Apply(s, Request(key, requestHash)), after, s.nextId, key, requestHash);
  }

  /** The stored response of `key` is `entry`, and the timer due at `due` will drop it, and no
      other. */
  ghost predicate Holds(s: State, key: Key, entry: Entry, due: int) {
    && key in s.cache && s.cache[key] == entry && entry.Stored?
    && Timer(key, due) in s.timers && forall t :: t in s.timers && t.key == key ==> t.due == due
  }

  /** No timer of the key fires as late as `due`. */
  ghost predicate Before(run: seq<Step>, key: Key, due: int) {
    forall step :: step in run && FiresFor(step, key) ==> step.at < due
  }

  predicate FiresFor(step: Step, key: Key) { step.Fire? && step.timer.key == key }

  lemma StepHolds(s: State, step: Step, key: Key, entry: Entry, due: int)
    requires Inv(s) && Holds(s, key, entry, due) && Enabled(s, step)
    requires FiresFor(step, key) ==> step.at < due
    ensures Holds(Apply(s, step), key, entry, due)
  {
    if step.Respond? {
      assert s.handlers[step.id].key != key;
    }
  }

  lemma {:induction false} StoredUntilDue(s: State, run: seq<Step>, key: Key, entry: Entry, due: int)
    requires Inv(s) && Holds(s, key, entry, due) && Run(s, run) && Before(run, key, due)
    ensures Holds(End(s, run), key, entry, due)
    decreases |run|
  {
    if run != [] {
      assert run[0] in run;
      StepKeepsInv(s, run[0]);
      StepHolds(s, run[0], key, entry, due);
      assert forall step | step in run[1..] :: step in run;
      StoredUntilDue(Apply(s, run[0]), run[1..], key, entry, due);
    }
  }

  /** After a response below 500 at time `at`, and for any run in which no timer of its key fires
      as late as `at + TTL_MS`, a request with the same payload gets the stored status and body and
      runs no handler, and one with a different payload is refused. */
  lemma StoredResponseIsReplayed(before: seq<Step>, respond: Step, after: seq<Step>, requestHash: Fingerprint)
    requires Run(EMPTY, before) && respond.Respond? && respond.status < 500
    requires Enabled(End(EMPTY, before), respond)
    requires Run(Apply(End(EMPTY, before), respond), after)
    requires Before(after, End(EMPTY, before).handlers[respond.id].key, respond.at + TTL_MS)
    ensures var h := End(EMPTY, before).handlers[respond.id];
            var s := End(Apply(End(EMPTY, before), respond), after);
            && AnswerTo(s, h.key, requestHash) ==
                 (if requestHash == h.requestHash then Replay(respond.status, respond.body) else Conflict)
            && Apply(s, Request(h.key, requestHash)) == s
  {
    var s := End(EMPTY, before);
    RunKeepsInv(EMPTY, before);
    StepKeepsInv(s, respond);
    var h := s.handlers[respond.id];
    StoredUntilDue(Apply(s, respond), after, h.key, Stored(h.requestHash, respond.status, respond.body),
        respond.at + TTL_MS);
  }

  /** Once it is due, its timer can fire, and from then on the key is free: the next request on
      it, whatever its payload, runs its handler. */
  lemma TimerFreesTheKey(before: seq<Step>, respond: Step, after: seq<Step>, at: int, requestHash: Fingerprint)
    requires Run(EMPTY, before) && respond.Respond? && respond.status < 500
    requires Enabled(End(EMPTY, before), respond)
    requires Run(Apply(End(EMPTY, before), respond), after)
    requires Before(after, End(EMPTY, before).handlers[respond.id].key, respond.at + TTL_MS)
    requires at >= respond.at + TTL_MS
    ensures var key := End(EMPTY, before).handlers[respond.id].key;
            var s, fire := End(Apply(End(EMPTY, before), respond), after), Fire(Timer(key, respond.at + TTL_MS), at);
            Enabled(s, fire) && AnswerTo(Apply(s, fire), key, requestHash) == RunHandler
  {
    var s := End(EMPTY, before);
    var h := s.handlers[respond.id];
    RunKeepsInv(EMPTY, before);
    StepKeepsInv(s, respond);
    StoredUntilDue(Apply(s, respond), after, h.key, Stored(h.requestHash, respond.status, respond.body),
        respond.at + TTL_MS);
  }

  /** When a request on a key that was answered can be let through at all, its handler finished
      or not: the response was of status 500 or above, or since then a timer of the key has
      fired, at least the TTL after it. */
  lemma LetThroughOnlyWithoutEntry(before: seq<Step>, respond: Step, after: seq<Step>, requestHash: Fingerprint)
    requires Run(EMPTY, before) && respond.Respond? && Enabled(End(EMPTY, before), respond)
    requires Run(Apply(End(EMPTY, before), respond), after)
    requires var key := End(EMPTY, before).handlers[respond.id].key;
             AnswerTo(End(Apply(End(EMPTY, before), respond), after), key, requestHash) == RunHandler
    ensures respond.status >= 500 ||
            exists step :: step in after && FiresFor(step, End(EMPTY, before).handlers[respond.id].key) &&
                           step.at >= respond.at + TTL_MS
  {
    if respond.status < 500 && Before(after, End(EMPTY, before).handlers[respond.id].key, respond.at + TTL_MS) {
      StoredResponseIsReplayed(before, respond, after, requestHash);
      assert false;
    }
  }

  /** Without that order the exclusion is lost: a request accepted between a failed response
      and its late finish event has its entry deleted by that event, and a third request
      then runs beside it. */
  lemma LateFinishBreaksExclusion(key: Key, hash: Fingerprint)
    ensures var s1 := Apply(Apply(EMPTY, Request(key, hash)), Respond(0, 500, "", 0));
            var s2 := Apply(s1, Request(key, hash));
            var s3 := Apply(s2, Finish(0));
            var s4 := Apply(s3, Request(key, hash));
            && !Orderly(s1, Request(key, hash))
            && 1 in s4.handlers && 2 in s4.handlers
            && s4.handlers[1] == s4.handlers[2] == Handler(key, hash, false)
  {
    var s1 := Apply(Apply(EMPTY, Request(key, hash)), Respond(0, 500, "", 0));
    assert 0 in s1.handlers && s1.handlers[0].responded;
  }
}
