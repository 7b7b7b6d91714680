/** Reputation: a score kept up to date call by call and floored at zero on the way, and the
    same score recomputed from the event history. */
module ReputationService {
  datatype Kind = EscrowCompleted | DisputeWon | DisputeLost | Cancellation

  datatype Key = Key(address: string, kind: Kind, escrowId: int)

  datatype Event = Event(key: Key, scoreDelta: int, tenantId: string)

  datatype Record = Record(totalScore: int, completedEscrows: int, disputesWon: int)

  datatype State = State(records: map<string, Record>, events: seq<Event>)

  datatype Call =
    | Completion(address: string, freelancer: bool, escrowId: int, tenantId: string)
    | Outcome(address: string, won: bool, escrowId: int, tenantId: string)
    | Cancel(address: string, wasAtFault: bool, escrowId: int, tenantId: string)

  /** How far a call gets before a database failure ends it. */
  datatype Reached = Nothing | EventStored | RecordUpdated | End

  function Max(x: int, y: int): int { if x >= y then x else y }

  function Min(x: int, y: int): int { if x <= y then x else y }

  /** A cancellation without fault records nothing. */
  predicate Counts(c: Call) { c.Cancel? ==> c.wasAtFault }

  function EventOf(c: Call): Event {
    match c
    case Completion(address, freelancer, escrowId, tenantId) =>
      Event(Key(address, EscrowCompleted, escrowId), if freelancer then 10 else 5, tenantId)
    case Outcome(address, won, escrowId, tenantId) =>
      Event(Key(address, if won then DisputeWon else DisputeLost, escrowId), if won then 15 else -5, tenantId)
    case Cancel(address, _, escrowId, tenantId) => Event(Key(address, Cancellation, escrowId), -8, tenantId)
  }

  /** The unique index on (address, eventType, escrowId) makes a repeated event a no-op. */
  function Upsert(events: seq<Event>, e: Event): seq<Event> {
    if Stored(events, e.key) then events else events + [e]
  }

  predicate Stored(events: seq<Event>, key: Key) {
    exists i :: 0 <= i < |events| && events[i].key == key
  }

  function Bump(r: Record, e: Event): Record {
    Record(r.totalScore + e.scoreDelta,
           r.completedEscrows + if e.key.kind == EscrowCompleted then 1 else 0,
           r.disputesWon + if e.key.kind == DisputeWon then 1 else 0)
  }

  function Floored(r: Record): Record { r.(totalScore := Max(0, r.totalScore)) }

  /** A call's effect.  Without a record for the address the event violates its foreign key. */
  function Step(s: State, c: Call, reached: Reached): State {
    if !Counts(c) || reached.Nothing? || c.address !in s.records then s
    else
      var e := EventOf(c);
      var s1 := s.(events := Upsert(s.events, e));
      var bumped := Bump(s.records[c.address], e);
      match reached
      case Nothing => s1
      case EventStored => s1
      case RecordUpdated => s1.(records := s.records[c.address := bumped])
      case End => s1.(records := s.records[c.address := if c.Completion? then bumped else Floored(bumped)])
  }

  function Total(events: seq<Event>, address: string): int {
    if events == [] then 0
    else
      var e := events[|events| - 1];
      Total(events[..|events| - 1], address) + if e.key.address == address then e.scoreDelta else 0
  }

  function Count(events: seq<Event>, address: string, kind: Kind): nat {
    if events == [] then 0
    else
      var e := events[|events| - 1];
      Count(events[..|events| - 1], address, kind) + if e.key.address == address && e.key.kind == kind then 1 else 0
  }

  /** What the history says an address's record should be. */
  function Recomputed(events: seq<Event>, address: string): Record {
    Record(Max(0, Total(events, address)), Count(events, address, EscrowCompleted), Count(events, address, DisputeWon))
  }

  class Reputation {
    var records: map<string, Record>
    var events: seq<Event>

    ghost function View(): State
      reads this
    {
      State(records, events)
    }

    /** The foreign key from events to records. */
    ghost predicate Valid()
      reads this
    {
      forall i :: 0 <= i < |events| ==> events[i].key.address in records
    }

    /** False: the foreign key failed. */
    method UpsertEvent(e: Event) returns (ok: bool)
      requires Valid()
      modifies `events
      ensures Valid() && ok == (e.key.address in records)
      ensures events == if ok then Upsert(old(events), e) else old(events)
    {
      ok := e.key.address in records;
      if ok && !exists i :: 0 <= i < |events| && events[i].key == e.key {
        events := events + [e];
      }
    }

    method RecordEscrowCompletion(address: string, freelancer: bool, escrowId: int, tenantId: string, reached: Reached)
      requires Valid()
      modifies this
      ensures Valid() && View() == Step(old(View()), Completion(address, freelancer, escrowId, tenantId), reached)
    {
      if reached.Nothing? { return; }
      var scoreDelta := if freelancer then 10 else 5;
      var ok := UpsertEvent(Event(Key(address, EscrowCompleted, escrowId), scoreDelta, tenantId));
      if !ok || reached.EventStored? { return; }
      var r := records[address];
      r := r.(completedEscrows := r.completedEscrows + 1, totalScore := r.totalScore + scoreDelta);
      records := records[address := r];
    }

    method RecordDisputeOutcome(address: string, won: bool, escrowId: int, tenantId: string, reached: Reached)
      requires Valid()
      modifies this
      ensures Valid() && View() == Step(old(View()), Outcome(address, won, escrowId, tenantId), reached)
    {
      if reached.Nothing? { return; }
      var scoreDelta := if won then 15 else -5;
      var ok := UpsertEvent(Event(Key(address, if won then DisputeWon else DisputeLost, escrowId), scoreDelta,
          tenantId));
      if !ok || reached.EventStored? { return; }
      var updated := records[address];
      if won {
        updated := updated.(disputesWon := updated.disputesWon + 1, totalScore := updated.totalScore + 15);
      } else {
        updated := updated.(totalScore := updated.totalScore - 5);
      }
      records := records[address := updated];
      if reached.RecordUpdated? { return; }
      if updated.totalScore < 0 {
        records := records[address := updated.(totalScore := 0)];
      }
    }

    method RecordEscrowCancellation(address: string, wasAtFault: bool, escrowId: int, tenantId: string,
        reached: Reached)
      requires Valid()
      modifies this
      ensures Valid() && View() == Step(old(View()), Cancel(address, wasAtFault, escrowId, tenantId), reached)
    {
      if !wasAtFault || reached.Nothing? { return; }
      var ok := UpsertEvent(Event(Key(address, Cancellation, escrowId), -8, tenantId));
      if !ok || reached.EventStored? { return; }
      var updated := records[address].(totalScore := records[address].totalScore - 8);
      records := records[address := updated];
      if reached.RecordUpdated? { return; }
      if updated.totalScore < 0 {
        records := records[address := updated.(totalScore := 0)];
      }
    }

    /** The distinct addresses with events of the tenant, or of any tenant if none is given. */
    method AddressesWithEvents(tenantId: string) returns (addresses: set<string>)
      ensures forall a :: a in addresses <==> HasEvents(events, a, tenantId)
    {
      addresses := set i | 0 <= i < |events| && (tenantId == "" || events[i].tenantId == tenantId) ::
          events[i].key.address;
    }

    /** Whatever went wrong before, the records of the tenant's addresses are what the history
        says; the others stay.  If the database fails after some of the updates, those
        addresses are done and the rest stay too. */
    method RecalculateFromEventHistory(tenantId: string, updates: nat) returns (ok: bool, done: set<string>)
      requires Valid()
      modifies `records
      ensures Valid() && records.Keys == old(records.Keys)
      ensures forall a :: a in done ==> HasEvents(events, a, tenantId)
      ensures if ok then forall a :: HasEvents(events, a, tenantId) ==> a in done else |done| == updates
      ensures forall a :: a in records ==> records[a] == if a in done then Recomputed(events, a) else old(records)[a]
    {
      var addresses := AddressesWithEvents(tenantId);
      ok, done := UpdateRecords(addresses, updates);
    }

    method UpdateRecords(all: set<string>, updates: nat) returns (ok: bool, done: set<string>)
      requires all <= records.Keys
      modifies `records
      ensures records.Keys == old(records.Keys) && done <= all && if ok then done == all else |done| == updates
      ensures forall a :: a in records ==> records[a] == if a in done then Recomputed(events, a) else old(records)[a]
    {
      done := {};
      while done != all
        invariant done <= all && records.Keys == old(records.Keys)
        invariant forall a :: a in records ==> records[a] == if a in done then Recomputed(events, a)
                  else old(records)[a]
        decreases all - done
      {
        if |done| == updates { return false, done; }
        assert all - done != {};
        var address :| address in all - done;
        UpdateRecord(address);
        done := done + {address};
      }
      ok := true;
    }

    method UpdateRecord(address: string)
      modifies `records
      ensures records == old(records)[address := Recomputed(events, address)]
    {
      var totalScore, completedEscrows, disputesWon := FoldEvents(address);
      records := records[address := Record(Max(0, totalScore), completedEscrows, disputesWon)];
    }

    method FoldEvents(address: string) returns (totalScore: int, completedEscrows: nat, disputesWon: nat)
      ensures totalScore == Total(events, address)
      ensures completedEscrows == Count(events, address, EscrowCompleted)
      ensures disputesWon == Count(events, address, DisputeWon)
    {
      totalScore, completedEscrows, disputesWon := 0, 0, 0;
      var i := 0;
      while i < |events|
        invariant i <= |events|
        invariant totalScore == Total(events[..i], address)
        invariant completedEscrows == Count(events[..i], address, EscrowCompleted)
        invariant disputesWon == Count(events[..i], address, DisputeWon)
      {
        assert events[..i + 1][..i] == events[..i];
        if events[i].key.address == address {
          totalScore := totalScore + events[i].scoreDelta;
          if events[i].key.kind == EscrowCompleted { completedEscrows := completedEscrows + 1; }
          if events[i].key.kind == DisputeWon { disputesWon := disputesWon + 1; }
        }
        i := i + 1;
      }
      assert events[..|events|] == events;
    }
  }

  ghost predicate HasEvents(events: seq<Event>, address: string, tenantId: string) {
    exists i :: 0 <= i < |events| && events[i].key.address == address &&
        (tenantId == "" || events[i].tenantId == tenantId)
  }

  // ---- Runs of calls that complete ----------------------------------------------------------

  function Final(start: State, run: seq<Call>): State {
    if run == [] then start else Step(Final(start, run[..|run| - 1]), run[|run| - 1], End)
  }

  /** What a call adds to an address's score before flooring. */
  function Delta(c: Call, address: string): int {
    if c.address == address && Counts(c) then EventOf(c).scoreDelta else 0
  }

  function Sum(run: seq<Call>, address: string): int {
    if run == [] then 0 else Sum(run[..|run| - 1], address) + Delta(run[|run| - 1], address)
  }

  /** What a call rewards or punishes. */
  datatype Merit = DeliveredWork | PaidForWork | WonDispute | LostDispute | CancelledAtFault

  /** An address's calls of one kind. */
  function Merits(run: seq<Call>, address: string, m: Merit): nat {
    if run == [] then 0
    else Merits(run[..|run| - 1], address, m) + if IsMerit(run[|run| - 1], address, m) then 1 else 0
  }

  predicate IsMerit(c: Call, address: string, m: Merit) {
    c.address == address && match m
      case DeliveredWork => c.Completion? && c.freelancer
      case PaidForWork => c.Completion? && !c.freelancer
      case WonDispute => c.Outcome? && c.won
      case LostDispute => c.Outcome? && !c.won
      case CancelledAtFault => c.Cancel? && c.wasAtFault
  }

  /** Before flooring, a score is ten for each completion as the freelancer and five as the
      client, fifteen for each dispute won, less five for each lost and eight for each
      cancellation at fault; nothing else counts. */
  lemma {:induction false} PointsPerMerit(run: seq<Call>, address: string)
    ensures Sum(run, address) ==
              10 * Merits(run, address, DeliveredWork) + 5 * Merits(run, address, PaidForWork) +
              15 * Merits(run, address, WonDispute) - 5 * Merits(run, address, LostDispute) -
              8 * Merits(run, address, CancelledAtFault)
  {
    if run != [] { PointsPerMerit(run[..|run| - 1], address); }
  }

  /** The least sum of a prefix, the empty one included, so never above zero. */
  function LeastPrefix(run: seq<Call>, address: string): int {
    if run == [] then 0 else Min(LeastPrefix(run[..|run| - 1], address), Sum(run, address))
  }

  predicate IsRepeat(run: seq<Call>, c: Call) {
    exists i :: 0 <= i < |run| && Counts(run[i]) && EventOf(run[i]).key == EventOf(c).key
  }

  /** Calls of some kind for an address whose event was already there. */
  function Repeats(run: seq<Call>, address: string, kind: Kind): nat {
    if run == [] then 0
    else
      var before, c := run[..|run| - 1], run[|run| - 1];
      Repeats(before, address, kind) +
      if c.address == address && Counts(c) && EventOf(c).key.kind == kind && IsRepeat(before, c) then 1 else 0
  }

  /** What those calls added to the score. */
  function Repeated(run: seq<Call>, address: string): int {
    if run == [] then 0
    else
      var before, c := run[..|run| - 1], run[|run| - 1];
      Repeated(before, address) + if IsRepeat(before, c) then Delta(c, address) else 0
  }

  ghost predicate NoRepeats(run: seq<Call>, address: string) {
    forall i, j :: 0 <= i < j < |run| && run[i].address == run[j].address == address && Counts(run[i]) && Counts(run[j])
      ==> EventOf(run[i]).key != EventOf(run[j]).key
  }

  /** A zero record, and no event yet. */
  predicate Fresh(start: State, address: string) {
    && address in start.records && start.records[address] == Record(0, 0, 0)
    && forall i :: 0 <= i < |start.events| ==> start.events[i].key.address != address
  }

  lemma {:induction false} NoEventsYet(events: seq<Event>, address: string, kind: Kind)
    requires forall i :: 0 <= i < |events| ==> events[i].key.address != address
    ensures Total(events, address) == 0 && Count(events, address, kind) == 0
  {
    if events != [] { NoEventsYet(events[..|events| - 1], address, kind); }
  }

  /** LeastPrefix is a lower bound of the prefix sums that one of them, or zero, reaches. */
  lemma {:induction false} LeastPrefixIsLeast(run: seq<Call>, address: string) returns (n: nat)
    ensures n <= |run| && LeastPrefix(run, address) == Sum(run[..n], address)
    ensures forall k :: 0 <= k <= |run| ==> LeastPrefix(run, address) <= Sum(run[..k], address)
  {
    if run == [] {
      n := 0;
    } else {
      var before := run[..|run| - 1];
      n := LeastPrefixIsLeast(before, address);
      assert run[..|run|] == run && before[..n] == run[..n];
      forall k | 0 <= k <= |run| ensures LeastPrefix(run, address) <= Sum(run[..k], address) {
        if k < |run| { assert before[..k] == run[..k]; }
      }
      if LeastPrefix(run, address) != LeastPrefix(before, address) { n := |run|; }
    }
  }

  /** Repeated or not, the floored score is the sum of what the calls added, less the least
      sum ever reached: every dip below zero is forgiven once. */
  lemma {:induction false} FlooredScore(start: State, run: seq<Call>, address: string)
    requires Fresh(start, address)
    ensures var s := Final(start, run);
            address in s.records && s.records[address].totalScore == Sum(run, address) - LeastPrefix(run, address) >= 0
  {
    if run != [] { FlooredScore(start, run[..|run| - 1], address); }
  }

  /** An event row is there exactly when some call recorded it. */
  lemma {:induction false} StoredIffRecorded(start: State, run: seq<Call>, address: string, c: Call)
    requires Fresh(start, address) && c.address == address
    ensures var s := Final(start, run);
            address in s.records && (Stored(s.events, EventOf(c).key) <==> IsRepeat(run, c))
  {
    if run != [] {
      var before, last := run[..|run| - 1], run[|run| - 1];
      var s, s' := Final(start, before), Final(start, run);
      StoredIffRecorded(start, before, address, c);
      RepeatGrows(before, last, c);
      assert run == before + [last];
      if s'.events != s.events {
        StoredGrows(s.events, EventOf(last), EventOf(c).key);
      } else if Counts(last) && EventOf(last).key == EventOf(c).key {
        assert Stored(s.events, EventOf(c).key);
      }
    }
  }

  lemma RepeatGrows(before: seq<Call>, last: Call, c: Call)
    ensures IsRepeat(before + [last], c) <==>
              IsRepeat(before, c) || (Counts(last) && EventOf(last).key == EventOf(c).key)
  {
    var run := before + [last];
    assert run[|before|] == last && forall i :: 0 <= i < |before| ==> run[i] == before[i];
  }

  lemma StoredGrows(events: seq<Event>, e: Event, key: Key)
    ensures Stored(events + [e], key) <==> Stored(events, key) || e.key == key
  {
    var all := events + [e];
    assert all[|events|] == e && forall i :: 0 <= i < |events| ==> all[i] == events[i];
  }

  lemma AppendedEvent(events: seq<Event>, e: Event, address: string, kind: Kind)
    ensures Total(events + [e], address) ==
              Total(events, address) + if e.key.address == address then e.scoreDelta else 0
    ensures Count(events + [e], address, kind) ==
              Count(events, address, kind) + if e.key.address == address && e.key.kind == kind then 1 else 0
  {
    assert (events + [e])[..|events|] == events;
  }

  function Counter(r: Record, kind: Kind): int
    requires kind == EscrowCompleted || kind == DisputeWon
  {
    if kind == EscrowCompleted then r.completedEscrows else r.disputesWon
  }

  /** What one call adds to the history, and to a counter. */
  lemma StepTotals(s: State, c: Call, address: string, kind: Kind)
    requires address in s.records && (kind == EscrowCompleted || kind == DisputeWon)
    ensures var s' := Step(s, c, End);
            var mine := c.address == address && Counts(c);
            var isNew := mine && !Stored(s.events, EventOf(c).key);
            && address in s'.records
            && Total(s'.events, address) == Total(s.events, address) + (if isNew then EventOf(c).scoreDelta else 0)
            && Count(s'.events, address, kind) ==
                 Count(s.events, address, kind) + (if isNew && EventOf(c).key.kind == kind then 1 else 0)
            && Counter(s'.records[address], kind) ==
                 Counter(s.records[address], kind) + (if mine && EventOf(c).key.kind == kind then 1 else 0)
  {
    AppendedEvent(s.events, EventOf(c), address, kind);
  }

  /** The history holds each event once, but the counters and the score count every call:
      they differ by exactly the repeats. */
  lemma {:induction false} HistoryIsCallsLessRepeats(start: State, run: seq<Call>, address: string, kind: Kind)
    requires Fresh(start, address) && (kind == EscrowCompleted || kind == DisputeWon)
    ensures var s := Final(start, run);
            && address in s.records
            && Total(s.events, address) == Sum(run, address) - Repeated(run, address)
            && Counter(s.records[address], kind) == Count(s.events, address, kind) + Repeats(run, address, kind)
  {
    if run == [] {
      NoEventsYet(start.events, address, kind);
    } else {
      var before, last := run[..|run| - 1], run[|run| - 1];
      HistoryIsCallsLessRepeats(start, before, address, kind);
      StepTotals(Final(start, before), last, address, kind);
      if last.address == address {
        StoredIffRecorded(start, before, address, last);
      }
    }
  }

  lemma {:induction false} WithoutRepeats(run: seq<Call>, address: string, kind: Kind)
    requires NoRepeats(run, address)
    ensures Repeated(run, address) == 0 && Repeats(run, address, kind) == 0
  {
    if run != [] {
      WithoutRepeats(run[..|run| - 1], address, kind);
    }
  }

  /** Without repeats the running score is never below the one recomputed from history, and
      equals it exactly when no sum of a prefix was negative or the last sum is the least;
      the counters always agree. */
  lemma RunningAgainstRecomputed(start: State, run: seq<Call>, address: string)
    requires Fresh(start, address) && NoRepeats(run, address)
    ensures var s := Final(start, run); var least := LeastPrefix(run, address);
            && address in s.records
            && var record, recomputed := s.records[address], Recomputed(s.events, address);
            && record.totalScore >= recomputed.totalScore
            && (record.totalScore == recomputed.totalScore <==> least == 0 || least == Sum(run, address))
            && record.completedEscrows == recomputed.completedEscrows && record.disputesWon == recomputed.disputesWon
  {
    FlooredScore(start, run, address);
    HistoryIsCallsLessRepeats(start, run, address, EscrowCompleted);
    HistoryIsCallsLessRepeats(start, run, address, DisputeWon);
    WithoutRepeats(run, address, EscrowCompleted);
    WithoutRepeats(run, address, DisputeWon);
    var n := LeastPrefixIsLeast(run, address);
    assert run[..0] == [] && run[..|run|] == run;
  }

  /** The stored event makes a repeated call a no-op, but the record still counts it: a
      completion recorded again counts again until the history is replayed. */
  lemma RepeatIsCounted(start: State, run: seq<Call>, c: Call)
    requires c.Completion? && c in run && Fresh(start, c.address)
    ensures var s := Final(start, run + [c]);
            && c.address in s.records && s.events == Final(start, run).events
            && s.records[c.address].completedEscrows > Recomputed(s.events, c.address).completedEscrows
  {
    assert IsRepeat(run, c);
    assert (run + [c])[..|run|] == run;
    HistoryIsCallsLessRepeats(start, run + [c], c.address, EscrowCompleted);
    StoredIffRecorded(start, run, c.address, c);
  }
}
