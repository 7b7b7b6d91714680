/** The drift detector: the status inferred from an escrow's events, against the status the
    indexer's handlers left in the database. */
module DriftDetector {
  import opened Wrappers
  import opened EventIndexer

  /** The events that set an escrow status. */
  function StatusEvent(b: Body): Option<Status> {
    match b
    case EscrowCreated(_, _, _, _) => Some(Active)
    case DisputeRaised(_, _) => Some(Disputed)
    case DisputeResolved(_, _, _) => Some(Completed)
    case EscrowCancelled(_) => Some(Cancelled)
    case _ => None
  }

  predicate Terminal(status: Status) { status == Completed || status == Cancelled }

  datatype Reason = ImpossibleSequence(event: Body, after: Status) | NoStatusEvents | StaleStatus

  datatype Drift = Drift(
    escrowId: int, dbStatus: Status, inferredStatus: Option<Status>, lastEvent: Option<Body>, reason: Reason)

  /** The status set by the last event that sets one. */
  function Inferred(events: seq<Body>): Option<Status> {
    if events == [] then None
    else
      var next := StatusEvent(events[|events| - 1]);
      if next.Some? then next else Inferred(events[..|events| - 1])
  }

  /** Some status event comes after one that ended the escrow. */
  ghost predicate ContinuesAfterEnd(events: seq<Body>) {
    exists i, j :: 0 <= i < j < |events| && Ends(events[i]) && StatusEvent(events[j]).Some?
  }

  predicate Ends(b: Body) {
    StatusEvent(b).Some? && Terminal(StatusEvent(b).value)
  }

  function LastOf(events: seq<Body>): Option<Body> {
    if events == [] then None else Some(events[|events| - 1])
  }

  /** The first status event after an end, and the status it comes after. */
  ghost predicate FirstAfterEnd(events: seq<Body>, event: Body, after: Status) {
    exists k :: 0 <= k < |events| && FlagsFirstAt(events, k, event, after)
  }

  ghost predicate FlagsFirstAt(events: seq<Body>, k: nat, event: Body, after: Status)
    requires k < |events|
  {
    events[k] == event && !Flags(events[..k]) && Flags(events[..k + 1]) && Inferred(events[..k]) == Some(after)
  }

  /** No drift is reported exactly when nothing continues after an end and the inferred
      status is the stored one; an impossible sequence is reported, with the first event that
      makes it so, before a stale status. */
  method DetectDrift(escrowId: int, dbStatus: Status, events: seq<Body>) returns (drift: Option<Drift>)
    ensures drift == None <==> !ContinuesAfterEnd(events) && Inferred(events) == Some(dbStatus)
    ensures drift.Some? ==>
              drift.value.escrowId == escrowId && drift.value.dbStatus == dbStatus &&
              drift.value.inferredStatus == Inferred(events) && drift.value.lastEvent == LastOf(events)
    ensures drift.Some? && drift.value.reason.ImpossibleSequence? ==>
              ContinuesAfterEnd(events) && FirstAfterEnd(events, drift.value.reason.event, drift.value.reason.after)
    ensures drift.Some? && drift.value.reason.NoStatusEvents? ==> !ContinuesAfterEnd(events) && Inferred(events) == None
    ensures drift.Some? && drift.value.reason.StaleStatus? ==>
              !ContinuesAfterEnd(events) && Inferred(events).Some? && Inferred(events).value != dbStatus
  {
    var inferred: Option<Status> := None;
    var impossible: Option<Reason> := None;
    ghost var first := 0;
    for k := 0 to |events|
      invariant inferred == Inferred(events[..k])
      invariant impossible.Some? <==> Flags(events[..k])
      invariant impossible.Some? ==>
                  && impossible.value.ImpossibleSequence? && 0 <= first < |events|
                  && FlagsFirstAt(events, first, impossible.value.event, impossible.value.after)
    {
      assert events[..k + 1][..k] == events[..k] && events[..k + 1][k] == events[k];
      var next := StatusEvent(events[k]);
      if next.Some? {
        if inferred.Some? && Terminal(inferred.value) && impossible.None? {
          impossible := Some(ImpossibleSequence(events[k], inferred.value));
          first := k;
        }
        inferred := next;
      }
    }
    assert events[..|events|] == events;
    FlagsExactly(events);
    var last := if |events| > 0 then Some(events[|events| - 1]) else None;
    if impossible.Some? { return Some(Drift(escrowId, dbStatus, inferred, last, impossible.value)); }
    if inferred.None? { return Some(Drift(escrowId, dbStatus, inferred, last, NoStatusEvents)); }
    if inferred.value != dbStatus { return Some(Drift(escrowId, dbStatus, inferred, last, StaleStatus)); }
    return None;
  }

  /** The detector's own test, one event at a time. */
  predicate Flags(events: seq<Body>) {
    events != [] &&
    var init := events[..|events| - 1];
    Flags(init) ||
    (StatusEvent(events[|events| - 1]).Some? && Inferred(init).Some? && Terminal(Inferred(init).value))
  }

  lemma {:induction false} LastStatusEvent(events: seq<Body>) returns (i: nat)
    requires Inferred(events).Some?
    ensures i < |events| && StatusEvent(events[i]) == Inferred(events)
  {
    i := |events| - 1;
    if StatusEvent(events[i]).None? { i := LastStatusEvent(events[..i]); }
  }

  lemma {:induction false} FlaggedContinues(events: seq<Body>) returns (i: nat, j: nat)
    requires Flags(events)
    ensures i < j < |events| && Ends(events[i]) && StatusEvent(events[j]).Some?
  {
    var init := events[..|events| - 1];
    if Flags(init) {
      i, j := FlaggedContinues(init);
    } else {
      i := LastStatusEvent(init);
      j := |events| - 1;
    }
  }

  lemma {:induction false} EndedOrFlagged(events: seq<Body>, i: nat)
    requires i < |events| && Ends(events[i])
    ensures Flags(events) || (Inferred(events).Some? && Terminal(Inferred(events).value))
  {
    if i < |events| - 1 { EndedOrFlagged(events[..|events| - 1], i); }
  }

  lemma {:induction false} ContinuingIsFlagged(events: seq<Body>, i: nat, j: nat)
    requires i < j < |events| && Ends(events[i]) && StatusEvent(events[j]).Some?
    ensures Flags(events)
  {
    var init := events[..|events| - 1];
    if j < |init| { ContinuingIsFlagged(init, i, j); } else { EndedOrFlagged(init, i); }
  }

  lemma FlagsExactly(events: seq<Body>)
    ensures Flags(events) <==> ContinuesAfterEnd(events)
  {
    if Flags(events) {
      var i, j := FlaggedContinues(events);
    }
    if ContinuesAfterEnd(events) {
      var i, j :| 0 <= i < j < |events| && Ends(events[i]) && StatusEvent(events[j]).Some?;
      ContinuingIsFlagged(events, i, j);
    }
  }

  // ---- Against the indexer's projection -------------------------------------------------------

  predicate About(b: Body, id: int) {
    match b
    case ReputationUpdated(_, _) => false
    case Unknown(_) => false
    case _ => b.id == id
  }

  /** The events of one escrow among the first `n` of a chain, oldest first. */
  function EventsOf(chain: seq<Event>, n: nat, id: int): seq<Body>
    requires n <= |chain|
  {
    if n == 0 then []
    else EventsOf(chain, n - 1, id) + if About(chain[n - 1].body, id) then [chain[n - 1].body] else []
  }

  ghost predicate CreatedOnceFirst(events: seq<Body>) {
    forall i :: 0 <= i < |events| ==> (events[i].EscrowCreated? <==> i == 0)
  }

  lemma StatusAfter(before: map<int, Escrow>, ev: Event, id: int)
    ensures var after := EscrowsAfter(before, ev); var b := ev.body;
            && (id in before && (!About(b, id) || StatusEvent(b).None? || b.EscrowCreated?) ==>
                  id in after && after[id].status == before[id].status)
            && (id in before && About(b, id) && StatusEvent(b).Some? && !b.EscrowCreated? ==>
                  id in after && after[id].status == StatusEvent(b).value)
            && (id !in before ==>
                  if b.EscrowCreated? && b.id == id then id in after && after[id].status == Active else id !in after)
  {}

  lemma InferredAppend(events: seq<Body>, b: Body)
    ensures Inferred(events + [b]) == if StatusEvent(b).Some? then StatusEvent(b) else Inferred(events)
  {
    assert (events + [b])[..|events + [b]| - 1] == events;
  }

  /** On any chain, interleaved with other escrows' events as it may be, the handlers leave the
      status the detector infers, if the escrow's own events start with its only creation. */
  lemma {:induction false} ProjectedStatusIsInferred(chain: seq<Event>, n: nat, id: int)
    requires n <= |chain| && CreatedOnceFirst(EventsOf(chain, n, id))
    ensures var escrows := Project(chain, n).escrows; var events := EventsOf(chain, n, id);
            if events == [] then id !in escrows
            else id in escrows && Inferred(events) == Some(escrows[id].status)
  {
    if n > 0 {
      var events, init, b := EventsOf(chain, n, id), EventsOf(chain, n - 1, id), chain[n - 1].body;
      assert CreatedOnceFirst(init) by {
        assert forall i :: 0 <= i < |init| ==> init[i] == events[i];
      }
      ProjectedStatusIsInferred(chain, n - 1, id);
      StatusAfter(Project(chain, n - 1).escrows, chain[n - 1], id);
      if About(b, id) {
        InferredAppend(init, b);
        assert events[|init|] == b;
      } else {
        assert events == init;
      }
    }
  }

  // ---- Exactly when the two agree --------------------------------------------------------------

  /** The status the handlers leave: creations count once, other events once there is a row. */
  function Handled(events: seq<Body>): Option<Status> {
    if events == [] then None
    else
      HandleOne(Handled(events[..|events| - 1]), events[|events| - 1])
  }

  function HandleOne(before: Option<Status>, b: Body): Option<Status> {
    if before.None? then (if b.EscrowCreated? then Some(Active) else None)
    else if b.EscrowCreated? || StatusEvent(b).None? then before
    else StatusEvent(b)
  }

  lemma HandledAppend(events: seq<Body>, b: Body)
    ensures Handled(events + [b]) == HandleOne(Handled(events), b)
  {
    assert (events + [b])[..|events|] == events;
  }

  lemma {:induction false} ProjectedIsHandled(chain: seq<Event>, n: nat, id: int)
    requires n <= |chain|
    ensures var escrows := Project(chain, n).escrows; var status := Handled(EventsOf(chain, n, id));
            if id in escrows then status == Some(escrows[id].status) else status == None
  {
    if n > 0 {
      var before, b := EventsOf(chain, n - 1, id), chain[n - 1].body;
      ProjectedIsHandled(chain, n - 1, id);
      StatusAfter(Project(chain, n - 1).escrows, chain[n - 1], id);
      HandledAppend(before, b);
      assert before + [] == before;
    }
  }

  ghost predicate Created(events: seq<Body>) {
    exists c :: 0 <= c < |events| && events[c].EscrowCreated?
  }

  lemma CreatedAppend(events: seq<Body>, b: Body)
    ensures Created(events + [b]) <==> Created(events) || b.EscrowCreated?
  {
    var all := events + [b];
    assert all[|events|] == b && forall i :: 0 <= i < |events| ==> all[i] == events[i];
  }

  predicate SetsOther(b: Body) { StatusEvent(b).Some? && !b.EscrowCreated? }

  /** After the first creation, some status event is of another kind. */
  ghost predicate LeftActive(events: seq<Body>) {
    exists c, i :: 0 <= c < i < |events| && events[c].EscrowCreated? && SetsOther(events[i])
  }

  /** The last status event is a creation, and it follows one of another kind that in turn
      follows a creation. */
  ghost predicate Recreated(events: seq<Body>) {
    exists j :: 0 <= j < |events| && IsLastStatus(events, j) && events[j].EscrowCreated? && LeftActive(events[..j])
  }

  predicate IsLastStatus(events: seq<Body>, j: nat)
    requires j < |events|
  {
    StatusEvent(events[j]).Some? && forall k :: j < k < |events| ==> StatusEvent(events[k]).None?
  }

  lemma LeftActiveAppend(events: seq<Body>, b: Body)
    ensures LeftActive(events + [b]) <==>
              LeftActive(events) || (SetsOther(b) && Created(events))
  {
    var all := events + [b];
    assert all[|events|] == b && forall i :: 0 <= i < |events| ==> all[i] == events[i];
    if LeftActive(events) {
      var c, i :| 0 <= c < i < |events| && events[c].EscrowCreated? && SetsOther(events[i]);
      assert all[c].EscrowCreated? && SetsOther(all[i]);
    }
    if SetsOther(b) && Created(events) {
      var c :| 0 <= c < |events| && events[c].EscrowCreated?;
      assert all[c].EscrowCreated? && SetsOther(all[|events|]);
    }
  }

  lemma RecreatedAppend(events: seq<Body>, b: Body)
    ensures Recreated(events + [b]) <==>
              if StatusEvent(b).Some? then b.EscrowCreated? && LeftActive(events) else Recreated(events)
  {
    var all := events + [b];
    assert all[|events|] == b && all[..|events|] == events;
    assert forall j :: 0 <= j < |events| ==> all[j] == events[j] && all[..j] == events[..j];
    if StatusEvent(b).Some? {
      assert IsLastStatus(all, |events|);
      forall j | 0 <= j < |events| ensures !IsLastStatus(all, j) { assert StatusEvent(all[|events|]).Some?; }
    } else {
      forall j | 0 <= j < |events| ensures IsLastStatus(all, j) <==> IsLastStatus(events, j) {
        if IsLastStatus(all, j) {
          forall k | j < k < |events| ensures StatusEvent(events[k]).None? { assert StatusEvent(all[k]).None?; }
        }
      }
      if Recreated(events) {
        var j :| 0 <= j < |events| && IsLastStatus(events, j) && events[j].EscrowCreated? && LeftActive(events[..j]);
        assert IsLastStatus(all, j) && LeftActive(all[..j]);
      }
    }
  }

  lemma {:induction false} HandledIs(events: seq<Body>)
    ensures Handled(events).Some? <==> Created(events)
    ensures Handled(events).Some? ==> (Handled(events) == Some(Active) <==> !LeftActive(events))
    ensures Handled(events).None? ==> !LeftActive(events)
    ensures Handled(events).Some? ==> (Inferred(events) == Handled(events) <==> !Recreated(events))
  {
    if events != [] {
      var init, b := events[..|events| - 1], events[|events| - 1];
      assert events == init + [b];
      HandledIs(init);
      LeftActiveAppend(init, b);
      RecreatedAppend(init, b);
      CreatedAppend(init, b);
      HandledAppend(init, b);
      InferredAppend(init, b);
    }
  }

  /** For every chain and every escrow with a row, the detector infers the status the handlers
      left unless the last status event is a creation of an escrow already created and left
      by a status event of another kind, and then it does not. */
  lemma AgreesUnlessRecreated(chain: seq<Event>, n: nat, id: int)
    requires n <= |chain| && id in Project(chain, n).escrows
    ensures var events := EventsOf(chain, n, id);
            Inferred(events) == Some(Project(chain, n).escrows[id].status) <==> !Recreated(events)
  {
    ProjectedIsHandled(chain, n, id);
    HandledIs(EventsOf(chain, n, id));
  }

  /** What the detector reports on, in terms of the events alone. */
  ghost predicate Drifts(status: Status, events: seq<Body>) {
    ContinuesAfterEnd(events) || Inferred(events) != Some(status)
  }

  /** On the projected status it reports exactly the escrows of which some status event
      follows a resolution or a cancellation, and those created again last. */
  lemma ProjectedDriftsIff(chain: seq<Event>, n: nat, id: int)
    requires n <= |chain| && id in Project(chain, n).escrows
    ensures var events := EventsOf(chain, n, id);
            && (Drifts(Project(chain, n).escrows[id].status, events) <==>
                ContinuesAfterEnd(events) || Recreated(events))
            && (CreatedOnceFirst(events) ==> !Recreated(events))
  {
    AgreesUnlessRecreated(chain, n, id);
  }

  // ---- The scan --------------------------------------------------------------------------------

  predicate HasId(b: Body) { !b.ReputationUpdated? && !b.Unknown? }

  /** The event rows of some escrows, oldest first: the query of the scan. */
  function RowsFor(chain: seq<Event>, n: nat, ids: set<int>): seq<Body>
    requires n <= |chain|
  {
    if n == 0 then []
    else
      var rows, b := RowsFor(chain, n - 1, ids), chain[n - 1].body;
      if HasId(b) && b.id in ids then rows + [b] else rows
  }

  function OfEscrow(rows: seq<Body>, id: int): seq<Body> {
    if rows == [] then []
    else
      var b := rows[|rows| - 1];
      OfEscrow(rows[..|rows| - 1], id) + if About(b, id) then [b] else []
  }

  lemma OfEscrowAppend(rows: seq<Body>, b: Body, id: int)
    ensures OfEscrow(rows + [b], id) == OfEscrow(rows, id) + if About(b, id) then [b] else []
  {
    assert (rows + [b])[..|rows|] == rows;
  }

  lemma {:induction false} RowsForKeepsEvents(chain: seq<Event>, n: nat, ids: set<int>, id: int)
    requires n <= |chain| && id in ids
    ensures OfEscrow(RowsFor(chain, n, ids), id) == EventsOf(chain, n, id)
  {
    if n > 0 {
      RowsForKeepsEvents(chain, n - 1, ids, id);
      OfEscrowAppend(RowsFor(chain, n - 1, ids), chain[n - 1].body, id);
      assert EventsOf(chain, n - 1, id) + [] == EventsOf(chain, n - 1, id);
    }
  }

  function Group(groups: map<int, seq<Body>>, id: int): seq<Body> {
    if id in groups then groups[id] else []
  }

  method GroupByEscrow(rows: seq<Body>) returns (groups: map<int, seq<Body>>)
    requires forall k :: 0 <= k < |rows| ==> HasId(rows[k])
    ensures forall id :: Group(groups, id) == OfEscrow(rows, id)
  {
    groups := map[];
    for k := 0 to |rows|
      invariant forall id :: Group(groups, id) == OfEscrow(rows[..k], id)
    {
      var key := rows[k].id;
      ghost var before := groups;
      if key !in groups { groups := groups[key := []]; }
      groups := groups[key := groups[key] + [rows[k]]];
      assert rows[..k + 1][..k] == rows[..k];
      forall id ensures Group(groups, id) == OfEscrow(rows[..k + 1], id) {
        assert Group(groups, id) == Group(before, id) + if id == key then [rows[k]] else [];
      }
    }
    assert rows[..|rows|] == rows;
  }

  lemma {:induction false} RowsHaveIds(chain: seq<Event>, n: nat, ids: set<int>)
    requires n <= |chain|
    ensures forall k :: 0 <= k < |RowsFor(chain, n, ids)| ==> HasId(RowsFor(chain, n, ids)[k])
  {
    if n > 0 { RowsHaveIds(chain, n - 1, ids); }
  }

  /** The right answer for one escrow. */
  ghost predicate Answers(drift: Option<Drift>, escrow: (int, Status), events: seq<Body>) {
    && (drift.Some? <==> Drifts(escrow.1, events))
    && (drift.Some? ==>
          drift.value.escrowId == escrow.0 && drift.value.dbStatus == escrow.1 &&
          drift.value.inferredStatus == Inferred(events) && drift.value.lastEvent == LastOf(events))
  }

  /** The reports of a list of answers, in order. */
  function Present(answers: seq<Option<Drift>>): seq<Drift> {
    if answers == [] then []
    else
      var last := answers[|answers| - 1];
      Present(answers[..|answers| - 1]) + if last.Some? then [last.value] else []
  }

  lemma PresentAppend(answers: seq<Option<Drift>>, drift: Option<Drift>)
    ensures Present(answers + [drift]) == if drift.Some? then Present(answers) + [drift.value] else Present(answers)
  {
    assert (answers + [drift])[..|answers|] == answers;
    assert Present(answers) + [] == Present(answers);
  }

  method AnswerFor(groups: map<int, seq<Body>>, escrow: (int, Status), ghost events: seq<Body>)
    returns (drift: Option<Drift>)
    requires Group(groups, escrow.0) == events
    ensures Answers(drift, escrow, events)
  {
    drift := DetectDrift(escrow.0, escrow.1, Group(groups, escrow.0));
  }

  /** The query for the events of a batch of escrows, and its grouping. */
  method EventsByEscrow(chain: seq<Event>, n: nat, escrows: seq<(int, Status)>) returns (groups: map<int, seq<Body>>)
    requires n <= |chain|
    ensures forall k :: 0 <= k < |escrows| ==> Group(groups, escrows[k].0) == EventsOf(chain, n, escrows[k].0)
  {
    var ids := set k | 0 <= k < |escrows| :: escrows[k].0;
    RowsHaveIds(chain, n, ids);
    groups := GroupByEscrow(RowsFor(chain, n, ids));
    forall k | 0 <= k < |escrows| ensures Group(groups, escrows[k].0) == EventsOf(chain, n, escrows[k].0) {
      RowsForKeepsEvents(chain, n, ids, escrows[k].0);
    }
  }

  /** The detector's answer for every escrow of a batch. */
  method AnswersFor(chain: seq<Event>, n: nat, escrows: seq<(int, Status)>) returns (answers: seq<Option<Drift>>)
    requires n <= |chain|
    ensures |answers| == |escrows|
    ensures forall k :: 0 <= k < |escrows| ==> Answers(answers[k], escrows[k], EventsOf(chain, n, escrows[k].0))
  {
    var groups := EventsByEscrow(chain, n, escrows);
    answers := [];
    for i := 0 to |escrows|
      invariant |answers| == i
      invariant forall k :: 0 <= k < i ==> Answers(answers[k], escrows[k], EventsOf(chain, n, escrows[k].0))
    {
      var drift := AnswerFor(groups, escrows[i], EventsOf(chain, n, escrows[i].0));
      answers := answers + [drift];
    }
  }

  /** Drops the escrows without drift. */
  method DropMissing(answers: seq<Option<Drift>>) returns (reports: seq<Drift>)
    ensures reports == Present(answers)
  {
    reports := [];
    for i := 0 to |answers|
      invariant reports == Present(answers[..i])
    {
      PresentAppend(answers[..i], answers[i]);
      assert answers[..i + 1] == answers[..i] + [answers[i]];
      if answers[i].Some? { reports := reports + [answers[i].value]; }
    }
    assert answers[..|answers|] == answers;
  }

  /** The scan over a batch of escrows reports exactly those that drift from their own events,
      in order, however the events of all of them are interleaved.  `answers` is the list before
      the empty ones are dropped. */
  method FindStatusDrift(chain: seq<Event>, n: nat, escrows: seq<(int, Status)>)
    returns (reports: seq<Drift>, answers: seq<Option<Drift>>)
    requires n <= |chain|
    ensures |answers| == |escrows| && reports == Present(answers)
    ensures forall k :: 0 <= k < |escrows| ==> Answers(answers[k], escrows[k], EventsOf(chain, n, escrows[k].0))
  {
    answers := AnswersFor(chain, n, escrows);
    reports := DropMissing(answers);
  }

  /** The handlers never overwrite an escrow on a second creation, but the detector takes it
      to be active again, so the condition on creations is needed. */
  lemma SecondCreationLooksStale(created: Event, disputed: Event, again: Event)
    requires created.body.EscrowCreated? && again.body == created.body
    requires disputed.body.DisputeRaised? && disputed.body.id == created.body.id
    ensures var chain := [created, disputed, again];
            var id := created.body.id;
            && id in Project(chain, 3).escrows && Project(chain, 3).escrows[id].status == Disputed
            && Inferred(EventsOf(chain, 3, id)) == Some(Active)
  {
    var chain, id := [created, disputed, again], created.body.id;
    StatusAfter(Project(chain, 0).escrows, created, id);
    assert Project(chain, 1) == Record(Project(chain, 0), created);
    StatusAfter(Project(chain, 1).escrows, disputed, id);
    assert Project(chain, 2) == Record(Project(chain, 1), disputed);
    StatusAfter(Project(chain, 2).escrows, again, id);
    assert Project(chain, 3) == Record(Project(chain, 2), again);
    InferredAppend(EventsOf(chain, 2, id), again.body);
    assert EventsOf(chain, 3, id) == EventsOf(chain, 2, id) + [again.body];
  }
}
