/** The contract-event indexer: handlers that project events onto the database, each in one
    transaction with a uniquely keyed event row, and the polling ticks that feed them. */
module EventIndexer {
  import opened Wrappers

  datatype Status = Active | Disputed | Completed | Cancelled

  datatype MilestoneStatus = Pending | Submitted | Approved | Rejected

  datatype Body =
    | EscrowCreated(id: int, client: string, freelancer: string, amount: int)
    | MilestoneAdded(id: int, milestone: int, amount: int)
    | MilestoneSubmitted(id: int, milestone: int)
    | MilestoneApproved(id: int, milestone: int)
    | MilestoneRejected(id: int, milestone: int)
    | MilestoneDisputed(id: int, milestone: int)
    | FundsReleased(id: int, to: string, amount: int)
    | EscrowCancelled(id: int)
    | DisputeRaised(id: int, raisedBy: string)
    | DisputeResolved(id: int, clientAmount: int, freelancerAmount: int)
    | ReputationUpdated(address: string, score: int)
    | Unknown(eventType: string)

  datatype Event = Event(txHash: string, index: int, ledger: int, ledgerAt: int, body: Body)

  type EventKey = (string, int)

  /** What makes an event row unique.  The schema's key has the tenant as well
      (backend/database/schema.prisma:470); this is the database of one tenant. */
  function KeyOf(ev: Event): EventKey { (ev.txHash, ev.index) }

  // ---- The database --------------------------------------------------------------------

  datatype Escrow = Escrow(
    client: string, freelancer: string, totalAmount: int, remainingBalance: int,
    status: Status, createdAt: int, createdLedger: int)

  datatype Milestone = Milestone(amount: int, status: MilestoneStatus, submittedAt: Option<int>,
      resolvedAt: Option<int>)

  datatype Settlement = Settlement(resolvedAt: int, clientAmount: int, freelancerAmount: int)

  datatype Dispute = Dispute(raisedBy: string, raisedAt: int, settlement: Option<Settlement>)

  datatype Db = Db(
    escrows: map<int, Escrow>, milestones: map<(int, int), Milestone>, disputes: map<int, Dispute>,
    reputation: map<string, int>, events: map<EventKey, Event>)

  const EMPTY := Db(map[], map[], map[], map[], map[])

  function SetStatus(escrows: map<int, Escrow>, id: int, status: Status): map<int, Escrow> {
    if id in escrows then escrows[id := escrows[id].(status := status)] else escrows
  }

  function EscrowsAfter(escrows: map<int, Escrow>, ev: Event): map<int, Escrow> {
    match ev.body
    case EscrowCreated(id, client, freelancer, amount) =>
      if id in escrows then escrows
      else escrows[id := Escrow(client, freelancer, amount, amount, Active, ev.ledgerAt, ev.ledger)]
    case FundsReleased(id, _, amount) =>
      if id !in escrows then escrows
      else escrows[id := escrows[id].(remainingBalance := escrows[id].remainingBalance - amount)]
    case EscrowCancelled(id) => SetStatus(escrows, id, Cancelled)
    case DisputeRaised(id, _) => SetStatus(escrows, id, Disputed)
    case DisputeResolved(id, _, _) => SetStatus(escrows, id, Completed)
    case _ => escrows
  }

  function MilestonesAfter(milestones: map<(int, int), Milestone>, ev: Event): map<(int, int), Milestone> {
    match ev.body
    case MilestoneAdded(id, milestone, amount) =>
      if (id, milestone) in milestones then milestones
      else milestones[(id, milestone) := Milestone(amount, Pending, None, None)]
    case MilestoneSubmitted(id, milestone) =>
      if (id, milestone) !in milestones then milestones
      else milestones[(id, milestone) :=
                        milestones[(id, milestone)].(status := Submitted, submittedAt := Some(ev.ledgerAt))]
    case MilestoneApproved(id, milestone) =>
      if (id, milestone) !in milestones then milestones
      else milestones[(id, milestone) :=
                        milestones[(id, milestone)].(status := Approved, resolvedAt := Some(ev.ledgerAt))]
    case MilestoneRejected(id, milestone) =>
      if (id, milestone) !in milestones then milestones
      else milestones[(id, milestone) :=
                        milestones[(id, milestone)].(status := Rejected, resolvedAt := Some(ev.ledgerAt))]
    case MilestoneDisputed(id, milestone) =>
      if (id, milestone) !in milestones then milestones
      else milestones[(id, milestone) := milestones[(id, milestone)].(status := Rejected)]
    case _ => milestones
  }

  function DisputesAfter(disputes: map<int, Dispute>, ev: Event): map<int, Dispute> {
    match ev.body
    case DisputeRaised(id, raisedBy) =>
      if id in disputes then disputes else disputes[id := Dispute(raisedBy, ev.ledgerAt, None)]
    case DisputeResolved(id, clientAmount, freelancerAmount) =>
      if id !in disputes then disputes
      else disputes[id := disputes[id].(settlement := Some(Settlement(ev.ledgerAt, clientAmount, freelancerAmount)))]
    case _ => disputes
  }

  /** The writes of a handler's transaction other than the event row. */
  function Effect(db: Db, ev: Event): Db {
    Db(EscrowsAfter(db.escrows, ev), MilestonesAfter(db.milestones, ev), DisputesAfter(db.disputes, ev),
       if ev.body.ReputationUpdated? then db.reputation[ev.body.address := ev.body.score] else db.reputation,
       db.events)
  }

  /** New milestone and dispute rows refer to their escrow. */
  predicate ForeignKeysHold(db: Db, ev: Event) {
    match ev.body
    case MilestoneAdded(id, milestone, _) => (id, milestone) in db.milestones || id in db.escrows
    case DisputeRaised(id, _) => id in db.disputes || id in db.escrows
    case _ => true
  }

  /** One event, handled once.  Unknown types are skipped and leave no row. */
  function Record(db: Db, ev: Event): Db {
    if ev.body.Unknown? then db
    else
      var db' := Effect(db, ev);
      db'.(events := db'.events[KeyOf(ev) := ev])
  }

  /** The projection of the first `n` events of a chain, each handled once. */
  function Project(chain: seq<Event>, n: nat): Db
    requires n <= |chain|
  {
    if n == 0 then EMPTY else Record(Project(chain, n - 1), chain[n - 1])
  }

  // ---- The indexer ------------------------------------------------------------------------

  datatype Fault = NoFault | ThrowsBefore | ThrowsAfter

  class Indexer {
    var escrows: map<int, Escrow>
    var milestones: map<(int, int), Milestone>
    var disputes: map<int, Dispute>
    var reputation: map<string, int>
    var events: map<EventKey, Event>
    var lastProcessedLedger: int
    var savedLedger: int

    ghost function Database(): Db
      reads this
    {
      Db(escrows, milestones, disputes, reputation, events)
    }

    method UpdateStatus(id: int, status: Status)
      modifies this`escrows
      ensures escrows == SetStatus(old(escrows), id, status)
    {
      if id in escrows { escrows := escrows[id := escrows[id].(status := status)]; }
    }

    /** The writes of the handler for `ev`, in its transaction's order. */
    method Handle(ev: Event)
      modifies this`escrows, this`milestones, this`disputes, this`reputation
      ensures Database() == Effect(old(Database()), ev)
    {
      match ev.body {
        case EscrowCreated(id, client, freelancer, amount) =>
          if id !in escrows {
            escrows := escrows[id := Escrow(client, freelancer, amount, amount, Active, ev.ledgerAt, ev.ledger)];
          }
        case MilestoneAdded(id, milestone, amount) =>
          if (id, milestone) !in milestones {
            milestones := milestones[(id, milestone) := Milestone(amount, Pending, None, None)];
          }
        case MilestoneSubmitted(id, milestone) =>
          if (id, milestone) in milestones {
            var m := milestones[(id, milestone)];
            milestones := milestones[(id, milestone) := m.(status := Submitted, submittedAt := Some(ev.ledgerAt))];
          }
        case MilestoneApproved(id, milestone) =>
          if (id, milestone) in milestones {
            var m := milestones[(id, milestone)];
            milestones := milestones[(id, milestone) := m.(status := Approved, resolvedAt := Some(ev.ledgerAt))];
          }
        case MilestoneRejected(id, milestone) =>
          if (id, milestone) in milestones {
            var m := milestones[(id, milestone)];
            milestones := milestones[(id, milestone) := m.(status := Rejected, resolvedAt := Some(ev.ledgerAt))];
          }
        case MilestoneDisputed(id, milestone) =>
          if (id, milestone) in milestones {
            milestones := milestones[(id, milestone) := milestones[(id, milestone)].(status := Rejected)];
          }
        case FundsReleased(id, _, amount) =>
          if id in escrows {
            var e := escrows[id];
            escrows := escrows[id := e.(remainingBalance := e.remainingBalance - amount)];
          }
        case EscrowCancelled(id) => UpdateStatus(id, Cancelled);
        case DisputeRaised(id, raisedBy) =>
          UpdateStatus(id, Disputed);
          if id !in disputes { disputes := disputes[id := Dispute(raisedBy, ev.ledgerAt, None)]; }
        case DisputeResolved(id, clientAmount, freelancerAmount) =>
          UpdateStatus(id, Completed);
          if id in disputes {
            var settlement := Settlement(ev.ledgerAt, clientAmount, freelancerAmount);
            disputes := disputes[id := disputes[id].(settlement := Some(settlement))];
          }
        case ReputationUpdated(address, score) => reputation := reputation[address := score];
        case Unknown(_) =>
      }
    }

    /** `dispatchEvent`.  A transaction that breaks the unique key is rolled back and the
        event passed over; one that breaks a foreign key is rolled back and throws; and the
        database may fail, before the commit or after it. */
    method DispatchEvent(ev: Event, fault: Fault) returns (ok: bool)
      modifies this`escrows, this`milestones, this`disputes, this`reputation, this`events
      ensures Database() ==
                if ev.body.Unknown? || KeyOf(ev) in old(events) || !ForeignKeysHold(old(Database()), ev) ||
                    fault == ThrowsBefore
                then old(Database()) else Record(old(Database()), ev)
      ensures ok <==> ev.body.Unknown? ||
                      (fault == NoFault && (KeyOf(ev) in old(events) || ForeignKeysHold(old(Database()), ev)))
    {
      if ev.body.Unknown? { return true; }
      if fault == ThrowsBefore { return false; }
      if KeyOf(ev) in events { return fault == NoFault; }
      var keysHold := match ev.body {
        case MilestoneAdded(id, milestone, _) => (id, milestone) in milestones || id in escrows
        case DisputeRaised(id, _) => id in disputes || id in escrows
        case _ => true
      };
      if !keysHold { return false; }
      Handle(ev);
      events := events[KeyOf(ev) := ev];
      return fault == NoFault;
    }

    /** A tick run to its end: the fetched events are dispatched in order until one throws,
        and only if none does do the cursor and then its saved copy advance. */
    method Tick(fetched: seq<Event>, latest: int, faults: nat -> Fault, saveFault: Fault)
      modifies this
      ensures var (db, ok) := DispatchAll(old(Database()), fetched, faults, |fetched|);
              && Database() == db
              && lastProcessedLedger == (if ok && latest > old(lastProcessedLedger) then latest
                  else old(lastProcessedLedger))
              && savedLedger == (if ok && latest > old(lastProcessedLedger) && saveFault != ThrowsBefore
                                 then latest else old(savedLedger))
    {
      var i := 0;
      while i < |fetched|
        invariant i <= |fetched| && DispatchAll(old(Database()), fetched, faults, i) == (Database(), true)
        invariant lastProcessedLedger == old(lastProcessedLedger) && savedLedger == old(savedLedger)
      {
        var ok := DispatchEvent(fetched[i], faults(i));
        i := i + 1;
        assert DispatchAll(old(Database()), fetched, faults, i) == (Database(), ok);
        if !ok {
          StopsAtFirstThrow(old(Database()), fetched, faults, i);
          return;
        }
      }
      if latest > lastProcessedLedger {
        lastProcessedLedger := latest;
        if saveFault != ThrowsBefore { savedLedger := latest; }
      }
    }
  }

  /** One dispatch, and whether it returned normally. */
  function Dispatch(db: Db, ev: Event, fault: Fault): (Db, bool) {
    if ev.body.Unknown? then (db, true)
    else if fault == ThrowsBefore then (db, false)
    else if KeyOf(ev) in db.events then (db, fault == NoFault)
    else if !ForeignKeysHold(db, ev) then (db, false)
    else (Record(db, ev), fault == NoFault)
  }

  function DispatchAll(db: Db, fetched: seq<Event>, faults: nat -> Fault, n: nat): (Db, bool)
    requires n <= |fetched|
  {
    if n == 0 then (db, true)
    else
      var (db', ok) := DispatchAll(db, fetched, faults, n - 1);
      if ok then Dispatch(db', fetched[n - 1], faults(n - 1)) else (db', false)
  }

  lemma {:induction false} StopsAtFirstThrow(db: Db, fetched: seq<Event>, faults: nat -> Fault, n: nat)
    requires n <= |fetched| && !DispatchAll(db, fetched, faults, n).1
    ensures DispatchAll(db, fetched, faults, |fetched|) == DispatchAll(db, fetched, faults, n)
    decreases |fetched| - n
  {
    if n < |fetched| { StopsAtFirstThrow(db, fetched, faults, n + 1); }
  }

  // ---- Overlapping ticks, failures and restarts ------------------------------------------------

  /** The contract's events from the starting ledger on, in chain order. */
  ghost predicate IsChain(chain: seq<Event>) {
    && (forall i, j :: 0 <= i < j < |chain| ==> KeyOf(chain[i]) != KeyOf(chain[j]))
    && (forall i, j :: 0 <= i < j < |chain| ==> chain[i].ledger <= chain[j].ledger)
  }

  /** A tick waits for its fetch, works through events `next` up to `end` of the chain, or
      waits for its cursor to be saved. */
  datatype Phase =
    | Fetching(from: int)
    | Working(next: nat, end: nat, latest: int)
    | Saving(value: int)

  datatype State = State(db: Db, cursor: int, saved: int, ticks: map<nat, Phase>)

  datatype Step =
    | Begin(tick: nat)
    | Fetched(tick: nat, next: nat, end: nat, latest: int)
    | Work(tick: nat, fault: Fault)
    | Advance(tick: nat)
    | Save(tick: nat, written: bool)
    | Fail(tick: nat)
    | Restart

  /** The fetch returns the events from the first at or after `from` up to somewhere in the
      chain, and all of those on ledgers before the `latest` that is read after it. */
  ghost predicate FetchCovers(chain: seq<Event>, from: int, next: nat, end: nat, latest: int) {
    && next <= end <= |chain|
    && (forall i :: 0 <= i < next ==> chain[i].ledger < from)
    && (forall i :: next <= i < |chain| ==> chain[i].ledger >= from)
    && (forall i :: 0 <= i < |chain| && chain[i].ledger < latest ==> i < end)
  }

  ghost predicate Enabled(chain: seq<Event>, s: State, step: Step) {
    match step
    case Begin(tick) => tick !in s.ticks
    case Fetched(tick, next, end, latest) =>
      tick in s.ticks && s.ticks[tick].Fetching? && FetchCovers(chain, s.ticks[tick].from, next, end, latest)
    case Work(tick, _) =>
      tick in s.ticks && s.ticks[tick].Working? && s.ticks[tick].next < s.ticks[tick].end <= |chain|
    case Advance(tick) => tick in s.ticks && s.ticks[tick].Working? && s.ticks[tick].next == s.ticks[tick].end
    case Save(tick, _) => tick in s.ticks && s.ticks[tick].Saving?
    case Fail(tick) => tick in s.ticks
    case Restart => true
  }

  ghost function Apply(chain: seq<Event>, s: State, step: Step): State
    requires Enabled(chain, s, step)
  {
    match step
    case Begin(tick) => s.(ticks := s.ticks[tick := Fetching(s.cursor)])
    case Fetched(tick, next, end, latest) => s.(ticks := s.ticks[tick := Working(next, end, latest)])
    case Work(tick, fault) =>
      var t := s.ticks[tick];
      var (db, ok) := Dispatch(s.db, chain[t.next], fault);
      s.(db := db, ticks := if ok then s.ticks[tick := t.(next := t.next + 1)] else s.ticks - {tick})
    case Advance(tick) =>
      var latest := s.ticks[tick].latest;
      if latest > s.cursor then s.(cursor := latest, ticks := s.ticks[tick := Saving(latest)])
      else s.(ticks := s.ticks - {tick})
    case Save(tick, written) =>
      s.(saved := if written then s.ticks[tick].value else s.saved, ticks := s.ticks - {tick})
    case Fail(tick) => s.(ticks := s.ticks - {tick})
    case Restart => s.(cursor := s.saved, ticks := map[])
  }

  ghost predicate Run(chain: seq<Event>, s: State, run: seq<Step>)
    decreases |run|
  {
    run != [] ==> Enabled(chain, s, run[0]) && Run(chain, Apply(chain, s, run[0]), run[1..])
  }

  ghost function End(chain: seq<Event>, s: State, run: seq<Step>): State
    requires Run(chain, s, run)
    decreases |run|
  {
    if run == [] then s else End(chain, Apply(chain, s, run[0]), run[1..])
  }

  /** No event of the chain comes before the starting ledger. */
  ghost predicate StartsAt(chain: seq<Event>, start: int) {
    forall i :: 0 <= i < |chain| ==> chain[i].ledger >= start
  }

  function Initial(start: int): State {
    State(EMPTY, start, start, map[])
  }

  /** Everything on ledgers before `cursor` is among the first `n` events. */
  ghost predicate Behind(chain: seq<Event>, cursor: int, n: nat) {
    forall i :: 0 <= i < |chain| && chain[i].ledger < cursor ==> i < n
  }

  ghost predicate PhaseInv(chain: seq<Event>, phase: Phase, n: nat) {
    match phase
    case Fetching(from) => Behind(chain, from, n)
    case Working(next, end, latest) => next <= n && next <= end <= |chain| && Behind(chain, latest, end)
    case Saving(value) => Behind(chain, value, n)
  }

  ghost predicate Inv(chain: seq<Event>, s: State, n: nat) {
    && n <= |chain| && s.db == Project(chain, n)
    && Behind(chain, s.cursor, n) && Behind(chain, s.saved, n)
    && forall t :: t in s.ticks ==> PhaseInv(chain, s.ticks[t], n)
  }

  /** The event rows are exactly the known events among the first `n`. */
  lemma {:induction false} RowsAreThePrefix(chain: seq<Event>, n: nat)
    requires IsChain(chain) && n <= |chain|
    ensures forall i :: 0 <= i < n && !chain[i].body.Unknown? ==>
              KeyOf(chain[i]) in Project(chain, n).events && Project(chain, n).events[KeyOf(chain[i])] == chain[i]
    ensures forall i :: n <= i < |chain| ==> KeyOf(chain[i]) !in Project(chain, n).events
    ensures |Project(chain, n).events| == KnownAmong(chain, n)
  {
    if n > 0 {
      RowsAreThePrefix(chain, n - 1);
    }
  }

  function KnownAmong(chain: seq<Event>, n: nat): nat
    requires n <= |chain|
  {
    if n == 0 then 0 else KnownAmong(chain, n - 1) + if chain[n - 1].body.Unknown? then 0 else 1
  }

  /** Dispatching an event among the first `n` changes nothing, and dispatching the next one
      extends the projection by it or, when it throws, perhaps not. */
  lemma DispatchExtends(chain: seq<Event>, n: nat, next: nat, fault: Fault)
    requires IsChain(chain) && next <= n <= |chain| && next < |chain|
    ensures var done := Dispatch(Project(chain, n), chain[next], fault);
            && (next < n ==> done.0 == Project(chain, n))
            && (next == n ==> done.0 == Project(chain, n + 1) || (done.0 == Project(chain, n) && !done.1))
  {
    RowsAreThePrefix(chain, n);
  }

  lemma WorkKeepsInv(chain: seq<Event>, s: State, tick: nat, fault: Fault, n: nat) returns (n': nat)
    requires IsChain(chain) && Inv(chain, s, n) && Enabled(chain, s, Work(tick, fault))
    ensures n <= n' && Inv(chain, Apply(chain, s, Work(tick, fault)), n')
  {
    var t := s.ticks[tick];
    assert PhaseInv(chain, t, n);
    DispatchExtends(chain, n, t.next, fault);
    n' := if t.next == n && Dispatch(s.db, chain[t.next], fault).0 == Project(chain, n + 1) then n + 1 else n;
    var ticks := Apply(chain, s, Work(tick, fault)).ticks;
    forall u | u in ticks ensures PhaseInv(chain, ticks[u], n') {
      assert PhaseInv(chain, s.ticks[u], n);
    }
  }

  lemma StepKeepsInv(chain: seq<Event>, s: State, step: Step, n: nat) returns (n': nat)
    requires IsChain(chain) && Inv(chain, s, n) && Enabled(chain, s, step)
    ensures n <= n' && Inv(chain, Apply(chain, s, step), n')
  {
    if step.Work? {
      n' := WorkKeepsInv(chain, s, step.tick, step.fault, n);
      return;
    }
    n' := n;
    var s' := Apply(chain, s, step);
    if !step.Begin? && !step.Restart? {
      assert PhaseInv(chain, s.ticks[step.tick], n);
    }
    if step.Fetched? && step.next > 0 {
      assert chain[step.next - 1].ledger < s.ticks[step.tick].from;
    }
    forall t | t in s'.ticks ensures PhaseInv(chain, s'.ticks[t], n) {
      if t in s.ticks {
        assert PhaseInv(chain, s.ticks[t], n);
      }
    }
  }

  lemma {:induction false} RunKeepsInv(chain: seq<Event>, s: State, run: seq<Step>, n: nat) returns (n': nat)
    requires IsChain(chain) && Inv(chain, s, n) && Run(chain, s, run)
    ensures n <= n' && Inv(chain, End(chain, s, run), n')
    decreases |run|
  {
    n' := n;
    if run != [] {
      n' := StepKeepsInv(chain, s, run[0], n);
      n' := RunKeepsInv(chain, Apply(chain, s, run[0]), run[1..], n');
    }
  }

  /** Exactly once: over every run of overlapping ticks, failed or lost commits, failed saves
      and restarts, the database is the projection of a prefix of the chain with each event
      handled once, and nothing behind the cursor, or behind the saved cursor a restart
      resumes from, is missing from it. */
  lemma DatabaseIsAPrefixProjection(chain: seq<Event>, start: int, run: seq<Step>)
    requires IsChain(chain) && StartsAt(chain, start) && Run(chain, Initial(start), run)
    ensures exists n :: Inv(chain, End(chain, Initial(start), run), n)
  {
    var n := RunKeepsInv(chain, Initial(start), run, 0);
  }

  // ---- What the projection says of a balance -------------------------------------------------

  /** The first event that creates an escrow. */
  function Creation(chain: seq<Event>, n: nat, id: int): Option<nat>
    requires n <= |chain|
  {
    if n == 0 then None
    else
      var before := Creation(chain, n - 1, id);
      if before.None? && chain[n - 1].body.EscrowCreated? && chain[n - 1].body.id == id then Some(n - 1) else before
  }

  /** The funds released from an escrow by events `from` up to `n`. */
  function Released(chain: seq<Event>, from: nat, n: nat, id: int): int
    requires n <= |chain|
  {
    if n <= from then 0
    else
      var b := chain[n - 1].body;
      Released(chain, from, n - 1, id) + if b.FundsReleased? && b.id == id then b.amount else 0
  }

  /** What one event does to the amounts of an escrow. */
  lemma EffectOnAmounts(before: map<int, Escrow>, ev: Event, id: int)
    ensures var after := EscrowsAfter(before, ev); var b := ev.body;
            && (id in after <==> id in before || (b.EscrowCreated? && b.id == id))
            && (id in before ==>
                  && after[id].totalAmount == before[id].totalAmount
                  && after[id].remainingBalance ==
                       before[id].remainingBalance - if b.FundsReleased? && b.id == id then b.amount else 0)
            && (id !in before && id in after ==> after[id].totalAmount == after[id].remainingBalance == b.amount)
  {}

  /** An escrow has a row exactly after its first creation, and its balance is the amount
      created less every release since, each taken off once. */
  lemma {:induction false} BalanceIsCreatedLessReleased(chain: seq<Event>, n: nat, id: int)
    requires n <= |chain|
    ensures var escrows := Project(chain, n).escrows;
            match Creation(chain, n, id)
            case None => id !in escrows
            case Some(c) =>
              && c < n && chain[c].body.EscrowCreated? && chain[c].body.id == id && id in escrows
              && escrows[id].totalAmount == chain[c].body.amount
              && escrows[id].remainingBalance == chain[c].body.amount - Released(chain, c, n, id)
  {
    if n > 0 {
      BalanceIsCreatedLessReleased(chain, n - 1, id);
      EffectOnAmounts(Project(chain, n - 1).escrows, chain[n - 1], id);
    }
  }

  // ---- What the projection says of every other row, from the events alone ------------------------

  /** The events that concern one row. */
  datatype Kind =
    | Adds(id: int, milestone: int)
    | Moves(id: int, milestone: int)      // set a milestone's status
    | Submits(id: int, milestone: int)
    | Resolves(id: int, milestone: int)
    | Raises(id: int)
    | Settles(id: int)
    | Scores(address: string)

  predicate Is(b: Body, k: Kind) {
    match k
    case Adds(id, m) => b.MilestoneAdded? && b.id == id && b.milestone == m
    case Moves(id, m) => SetsMilestone(b).Some? && b.id == id && b.milestone == m
    case Submits(id, m) => b.MilestoneSubmitted? && b.id == id && b.milestone == m
    case Resolves(id, m) => (b.MilestoneApproved? || b.MilestoneRejected?) && b.id == id && b.milestone == m
    case Raises(id) => b.DisputeRaised? && b.id == id
    case Settles(id) => b.DisputeResolved? && b.id == id
    case Scores(address) => b.ReputationUpdated? && b.address == address
  }

  /** The milestone status an event stands for; one in dispute is shown as rejected. */
  function SetsMilestone(b: Body): (status: Option<MilestoneStatus>)
    ensures status.Some? ==>
              b.MilestoneSubmitted? || b.MilestoneApproved? || b.MilestoneRejected? || b.MilestoneDisputed?
  {
    match b
    case MilestoneSubmitted(_, _) => Some(Submitted)
    case MilestoneApproved(_, _) => Some(Approved)
    case MilestoneRejected(_, _) => Some(Rejected)
    case MilestoneDisputed(_, _) => Some(Rejected)
    case _ => None
  }

  /** The first event of a kind among the first `n`. */
  function FirstOf(chain: seq<Event>, n: nat, k: Kind): (i: Option<nat>)
    requires n <= |chain|
    ensures i.Some? ==> i.value < n && Is(chain[i.value].body, k)
    ensures forall j :: 0 <= j < (if i.Some? then i.value else n) ==> !Is(chain[j].body, k)
  {
    if n == 0 then None
    else
      var before := FirstOf(chain, n - 1, k);
      if before.None? && Is(chain[n - 1].body, k) then Some(n - 1) else before
  }

  /** The last event of a kind from `from` on, among the first `n`. */
  function LatestOf(chain: seq<Event>, from: nat, n: nat, k: Kind): (i: Option<nat>)
    requires n <= |chain|
    ensures i.Some? ==> from <= i.value < n && Is(chain[i.value].body, k)
    ensures forall j :: (if i.Some? then i.value + 1 else from) <= j < n ==> !Is(chain[j].body, k)
  {
    if n <= from then None
    else if Is(chain[n - 1].body, k) then Some(n - 1)
    else LatestOf(chain, from, n - 1, k)
  }

  /** The ledger time of an event. */
  function TimeOf(chain: seq<Event>, i: Option<nat>): Option<int>
    requires i.Some? ==> i.value < |chain|
  {
    if i.Some? then Some(chain[i.value].ledgerAt) else None
  }

  /** The row of a milestone whose first mil_add is event `c`: its amount; the status of the last
      event that sets one, or Pending; when it was last submitted; and when last approved or
      rejected. */
  function MilestoneRow(chain: seq<Event>, c: nat, n: nat, id: int, milestone: int): Milestone
    requires c < n <= |chain| && chain[c].body.MilestoneAdded?
  {
    var last := LatestOf(chain, c, n, Moves(id, milestone));
    Milestone(chain[c].body.amount,
              if last.Some? then SetsMilestone(chain[last.value].body).value else Pending,
              TimeOf(chain, LatestOf(chain, c, n, Submits(id, milestone))),
              TimeOf(chain, LatestOf(chain, c, n, Resolves(id, milestone))))
  }

  /** What one event does to the row of a milestone. */
  lemma EffectOnMilestone(before: map<(int, int), Milestone>, ev: Event, id: int, milestone: int)
    ensures var after, k := MilestonesAfter(before, ev), (id, milestone);
            && (k in after <==> k in before || Is(ev.body, Adds(id, milestone)))
            && (k !in before && k in after ==> after[k] == Milestone(ev.body.amount, Pending, None, None))
            && (k in before ==>
                  after[k] == Milestone(
                    before[k].amount,
                    if Is(ev.body, Moves(id, milestone)) then SetsMilestone(ev.body).value else before[k].status,
                    if Is(ev.body, Submits(id, milestone)) then Some(ev.ledgerAt) else before[k].submittedAt,
                    if Is(ev.body, Resolves(id, milestone)) then Some(ev.ledgerAt) else before[k].resolvedAt))
  {}

  /** A milestone has a row exactly after its first mil_add, and the row is what the events
      from there on say. */
  lemma {:induction false} MilestoneIsItsEvents(chain: seq<Event>, n: nat, id: int, milestone: int)
    requires n <= |chain|
    ensures var rows, c := Project(chain, n).milestones, FirstOf(chain, n, Adds(id, milestone));
            && ((id, milestone) in rows <==> c.Some?)
            && (c.Some? ==> rows[(id, milestone)] == MilestoneRow(chain, c.value, n, id, milestone))
  {
    if n > 0 {
      MilestoneIsItsEvents(chain, n - 1, id, milestone);
      EffectOnMilestone(Project(chain, n - 1).milestones, chain[n - 1], id, milestone);
    }
  }

  /** The row of a dispute whose first dis_rai is event `c`: who raised it and when, and the
      settlement of the last dis_res since. */
  function DisputeRow(chain: seq<Event>, c: nat, n: nat, id: int): Dispute
    requires c < n <= |chain| && chain[c].body.DisputeRaised?
  {
    var last := LatestOf(chain, c, n, Settles(id));
    Dispute(chain[c].body.raisedBy, chain[c].ledgerAt,
            if last.None? then None
            else
              var ev := chain[last.value];
              Some(Settlement(ev.ledgerAt, ev.body.clientAmount, ev.body.freelancerAmount)))
  }

  lemma DisputeRowStep(chain: seq<Event>, c: nat, n: nat, id: int)
    requires c < n - 1 < |chain| && chain[c].body.DisputeRaised?
    ensures var row, ev := DisputeRow(chain, c, n - 1, id), chain[n - 1];
            DisputeRow(chain, c, n, id) ==
              if Is(ev.body, Settles(id))
              then row.(settlement := Some(Settlement(ev.ledgerAt, ev.body.clientAmount, ev.body.freelancerAmount)))
              else row
  {}

  /** What one event does to the row of a dispute. */
  lemma EffectOnDispute(before: map<int, Dispute>, ev: Event, id: int)
    ensures var after, b := DisputesAfter(before, ev), ev.body;
            && (id in after <==> id in before || Is(b, Raises(id)))
            && (id !in before && id in after ==> after[id] == Dispute(b.raisedBy, ev.ledgerAt, None))
            && (id in before ==>
                  after[id] == Dispute(
                    before[id].raisedBy, before[id].raisedAt,
                    if Is(b, Settles(id)) then Some(Settlement(ev.ledgerAt, b.clientAmount, b.freelancerAmount))
                    else before[id].settlement))
  {}

  /** A dispute has a row exactly after its first dis_rai, and only a dis_res after that settles
      it, with the client's amount for the client and the freelancer's for the freelancer. */
  lemma {:induction false} DisputeIsItsEvents(chain: seq<Event>, n: nat, id: int)
    requires n <= |chain|
    ensures var rows, c := Project(chain, n).disputes, FirstOf(chain, n, Raises(id));
            (id in rows <==> c.Some?) && (c.Some? ==> rows[id] == DisputeRow(chain, c.value, n, id))
  {
    if n > 0 {
      DisputeIsItsEvents(chain, n - 1, id);
      EffectOnDispute(Project(chain, n - 1).disputes, chain[n - 1], id);
      var c := FirstOf(chain, n - 1, Raises(id));
      if c.Some? { DisputeRowStep(chain, c.value, n, id); }
    }
  }

  /** A reputation is the score of the address's last event. */
  lemma {:induction false} ReputationIsTheLastScore(chain: seq<Event>, n: nat, address: string)
    requires n <= |chain|
    ensures var scores, last := Project(chain, n).reputation, LatestOf(chain, 0, n, Scores(address));
            (address in scores <==> last.Some?) && (last.Some? ==> scores[address] == chain[last.value].body.score)
  {
    if n > 0 { ReputationIsTheLastScore(chain, n - 1, address); }
  }

  /** An escrow keeps the parties, time and ledger of its first creation. */
  lemma {:induction false} EscrowIsItsCreation(chain: seq<Event>, n: nat, id: int)
    requires n <= |chain|
    ensures var escrows, c := Project(chain, n).escrows, Creation(chain, n, id);
            && (id in escrows <==> c.Some?)
            && (c.Some? ==>
                  && c.value < n && chain[c.value].body.EscrowCreated?
                  && escrows[id].client == chain[c.value].body.client
                  && escrows[id].freelancer == chain[c.value].body.freelancer
                  && escrows[id].createdAt == chain[c.value].ledgerAt
                  && escrows[id].createdLedger == chain[c.value].ledger)
  {
    if n > 0 { EscrowIsItsCreation(chain, n - 1, id); }
  }

  // ---- When nothing fails ------------------------------------------------------------------------

  /** Milestones are added to, and disputes raised on, escrows created before. */
  ghost predicate CreatedBefore(chain: seq<Event>) {
    forall i :: 0 <= i < |chain| && (chain[i].body.MilestoneAdded? || chain[i].body.DisputeRaised?) ==>
      exists j :: 0 <= j < i && Creates(chain[j].body, chain[i].body.id)
  }

  predicate Creates(b: Body, id: int) { b.EscrowCreated? && b.id == id }

  lemma {:induction false} CreatedHasRow(chain: seq<Event>, n: nat, j: nat, id: int)
    requires j < n <= |chain| && Creates(chain[j].body, id)
    ensures id in Project(chain, n).escrows
  {
    if j < n - 1 { CreatedHasRow(chain, n - 1, j, id); }
  }

  /** Without a fault, dispatching an event handled before passes over it, and dispatching the
      next one handles it. */
  lemma FaultlessDispatch(chain: seq<Event>, n: nat, next: nat)
    requires IsChain(chain) && CreatedBefore(chain) && next <= n <= |chain| && next < |chain|
    ensures Dispatch(Project(chain, n), chain[next], NoFault) == (Project(chain, if next < n then n else n + 1), true)
  {
    RowsAreThePrefix(chain, n);
    var b := chain[next].body;
    if next == n && (b.MilestoneAdded? || b.DisputeRaised?) {
      var j :| 0 <= j < next && Creates(chain[j].body, b.id);
      CreatedHasRow(chain, n, j, b.id);
    }
  }

  /** A tick without a fault, from any event handled before or the next one, handles everything
      it fetched, whatever other ticks have already handled of it. */
  lemma {:induction false} FaultlessTickCatchesUp(chain: seq<Event>, n: nat, next: nat, fetched: seq<Event>,
                                                  faults: nat -> Fault, k: nat)
    requires IsChain(chain) && CreatedBefore(chain) && next <= n <= |chain| && next + |fetched| <= |chain|
    requires fetched == chain[next..next + |fetched|] && k <= |fetched|
    requires forall i: nat :: i < |fetched| ==> faults(i) == NoFault
    ensures DispatchAll(Project(chain, n), fetched, faults, k) ==
              (Project(chain, if next + k <= n then n else next + k), true)
  {
    if k > 0 {
      FaultlessTickCatchesUp(chain, n, next, fetched, faults, k - 1);
      FaultlessDispatch(chain, if next + (k - 1) <= n then n else next + (k - 1), next + (k - 1));
    }
  }
}
