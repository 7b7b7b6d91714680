/** Escrow money: funding, releasing milestones, disputes, and expiry, each one atomic
    transaction on the escrow, milestone and dispute rows. */
module EscrowService {
  import opened Wrappers

  datatype Status = Active | Disputed | Completed | Cancelled

  datatype MilestoneStatus = Pending | Submitted | Approved | Rejected

  datatype Escrow = Escrow(totalAmount: int, remainingBalance: int, status: Status, deadline: Option<int>)

  datatype Settlement = Settlement(clientAmount: int, freelancerAmount: int)

  datatype Dispute = Dispute(raisedBy: string, settlement: Option<Settlement>)

  datatype Books = Books(
    escrows: map<int, Escrow>, milestones: map<(int, int), MilestoneStatus>, disputes: map<int, Dispute>)

  datatype Error = NotFound | Duplicate | NotActive | InsufficientBalance | NotDisputed | WrongSum

  datatype Op =
    | Fund(id: int, amount: int, deadline: Option<int>)
    | Release(id: int, milestone: int, amount: int)
    | Raise(id: int, raisedBy: string, rejected: Option<int>)
    | Resolve(id: int, clientAmount: int, freelancerAmount: int)
    | Expire(id: int, now: int)

  /** An operation's effect: the new books, or the error that rolled it back.  An expiry
      that finds nothing to do succeeds and changes nothing. */
  function Execute(b: Books, op: Op): Result<Books, Error> {
    match op
    case Fund(id, amount, deadline) =>
      if id in b.escrows then Err(Duplicate)
      else Ok(b.(escrows := b.escrows[id := Escrow(amount, amount, Active, deadline)]))
    case Release(id, milestone, amount) =>
      if id !in b.escrows then Err(NotFound)
      else
        var e := b.escrows[id];
        var newBalance := e.remainingBalance - amount;
        if e.status != Active then Err(NotActive)
        else if newBalance < 0 then Err(InsufficientBalance)
        else if (id, milestone) !in b.milestones then Err(NotFound)
        else Ok(b.(milestones := b.milestones[(id, milestone) := Approved],
                   escrows := b.escrows[id := e.(remainingBalance := newBalance,
                                                 status := if newBalance == 0 then Completed else Active)]))
    case Raise(id, raisedBy, rejected) =>
      if id !in b.escrows then Err(NotFound)
      else if b.escrows[id].status != Active then Err(NotActive)
      else if id in b.disputes then Err(Duplicate)
      else Ok(b.(escrows := b.escrows[id := b.escrows[id].(status := Disputed)],
                 disputes := b.disputes[id := Dispute(raisedBy, None)],
                 milestones := if rejected.Some? && (id, rejected.value) in b.milestones
                               then b.milestones[(id, rejected.value) := Rejected] else b.milestones))
    case Resolve(id, clientAmount, freelancerAmount) =>
      if id !in b.escrows then Err(NotFound)
      else if b.escrows[id].status != Disputed then Err(NotDisputed)
      else if clientAmount + freelancerAmount != b.escrows[id].remainingBalance then Err(WrongSum)
      else if id !in b.disputes then Err(NotFound)
      else Ok(b.(escrows := b.escrows[id := b.escrows[id].(status := Completed, remainingBalance := 0)],
                 disputes := b.disputes[id := b.disputes[id].(
                   settlement := Some(Settlement(clientAmount, freelancerAmount)))]))
    case Expire(id, now) =>
      if id !in b.escrows then Err(NotFound)
      else if !Expires(b.escrows[id], now) then Ok(b)
      else Ok(b.(escrows := b.escrows[id := b.escrows[id].(status := Cancelled)]))
  }

  /** Active, and past a deadline. */
  predicate Expires(e: Escrow, now: int) {
    e.status == Active && e.deadline.Some? && e.deadline.value < now
  }

  function After(b: Books, op: Op): Books {
    match Execute(b, op)
    case Ok(b') => b'
    case Err(_) => b
  }

  class Ledger {
    var escrows: map<int, Escrow>
    var milestones: map<(int, int), MilestoneStatus>
    var disputes: map<int, Dispute>

    ghost function View(): Books
      reads this
    {
      Books(escrows, milestones, disputes)
    }

    method FundEscrow(id: int, amount: int, deadline: Option<int>) returns (r: Result<Escrow, Error>)
      modifies this
      ensures View() == After(old(View()), Fund(id, amount, deadline))
      ensures r.Ok? <==> Execute(old(View()), Fund(id, amount, deadline)).Ok?
      ensures r.Ok? ==> id in escrows && r.value == escrows[id]
    {
      if id in escrows { return Err(Duplicate); }
      var escrow := Escrow(amount, amount, Active, deadline);
      escrows := escrows[id := escrow];
      return Ok(escrow);
    }

    method ReleaseMilestone(id: int, milestone: int, amount: int) returns (r: Result<Escrow, Error>)
      modifies this
      ensures View() == After(old(View()), Release(id, milestone, amount))
      ensures r.Err? <==> Execute(old(View()), Release(id, milestone, amount)).Err?
      ensures r.Err? ==> r.error == Execute(old(View()), Release(id, milestone, amount)).error
    {
      if id !in escrows { return Err(NotFound); }
      var escrow := escrows[id];
      if escrow.status != Active { return Err(NotActive); }
      var newBalance := escrow.remainingBalance - amount;
      if newBalance < 0 { return Err(InsufficientBalance); }
      if (id, milestone) !in milestones { return Err(NotFound); }
      milestones := milestones[(id, milestone) := Approved];
      escrow := escrow.(remainingBalance := newBalance);
      if newBalance == 0 { escrow := escrow.(status := Completed); }
      escrows := escrows[id := escrow];
      return Ok(escrow);
    }

    method RaiseDispute(id: int, raisedBy: string, rejected: Option<int>) returns (r: Result<Dispute, Error>)
      modifies this
      ensures View() == After(old(View()), Raise(id, raisedBy, rejected))
      ensures r.Err? <==> Execute(old(View()), Raise(id, raisedBy, rejected)).Err?
      ensures r.Err? ==> r.error == Execute(old(View()), Raise(id, raisedBy, rejected)).error
    {
      if id !in escrows { return Err(NotFound); }
      if escrows[id].status != Active { return Err(NotActive); }
      if id in disputes { return Err(Duplicate); }
      escrows := escrows[id := escrows[id].(status := Disputed)];
      disputes := disputes[id := Dispute(raisedBy, None)];
      if rejected.Some? && (id, rejected.value) in milestones {
        milestones := milestones[(id, rejected.value) := Rejected];
      }
      return Ok(disputes[id]);
    }

    method ResolveDispute(id: int, clientAmount: int, freelancerAmount: int) returns (r: Result<Dispute, Error>)
      modifies this
      ensures View() == After(old(View()), Resolve(id, clientAmount, freelancerAmount))
      ensures r.Err? <==> Execute(old(View()), Resolve(id, clientAmount, freelancerAmount)).Err?
      ensures r.Err? ==> r.error == Execute(old(View()), Resolve(id, clientAmount, freelancerAmount)).error
    {
      if id !in escrows { return Err(NotFound); }
      var escrow := escrows[id];
      if escrow.status != Disputed { return Err(NotDisputed); }
      var total := clientAmount + freelancerAmount;
      if total != escrow.remainingBalance { return Err(WrongSum); }
      if id !in disputes { return Err(NotFound); }
      escrows := escrows[id := escrow.(status := Completed, remainingBalance := 0)];
      disputes := disputes[id := disputes[id].(settlement := Some(Settlement(clientAmount, freelancerAmount)))];
      return Ok(disputes[id]);
    }

    /** The result says whether the escrow was expired; an escrow no longer active, or not
        past its deadline, is skipped. */
    method ExpireEscrow(id: int, now: int) returns (r: Result<bool, Error>)
      modifies this
      ensures View() == After(old(View()), Expire(id, now))
      ensures r == if id !in old(escrows) then Err(NotFound) else Ok(Expires(old(escrows)[id], now))
    {
      if id !in escrows { return Err(NotFound); }
      var current := escrows[id];
      if current.status != Active { return Ok(false); }
      if current.deadline.None? || current.deadline.value >= now { return Ok(false); }
      escrows := escrows[id := current.(status := Cancelled)];
      return Ok(true);
    }
  }

  // ---- Runs --------------------------------------------------------------------------------

  const EMPTY := Books(map[], map[], map[])

  /** The books after a run.  Milestone rows come from elsewhere, so they start as given. */
  function Final(start: Books, run: seq<Op>): Books {
    if run == [] then start else After(Final(start, run[..|run| - 1]), run[|run| - 1])
  }

  ghost predicate NoMoneyYet(start: Books) {
    start.escrows == map[] && start.disputes == map[]
  }

  predicate Succeeds(start: Books, run: seq<Op>)
    requires run != []
  {
    Execute(Final(start, run[..|run| - 1]), run[|run| - 1]).Ok?
  }

  /** Paid out of escrow `id` to its freelancer by the successful releases of a run. */
  function Released(start: Books, run: seq<Op>, id: int): int {
    if run == [] then 0
    else
      var op := run[|run| - 1];
      Released(start, run[..|run| - 1], id) +
      if op.Release? && op.id == id && Succeeds(start, run) then op.amount else 0
  }

  /** Paid out of escrow `id` to both parties by successful resolutions. */
  function Settled(start: Books, run: seq<Op>, id: int): int {
    if run == [] then 0
    else
      var op := run[|run| - 1];
      Settled(start, run[..|run| - 1], id) +
      if op.Resolve? && op.id == id && Succeeds(start, run) then op.clientAmount + op.freelancerAmount else 0
  }

  /** How often a dispute was raised on escrow `id`. */
  function Raised(start: Books, run: seq<Op>, id: int): nat {
    if run == [] then 0
    else
      Raised(start, run[..|run| - 1], id) +
      if run[|run| - 1].Raise? && run[|run| - 1].id == id && Succeeds(start, run) then 1 else 0
  }

  /** The one operation whose amount matters to the sign of a balance. */
  predicate FundsPositively(op: Op) {
    op.Fund? ==> op.amount > 0
  }

  predicate Sound(e: Escrow) {
    && e.remainingBalance >= 0
    && (e.status == Active || e.status == Disputed ==> e.remainingBalance > 0)
    && (e.status == Completed ==> e.remainingBalance == 0)
  }

  lemma StepIsSound(b: Books, op: Op, id: int)
    requires FundsPositively(op) && (id in b.escrows ==> Sound(b.escrows[id]))
    ensures var b' := After(b, op);
            && (id in b'.escrows ==> Sound(b'.escrows[id]))
            && (id in b.escrows ==> id in b'.escrows)
  {}

  /** In every reachable state no balance is negative, an active or disputed escrow holds
      something, and a completed one nothing. */
  lemma {:induction false} BalancesAreSound(start: Books, run: seq<Op>, id: int)
    requires NoMoneyYet(start) && forall op | op in run :: FundsPositively(op)
    ensures var b := Final(start, run); id in b.escrows ==> Sound(b.escrows[id])
  {
    if run != [] {
      assert run[|run| - 1] in run && forall op | op in run[..|run| - 1] :: op in run;
      BalancesAreSound(start, run[..|run| - 1], id);
      StepIsSound(Final(start, run[..|run| - 1]), run[|run| - 1], id);
    }
  }

  /** What a step pays out of an escrow is what leaves its balance. */
  lemma StepConserves(b: Books, op: Op, id: int)
    requires id in b.escrows
    ensures var b' := After(b, op);
            && id in b'.escrows && b'.escrows[id].totalAmount == b.escrows[id].totalAmount
            && b'.escrows[id].remainingBalance == b.escrows[id].remainingBalance - PaidBy(b, op, id)
  {}

  function PaidBy(b: Books, op: Op, id: int): int {
    if op.id != id || Execute(b, op).Err? then 0
    else match op
      case Release(_, _, amount) => amount
      case Resolve(_, clientAmount, freelancerAmount) => clientAmount + freelancerAmount
      case _ => 0
  }

  lemma NothingPaidWithoutEscrow(b: Books, op: Op, id: int)
    requires id !in b.escrows
    ensures PaidBy(b, op, id) == 0
    ensures var b' := After(b, op); id in b'.escrows ==> b'.escrows[id].remainingBalance == b'.escrows[id].totalAmount
  {}

  /** Conservation, over every run and whatever the amounts: what an escrow was funded with
      is what it still holds, was released, and was settled. */
  lemma {:induction false} MoneyIsConserved(start: Books, run: seq<Op>, id: int)
    requires NoMoneyYet(start)
    ensures var b := Final(start, run); var paid := Released(start, run, id) + Settled(start, run, id);
            if id in b.escrows then b.escrows[id].totalAmount == b.escrows[id].remainingBalance + paid else paid == 0
  {
    if run != [] {
      var b, op := Final(start, run[..|run| - 1]), run[|run| - 1];
      MoneyIsConserved(start, run[..|run| - 1], id);
      if id in b.escrows { StepConserves(b, op, id); } else { NothingPaidWithoutEscrow(b, op, id); }
    }
  }

  lemma EndedStepStays(b: Books, op: Op, id: int)
    requires id in b.escrows && b.escrows[id].status in {Completed, Cancelled}
    ensures id in After(b, op).escrows && After(b, op).escrows[id] == b.escrows[id]
  {}

  /** Completed and Cancelled are absorbing: nothing changes such an escrow again. */
  lemma {:induction false} EndedStays(b: Books, run: seq<Op>, id: int)
    requires id in b.escrows && b.escrows[id].status in {Completed, Cancelled}
    ensures id in Final(b, run).escrows && Final(b, run).escrows[id] == b.escrows[id]
  {
    if run != [] {
      EndedStays(b, run[..|run| - 1], id);
      EndedStepStays(Final(b, run[..|run| - 1]), run[|run| - 1], id);
    }
  }

  /** A dispute row exists exactly for the escrows on which a dispute was ever raised, which
      happens at most once, and an escrow under dispute has one that is not settled. */
  lemma {:induction false} DisputedAtMostOnce(start: Books, run: seq<Op>, id: int)
    requires NoMoneyYet(start)
    ensures Raised(start, run, id) <= 1
    ensures var b := Final(start, run);
            && (id in b.disputes <==> Raised(start, run, id) == 1)
            && (id in b.disputes ==> id in b.escrows && b.escrows[id].status in {Disputed, Completed})
            && (id in b.escrows && b.escrows[id].status == Disputed ==> id in b.disputes)
  {
    if run != [] {
      DisputedAtMostOnce(start, run[..|run| - 1], id);
      RaiseStep(Final(start, run[..|run| - 1]), run[|run| - 1], id);
    }
  }

  lemma RaiseStep(b: Books, op: Op, id: int)
    requires id in b.disputes ==> id in b.escrows && b.escrows[id].status in {Disputed, Completed}
    requires id in b.escrows && b.escrows[id].status == Disputed ==> id in b.disputes
    ensures var b' := After(b, op);
            && (id in b'.disputes <==> id in b.disputes || (op.Raise? && op.id == id && Execute(b, op).Ok?))
            && (op.Raise? && op.id == id && Execute(b, op).Ok? ==> id !in b.disputes)
            && (id in b'.disputes ==> id in b'.escrows && b'.escrows[id].status in {Disputed, Completed})
            && (id in b'.escrows && b'.escrows[id].status == Disputed ==> id in b'.disputes)
  {}

  // ---- What the rows say of a run, from its operations alone -------------------------------------

  /** Who was given what by the resolution of the dispute on escrow `id`, if any. */
  function ResolvedTo(start: Books, run: seq<Op>, id: int): Option<Settlement> {
    if run == [] then None
    else
      var op := run[|run| - 1];
      if op.Resolve? && op.id == id && Succeeds(start, run) then Some(Settlement(op.clientAmount, op.freelancerAmount))
      else ResolvedTo(start, run[..|run| - 1], id)
  }

  function RaisedBy(start: Books, run: seq<Op>, id: int): Option<string> {
    if run == [] then None
    else
      var op := run[|run| - 1];
      if op.Raise? && op.id == id && Succeeds(start, run) then Some(op.raisedBy)
      else RaisedBy(start, run[..|run| - 1], id)
  }

  lemma DisputeStep(b: Books, op: Op, id: int)
    ensures var b' := After(b, op); var ok := Execute(b, op).Ok? && op.id == id;
            && (id in b'.disputes <==> id in b.disputes || (ok && op.Raise?))
            && (ok && op.Raise? ==> id !in b.disputes && b'.disputes[id] == Dispute(op.raisedBy, None))
            && (ok && op.Resolve? ==>
                  id in b.disputes &&
                  b'.disputes[id] ==
                    Dispute(b.disputes[id].raisedBy, Some(Settlement(op.clientAmount, op.freelancerAmount))))
            && (id in b.disputes && !(ok && op.Resolve?) ==> b'.disputes[id] == b.disputes[id])
  {}

  /** A dispute row names who raised it, and its settlement gives the client and the freelancer
      what the resolution that went through said, each in their role. */
  lemma {:induction false} DisputeIsAsResolved(start: Books, run: seq<Op>, id: int)
    requires NoMoneyYet(start)
    ensures var b, raiser := Final(start, run), RaisedBy(start, run, id);
            && (id in b.disputes <==> raiser.Some?)
            && (raiser.Some? ==> b.disputes[id] == Dispute(raiser.value, ResolvedTo(start, run, id)))
            && (raiser.None? ==> ResolvedTo(start, run, id).None?)
  {
    if run != [] {
      DisputeIsAsResolved(start, run[..|run| - 1], id);
      DisputeStep(Final(start, run[..|run| - 1]), run[|run| - 1], id);
    }
  }

  /** The amount and deadline that escrow `id` was funded with. */
  function FundedWith(start: Books, run: seq<Op>, id: int): Option<(int, Option<int>)> {
    if run == [] then None
    else
      var op := run[|run| - 1];
      if op.Fund? && op.id == id && Succeeds(start, run) then Some((op.amount, op.deadline))
      else FundedWith(start, run[..|run| - 1], id)
  }

  lemma FundingStep(b: Books, op: Op, id: int)
    ensures var b' := After(b, op); var funds := op.Fund? && op.id == id && Execute(b, op).Ok?;
            && (id in b'.escrows <==> id in b.escrows || funds)
            && (funds ==> id !in b.escrows && b'.escrows[id].totalAmount == op.amount &&
                          b'.escrows[id].deadline == op.deadline)
            && (id in b.escrows ==> b'.escrows[id].totalAmount == b.escrows[id].totalAmount &&
                                    b'.escrows[id].deadline == b.escrows[id].deadline)
  {}

  /** An escrow keeps the amount and the deadline it was funded with. */
  lemma {:induction false} EscrowIsAsFunded(start: Books, run: seq<Op>, id: int)
    requires NoMoneyYet(start)
    ensures var b, funded := Final(start, run), FundedWith(start, run, id);
            && (id in b.escrows <==> funded.Some?)
            && (funded.Some? ==> b.escrows[id].totalAmount == funded.value.0 &&
                                 b.escrows[id].deadline == funded.value.1)
  {
    if run != [] {
      EscrowIsAsFunded(start, run[..|run| - 1], id);
      FundingStep(Final(start, run[..|run| - 1]), run[|run| - 1], id);
    }
  }

  /** The milestone status an operation sets: a release approves its milestone, a dispute rejects
      the one it names. */
  function SetTo(op: Op, id: int, milestone: int): Option<MilestoneStatus> {
    if op.id != id then None
    else if op.Release? && op.milestone == milestone then Some(Approved)
    else if op.Raise? && op.rejected == Some(milestone) then Some(Rejected)
    else None
  }

  function LastSet(start: Books, run: seq<Op>, id: int, milestone: int): Option<MilestoneStatus> {
    if run == [] then None
    else
      var op := run[|run| - 1];
      if SetTo(op, id, milestone).Some? && Succeeds(start, run) then SetTo(op, id, milestone)
      else LastSet(start, run[..|run| - 1], id, milestone)
  }

  lemma MilestoneStep(b: Books, op: Op, id: int, milestone: int)
    ensures var b', k, to := After(b, op), (id, milestone), SetTo(op, id, milestone);
            && (k in b'.milestones <==> k in b.milestones)
            && (k in b.milestones ==>
                  b'.milestones[k] == if to.Some? && Execute(b, op).Ok? then to.value else b.milestones[k])
  {}

  /** Milestone rows stay, each with the status set by the last operation on it that went
      through. */
  lemma {:induction false} MilestoneIsAsLastSet(start: Books, run: seq<Op>, id: int, milestone: int)
    ensures var b, k, last := Final(start, run), (id, milestone), LastSet(start, run, id, milestone);
            && (k in b.milestones <==> k in start.milestones)
            && (k in b.milestones ==> b.milestones[k] == if last.Some? then last.value else start.milestones[k])
  {
    if run != [] {
      MilestoneIsAsLastSet(start, run[..|run| - 1], id, milestone);
      MilestoneStep(Final(start, run[..|run| - 1]), run[|run| - 1], id, milestone);
    }
  }

  /** Escrow `id` was active and past its deadline when some expiry of the run came to it. */
  ghost predicate FoundOverdue(start: Books, run: seq<Op>, id: int) {
    exists i :: 0 <= i < |run| && run[i].Expire? && run[i].id == id && OverdueIn(Final(start, run[..i]), id, run[i].now)
  }

  predicate OverdueIn(b: Books, id: int, now: int) {
    && id in b.escrows && b.escrows[id].status == Active
    && b.escrows[id].deadline.Some? && b.escrows[id].deadline.value < now
  }

  lemma CancelStep(b: Books, op: Op, id: int)
    ensures var b' := After(b, op);
            (id in b'.escrows && b'.escrows[id].status == Cancelled) <==>
              (id in b.escrows && b.escrows[id].status == Cancelled) ||
              (op.Expire? && op.id == id && OverdueIn(b, id, op.now))
  {}

  lemma OverdueAppend(start: Books, run: seq<Op>, id: int)
    requires run != []
    ensures var init, op := run[..|run| - 1], run[|run| - 1];
            FoundOverdue(start, run, id) <==>
              FoundOverdue(start, init, id) || (op.Expire? && op.id == id && OverdueIn(Final(start, init), id, op.now))
  {
    var init := run[..|run| - 1];
    assert forall i :: 0 <= i < |init| ==> init[i] == run[i] && init[..i] == run[..i];
    if FoundOverdue(start, init, id) {
      var i :| 0 <= i < |init| && init[i].Expire? && init[i].id == id &&
        OverdueIn(Final(start, init[..i]), id, init[i].now);
      assert OverdueIn(Final(start, run[..i]), id, run[i].now);
    }
  }

  /** An escrow is cancelled exactly when some expiry found it active and past its deadline. */
  lemma {:induction false} CancelledIffFoundOverdue(start: Books, run: seq<Op>, id: int)
    requires NoMoneyYet(start)
    ensures var b := Final(start, run);
            id in b.escrows && b.escrows[id].status == Cancelled <==> FoundOverdue(start, run, id)
  {
    if run != [] {
      CancelledIffFoundOverdue(start, run[..|run| - 1], id);
      CancelStep(Final(start, run[..|run| - 1]), run[|run| - 1], id);
      OverdueAppend(start, run, id);
    }
  }

  /** In every reachable state: a milestone is released exactly when its escrow is active and has
      the amount, a dispute raised exactly when the escrow is active, and resolved exactly when
      it is disputed and the two amounts make up the balance.  No other row stands in the way. */
  lemma GoesThroughIff(start: Books, run: seq<Op>, op: Op)
    requires NoMoneyYet(start)
    ensures var b := Final(start, run); var ok := Execute(b, op).Ok?;
            && (op.Fund? ==> (ok <==> op.id !in b.escrows))
            && (op.Release? ==>
                  (ok <==> op.id in b.escrows && b.escrows[op.id].status == Active &&
                           op.amount <= b.escrows[op.id].remainingBalance && (op.id, op.milestone) in start.milestones))
            && (op.Raise? ==> (ok <==> op.id in b.escrows && b.escrows[op.id].status == Active))
            && (op.Resolve? ==>
                  (ok <==> op.id in b.escrows && b.escrows[op.id].status == Disputed &&
                           op.clientAmount + op.freelancerAmount == b.escrows[op.id].remainingBalance))
            && (op.Expire? ==> (ok <==> op.id in b.escrows))
  {
    DisputedAtMostOnce(start, run, op.id);
    if op.Release? { MilestoneIsAsLastSet(start, run, op.id, op.milestone); }
  }
}
