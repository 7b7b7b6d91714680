/** The expiry run: the query for escrows past their deadline, and the loop that expires each
    one in its own transaction, with other operations on the escrows in between. */
module ExpiryService {
  import opened Wrappers
  import opened EscrowService

  /** The query's condition; a positive `maxAge` leaves out deadlines older than that. */
  predicate Matches(e: Escrow, now: int, maxAge: int) {
    e.status == Active && e.deadline.Some? && e.deadline.value < now &&
    (maxAge > 0 ==> e.deadline.value >= now - maxAge)
  }

  /** What the database answers: distinct matching escrows, oldest deadline first, and all of
      them unless the batch is full. */
  ghost predicate IsAnswer(escrows: map<int, Escrow>, found: seq<int>, now: int, maxAge: int, batchSize: nat) {
    && |found| <= batchSize
    && (forall i :: 0 <= i < |found| ==> found[i] in escrows && Matches(escrows[found[i]], now, maxAge))
    && (forall i, j :: 0 <= i < j < |found| ==> found[i] != found[j])
    && (forall i, j :: 0 <= i < j < |found| ==> escrows[found[i]].deadline.value <= escrows[found[j]].deadline.value)
    && (|found| < batchSize ==> forall id :: id in escrows && Matches(escrows[id], now, maxAge) ==> id in found)
  }

  datatype Results = Results(processed: nat, succeeded: nat, failed: nat, skipped: nat)

  /** One turn of the loop: what others do to the escrows before its transaction, the clock that
      the transaction reads, and whether the database fails it. */
  datatype Turn = Turn(others: seq<Op>, at: int, fails: bool)

  /** Everything that happens to the escrows in the first `n` turns. */
  function RunUpTo(found: seq<int>, turns: seq<Turn>, n: nat): seq<Op>
    requires n <= |found| == |turns|
  {
    if n == 0 then []
    else
      RunUpTo(found, turns, n - 1) + turns[n - 1].others +
      if turns[n - 1].fails then [] else [Expire(found[n - 1], turns[n - 1].at)]
  }

  function AfterTurn(b: Books, id: int, t: Turn): Books { if t.fails then b else After(b, Expire(id, t.at)) }

  /** The books after the first `n` turns. */
  function BooksUpTo(start: Books, found: seq<int>, turns: seq<Turn>, n: nat): Books
    requires n <= |found| == |turns|
    decreases n, 0
  {
    if n == 0 then start else AfterTurn(BooksBefore(start, found, turns, n - 1), found[n - 1], turns[n - 1])
  }

  /** The books that the transaction of turn `n` finds. */
  function BooksBefore(start: Books, found: seq<int>, turns: seq<Turn>, n: nat): Books
    requires n < |found| == |turns|
    decreases n, 1
  {
    Final(BooksUpTo(start, found, turns, n), turns[n].others)
  }

  datatype Ending = Succeeded | Skipped | Failed

  /** How the transaction of a turn ends, given the books it finds. */
  function EndingOf(b: Books, id: int, t: Turn): Ending {
    if t.fails || id !in b.escrows then Failed
    else if OverdueIn(b, id, t.at) then Succeeded
    else Skipped
  }

  function EndingAt(start: Books, found: seq<int>, turns: seq<Turn>, n: nat): Ending
    requires n < |found| == |turns|
  {
    EndingOf(BooksBefore(start, found, turns, n), found[n], turns[n])
  }

  function Count(r: Results, e: Ending): Results {
    match e
    case Succeeded => r.(succeeded := r.succeeded + 1)
    case Skipped => r.(skipped := r.skipped + 1)
    case Failed => r.(failed := r.failed + 1)
  }

  function Tally(start: Books, found: seq<int>, turns: seq<Turn>, n: nat): Results
    requires n <= |found| == |turns|
  {
    if n == 0 then Results(|found|, 0, 0, 0)
    else Count(Tally(start, found, turns, n - 1), EndingAt(start, found, turns, n - 1))
  }

  lemma {:induction false} FinalAppend(b: Books, first: seq<Op>, more: seq<Op>)
    ensures Final(b, first + more) == Final(Final(b, first), more)
  {
    if more == [] {
      assert first + more == first;
    } else {
      FinalAppend(b, first, more[..|more| - 1]);
      assert (first + more)[..|first + more| - 1] == first + more[..|more| - 1];
    }
  }

  lemma FinalOne(b: Books, op: Op)
    ensures Final(b, [op]) == After(b, op)
  {
    assert [op][..0] == [] && Final(b, []) == b;
  }

  /** The turns make up a run of the escrow service. */
  lemma {:induction false} TurnsAreARun(start: Books, found: seq<int>, turns: seq<Turn>, n: nat)
    requires n <= |found| == |turns|
    ensures Final(start, RunUpTo(found, turns, n)) == BooksUpTo(start, found, turns, n)
  {
    if n > 0 {
      var t := turns[n - 1];
      var earlier, others := RunUpTo(found, turns, n - 1), t.others;
      var own := if t.fails then [] else [Expire(found[n - 1], t.at)];
      TurnsAreARun(start, found, turns, n - 1);
      FinalAppend(start, earlier + others, own);
      FinalAppend(start, earlier, others);
      if t.fails { assert own == []; } else { FinalOne(Final(start, earlier + others), own[0]); }
    }
  }

  /** Other requests, served one after the other. */
  method Serve(l: Ledger, ops: seq<Op>)
    modifies l
    ensures l.View() == Final(old(l.View()), ops)
  {
    for n := 0 to |ops|
      invariant l.View() == Final(old(l.View()), ops[..n])
    {
      assert ops[..n + 1][..n] == ops[..n];
      match ops[n] {
        case Fund(id, amount, deadline) => var _ := l.FundEscrow(id, amount, deadline);
        case Release(id, milestone, amount) => var _ := l.ReleaseMilestone(id, milestone, amount);
        case Raise(id, raisedBy, rejected) => var _ := l.RaiseDispute(id, raisedBy, rejected);
        case Resolve(id, clientAmount, freelancerAmount) =>
          var _ := l.ResolveDispute(id, clientAmount, freelancerAmount);
        case Expire(id, now) => var _ := l.ExpireEscrow(id, now);
      }
    }
    assert ops[..|ops|] == ops;
  }

  /** One failing transaction does not stop the others, and each escrow found counts once, by
      how its own transaction found it.  The run as a whole, with what others did meanwhile,
      is a run of the escrow service, so that all that holds of those holds of it. */
  method ProcessExpiredEscrows(l: Ledger, found: seq<int>, turns: seq<Turn>) returns (results: Results)
    requires |turns| == |found|
    modifies l
    ensures results == Tally(old(l.View()), found, turns, |found|)
    ensures l.View() == BooksUpTo(old(l.View()), found, turns, |found|)
    ensures l.View() == Final(old(l.View()), RunUpTo(found, turns, |found|))
  {
    results := Results(|found|, 0, 0, 0);
    for n := 0 to |found|
      invariant results == Tally(old(l.View()), found, turns, n)
      invariant l.View() == BooksUpTo(old(l.View()), found, turns, n)
    {
      Serve(l, turns[n].others);
      if turns[n].fails {
        results := results.(failed := results.failed + 1);
      } else {
        var r := l.ExpireEscrow(found[n], turns[n].at);
        if r == Ok(true) {
          results := results.(succeeded := results.succeeded + 1);
        } else if r == Ok(false) {
          results := results.(skipped := results.skipped + 1);
        } else {
          results := results.(failed := results.failed + 1);
        }
      }
    }
    TurnsAreARun(old(l.View()), found, turns, |found|);
  }

  lemma {:induction false} EveryEscrowCountsOnce(start: Books, found: seq<int>, turns: seq<Turn>, n: nat)
    requires n <= |found| == |turns|
    ensures var r := Tally(start, found, turns, n); r.processed == |found| && r.succeeded + r.failed + r.skipped == n
  {
    if n > 0 { EveryEscrowCountsOnce(start, found, turns, n - 1); }
  }

  // ---- Which escrows are cancelled -----------------------------------------------------------

  predicate NoExpiry(ops: seq<Op>) {
    forall i :: 0 <= i < |ops| ==> !ops[i].Expire?
  }

  /** Nothing but an expiry cancels, and a cancelled escrow stays. */
  lemma {:induction false} OnlyExpiryCancels(b: Books, ops: seq<Op>, id: int)
    requires id in b.escrows && NoExpiry(ops)
    ensures id in Final(b, ops).escrows
    ensures Final(b, ops).escrows[id].status == Cancelled <==> b.escrows[id].status == Cancelled
  {
    if ops != [] {
      OnlyExpiryCancels(b, ops[..|ops| - 1], id);
      assert !ops[|ops| - 1].Expire?;
    }
  }

  /** The escrow's own transaction went through, and found it active and past its deadline. */
  ghost predicate ExpiredByRun(start: Books, found: seq<int>, turns: seq<Turn>, n: nat, id: int)
    requires n <= |found| == |turns|
  {
    exists i :: 0 <= i < n && found[i] == id && !turns[i].fails &&
                OverdueIn(BooksBefore(start, found, turns, i), id, turns[i].at)
  }

  /** What the transaction of a turn does to any escrow. */
  lemma TransactionOn(b: Books, id: int, t: Turn, k: int)
    ensures k in AfterTurn(b, id, t).escrows <==> k in b.escrows
    ensures k in b.escrows ==>
              AfterTurn(b, id, t).escrows[k] ==
                if k == id && EndingOf(b, id, t) == Succeeded then b.escrows[k].(status := Cancelled) else b.escrows[k]
  {}

  lemma ExpiredByOneMore(start: Books, found: seq<int>, turns: seq<Turn>, n: nat, id: int)
    requires n < |found| == |turns|
    ensures ExpiredByRun(start, found, turns, n + 1, id) <==>
              ExpiredByRun(start, found, turns, n, id) ||
              (found[n] == id && EndingAt(start, found, turns, n) == Succeeded)
  {
    if found[n] == id && EndingAt(start, found, turns, n) == Succeeded {
      assert ExpiredByRun(start, found, turns, n + 1, id);
    }
    if ExpiredByRun(start, found, turns, n, id) {
      var i :| 0 <= i < n && found[i] == id && !turns[i].fails &&
        OverdueIn(BooksBefore(start, found, turns, i), id, turns[i].at);
      assert ExpiredByRun(start, found, turns, n + 1, id);
    }
  }

  lemma TurnCancelsIff(b: Books, found: int, t: Turn, id: int)
    requires id in b.escrows && NoExpiry(t.others)
    ensures var before := Final(b, t.others); var after := AfterTurn(before, found, t);
            id in after.escrows &&
            (after.escrows[id].status == Cancelled <==>
               b.escrows[id].status == Cancelled || (found == id && EndingOf(before, found, t) == Succeeded))
  {
    OnlyExpiryCancels(b, t.others, id);
    TransactionOn(Final(b, t.others), found, t, id);
  }

  /** Exactly the escrows are cancelled whose own transaction found them still active and past
      their deadline, whatever others, short of another expiry, did before, between and after. */
  lemma {:induction false} CancelledIffExpired(start: Books, found: seq<int>, turns: seq<Turn>, n: nat, id: int)
    requires n <= |found| == |turns| && forall i :: 0 <= i < |turns| ==> NoExpiry(turns[i].others)
    requires id in start.escrows && start.escrows[id].status != Cancelled
    ensures var b := BooksUpTo(start, found, turns, n);
            id in b.escrows && (b.escrows[id].status == Cancelled <==> ExpiredByRun(start, found, turns, n, id))
  {
    if n > 0 {
      CancelledIffExpired(start, found, turns, n - 1, id);
      TurnCancelsIff(BooksUpTo(start, found, turns, n - 1), found[n - 1], turns[n - 1], id);
      ExpiredByOneMore(start, found, turns, n - 1, id);
    }
  }

  /** A transaction that does not succeed changes nothing: an escrow that was completed or
      disputed after it was found is left as it is. */
  lemma SkippedTurnChangesNothing(start: Books, found: seq<int>, turns: seq<Turn>, n: nat)
    requires n < |found| == |turns| && EndingAt(start, found, turns, n) != Succeeded
    ensures BooksUpTo(start, found, turns, n + 1) == BooksBefore(start, found, turns, n)
  {
  }

  // ---- A run on its own ------------------------------------------------------------------------

  predicate Undisturbed(turns: seq<Turn>, now: int) {
    forall i :: 0 <= i < |turns| ==> turns[i].others == [] && turns[i].at >= now && !turns[i].fails
  }

  lemma UndisturbedTurn(start: Books, found: seq<int>, turns: seq<Turn>, now: int, n: nat, id: int)
    requires n < |found| == |turns| && Undisturbed(turns, now)
    ensures var b, b' := BooksUpTo(start, found, turns, n), BooksUpTo(start, found, turns, n + 1);
            && EndingAt(start, found, turns, n) == EndingOf(b, found[n], turns[n])
            && (id in b'.escrows <==> id in b.escrows)
            && (id in b.escrows ==>
                  b'.escrows[id] == if id == found[n] && EndingOf(b, found[n], turns[n]) == Succeeded
                                    then b.escrows[id].(status := Cancelled) else b.escrows[id])
  {
    TransactionOn(BooksUpTo(start, found, turns, n), found[n], turns[n], id);
  }

  /** So far exactly the escrows found are cancelled, and nothing else has changed. */
  ghost predicate ExpiredSoFar(start: Books, b: Books, found: seq<int>, n: nat, id: int)
    requires n <= |found|
  {
    && (id in b.escrows <==> id in start.escrows)
    && (id in start.escrows ==>
          b.escrows[id] ==
            if FoundBefore(found, n, id) then start.escrows[id].(status := Cancelled) else start.escrows[id])
  }

  lemma FoundOneMore(found: seq<int>, n: nat, id: int)
    requires n < |found|
    ensures FoundBefore(found, n + 1, id) <==> FoundBefore(found, n, id) || found[n] == id
  {
    if found[n] == id { assert FoundBefore(found, n + 1, id); }
  }

  /** The next escrow found is still as it was, so that its turn succeeds. */
  lemma UndisturbedTurnSucceeds(start: Books, found: seq<int>, turns: seq<Turn>, now: int, maxAge: int,
      batchSize: nat, n: nat)
    requires n < |found| == |turns| && IsAnswer(start.escrows, found, now, maxAge, batchSize) && Undisturbed(turns, now)
    requires ExpiredSoFar(start, BooksUpTo(start, found, turns, n), found, n, found[n])
    ensures EndingOf(BooksUpTo(start, found, turns, n), found[n], turns[n]) == Succeeded
  {
    assert !FoundBefore(found, n, found[n]);
    assert Matches(start.escrows[found[n]], now, maxAge) && turns[n].at >= now && !turns[n].fails;
  }

  lemma OneMoreExpired(start: Books, b: Books, b': Books, found: seq<int>, n: nat, id: int)
    requires n < |found| && ExpiredSoFar(start, b, found, n, id)
    requires id in b'.escrows <==> id in b.escrows
    requires id in b.escrows ==>
               b'.escrows[id] == if id == found[n] then b.escrows[id].(status := Cancelled) else b.escrows[id]
    ensures ExpiredSoFar(start, b', found, n + 1, id)
  {
    FoundOneMore(found, n, id);
  }

  lemma {:induction false} UndisturbedRunExpiresAll(start: Books, found: seq<int>, turns: seq<Turn>, now: int,
                                                    maxAge: int, batchSize: nat, n: nat, id: int)
    requires n <= |found| == |turns| && IsAnswer(start.escrows, found, now, maxAge, batchSize) &&
              Undisturbed(turns, now)
    ensures ExpiredSoFar(start, BooksUpTo(start, found, turns, n), found, n, id)
    ensures Tally(start, found, turns, n).succeeded == n
  {
    if n > 0 {
      UndisturbedRunExpiresAll(start, found, turns, now, maxAge, batchSize, n - 1, id);
      UndisturbedRunExpiresAll(start, found, turns, now, maxAge, batchSize, n - 1, found[n - 1]);
      UndisturbedTurnSucceeds(start, found, turns, now, maxAge, batchSize, n - 1);
      UndisturbedTurn(start, found, turns, now, n - 1, id);
      OneMoreExpired(start, BooksUpTo(start, found, turns, n - 1), BooksUpTo(start, found, turns, n), found, n - 1, id);
    }
  }

  predicate FoundBefore(found: seq<int>, n: nat, id: int)
    requires n <= |found|
  {
    exists i :: 0 <= i < n && found[i] == id
  }

  /** With nothing else going on, a run with room left in its batch expires all it found, and
      leaves no match behind. */
  lemma UndisturbedRunLeavesNoMatch(start: Books, found: seq<int>, turns: seq<Turn>, now: int,
                                    maxAge: int, batchSize: nat)
    requires |found| == |turns| && IsAnswer(start.escrows, found, now, maxAge, batchSize) && Undisturbed(turns, now)
    requires |found| < batchSize
    ensures Tally(start, found, turns, |found|) == Results(|found|, |found|, 0, 0)
    ensures var b := BooksUpTo(start, found, turns, |found|);
            forall id :: id in b.escrows ==> !Matches(b.escrows[id], now, maxAge)
  {
    var b := BooksUpTo(start, found, turns, |found|);
    UndisturbedRunExpiresAll(start, found, turns, now, maxAge, batchSize, |found|, 0);
    EveryEscrowCountsOnce(start, found, turns, |found|);
    forall id | id in b.escrows ensures !Matches(b.escrows[id], now, maxAge) {
      UndisturbedRunExpiresAll(start, found, turns, now, maxAge, batchSize, |found|, id);
    }
  }
}
