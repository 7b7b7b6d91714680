/** What the validation of a template is for: with whole amounts, the escrow it describes can
    always be paid out, milestone by milestone, in any order. */
module TemplatePayout {
  import opened Wrappers
  import opened TemplateValidator
  import E = EscrowService

  /** Every integer up to here is a floating-point number of its own. */
  const EXACT := 0x20_0000_0000_0000

  function NatOf(digits: string): nat
    requires forall c :: c in digits ==> IsDigit(c)
  {
    if digits == [] then 0
    else
      var last := digits[|digits| - 1];
      assert IsDigit(last);
      10 * NatOf(digits[..|digits| - 1]) + (last as int - '0' as int)
  }

  predicate HasText(v: Value) { v.Text? || v.Num? || v.Other? }

  /** What `BigInt` makes of an amount: only digits are a whole number, a decimal point throws. */
  function BigIntOf(v: Value): Option<nat>
    requires HasText(v)
  {
    if AllDigits(Trim(v.text)) then Some(NatOf(Trim(v.text))) else None
  }

  predicate Whole(v: Value) {
    !Absent(v) && BigIntOf(v).Some? && BigIntOf(v).value < EXACT
  }

  predicate WholeMilestones(ms: seq<Milestone>) {
    forall i :: 0 <= i < |ms| ==> ms[i].Milestone? && Whole(ms[i].amount)
  }

  predicate WholeTemplate(t: Template) {
    Whole(t.totalAmount) && t.milestones.Some? && WholeMilestones(t.milestones.value)
  }

  /** `parseFloat` is exact on whole numbers below 2^53. */
  ghost predicate ParsesWhole(env: Env) {
    forall s :: AllDigits(s) && NatOf(s) < EXACT ==> env.parseFloat(s) == Finite(NatOf(s) as real)
  }

  /** Of the amounts the validator accepts, `BigInt` reads exactly those written without a
      decimal point. */
  lemma ReadableIffNoPoint(env: Env, v: Value)
    requires AmountOk(env, v)
    ensures BigIntOf(v).Some? <==> '.' !in Trim(v.text)
  {
    var s := Trim(v.text);
    if !AllDigits(s) {
      var dot :| 0 <= dot < |s| && s[dot] == '.' && AllDigits(s[..dot]) && AllDigits(s[dot + 1..]);
      assert s[dot] in s;
    }
  }

  lemma WholeAmount(env: Env, v: Value)
    requires ParsesWhole(env) && Whole(v) && AmountOk(env, v)
    ensures AmountOf(env, v) == Some(BigIntOf(v).value) && BigIntOf(v).value > 0
  {
    var n := BigIntOf(v).value;
    assert env.parseFloat(Trim(v.text)) == Finite(n as real);
    assert (n as real + 0.5).Floor == n;
  }

  // ---- Sums ---------------------------------------------------------------------------------

  function Sum(amounts: seq<int>): int {
    if amounts == [] then 0 else Sum(amounts[..|amounts| - 1]) + amounts[|amounts| - 1]
  }

  predicate Positions(order: seq<nat>, n: nat) {
    && (forall i :: 0 <= i < |order| ==> order[i] < n)
    && (forall i, j :: 0 <= i < j < |order| ==> order[i] != order[j])
  }

  /** The amounts at some positions. */
  function Picked(amounts: seq<int>, order: seq<nat>): int
    requires Positions(order, |amounts|)
  {
    if order == [] then 0 else Picked(amounts, order[..|order| - 1]) + amounts[order[|order| - 1]]
  }

  lemma {:induction false} SumWithout(amounts: seq<int>, k: nat)
    requires k < |amounts|
    ensures Sum(amounts[k := 0]) == Sum(amounts) - amounts[k]
  {
    var last := |amounts| - 1;
    if k == last {
      assert amounts[k := 0][..last] == amounts[..last];
    } else {
      assert amounts[k := 0][..last] == amounts[..last][k := 0];
      SumWithout(amounts[..last], k);
    }
  }

  lemma {:induction false} PickedWithout(amounts: seq<int>, order: seq<nat>, k: nat)
    requires Positions(order, |amounts|) && k < |amounts| && k !in order
    ensures Picked(amounts[k := 0], order) == Picked(amounts, order)
  {
    if order != [] {
      assert order[|order| - 1] in order;
      PickedWithout(amounts, order[..|order| - 1], k);
    }
  }

  lemma {:induction false} SumOfNothing(amounts: seq<int>)
    requires forall k :: 0 <= k < |amounts| ==> amounts[k] >= 0
    ensures Sum(amounts) >= 0
    ensures (forall k :: 0 <= k < |amounts| ==> amounts[k] == 0) ==> Sum(amounts) == 0
  {
    if amounts != [] { SumOfNothing(amounts[..|amounts| - 1]); }
  }

  /** Picking each position at most once never exceeds the sum, and gives it exactly when
      what was not picked is nothing. */
  lemma {:induction false} PickedWithinSum(amounts: seq<int>, order: seq<nat>)
    requires Positions(order, |amounts|) && forall k :: 0 <= k < |amounts| ==> amounts[k] >= 0
    ensures Picked(amounts, order) <= Sum(amounts)
    ensures (forall k :: 0 <= k < |amounts| && k !in order ==> amounts[k] == 0) ==>
              Picked(amounts, order) == Sum(amounts)
    decreases |order|
  {
    if order == [] {
      SumOfNothing(amounts);
    } else {
      var rest, k := order[..|order| - 1], order[|order| - 1];
      SumWithout(amounts, k);
      PickedWithout(amounts, rest, k);
      PickedWithinSum(amounts[k := 0], rest);
      assert forall j :: j in order ==> j in rest || j == k;
    }
  }

  // ---- Paying out ---------------------------------------------------------------------------

  /** Fund the escrow, then release the milestones at some positions. */
  function Payout(id: int, total: int, deadline: Option<int>, amounts: seq<int>, order: seq<nat>): (run: seq<E.Op>)
    requires Positions(order, |amounts|)
    ensures |run| == 1 + |order|
  {
    if order == [] then [E.Fund(id, total, deadline)]
    else
      var k := order[|order| - 1];
      Payout(id, total, deadline, amounts, order[..|order| - 1]) + [E.Release(id, k, amounts[k])]
  }

  ghost predicate AllSucceed(b: E.Books, run: seq<E.Op>) {
    forall n :: 0 < n <= |run| ==> E.Succeeds(b, run[..n])
  }

  lemma OneMoreSucceeds(b: E.Books, run: seq<E.Op>, op: E.Op)
    requires AllSucceed(b, run) && E.Execute(E.Final(b, run), op).Ok?
    ensures AllSucceed(b, run + [op]) && Ok(E.Final(b, run + [op])) == E.Execute(E.Final(b, run), op)
  {
    var all := run + [op];
    assert all[..|run|] == run;
    forall n | 0 < n <= |all| ensures E.Succeeds(b, all[..n]) {
      if n <= |run| { assert all[..n] == run[..n]; } else { assert all[..n] == all; }
    }
  }

  lemma FundingSucceeds(b: E.Books, id: int, total: int, deadline: Option<int>)
    requires id !in b.escrows
    ensures AllSucceed(b, [E.Fund(id, total, deadline)])
    ensures E.Final(b, [E.Fund(id, total, deadline)]) ==
              b.(escrows := b.escrows[id := E.Escrow(total, total, E.Active, deadline)])
  {
    var run := [E.Fund(id, total, deadline)];
    assert run[..0] == [];
    assert run[..1] == run;
    assert E.Final(b, []) == b;
  }

  /** A release that the balance covers. */
  lemma ReleaseSucceeds(b: E.Books, id: int, k: nat, amount: int)
    requires id in b.escrows && b.escrows[id].status == E.Active && amount <= b.escrows[id].remainingBalance
    requires (id, k) in b.milestones
    ensures var r := E.Execute(b, E.Release(id, k, amount));
            && r.Ok? && id in r.value.escrows
            && r.value.milestones == b.milestones[(id, k) := E.Approved]
            && r.value.escrows[id].remainingBalance == b.escrows[id].remainingBalance - amount
            && r.value.escrows[id].status == if b.escrows[id].remainingBalance == amount then E.Completed else E.Active
  {}

  /** What holds after funding and releasing the milestones at some positions. */
  ghost predicate PaidOut(b: E.Books, end: E.Books, id: int, left: int, order: seq<nat>) {
    && end.milestones.Keys == b.milestones.Keys
    && (forall k :: k in order ==> (id, k) in end.milestones && end.milestones[(id, k)] == E.Approved)
    && id in end.escrows
    && end.escrows[id].remainingBalance == left
    && end.escrows[id].status == if left == 0 then E.Completed else E.Active
  }

  /** Amounts that are positive and fit the total are paid out in any order without a failure;
      the escrow completes exactly when they use the total up. */
  lemma {:induction false} PayoutSucceeds(b: E.Books, id: int, total: int, deadline: Option<int>,
                                          amounts: seq<int>, order: seq<nat>)
    requires id !in b.escrows && forall k: nat :: k < |amounts| ==> (id, k) in b.milestones
    requires (forall k :: 0 <= k < |amounts| ==> amounts[k] > 0) && 0 < Sum(amounts) <= total
    requires Positions(order, |amounts|)
    ensures var run := Payout(id, total, deadline, amounts, order);
            AllSucceed(b, run) && PaidOut(b, E.Final(b, run), id, total - Picked(amounts, order), order)
  {
    if order == [] {
      FundingSucceeds(b, id, total, deadline);
    } else {
      var rest, k := order[..|order| - 1], order[|order| - 1];
      var run := Payout(id, total, deadline, amounts, rest);
      PayoutSucceeds(b, id, total, deadline, amounts, rest);
      PickedWithinSum(amounts, order);
      ReleaseSucceeds(E.Final(b, run), id, k, amounts[k]);
      OneMoreSucceeds(b, run, E.Release(id, k, amounts[k]));
      assert forall j :: j in order ==> j in rest || j == k;
    }
  }

  // ---- Templates ----------------------------------------------------------------------------

  function Amounts(ms: seq<Milestone>): seq<int>
    requires WholeMilestones(ms)
  {
    seq(|ms|, i requires 0 <= i < |ms| => BigIntOf(ms[i].amount).value)
  }

  lemma {:induction false} TotalIsSum(env: Env, ms: seq<Milestone>)
    requires ParsesWhole(env) && MilestonesOk(env, ms) && WholeMilestones(ms)
    ensures Total(env, ms) == Sum(Amounts(ms))
    ensures forall k :: 0 <= k < |ms| ==> Amounts(ms)[k] > 0
    ensures ms != [] ==> Sum(Amounts(ms)) > 0
  {
    if ms != [] {
      var rest, m := ms[..|ms| - 1], ms[|ms| - 1];
      FirstMilestonesOk(env, ms);
      TotalIsSum(env, rest);
      WholeAmount(env, m.amount);
      assert Amounts(ms)[..|ms| - 1] == Amounts(rest);
    }
  }

  lemma FirstMilestonesOk(env: Env, ms: seq<Milestone>)
    requires MilestonesOk(env, ms) && ms != []
    ensures MilestonesOk(env, ms[..|ms| - 1]) && MilestoneOk(env, ms[|ms| - 1])
  {
    var rest := ms[..|ms| - 1];
    forall i | 0 <= i < |rest| ensures MilestoneOk(env, rest[i]) { assert MilestoneOk(env, ms[i]); }
    forall i, j, index | 0 <= i < j < |rest| && HasIndex(env, rest[i], index) ensures !HasIndex(env, rest[j], index) {
      assert HasIndex(env, ms[i], index);
    }
  }

  /** A valid template of whole amounts: after funding its total, releasing milestones once
      each, in any order, never fails, and releasing all of them completes the escrow exactly
      when the milestones add up to the total. */
  lemma ValidTemplateCanBePaidOut(env: Env, t: Template, b: E.Books, id: int, deadline: Option<int>, order: seq<nat>)
    requires ParsesWhole(env) && ValidTemplate(env, t) && WholeTemplate(t)
    requires id !in b.escrows && forall k: nat :: k < |t.milestones.value| ==> (id, k) in b.milestones
    requires Positions(order, |t.milestones.value|)
    ensures var total, amounts := BigIntOf(t.totalAmount).value, Amounts(t.milestones.value);
            var run := Payout(id, total, deadline, amounts, order);
            && AllSucceed(b, run)
            && var end := E.Final(b, run);
            && id in end.escrows
            && end.escrows[id].remainingBalance == total - Picked(amounts, order) >= total - Sum(amounts) >= 0
            && (end.escrows[id].status == E.Completed <==> Picked(amounts, order) == total)
            && ((forall k :: 0 <= k < |amounts| ==> k in order) ==>
                  (end.escrows[id].status == E.Completed <==> Sum(amounts) == total))
  {
    var ms := t.milestones.value;
    WholeAmount(env, t.totalAmount);
    TotalIsSum(env, ms);
    PayoutSucceeds(b, id, BigIntOf(t.totalAmount).value, deadline, Amounts(ms), order);
    PickedWithinSum(Amounts(ms), order);
  }
}
