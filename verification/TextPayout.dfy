/** Amounts are stored and passed as texts, and a release reads them with `BigInt`: exactly
    when the escrow of a valid template can be paid out, for any rounding of `parseFloat`. */
module TextPayout {
  import opened Wrappers
  import opened TemplateValidator
  import opened TemplatePayout
  import E = EscrowService

  /** The escrow's row as far as releases go. */
  datatype Account = Account(remainingBalance: string, status: E.Status)

  datatype Trouble = NotActive | NotABigInt | InsufficientBalance

  // ---- Texts and numbers --------------------------------------------------------------------

  /** `BigInt` on the texts that a validated amount or a printed number can be. */
  function BigIntText(s: string): Option<nat> {
    if AllDigits(Trim(s)) then Some(NatOf(Trim(s))) else None
  }

  function Digit(d: nat): char
    requires d < 10
  {
    ('0' as int + d) as char
  }

  /** `String` of a whole number. */
  function Decimal(n: nat): string {
    if n < 10 then [Digit(n)] else Decimal(n / 10) + [Digit(n % 10)]
  }

  lemma NatOfAppend(s: string, d: nat)
    requires d < 10 && forall c :: c in s ==> IsDigit(c)
    ensures forall c :: c in s + [Digit(d)] ==> IsDigit(c)
    ensures NatOf(s + [Digit(d)]) == 10 * NatOf(s) + d
  {
    assert (s + [Digit(d)])[..|s|] == s;
  }

  lemma {:induction false} DecimalReadsBack(n: nat)
    ensures AllDigits(Decimal(n)) && NatOf(Decimal(n)) == n
  {
    if n < 10 {
      NatOfAppend("", n);
      assert "" + [Digit(n)] == Decimal(n);
    } else {
      DecimalReadsBack(n / 10);
      NatOfAppend(Decimal(n / 10), n % 10);
    }
  }

  lemma DigitsNeedNoTrim(s: string)
    requires AllDigits(s)
    ensures Trim(s) == s
  {
    assert IsDigit(s[0]) && IsDigit(s[|s| - 1]);
  }

  lemma PrintedReadsBack(n: nat)
    ensures BigIntText(Decimal(n)) == Some(n)
  {
    DecimalReadsBack(n);
    DigitsNeedNoTrim(Decimal(n));
  }

  // ---- Funding and releasing ------------------------------------------------------------------

  function FundText(total: Value): Account
    requires HasText(total)
  {
    Account(total.text, E.Active)
  }

  function ReleaseText(a: Account, amount: Value): Result<Account, Trouble>
    requires HasText(amount)
  {
    if a.status != E.Active then Err(NotActive)
    else
      var balance, n := BigIntText(a.remainingBalance), BigIntOf(amount);
      if balance.None? || n.None? then Err(NotABigInt)
      else if balance.value < n.value then Err(InsufficientBalance)
      else
        var left := balance.value - n.value;
        Ok(Account(Decimal(left), if left == 0 then E.Completed else E.Active))
  }

  /** The row and the escrow of the service say the same. */
  predicate Shows(a: Account, b: E.Books, id: int) {
    id in b.escrows && a.status == b.escrows[id].status && BalanceOf(a) == b.escrows[id].remainingBalance &&
        BalanceOf(a) >= 0
  }

  /** The balance a row shows; negative if it is not a number. */
  function BalanceOf(a: Account): int {
    match BigIntText(a.remainingBalance)
    case Some(n) => n
    case None => -1
  }

  /** A release of a readable amount from a readable balance. */
  lemma ReleaseTextIs(a: Account, amount: Value, n: nat)
    requires BalanceOf(a) >= 0 && HasText(amount) && BigIntOf(amount).Some? && n == BigIntOf(amount).value
    ensures var left := BalanceOf(a) - n;
            match ReleaseText(a, amount)
            case Err(e) => e == if a.status != E.Active then NotActive else InsufficientBalance
            case Ok(r) => a.status == E.Active && left >= 0 && BalanceOf(r) == left &&
                          r.status == if left == 0 then E.Completed else E.Active
    ensures ReleaseText(a, amount).Ok? <==> a.status == E.Active && BalanceOf(a) >= n
  {
    if n <= BalanceOf(a) { PrintedReadsBack(BalanceOf(a) - n); }
  }

  /** On readable amounts a release of texts is the service's release of numbers. */
  lemma ReleaseTextIsRelease(a: Account, b: E.Books, id: int, k: nat, amount: Value)
    requires Shows(a, b, id) && (id, k) in b.milestones && HasText(amount) && BigIntOf(amount).Some?
    ensures var text, number := ReleaseText(a, amount), E.Execute(b, E.Release(id, k, BigIntOf(amount).value));
            && (text.Ok? <==> number.Ok?)
            && (text.Ok? ==> Shows(text.value, number.value, id))
            && (text == Err(NotActive) <==> number == Err(E.NotActive))
            && (text == Err(InsufficientBalance) <==> number == Err(E.InsufficientBalance))
  {
    ReleaseTextIs(a, amount, BigIntOf(amount).value);
  }

  predicate AllText(amounts: seq<Value>) {
    forall i :: 0 <= i < |amounts| ==> HasText(amounts[i])
  }

  /** Fund the total, then release the amounts at some positions. */
  function PayText(total: Value, amounts: seq<Value>, order: seq<nat>): Result<Account, Trouble>
    requires HasText(total) && AllText(amounts)
    requires Positions(order, |amounts|)
  {
    if order == [] then Ok(FundText(total))
    else match PayText(total, amounts, order[..|order| - 1])
      case Ok(a) => ReleaseText(a, amounts[order[|order| - 1]])
      case Err(e) => Err(e)
  }

  // ---- When every order succeeds ----------------------------------------------------------------

  predicate Readable(amounts: seq<Value>) {
    forall i :: 0 <= i < |amounts| ==> HasText(amounts[i]) && BigIntOf(amounts[i]).Some?
  }

  function Numbers(amounts: seq<Value>): seq<int>
    requires Readable(amounts)
  {
    seq(|amounts|, i requires 0 <= i < |amounts| => BigIntOf(amounts[i]).value)
  }

  /** If a payment went through, it has left this balance. */
  ghost predicate Leaves(paid: Result<Account, Trouble>, balance: int) {
    paid.Ok? ==> BalanceOf(paid.value) == balance && balance >= 0
  }

  lemma ReleaseLeaves(a: Account, amount: Value, n: nat, balance: int)
    requires Leaves(Ok(a), balance) && HasText(amount) && BigIntOf(amount).Some? && n == BigIntOf(amount).value
    ensures Leaves(ReleaseText(a, amount), balance - n)
  {
    ReleaseTextIs(a, amount, n);
  }

  lemma PayTextStep(total: Value, amounts: seq<Value>, order: seq<nat>, rest: seq<nat>, k: nat)
    requires HasText(total) && AllText(amounts)
    requires k < |amounts| && order == rest + [k] && Positions(order, |amounts|) && Positions(rest, |amounts|)
    ensures PayText(total, amounts, order) ==
              match PayText(total, amounts, rest)
              case Ok(a) => ReleaseText(a, amounts[k])
              case Err(e) => Err(e)
  {
    assert order[..|order| - 1] == rest;
  }

  lemma OneMoreRelease(paid: Result<Account, Trouble>, more: Result<Account, Trouble>, amount: Value, n: nat,
      balance: int)
    requires HasText(amount) && BigIntOf(amount).Some? && n == BigIntOf(amount).value && Leaves(paid, balance)
    requires more == match paid case Ok(a) => ReleaseText(a, amount) case Err(e) => Err(e)
    ensures Leaves(more, balance - n)
  {
    if paid.Ok? { ReleaseLeaves(paid.value, amount, n, balance); }
  }

  lemma StepLeaves(total: Value, amounts: seq<Value>, order: seq<nat>, rest: seq<nat>, k: nat, balance: int)
    requires HasText(total) && AllText(amounts) && k < |amounts| && BigIntOf(amounts[k]).Some?
    requires order == rest + [k] && Positions(order, |amounts|) && Positions(rest, |amounts|)
    requires Leaves(PayText(total, amounts, rest), balance)
    ensures Leaves(PayText(total, amounts, order), balance - BigIntOf(amounts[k]).value)
  {
    PayTextStep(total, amounts, order, rest, k);
    OneMoreRelease(PayText(total, amounts, rest), PayText(total, amounts, order), amounts[k],
                   BigIntOf(amounts[k]).value, balance);
  }

  /** The balance after releases that went through is the total less what they took. */
  lemma {:induction false} BalanceIsWhatIsLeft(total: Value, amounts: seq<Value>, numbers: seq<int>, order: seq<nat>,
      funded: nat)
    requires HasText(total) && BigIntOf(total) == Some(funded) && Positions(order, |amounts|)
    requires AllText(amounts) && Readable(amounts) && numbers == Numbers(amounts)
    ensures Leaves(PayText(total, amounts, order), funded - Picked(numbers, order))
    decreases |order|
  {
    if order != [] {
      var rest, k := order[..|order| - 1], order[|order| - 1];
      BalanceIsWhatIsLeft(total, amounts, numbers, rest, funded);
      StepLeaves(total, amounts, order, rest, k, funded - Picked(numbers, rest));
      assert numbers[k] == BigIntOf(amounts[k]).value;
    }
  }

  /** Positive amounts that fit the total are paid out in every order, and use it up or not. */
  lemma {:induction false} FittingAmountsPayOut(total: Value, amounts: seq<Value>, order: seq<nat>)
    requires HasText(total) && BigIntOf(total).Some? && Readable(amounts) && Positions(order, |amounts|)
    requires (forall k :: 0 <= k < |amounts| ==> Numbers(amounts)[k] > 0)
    requires 0 < BigIntOf(total).value && Sum(Numbers(amounts)) <= BigIntOf(total).value
    ensures var paid := PayText(total, amounts, order);
            paid.Ok? && paid.value.status ==
              if Picked(Numbers(amounts), order) == BigIntOf(total).value then E.Completed else E.Active
  {
    if order != [] {
      var rest, k := order[..|order| - 1], order[|order| - 1];
      FittingAmountsPayOut(total, amounts, rest);
      BalanceIsWhatIsLeft(total, amounts, Numbers(amounts), rest, BigIntOf(total).value);
      PickedWithinSum(Numbers(amounts), order);
    }
  }

  function AmountsOf(ms: seq<Milestone>): seq<Value>
    requires forall i :: 0 <= i < |ms| ==> ms[i].Milestone?
  {
    seq(|ms|, i requires 0 <= i < |ms| => ms[i].amount)
  }

  ghost predicate AlwaysPaysOut(total: Value, amounts: seq<Value>)
    requires HasText(total) && AllText(amounts)
  {
    forall order: seq<nat> :: Positions(order, |amounts|) ==> PayText(total, amounts, order).Ok?
  }

  /** All that is asked of `parseFloat`: a text of zeros is not a positive number. */
  ghost predicate ZeroIsNotPositive(env: Env) {
    forall s :: AllDigits(s) && NatOf(s) == 0 ==> !PositiveFloat(env.parseFloat(s))
  }

  lemma AmountIsPositive(env: Env, v: Value)
    requires ZeroIsNotPositive(env) && AmountOk(env, v)
    ensures HasText(v) && (BigIntOf(v).Some? ==> BigIntOf(v).value > 0)
  {}

  lemma UnreadableFails(total: Value, amounts: seq<Value>, k: nat)
    requires HasText(total) && AllText(amounts) && k < |amounts|
    requires BigIntOf(total).None? || BigIntOf(amounts[k]).None?
    ensures PayText(total, amounts, [k]) == Err(NotABigInt)
  {
    assert [k][..0] == [];
    assert PayText(total, amounts, []) == Ok(FundText(total));
  }

  function Everything(n: nat): (order: seq<nat>)
    ensures Positions(order, n) && |order| == n && forall k :: 0 <= k < n ==> order[k] == k
  {
    seq(n, i requires 0 <= i < n => i)
  }

  /** Releasing at every position takes the sum. */
  lemma EverythingIsTheSum(amounts: seq<int>)
    requires forall k :: 0 <= k < |amounts| ==> amounts[k] >= 0
    ensures Picked(amounts, Everything(|amounts|)) == Sum(amounts)
  {
    var order := Everything(|amounts|);
    forall k | 0 <= k < |amounts| ensures k in order { assert order[k] == k; }
    PickedWithinSum(amounts, order);
  }

  lemma OverdrawnFails(total: Value, amounts: seq<Value>)
    requires HasText(total) && BigIntOf(total).Some? && Readable(amounts)
    requires Sum(Numbers(amounts)) > BigIntOf(total).value
    ensures PayText(total, amounts, Everything(|amounts|)).Err?
  {
    BalanceIsWhatIsLeft(total, amounts, Numbers(amounts), Everything(|amounts|), BigIntOf(total).value);
    EverythingIsTheSum(Numbers(amounts));
  }

  /** Amounts a validator may have accepted are paid out in every order exactly when `BigInt`
      reads all of them and they add up, as the numbers they are, to no more than the total. */
  lemma PaysOutIff(total: Value, amounts: seq<Value>)
    requires HasText(total) && |amounts| > 0 && AllText(amounts)
    requires BigIntOf(total).Some? ==> BigIntOf(total).value > 0
    requires forall i :: 0 <= i < |amounts| && BigIntOf(amounts[i]).Some? ==> BigIntOf(amounts[i]).value > 0
    ensures AlwaysPaysOut(total, amounts) <==>
              BigIntOf(total).Some? && Readable(amounts) && Sum(Numbers(amounts)) <= BigIntOf(total).value
  {
    if BigIntOf(total).None? {
      UnreadableFails(total, amounts, 0);
      assert Positions([0], |amounts|);
    } else if !Readable(amounts) {
      var k: nat :| k < |amounts| && BigIntOf(amounts[k]).None?;
      UnreadableFails(total, amounts, k);
      assert Positions([k], |amounts|);
    } else if Sum(Numbers(amounts)) > BigIntOf(total).value {
      OverdrawnFails(total, amounts);
    } else {
      forall order: seq<nat> | Positions(order, |amounts|) ensures PayText(total, amounts, order).Ok? {
        FittingAmountsPayOut(total, amounts, order);
      }
    }
  }

  /** The amounts, as the numbers they are, add up to no more than the total. */
  predicate FitsTotal(total: Value, amounts: seq<Value>)
    requires HasText(total) && BigIntOf(total).Some? && Readable(amounts)
  {
    Sum(Numbers(amounts)) <= BigIntOf(total).value
  }

  /** No amount is written with a decimal point. */
  predicate NoPoint(total: Value, amounts: seq<Value>)
    requires HasText(total) && AllText(amounts)
  {
    '.' !in Trim(total.text) && forall i :: 0 <= i < |amounts| ==> '.' !in Trim(amounts[i].text)
  }

  /** What validation says of the amounts of a template, as texts. */
  lemma ValidAmounts(env: Env, t: Template)
    requires ValidTemplate(env, t) && ZeroIsNotPositive(env)
    ensures forall i :: 0 <= i < |t.milestones.value| ==> t.milestones.value[i].Milestone?
    ensures var total, amounts := t.totalAmount, AmountsOf(t.milestones.value);
            && |amounts| > 0 && HasText(total) && AllText(amounts)
            && (BigIntOf(total).Some? && Readable(amounts) <==> NoPoint(total, amounts))
            && (BigIntOf(total).Some? ==> BigIntOf(total).value > 0)
            && forall i :: 0 <= i < |amounts| && BigIntOf(amounts[i]).Some? ==> BigIntOf(amounts[i]).value > 0
  {
    var ms := t.milestones.value;
    forall i | 0 <= i < |ms| ensures ms[i].Milestone? && AmountOk(env, ms[i].amount) { assert MilestoneOk(env, ms[i]); }
    var total, amounts := t.totalAmount, AmountsOf(ms);
    AmountIsPositive(env, total);
    ReadableIffNoPoint(env, total);
    forall i | 0 <= i < |amounts|
      ensures HasText(amounts[i]) && (BigIntOf(amounts[i]).Some? <==> '.' !in Trim(amounts[i].text))
      ensures BigIntOf(amounts[i]).Some? ==> BigIntOf(amounts[i]).value > 0
    {
      AmountIsPositive(env, amounts[i]);
      ReadableIffNoPoint(env, amounts[i]);
    }
  }

  /** For every valid template and any rounding of `parseFloat`: releasing milestones once each
      succeeds in every order if and only if no amount has a decimal point and the amounts add
      up to no more than the total; and then releasing all of them completes the escrow
      exactly when they add up to the total. */
  lemma ValidTemplatePaysOutIff(env: Env, t: Template, total: Value, amounts: seq<Value>)
    requires ValidTemplate(env, t) && ZeroIsNotPositive(env)
    requires forall i :: 0 <= i < |t.milestones.value| ==> t.milestones.value[i].Milestone?
    requires total == t.totalAmount && amounts == AmountsOf(t.milestones.value)
    ensures HasText(total) && AllText(amounts)
    ensures NoPoint(total, amounts) ==> BigIntOf(total).Some? && Readable(amounts)
    ensures AlwaysPaysOut(total, amounts) <==> NoPoint(total, amounts) && FitsTotal(total, amounts)
    ensures AlwaysPaysOut(total, amounts) ==>
              (PayText(total, amounts, Everything(|amounts|)).value.status == E.Completed <==>
               Sum(Numbers(amounts)) == BigIntOf(total).value)
  {
    ValidAmounts(env, t);
    PaysOutIff(total, amounts);
    if AlwaysPaysOut(total, amounts) {
      FittingAmountsPayOut(total, amounts, Everything(|amounts|));
      EverythingIsTheSum(Numbers(amounts));
    }
  }

  // ---- Two templates that validate and cannot be paid out ------------------------------------------

  /** A valid template cut down to its first milestone, with other amounts. */
  function WithAmounts(t: Template, total: string, amount: string): Template
    requires t.milestones.Some? && t.milestones.value != [] && t.milestones.value[0].Milestone?
  {
    t.(totalAmount := Text(total), milestones := Some([t.milestones.value[0].(amount := Text(amount))]))
  }

  lemma WithAmountsIsValid(env: Env, t: Template, total: string, amount: string)
    requires ValidTemplate(env, t)
    requires AmountOk(env, Text(total)) && AmountOk(env, Text(amount))
    requires AmountOf(env, Text(total)) == AmountOf(env, Text(amount))
    ensures t.milestones.value[0].Milestone? && ValidTemplate(env, WithAmounts(t, total, amount))
  {
    var m := t.milestones.value[0];
    assert MilestoneOk(env, m);
    var ms := [m.(amount := Text(amount))];
    assert ms[..0] == [] && Total(env, []) == 0;
    assert MilestonesOk(env, ms);
  }

  lemma FractionIsAnAmount(env: Env)
    requires env.parseFloat("10.5") == Finite(10.5)
    ensures AmountOk(env, Text("10.5")) && BigIntOf(Text("10.5")).None?
  {
    var s := "10.5";
    assert s[..2] == "10" && s[3..] == "5" && s[2] == '.';
    assert AllDigits(s[..2]) && AllDigits(s[3..]);
    assert Trim(s) == s;
    assert s[2] in s && !IsDigit(s[2]);
  }

  /** A fraction validates, is funded, and cannot be released. */
  lemma FractionIsNotReleased(env: Env, t: Template)
    requires ValidTemplate(env, t) && env.parseFloat("10.5") == Finite(10.5)
    ensures t.milestones.value[0].Milestone? && ValidTemplate(env, WithAmounts(t, "10.5", "10.5"))
    ensures PayText(Text("10.5"), [Text("10.5")], [0]) == Err(NotABigInt)
  {
    FractionIsAnAmount(env);
    WithAmountsIsValid(env, t, "10.5", "10.5");
    UnreadableFails(Text("10.5"), [Text("10.5")], 0);
  }

  /** Two whole numbers that `parseFloat` rounds to one, the greater a milestone under the
      other as the total: the template is valid, and the milestone more than the balance. */
  lemma RoundedAmountIsNotReleased(env: Env, t: Template, total: string, amount: string, x: real)
    requires ValidTemplate(env, t) && AllDigits(total) && AllDigits(amount) && NatOf(total) < NatOf(amount)
    requires env.parseFloat(total) == env.parseFloat(amount) == Finite(x) && x > 0.0
    ensures t.milestones.value[0].Milestone? && ValidTemplate(env, WithAmounts(t, total, amount))
    ensures PayText(Text(total), [Text(amount)], [0]) == Err(InsufficientBalance)
  {
    DigitsNeedNoTrim(total);
    DigitsNeedNoTrim(amount);
    WithAmountsIsValid(env, t, total, amount);
    assert [0][..0] == [];
    assert PayText(Text(total), [Text(amount)], []) == Ok(FundText(Text(total)));
  }

  /** The floating-point number nearest to a whole number of this range, where they are the even
      ones: of two that are as near, the one whose half is even. */
  function Nearest(n: nat): (r: nat)
    requires EXACT <= n < 2 * EXACT
    ensures r % 2 == 0 && n - 1 <= r <= n + 1
    ensures r != n ==> r / 2 % 2 == 0
  {
    if n % 2 == 0 then n else if n / 2 % 2 == 0 then n - 1 else n + 1
  }

  ghost predicate RoundsToNearest(env: Env) {
    forall s :: AllDigits(s) && EXACT <= NatOf(s) < 2 * EXACT ==>
      env.parseFloat(s) == Finite(Nearest(NatOf(s)) as real)
  }

  /** With `parseFloat` as it rounds there, a milestone over a total that is rounded to the same
      number validates and cannot be released. */
  lemma NearestPairIsNotReleased(env: Env, t: Template, total: string, amount: string)
    requires ValidTemplate(env, t) && RoundsToNearest(env) && AllDigits(total) && AllDigits(amount)
    requires EXACT <= NatOf(total) < NatOf(amount) < 2 * EXACT && Nearest(NatOf(total)) == Nearest(NatOf(amount))
    ensures t.milestones.value[0].Milestone? && ValidTemplate(env, WithAmounts(t, total, amount))
    ensures PayText(Text(total), [Text(amount)], [0]) == Err(InsufficientBalance)
  {
    RoundedAmountIsNotReleased(env, t, total, amount, Nearest(NatOf(total)) as real);
  }

  /** The first such pair, 2^53 and 2^53 + 1, as they are written. */
  lemma FirstRoundedPair(n: nat, total: string, amount: string)
    requires n == EXACT && total == Decimal(n) && amount == Decimal(n + 1)
    ensures AllDigits(total) && NatOf(total) == EXACT && AllDigits(amount) && NatOf(amount) == EXACT + 1
    ensures Nearest(NatOf(total)) == Nearest(NatOf(amount)) == EXACT
  {
    DecimalReadsBack(n);
    DecimalReadsBack(n + 1);
  }
}
