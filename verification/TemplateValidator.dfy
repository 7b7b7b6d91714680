/** Server-side validation of an escrow template, and what a valid one guarantees when it is
    funded and its milestones are released.  JavaScript's number and date parsing come in as
    an environment. */
module TemplateValidator {
  import opened Wrappers

  /** A JSON value, as far as the validator looks at it; `text` is what `String(value)` gives. */
  datatype Value = Undefined | Null | Text(text: string) | Num(text: string) | Other(text: string)

  datatype Float = Finite(value: real) | Infinite

  datatype Env = Env(
    parseFloat: string -> Float, parseInt: Value -> Option<int>, dateParse: string -> Option<int>, now: int)

  datatype Milestone = NotAnObject | Milestone(title: Value, amount: Value, deadline: Value, milestoneIndex: Value)

  datatype Template = Template(
    clientAddress: Value, freelancerAddress: Value, arbiterAddress: Value, tokenAddress: Value,
    totalAmount: Value, milestones: Option<seq<Milestone>>, deadline: Value)

  datatype Field = Top(name: string) | Item(index: nat, name: string)

  datatype Complaint = Required | Malformed | NotInFuture | Same | TooMuch

  datatype FieldError = FieldError(field: Field, complaint: Complaint)

  // ---- Texts ---------------------------------------------------------------------------

  /** The white space and line terminators that JavaScript's `trim` removes. */
  predicate IsSpace(c: char) {
    || '\t' <= c <= '\r' || c == ' ' || '\U{2000}' <= c <= '\U{200A}'
    || c == '\U{A0}' || c == '\U{1680}' || c == '\U{2028}' || c == '\U{2029}'
    || c == '\U{202F}' || c == '\U{205F}' || c == '\U{3000}' || c == '\U{FEFF}'
  }

  function TrimStart(s: string): string {
    if s != [] && IsSpace(s[0]) then TrimStart(s[1..]) else s
  }

  function TrimEnd(s: string): string {
    if s != [] && IsSpace(s[|s| - 1]) then TrimEnd(s[..|s| - 1]) else s
  }

  function Trim(s: string): string { TrimEnd(TrimStart(s)) }

  predicate IsDigit(c: char) { '0' <= c <= '9' }

  predicate AllDigits(s: string) { s != [] && forall c :: c in s ==> IsDigit(c) }

  /** The pattern `^G[A-Z2-7]{55}$`. */
  predicate IsStellarAddress(s: string) {
    |s| == 56 && s[0] == 'G' && forall i :: 1 <= i < 56 ==> 'A' <= s[i] <= 'Z' || '2' <= s[i] <= '7'
  }

  /** The pattern `^\d+(\.\d+)?$`. */
  predicate IsAmountText(s: string) {
    AllDigits(s) || exists dot :: 0 <= dot < |s| && s[dot] == '.' && AllDigits(s[..dot]) && AllDigits(s[dot + 1..])
  }

  predicate Absent(v: Value) { v.Undefined? || v.Null? || v == Text("") }

  // ---- What is asked of each field -------------------------------------------------------

  predicate AddressOk(v: Value, required: bool) {
    if Absent(v) then !required else v.Text? && IsStellarAddress(Trim(v.text))
  }

  predicate PositiveFloat(f: Float) { f.Infinite? || f.value > 0.0 }

  predicate AmountOk(env: Env, v: Value) {
    !Absent(v) && IsAmountText(Trim(v.text)) && PositiveFloat(env.parseFloat(Trim(v.text)))
  }

  /** The amount in whole units, if it has one: `BigInt` refuses an infinite number. */
  function AmountOf(env: Env, v: Value): Option<int> {
    if !AmountOk(env, v) then None
    else match env.parseFloat(Trim(v.text))
      case Finite(x) => Some((x + 0.5).Floor)
      case Infinite => None
  }

  predicate DateOk(env: Env, v: Value) {
    !Absent(v) ==> env.dateParse(v.text).Some? && env.dateParse(v.text).value > env.now
  }

  predicate NonBlank(v: Value) { v.Text? && Trim(v.text) != "" }

  predicate IndexOk(env: Env, v: Value) {
    env.parseInt(v).Some? && env.parseInt(v).value >= 0
  }

  predicate MilestoneOk(env: Env, m: Milestone) {
    m.Milestone? && NonBlank(m.title) && AmountOk(env, m.amount) && DateOk(env, m.deadline) &&
    (m.milestoneIndex != Undefined ==> IndexOk(env, m.milestoneIndex))
  }

  predicate HasIndex(env: Env, m: Milestone, index: int) {
    m.Milestone? && m.milestoneIndex != Undefined && IndexOk(env, m.milestoneIndex) &&
        env.parseInt(m.milestoneIndex).value == index
  }

  ghost predicate MilestonesOk(env: Env, ms: seq<Milestone>) {
    && (forall i :: 0 <= i < |ms| ==> MilestoneOk(env, ms[i]))
    && (forall i, j, index :: 0 <= i < j < |ms| && HasIndex(env, ms[i], index) ==> !HasIndex(env, ms[j], index))
  }

  /** The sum of the milestone amounts that have one. */
  function Total(env: Env, ms: seq<Milestone>): int {
    if ms == [] then 0
    else
      var m := ms[|ms| - 1];
      Total(env, ms[..|ms| - 1]) +
      if m.Milestone? && AmountOf(env, m.amount).Some? then AmountOf(env, m.amount).value else 0
  }

  predicate SumFits(env: Env, total: Option<int>, sum: int) {
    total.Some? && total.value > 0 && sum > 0 ==> sum <= total.value
  }

  predicate SameParties(t: Template) {
    && t.clientAddress.Text? && t.freelancerAddress.Text?
    && IsStellarAddress(Trim(t.clientAddress.text)) && Trim(t.clientAddress.text) == Trim(t.freelancerAddress.text)
  }

  ghost predicate ValidTemplate(env: Env, t: Template) {
    && AddressOk(t.clientAddress, true) && AddressOk(t.freelancerAddress, true) && AddressOk(t.arbiterAddress, false)
    && !SameParties(t)
    && NonBlank(t.tokenAddress)
    && AmountOk(env, t.totalAmount)
    && t.milestones.Some? && t.milestones.value != [] && MilestonesOk(env, t.milestones.value)
    && SumFits(env, AmountOf(env, t.totalAmount), Total(env, t.milestones.value))
    && DateOk(env, t.deadline)
  }

  predicate Given(v: Value) { v != Undefined && v != Null && v != Text("") }

  /** What a valid template guarantees, field by field: three addresses of the right form, two of
      them different, the third if given; a token; a positive total; a date, if any, that is not
      past; and milestones, of which `ValidMilestonesMean` speaks. */
  lemma ValidTemplateMeans(env: Env, t: Template)
    requires ValidTemplate(env, t)
    ensures forall v | v == t.clientAddress || v == t.freelancerAddress || (v == t.arbiterAddress && Given(v)) ::
              v.Text? && var a := Trim(v.text);
              |a| == 56 && a[0] == 'G' && forall i :: 1 <= i < 56 ==> 'A' <= a[i] <= 'Z' || '2' <= a[i] <= '7'
    ensures Trim(t.clientAddress.text) != Trim(t.freelancerAddress.text)
    ensures t.tokenAddress.Text? && Trim(t.tokenAddress.text) != ""
    ensures Given(t.totalAmount) && (env.parseFloat(Trim(t.totalAmount.text)).Finite? ==>
                                       env.parseFloat(Trim(t.totalAmount.text)).value > 0.0)
    ensures Given(t.deadline) ==> env.dateParse(t.deadline.text).Some? && env.dateParse(t.deadline.text).value > env.now
    ensures t.milestones.Some? && |t.milestones.value| > 0 && MilestonesOk(env, t.milestones.value)
  {}

  /** Each has a title, a positive amount, no date that is past, and if it has an index, one that
      is not negative and that no other has. */
  lemma ValidMilestonesMean(env: Env, ms: seq<Milestone>)
    requires MilestonesOk(env, ms)
    ensures forall i :: 0 <= i < |ms| ==>
              var m := ms[i];
              && m.Milestone? && m.title.Text? && Trim(m.title.text) != ""
              && Given(m.amount) && (env.parseFloat(Trim(m.amount.text)).Finite? ==>
                                       env.parseFloat(Trim(m.amount.text)).value > 0.0)
              && (Given(m.deadline) ==>
                    env.dateParse(m.deadline.text).Some? && env.dateParse(m.deadline.text).value > env.now)
              && (m.milestoneIndex != Undefined ==>
                    env.parseInt(m.milestoneIndex).Some? && env.parseInt(m.milestoneIndex).value >= 0)
    ensures forall i, j :: 0 <= i < j < |ms| ==>
              ms[i].milestoneIndex == Undefined || ms[j].milestoneIndex == Undefined ||
              env.parseInt(ms[i].milestoneIndex) != env.parseInt(ms[j].milestoneIndex)
  {
    assert forall i :: 0 <= i < |ms| ==> MilestoneOk(env, ms[i]);
    forall i, j | 0 <= i < j < |ms| && ms[i].milestoneIndex != Undefined && ms[j].milestoneIndex != Undefined
      ensures env.parseInt(ms[i].milestoneIndex) != env.parseInt(ms[j].milestoneIndex)
    {
      assert MilestoneOk(env, ms[i]) && MilestoneOk(env, ms[j]);
      assert HasIndex(env, ms[i], env.parseInt(ms[i].milestoneIndex).value);
    }
  }

  lemma NoSpaceNoTrim(s: string)
    requires s != "" && !IsSpace(s[0]) && !IsSpace(s[|s| - 1])
    ensures Trim(s) == s
  {}

  /** A template for one milestone over the whole amount, without dates or indices. */
  function Plain(client: string, freelancer: string, token: string, title: string, amount: string): Template {
    Template(Text(client), Text(freelancer), Undefined, Text(token), Text(amount),
             Some([Milestone(Text(title), Text(amount), Undefined, Undefined)]), Undefined)
  }

  /** It is valid for any two different addresses, any token and title that start and end with no
      white space, and any whole amount that is read as a positive number. */
  lemma PlainTemplateIsValid(env: Env, client: string, freelancer: string, token: string, title: string,
                             amount: string)
    requires IsStellarAddress(client) && IsStellarAddress(freelancer) && client != freelancer
    requires token != "" && !IsSpace(token[0]) && !IsSpace(token[|token| - 1])
    requires title != "" && !IsSpace(title[0]) && !IsSpace(title[|title| - 1])
    requires AllDigits(amount) && env.parseFloat(amount).Finite? && env.parseFloat(amount).value > 0.0
    ensures ValidTemplate(env, Plain(client, freelancer, token, title, amount))
  {
    NoSpaceNoTrim(client);
    NoSpaceNoTrim(freelancer);
    NoSpaceNoTrim(token);
    NoSpaceNoTrim(title);
    assert IsDigit(amount[0]) && IsDigit(amount[|amount| - 1]);
    NoSpaceNoTrim(amount);
    var ms := Plain(client, freelancer, token, title, amount).milestones.value;
    assert ms[..0] == [] && Total(env, ms[..0]) == 0;
    assert MilestoneOk(env, ms[0]) && MilestonesOk(env, ms);
  }

  // ---- The validator ---------------------------------------------------------------------

  class Errors {
    var list: seq<FieldError>

    constructor ()
      ensures list == []
    {
      list := [];
    }

    method Push(field: Field, complaint: Complaint)
      modifies this
      ensures list == old(list) + [FieldError(field, complaint)]
    {
      list := list + [FieldError(field, complaint)];
    }
  }

  method ValidateAddress(field: Field, v: Value, errors: Errors, required: bool)
    modifies errors
    ensures AddressOk(v, required) ==> errors.list == old(errors.list)
    ensures !AddressOk(v, required) ==>
              errors.list == old(errors.list) + [FieldError(field, if Absent(v) then Required else Malformed)]
  {
    if Absent(v) {
      if required { errors.Push(field, Required); }
      return;
    }
    if !v.Text? || !IsStellarAddress(Trim(v.text)) {
      errors.Push(field, Malformed);
    }
  }

  method ValidateFutureDate(env: Env, field: Field, v: Value, errors: Errors)
    modifies errors
    ensures DateOk(env, v) ==> errors.list == old(errors.list)
    ensures !DateOk(env, v) ==>
              errors.list == old(errors.list) +
                [FieldError(field, if env.dateParse(v.text).None? then Malformed else NotInFuture)]
  {
    if Absent(v) { return; }
    var ts := env.dateParse(v.text);
    if ts.None? {
      errors.Push(field, Malformed);
    } else if ts.value <= env.now {
      errors.Push(field, NotInFuture);
    }
  }

  method ValidateAmount(env: Env, field: Field, v: Value, errors: Errors) returns (amount: Option<int>)
    modifies errors
    ensures amount == AmountOf(env, v)
    ensures AmountOk(env, v) ==> errors.list == old(errors.list)
    ensures !AmountOk(env, v) ==>
              errors.list == old(errors.list) + [FieldError(field, if Absent(v) then Required else Malformed)]
  {
    if Absent(v) {
      errors.Push(field, Required);
      return None;
    }
    var str := Trim(v.text);
    if !IsAmountText(str) || !PositiveFloat(env.parseFloat(str)) {
      errors.Push(field, Malformed);
      return None;
    }
    match env.parseFloat(str) {
      case Finite(x) => return Some((x + 0.5).Floor);
      case Infinite => return None;
    }
  }

  /** The index of a milestone, if it gives a sound one. */
  function NewIndex(env: Env, m: Milestone): set<int> {
    if m.Milestone? && m.milestoneIndex != Undefined && IndexOk(env, m.milestoneIndex)
        then {env.parseInt(m.milestoneIndex).value}
    else {}
  }

  method ValidateIndex(env: Env, i: nat, m: Milestone, seen: set<int>, errors: Errors) returns (seen': set<int>)
    requires m.Milestone?
    modifies errors
    ensures seen' == seen + NewIndex(env, m)
    ensures old(errors.list) <= errors.list
    ensures errors.list == old(errors.list) <==>
              (m.milestoneIndex != Undefined ==> IndexOk(env, m.milestoneIndex)) && NewIndex(env, m) !! seen
  {
    seen' := seen;
    if m.milestoneIndex != Undefined {
      if !IndexOk(env, m.milestoneIndex) {
        errors.Push(Item(i, "milestoneIndex"), Malformed);
      } else {
        var index := env.parseInt(m.milestoneIndex).value;
        if index in seen {
          errors.Push(Item(i, "milestoneIndex"), Same);
        } else {
          seen' := seen + {index};
        }
      }
    }
  }

  /** One milestone, given the indices seen before it. */
  method ValidateMilestone(env: Env, i: nat, m: Milestone, seen: set<int>, errors: Errors)
    returns (amount: Option<int>, seen': set<int>)
    modifies errors
    ensures amount == if m.Milestone? then AmountOf(env, m.amount) else None
    ensures seen' == seen + NewIndex(env, m)
    ensures old(errors.list) <= errors.list
    ensures errors.list == old(errors.list) <==> MilestoneOk(env, m) && NewIndex(env, m) !! seen
  {
    if m.NotAnObject? {
      errors.Push(Item(i, ""), Malformed);
      return None, seen;
    }
    if !NonBlank(m.title) { errors.Push(Item(i, "title"), Malformed); }
    amount := ValidateAmount(env, Item(i, "amount"), m.amount, errors);
    if m.deadline != Undefined && m.deadline != Null {
      ValidateFutureDate(env, Item(i, "deadline"), m.deadline, errors);
    }
    seen' := ValidateIndex(env, i, m, seen, errors);
  }

  ghost predicate Seen(env: Env, ms: seq<Milestone>, seen: set<int>) {
    forall index :: index in seen <==> exists k :: 0 <= k < |ms| && HasIndex(env, ms[k], index)
  }

  method ValidateMilestones(env: Env, milestones: Option<seq<Milestone>>, errors: Errors) returns (total: int)
    modifies errors
    ensures old(errors.list) <= errors.list
    ensures errors.list == old(errors.list) <==>
              milestones.Some? && milestones.value != [] && MilestonesOk(env, milestones.value)
    ensures total == if milestones.None? then 0 else Total(env, milestones.value)
  {
    if milestones.None? || milestones.value == [] {
      errors.Push(Top("milestones"), Malformed);
      return 0;
    }
    var ms := milestones.value;
    total := 0;
    var seen: set<int> := {};
    var i := 0;
    while i < |ms|
      invariant i <= |ms| && total == Total(env, ms[..i]) && Seen(env, ms[..i], seen)
      invariant old(errors.list) <= errors.list
      invariant errors.list == old(errors.list) <==> MilestonesOk(env, ms[..i])
    {
      OneMoreMilestone(env, ms, i, seen);
      var amount;
      amount, seen := ValidateMilestone(env, i, ms[i], seen, errors);
      if amount.Some? { total := total + amount.value; }
      i := i + 1;
    }
    assert ms[..|ms|] == ms;
  }

  lemma OneMoreMilestone(env: Env, ms: seq<Milestone>, i: nat, seen: set<int>)
    requires i < |ms| && Seen(env, ms[..i], seen)
    ensures Seen(env, ms[..i + 1], seen + NewIndex(env, ms[i]))
    ensures MilestonesOk(env, ms[..i + 1]) <==>
              MilestonesOk(env, ms[..i]) && MilestoneOk(env, ms[i]) && NewIndex(env, ms[i]) !! seen
    ensures Total(env, ms[..i + 1]) ==
              Total(env, ms[..i]) +
              if ms[i].Milestone? && AmountOf(env, ms[i].amount).Some? then AmountOf(env, ms[i].amount).value else 0
  {
    SeenStep(env, ms[..i], ms[i], seen);
    TotalStep(env, ms[..i], ms[i]);
    assert ms[..i + 1] == ms[..i] + [ms[i]];
  }

  lemma TotalStep(env: Env, ms: seq<Milestone>, m: Milestone)
    ensures Total(env, ms + [m]) ==
              Total(env, ms) +
              if m.Milestone? && AmountOf(env, m.amount).Some? then AmountOf(env, m.amount).value else 0
  {
    assert (ms + [m])[..|ms|] == ms;
  }

  lemma SeenStep(env: Env, ms: seq<Milestone>, m: Milestone, seen: set<int>)
    requires Seen(env, ms, seen)
    ensures Seen(env, ms + [m], seen + NewIndex(env, m))
    ensures MilestonesOk(env, ms + [m]) <==> MilestonesOk(env, ms) && MilestoneOk(env, m) && NewIndex(env, m) !! seen
  {
    var all := ms + [m];
    assert all[|ms|] == m && forall k :: 0 <= k < |ms| ==> all[k] == ms[k];
    forall index ensures index in seen + NewIndex(env, m) <==>
        exists k :: 0 <= k < |all| && HasIndex(env, all[k], index) {
      if HasIndex(env, m, index) { assert HasIndex(env, all[|ms|], index); }
      if index in seen {
        var k :| 0 <= k < |ms| && HasIndex(env, ms[k], index);
        assert HasIndex(env, all[k], index);
      }
    }
    if MilestonesOk(env, all) {
      forall i, j, index | 0 <= i < j < |ms| && HasIndex(env, ms[i], index) ensures !HasIndex(env, ms[j], index) {
        assert HasIndex(env, all[i], index);
      }
      forall i | 0 <= i < |ms| ensures MilestoneOk(env, ms[i]) { assert MilestoneOk(env, all[i]); }
      forall index | index in seen ensures index !in NewIndex(env, m) {
        var k :| 0 <= k < |ms| && HasIndex(env, ms[k], index);
        assert HasIndex(env, all[k], index) && !HasIndex(env, all[|ms|], index);
      }
    }
    if MilestonesOk(env, ms) && MilestoneOk(env, m) && NewIndex(env, m) !! seen {
      forall i, j, index | 0 <= i < j < |all| && HasIndex(env, all[i], index) ensures !HasIndex(env, all[j], index) {
        if j < |ms| {
          assert HasIndex(env, ms[i], index);
        } else {
          assert HasIndex(env, ms[i], index) && index in seen;
        }
      }
    }
  }

  /** Does comparing the two parties throw?  Both look like addresses, but one is no string
      and has no `trim`. */
  predicate Throws(t: Template) {
    && !Absent(t.clientAddress) && !Absent(t.freelancerAddress)
    && IsStellarAddress(Trim(t.clientAddress.text)) && IsStellarAddress(Trim(t.freelancerAddress.text))
    && !(t.clientAddress.Text? && t.freelancerAddress.Text?)
  }

  /** The verdict is exactly the declarative condition. */
  method ValidateEscrowTemplate(env: Env, template: Option<Template>) returns (valid: Option<bool>, errors: Errors)
    ensures fresh(errors)
    ensures valid.None? <==> template.Some? && Throws(template.value)
    ensures valid.Some? ==> (valid.value <==> template.Some? && ValidTemplate(env, template.value))
    ensures valid.Some? ==> (valid.value <==> errors.list == [])
  {
    errors := new Errors();
    if template.None? {
      errors.Push(Top("body"), Malformed);
      return Some(false), errors;
    }
    var t := template.value;
    ValidateAddress(Top("clientAddress"), t.clientAddress, errors, true);
    ValidateAddress(Top("freelancerAddress"), t.freelancerAddress, errors, true);
    ValidateAddress(Top("arbiterAddress"), t.arbiterAddress, errors, false);
    if Throws(t) { return None, errors; }
    if SameParties(t) { errors.Push(Top("freelancerAddress"), Same); }
    if !NonBlank(t.tokenAddress) { errors.Push(Top("tokenAddress"), Required); }
    var total := ValidateAmount(env, Top("totalAmount"), t.totalAmount, errors);
    var sum := ValidateMilestones(env, t.milestones, errors);
    if total.Some? && total.value > 0 && sum > 0 && sum > total.value {
      errors.Push(Top("milestones"), TooMuch);
    }
    if t.deadline != Undefined && t.deadline != Null {
      ValidateFutureDate(env, Top("deadline"), t.deadline, errors);
    }
    return Some(errors.list == []), errors;
  }
}
