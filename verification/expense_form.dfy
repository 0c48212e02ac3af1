/**
 * The "Add New Expense" form (components/expenses/expense-dialog.tsx): field
 * validation, the budget guard applied on submit, and how the participant
 * entries of an individual or an equally split expense are built before the
 * expense is handed to the ledger.
 */
module ExpenseForm {
  import opened Wrappers
  import opened Model
  import Storage
  import Balances

  /** The raw form fields as the browser submits them. */
  datatype Form = Form(
    title: string,
    amount: string,
    description: Option<string>,
    paidBy: string,
    splitType: string,
    isIndividual: bool)

  /** A form field that failed validation. */
  datatype Field = TitleField | AmountField | PaidByField | SplitTypeField

  /** A form that passed validation, with the amount converted to a number. */
  datatype Valid = Valid(
    title: string,
    amount: real,
    description: Option<string>,
    paidBy: string,
    splitType: SplitType,
    isIndividual: bool)

  /** The result of pressing "Add Expense". */
  datatype Submission =
    | Refused(over: User)          // a member lacks the budget; nothing is stored
    | Failed                       // the store refused or the payer lookup threw; nothing is stored
    | Stored(groups: seq<Group>)   // the expense was added

  /** The split-type enum of the form schema. */
  function ParseSplitType(s: string): (r: Option<SplitType>)
    ensures r.Some? <==> s == "EQUAL" || s == "PERCENTAGE" || s == "EXACT"
    ensures r == Some(Equal) <==> s == "EQUAL"
  {
    if s == "EQUAL" then Some(Equal)
    else if s == "PERCENTAGE" then Some(Percentage)
    else if s == "EXACT" then Some(Exact)
    else None
  }

  /** Whether the amount text converts to a positive number; `toNumber` is JS `Number`, None for NaN. */
  predicate AmountOk(amount: string, toNumber: string -> Option<real>) {
    toNumber(amount).Some? && toNumber(amount).value > 0.0
  }

  /** The fields failing validation, in schema order. */
  function Failing(f: Form, toNumber: string -> Option<real>): (r: seq<Field>)
    ensures TitleField in r <==> |f.title| == 0
    ensures AmountField in r <==> !AmountOk(f.amount, toNumber)
    ensures PaidByField in r <==> |f.paidBy| == 0
    ensures SplitTypeField in r <==> ParseSplitType(f.splitType).None?
  {
    (if |f.title| == 0 then [TitleField] else [])
    + (if !AmountOk(f.amount, toNumber) then [AmountField] else [])
    + (if |f.paidBy| == 0 then [PaidByField] else [])
    + (if ParseSplitType(f.splitType).None? then [SplitTypeField] else [])
  }

  /** The form schema: accepts exactly the forms with no failing field. */
  function Validate(f: Form, toNumber: string -> Option<real>): (r: Result<Valid, seq<Field>>)
    ensures r.Success? <==>
              |f.title| >= 1 && AmountOk(f.amount, toNumber) && |f.paidBy| >= 1
              && ParseSplitType(f.splitType).Some?
    ensures r.Success? ==>
              && r.value.amount == toNumber(f.amount).value && r.value.amount > 0.0
              && r.value.title == f.title && r.value.paidBy == f.paidBy
              && r.value.description == f.description && r.value.isIndividual == f.isIndividual
              && Some(r.value.splitType) == ParseSplitType(f.splitType)
    ensures r.Failure? ==> |r.error| > 0
  {
    var failing := Failing(f, toNumber);
    if |failing| > 0 then Failure(failing)
    else
      assert TitleField !in failing && AmountField !in failing && PaidByField !in failing && SplitTypeField !in failing;
      Success(Valid(f.title, toNumber(f.amount).value, f.description, f.paidBy,
                    ParseSplitType(f.splitType).value, f.isIndividual))
  }

  /** The first member with that display name (JS `members.find(m => m.name === name)`). */
  function FindByName(ms: seq<User>, name: string): (r: Option<User>)
    ensures r.None? <==> forall k :: 0 <= k < |ms| ==> ms[k].name != name
    ensures r.Some? ==> exists k :: 0 <= k < |ms| && ms[k] == r.value && r.value.name == name
                                    && forall l :: 0 <= l < k ==> ms[l].name != name
  {
    if |ms| == 0 then None
    else if ms[0].name == name then Some(ms[0])
    else
      var r := FindByName(ms[1..], name);
      if r.Some? then
        var k :| 0 <= k < |ms[1..]| && ms[1..][k] == r.value && r.value.name == name
                 && forall l :: 0 <= l < k ==> ms[1..][l].name != name;
        assert ms[k + 1] == r.value;
        r
      else r
  }

  /** The first member whose budget is below `share`. */
  function FindShort(ms: seq<User>, share: real): (r: Option<User>)
    ensures r.None? <==> forall k :: 0 <= k < |ms| ==> ms[k].budget >= share
    ensures r.Some? ==> r.value.budget < share && exists k :: 0 <= k < |ms| && ms[k] == r.value
                                                            && forall l :: 0 <= l < k ==> ms[l].budget >= share
  {
    if |ms| == 0 then None
    else if ms[0].budget < share then Some(ms[0])
    else
      var r := FindShort(ms[1..], share);
      if r.Some? then
        var k :| 0 <= k < |ms[1..]| && ms[1..][k] == r.value
                 && forall l :: 0 <= l < k ==> ms[1..][l].budget >= share;
        assert ms[k + 1] == r.value;
        r
      else r
  }

  /** Each member's share of an equally split expense. */
  function SplitShare(amount: real, ms: seq<User>): real
    requires |ms| > 0
  {
    amount / (|ms| as real)
  }

  /**
   * The budget guard: the member the submit handler warns about, if any. An
   * individual expense checks only the payer found by name (no payer, no
   * warning); a split expense checks every member against the equal share.
   */
  function OverBudget(v: Valid, ms: seq<User>): (r: Option<User>)
    ensures v.isIndividual ==>
              (r.Some? <==> FindByName(ms, v.paidBy).Some? && FindByName(ms, v.paidBy).value.budget < v.amount)
    ensures !v.isIndividual && |ms| > 0 ==>
              (r.None? <==> forall k :: 0 <= k < |ms| ==> ms[k].budget >= SplitShare(v.amount, ms))
    ensures !v.isIndividual && |ms| == 0 ==> r.None?
  {
    if v.isIndividual then
      match FindByName(ms, v.paidBy)
      case Some(payer) => if payer.budget < v.amount then Some(payer) else None
      case None => None
    else if |ms| == 0 then None
    else FindShort(ms, SplitShare(v.amount, ms))
  }

  /** One participant entry per member, in member order, each owing the equal share. */
  function SplitParticipants(ms: seq<User>, share: real, paidBy: string): (r: seq<Participant>)
    ensures |r| == |ms|
    ensures forall k :: 0 <= k < |ms| ==>
              r[k].userId == ms[k].id && r[k].amount == share && (r[k].isPaid <==> ms[k].name == paidBy)
  {
    seq(|ms|, k requires 0 <= k < |ms| => Participant(ms[k].id, share, ms[k].name == paidBy))
  }

  /**
   * The participant entries the form builds: the payer alone owing the whole
   * amount for an individual expense (None when no member has the payer's
   * name: the source dereferences `undefined` there and the submit fails), or
   * every member owing the equal share.
   */
  function Participants(v: Valid, ms: seq<User>): (r: Option<seq<Participant>>)
    ensures v.isIndividual ==>
              (r.None? <==> FindByName(ms, v.paidBy).None?)
              && (r.Some? ==> r.value == [Participant(FindByName(ms, v.paidBy).value.id, v.amount, true)])
    ensures !v.isIndividual ==> r.Some? && |r.value| == |ms|
    ensures !v.isIndividual && |ms| > 0 ==>
              forall k :: 0 <= k < |ms| ==>
                r.value[k].userId == ms[k].id && r.value[k].amount == v.amount / (|ms| as real)
                && (r.value[k].isPaid <==> ms[k].name == v.paidBy)
  {
    if v.isIndividual then
      match FindByName(ms, v.paidBy)
      case Some(payer) => Some([Participant(payer.id, v.amount, true)])
      case None => None
    else if |ms| == 0 then Some([])
    else Some(SplitParticipants(ms, SplitShare(v.amount, ms), v.paidBy))
  }

  /**
   * How the expense card shows a submitted expense: as individual exactly
   * when it was entered as individual or the group has a single member (a
   * split then has one entry), and otherwise at each member's share.
   */
  lemma {:induction false} SubmittedCardLine(v: Valid, ms: seq<User>, e: Expense)
    requires Participants(v, ms).Some? && e.participants == Participants(v, ms).value && e.amount == v.amount
    ensures Balances.CardLine(e, ms).IndividualLine? <==> v.isIndividual || |ms| == 1
    ensures !v.isIndividual && |ms| != 1 ==>
              Balances.CardLine(e, ms) == Balances.PerPersonLine(if |ms| == 0 then None else Some(SplitShare(v.amount, ms)))
  {
  }

  /** The draft the submit handler passes to the ledger, dated when the form is submitted. */
  function Draft(v: Valid, ps: seq<Participant>, date: int): Storage.ExpenseDraft {
    Storage.ExpenseDraft(v.title, v.amount, v.description, v.paidBy, date, v.splitType, ps)
  }

  /**
   * The submit handler: warns and stores nothing when the guard finds a
   * member short of budget; otherwise adds the expense to the group. The
   * handler and the ledger each read the clock: `date` is the expense's date,
   * `now` the group's new update time.
   */
  function Submit(groups: seq<Group>, groupId: string, ms: seq<User>, v: Valid, freshId: string, date: int, now: int): (r: Submission)
    ensures OverBudget(v, ms).Some? <==> r.Refused?
    ensures r.Refused? ==> r.over == OverBudget(v, ms).value
    ensures r.Stored? ==>
              && Participants(v, ms).Some?
              && r.groups == Storage.AddExpense(groups, groupId, Draft(v, Participants(v, ms).value, date), freshId, now).groups
              && Storage.FindGroup(groups, groupId).Some?
    ensures r.Failed? <==>
              OverBudget(v, ms).None? &&
              (Participants(v, ms).None? || Storage.FindGroup(groups, groupId).None?)
  {
    match OverBudget(v, ms)
    case Some(m) => Refused(m)
    case None =>
      match Participants(v, ms)
      case None => Failed
      case Some(ps) =>
        var w := Storage.AddExpense(groups, groupId, Draft(v, ps, date), freshId, now);
        if w.ok then Stored(w.groups) else Failed
  }

  // ---------------------------------------------------------------------------
  // Properties of the form

  lemma {:induction false} TotalSharesSplit(ms: seq<User>, share: real, paidBy: string)
    ensures TotalShares(SplitParticipants(ms, share, paidBy)) == (|ms| as real) * share
  {
    if |ms| > 0 {
      assert SplitParticipants(ms, share, paidBy)[1..] == SplitParticipants(ms[1..], share, paidBy);
      TotalSharesSplit(ms[1..], share, paidBy);
    }
  }

  /** The equal shares of a split expense add up to its amount, whatever the split type says. */
  lemma {:induction false} SplitSharesSumToAmount(v: Valid, ms: seq<User>)
    requires !v.isIndividual && |ms| > 0
    ensures TotalShares(Participants(v, ms).value) == v.amount
    ensures Participants(v.(splitType := Percentage), ms) == Participants(v.(splitType := Exact), ms) == Participants(v, ms)
  {
    TotalSharesSplit(ms, SplitShare(v.amount, ms), v.paidBy);
  }

  /** The share an equal split charges each member is the first entry for that member's id. */
  lemma {:induction false} SplitShareInFor(ms: seq<User>, share: real, paidBy: string, k: nat)
    requires k < |ms|
    ensures ShareIn(SplitParticipants(ms, share, paidBy), ms[k].id) == share
  {
    var ps := SplitParticipants(ms, share, paidBy);
    assert ps[k].userId == ms[k].id;
  }

  /**
   * The guard does its job: when the dialog's members are the stored group's
   * members and member ids are distinct, no member that the stored expense
   * charges ends up with a negative budget.
   */
  lemma {:induction false} GuardKeepsChargedBudgetsNonNegative(groups: seq<Group>, groupId: string, v: Valid, freshId: string, date: int, now: int)
    requires Storage.FindGroup(groups, groupId).Some?
    requires DistinctIds(groups[Storage.FindGroup(groups, groupId).value].members)
    ensures var gi := Storage.FindGroup(groups, groupId).value;
            var ms := groups[gi].members;
            var r := Submit(groups, groupId, ms, v, freshId, date, now);
            r.Stored? ==>
              forall k :: 0 <= k < |ms| && r.groups[gi].members[k].budget != ms[k].budget ==>
                r.groups[gi].members[k].budget >= 0.0
  {
    var gi := Storage.FindGroup(groups, groupId).value;
    var ms := groups[gi].members;
    var r := Submit(groups, groupId, ms, v, freshId, date, now);
    if r.Stored? {
      var ps := Participants(v, ms).value;
      forall k | 0 <= k < |ms| && r.groups[gi].members[k].budget != ms[k].budget
        ensures r.groups[gi].members[k].budget >= 0.0
      {
        assert r.groups[gi].members[k].budget == ms[k].budget - ShareIn(ps, ms[k].id);
        if v.isIndividual {
          var payer := FindByName(ms, v.paidBy).value;
          var p :| 0 <= p < |ms| && ms[p] == payer;
          assert ps == [Participant(payer.id, v.amount, true)];
          // a member whose id is not the payer's owes nothing, so its budget did not move
          assert ms[k].id == payer.id;
          assert k == p;
        } else {
          SplitShareInFor(ms, SplitShare(v.amount, ms), v.paidBy, k);
        }
      }
    }
  }
}
