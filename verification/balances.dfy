/**
 * Per-member figures derived from a group's expenses: the rows of the member
 * view (components/expenses/member-expenses.tsx), and the budget cards and
 * expense cards of the expense list (components/expenses/expense-list.tsx).
 *
 * Two different "spent" figures exist in the source. The member view and the
 * summary dialog take, per expense, the FIRST participant entry of the member;
 * the budget cards add up ALL of the member's entries. They agree when no
 * expense lists a member twice.
 */
module Balances {
  import opened Wrappers
  import opened Model
  import Storage
  import Lists

  // ---------------------------------------------------------------------------
  // The member view

  /** An expense has a participant entry with the member's id. */
  function InvolvesMember(id: string): Expense -> bool {
    (e: Expense) => Participates(e, id)
  }

  /** An expense was paid under `name`. */
  function PaidUnder(name: string): Expense -> bool {
    (e: Expense) => e.paidBy == name
  }

  /** What an expense adds to `name`'s paid figure: its amount when paid under `name`, else nothing. */
  function PaidAmount(name: string): Expense -> real {
    (e: Expense) => if e.paidBy == name then e.amount else 0.0
  }

  /**
   * The expenses in which some participant entry is the member's: every such
   * expense as often as in the group's list, nothing else, in the list's order.
   */
  function Involving(es: seq<Expense>, id: string): (r: seq<Expense>)
    ensures Lists.Subsequence(r, es)
    ensures forall e :: multiset(r)[e] == if Participates(e, id) then multiset(es)[e] else 0
    ensures forall e :: e in r <==> e in es && Participates(e, id)
  {
    var r := Lists.Filter(es, InvolvesMember(id));
    Lists.FilterExact(es, InvolvesMember(id));
    assert forall e :: e in r <==> e in multiset(r);
    assert forall e :: e in es <==> e in multiset(es);
    r
  }

  /** The expenses whose payer NAME is `name`: each as often as in the list, in the list's order. */
  function PaidBy(es: seq<Expense>, name: string): (r: seq<Expense>)
    ensures Lists.Subsequence(r, es)
    ensures forall e :: multiset(r)[e] == if e.paidBy == name then multiset(es)[e] else 0
    ensures forall e :: e in r <==> e in es && e.paidBy == name
  {
    var r := Lists.Filter(es, PaidUnder(name));
    Lists.FilterExact(es, PaidUnder(name));
    assert forall e :: e in r <==> e in multiset(r);
    assert forall e :: e in es <==> e in multiset(es);
    r
  }

  /**
   * What the member paid: over all the group's expenses, the amount of each
   * one paid under its name.
   */
  function TotalPaid(es: seq<Expense>, name: string): (r: real)
    ensures r == Lists.SumOf(es, PaidAmount(name))
  {
    TotalPaidIsSum(es, name);
    TotalAmount(PaidBy(es, name))
  }

  lemma TotalPaidIsSum(es: seq<Expense>, name: string)
    ensures TotalAmount(PaidBy(es, name)) == Lists.SumOf(es, PaidAmount(name))
  {
    FilteredAmountIsSum(es, name);
    assert PaidBy(es, name) == Lists.Filter(es, PaidUnder(name));
  }

  lemma {:induction false} FilteredAmountIsSum(es: seq<Expense>, name: string)
    ensures TotalAmount(Lists.Filter(es, PaidUnder(name))) == Lists.SumOf(es, PaidAmount(name))
  {
    if |es| > 0 {
      var h, t, p := es[0], es[1..], PaidUnder(name);
      var ft := Lists.Filter(t, p);
      FilteredAmountIsSum(t, name);
      assert es == [h] + t;
      Lists.FilterCons(h, t, p);
      assert Lists.SumOf(es, PaidAmount(name)) == PaidAmount(name)(h) + Lists.SumOf(t, PaidAmount(name));
      if h.paidBy == name {
        assert Lists.Filter(es, p) == [h] + ft;
        assert ([h] + ft)[1..] == ft;
      } else {
        assert Lists.Filter(es, p) == ft;
      }
    }
  }

  /** One row of the member view. */
  datatype MemberRow = MemberRow(member: User, expenses: seq<Expense>, totalSpent: real, totalPaid: real, balance: real)

  /**
   * The row for one member: the expenses it takes part in, the sum over them
   * of its first-matching share, what it paid by name, and the difference.
   * The spent figure is the member's charge over ALL the group's expenses,
   * since an expense it is not in charges it nothing.
   */
  function Row(m: User, es: seq<Expense>): (r: MemberRow)
    ensures r.member == m
    ensures Lists.Subsequence(r.expenses, es)
    ensures forall e :: multiset(r.expenses)[e] == if Participates(e, m.id) then multiset(es)[e] else 0
    ensures forall e :: e in r.expenses <==> e in es && Participates(e, m.id)
    ensures r.totalSpent == SharesOf(es, m.id)
    ensures r.totalPaid == Lists.SumOf(es, PaidAmount(m.name))
    ensures r.balance == r.totalPaid - r.totalSpent
  {
    var mine := Involving(es, m.id);
    SpentOverInvolving(es, m.id);
    var spent := SharesOf(mine, m.id);
    var paid := TotalPaid(es, m.name);
    MemberRow(m, mine, spent, paid, paid - spent)
  }

  /** One row per member, in member order. */
  function Rows(ms: seq<User>, es: seq<Expense>): (r: seq<MemberRow>)
    ensures |r| == |ms|
    ensures forall k :: 0 <= k < |ms| ==> r[k] == Row(ms[k], es)
  {
    seq(|ms|, k requires 0 <= k < |ms| => Row(ms[k], es))
  }

  /** Leaving out the expenses a member is not in does not change its spent figure. */
  lemma {:induction false} SpentOverInvolving(es: seq<Expense>, id: string)
    ensures SharesOf(Involving(es, id), id) == SharesOf(es, id)
  {
    if |es| > 0 {
      SpentOverInvolving(es[1..], id);
      if Participates(es[0], id) {
        assert ([es[0]] + Involving(es[1..], id))[1..] == Involving(es[1..], id);
      } else {
        assert FirstShare(es[0], id) == 0.0;
      }
    }
  }

  /** The two labels a balance is shown with. */
  datatype Label = ToReceive | ToPay

  /** How a balance is shown: a magnitude and a label. */
  datatype Shown = Shown(magnitude: real, side: Label)

  /**
   * The balance display: "to receive" exactly when the balance is not
   * negative, with the magnitude |balance|; label and magnitude together give
   * the balance back.
   */
  function ShowBalance(balance: real): (r: Shown)
    ensures r.side == ToReceive <==> balance >= 0.0
    ensures r.magnitude >= 0.0
    ensures (if r.side == ToReceive then r.magnitude else -r.magnitude) == balance
  {
    if balance >= 0.0 then Shown(balance, ToReceive) else Shown(-balance, ToPay)
  }

  // ---------------------------------------------------------------------------
  // The balances of a well-formed ledger sum to zero

  /** Every participant entry of the expense names a different member. */
  predicate DistinctEntries(e: Expense) {
    forall a, b :: 0 <= a < b < |e.participants| ==> e.participants[a].userId != e.participants[b].userId
  }

  /** The expense's shares add up to its amount. */
  predicate Balanced(e: Expense) {
    TotalShares(e.participants) == e.amount
  }

  /** Some member has the given id. */
  predicate HasId(ms: seq<User>, id: string) {
    exists i :: 0 <= i < |ms| && ms[i].id == id
  }

  /** Some member has the given name. */
  predicate HasName(ms: seq<User>, name: string) {
    exists i :: 0 <= i < |ms| && ms[i].name == name
  }

  /**
   * A ledger whose books balance: members are told apart by id and by name;
   * every expense is paid by a member, shared among members, at most once
   * each, and its shares add up to its amount.
   */
  predicate WellFormed(ms: seq<User>, es: seq<Expense>) {
    && DistinctIds(ms) && DistinctNames(ms)
    && forall k :: 0 <= k < |es| ==>
         && Balanced(es[k]) && DistinctEntries(es[k]) && HasName(ms, es[k].paidBy)
         && forall p :: p in es[k].participants ==> HasId(ms, p.userId)
  }

  /** Sum of the balances of the rows. */
  function SumBalances(rows: seq<MemberRow>): real {
    if |rows| == 0 then 0.0 else rows[0].balance + SumBalances(rows[1..])
  }

  /** Sum over members of what each was charged for `es`. */
  function MembersSpent(ms: seq<User>, es: seq<Expense>): real {
    if |ms| == 0 then 0.0 else SharesOf(es, ms[0].id) + MembersSpent(ms[1..], es)
  }

  /** Sum over members of what each paid for `es`. */
  function MembersPaid(ms: seq<User>, es: seq<Expense>): real {
    if |ms| == 0 then 0.0 else TotalPaid(es, ms[0].name) + MembersPaid(ms[1..], es)
  }

  /** Sum over members of their share of one expense. */
  function MembersShare(ms: seq<User>, e: Expense): real {
    if |ms| == 0 then 0.0 else FirstShare(e, ms[0].id) + MembersShare(ms[1..], e)
  }

  /** Sum over expenses of what all members together were charged for each. */
  function ExpenseShares(ms: seq<User>, es: seq<Expense>): real {
    if |es| == 0 then 0.0 else MembersShare(ms, es[0]) + ExpenseShares(ms, es[1..])
  }

  /** `amount` for each member whose id is `id`, summed. */
  function IdHits(ms: seq<User>, id: string, amount: real): real {
    if |ms| == 0 then 0.0 else (if ms[0].id == id then amount else 0.0) + IdHits(ms[1..], id, amount)
  }

  /** `amount` for each member whose name is `name`, summed. */
  function NameHits(ms: seq<User>, name: string, amount: real): real {
    if |ms| == 0 then 0.0 else (if ms[0].name == name then amount else 0.0) + NameHits(ms[1..], name, amount)
  }

  /** Sum over expenses of the payer's hits among the members. */
  function ExpensePaid(ms: seq<User>, es: seq<Expense>): real {
    if |es| == 0 then 0.0 else NameHits(ms, es[0].paidBy, es[0].amount) + ExpensePaid(ms, es[1..])
  }

  lemma {:induction false} RowsSum(ms: seq<User>, es: seq<Expense>)
    ensures SumBalances(Rows(ms, es)) == MembersPaid(ms, es) - MembersSpent(ms, es)
  {
    if |ms| > 0 {
      RowsSum(ms[1..], es);
      assert Rows(ms, es)[1..] == Rows(ms[1..], es);
    }
  }

  lemma {:induction false} TotalPaidCons(es: seq<Expense>, name: string)
    requires |es| > 0
    ensures TotalPaid(es, name) == (if es[0].paidBy == name then es[0].amount else 0.0) + TotalPaid(es[1..], name)
  {
    if es[0].paidBy == name {
      assert ([es[0]] + PaidBy(es[1..], name))[1..] == PaidBy(es[1..], name);
    }
  }

  /** What the members paid, counted member by member or expense by expense. */
  lemma {:induction false} PaidExchange(ms: seq<User>, es: seq<Expense>)
    ensures MembersPaid(ms, es) == ExpensePaid(ms, es)
    decreases |ms| + |es|
  {
    if |ms| > 0 && |es| > 0 {
      TotalPaidCons(es, ms[0].name);
      PaidExchange(ms[1..], es);
      PaidExchange(ms, es[1..]);
      PaidExchange(ms[1..], es[1..]);
    } else if |ms| > 0 {
      PaidExchange(ms[1..], es);
      assert PaidBy(es, ms[0].name) == [];
    } else if |es| > 0 {
      PaidExchange(ms, es[1..]);
    }
  }

  /** What the members were charged, counted member by member or expense by expense. */
  lemma {:induction false} SpentExchange(ms: seq<User>, es: seq<Expense>)
    ensures MembersSpent(ms, es) == ExpenseShares(ms, es)
    decreases |ms| + |es|
  {
    if |ms| > 0 && |es| > 0 {
      SpentExchange(ms[1..], es);
      SpentExchange(ms, es[1..]);
      SpentExchange(ms[1..], es[1..]);
    } else if |ms| > 0 {
      SpentExchange(ms[1..], es);
      assert SharesOf(es, ms[0].id) == 0.0;
    } else if |es| > 0 {
      SpentExchange(ms, es[1..]);
    }
  }

  /** With distinct ids, exactly one member collects `amount` when the id is a member's. */
  lemma {:induction false} IdHitsOnce(ms: seq<User>, id: string, amount: real)
    requires DistinctIds(ms)
    ensures IdHits(ms, id, amount) == if HasId(ms, id) then amount else 0.0
  {
    if |ms| > 0 {
      IdHitsOnce(ms[1..], id, amount);
      if ms[0].id == id {
        assert !HasId(ms[1..], id);
      } else if HasId(ms, id) {
        var i :| 0 <= i < |ms| && ms[i].id == id;
        assert ms[1..][i - 1].id == id;
      }
    }
  }

  /** With distinct names, exactly one member collects `amount` when the name is a member's. */
  lemma {:induction false} NameHitsOnce(ms: seq<User>, name: string, amount: real)
    requires DistinctNames(ms)
    ensures NameHits(ms, name, amount) == if HasName(ms, name) then amount else 0.0
  {
    if |ms| > 0 {
      NameHitsOnce(ms[1..], name, amount);
      if ms[0].name == name {
        assert !HasName(ms[1..], name);
      } else if HasName(ms, name) {
        var i :| 0 <= i < |ms| && ms[i].name == name;
        assert ms[1..][i - 1].name == name;
      }
    }
  }

  /** With distinct entries, the first match is the head entry or a match further on. */
  lemma {:induction false} ShareInCons(ps: seq<Participant>, id: string)
    requires |ps| > 0
    requires forall a, b :: 0 <= a < b < |ps| ==> ps[a].userId != ps[b].userId
    ensures ShareIn(ps, id) == (if ps[0].userId == id then ps[0].amount else 0.0) + ShareIn(ps[1..], id)
  {
    if ps[0].userId == id {
      assert forall k :: 0 <= k < |ps[1..]| ==> ps[1..][k] == ps[k + 1];
    }
  }

  /** The members' shares of the entries `ps`, summed member by member. */
  function IdShares(ms: seq<User>, ps: seq<Participant>): real {
    if |ms| == 0 then 0.0 else ShareIn(ps, ms[0].id) + IdShares(ms[1..], ps)
  }

  lemma {:induction false} IdSharesCons(ms: seq<User>, ps: seq<Participant>)
    requires |ps| > 0
    requires forall a, b :: 0 <= a < b < |ps| ==> ps[a].userId != ps[b].userId
    ensures IdShares(ms, ps) == IdHits(ms, ps[0].userId, ps[0].amount) + IdShares(ms, ps[1..])
  {
    if |ms| > 0 {
      ShareInCons(ps, ms[0].id);
      IdSharesCons(ms[1..], ps);
    }
  }

  /** When every entry names a different member, the members' shares add up to all the entries. */
  lemma {:induction false} IdSharesTotal(ms: seq<User>, ps: seq<Participant>)
    requires DistinctIds(ms)
    requires forall a, b :: 0 <= a < b < |ps| ==> ps[a].userId != ps[b].userId
    requires forall p :: p in ps ==> HasId(ms, p.userId)
    ensures IdShares(ms, ps) == TotalShares(ps)
  {
    if |ps| == 0 {
      IdSharesNone(ms, ps);
    } else {
      IdSharesCons(ms, ps);
      assert ps[0] in ps;
      IdHitsOnce(ms, ps[0].userId, ps[0].amount);
      assert forall p :: p in ps[1..] ==> p in ps;
      IdSharesTotal(ms, ps[1..]);
    }
  }

  lemma {:induction false} IdSharesNone(ms: seq<User>, ps: seq<Participant>)
    requires |ps| == 0
    ensures IdShares(ms, ps) == 0.0
  {
    if |ms| > 0 {
      IdSharesNone(ms[1..], ps);
    }
  }

  lemma {:induction false} MembersShareIsIdShares(ms: seq<User>, e: Expense)
    ensures MembersShare(ms, e) == IdShares(ms, e.participants)
  {
    if |ms| > 0 {
      MembersShareIsIdShares(ms[1..], e);
    }
  }

  /** In a well-formed ledger, the members together were charged the total of the expenses. */
  lemma {:induction false} SharesCoverAmounts(ms: seq<User>, es: seq<Expense>)
    requires WellFormed(ms, es)
    ensures ExpenseShares(ms, es) == TotalAmount(es)
  {
    if |es| > 0 {
      assert WellFormed(ms, es[1..]) by {
        assert forall k :: 0 <= k < |es[1..]| ==> es[1..][k] == es[k + 1];
      }
      SharesCoverAmounts(ms, es[1..]);
      MembersShareIsIdShares(ms, es[0]);
      IdSharesTotal(ms, es[0].participants);
    }
  }

  /** In a well-formed ledger, the members together paid the total of the expenses. */
  lemma {:induction false} PaidCoversAmounts(ms: seq<User>, es: seq<Expense>)
    requires WellFormed(ms, es)
    ensures ExpensePaid(ms, es) == TotalAmount(es)
  {
    if |es| > 0 {
      assert WellFormed(ms, es[1..]) by {
        assert forall k :: 0 <= k < |es[1..]| ==> es[1..][k] == es[k + 1];
      }
      PaidCoversAmounts(ms, es[1..]);
      NameHitsOnce(ms, es[0].paidBy, es[0].amount);
    }
  }

  /**
   * When every expense is paid by a member and shared among members with
   * shares adding up to its amount, the balances of the member view sum to
   * zero: what is owed to some is exactly what the others owe.
   */
  lemma {:induction false} BalancesSumToZero(ms: seq<User>, es: seq<Expense>)
    requires WellFormed(ms, es)
    ensures SumBalances(Rows(ms, es)) == 0.0
  {
    RowsSum(ms, es);
    PaidExchange(ms, es);
    SpentExchange(ms, es);
    PaidCoversAmounts(ms, es);
    SharesCoverAmounts(ms, es);
  }

  // ---------------------------------------------------------------------------
  // The expense list

  /** One row of the budget card's list: an expense with one share of the member's. */
  datatype Charge = Charge(expense: Expense, share: real)

  /** The member's entries of one expense, each as a charge. */
  function EntryCharges(e: Expense, ps: seq<Participant>, id: string): (r: seq<Charge>)
    ensures |r| <= |ps|
    ensures forall c :: c in r ==> c.expense == e
  {
    if |ps| == 0 then []
    else if ps[0].userId == id then [Charge(e, ps[0].amount)] + EntryCharges(e, ps[1..], id)
    else EntryCharges(e, ps[1..], id)
  }

  /** JS `flatMap`: every entry of the member in every expense, in order. */
  function Charges(es: seq<Expense>, id: string): (r: seq<Charge>)
    ensures forall c :: c in r ==> c.expense in es
  {
    if |es| == 0 then []
    else
      var rest := Charges(es[1..], id);
      assert forall c :: c in rest ==> c.expense in es;
      EntryCharges(es[0], es[0].participants, id) + rest
  }

  function SumCharges(cs: seq<Charge>): real {
    if |cs| == 0 then 0.0 else cs[0].share + SumCharges(cs[1..])
  }

  /** The budget card's spent figure: all of the member's entries, summed. */
  function SpentAll(es: seq<Expense>, id: string): real {
    SumCharges(Charges(es, id))
  }

  lemma {:induction false} SumChargesAppend(a: seq<Charge>, b: seq<Charge>)
    ensures SumCharges(a + b) == SumCharges(a) + SumCharges(b)
  {
    if |a| == 0 {
      assert a + b == b;
    } else {
      assert (a + b)[1..] == a[1..] + b;
      SumChargesAppend(a[1..], b);
    }
  }

  /** With distinct entries, summing every matching entry gives the first-matching share. */
  lemma {:induction false} EntryChargesFirst(e: Expense, ps: seq<Participant>, id: string)
    requires forall a, b :: 0 <= a < b < |ps| ==> ps[a].userId != ps[b].userId
    ensures SumCharges(EntryCharges(e, ps, id)) == ShareIn(ps, id)
  {
    if |ps| > 0 {
      ShareInCons(ps, id);
      EntryChargesFirst(e, ps[1..], id);
      if ps[0].userId == id {
        assert ([Charge(e, ps[0].amount)] + EntryCharges(e, ps[1..], id))[1..] == EntryCharges(e, ps[1..], id);
      }
    }
  }

  /**
   * The two spent figures agree when no expense lists a participant twice:
   * summing all of the member's entries then gives its first-matching shares.
   */
  lemma {:induction false} SpentAllIsFirstMatch(es: seq<Expense>, id: string)
    requires forall k :: 0 <= k < |es| ==> DistinctEntries(es[k])
    ensures SpentAll(es, id) == SharesOf(es, id)
  {
    if |es| > 0 {
      assert forall k :: 0 <= k < |es[1..]| ==> DistinctEntries(es[1..][k]) by {
        assert forall k :: 0 <= k < |es[1..]| ==> es[1..][k] == es[k + 1];
      }
      SpentAllIsFirstMatch(es[1..], id);
      SumChargesAppend(EntryCharges(es[0], es[0].participants, id), Charges(es[1..], id));
      EntryChargesFirst(es[0], es[0].participants, id);
    }
  }

  /**
   * The expense card's per-person figure: the amount divided by the number of
   * group members, whatever the number of participants. Without members the
   * JS division gives no finite figure.
   */
  function PerPerson(e: Expense, ms: seq<User>): (r: Option<real>)
    ensures r.None? <==> |ms| == 0
    ensures r.Some? ==> r.value * (|ms| as real) == e.amount
  {
    if |ms| == 0 then None else Some(e.amount / (|ms| as real))
  }

  /** The expense card's participant line: "Individual expense", or the per-person figure. */
  datatype ShareLine = IndividualLine | PerPersonLine(figure: Option<real>)

  /**
   * The expense card's badge and participant line. An expense with exactly
   * one participant entry carries the "Individual" badge and the line
   * "Individual expense"; any other shows the per-person figure, which
   * divides by the group's members however many entries the expense has.
   */
  function CardLine(e: Expense, ms: seq<User>): (r: ShareLine)
    ensures r.IndividualLine? <==> |e.participants| == 1
    ensures r.PerPersonLine? ==> (r.figure.Some? <==> |ms| > 0)
    ensures r.PerPersonLine? && |ms| > 0 ==> r.figure.value * (|ms| as real) == e.amount
  {
    if |e.participants| == 1 then IndividualLine else PerPersonLine(PerPerson(e, ms))
  }

  // ---------------------------------------------------------------------------
  // The budget card

  /** The budget card's "Remaining" figure: stored budget minus the spent figure. */
  function ShownRemaining(m: User, es: seq<Expense>): real {
    m.budget - SpentAll(es, m.id)
  }

  /**
   * The budget card's highlight: the spent figure exceeds the stored budget,
   * that is, the card's remaining figure is negative.
   */
  function ShownOverBudget(m: User, es: seq<Expense>): (r: bool)
    ensures r <==> ShownRemaining(m, es) < 0.0
  {
    SpentAll(es, m.id) > m.budget
  }

  /**
   * The stored budget has already been charged every share (`addExpense`
   * debits it), so the card subtracts each share a second time: in a ledger
   * whose budgets are consistent with starting budgets `initial`, the figure
   * shown is the starting budget minus TWICE what was spent, and the
   * highlight fires once half the starting budget is spent.
   */
  lemma {:induction false} RemainingCountsTwice(g: Group, initial: seq<real>, k: nat)
    requires Storage.BudgetsConsistent(g, initial) && k < |g.members|
    requires forall x :: 0 <= x < |g.expenses| ==> DistinctEntries(g.expenses[x])
    ensures ShownRemaining(g.members[k], g.expenses) == initial[k] - 2.0 * SharesOf(g.expenses, g.members[k].id)
    ensures ShownOverBudget(g.members[k], g.expenses) <==> 2.0 * SharesOf(g.expenses, g.members[k].id) > initial[k]
  {
    SpentAllIsFirstMatch(g.expenses, g.members[k].id);
  }

  /**
   * Concretely: a member starting at 800 who shares a 100 expense with one
   * other member has a stored budget of 750 and a spent figure of 50, and the
   * card shows 700 remaining.
   */
  lemma {:induction false} RemainingShownTooLow()
    ensures var m := User("u1", "Ann", "ann@example.com", None, 750.0);
            var e := Expense("e1", "Dinner", 100.0, None, "Ann", 0, Equal,
                             [Participant("u1", 50.0, true), Participant("u2", 50.0, false)]);
            && Storage.BudgetsConsistent(Group("g1", "Trip", None, [m], [e], 0, 0), [800.0])
            && SpentAll([e], "u1") == 50.0
            && ShownRemaining(m, [e]) == 700.0
  {
    var e := Expense("e1", "Dinner", 100.0, None, "Ann", 0, Equal,
                     [Participant("u1", 50.0, true), Participant("u2", 50.0, false)]);
    var ps := e.participants;
    assert ps[1..] == [Participant("u2", 50.0, false)];
    assert ps[1..][1..] == [];
    assert EntryCharges(e, ps, "u1") == [Charge(e, 50.0)];
    assert Charges([e], "u1") == [Charge(e, 50.0)] + Charges([e][1..], "u1");
    assert [e][1..] == [];
    assert SharesOf([e], "u1") == FirstShare(e, "u1") + SharesOf([e][1..], "u1");
  }

  /** What the budget card should show: the stored budget, which is what remains. */
  function Remaining(m: User): real {
    m.budget
  }

  /** What the highlight should test: the stored budget has gone below zero. */
  predicate OverBudget(m: User) {
    m.budget < 0.0
  }

  /**
   * The intended figures: in a ledger consistent with starting budgets
   * `initial`, the remaining figure is the starting budget minus what was
   * spent, and the highlight fires exactly when the spending exceeds the
   * starting budget.
   */
  lemma {:induction false} RemainingIsBudgetLeft(g: Group, initial: seq<real>, k: nat)
    requires Storage.BudgetsConsistent(g, initial) && k < |g.members|
    requires forall x :: 0 <= x < |g.expenses| ==> DistinctEntries(g.expenses[x])
    ensures Remaining(g.members[k]) == initial[k] - SpentAll(g.expenses, g.members[k].id)
    ensures OverBudget(g.members[k]) <==> SpentAll(g.expenses, g.members[k].id) > initial[k]
  {
    SpentAllIsFirstMatch(g.expenses, g.members[k].id);
  }
}
