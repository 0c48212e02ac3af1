/**
 * The end-of-night summary (components/expenses/expense-summary-dialog.tsx):
 * one summary per member, the shared expenses, and the settlements computed
 * from the summaries.
 *
 * The summaries are the very objects handed to `generateSettlements`, which
 * writes residual balances back into them; the dialog then renders them and
 * puts them in the summary text. `AsWritten` models that; `Intended` keeps
 * the summaries as computed.
 */
module Summary {
  import opened Model
  import Balances
  import Settlements
  import Lists

  /** A member's summary: what it was charged, what it paid, and the difference. */
  datatype MemberSummary = MemberSummary(member: User, totalSpent: real, totalPaid: real, balance: real)

  /** What the dialog shows: summaries, shared expenses, suggested settlements. */
  datatype Dialog = Dialog(summaries: seq<MemberSummary>, shared: seq<Expense>, settlements: seq<Settlements.Settlement>)

  /** One summary per member, in member order, with the member view's figures. */
  function Summaries(ms: seq<User>, es: seq<Expense>): (r: seq<MemberSummary>)
    ensures |r| == |ms|
    ensures forall k :: 0 <= k < |ms| ==>
              && r[k].member == ms[k]
              && r[k].totalSpent == SharesOf(es, ms[k].id)
              && r[k].totalPaid == Balances.TotalPaid(es, ms[k].name)
              && r[k].balance == r[k].totalPaid - r[k].totalSpent
  {
    seq(|ms|, k requires 0 <= k < |ms| =>
      var row := Balances.Row(ms[k], es);
      MemberSummary(row.member, row.totalSpent, row.totalPaid, row.balance))
  }

  /** An expense has more than one participant entry. */
  function IsShared(): Expense -> bool {
    (e: Expense) => |e.participants| > 1
  }

  /**
   * The shared expenses: those with more than one participant entry, each as
   * often as in the list, in the list's order.
   */
  function Shared(es: seq<Expense>): (r: seq<Expense>)
    ensures Lists.Subsequence(r, es)
    ensures forall e :: multiset(r)[e] == if |e.participants| > 1 then multiset(es)[e] else 0
    ensures forall e :: e in r <==> e in es && |e.participants| > 1
  {
    var r := Lists.Filter(es, IsShared());
    Lists.FilterExact(es, IsShared());
    assert forall e :: e in r <==> e in multiset(r);
    assert forall e :: e in es <==> e in multiset(es);
    r
  }

  /** The summaries as the solver reads them: a member and a balance each. */
  function Feed(ss: seq<MemberSummary>): (r: seq<Settlements.MemberBalance>)
    ensures |r| == |ss|
    ensures forall k :: 0 <= k < |ss| ==> r[k].member == ss[k].member && r[k].balance == ss[k].balance
  {
    seq(|ss|, k requires 0 <= k < |ss| => Settlements.MemberBalance(ss[k].member, ss[k].balance))
  }

  /** The summaries after the solver's write-backs: only the balance fields change. */
  function Rewritten(ss: seq<MemberSummary>, after: seq<Settlements.MemberBalance>): (r: seq<MemberSummary>)
    requires |after| == |ss|
    ensures |r| == |ss|
    ensures forall k :: 0 <= k < |ss| ==>
              r[k] == MemberSummary(ss[k].member, ss[k].totalSpent, ss[k].totalPaid, after[k].balance)
  {
    seq(|ss|, k requires 0 <= k < |ss| =>
      MemberSummary(ss[k].member, ss[k].totalSpent, ss[k].totalPaid, after[k].balance))
  }

  /**
   * The dialog as the source builds it: the settlements are computed from the
   * summaries, and the summaries shown are the ones the solver has rewritten.
   * Spent and paid figures are as computed; a balance is kept when it is
   * zero and otherwise only moves toward zero.
   */
  function AsWritten(ms: seq<User>, es: seq<Expense>): (d: Dialog)
    ensures |d.summaries| == |ms|
    ensures forall k :: 0 <= k < |ms| ==>
              && d.summaries[k].member == ms[k]
              && d.summaries[k].totalSpent == SharesOf(es, ms[k].id)
              && d.summaries[k].totalPaid == Balances.TotalPaid(es, ms[k].name)
    ensures forall k :: 0 <= k < |ms| ==>
              var b := Balances.TotalPaid(es, ms[k].name) - SharesOf(es, ms[k].id);
              && (b == 0.0 ==> d.summaries[k].balance == 0.0)
              && (b < 0.0 ==> b <= d.summaries[k].balance < 0.0)
              && (b > 0.0 ==> 0.0 < d.summaries[k].balance <= b)
    ensures forall k :: 0 <= k < |ms| ==>
              d.summaries[k].balance == Settlements.GenerateSettlements(Feed(Summaries(ms, es))).after[k].balance
    ensures d.shared == Shared(es)
    ensures d.settlements == Settlements.GenerateSettlements(Feed(Summaries(ms, es))).settlements
  {
    var ss := Summaries(ms, es);
    var o := Settlements.GenerateSettlements(Feed(ss));
    RewrittenMoveTowardZero(ss, Settlements.Residuals(Feed(ss)));
    Dialog(Rewritten(ss, o.after), Shared(es), o.settlements)
  }

  /** A rewritten summary keeps its figures and its balance's sign, and never grows its balance. */
  lemma {:induction false} RewrittenMoveTowardZero(ss: seq<MemberSummary>, bs: seq<real>)
    requires bs == Settlements.Residuals(Feed(ss))
    ensures |bs| == |ss|
    ensures var r := Rewritten(ss, Settlements.WriteBack(Feed(ss), bs));
            forall k :: 0 <= k < |ss| ==>
              && r[k].member == ss[k].member && r[k].totalSpent == ss[k].totalSpent
              && r[k].totalPaid == ss[k].totalPaid
              && (ss[k].balance == 0.0 ==> r[k].balance == 0.0)
              && (ss[k].balance < 0.0 ==> ss[k].balance <= r[k].balance < 0.0)
              && (ss[k].balance > 0.0 ==> 0.0 < r[k].balance <= ss[k].balance)
  {
    Settlements.ResidualFacts(Feed(ss), bs);
  }

  /**
   * The dialog as intended: the same settlements, and each summary's balance
   * is what the member paid minus what it was charged.
   */
  function Intended(ms: seq<User>, es: seq<Expense>): (d: Dialog)
    ensures |d.summaries| == |ms|
    ensures forall k :: 0 <= k < |ms| ==>
              && d.summaries[k].member == ms[k]
              && d.summaries[k].balance == Balances.TotalPaid(es, ms[k].name) - SharesOf(es, ms[k].id)
    ensures d.shared == Shared(es) == AsWritten(ms, es).shared
    ensures d.settlements == AsWritten(ms, es).settlements
  {
    var ss := Summaries(ms, es);
    Dialog(ss, Shared(es), Settlements.GenerateSettlements(Feed(ss)).settlements)
  }

  /** The balances the solver is fed add up to what the members paid minus what they were charged. */
  lemma {:induction false} FeedTotal(ms: seq<User>, es: seq<Expense>)
    ensures Settlements.TotalBalance(Feed(Summaries(ms, es))) == Balances.MembersPaid(ms, es) - Balances.MembersSpent(ms, es)
  {
    if |ms| > 0 {
      FeedTotal(ms[1..], es);
      var f, f' := Feed(Summaries(ms, es)), Feed(Summaries(ms[1..], es));
      var paid, spent := Balances.TotalPaid(es, ms[0].name), SharesOf(es, ms[0].id);
      assert f[0].balance == paid - spent;
      assert f[1..] == f' by {
        forall k | 0 <= k < |f'| ensures f[1..][k] == f'[k] {
          assert ms[1..][k] == ms[k + 1];
        }
      }
      assert Settlements.TotalBalance(f) == (paid - spent) + Settlements.TotalBalance(f');
      assert Balances.MembersPaid(ms, es) == paid + Balances.MembersPaid(ms[1..], es);
      assert Balances.MembersSpent(ms, es) == spent + Balances.MembersSpent(ms[1..], es);
    }
  }

  /**
   * For a ledger whose books balance, the intended dialog settles up exactly:
   * following the suggested settlements, each member receives minus pays its
   * shown balance, every debtor paying its whole debt and every creditor
   * receiving its whole credit.
   */
  lemma {:induction false} SettlementsSettleShownBalances(ms: seq<User>, es: seq<Expense>)
    requires Balances.WellFormed(ms, es)
    ensures var s := Feed(Summaries(ms, es));
            var r := Settlements.Transfers(s);
            var d := Intended(ms, es);
            forall k :: 0 <= k < |ms| ==>
              && Settlements.Received(r, k) - Settlements.Paid(r, k) == d.summaries[k].balance
              && (d.summaries[k].balance < 0.0 ==> Settlements.Paid(r, k) == -d.summaries[k].balance)
              && (d.summaries[k].balance > 0.0 ==> Settlements.Received(r, k) == d.summaries[k].balance)
  {
    FedBalancesSumToZero(ms, es);
    Settlements.SettlementsConserve(Feed(Summaries(ms, es)));
  }

  /**
   * For a ledger whose books balance, the dialog as written shows each
   * member that owes money minus its last suggested payment, and each member
   * owed money its last suggested receipt, in place of its balance.
   */
  lemma {:induction false} ShownBalancesAreLastPayments(ms: seq<User>, es: seq<Expense>)
    requires Balances.WellFormed(ms, es)
    ensures var s := Feed(Summaries(ms, es));
            forall k :: 0 <= k < |ms| ==>
              Settlements.LeftAtLast(s, Settlements.Transfers(s), k, AsWritten(ms, es).summaries[k].balance)
  {
    var s := Feed(Summaries(ms, es));
    FedBalancesSumToZero(ms, es);
    Settlements.SettledAtLastPayments(s);
    var d, o := AsWritten(ms, es), Settlements.GenerateSettlements(s);
    assert forall k :: 0 <= k < |ms| ==> d.summaries[k].balance == o.after[k].balance;
  }

  /** A ledger whose books balance feeds the solver balances that sum to zero. */
  lemma {:induction false} FedBalancesSumToZero(ms: seq<User>, es: seq<Expense>)
    requires Balances.WellFormed(ms, es)
    ensures Settlements.TotalBalance(Feed(Summaries(ms, es))) == 0.0
  {
    Balances.BalancesSumToZero(ms, es);
    Balances.RowsSum(ms, es);
    FeedTotal(ms, es);
  }

  function Members(): seq<User> {
    [Settlements.Person("A"), Settlements.Person("B"), Settlements.Person("C")]
  }

  /** B paid 10 and C paid 20, both for A alone. */
  function Evening(): seq<Expense> {
    [Expense("e1", "Taxi", 10.0, Wrappers.None, "B", 0, Equal, [Participant("A", 10.0, false)]),
     Expense("e2", "Food", 20.0, Wrappers.None, "C", 0, Equal, [Participant("A", 20.0, false)])]
  }

  lemma {:induction false} EveningFigures(es: seq<Expense>)
    requires es == Evening()
    ensures SharesOf(es, "A") == 30.0 && SharesOf(es, "B") == 0.0 && SharesOf(es, "C") == 0.0
    ensures Balances.TotalPaid(es, "A") == 0.0 && Balances.TotalPaid(es, "B") == 10.0
    ensures Balances.TotalPaid(es, "C") == 20.0
  {
    EveningSpent(es);
    EveningPaid(es);
  }

  lemma {:induction false} EveningSpent(es: seq<Expense>)
    requires es == Evening()
    ensures SharesOf(es, "A") == 30.0 && SharesOf(es, "B") == 0.0 && SharesOf(es, "C") == 0.0
  {
    assert es[1..][1..] == [];
    assert SharesOf(es[1..], "A") == FirstShare(es[1], "A") + SharesOf(es[1..][1..], "A");
    assert SharesOf(es[1..], "B") == FirstShare(es[1], "B") + SharesOf(es[1..][1..], "B");
    assert SharesOf(es[1..], "C") == FirstShare(es[1], "C") + SharesOf(es[1..][1..], "C");
  }

  lemma {:induction false} EveningPaid(es: seq<Expense>)
    requires es == Evening()
    ensures Balances.TotalPaid(es, "A") == 0.0 && Balances.TotalPaid(es, "B") == 10.0
    ensures Balances.TotalPaid(es, "C") == 20.0
  {
    var x, y := es[0], es[1];
    assert x.paidBy == "B" && x.amount == 10.0 && y.paidBy == "C" && y.amount == 20.0;
    assert "A" != "B" && "A" != "C" && "B" != "C";
    Lists.SumOfTwo(es, Balances.PaidAmount("A"));
    Lists.SumOfTwo(es, Balances.PaidAmount("B"));
    Lists.SumOfTwo(es, Balances.PaidAmount("C"));
  }

  lemma {:induction false} EveningFeed()
    ensures Feed(Summaries(Members(), Evening())) == Settlements.Example()
  {
    var ms, es := Members(), Evening();
    EveningFigures(es);
    var ss := Summaries(ms, es);
    assert ms[0].id == "A" && ms[1].id == "B" && ms[2].id == "C";
    assert ms[0].name == "A" && ms[1].name == "B" && ms[2].name == "C";
    assert ss[0].balance == -30.0 && ss[1].balance == 10.0 && ss[2].balance == 20.0;
    FeedOfThree(ss);
  }

  lemma {:induction false} FeedOfThree(ss: seq<MemberSummary>)
    requires |ss| == 3 && ss[0].balance == -30.0 && ss[1].balance == 10.0 && ss[2].balance == 20.0
    requires ss[0].member == Settlements.Person("A") && ss[1].member == Settlements.Person("B")
    requires ss[2].member == Settlements.Person("C")
    ensures Feed(ss) == Settlements.Example()
  {
    var f := Feed(ss);
    assert f[0] == Settlements.Example()[0] && f[1] == Settlements.Example()[1] && f[2] == Settlements.Example()[2];
  }

  /**
   * The rewritten summaries are what the dialog shows: A was charged 30 and
   * paid nothing, yet after settling up its summary shows a balance of -10,
   * not -30.
   */
  lemma {:induction false} ShownBalanceIsResidual()
    ensures AsWritten(Members(), Evening()).summaries[0].balance == -10.0
    ensures Intended(Members(), Evening()).summaries[0].balance == -30.0
  {
    var ms, es := Members(), Evening();
    EveningFeed();
    Settlements.ExampleAfter();
    assert Intended(ms, es).summaries == Summaries(ms, es);
    assert Feed(Summaries(ms, es))[0].balance == Summaries(ms, es)[0].balance;
  }
}
