/**
 * The expenses dashboard (components/expenses/expenses-dashboard.tsx): every
 * expense of every group, tagged with its group and ordered newest first,
 * and the totals shown above the table.
 */
module Dashboard {
  import opened Model
  import Lists
  import Storage

  /** An expense with the name and id of the group it belongs to. */
  datatype Tagged = Tagged(expense: Expense, groupName: string, groupId: string)

  /** The dashboard's figures. */
  datatype Totals = Totals(totalSpent: real, totalBudget: real, expenseCount: nat, groupCount: nat)

  /** Number of expenses over all groups. */
  function ExpenseCount(gs: seq<Group>): nat {
    if |gs| == 0 then 0 else |gs[0].expenses| + ExpenseCount(gs[1..])
  }

  /** Sum of the expense amounts over all groups. */
  function GroupsSpent(gs: seq<Group>): real {
    if |gs| == 0 then 0.0 else TotalAmount(gs[0].expenses) + GroupsSpent(gs[1..])
  }

  /** Sum over groups of the sum of the members' budgets. */
  function GroupsBudget(gs: seq<Group>): real {
    if |gs| == 0 then 0.0 else TotalBudget(gs[0].members) + GroupsBudget(gs[1..])
  }

  /** One group's expenses, each tagged with the group (the inner `map`). */
  function Tag(g: Group, es: seq<Expense>): (r: seq<Tagged>)
    ensures |r| == |es|
    ensures forall k :: 0 <= k < |es| ==> r[k] == Tagged(es[k], g.name, g.id)
  {
    seq(|es|, k requires 0 <= k < |es| => Tagged(es[k], g.name, g.id))
  }

  /**
   * JS `flatMap` over the groups: as many entries as there are expenses, and
   * an entry is there exactly when it is an expense of some group tagged with
   * that group's name and id.
   */
  function Flatten(gs: seq<Group>): (r: seq<Tagged>)
    ensures |r| == ExpenseCount(gs)
    ensures forall t :: t in r <==>
              exists i :: 0 <= i < |gs| && t.expense in gs[i].expenses
                          && t.groupName == gs[i].name && t.groupId == gs[i].id
  {
    if |gs| == 0 then []
    else
      var head := Tag(gs[0], gs[0].expenses);
      var rest := Flatten(gs[1..]);
      assert forall t :: t in head <==>
               t.expense in gs[0].expenses && t.groupName == gs[0].name && t.groupId == gs[0].id by {
        forall t | t in head
          ensures t.expense in gs[0].expenses && t.groupName == gs[0].name && t.groupId == gs[0].id
        {
          var k :| 0 <= k < |head| && head[k] == t;
        }
        forall t: Tagged | t.expense in gs[0].expenses && t.groupName == gs[0].name && t.groupId == gs[0].id
          ensures t in head
        {
          var k :| 0 <= k < |gs[0].expenses| && gs[0].expenses[k] == t.expense;
          assert head[k] == t;
        }
      }
      forall t | t in rest
        ensures exists i :: 0 <= i < |gs| && t.expense in gs[i].expenses
                            && t.groupName == gs[i].name && t.groupId == gs[i].id
      {
        var i :| 0 <= i < |gs[1..]| && t.expense in gs[1..][i].expenses
                 && t.groupName == gs[1..][i].name && t.groupId == gs[1..][i].id;
        assert gs[i + 1] == gs[1..][i];
      }
      forall t: Tagged | (exists i :: 0 <= i < |gs| && t.expense in gs[i].expenses
                            && t.groupName == gs[i].name && t.groupId == gs[i].id)
        ensures t in head + rest
      {
        var i :| 0 <= i < |gs| && t.expense in gs[i].expenses && t.groupName == gs[i].name && t.groupId == gs[i].id;
        if i > 0 {
          assert gs[1..][i - 1] == gs[i];
        }
      }
      head + rest
  }

  /** The sort key: the timestamp, larger (newer) first. */
  function DateKey(t: Tagged): real {
    t.expense.date as real
  }

  function TaggedAmount(t: Tagged): real {
    t.expense.amount
  }

  /**
   * `allExpenses`: the flattened expenses ordered newest first. It is a
   * permutation of the flattened list, so each expense appears as often as
   * there, and expenses with the same date keep their flattened order.
   */
  function AllExpenses(gs: seq<Group>): (r: seq<Tagged>)
    ensures multiset(r) == multiset(Flatten(gs))
    ensures |r| == ExpenseCount(gs)
    ensures forall a, b :: 0 <= a < b < |r| ==> r[a].expense.date >= r[b].expense.date
    ensures forall v :: Lists.Filter(r, Lists.WithKey(DateKey, v)) == Lists.Filter(Flatten(gs), Lists.WithKey(DateKey, v))
  {
    var r := Lists.SortBy(Flatten(gs), DateKey);
    NewestFirst(r);
    Lists.SortKeepsTies(Flatten(gs), DateKey);
    r
  }

  /** Non-increasing date keys are non-increasing timestamps. */
  lemma {:induction false} NewestFirst(r: seq<Tagged>)
    requires Lists.NonIncreasing(r, DateKey)
    ensures forall a, b :: 0 <= a < b < |r| ==> r[a].expense.date >= r[b].expense.date
  {
    forall a, b | 0 <= a < b < |r| ensures r[a].expense.date >= r[b].expense.date {
      assert DateKey(r[a]) >= DateKey(r[b]);
    }
  }

  lemma {:induction false} TagSpent(g: Group, es: seq<Expense>)
    ensures Lists.SumOf(Tag(g, es), TaggedAmount) == TotalAmount(es)
  {
    if |es| > 0 {
      assert Tag(g, es)[1..] == Tag(g, es[1..]);
      TagSpent(g, es[1..]);
    }
  }

  lemma {:induction false} FlattenSpent(gs: seq<Group>)
    ensures Lists.SumOf(Flatten(gs), TaggedAmount) == GroupsSpent(gs)
  {
    if |gs| > 0 {
      FlattenSpent(gs[1..]);
      TagSpent(gs[0], gs[0].expenses);
      Lists.SumOfAppend(Tag(gs[0], gs[0].expenses), Flatten(gs[1..]), TaggedAmount);
    }
  }

  /**
   * The dashboard figures: the total spent is the sum of every group's
   * expense amounts, the total budget the sum of every group's member
   * budgets, and the counts are the number of expenses and of groups.
   */
  function Summarize(gs: seq<Group>): (r: Totals)
    ensures r.totalSpent == GroupsSpent(gs)
    ensures r.totalBudget == GroupsBudget(gs)
    ensures r.expenseCount == ExpenseCount(gs) && r.groupCount == |gs|
  {
    var all := AllExpenses(gs);
    Lists.SortSum(Flatten(gs), DateKey, TaggedAmount);
    FlattenSpent(gs);
    Totals(Lists.SumOf(all, TaggedAmount), GroupsBudget(gs), |all|, |gs|)
  }

  lemma {:induction false} GroupsBudgetAppend(gs: seq<Group>, g: Group)
    ensures GroupsBudget(gs + [g]) == GroupsBudget(gs) + TotalBudget(g.members)
  {
    if |gs| == 0 {
      assert gs + [g] == [g];
      assert [g][1..] == [];
    } else {
      assert (gs + [g])[1..] == gs[1..] + [g];
      GroupsBudgetAppend(gs[1..], g);
    }
  }

  lemma {:induction false} GroupsSpentAppend(gs: seq<Group>, g: Group)
    ensures GroupsSpent(gs + [g]) == GroupsSpent(gs) + TotalAmount(g.expenses)
    ensures ExpenseCount(gs + [g]) == ExpenseCount(gs) + |g.expenses|
  {
    if |gs| == 0 {
      assert gs + [g] == [g];
      assert [g][1..] == [];
    } else {
      assert (gs + [g])[1..] == gs[1..] + [g];
      GroupsSpentAppend(gs[1..], g);
    }
  }

  /**
   * Creating a group adds one to the group count and its members' budgets to
   * the total budget, and leaves the total spent and the expense count alone.
   */
  lemma {:induction false} CreateGroupTotals(gs: seq<Group>, d: Storage.GroupDraft, freshId: string, created: int, updated: int)
    ensures var after := Summarize(Storage.CreateGroup(gs, d, freshId, created, updated).1);
            && after.groupCount == |gs| + 1
            && after.totalBudget == GroupsBudget(gs) + TotalBudget(d.members)
            && after.totalSpent == GroupsSpent(gs)
            && after.expenseCount == ExpenseCount(gs)
  {
    var g := Storage.CreateGroup(gs, d, freshId, created, updated).0;
    GroupsBudgetAppend(gs, g);
    GroupsSpentAppend(gs, g);
  }
}
