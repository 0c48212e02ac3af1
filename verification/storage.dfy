/**
 * The ledger's persistent operations (lib/storage.ts) as pure updates of the
 * stored lists. The browser store, JSON encoding, random id generation and the
 * clock are outside the model: the caller passes the current list of groups
 * (or users), a fresh id and the current time, and receives the list to store.
 */
module Storage {
  import opened Wrappers
  import opened Model
  import Lists

  /** An expense as handed to `addExpense`: everything but its id. */
  datatype ExpenseDraft = ExpenseDraft(
    title: string,
    amount: real,
    description: Option<string>,
    paidBy: string,
    date: int,
    splitType: SplitType,
    participants: seq<Participant>)

  /** A group as handed to `createGroup`: everything but id, expenses and timestamps. */
  datatype GroupDraft = GroupDraft(name: string, description: Option<string>, members: seq<User>)

  /** The outcome of a write: the boolean the source returns, and the groups as stored afterwards. */
  datatype Write = Write(ok: bool, groups: seq<Group>)

  /** Why `createUser` refused. */
  datatype UserError = UserAlreadyExists

  /** The budget every new user starts with. */
  const DefaultBudget: real := 800.0

  /** The expense `addExpense` stores: the draft with the generated id. */
  function WithId(d: ExpenseDraft, id: string): (e: Expense)
    ensures e.id == id && e.participants == d.participants && e.amount == d.amount && e.paidBy == d.paidBy
  {
    Expense(id, d.title, d.amount, d.description, d.paidBy, d.date, d.splitType, d.participants)
  }

  /** JS `findIndex` on group ids: the position of the first group with that id. */
  function FindGroup(groups: seq<Group>, id: string): (r: Option<nat>)
    ensures r.None? <==> forall k :: 0 <= k < |groups| ==> groups[k].id != id
    ensures r.Some? ==> r.value < |groups| && groups[r.value].id == id
                        && forall k :: 0 <= k < r.value ==> groups[k].id != id
  {
    if |groups| == 0 then None
    else if groups[0].id == id then Some(0)
    else
      match FindGroup(groups[1..], id)
      case None => None
      case Some(k) => Some(k + 1)
  }

  /** `getGroup`: the first group with that id, if any. */
  function GetGroup(groups: seq<Group>, id: string): (r: Option<Group>)
    ensures r.None? <==> forall k :: 0 <= k < |groups| ==> groups[k].id != id
    ensures r.Some? ==> exists k :: 0 <= k < |groups| && groups[k] == r.value && r.value.id == id
                                    && forall l :: 0 <= l < k ==> groups[l].id != id
  {
    match FindGroup(groups, id)
    case None => None
    case Some(k) => Some(groups[k])
  }

  /** The first expense with that id (JS `expenses.find`). */
  function FindExpense(es: seq<Expense>, id: string): (r: Option<Expense>)
    ensures r.None? <==> forall k :: 0 <= k < |es| ==> es[k].id != id
    ensures r.Some? ==> exists k :: 0 <= k < |es| && es[k] == r.value && r.value.id == id
                                    && forall l :: 0 <= l < k ==> es[l].id != id
  {
    if |es| == 0 then None
    else if es[0].id == id then Some(es[0])
    else
      var r := FindExpense(es[1..], id);
      if r.Some? then
        var k :| 0 <= k < |es[1..]| && es[1..][k] == r.value && r.value.id == id
                 && forall l :: 0 <= l < k ==> es[1..][l].id != id;
        assert es[k + 1] == r.value;
        assert forall l :: 1 <= l < k + 1 ==> es[l] == es[1..][l - 1];
        r
      else r
  }

  /** An expense's id differs from `id`. */
  function OtherThan(id: string): Expense -> bool {
    (e: Expense) => e.id != id
  }

  /**
   * The expenses whose id differs from `id` (JS `filter(e => e.id !== id)`):
   * each as often as in the list, in the list's order.
   */
  function WithoutExpense(es: seq<Expense>, id: string): (r: seq<Expense>)
    ensures Lists.Subsequence(r, es)
    ensures forall e :: multiset(r)[e] == if e.id != id then multiset(es)[e] else 0
    ensures forall k :: 0 <= k < |r| ==> r[k].id != id
    ensures (forall k :: 0 <= k < |es| ==> es[k].id != id) ==> r == es
  {
    var r := Lists.Filter(es, OtherThan(id));
    Lists.FilterExact(es, OtherThan(id));
    if forall k :: 0 <= k < |es| ==> es[k].id != id then
      Lists.FilterKeepsAll(es, OtherThan(id));
      r
    else
      r
  }

  /** Members after an expense is added: each pays its first-matching share. */
  function Debit(ms: seq<User>, ps: seq<Participant>): (r: seq<User>)
    ensures |r| == |ms|
    ensures forall k :: 0 <= k < |ms| ==>
              r[k] == ms[k].(budget := ms[k].budget - ShareIn(ps, ms[k].id))
  {
    seq(|ms|, k requires 0 <= k < |ms| =>
      match FindParticipant(ps, ms[k].id)
      case Some(p) => ms[k].(budget := ms[k].budget - p.amount)
      case None => ms[k])
  }

  /** Members after an expense is deleted: each is refunded its first-matching share. */
  function Credit(ms: seq<User>, ps: seq<Participant>): (r: seq<User>)
    ensures |r| == |ms|
    ensures forall k :: 0 <= k < |ms| ==>
              r[k] == ms[k].(budget := ms[k].budget + ShareIn(ps, ms[k].id))
  {
    seq(|ms|, k requires 0 <= k < |ms| =>
      match FindParticipant(ps, ms[k].id)
      case Some(p) => ms[k].(budget := ms[k].budget + p.amount)
      case None => ms[k])
  }

  /** `addExpense`: appends the expense to the group and debits every participating member. */
  function AddExpense(groups: seq<Group>, groupId: string, d: ExpenseDraft, freshId: string, now: int): (r: Write)
    ensures FindGroup(groups, groupId).None? ==> r == Write(false, groups)
    ensures FindGroup(groups, groupId).Some? ==>
              var gi := FindGroup(groups, groupId).value;
              var g := groups[gi];
              && r.ok
              && |r.groups| == |groups|
              && (forall k :: 0 <= k < |groups| && k != gi ==> r.groups[k] == groups[k])
              && r.groups[gi].id == g.id && r.groups[gi].name == g.name
              && r.groups[gi].description == g.description && r.groups[gi].createdAt == g.createdAt
              && r.groups[gi].updatedAt == now
              && r.groups[gi].expenses == g.expenses + [WithId(d, freshId)]
              && |r.groups[gi].members| == |g.members|
              && forall k :: 0 <= k < |g.members| ==>
                   r.groups[gi].members[k] == g.members[k].(budget := g.members[k].budget - ShareIn(d.participants, g.members[k].id))
  {
    match FindGroup(groups, groupId)
    case None => Write(false, groups)
    case Some(gi) =>
      var g := groups[gi];
      var e := WithId(d, freshId);
      var g' := g.(expenses := g.expenses + [e], updatedAt := now, members := Debit(g.members, e.participants));
      Write(true, groups[gi := g'])
  }

  /** `deleteExpense`: refunds the first expense with that id and removes every expense with it. */
  function DeleteExpense(groups: seq<Group>, groupId: string, expenseId: string, now: int): (r: Write)
    ensures FindGroup(groups, groupId).None? ==> r == Write(false, groups)
    ensures (FindGroup(groups, groupId).Some? &&
             FindExpense(groups[FindGroup(groups, groupId).value].expenses, expenseId).None?) ==> r == Write(false, groups)
    ensures FindGroup(groups, groupId).Some? && FindExpense(groups[FindGroup(groups, groupId).value].expenses, expenseId).Some? ==>
              var gi := FindGroup(groups, groupId).value;
              var g := groups[gi];
              var e := FindExpense(g.expenses, expenseId).value;
              && r.ok
              && |r.groups| == |groups|
              && (forall k :: 0 <= k < |groups| && k != gi ==> r.groups[k] == groups[k])
              && r.groups[gi].id == g.id && r.groups[gi].name == g.name
              && r.groups[gi].description == g.description && r.groups[gi].createdAt == g.createdAt
              && r.groups[gi].updatedAt == now
              && r.groups[gi].expenses == WithoutExpense(g.expenses, expenseId)
              && |r.groups[gi].members| == |g.members|
              && forall k :: 0 <= k < |g.members| ==>
                   r.groups[gi].members[k] == g.members[k].(budget := g.members[k].budget + ShareIn(e.participants, g.members[k].id))
  {
    match FindGroup(groups, groupId)
    case None => Write(false, groups)
    case Some(gi) =>
      var g := groups[gi];
      match FindExpense(g.expenses, expenseId)
      case None => Write(false, groups)
      case Some(e) =>
        var g' := g.(members := Credit(g.members, e.participants),
                     expenses := WithoutExpense(g.expenses, expenseId),
                     updatedAt := now);
        Write(true, groups[gi := g'])
  }

  /**
   * `createGroup`: appends a new group with no expenses; returns it with the
   * new list. The clock is read twice, once for each time stamp, so the two
   * are separate parameters.
   */
  function CreateGroup(groups: seq<Group>, d: GroupDraft, freshId: string, created: int, updated: int): (r: (Group, seq<Group>))
    ensures r.1 == groups + [r.0]
    ensures r.0.id == freshId && r.0.name == d.name && r.0.description == d.description
    ensures r.0.members == d.members && r.0.expenses == []
    ensures r.0.createdAt == created && r.0.updatedAt == updated
  {
    var g := Group(freshId, d.name, d.description, d.members, [], created, updated);
    (g, groups + [g])
  }

  /** The part of an email before its first '@' (JS `email.split("@")[0]`). */
  function LocalPart(email: string): (r: string)
    ensures r <= email
    ensures '@' !in r
    ensures |r| < |email| ==> email[|r|] == '@'
  {
    if |email| == 0 || email[0] == '@' then ""
    else [email[0]] + LocalPart(email[1..])
  }

  /**
   * `createUser`: refuses an email already registered; otherwise appends a
   * user with the default budget. `hashed` is the password hash computed by
   * the caller, a blank or missing name defaults to the email's local part.
   */
  function CreateUser(users: seq<User>, email: string, hashed: string, name: Option<string>, freshId: string)
    : (r: Result<(User, seq<User>), UserError>)
    ensures r.Failure? <==> exists k :: 0 <= k < |users| && users[k].email == email
    ensures r.Success? ==>
              var u := r.value.0;
              && r.value.1 == users + [u]
              && u.id == freshId && u.email == email && u.password == Some(hashed)
              && u.budget == DefaultBudget
              && (name.Some? && name.value != "" ==> u.name == name.value)
              && (name.None? || name.value == "" ==> u.name == LocalPart(email))
  {
    if exists k :: 0 <= k < |users| && users[k].email == email then Failure(UserAlreadyExists)
    else
      var n := if name.Some? && name.value != "" then name.value else LocalPart(email);
      var u := User(freshId, n, email, Some(hashed), DefaultBudget);
      Success((u, users + [u]))
  }

  // ---------------------------------------------------------------------------
  // Laws of the ledger operations

  /** Replacing a group by one with the same id does not change where an id is found. */
  lemma {:induction false} FindGroupAfterUpdate(groups: seq<Group>, gi: nat, g: Group, id: string)
    requires gi < |groups| && g.id == groups[gi].id
    ensures FindGroup(groups[gi := g], id) == FindGroup(groups, id)
  {
    if |groups| > 0 && gi > 0 {
      assert groups[gi := g][1..] == groups[1..][gi - 1 := g];
      FindGroupAfterUpdate(groups[1..], gi - 1, g, id);
    }
  }

  lemma {:induction false} FindExpenseAppendFresh(es: seq<Expense>, e: Expense)
    requires forall k :: 0 <= k < |es| ==> es[k].id != e.id
    ensures FindExpense(es + [e], e.id) == Some(e)
  {
    if |es| > 0 {
      assert (es + [e])[1..] == es[1..] + [e];
      FindExpenseAppendFresh(es[1..], e);
    } else {
      assert es + [e] == [e];
    }
  }

  lemma {:induction false} WithoutAppendFresh(es: seq<Expense>, e: Expense)
    requires forall k :: 0 <= k < |es| ==> es[k].id != e.id
    ensures WithoutExpense(es + [e], e.id) == es
  {
    Lists.FilterAppend(es, [e], OtherThan(e.id));
    Lists.FilterKeepsAll(es, OtherThan(e.id));
    Lists.FilterCons(e, [], OtherThan(e.id));
    assert [e] + [] == [e];
  }

  /**
   * Deleting an expense just added (under an id not used before in that group)
   * restores the group's expenses and every member budget exactly; only the
   * update timestamp differs.
   */
  lemma {:induction false} AddThenDeleteRestores(groups: seq<Group>, groupId: string, d: ExpenseDraft, freshId: string, t1: int, t2: int)
    requires FindGroup(groups, groupId).Some?
    requires forall k :: 0 <= k < |groups[FindGroup(groups, groupId).value].expenses| ==>
               groups[FindGroup(groups, groupId).value].expenses[k].id != freshId
    ensures var gi := FindGroup(groups, groupId).value;
            var w := AddExpense(groups, groupId, d, freshId, t1);
            var w' := DeleteExpense(w.groups, groupId, freshId, t2);
            w.ok && w'.ok && w'.groups == groups[gi := groups[gi].(updatedAt := t2)]
  {
    var gi := FindGroup(groups, groupId).value;
    var g := groups[gi];
    var e := WithId(d, freshId);
    var g1 := g.(expenses := g.expenses + [e], updatedAt := t1, members := Debit(g.members, e.participants));
    var g2 := g.(updatedAt := t2);
    AddWrites(groups, groupId, d, freshId, t1);
    var w := AddExpense(groups, groupId, d, freshId, t1);
    assert w == Write(true, groups[gi := g1]);
    FindGroupAfterUpdate(groups, gi, g1, groupId);
    FindExpenseAppendFresh(g.expenses, e);
    DeleteWrites(w.groups, groupId, freshId, t2);
    DeleteRestoresGroup(g, d, freshId, t1, t2);
    assert DeleteExpense(w.groups, groupId, freshId, t2) == Write(true, groups[gi := g1][gi := g2]);
    assert groups[gi := g1][gi := g2] == groups[gi := g2];
  }

  /** On one group: deleting the expense just appended undoes the append and the debits. */
  lemma DeleteRestoresGroup(g: Group, d: ExpenseDraft, freshId: string, t1: int, t2: int)
    requires forall k :: 0 <= k < |g.expenses| ==> g.expenses[k].id != freshId
    ensures var e := WithId(d, freshId);
            var g1 := g.(expenses := g.expenses + [e], updatedAt := t1, members := Debit(g.members, e.participants));
            g1.(members := Credit(g1.members, e.participants), expenses := WithoutExpense(g1.expenses, freshId), updatedAt := t2)
              == g.(updatedAt := t2)
  {
    var e := WithId(d, freshId);
    WithoutAppendFresh(g.expenses, e);
    CreditUndoesDebit(g.members, e.participants);
  }

  /** What `addExpense` writes when the group exists. */
  lemma AddWrites(groups: seq<Group>, groupId: string, d: ExpenseDraft, freshId: string, now: int)
    requires FindGroup(groups, groupId).Some?
    ensures var gi := FindGroup(groups, groupId).value;
            var g := groups[gi];
            AddExpense(groups, groupId, d, freshId, now) ==
              Write(true, groups[gi := g.(expenses := g.expenses + [WithId(d, freshId)], updatedAt := now,
                                          members := Debit(g.members, d.participants))])
  {
  }

  /** What `deleteExpense` writes when the group and the expense exist. */
  lemma DeleteWrites(groups: seq<Group>, groupId: string, expenseId: string, now: int)
    requires FindGroup(groups, groupId).Some?
    requires FindExpense(groups[FindGroup(groups, groupId).value].expenses, expenseId).Some?
    ensures var gi := FindGroup(groups, groupId).value;
            var g := groups[gi];
            var e := FindExpense(g.expenses, expenseId).value;
            DeleteExpense(groups, groupId, expenseId, now) ==
              Write(true, groups[gi := g.(members := Credit(g.members, e.participants),
                                          expenses := WithoutExpense(g.expenses, expenseId), updatedAt := now)])
  {
  }

  /** Refunding the shares just debited gives back the same members. */
  lemma {:induction false} CreditUndoesDebit(ms: seq<User>, ps: seq<Participant>)
    ensures Credit(Debit(ms, ps), ps) == ms
  {
    var r := Credit(Debit(ms, ps), ps);
    forall k | 0 <= k < |ms| ensures r[k] == ms[k] {
      assert Debit(ms, ps)[k].id == ms[k].id;
    }
  }

  /**
   * The ledger invariant: every member's stored budget is its starting budget
   * minus the first-matching shares it holds in the group's expenses.
   */
  predicate BudgetsConsistent(g: Group, initial: seq<real>) {
    && |initial| == |g.members|
    && forall k :: 0 <= k < |g.members| ==>
         g.members[k].budget == initial[k] - SharesOf(g.expenses, g.members[k].id)
  }

  /** A freshly created group satisfies the invariant for its members' budgets. */
  lemma {:induction false} CreatedGroupConsistent(groups: seq<Group>, d: GroupDraft, freshId: string, created: int, updated: int)
    ensures BudgetsConsistent(CreateGroup(groups, d, freshId, created, updated).0, seq(|d.members|, k requires 0 <= k < |d.members| => d.members[k].budget))
  {
  }

  /** `addExpense` keeps the ledger invariant of the group it writes to. */
  lemma {:induction false} AddKeepsBudgetsConsistent(groups: seq<Group>, groupId: string, d: ExpenseDraft, freshId: string, now: int, initial: seq<real>)
    requires FindGroup(groups, groupId).Some?
    requires BudgetsConsistent(groups[FindGroup(groups, groupId).value], initial)
    ensures BudgetsConsistent(AddExpense(groups, groupId, d, freshId, now).groups[FindGroup(groups, groupId).value], initial)
  {
    var gi := FindGroup(groups, groupId).value;
    var g := groups[gi];
    var e := WithId(d, freshId);
    var g' := AddExpense(groups, groupId, d, freshId, now).groups[gi];
    forall k | 0 <= k < |g.members|
      ensures g'.members[k].budget == initial[k] - SharesOf(g'.expenses, g'.members[k].id)
    {
      var id := g.members[k].id;
      SharesOfAppend(g.expenses, [e], id);
      assert SharesOf([e], id) == FirstShare(e, id) + SharesOf([], id);
    }
  }

  /** Removing the only expense with an id removes exactly its shares. */
  lemma {:induction false} SharesOfWithout(es: seq<Expense>, k: nat, id: string)
    requires k < |es|
    requires forall l :: 0 <= l < |es| && l != k ==> es[l].id != es[k].id
    ensures SharesOf(WithoutExpense(es, es[k].id), id) == SharesOf(es, id) - FirstShare(es[k], id)
  {
    if k == 0 {
      assert forall l :: 0 <= l < |es[1..]| ==> es[1..][l].id != es[0].id;
      assert WithoutExpense(es[1..], es[0].id) == es[1..];
    } else {
      SharesOfWithout(es[1..], k - 1, id);
      assert es[1..][k - 1] == es[k];
    }
  }

  /** `deleteExpense` keeps the ledger invariant when expense ids are unique in the group. */
  lemma {:induction false} DeleteKeepsBudgetsConsistent(groups: seq<Group>, groupId: string, expenseId: string, now: int, initial: seq<real>)
    requires FindGroup(groups, groupId).Some?
    requires var g := groups[FindGroup(groups, groupId).value];
             forall a, b :: 0 <= a < b < |g.expenses| ==> g.expenses[a].id != g.expenses[b].id
    requires BudgetsConsistent(groups[FindGroup(groups, groupId).value], initial)
    ensures BudgetsConsistent(DeleteExpense(groups, groupId, expenseId, now).groups[FindGroup(groups, groupId).value], initial)
  {
    var gi := FindGroup(groups, groupId).value;
    var g := groups[gi];
    var w := DeleteExpense(groups, groupId, expenseId, now);
    if FindExpense(g.expenses, expenseId).Some? {
      var e := FindExpense(g.expenses, expenseId).value;
      var k :| 0 <= k < |g.expenses| && g.expenses[k] == e;
      var g' := w.groups[gi];
      forall m | 0 <= m < |g.members|
        ensures g'.members[m].budget == initial[m] - SharesOf(g'.expenses, g'.members[m].id)
      {
        SharesOfWithout(g.expenses, k, g.members[m].id);
      }
    }
  }

  /** A created group is found by its id, and every other id finds what it found before. */
  lemma {:induction false} CreateGroupThenGet(groups: seq<Group>, d: GroupDraft, freshId: string, created: int, updated: int, id: string)
    requires forall k :: 0 <= k < |groups| ==> groups[k].id != freshId
    ensures var r := CreateGroup(groups, d, freshId, created, updated);
            GetGroup(r.1, id) == (if id == freshId then Some(r.0) else GetGroup(groups, id))
  {
    var r := CreateGroup(groups, d, freshId, created, updated);
    FindGroupAppend(groups, r.0, id);
  }

  lemma {:induction false} FindGroupAppend(groups: seq<Group>, g: Group, id: string)
    ensures FindGroup(groups + [g], id) ==
              (if FindGroup(groups, id).Some? then FindGroup(groups, id)
               else if g.id == id then Some(|groups|) else None)
  {
    if |groups| > 0 {
      assert (groups + [g])[1..] == groups[1..] + [g];
      FindGroupAppend(groups[1..], g, id);
    } else {
      assert groups + [g] == [g];
    }
  }

  /** Registering the same email twice fails the second time. */
  lemma {:induction false} CreateUserTwiceFails(users: seq<User>, email: string, h1: string, h2: string, n1: Option<string>, n2: Option<string>, id1: string, id2: string)
    requires CreateUser(users, email, h1, n1, id1).Success?
    ensures CreateUser(CreateUser(users, email, h1, n1, id1).value.1, email, h2, n2, id2).Failure?
  {
    var us := CreateUser(users, email, h1, n1, id1).value.1;
    assert us[|users|].email == email;
  }
}
