/**
 * The records kept by the group ledger (lib/storage.ts): users, expenses with
 * their participant entries, and groups. Currency amounts are exact reals and
 * timestamps are integers (milliseconds), so the arithmetic the ledger does is
 * modelled without floating-point rounding.
 */
module Model {
  import opened Wrappers

  /** How an expense is meant to be split; the ledger stores but never branches on it. */
  datatype SplitType = Equal | Percentage | Exact

  /** A registered user; a group's members are users. `budget` is the remaining budget. */
  datatype User = User(id: string, name: string, email: string, password: Option<string>, budget: real)

  /** One member's share of an expense. `userId` refers to a member by id. */
  datatype Participant = Participant(userId: string, amount: real, isPaid: bool)

  /** An expense. `paidBy` refers to the paying member by NAME, not by id. */
  datatype Expense = Expense(
    id: string,
    title: string,
    amount: real,
    description: Option<string>,
    paidBy: string,
    date: int,
    splitType: SplitType,
    participants: seq<Participant>)

  /** A group: the aggregate that owns its members and expenses. */
  datatype Group = Group(
    id: string,
    name: string,
    description: Option<string>,
    members: seq<User>,
    expenses: seq<Expense>,
    createdAt: int,
    updatedAt: int)

  /** The first participant entry whose `userId` is `id` (JS `participants.find`). */
  function FindParticipant(ps: seq<Participant>, id: string): (r: Option<Participant>)
    ensures r.None? <==> forall k :: 0 <= k < |ps| ==> ps[k].userId != id
    ensures r.Some? ==> exists k :: 0 <= k < |ps| && ps[k] == r.value && ps[k].userId == id
                                    && forall l :: 0 <= l < k ==> ps[l].userId != id
  {
    if |ps| == 0 then None
    else if ps[0].userId == id then Some(ps[0])
    else
      var r := FindParticipant(ps[1..], id);
      if r.Some? then
        var k :| 0 <= k < |ps[1..]| && ps[1..][k] == r.value && ps[1..][k].userId == id
                 && forall l :: 0 <= l < k ==> ps[1..][l].userId != id;
        assert ps[k + 1] == r.value;
        r
      else r
  }

  /** Whether some participant entry has `userId == id` (JS `participants.some`). */
  predicate Participates(e: Expense, id: string) {
    exists k :: 0 <= k < |e.participants| && e.participants[k].userId == id
  }

  /** The amount of the first participant entry for `id`, or 0 when there is none. */
  function ShareIn(ps: seq<Participant>, id: string): (r: real)
    ensures (forall k :: 0 <= k < |ps| ==> ps[k].userId != id) ==> r == 0.0
    ensures (exists k :: 0 <= k < |ps| && ps[k].userId == id) ==>
              exists k :: 0 <= k < |ps| && ps[k].userId == id && ps[k].amount == r
                          && forall l :: 0 <= l < k ==> ps[l].userId != id
  {
    match FindParticipant(ps, id)
    case Some(p) => p.amount
    case None => 0.0
  }

  /** A member's share of an expense as the views read it (JS `participation?.amount || 0`). */
  function FirstShare(e: Expense, id: string): real {
    ShareIn(e.participants, id)
  }

  /** Sum over expenses of the member's first-matching share: what the ledger has charged `id`. */
  function SharesOf(es: seq<Expense>, id: string): real {
    if |es| == 0 then 0.0 else FirstShare(es[0], id) + SharesOf(es[1..], id)
  }

  lemma {:induction false} SharesOfAppend(a: seq<Expense>, b: seq<Expense>, id: string)
    ensures SharesOf(a + b, id) == SharesOf(a, id) + SharesOf(b, id)
  {
    if |a| == 0 {
      assert a + b == b;
    } else {
      assert (a + b)[1..] == a[1..] + b;
      SharesOfAppend(a[1..], b, id);
    }
  }

  /** Member ids are pairwise distinct. */
  predicate DistinctIds(ms: seq<User>) {
    forall a, b :: 0 <= a < b < |ms| ==> ms[a].id != ms[b].id
  }

  /** Member names are pairwise distinct. */
  predicate DistinctNames(ms: seq<User>) {
    forall a, b :: 0 <= a < b < |ms| ==> ms[a].name != ms[b].name
  }

  /** Sum of the amounts of a list of expenses. */
  function TotalAmount(es: seq<Expense>): real {
    if |es| == 0 then 0.0 else es[0].amount + TotalAmount(es[1..])
  }

  /** Sum of the budgets of a list of members. */
  function TotalBudget(ms: seq<User>): real {
    if |ms| == 0 then 0.0 else ms[0].budget + TotalBudget(ms[1..])
  }

  /** Sum of the amounts of a list of participant entries. */
  function TotalShares(ps: seq<Participant>): real {
    if |ps| == 0 then 0.0 else ps[0].amount + TotalShares(ps[1..])
  }

  lemma {:induction false} TotalAmountAppend(a: seq<Expense>, b: seq<Expense>)
    ensures TotalAmount(a + b) == TotalAmount(a) + TotalAmount(b)
  {
    if |a| > 0 {
      assert (a + b)[1..] == a[1..] + b;
      TotalAmountAppend(a[1..], b);
    } else {
      assert a + b == b;
    }
  }
}
