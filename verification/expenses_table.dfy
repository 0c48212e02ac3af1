/**
 * The expenses table (components/expenses/expenses-table.tsx): a
 * case-insensitive substring search over title, group name and payer, then
 * a sort by date or by amount, largest first. Lower-casing is modelled for
 * ASCII letters only.
 */
module ExpensesTable {
  import Lists
  import opened Dashboard

  /** The two orders the table offers. */
  datatype SortKey = ByDate | ByAmount

  /** ASCII lower-casing of one character. */
  function LowerChar(c: char): (r: char)
    ensures 'A' <= c <= 'Z' ==> r as int == c as int + 32
    ensures !('A' <= c <= 'Z') ==> r == c
  {
    if 'A' <= c <= 'Z' then (c as int + 32) as char else c
  }

  /** JS `toLowerCase`, for ASCII letters. */
  function Lower(s: string): (r: string)
    ensures |r| == |s|
    ensures forall k :: 0 <= k < |s| ==> r[k] == LowerChar(s[k])
  {
    seq(|s|, k requires 0 <= k < |s| => LowerChar(s[k]))
  }

  /** `sub` occurs in `s` starting at position `i`. */
  predicate At(s: string, sub: string, i: nat) {
    i + |sub| <= |s| && s[i..i + |sub|] == sub
  }

  /** JS `s.includes(sub)`, scanning from the left. */
  function Includes(s: string, sub: string): bool
    decreases |s|
  {
    if |sub| <= |s| && s[..|sub|] == sub then true
    else if |s| == 0 then false
    else Includes(s[1..], sub)
  }

  /** `Includes` holds exactly when `sub` occurs at some position of `s`. */
  lemma {:induction false} IncludesAt(s: string, sub: string)
    ensures Includes(s, sub) <==> exists i :: 0 <= i <= |s| && At(s, sub, i)
    decreases |s|
  {
    if |sub| <= |s| && s[..|sub|] == sub {
      assert At(s, sub, 0);
    } else if |s| > 0 {
      IncludesAt(s[1..], sub);
      forall i | 0 <= i <= |s[1..]| && At(s[1..], sub, i)
        ensures At(s, sub, i + 1)
      {
        assert s[i + 1..i + 1 + |sub|] == s[1..][i..i + |sub|];
      }
      forall i | 1 <= i <= |s| && At(s, sub, i)
        ensures At(s[1..], sub, i - 1)
      {
        assert s[1..][i - 1..i - 1 + |sub|] == s[i..i + |sub|];
      }
      assert !At(s, sub, 0);
    }
  }

  /** The empty string occurs in every string. */
  lemma {:induction false} IncludesEmpty(s: string)
    ensures Includes(s, "")
  {
    assert s[..0] == "";
  }

  /** The search: the lower-cased query occurs in the lower-cased title, group name or payer. */
  predicate Matches(t: Tagged, search: string) {
    var q := Lower(search);
    Includes(Lower(t.expense.title), q) || Includes(Lower(t.groupName), q) || Includes(Lower(t.expense.paidBy), q)
  }

  /** A row matches the query. */
  function MatchesQuery(search: string): Tagged -> bool {
    (t: Tagged) => Matches(t, search)
  }

  /** The rows the search keeps: each matching row as often as in the input, in the input's order. */
  function Search(ts: seq<Tagged>, search: string): (r: seq<Tagged>)
    ensures Lists.Subsequence(r, ts)
    ensures forall t :: multiset(r)[t] == if Matches(t, search) then multiset(ts)[t] else 0
    ensures forall t :: t in r <==> t in ts && Matches(t, search)
  {
    var r := Lists.Filter(ts, MatchesQuery(search));
    Lists.FilterExact(ts, MatchesQuery(search));
    assert forall t :: t in r <==> t in multiset(r);
    assert forall t :: t in ts <==> t in multiset(ts);
    r
  }

  function AmountKey(t: Tagged): real {
    t.expense.amount
  }

  function KeyOf(order: SortKey): Tagged -> real {
    match order
    case ByDate => DateKey
    case ByAmount => AmountKey
  }

  /**
   * `filteredExpenses`: the rows matching the search, rearranged so that the
   * chosen key never increases down the table. Nothing is added, dropped
   * beyond the search, or altered, and rows with equal keys keep the order
   * the search left them in (the sort is stable).
   */
  function Table(ts: seq<Tagged>, search: string, order: SortKey): (r: seq<Tagged>)
    ensures multiset(r) == multiset(Search(ts, search))
    ensures forall t :: t in r <==> t in ts && Matches(t, search)
    ensures order == ByDate ==> forall a, b :: 0 <= a < b < |r| ==> r[a].expense.date >= r[b].expense.date
    ensures order == ByAmount ==> forall a, b :: 0 <= a < b < |r| ==> r[a].expense.amount >= r[b].expense.amount
    ensures forall v :: Lists.Filter(r, Lists.WithKey(KeyOf(order), v)) == Lists.Filter(Search(ts, search), Lists.WithKey(KeyOf(order), v))
  {
    var kept := Search(ts, search);
    var r := Lists.SortBy(kept, KeyOf(order));
    Lists.SortMembers(kept, KeyOf(order));
    Lists.SortKeepsTies(kept, KeyOf(order));
    if order == ByDate then
      NewestFirst(r);
      r
    else
      LargestFirst(r);
      r
  }

  /** Non-increasing amount keys are non-increasing amounts. */
  lemma {:induction false} LargestFirst(r: seq<Tagged>)
    requires Lists.NonIncreasing(r, AmountKey)
    ensures forall a, b :: 0 <= a < b < |r| ==> r[a].expense.amount >= r[b].expense.amount
  {
    forall a, b | 0 <= a < b < |r| ensures r[a].expense.amount >= r[b].expense.amount {
      assert AmountKey(r[a]) >= AmountKey(r[b]);
    }
  }

  /** An empty search keeps every row, in order. */
  lemma {:induction false} EmptySearchKeepsAll(ts: seq<Tagged>)
    ensures Search(ts, "") == ts
  {
    assert Lower("") == "";
    forall k | 0 <= k < |ts| ensures MatchesQuery("")(ts[k]) {
      IncludesEmpty(Lower(ts[k].expense.title));
    }
    Lists.FilterKeepsAll(ts, MatchesQuery(""));
  }

  /** With an empty search the table is a reordering of every row. */
  lemma {:induction false} EmptySearchTable(ts: seq<Tagged>, order: SortKey)
    ensures multiset(Table(ts, "", order)) == multiset(ts)
  {
    EmptySearchKeepsAll(ts);
  }

  /** The search ignores the case of the query. */
  lemma {:induction false} SearchIgnoresQueryCase(t: Tagged, search: string)
    ensures Matches(t, Lower(search)) <==> Matches(t, search)
  {
    assert Lower(Lower(search)) == Lower(search);
  }

  /** A row matches exactly when the query occurs, case aside, at some position of one of its fields. */
  lemma {:induction false} MatchesAt(t: Tagged, search: string)
    ensures Matches(t, search) <==>
              var q := Lower(search);
              || (exists i :: 0 <= i <= |t.expense.title| && At(Lower(t.expense.title), q, i))
              || (exists i :: 0 <= i <= |t.groupName| && At(Lower(t.groupName), q, i))
              || (exists i :: 0 <= i <= |t.expense.paidBy| && At(Lower(t.expense.paidBy), q, i))
  {
    var q := Lower(search);
    IncludesAt(Lower(t.expense.title), q);
    IncludesAt(Lower(t.groupName), q);
    IncludesAt(Lower(t.expense.paidBy), q);
  }
}
