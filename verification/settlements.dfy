/**
 * The settle-up solver (lib/utils/settlements.ts, `generateSettlements`):
 * members with a negative balance (debtors) pay members with a positive
 * balance (creditors). Debtors are taken most-negative first, creditors
 * largest first, and a two-cursor greedy walk emits one transfer per step.
 *
 * The source sorts references to its argument's objects and writes residual
 * balances back through them, so the argument is changed. The model keeps the
 * balances as a sequence indexed by position in the argument and returns it
 * next to the settlements.
 */
module Settlements {
  import opened Model
  import Lists

  /** A member with its net balance: positive means owed money, negative means owing. */
  datatype MemberBalance = MemberBalance(member: User, balance: real)

  /** A suggested payment, between member names. */
  datatype Settlement = Settlement(from: string, to: string, amount: real)

  /** A debtor or creditor: its position in the argument and its balance when sorted. */
  datatype Entry = Entry(at: nat, balance: real)

  /** One pass of the loop: the cursor positions and the amount it emitted. */
  datatype Step = Step(di: nat, cj: nat, amount: real)

  /** A payment between members given by their positions in the argument. */
  datatype Transfer = Transfer(payer: nat, payee: nat, amount: real)

  /** The loop's output: its steps, and the balance array after its write-backs. */
  datatype Run = Run(steps: seq<Step>, balances: seq<real>)

  /** What `generateSettlements` produces: the settlements, and its argument as it leaves it. */
  datatype Outcome = Outcome(settlements: seq<Settlement>, after: seq<MemberBalance>)

  /** JS `Math.abs`. */
  function Abs(x: real): (r: real)
    ensures r >= 0.0 && (r == x || r == -x)
  {
    if x < 0.0 then -x else x
  }

  /** JS `Math.min`. */
  function Min(a: real, b: real): (r: real)
    ensures r <= a && r <= b && (r == a || r == b)
  {
    if a <= b then a else b
  }

  // ---------------------------------------------------------------------------
  // Splitting and sorting

  /** The balances of the argument, by position. */
  function Balances(s: seq<MemberBalance>): (bs: seq<real>)
    ensures |bs| == |s| && forall m :: 0 <= m < |s| ==> bs[m] == s[m].balance
  {
    seq(|s|, m requires 0 <= m < |s| => s[m].balance)
  }

  /** Positions and balances of `s`, numbering from `base`. */
  function EntriesFrom(s: seq<MemberBalance>, base: nat): (r: seq<Entry>)
    ensures |r| == |s| && forall k :: 0 <= k < |s| ==> r[k] == Entry(base + k, s[k].balance)
  {
    if |s| == 0 then [] else [Entry(base, s[0].balance)] + EntriesFrom(s[1..], base + 1)
  }

  function Entries(s: seq<MemberBalance>): seq<Entry> {
    EntriesFrom(s, 0)
  }

  predicate IsDebtor(e: Entry) { e.balance < 0.0 }
  predicate IsCreditor(e: Entry) { e.balance > 0.0 }

  /** Sort key of the debtors: `(a, b) => a.balance - b.balance` sorts by -balance descending. */
  function DebtKey(e: Entry): real { -e.balance }

  /** Sort key of the creditors: `(a, b) => b.balance - a.balance`. */
  function CreditKey(e: Entry): real { e.balance }

  function Position(e: Entry): int { e.at }

  function EntryBalance(e: Entry): real { e.balance }

  /** Debtors, most negative first, ties in argument order. */
  function Debtors(s: seq<MemberBalance>): seq<Entry> {
    Lists.SortBy(Lists.Filter(Entries(s), IsDebtor), DebtKey)
  }

  /** Creditors, largest first, ties in argument order. */
  function Creditors(s: seq<MemberBalance>): seq<Entry> {
    Lists.SortBy(Lists.Filter(Entries(s), IsCreditor), CreditKey)
  }

  // ---------------------------------------------------------------------------
  // The two-cursor walk

  /**
   * What the walk relies on at cursors (i, j): the lists point into the
   * balance array without repeats, no member is both debtor and creditor,
   * debtors still to be visited owe money and creditors still to be visited
   * are owed money.
   */
  predicate Ready(bs: seq<real>, D: seq<Entry>, C: seq<Entry>, i: nat, j: nat) {
    && i <= |D| && j <= |C|
    && (forall k :: 0 <= k < |D| ==> D[k].at < |bs|)
    && (forall k :: 0 <= k < |C| ==> C[k].at < |bs|)
    && (forall a, b :: 0 <= a < b < |D| ==> D[a].at != D[b].at)
    && (forall a, b :: 0 <= a < b < |C| ==> C[a].at != C[b].at)
    && (forall a, b :: 0 <= a < |D| && 0 <= b < |C| ==> D[a].at != C[b].at)
    && (forall k :: i <= k < |D| ==> bs[D[k].at] < 0.0)
    && (forall k :: j <= k < |C| ==> bs[C[k].at] > 0.0)
  }

  lemma {:induction false} ReadyAfterBoth(bs: seq<real>, D: seq<Entry>, C: seq<Entry>, i: nat, j: nat)
    requires Ready(bs, D, C, i, j) && i < |D| && j < |C|
    ensures Ready(bs, D, C, i + 1, j + 1)
  {
  }

  lemma {:induction false} ReadyAfterDebtor(bs: seq<real>, D: seq<Entry>, C: seq<Entry>, i: nat, j: nat)
    requires Ready(bs, D, C, i, j) && i < |D| && j < |C|
    requires -bs[D[i].at] < bs[C[j].at]
    ensures Ready(bs[C[j].at := bs[C[j].at] + bs[D[i].at]], D, C, i + 1, j)
  {
  }

  lemma {:induction false} ReadyAfterCreditor(bs: seq<real>, D: seq<Entry>, C: seq<Entry>, i: nat, j: nat)
    requires Ready(bs, D, C, i, j) && i < |D| && j < |C|
    requires -bs[D[i].at] > bs[C[j].at]
    ensures Ready(bs[D[i].at := bs[D[i].at] + bs[C[j].at]], D, C, i, j + 1)
  {
  }

  /** The steps of a walk, all at cursors no smaller than (i, j). */
  predicate StepsFrom(steps: seq<Step>, i: nat, j: nat, n: nat, m: nat) {
    forall s :: s in steps ==> i <= s.di < n && j <= s.cj < m && 0.0 < s.amount
  }

  /** Cursors never move back and every step moves at least one of them. */
  predicate Advancing(steps: seq<Step>) {
    forall a, b :: 0 <= a < b < |steps| ==>
      && steps[a].di <= steps[b].di && steps[a].cj <= steps[b].cj
      && steps[a].di + steps[a].cj < steps[b].di + steps[b].cj
  }

  lemma {:induction false} AdvancingCons(s: Step, rest: seq<Step>, i: nat, j: nat, n: nat, m: nat)
    requires Advancing(rest) && StepsFrom(rest, i, j, n, m)
    requires s.di <= i && s.cj <= j && s.di + s.cj < i + j
    ensures Advancing([s] + rest)
  {
    var t := [s] + rest;
    forall a, b | 0 <= a < b < |t|
      ensures t[a].di <= t[b].di && t[a].cj <= t[b].cj && t[a].di + t[a].cj < t[b].di + t[b].cj
    {
      if a == 0 {
        assert t[b] == rest[b - 1] && t[b] in rest;
      } else {
        assert t[a] == rest[a - 1] && t[b] == rest[b - 1];
      }
    }
  }

  /**
   * The `while` loop from cursors (i, j) over the balance array `bs`. Each
   * pass pays min(debt, credit) from `D[i]` to `C[j]`; the side that is
   * settled exactly advances, the other keeps its residual in `bs`. When debt
   * and credit are equal both cursors advance and nothing is written back.
   */
  function Walk(bs: seq<real>, D: seq<Entry>, C: seq<Entry>, i: nat, j: nat): (r: Run)
    requires Ready(bs, D, C, i, j)
    decreases |D| - i + |C| - j
    ensures |r.balances| == |bs|
    ensures StepsFrom(r.steps, i, j, |D|, |C|)
    ensures Advancing(r.steps)
    ensures i < |D| && j < |C| ==> 1 <= |r.steps| <= (|D| - i) + (|C| - j) - 1
    ensures i == |D| || j == |C| ==> r.steps == []
  {
    if i == |D| || j == |C| then Run([], bs)
    else
      var debt := Abs(bs[D[i].at]);
      var credit := bs[C[j].at];
      var amount := Min(debt, credit);
      var emitted := if amount > 0.0 then [Step(i, j, amount)] else [];
      assert amount > 0.0;
      if debt == credit then
        ReadyAfterBoth(bs, D, C, i, j);
        var rest := Walk(bs, D, C, i + 1, j + 1);
        AdvancingCons(Step(i, j, amount), rest.steps, i + 1, j + 1, |D|, |C|);
        Run(emitted + rest.steps, rest.balances)
      else if debt < credit then
        ReadyAfterDebtor(bs, D, C, i, j);
        assert credit - debt == bs[C[j].at] + bs[D[i].at];
        var rest := Walk(bs[C[j].at := credit - debt], D, C, i + 1, j);
        AdvancingCons(Step(i, j, amount), rest.steps, i + 1, j, |D|, |C|);
        Run(emitted + rest.steps, rest.balances)
      else
        ReadyAfterCreditor(bs, D, C, i, j);
        var rest := Walk(bs[D[i].at := bs[D[i].at] + credit], D, C, i, j + 1);
        AdvancingCons(Step(i, j, amount), rest.steps, i, j + 1, |D|, |C|);
        Run(emitted + rest.steps, rest.balances)
  }

  // ---------------------------------------------------------------------------
  // What the walk pays

  /** Sum of the balances the entries point at. */
  function SumAt(bs: seq<real>, E: seq<Entry>): real
    requires forall k :: 0 <= k < |E| ==> E[k].at < |bs|
  {
    if |E| == 0 then 0.0 else bs[E[0].at] + SumAt(bs, E[1..])
  }

  /** Writing a balance no entry points at leaves their sum alone. */
  lemma {:induction false} SumAtFrame(bs: seq<real>, E: seq<Entry>, x: nat, v: real)
    requires x < |bs|
    requires forall k :: 0 <= k < |E| ==> E[k].at < |bs| && E[k].at != x
    ensures SumAt(bs[x := v], E) == SumAt(bs, E)
  {
    if |E| > 0 {
      SumAtFrame(bs, E[1..], x, v);
    }
  }

  /** `SumAtFrame` for the entries from position `i` on. */
  lemma {:induction false} SumAtFrameFrom(bs: seq<real>, E: seq<Entry>, i: nat, x: nat, v: real)
    requires x < |bs| && i <= |E|
    requires forall k :: i <= k < |E| ==> E[k].at < |bs| && E[k].at != x
    ensures SumAt(bs[x := v], E[i..]) == SumAt(bs, E[i..])
  {
    var F := E[i..];
    forall k | 0 <= k < |F| ensures F[k].at < |bs| && F[k].at != x {
      assert F[k] == E[i + k];
    }
    SumAtFrame(bs, F, x, v);
  }

  /** A non-empty sum of positive balances is positive. */
  lemma {:induction false} SumAtPositive(bs: seq<real>, E: seq<Entry>)
    requires forall k :: 0 <= k < |E| ==> E[k].at < |bs| && bs[E[k].at] > 0.0
    ensures |E| > 0 ==> SumAt(bs, E) > 0.0
  {
    if |E| > 1 {
      SumAtPositive(bs, E[1..]);
    }
  }

  /** A non-empty sum of negative balances is negative. */
  lemma {:induction false} SumAtNegative(bs: seq<real>, E: seq<Entry>)
    requires forall k :: 0 <= k < |E| ==> E[k].at < |bs| && bs[E[k].at] < 0.0
    ensures |E| > 0 ==> SumAt(bs, E) < 0.0
  {
    if |E| > 1 {
      SumAtNegative(bs, E[1..]);
    }
  }

  /** What the debtor at cursor position `k` pays over the steps. */
  function Outflow(steps: seq<Step>, k: nat): real {
    if |steps| == 0 then 0.0
    else (if steps[0].di == k then steps[0].amount else 0.0) + Outflow(steps[1..], k)
  }

  /** What the creditor at cursor position `k` receives over the steps. */
  function Inflow(steps: seq<Step>, k: nat): real {
    if |steps| == 0 then 0.0
    else (if steps[0].cj == k then steps[0].amount else 0.0) + Inflow(steps[1..], k)
  }

  lemma {:induction false} OutflowNone(steps: seq<Step>, k: nat)
    requires forall s :: s in steps ==> s.di != k
    ensures Outflow(steps, k) == 0.0
  {
    if |steps| > 0 {
      assert steps[0] in steps;
      OutflowNone(steps[1..], k);
    }
  }

  lemma {:induction false} InflowNone(steps: seq<Step>, k: nat)
    requires forall s :: s in steps ==> s.cj != k
    ensures Inflow(steps, k) == 0.0
  {
    if |steps| > 0 {
      assert steps[0] in steps;
      InflowNone(steps[1..], k);
    }
  }

  /** Splits the first entry off a suffix sum. */
  lemma {:induction false} SumAtSuffix(bs: seq<real>, E: seq<Entry>, i: nat)
    requires i < |E| && forall k :: 0 <= k < |E| ==> E[k].at < |bs|
    ensures SumAt(bs, E[i..]) == bs[E[i].at] + SumAt(bs, E[i + 1..])
  {
    assert E[i..][1..] == E[i + 1..];
  }

  /** The emitted steps and payments of one pass followed by the rest of the walk. */
  lemma {:induction false} FlowCons(st: Step, rest: seq<Step>, k: nat)
    ensures Outflow([st] + rest, k) == (if st.di == k then st.amount else 0.0) + Outflow(rest, k)
    ensures Inflow([st] + rest, k) == (if st.cj == k then st.amount else 0.0) + Inflow(rest, k)
  {
    assert ([st] + rest)[1..] == rest;
  }

  /**
   * Conservation: when the debts still open at (i, j) equal the credits still
   * open, the walk makes every remaining debtor pay exactly its debt and every
   * remaining creditor receive exactly its credit.
   */
  lemma {:induction false} WalkConserves(bs: seq<real>, D: seq<Entry>, C: seq<Entry>, i: nat, j: nat)
    requires Ready(bs, D, C, i, j)
    requires SumAt(bs, D[i..]) + SumAt(bs, C[j..]) == 0.0
    ensures forall k :: i <= k < |D| ==> Outflow(Walk(bs, D, C, i, j).steps, k) == -bs[D[k].at]
    ensures forall k :: j <= k < |C| ==> Inflow(Walk(bs, D, C, i, j).steps, k) == bs[C[k].at]
    decreases |D| - i + |C| - j, 1
  {
    if i == |D| || j == |C| {
      SumAtPositive(bs, C[j..]);
      SumAtNegative(bs, D[i..]);
    } else if -bs[D[i].at] == bs[C[j].at] {
      ConservesEven(bs, D, C, i, j);
    } else if -bs[D[i].at] < bs[C[j].at] {
      ConservesDebtorDone(bs, D, C, i, j);
    } else {
      ConservesCreditorDone(bs, D, C, i, j);
    }
  }

  /** The pass where debt and credit are equal. */
  lemma {:induction false} ConservesEven(bs: seq<real>, D: seq<Entry>, C: seq<Entry>, i: nat, j: nat)
    requires Ready(bs, D, C, i, j) && i < |D| && j < |C| && -bs[D[i].at] == bs[C[j].at]
    requires SumAt(bs, D[i..]) + SumAt(bs, C[j..]) == 0.0
    ensures forall k :: i <= k < |D| ==> Outflow(Walk(bs, D, C, i, j).steps, k) == -bs[D[k].at]
    ensures forall k :: j <= k < |C| ==> Inflow(Walk(bs, D, C, i, j).steps, k) == bs[C[k].at]
    decreases |D| - i + |C| - j, 0
  {
    var amount := bs[C[j].at];
    SumAtSuffix(bs, D, i);
    SumAtSuffix(bs, C, j);
    ReadyAfterBoth(bs, D, C, i, j);
    WalkConserves(bs, D, C, i + 1, j + 1);
    var rest := Walk(bs, D, C, i + 1, j + 1).steps;
    var steps := Walk(bs, D, C, i, j).steps;
    assert steps == [Step(i, j, amount)] + rest;
    OutflowNone(rest, i);
    InflowNone(rest, j);
    forall k | i <= k < |D| ensures Outflow(steps, k) == -bs[D[k].at] {
      FlowCons(Step(i, j, amount), rest, k);
    }
    forall k | j <= k < |C| ensures Inflow(steps, k) == bs[C[k].at] {
      FlowCons(Step(i, j, amount), rest, k);
    }
  }

  /** The pass where the debtor is settled and the creditor keeps a residual. */
  lemma {:induction false} ConservesDebtorDone(bs: seq<real>, D: seq<Entry>, C: seq<Entry>, i: nat, j: nat)
    requires Ready(bs, D, C, i, j) && i < |D| && j < |C| && -bs[D[i].at] < bs[C[j].at]
    requires SumAt(bs, D[i..]) + SumAt(bs, C[j..]) == 0.0
    ensures forall k :: i <= k < |D| ==> Outflow(Walk(bs, D, C, i, j).steps, k) == -bs[D[k].at]
    ensures forall k :: j <= k < |C| ==> Inflow(Walk(bs, D, C, i, j).steps, k) == bs[C[k].at]
    decreases |D| - i + |C| - j, 0
  {
    var debt := -bs[D[i].at];
    var bs' := bs[C[j].at := bs[C[j].at] + bs[D[i].at]];
    SumAtSuffix(bs, D, i);
    SumAtSuffix(bs, C, j);
    ReadyAfterDebtor(bs, D, C, i, j);
    SumAtFrameFrom(bs, D, i + 1, C[j].at, bs'[C[j].at]);
    SumAtFrameFrom(bs, C, j + 1, C[j].at, bs'[C[j].at]);
    SumAtSuffix(bs', C, j);
    WalkConserves(bs', D, C, i + 1, j);
    var rest := Walk(bs', D, C, i + 1, j).steps;
    SteppedDebtor(bs, D, C, i, j);
    OutflowNone(rest, i);
    DebtorDoneFlows(bs, bs', D, C, i, j, rest);
  }

  /** The accounting of the pass where the debtor is settled, given the rest of the walk's. */
  lemma {:induction false} DebtorDoneFlows(bs: seq<real>, bs': seq<real>, D: seq<Entry>, C: seq<Entry>, i: nat, j: nat, rest: seq<Step>)
    requires i < |D| && j < |C|
    requires forall k :: 0 <= k < |D| ==> D[k].at < |bs|
    requires forall k :: 0 <= k < |C| ==> C[k].at < |bs|
    requires forall k :: i <= k < |D| ==> D[k].at != C[j].at
    requires forall k :: j < k < |C| ==> C[k].at != C[j].at
    requires bs' == bs[C[j].at := bs[C[j].at] + bs[D[i].at]]
    requires Outflow(rest, i) == 0.0
    requires forall k :: i + 1 <= k < |D| ==> Outflow(rest, k) == -bs'[D[k].at]
    requires forall k :: j <= k < |C| ==> Inflow(rest, k) == bs'[C[k].at]
    ensures forall k :: i <= k < |D| ==> Outflow([Step(i, j, -bs[D[i].at])] + rest, k) == -bs[D[k].at]
    ensures forall k :: j <= k < |C| ==> Inflow([Step(i, j, -bs[D[i].at])] + rest, k) == bs[C[k].at]
  {
    var st := Step(i, j, -bs[D[i].at]);
    forall k | i <= k < |D| ensures Outflow([st] + rest, k) == -bs[D[k].at] {
      FlowCons(st, rest, k);
    }
    forall k | j <= k < |C| ensures Inflow([st] + rest, k) == bs[C[k].at] {
      FlowCons(st, rest, k);
    }
  }

  /** The pass where the creditor is settled and the debtor keeps a residual. */
  lemma {:induction false} ConservesCreditorDone(bs: seq<real>, D: seq<Entry>, C: seq<Entry>, i: nat, j: nat)
    requires Ready(bs, D, C, i, j) && i < |D| && j < |C| && -bs[D[i].at] > bs[C[j].at]
    requires SumAt(bs, D[i..]) + SumAt(bs, C[j..]) == 0.0
    ensures forall k :: i <= k < |D| ==> Outflow(Walk(bs, D, C, i, j).steps, k) == -bs[D[k].at]
    ensures forall k :: j <= k < |C| ==> Inflow(Walk(bs, D, C, i, j).steps, k) == bs[C[k].at]
    decreases |D| - i + |C| - j, 0
  {
    var credit := bs[C[j].at];
    var bs' := bs[D[i].at := bs[D[i].at] + credit];
    SumAtSuffix(bs, D, i);
    SumAtSuffix(bs, C, j);
    ReadyAfterCreditor(bs, D, C, i, j);
    SumAtFrameFrom(bs, C, j + 1, D[i].at, bs[D[i].at] + credit);
    SumAtFrameFrom(bs, D, i + 1, D[i].at, bs[D[i].at] + credit);
    SumAtSuffix(bs', D, i);
    WalkConserves(bs', D, C, i, j + 1);
    var rest := Walk(bs', D, C, i, j + 1).steps;
    SteppedCreditor(bs, D, C, i, j);
    InflowNone(rest, j);
    CreditorDoneFlows(bs, bs', D, C, i, j, rest);
  }

  /** The accounting of the pass where the creditor is settled, given the rest of the walk's. */
  lemma {:induction false} CreditorDoneFlows(bs: seq<real>, bs': seq<real>, D: seq<Entry>, C: seq<Entry>, i: nat, j: nat, rest: seq<Step>)
    requires i < |D| && j < |C|
    requires forall k :: 0 <= k < |D| ==> D[k].at < |bs|
    requires forall k :: 0 <= k < |C| ==> C[k].at < |bs|
    requires forall k :: j <= k < |C| ==> C[k].at != D[i].at
    requires forall k :: i < k < |D| ==> D[k].at != D[i].at
    requires bs' == bs[D[i].at := bs[D[i].at] + bs[C[j].at]]
    requires Inflow(rest, j) == 0.0
    requires forall k :: i <= k < |D| ==> Outflow(rest, k) == -bs'[D[k].at]
    requires forall k :: j + 1 <= k < |C| ==> Inflow(rest, k) == bs'[C[k].at]
    ensures forall k :: i <= k < |D| ==> Outflow([Step(i, j, bs[C[j].at])] + rest, k) == -bs[D[k].at]
    ensures forall k :: j <= k < |C| ==> Inflow([Step(i, j, bs[C[j].at])] + rest, k) == bs[C[k].at]
  {
    var st := Step(i, j, bs[C[j].at]);
    forall k | i <= k < |D| ensures Outflow([st] + rest, k) == -bs[D[k].at] {
      FlowCons(st, rest, k);
    }
    forall k | j <= k < |C| ensures Inflow([st] + rest, k) == bs[C[k].at] {
      FlowCons(st, rest, k);
    }
  }

  /**
   * `r` is what one pass at (i, j) leaves: the walk from (i, j) is that
   * pass's step followed by the walk from `r`, at least one cursor moves by
   * one, and only the side that is not settled keeps a residual.
   */
  predicate Stepped(bs: seq<real>, D: seq<Entry>, C: seq<Entry>, i: nat, j: nat, r: (seq<real>, nat, nat))
    requires Ready(bs, D, C, i, j) && i < |D| && j < |C|
  {
    && Ready(r.0, D, C, r.1, r.2)
    && Walk(bs, D, C, i, j).steps == [Step(i, j, Min(-bs[D[i].at], bs[C[j].at]))] + Walk(r.0, D, C, r.1, r.2).steps
    && Walk(bs, D, C, i, j).balances == Walk(r.0, D, C, r.1, r.2).balances
    && |r.0| == |bs|
    && r.1 + r.2 > i + j && i <= r.1 <= i + 1 && j <= r.2 <= j + 1
    && (r.1 == i + 1 ==> forall m :: 0 <= m < |bs| && m != C[j].at ==> r.0[m] == bs[m])
    && (r.1 == i + 1 ==> 0.0 <= r.0[C[j].at] <= bs[C[j].at])
    && (r.1 == i ==> forall m :: 0 <= m < |bs| && m != D[i].at ==> r.0[m] == bs[m])
    && (r.1 == i ==> bs[D[i].at] < r.0[D[i].at] < 0.0)
    && (r.2 == j ==> r.1 == i + 1)
    && (r.1 == i + 1 <==> -bs[D[i].at] <= bs[C[j].at])
    && (r.2 == j + 1 <==> bs[C[j].at] <= -bs[D[i].at])
    && (r.1 == i ==> r.0[D[i].at] == bs[D[i].at] + Min(-bs[D[i].at], bs[C[j].at]))
    && (r.2 == j ==> r.0[C[j].at] == bs[C[j].at] - Min(-bs[D[i].at], bs[C[j].at]))
    && (r.1 == i + 1 && r.2 == j + 1 ==> r.0 == bs)
  }

  lemma {:induction false} SteppedBoth(bs: seq<real>, D: seq<Entry>, C: seq<Entry>, i: nat, j: nat)
    requires Ready(bs, D, C, i, j) && i < |D| && j < |C|
    requires -bs[D[i].at] == bs[C[j].at]
    ensures Stepped(bs, D, C, i, j, (bs, i + 1, j + 1))
  {
    ReadyAfterBoth(bs, D, C, i, j);
  }

  lemma {:induction false} SteppedDebtor(bs: seq<real>, D: seq<Entry>, C: seq<Entry>, i: nat, j: nat)
    requires Ready(bs, D, C, i, j) && i < |D| && j < |C|
    requires -bs[D[i].at] < bs[C[j].at]
    ensures Stepped(bs, D, C, i, j, (bs[C[j].at := bs[C[j].at] + bs[D[i].at]], i + 1, j))
  {
    ReadyAfterDebtor(bs, D, C, i, j);
    assert bs[C[j].at := bs[C[j].at] - -bs[D[i].at]] == bs[C[j].at := bs[C[j].at] + bs[D[i].at]];
  }

  lemma {:induction false} SteppedCreditor(bs: seq<real>, D: seq<Entry>, C: seq<Entry>, i: nat, j: nat)
    requires Ready(bs, D, C, i, j) && i < |D| && j < |C|
    requires -bs[D[i].at] > bs[C[j].at]
    ensures Stepped(bs, D, C, i, j, (bs[D[i].at := bs[D[i].at] + bs[C[j].at]], i, j + 1))
  {
    ReadyAfterCreditor(bs, D, C, i, j);
  }

  /** The next cursors and balances after the pass at (i, j). */
  function Next(bs: seq<real>, D: seq<Entry>, C: seq<Entry>, i: nat, j: nat): (r: (seq<real>, nat, nat))
    requires Ready(bs, D, C, i, j) && i < |D| && j < |C|
    ensures Stepped(bs, D, C, i, j, r)
  {
    var debt := -bs[D[i].at];
    var credit := bs[C[j].at];
    if debt == credit then
      SteppedBoth(bs, D, C, i, j);
      (bs, i + 1, j + 1)
    else if debt < credit then
      SteppedDebtor(bs, D, C, i, j);
      (bs[C[j].at := bs[C[j].at] + bs[D[i].at]], i + 1, j)
    else
      SteppedCreditor(bs, D, C, i, j);
      (bs[D[i].at := bs[D[i].at] + credit], i, j + 1)
  }

  /** No step pays more than the debtor owed or the creditor was owed when the walk started. */
  lemma {:induction false} WalkAmountsBounded(bs: seq<real>, D: seq<Entry>, C: seq<Entry>, i: nat, j: nat)
    requires Ready(bs, D, C, i, j)
    ensures forall s :: s in Walk(bs, D, C, i, j).steps ==>
              s.di < |D| && s.cj < |C| && s.amount <= -bs[D[s.di].at] && s.amount <= bs[C[s.cj].at]
    decreases |D| - i + |C| - j
  {
    if i < |D| && j < |C| {
      var n := Next(bs, D, C, i, j);
      WalkAmountsBounded(n.0, D, C, n.1, n.2);
      var steps := Walk(bs, D, C, i, j).steps;
      var rest := Walk(n.0, D, C, n.1, n.2).steps;
      forall s | s in steps
        ensures s.di < |D| && s.cj < |C| && s.amount <= -bs[D[s.di].at] && s.amount <= bs[C[s.cj].at]
      {
        if s != steps[0] {
          assert s in rest;
        }
      }
    }
  }

  /** Not visited at cursors (i, j): neither a debtor nor a creditor still ahead of the cursors. */
  predicate Untouched(D: seq<Entry>, C: seq<Entry>, i: nat, j: nat, m: nat) {
    (forall k :: i <= k < |D| ==> D[k].at != m) && (forall k :: j <= k < |C| ==> C[k].at != m)
  }

  /**
   * The write-backs: members the walk no longer visits keep their balance; a
   * debtor's balance only moves up toward zero and a creditor's only down,
   * without either reaching zero or changing sign.
   */
  lemma {:induction false} WalkResiduals(bs: seq<real>, D: seq<Entry>, C: seq<Entry>, i: nat, j: nat)
    requires Ready(bs, D, C, i, j)
    ensures var after := Walk(bs, D, C, i, j).balances;
            && (forall m :: 0 <= m < |bs| && Untouched(D, C, i, j, m) ==> after[m] == bs[m])
            && (forall k :: i <= k < |D| ==> bs[D[k].at] <= after[D[k].at] < 0.0)
            && (forall k :: j <= k < |C| ==> 0.0 < after[C[k].at] <= bs[C[k].at])
    decreases |D| - i + |C| - j
  {
    if i < |D| && j < |C| {
      var n := Next(bs, D, C, i, j);
      var bs', i', j' := n.0, n.1, n.2;
      WalkResiduals(bs', D, C, i', j');
      var after := Walk(bs, D, C, i, j).balances;
      forall m | 0 <= m < |bs| && Untouched(D, C, i, j, m) ensures after[m] == bs[m] {
        assert Untouched(D, C, i', j', m);
      }
      forall k | i <= k < |D| ensures bs[D[k].at] <= after[D[k].at] < 0.0 {
        if k < i' {
          assert k == i && i' == i + 1;
          assert Untouched(D, C, i', j', D[k].at);
        }
      }
      forall k | j <= k < |C| ensures 0.0 < after[C[k].at] <= bs[C[k].at] {
        if k < j' {
          assert k == j && j' == j + 1;
          assert Untouched(D, C, i', j', C[k].at);
        }
      }
    }
  }

  /**
   * Each pass pays the smaller of what its debtor still owes and what its
   * creditor is still owed: the balance the walk started from, less what the
   * earlier passes paid from that debtor or to that creditor.
   */
  lemma {:induction false} WalkStepAmounts(bs: seq<real>, D: seq<Entry>, C: seq<Entry>, i: nat, j: nat)
    requires Ready(bs, D, C, i, j)
    ensures forall n :: 0 <= n < |Walk(bs, D, C, i, j).steps| ==>
              StepPays(bs, D, C, Walk(bs, D, C, i, j).steps, n)
    decreases |D| - i + |C| - j
  {
    if i < |D| && j < |C| {
      var nx := Next(bs, D, C, i, j);
      WalkStepAmounts(nx.0, D, C, nx.1, nx.2);
      var steps, rest := Walk(bs, D, C, i, j).steps, Walk(nx.0, D, C, nx.1, nx.2).steps;
      var amount := Min(-bs[D[i].at], bs[C[j].at]);
      assert steps == [Step(i, j, amount)] + rest;
      forall x | nx.1 <= x < |D|
        ensures nx.0[D[x].at] == bs[D[x].at] + (if x == i then amount else 0.0)
      {
        NextDebtAt(bs, D, C, i, j, nx, x);
      }
      forall y | nx.2 <= y < |C|
        ensures nx.0[C[y].at] == bs[C[y].at] - (if y == j then amount else 0.0)
      {
        NextCreditAt(bs, D, C, i, j, nx, y);
      }
      forall n | 0 <= n < |steps| ensures StepPays(bs, D, C, steps, n) {
        if n == 0 {
          assert steps[..0] == [];
        } else {
          StepAmountShifted(bs, D, C, i, j, nx.0, nx.1, nx.2, steps, rest, n);
        }
      }
    }
  }

  /**
   * Pass `n` pays the smaller of its debtor's and its creditor's balance in
   * `bs` once the earlier passes are taken off.
   */
  predicate StepPays(bs: seq<real>, D: seq<Entry>, C: seq<Entry>, steps: seq<Step>, n: nat)
    requires n < |steps|
  {
    && steps[n].di < |D| && steps[n].cj < |C|
    && D[steps[n].di].at < |bs| && C[steps[n].cj].at < |bs|
    && steps[n].amount == Min(-bs[D[steps[n].di].at] - Outflow(steps[..n], steps[n].di),
                              bs[C[steps[n].cj].at] - Inflow(steps[..n], steps[n].cj))
  }

  /**
   * `StepPays` for a later pass, from the rest of the walk: the first pass
   * moves from the history into the balances the rest starts from.
   */
  lemma {:induction false} StepAmountShifted(bs: seq<real>, D: seq<Entry>, C: seq<Entry>, i: nat, j: nat,
                                             bs': seq<real>, i': nat, j': nat, steps: seq<Step>, rest: seq<Step>, n: nat)
    requires Ready(bs, D, C, i, j) && i < |D| && j < |C| && |bs'| == |bs|
    requires steps == [Step(i, j, Min(-bs[D[i].at], bs[C[j].at]))] + rest
    requires StepsFrom(rest, i', j', |D|, |C|)
    requires forall x :: i' <= x < |D| ==> bs'[D[x].at] == bs[D[x].at] + (if x == i then Min(-bs[D[i].at], bs[C[j].at]) else 0.0)
    requires forall y :: j' <= y < |C| ==> bs'[C[y].at] == bs[C[y].at] - (if y == j then Min(-bs[D[i].at], bs[C[j].at]) else 0.0)
    requires 0 < n < |steps| && StepPays(bs', D, C, rest, n - 1)
    ensures StepPays(bs, D, C, steps, n)
  {
    var st := steps[0];
    var x, y := rest[n - 1].di, rest[n - 1].cj;
    assert rest[n - 1] in rest;
    ShiftAmount(steps, rest, st, n, bs[D[x].at], bs'[D[x].at], bs[C[y].at], bs'[C[y].at]);
  }

  /** After one pass, a debtor the walk still visits has gained what that pass paid from it. */
  lemma {:induction false} NextDebtAt(bs: seq<real>, D: seq<Entry>, C: seq<Entry>, i: nat, j: nat,
                                      nx: (seq<real>, nat, nat), x: nat)
    requires Ready(bs, D, C, i, j) && i < |D| && j < |C| && Stepped(bs, D, C, i, j, nx)
    requires nx.1 <= x < |D|
    ensures D[x].at < |bs| == |nx.0|
    ensures nx.0[D[x].at] == bs[D[x].at] + (if x == i then Min(-bs[D[i].at], bs[C[j].at]) else 0.0)
  {
    if x != i {
      assert D[x].at != D[i].at && D[x].at != C[j].at;
    }
  }

  /** After one pass, a creditor the walk still visits has lost what that pass paid to it. */
  lemma {:induction false} NextCreditAt(bs: seq<real>, D: seq<Entry>, C: seq<Entry>, i: nat, j: nat,
                                        nx: (seq<real>, nat, nat), y: nat)
    requires Ready(bs, D, C, i, j) && i < |D| && j < |C| && Stepped(bs, D, C, i, j, nx)
    requires nx.2 <= y < |C|
    ensures C[y].at < |bs| == |nx.0|
    ensures nx.0[C[y].at] == bs[C[y].at] - (if y == j then Min(-bs[D[i].at], bs[C[j].at]) else 0.0)
  {
    if y != j {
      assert C[y].at != C[j].at && C[y].at != D[i].at;
    }
  }

  /** The arithmetic of `StepAmountShifted`: moving one pass from the history into the balances. */
  lemma {:induction false} ShiftAmount(steps: seq<Step>, rest: seq<Step>, st: Step, n: nat,
                                       debt: real, debt': real, credit: real, credit': real)
    requires steps == [st] + rest && 0 < n < |steps|
    requires debt' == debt + (if st.di == rest[n - 1].di then st.amount else 0.0)
    requires credit' == credit - (if st.cj == rest[n - 1].cj then st.amount else 0.0)
    requires rest[n - 1].amount == Min(-debt' - Outflow(rest[..n - 1], rest[n - 1].di), credit' - Inflow(rest[..n - 1], rest[n - 1].cj))
    ensures steps[n].amount == Min(-debt - Outflow(steps[..n], steps[n].di), credit - Inflow(steps[..n], steps[n].cj))
  {
    var x, y := rest[n - 1].di, rest[n - 1].cj;
    assert steps[n] == rest[n - 1];
    assert steps[..n] == [st] + rest[..n - 1];
    FlowCons(st, rest[..n - 1], x);
    FlowCons(st, rest[..n - 1], y);
  }

  /** Pass `t` is the last pass at debtor position `k`. */
  predicate LastOut(steps: seq<Step>, t: nat, k: nat) {
    t < |steps| && steps[t].di == k && forall u :: t < u < |steps| ==> steps[u].di != k
  }

  /** Pass `t` is the last pass at creditor position `k`. */
  predicate LastIn(steps: seq<Step>, t: nat, k: nat) {
    t < |steps| && steps[t].cj == k && forall u :: t < u < |steps| ==> steps[u].cj != k
  }

  /**
   * Where the debtor at position `k`, starting from balance `start`, is left
   * after the passes: once they pay its whole debt it keeps the balance its
   * last pass found, which that pass paid off, so it is left at minus that
   * pass; otherwise each pass was added to it.
   */
  predicate DebtorLeft(start: real, steps: seq<Step>, k: nat, v: real) {
    if Outflow(steps, k) == -start then exists t :: 0 <= t < |steps| && LastOut(steps, t, k) && v == -steps[t].amount
    else v == start + Outflow(steps, k)
  }

  /** The creditor's counterpart of `DebtorLeft`: left at its last receipt, or at its start less its receipts. */
  predicate CreditorLeft(start: real, steps: seq<Step>, k: nat, v: real) {
    if Inflow(steps, k) == start then exists t :: 0 <= t < |steps| && LastIn(steps, t, k) && v == steps[t].amount
    else v == start - Inflow(steps, k)
  }

  /** `DebtorLeft` for one more pass in front, which moves the start by what it paid from `k`. */
  lemma {:induction false} DebtorLeftShift(start: real, start': real, st: Step, rest: seq<Step>, k: nat, v: real)
    requires DebtorLeft(start', rest, k, v)
    requires start' == start + (if st.di == k then st.amount else 0.0)
    ensures DebtorLeft(start, [st] + rest, k, v)
  {
    FlowCons(st, rest, k);
    if Outflow(rest, k) == -start' {
      var steps := [st] + rest;
      var t :| 0 <= t < |rest| && LastOut(rest, t, k) && v == -rest[t].amount;
      assert steps[t + 1] == rest[t];
      assert forall u :: t + 1 < u < |steps| ==> steps[u] == rest[u - 1];
      assert LastOut(steps, t + 1, k);
    }
  }

  /** `CreditorLeft` for one more pass in front, which moves the start by what it paid to `k`. */
  lemma {:induction false} CreditorLeftShift(start: real, start': real, st: Step, rest: seq<Step>, k: nat, v: real)
    requires CreditorLeft(start', rest, k, v)
    requires start' == start - (if st.cj == k then st.amount else 0.0)
    ensures CreditorLeft(start, [st] + rest, k, v)
  {
    FlowCons(st, rest, k);
    if Inflow(rest, k) == start' {
      var steps := [st] + rest;
      var t :| 0 <= t < |rest| && LastIn(rest, t, k) && v == rest[t].amount;
      assert steps[t + 1] == rest[t];
      assert forall u :: t + 1 < u < |steps| ==> steps[u] == rest[u - 1];
      assert LastIn(steps, t + 1, k);
    }
  }

  /** A pass that pays the debtor's whole balance, with no pass at `k` after it, leaves the balance as it was. */
  lemma {:induction false} DebtorLeftSettled(start: real, st: Step, rest: seq<Step>, k: nat)
    requires st.di == k && st.amount == -start
    requires forall s :: s in rest ==> s.di != k
    ensures DebtorLeft(start, [st] + rest, k, start)
  {
    FlowCons(st, rest, k);
    OutflowNone(rest, k);
    var steps := [st] + rest;
    assert forall u :: 0 < u < |steps| ==> steps[u] == rest[u - 1] && rest[u - 1] in rest;
    assert LastOut(steps, 0, k);
  }

  /** A pass that receives the creditor's whole balance, with no pass at `k` after it, leaves the balance as it was. */
  lemma {:induction false} CreditorLeftSettled(start: real, st: Step, rest: seq<Step>, k: nat)
    requires st.cj == k && st.amount == start
    requires forall s :: s in rest ==> s.cj != k
    ensures CreditorLeft(start, [st] + rest, k, start)
  {
    FlowCons(st, rest, k);
    InflowNone(rest, k);
    var steps := [st] + rest;
    assert forall u :: 0 < u < |steps| ==> steps[u] == rest[u - 1] && rest[u - 1] in rest;
    assert LastIn(steps, 0, k);
  }

  /**
   * Where the walk leaves a debtor still ahead of its cursor: paid off, at
   * minus its last pass; otherwise at its balance plus what it paid.
   */
  lemma {:induction false} WalkDebtorLeft(bs: seq<real>, D: seq<Entry>, C: seq<Entry>, i: nat, j: nat, k: nat)
    requires Ready(bs, D, C, i, j) && i <= k < |D|
    ensures D[k].at < |Walk(bs, D, C, i, j).balances|
    ensures DebtorLeft(bs[D[k].at], Walk(bs, D, C, i, j).steps, k, Walk(bs, D, C, i, j).balances[D[k].at])
    decreases |D| - i + |C| - j
  {
    if j == |C| {
      assert Walk(bs, D, C, i, j) == Run([], bs);
    } else {
      var nx := Next(bs, D, C, i, j);
      var w, w' := Walk(bs, D, C, i, j), Walk(nx.0, D, C, nx.1, nx.2);
      var st := Step(i, j, Min(-bs[D[i].at], bs[C[j].at]));
      assert w.steps == [st] + w'.steps && w.balances == w'.balances;
      if k == i && nx.1 == i + 1 {
        WalkResiduals(nx.0, D, C, nx.1, nx.2);
        assert Untouched(D, C, nx.1, nx.2, D[i].at);
        assert D[i].at != C[j].at;
        assert forall s :: s in w'.steps ==> s.di != k;
        DebtorLeftSettled(bs[D[i].at], st, w'.steps, k);
      } else {
        WalkDebtorLeft(nx.0, D, C, nx.1, nx.2, k);
        NextDebtAt(bs, D, C, i, j, nx, k);
        DebtorLeftShift(bs[D[k].at], nx.0[D[k].at], st, w'.steps, k, w.balances[D[k].at]);
      }
    }
  }

  /**
   * Where the walk leaves a creditor still ahead of its cursor: paid in
   * full, at its last receipt; otherwise at its balance less its receipts.
   */
  lemma {:induction false} WalkCreditorLeft(bs: seq<real>, D: seq<Entry>, C: seq<Entry>, i: nat, j: nat, k: nat)
    requires Ready(bs, D, C, i, j) && j <= k < |C|
    ensures C[k].at < |Walk(bs, D, C, i, j).balances|
    ensures CreditorLeft(bs[C[k].at], Walk(bs, D, C, i, j).steps, k, Walk(bs, D, C, i, j).balances[C[k].at])
    decreases |D| - i + |C| - j
  {
    if i == |D| {
      assert Walk(bs, D, C, i, j) == Run([], bs);
    } else {
      var nx := Next(bs, D, C, i, j);
      var w, w' := Walk(bs, D, C, i, j), Walk(nx.0, D, C, nx.1, nx.2);
      var st := Step(i, j, Min(-bs[D[i].at], bs[C[j].at]));
      assert w.steps == [st] + w'.steps && w.balances == w'.balances;
      if k == j && nx.2 == j + 1 {
        WalkResiduals(nx.0, D, C, nx.1, nx.2);
        assert Untouched(D, C, nx.1, nx.2, C[j].at);
        assert D[i].at != C[j].at;
        assert forall s :: s in w'.steps ==> s.cj != k;
        CreditorLeftSettled(bs[C[j].at], st, w'.steps, k);
      } else {
        WalkCreditorLeft(nx.0, D, C, nx.1, nx.2, k);
        NextCreditAt(bs, D, C, i, j, nx, k);
        CreditorLeftShift(bs[C[k].at], nx.0[C[k].at], st, w'.steps, k, w.balances[C[k].at]);
      }
    }
  }

  // ---------------------------------------------------------------------------
  // generateSettlements

  /** Number of members whose balance is not zero. */
  function NonZeroCount(s: seq<MemberBalance>): nat {
    if |s| == 0 then 0 else (if s[0].balance != 0.0 then 1 else 0) + NonZeroCount(s[1..])
  }

  /** Sum of all balances. */
  function TotalBalance(s: seq<MemberBalance>): real {
    if |s| == 0 then 0.0 else s[0].balance + TotalBalance(s[1..])
  }

  /** What an entry of the debtor or creditor list is. */
  lemma {:induction false} EntryOf(s: seq<MemberBalance>, p: Entry -> bool, key: Entry -> real, e: Entry)
    requires e in Lists.SortBy(Lists.Filter(Entries(s), p), key)
    ensures e.at < |s| && e == Entry(e.at, s[e.at].balance) && p(e)
  {
    var F := Lists.Filter(Entries(s), p);
    assert e in multiset(Lists.SortBy(F, key));
    assert e in multiset(F);
    var k :| 0 <= k < |F| && F[k] == e;
    assert e in multiset(Entries(s));
  }

  /** Every member with the property appears in the sorted list. */
  lemma {:induction false} EntryIn(s: seq<MemberBalance>, p: Entry -> bool, key: Entry -> real, m: nat)
    requires m < |s| && p(Entry(m, s[m].balance))
    ensures exists k :: 0 <= k < |Lists.SortBy(Lists.Filter(Entries(s), p), key)| &&
                        Lists.SortBy(Lists.Filter(Entries(s), p), key)[k] == Entry(m, s[m].balance)
  {
    var F := Lists.Filter(Entries(s), p);
    assert Entries(s)[m] == Entry(m, s[m].balance);
    assert Entry(m, s[m].balance) in F;
    assert Entry(m, s[m].balance) in multiset(Lists.SortBy(F, key));
  }

  /** The sorted lists are ordered by balance, ties in argument order. */
  lemma {:induction false} PlanSorted(s: seq<MemberBalance>)
    ensures Lists.LexSorted(Debtors(s), DebtKey, Position)
    ensures Lists.LexSorted(Creditors(s), CreditKey, Position)
  {
    assert Lists.RankIncreasing(Entries(s), Position);
    Lists.FilterRankIncreasing(Entries(s), IsDebtor, Position);
    Lists.FilterRankIncreasing(Entries(s), IsCreditor, Position);
    Lists.SortStable(Lists.Filter(Entries(s), IsDebtor), DebtKey, Position);
    Lists.SortStable(Lists.Filter(Entries(s), IsCreditor), CreditKey, Position);
  }

  /** Entries drawn from the argument, each at most once when the list is stably sorted. */
  lemma {:induction false} LexDistinct(s: seq<MemberBalance>, E: seq<Entry>, key: Entry -> real)
    requires Lists.LexSorted(E, key, Position)
    requires forall k :: 0 <= k < |E| ==> E[k].at < |s| && E[k] == Entry(E[k].at, s[E[k].at].balance)
    ensures forall a, b :: 0 <= a < b < |E| ==> E[a].at != E[b].at
  {
  }

  /** The facts about the sorted lists the walk and its callers use. */
  predicate Planned(s: seq<MemberBalance>, D: seq<Entry>, C: seq<Entry>) {
    && Ready(Balances(s), D, C, 0, 0)
    && (forall k :: 0 <= k < |D| ==> D[k].at < |s| && D[k] == Entry(D[k].at, s[D[k].at].balance) && D[k].balance < 0.0)
    && (forall k :: 0 <= k < |C| ==> C[k].at < |s| && C[k] == Entry(C[k].at, s[C[k].at].balance) && C[k].balance > 0.0)
    && Lists.LexSorted(D, DebtKey, Position)
    && Lists.LexSorted(C, CreditKey, Position)
  }

  lemma {:induction false} DebtorFacts(s: seq<MemberBalance>)
    ensures forall k :: 0 <= k < |Debtors(s)| ==>
              Debtors(s)[k].at < |s| && Debtors(s)[k] == Entry(Debtors(s)[k].at, s[Debtors(s)[k].at].balance)
              && Debtors(s)[k].balance < 0.0
  {
    forall k | 0 <= k < |Debtors(s)|
      ensures Debtors(s)[k].at < |s| && Debtors(s)[k] == Entry(Debtors(s)[k].at, s[Debtors(s)[k].at].balance)
              && Debtors(s)[k].balance < 0.0
    {
      EntryOf(s, IsDebtor, DebtKey, Debtors(s)[k]);
    }
  }

  lemma {:induction false} CreditorFacts(s: seq<MemberBalance>)
    ensures forall k :: 0 <= k < |Creditors(s)| ==>
              Creditors(s)[k].at < |s| && Creditors(s)[k] == Entry(Creditors(s)[k].at, s[Creditors(s)[k].at].balance)
              && Creditors(s)[k].balance > 0.0
  {
    forall k | 0 <= k < |Creditors(s)|
      ensures Creditors(s)[k].at < |s| && Creditors(s)[k] == Entry(Creditors(s)[k].at, s[Creditors(s)[k].at].balance)
              && Creditors(s)[k].balance > 0.0
    {
      EntryOf(s, IsCreditor, CreditKey, Creditors(s)[k]);
    }
  }

  lemma {:induction false} PlannedFrom(s: seq<MemberBalance>, D: seq<Entry>, C: seq<Entry>)
    requires forall k :: 0 <= k < |D| ==> D[k].at < |s| && D[k] == Entry(D[k].at, s[D[k].at].balance) && D[k].balance < 0.0
    requires forall k :: 0 <= k < |C| ==> C[k].at < |s| && C[k] == Entry(C[k].at, s[C[k].at].balance) && C[k].balance > 0.0
    requires Lists.LexSorted(D, DebtKey, Position) && Lists.LexSorted(C, CreditKey, Position)
    ensures Planned(s, D, C)
  {
    LexDistinct(s, D, DebtKey);
    LexDistinct(s, C, CreditKey);
  }

  /** The walk can start on the sorted debtor and creditor lists. */
  lemma {:induction false} PlanReady(s: seq<MemberBalance>)
    ensures Planned(s, Debtors(s), Creditors(s))
  {
    DebtorFacts(s);
    CreditorFacts(s);
    PlanSorted(s);
    PlannedFrom(s, Debtors(s), Creditors(s));
  }

  /** A payment sequence mapped from cursor positions to argument positions. */
  function ToTransfers(steps: seq<Step>, D: seq<Entry>, C: seq<Entry>): (r: seq<Transfer>)
    requires forall s :: s in steps ==> s.di < |D| && s.cj < |C|
    ensures |r| == |steps|
    ensures forall k :: 0 <= k < |steps| ==>
              r[k] == Transfer(D[steps[k].di].at, C[steps[k].cj].at, steps[k].amount)
  {
    if |steps| == 0 then []
    else
      assert steps[0] in steps;
      [Transfer(D[steps[0].di].at, C[steps[0].cj].at, steps[0].amount)] + ToTransfers(steps[1..], D, C)
  }

  /** The debtor list is empty exactly when nobody owes money. */
  lemma {:induction false} DebtorsNonEmpty(s: seq<MemberBalance>)
    ensures |Debtors(s)| > 0 <==> exists m :: 0 <= m < |s| && s[m].balance < 0.0
  {
    if exists m :: 0 <= m < |s| && s[m].balance < 0.0 {
      var m :| 0 <= m < |s| && s[m].balance < 0.0;
      EntryIn(s, IsDebtor, DebtKey, m);
    }
    if |Debtors(s)| > 0 {
      EntryOf(s, IsDebtor, DebtKey, Debtors(s)[0]);
    }
  }

  /** The creditor list is empty exactly when nobody is owed money. */
  lemma {:induction false} CreditorsNonEmpty(s: seq<MemberBalance>)
    ensures |Creditors(s)| > 0 <==> exists m :: 0 <= m < |s| && s[m].balance > 0.0
  {
    if exists m :: 0 <= m < |s| && s[m].balance > 0.0 {
      var m :| 0 <= m < |s| && s[m].balance > 0.0;
      EntryIn(s, IsCreditor, CreditKey, m);
    }
    if |Creditors(s)| > 0 {
      EntryOf(s, IsCreditor, CreditKey, Creditors(s)[0]);
    }
  }

  /**
   * The payments `generateSettlements` emits, between argument positions.
   * Each goes from a member owing money to a member owed money and is
   * positive and no larger than either balance; there are none when nobody
   * owes or nobody is owed, and otherwise fewer than the members with a
   * non-zero balance. Each pays the smaller of what its payer still owes and
   * what its payee is still owed after the payments before it. Their order
   * is stated by `TransfersOrdered`.
   */
  function Transfers(s: seq<MemberBalance>): (r: seq<Transfer>)
    ensures forall k :: 0 <= k < |r| ==>
              && r[k].payer < |s| && r[k].payee < |s|
              && s[r[k].payer].balance < 0.0 && s[r[k].payee].balance > 0.0
              && 0.0 < r[k].amount <= -s[r[k].payer].balance && r[k].amount <= s[r[k].payee].balance
    ensures (forall m :: 0 <= m < |s| ==> s[m].balance >= 0.0) ==> r == []
    ensures (forall m :: 0 <= m < |s| ==> s[m].balance <= 0.0) ==> r == []
    ensures |r| > 0 ==> |r| <= NonZeroCount(s) - 1
    ensures forall k :: 0 <= k < |r| ==> TransferPays(s, r, k)
  {
    var r := Emitted(s);
    TransferFacts(s, r);
    TransferAmounts(s, r);
    r
  }

  /**
   * The order of the payments: payers come most-negative first and payees
   * largest first, ties in argument order, and no pair of members settles
   * twice.
   */
  lemma {:induction false} TransfersOrdered(s: seq<MemberBalance>)
    ensures var r := Transfers(s);
            && (forall a, b :: 0 <= a < b < |r| ==>
                  (r[a].payer == r[b].payer || s[r[a].payer].balance < s[r[b].payer].balance
                   || (s[r[a].payer].balance == s[r[b].payer].balance && r[a].payer < r[b].payer)))
            && (forall a, b :: 0 <= a < b < |r| ==>
                  (r[a].payee == r[b].payee || s[r[a].payee].balance > s[r[b].payee].balance
                   || (s[r[a].payee].balance == s[r[b].payee].balance && r[a].payee < r[b].payee)))
            && (forall a, b :: 0 <= a < b < |r| ==> r[a].payer != r[b].payer || r[a].payee != r[b].payee)
  {
    var r := Transfers(s);
    assert r == Emitted(s);
    EmittedOrdered(s, r);
  }

  lemma {:induction false} EmittedOrdered(s: seq<MemberBalance>, r: seq<Transfer>)
    requires r == Emitted(s)
    ensures forall k :: 0 <= k < |r| ==> r[k].payer < |s| && r[k].payee < |s|
    ensures forall a, b :: 0 <= a < b < |r| ==>
              (r[a].payer == r[b].payer || s[r[a].payer].balance < s[r[b].payer].balance
               || (s[r[a].payer].balance == s[r[b].payer].balance && r[a].payer < r[b].payer))
    ensures forall a, b :: 0 <= a < b < |r| ==>
              (r[a].payee == r[b].payee || s[r[a].payee].balance > s[r[b].payee].balance
               || (s[r[a].payee].balance == s[r[b].payee].balance && r[a].payee < r[b].payee))
    ensures forall a, b :: 0 <= a < b < |r| ==> r[a].payer != r[b].payer || r[a].payee != r[b].payee
  {
    PlanReady(s);
    var D, C := Debtors(s), Creditors(s);
    var steps := Walk(Balances(s), D, C, 0, 0).steps;
    TransferBounds(s, D, C, steps);
    PlannedOrdered(s, D, C);
    EmittedOrder(s, D, C, steps, r);
  }

  /** The walk's steps over the sorted lists, between argument positions. */
  function Emitted(s: seq<MemberBalance>): seq<Transfer> {
    PlanReady(s);
    var D, C := Debtors(s), Creditors(s);
    ToTransfers(Walk(Balances(s), D, C, 0, 0).steps, D, C)
  }

  lemma {:induction false} TransferFacts(s: seq<MemberBalance>, r: seq<Transfer>)
    requires r == Emitted(s)
    ensures forall k :: 0 <= k < |r| ==>
              && r[k].payer < |s| && r[k].payee < |s|
              && s[r[k].payer].balance < 0.0 && s[r[k].payee].balance > 0.0
              && 0.0 < r[k].amount <= -s[r[k].payer].balance && r[k].amount <= s[r[k].payee].balance
    ensures forall a, b :: 0 <= a < b < |r| ==>
              (r[a].payer == r[b].payer || s[r[a].payer].balance < s[r[b].payer].balance
               || (s[r[a].payer].balance == s[r[b].payer].balance && r[a].payer < r[b].payer))
    ensures forall a, b :: 0 <= a < b < |r| ==>
              (r[a].payee == r[b].payee || s[r[a].payee].balance > s[r[b].payee].balance
               || (s[r[a].payee].balance == s[r[b].payee].balance && r[a].payee < r[b].payee))
    ensures forall a, b :: 0 <= a < b < |r| ==> r[a].payer != r[b].payer || r[a].payee != r[b].payee
    ensures (forall m :: 0 <= m < |s| ==> s[m].balance >= 0.0) ==> r == []
    ensures (forall m :: 0 <= m < |s| ==> s[m].balance <= 0.0) ==> r == []
    ensures |r| > 0 ==> |r| <= NonZeroCount(s) - 1
  {
    PlanReady(s);
    var D, C := Debtors(s), Creditors(s);
    EmittedShape(s, D, C, r);
    EmittedCount(s, D, C, r);
  }

  lemma {:induction false} EmittedShape(s: seq<MemberBalance>, D: seq<Entry>, C: seq<Entry>, r: seq<Transfer>)
    requires Planned(s, D, C)
    requires r == ToTransfers(Walk(Balances(s), D, C, 0, 0).steps, D, C)
    ensures forall k :: 0 <= k < |r| ==>
              && r[k].payer < |s| && r[k].payee < |s|
              && s[r[k].payer].balance < 0.0 && s[r[k].payee].balance > 0.0
              && 0.0 < r[k].amount <= -s[r[k].payer].balance && r[k].amount <= s[r[k].payee].balance
    ensures forall a, b :: 0 <= a < b < |r| ==>
              (r[a].payer == r[b].payer || s[r[a].payer].balance < s[r[b].payer].balance
               || (s[r[a].payer].balance == s[r[b].payer].balance && r[a].payer < r[b].payer))
    ensures forall a, b :: 0 <= a < b < |r| ==>
              (r[a].payee == r[b].payee || s[r[a].payee].balance > s[r[b].payee].balance
               || (s[r[a].payee].balance == s[r[b].payee].balance && r[a].payee < r[b].payee))
    ensures forall a, b :: 0 <= a < b < |r| ==> r[a].payer != r[b].payer || r[a].payee != r[b].payee
  {
    var steps := Walk(Balances(s), D, C, 0, 0).steps;
    TransferBounds(s, D, C, steps);
    PlannedOrdered(s, D, C);
    EmittedOrder(s, D, C, steps, r);
  }

  lemma {:induction false} EmittedOrder(s: seq<MemberBalance>, D: seq<Entry>, C: seq<Entry>, steps: seq<Step>, r: seq<Transfer>)
    requires PayerOrdered(s, D) && PayeeOrdered(s, C)
    requires StepsFrom(steps, 0, 0, |D|, |C|) && Advancing(steps)
    requires forall st :: st in steps ==> st.di < |D| && st.cj < |C|
    requires r == ToTransfers(steps, D, C)
    requires forall k :: 0 <= k < |r| ==> r[k].payer < |s| && r[k].payee < |s|
    ensures forall a, b :: 0 <= a < b < |r| ==>
              (r[a].payer == r[b].payer || s[r[a].payer].balance < s[r[b].payer].balance
               || (s[r[a].payer].balance == s[r[b].payer].balance && r[a].payer < r[b].payer))
    ensures forall a, b :: 0 <= a < b < |r| ==>
              (r[a].payee == r[b].payee || s[r[a].payee].balance > s[r[b].payee].balance
               || (s[r[a].payee].balance == s[r[b].payee].balance && r[a].payee < r[b].payee))
    ensures forall a, b :: 0 <= a < b < |r| ==> r[a].payer != r[b].payer || r[a].payee != r[b].payee
  {
    TransferPayerOrder(s, D, C, steps);
    TransferPayeeOrder(s, D, C, steps);
    TransferPairsDistinct(s, D, C, steps);
  }

  lemma {:induction false} EmittedCount(s: seq<MemberBalance>, D: seq<Entry>, C: seq<Entry>, r: seq<Transfer>)
    requires D == Debtors(s) && C == Creditors(s) && Planned(s, D, C)
    requires r == ToTransfers(Walk(Balances(s), D, C, 0, 0).steps, D, C)
    ensures (forall m :: 0 <= m < |s| ==> s[m].balance >= 0.0) ==> r == []
    ensures (forall m :: 0 <= m < |s| ==> s[m].balance <= 0.0) ==> r == []
    ensures |r| > 0 ==> |r| <= NonZeroCount(s) - 1
  {
    DebtorsNonEmpty(s);
    CreditorsNonEmpty(s);
    CountSplit(s, 0);
  }

  lemma {:induction false} TransferBounds(s: seq<MemberBalance>, D: seq<Entry>, C: seq<Entry>, steps: seq<Step>)
    requires Planned(s, D, C)
    requires steps == Walk(Balances(s), D, C, 0, 0).steps
    ensures forall st :: st in steps ==> st.di < |D| && st.cj < |C|
    ensures var r := ToTransfers(steps, D, C);
            forall k :: 0 <= k < |r| ==>
              && r[k].payer < |s| && r[k].payee < |s|
              && s[r[k].payer].balance < 0.0 && s[r[k].payee].balance > 0.0
              && 0.0 < r[k].amount <= -s[r[k].payer].balance && r[k].amount <= s[r[k].payee].balance
  {
    WalkAmountsBounded(Balances(s), D, C, 0, 0);
    var r := ToTransfers(steps, D, C);
    forall k | 0 <= k < |r|
      ensures && r[k].payer < |s| && r[k].payee < |s|
              && s[r[k].payer].balance < 0.0 && s[r[k].payee].balance > 0.0
              && 0.0 < r[k].amount <= -s[r[k].payer].balance && r[k].amount <= s[r[k].payee].balance
    {
      assert steps[k] in steps;
    }
  }

  /** Two payments in emission order, by the sorted-list entries they pay between. */
  lemma {:induction false} PairOrder(s: seq<MemberBalance>, D: seq<Entry>, C: seq<Entry>, x: Step, y: Step)
    requires Planned(s, D, C)
    requires x.di < |D| && y.di < |D| && x.cj < |C| && y.cj < |C|
    requires x.di <= y.di && x.cj <= y.cj && x.di + x.cj < y.di + y.cj
    ensures D[x.di].at == D[y.di].at || s[D[x.di].at].balance < s[D[y.di].at].balance
            || (s[D[x.di].at].balance == s[D[y.di].at].balance && D[x.di].at < D[y.di].at)
    ensures C[x.cj].at == C[y.cj].at || s[C[x.cj].at].balance > s[C[y.cj].at].balance
            || (s[C[x.cj].at].balance == s[C[y.cj].at].balance && C[x.cj].at < C[y.cj].at)
    ensures D[x.di].at != D[y.di].at || C[x.cj].at != C[y.cj].at
  {
    assert D[x.di] == Entry(D[x.di].at, s[D[x.di].at].balance);
    assert D[y.di] == Entry(D[y.di].at, s[D[y.di].at].balance);
    assert C[x.cj] == Entry(C[x.cj].at, s[C[x.cj].at].balance);
    assert C[y.cj] == Entry(C[y.cj].at, s[C[y.cj].at].balance);
  }

  /** Debtors in list order: strictly increasing balance, ties by position. */
  predicate PayerOrdered(s: seq<MemberBalance>, D: seq<Entry>) {
    && (forall k :: 0 <= k < |D| ==> D[k].at < |s|)
    && (forall a, b :: 0 <= a < b < |D| ==>
         D[a].at != D[b].at
         && (s[D[a].at].balance < s[D[b].at].balance
             || (s[D[a].at].balance == s[D[b].at].balance && D[a].at < D[b].at)))
  }

  /** Creditors in list order: strictly decreasing balance, ties by position. */
  predicate PayeeOrdered(s: seq<MemberBalance>, C: seq<Entry>) {
    && (forall k :: 0 <= k < |C| ==> C[k].at < |s|)
    && (forall a, b :: 0 <= a < b < |C| ==>
         C[a].at != C[b].at
         && (s[C[a].at].balance > s[C[b].at].balance
             || (s[C[a].at].balance == s[C[b].at].balance && C[a].at < C[b].at)))
  }

  lemma {:induction false} PlannedOrdered(s: seq<MemberBalance>, D: seq<Entry>, C: seq<Entry>)
    requires Planned(s, D, C)
    ensures PayerOrdered(s, D) && PayeeOrdered(s, C)
  {
    forall a, b | 0 <= a < b < |D|
      ensures D[a].at != D[b].at
              && (s[D[a].at].balance < s[D[b].at].balance
                  || (s[D[a].at].balance == s[D[b].at].balance && D[a].at < D[b].at))
    {
      assert D[a] == Entry(D[a].at, s[D[a].at].balance);
      assert D[b] == Entry(D[b].at, s[D[b].at].balance);
    }
    forall a, b | 0 <= a < b < |C|
      ensures C[a].at != C[b].at
              && (s[C[a].at].balance > s[C[b].at].balance
                  || (s[C[a].at].balance == s[C[b].at].balance && C[a].at < C[b].at))
    {
      assert C[a] == Entry(C[a].at, s[C[a].at].balance);
      assert C[b] == Entry(C[b].at, s[C[b].at].balance);
    }
  }

  lemma {:induction false} TransferPayerOrder(s: seq<MemberBalance>, D: seq<Entry>, C: seq<Entry>, steps: seq<Step>)
    requires PayerOrdered(s, D)
    requires StepsFrom(steps, 0, 0, |D|, |C|) && Advancing(steps)
    ensures var r := ToTransfers(steps, D, C);
            forall a, b :: 0 <= a < b < |r| ==>
              (r[a].payer == r[b].payer || s[r[a].payer].balance < s[r[b].payer].balance
               || (s[r[a].payer].balance == s[r[b].payer].balance && r[a].payer < r[b].payer))
  {
    var r := ToTransfers(steps, D, C);
    forall a, b | 0 <= a < b < |r|
      ensures r[a].payer == r[b].payer || s[r[a].payer].balance < s[r[b].payer].balance
              || (s[r[a].payer].balance == s[r[b].payer].balance && r[a].payer < r[b].payer)
    {
      assert steps[a] in steps && steps[b] in steps;
      var x, y := steps[a].di, steps[b].di;
      assert r[a].payer == D[x].at && r[b].payer == D[y].at;
      if x != y {
        assert x < y;
      }
    }
  }

  lemma {:induction false} TransferPayeeOrder(s: seq<MemberBalance>, D: seq<Entry>, C: seq<Entry>, steps: seq<Step>)
    requires PayeeOrdered(s, C)
    requires StepsFrom(steps, 0, 0, |D|, |C|) && Advancing(steps)
    ensures var r := ToTransfers(steps, D, C);
            forall a, b :: 0 <= a < b < |r| ==>
              (r[a].payee == r[b].payee || s[r[a].payee].balance > s[r[b].payee].balance
               || (s[r[a].payee].balance == s[r[b].payee].balance && r[a].payee < r[b].payee))
  {
    var r := ToTransfers(steps, D, C);
    forall a, b | 0 <= a < b < |r|
      ensures r[a].payee == r[b].payee || s[r[a].payee].balance > s[r[b].payee].balance
              || (s[r[a].payee].balance == s[r[b].payee].balance && r[a].payee < r[b].payee)
    {
      assert steps[a] in steps && steps[b] in steps;
      var x, y := steps[a].cj, steps[b].cj;
      assert r[a].payee == C[x].at && r[b].payee == C[y].at;
      if x != y {
        assert x < y;
      }
    }
  }

  lemma {:induction false} TransferPairsDistinct(s: seq<MemberBalance>, D: seq<Entry>, C: seq<Entry>, steps: seq<Step>)
    requires PayerOrdered(s, D) && PayeeOrdered(s, C)
    requires StepsFrom(steps, 0, 0, |D|, |C|) && Advancing(steps)
    ensures var r := ToTransfers(steps, D, C);
            forall a, b :: 0 <= a < b < |r| ==> r[a].payer != r[b].payer || r[a].payee != r[b].payee
  {
    var r := ToTransfers(steps, D, C);
    forall a, b | 0 <= a < b < |r|
      ensures r[a].payer != r[b].payer || r[a].payee != r[b].payee
    {
      assert steps[a] in steps && steps[b] in steps;
      assert r[a].payer == D[steps[a].di].at && r[b].payer == D[steps[b].di].at;
      assert r[a].payee == C[steps[a].cj].at && r[b].payee == C[steps[b].cj].at;
    }
  }

  /** Debtors plus creditors are the members with a non-zero balance. */
  lemma {:induction false} CountSplit(s: seq<MemberBalance>, base: nat)
    ensures |Lists.Filter(EntriesFrom(s, base), IsDebtor)| + |Lists.Filter(EntriesFrom(s, base), IsCreditor)| == NonZeroCount(s)
    ensures |Lists.SortBy(Lists.Filter(EntriesFrom(s, base), IsDebtor), DebtKey)| + |Lists.SortBy(Lists.Filter(EntriesFrom(s, base), IsCreditor), CreditKey)| == NonZeroCount(s)
  {
    FilterCounts(s, base);
  }

  lemma {:induction false} FilterCounts(s: seq<MemberBalance>, base: nat)
    ensures |Lists.Filter(EntriesFrom(s, base), IsDebtor)| + |Lists.Filter(EntriesFrom(s, base), IsCreditor)| == NonZeroCount(s)
  {
    if |s| > 0 {
      var E := EntriesFrom(s, base);
      assert E[1..] == EntriesFrom(s[1..], base + 1);
      FilterCounts(s[1..], base + 1);
      assert E == [E[0]] + E[1..];
      Lists.FilterCons(E[0], E[1..], IsDebtor);
      Lists.FilterCons(E[0], E[1..], IsCreditor);
    }
  }

  // ---------------------------------------------------------------------------
  // Conservation over the argument

  /** What the member at argument position `m` pays over the transfers. */
  function Paid(r: seq<Transfer>, m: nat): real {
    if |r| == 0 then 0.0 else (if r[0].payer == m then r[0].amount else 0.0) + Paid(r[1..], m)
  }

  /** What the member at argument position `m` receives over the transfers. */
  function Received(r: seq<Transfer>, m: nat): real {
    if |r| == 0 then 0.0 else (if r[0].payee == m then r[0].amount else 0.0) + Received(r[1..], m)
  }

  /** Entries that carry their member's balance sum to the sum of those balances. */
  lemma {:induction false} SumAtEntries(s: seq<MemberBalance>, E: seq<Entry>)
    requires forall k :: 0 <= k < |E| ==> E[k].at < |s| && E[k] == Entry(E[k].at, s[E[k].at].balance)
    ensures SumAt(Balances(s), E) == Lists.SumOf(E, EntryBalance)
  {
    if |E| > 0 {
      SumAtEntries(s, E[1..]);
    }
  }

  /** The negative and the positive balances together make up the total. */
  lemma {:induction false} SignSplit(s: seq<MemberBalance>, base: nat)
    ensures Lists.SumOf(Lists.Filter(EntriesFrom(s, base), IsDebtor), EntryBalance)
            + Lists.SumOf(Lists.Filter(EntriesFrom(s, base), IsCreditor), EntryBalance) == TotalBalance(s)
  {
    if |s| > 0 {
      var E := EntriesFrom(s, base);
      assert E[1..] == EntriesFrom(s[1..], base + 1);
      SignSplit(s[1..], base + 1);
      var d, c := Lists.Filter(E[1..], IsDebtor), Lists.Filter(E[1..], IsCreditor);
      assert ([E[0]] + d)[1..] == d;
      assert ([E[0]] + c)[1..] == c;
    }
  }

  /** When the balances sum to zero, so do the debts and credits the walk starts with. */
  lemma {:induction false} PlanBalanced(s: seq<MemberBalance>, D: seq<Entry>, C: seq<Entry>)
    requires TotalBalance(s) == 0.0 && D == Debtors(s) && C == Creditors(s)
    requires (forall k :: 0 <= k < |D| ==> D[k].at < |s|) && (forall k :: 0 <= k < |C| ==> C[k].at < |s|)
    ensures SumAt(Balances(s), D) + SumAt(Balances(s), C) == 0.0
  {
    DebtorFacts(s);
    CreditorFacts(s);
    SumAtEntries(s, D);
    SumAtEntries(s, C);
    Lists.SortSum(Lists.Filter(Entries(s), IsDebtor), DebtKey, EntryBalance);
    Lists.SortSum(Lists.Filter(Entries(s), IsCreditor), CreditKey, EntryBalance);
    SignSplit(s, 0);
  }

  /** Conservation on the sorted lists: the walk pays every debt and every credit in full. */
  lemma {:induction false} WalkSettles(s: seq<MemberBalance>, D: seq<Entry>, C: seq<Entry>)
    requires TotalBalance(s) == 0.0 && D == Debtors(s) && C == Creditors(s) && Planned(s, D, C)
    ensures forall k :: 0 <= k < |D| ==> Outflow(Walk(Balances(s), D, C, 0, 0).steps, k) == -s[D[k].at].balance
    ensures forall k :: 0 <= k < |C| ==> Inflow(Walk(Balances(s), D, C, 0, 0).steps, k) == s[C[k].at].balance
  {
    PlanBalanced(s, D, C);
    assert D[0..] == D && C[0..] == C;
    WalkConserves(Balances(s), D, C, 0, 0);
  }

  /** A debtor's payments are what the walk emits at its cursor position. */
  lemma {:induction false} PaidIsOutflow(steps: seq<Step>, D: seq<Entry>, C: seq<Entry>, k: nat)
    requires forall st :: st in steps ==> st.di < |D| && st.cj < |C|
    requires k < |D| && forall a, b :: 0 <= a < b < |D| ==> D[a].at != D[b].at
    ensures Paid(ToTransfers(steps, D, C), D[k].at) == Outflow(steps, k)
  {
    if |steps| > 0 {
      assert steps[0] in steps;
      var r := ToTransfers(steps, D, C);
      assert r[1..] == ToTransfers(steps[1..], D, C);
      PaidIsOutflow(steps[1..], D, C, k);
      var x := steps[0].di;
      assert r[0].payer == D[x].at;
      if x < k {
        assert D[x].at != D[k].at;
      } else if k < x {
        assert D[k].at != D[x].at;
      }
    }
  }

  /** A creditor's receipts are what the walk emits at its cursor position. */
  lemma {:induction false} ReceivedIsInflow(steps: seq<Step>, D: seq<Entry>, C: seq<Entry>, k: nat)
    requires forall st :: st in steps ==> st.di < |D| && st.cj < |C|
    requires k < |C| && forall a, b :: 0 <= a < b < |C| ==> C[a].at != C[b].at
    ensures Received(ToTransfers(steps, D, C), C[k].at) == Inflow(steps, k)
  {
    if |steps| > 0 {
      assert steps[0] in steps;
      var r := ToTransfers(steps, D, C);
      assert r[1..] == ToTransfers(steps[1..], D, C);
      ReceivedIsInflow(steps[1..], D, C, k);
      var y := steps[0].cj;
      assert r[0].payee == C[y].at;
      if y < k {
        assert C[y].at != C[k].at;
      } else if k < y {
        assert C[k].at != C[y].at;
      }
    }
  }

  /** The first `n` payments are the payments of the first `n` passes. */
  lemma {:induction false} ToTransfersPrefix(steps: seq<Step>, D: seq<Entry>, C: seq<Entry>, n: nat)
    requires forall st :: st in steps ==> st.di < |D| && st.cj < |C|
    requires n <= |steps|
    ensures forall st :: st in steps[..n] ==> st.di < |D| && st.cj < |C|
    ensures ToTransfers(steps, D, C)[..n] == ToTransfers(steps[..n], D, C)
  {
    forall st | st in steps[..n] ensures st.di < |D| && st.cj < |C| {
      assert st in steps;
    }
    assert forall k :: 0 <= k < n ==> steps[..n][k] == steps[k];
  }

  /**
   * Payment `k` of `r` pays the smaller of what its payer still owes and
   * what its payee is still owed once the payments before it are taken off.
   */
  predicate TransferPays(s: seq<MemberBalance>, r: seq<Transfer>, k: nat)
    requires k < |r|
  {
    && r[k].payer < |s| && r[k].payee < |s|
    && r[k].amount == Min(-s[r[k].payer].balance - Paid(r[..k], r[k].payer),
                          s[r[k].payee].balance - Received(r[..k], r[k].payee))
  }

  /** `StepPays` for one pass, restated between argument positions. */
  lemma {:induction false} TransferAmountAt(s: seq<MemberBalance>, D: seq<Entry>, C: seq<Entry>, steps: seq<Step>, k: nat)
    requires forall st :: st in steps ==> st.di < |D| && st.cj < |C|
    requires forall a, b :: 0 <= a < b < |D| ==> D[a].at != D[b].at
    requires forall a, b :: 0 <= a < b < |C| ==> C[a].at != C[b].at
    requires k < |steps| && StepPays(Balances(s), D, C, steps, k)
    ensures k < |ToTransfers(steps, D, C)| && TransferPays(s, ToTransfers(steps, D, C), k)
  {
    var r := ToTransfers(steps, D, C);
    var x, y := steps[k].di, steps[k].cj;
    assert r[k] == Transfer(D[x].at, C[y].at, steps[k].amount);
    assert Paid(r[..k], D[x].at) == Outflow(steps[..k], x) by {
      ToTransfersPrefix(steps, D, C, k);
      PaidIsOutflow(steps[..k], D, C, x);
    }
    assert Received(r[..k], C[y].at) == Inflow(steps[..k], y) by {
      ToTransfersPrefix(steps, D, C, k);
      ReceivedIsInflow(steps[..k], D, C, y);
    }
    assert Balances(s)[D[x].at] == s[D[x].at].balance && Balances(s)[C[y].at] == s[C[y].at].balance;
  }

  /** `TransferAmountAt` for every pass. */
  lemma {:induction false} TransferAmountsOf(s: seq<MemberBalance>, D: seq<Entry>, C: seq<Entry>, steps: seq<Step>)
    requires forall st :: st in steps ==> st.di < |D| && st.cj < |C|
    requires forall a, b :: 0 <= a < b < |D| ==> D[a].at != D[b].at
    requires forall a, b :: 0 <= a < b < |C| ==> C[a].at != C[b].at
    requires forall n :: 0 <= n < |steps| ==> StepPays(Balances(s), D, C, steps, n)
    ensures forall k :: 0 <= k < |ToTransfers(steps, D, C)| ==> TransferPays(s, ToTransfers(steps, D, C), k)
  {
    var r := ToTransfers(steps, D, C);
    forall k | 0 <= k < |r| ensures TransferPays(s, r, k) {
      TransferAmountAt(s, D, C, steps, k);
    }
  }

  /** Every emitted payment pays min(debt still open, credit still open). */
  lemma {:induction false} TransferAmounts(s: seq<MemberBalance>, r: seq<Transfer>)
    requires r == Emitted(s)
    ensures forall k :: 0 <= k < |r| ==> TransferPays(s, r, k)
  {
    PlanReady(s);
    var D, C := Debtors(s), Creditors(s);
    var steps := Walk(Balances(s), D, C, 0, 0).steps;
    TransferBounds(s, D, C, steps);
    WalkStepAmounts(Balances(s), D, C, 0, 0);
    TransferAmountsOf(s, D, C, steps);
  }

  /** A member outside the debtor list pays nothing. */
  lemma {:induction false} PaidNone(steps: seq<Step>, D: seq<Entry>, C: seq<Entry>, m: nat)
    requires forall st :: st in steps ==> st.di < |D| && st.cj < |C|
    requires forall k :: 0 <= k < |D| ==> D[k].at != m
    ensures Paid(ToTransfers(steps, D, C), m) == 0.0
  {
    if |steps| > 0 {
      assert steps[0] in steps;
      assert ToTransfers(steps, D, C)[1..] == ToTransfers(steps[1..], D, C);
      PaidNone(steps[1..], D, C, m);
    }
  }

  /** A member outside the creditor list receives nothing. */
  lemma {:induction false} ReceivedNone(steps: seq<Step>, D: seq<Entry>, C: seq<Entry>, m: nat)
    requires forall st :: st in steps ==> st.di < |D| && st.cj < |C|
    requires forall k :: 0 <= k < |C| ==> C[k].at != m
    ensures Received(ToTransfers(steps, D, C), m) == 0.0
  {
    if |steps| > 0 {
      assert steps[0] in steps;
      assert ToTransfers(steps, D, C)[1..] == ToTransfers(steps[1..], D, C);
      ReceivedNone(steps[1..], D, C, m);
    }
  }

  /** One member's part of the conservation theorem, given the walk's conservation. */
  lemma {:induction false} MemberSettlesIn(s: seq<MemberBalance>, D: seq<Entry>, C: seq<Entry>, steps: seq<Step>, m: nat)
    requires m < |s| && forall st :: st in steps ==> st.di < |D| && st.cj < |C|
    requires forall a, b :: 0 <= a < b < |D| ==> D[a].at != D[b].at
    requires forall a, b :: 0 <= a < b < |C| ==> C[a].at != C[b].at
    requires forall k :: 0 <= k < |D| ==> D[k].at < |s| && s[D[k].at].balance < 0.0
    requires forall k :: 0 <= k < |C| ==> C[k].at < |s| && s[C[k].at].balance > 0.0
    requires forall k :: 0 <= k < |D| ==> Outflow(steps, k) == -s[D[k].at].balance
    requires forall k :: 0 <= k < |C| ==> Inflow(steps, k) == s[C[k].at].balance
    requires s[m].balance < 0.0 ==> exists k :: 0 <= k < |D| && D[k].at == m
    requires s[m].balance > 0.0 ==> exists k :: 0 <= k < |C| && C[k].at == m
    ensures Paid(ToTransfers(steps, D, C), m) == (if s[m].balance < 0.0 then -s[m].balance else 0.0)
    ensures Received(ToTransfers(steps, D, C), m) == (if s[m].balance > 0.0 then s[m].balance else 0.0)
  {
    if s[m].balance < 0.0 {
      var k :| 0 <= k < |D| && D[k].at == m;
      PaidIsOutflow(steps, D, C, k);
      ReceivedNone(steps, D, C, m);
    } else if s[m].balance > 0.0 {
      var k :| 0 <= k < |C| && C[k].at == m;
      ReceivedIsInflow(steps, D, C, k);
      PaidNone(steps, D, C, m);
    } else {
      PaidNone(steps, D, C, m);
      ReceivedNone(steps, D, C, m);
    }
  }

  /** The walk's facts that conservation rests on, for balances summing to zero. */
  lemma {:induction false} WalkFacts(s: seq<MemberBalance>, D: seq<Entry>, C: seq<Entry>, steps: seq<Step>)
    requires TotalBalance(s) == 0.0 && D == Debtors(s) && C == Creditors(s) && Planned(s, D, C)
    requires steps == Walk(Balances(s), D, C, 0, 0).steps
    ensures forall st :: st in steps ==> st.di < |D| && st.cj < |C|
    ensures Emitted(s) == ToTransfers(steps, D, C)
    ensures forall a, b :: 0 <= a < b < |D| ==> D[a].at != D[b].at
    ensures forall a, b :: 0 <= a < b < |C| ==> C[a].at != C[b].at
    ensures forall k :: 0 <= k < |D| ==> D[k].at < |s| && s[D[k].at].balance < 0.0
    ensures forall k :: 0 <= k < |C| ==> C[k].at < |s| && s[C[k].at].balance > 0.0
    ensures forall k :: 0 <= k < |D| ==> Outflow(steps, k) == -s[D[k].at].balance
    ensures forall k :: 0 <= k < |C| ==> Inflow(steps, k) == s[C[k].at].balance
  {
    TransferBounds(s, D, C, steps);
    WalkSettles(s, D, C);
  }

  /** One member's part of the conservation theorem. */
  lemma {:induction false} MemberSettles(s: seq<MemberBalance>, m: nat)
    requires TotalBalance(s) == 0.0 && m < |s|
    ensures Paid(Emitted(s), m) == (if s[m].balance < 0.0 then -s[m].balance else 0.0)
    ensures Received(Emitted(s), m) == (if s[m].balance > 0.0 then s[m].balance else 0.0)
  {
    PlanReady(s);
    var D, C := Debtors(s), Creditors(s);
    var steps := Walk(Balances(s), D, C, 0, 0).steps;
    WalkFacts(s, D, C, steps);
    if s[m].balance < 0.0 {
      EntryIn(s, IsDebtor, DebtKey, m);
    }
    if s[m].balance > 0.0 {
      EntryIn(s, IsCreditor, CreditKey, m);
    }
    MemberSettlesIn(s, D, C, steps, m);
  }

  /**
   * Conservation: when the balances sum to zero, every debtor pays exactly
   * what it owes, every creditor receives exactly what it is owed, members
   * with a zero balance take no part, and so each member's receipts minus
   * payments equal its balance.
   */
  lemma {:induction false} SettlementsConserve(s: seq<MemberBalance>)
    requires TotalBalance(s) == 0.0
    ensures forall m :: 0 <= m < |s| ==>
              && Paid(Transfers(s), m) == (if s[m].balance < 0.0 then -s[m].balance else 0.0)
              && Received(Transfers(s), m) == (if s[m].balance > 0.0 then s[m].balance else 0.0)
    ensures forall m :: 0 <= m < |s| ==> Received(Transfers(s), m) - Paid(Transfers(s), m) == s[m].balance
  {
    forall m | 0 <= m < |s|
      ensures && Paid(Transfers(s), m) == (if s[m].balance < 0.0 then -s[m].balance else 0.0)
              && Received(Transfers(s), m) == (if s[m].balance > 0.0 then s[m].balance else 0.0)
    {
      assert Transfers(s) == Emitted(s);
      MemberSettles(s, m);
    }
  }

  // ---------------------------------------------------------------------------
  // generateSettlements

  /** The balance array after the walk's write-backs. */
  function Residuals(s: seq<MemberBalance>): seq<real> {
    PlanReady(s);
    Walk(Balances(s), Debtors(s), Creditors(s), 0, 0).balances
  }

  /**
   * What the write-backs do to each member: a zero balance is kept, a debt
   * only shrinks and stays a debt, a credit only shrinks and stays a credit;
   * exactly where each is left, against the payments emitted, is `LeftAt`.
   */
  lemma {:induction false} ResidualFacts(s: seq<MemberBalance>, bs: seq<real>)
    requires bs == Residuals(s)
    ensures |bs| == |s|
    ensures forall m :: 0 <= m < |s| && s[m].balance == 0.0 ==> bs[m] == 0.0
    ensures forall m :: 0 <= m < |s| && s[m].balance < 0.0 ==> s[m].balance <= bs[m] < 0.0
    ensures forall m :: 0 <= m < |s| && s[m].balance > 0.0 ==> 0.0 < bs[m] <= s[m].balance
    ensures forall m :: 0 <= m < |s| ==> LeftAt(s, Transfers(s), m, bs[m])
  {
    forall m | 0 <= m < |s|
      ensures && (s[m].balance == 0.0 ==> bs[m] == 0.0)
              && (s[m].balance < 0.0 ==> s[m].balance <= bs[m] < 0.0)
              && (s[m].balance > 0.0 ==> 0.0 < bs[m] <= s[m].balance)
              && LeftAt(s, Transfers(s), m, bs[m])
    {
      ResidualAt(s, bs, m);
      MemberLeft(s, m);
    }
  }

  lemma {:induction false} ResidualAt(s: seq<MemberBalance>, bs: seq<real>, m: nat)
    requires bs == Residuals(s) && m < |s|
    ensures |bs| == |s|
    ensures s[m].balance == 0.0 ==> bs[m] == 0.0
    ensures s[m].balance < 0.0 ==> s[m].balance <= bs[m] < 0.0
    ensures s[m].balance > 0.0 ==> 0.0 < bs[m] <= s[m].balance
  {
    PlanReady(s);
    var D, C := Debtors(s), Creditors(s);
    WalkResiduals(Balances(s), D, C, 0, 0);
    if s[m].balance == 0.0 {
      assert Untouched(D, C, 0, 0, m);
    } else if s[m].balance < 0.0 {
      EntryIn(s, IsDebtor, DebtKey, m);
    } else {
      EntryIn(s, IsCreditor, CreditKey, m);
    }
  }

  /** Payment `t` is `m`'s last payment in `r`. */
  predicate LastPayment(r: seq<Transfer>, t: nat, m: nat) {
    t < |r| && r[t].payer == m && forall u :: t < u < |r| ==> r[u].payer != m
  }

  /** Payment `t` is the last payment `m` receives in `r`. */
  predicate LastReceipt(r: seq<Transfer>, t: nat, m: nat) {
    t < |r| && r[t].payee == m && forall u :: t < u < |r| ==> r[u].payee != m
  }

  /**
   * The balance `v` the write-backs leave member `m` with, given the payments
   * `r`. A zero balance is kept. A debtor whose payments cover its debt is
   * left at minus its last payment, and one whose payments fall short at its
   * balance plus what it paid. A creditor paid in full is left at its last
   * receipt, and one not paid in full at its balance less its receipts.
   */
  predicate LeftAt(s: seq<MemberBalance>, r: seq<Transfer>, m: nat, v: real)
    requires m < |s|
  {
    if s[m].balance < 0.0 then
      if Paid(r, m) == -s[m].balance then exists t :: 0 <= t < |r| && LastPayment(r, t, m) && v == -r[t].amount
      else v == s[m].balance + Paid(r, m)
    else if s[m].balance > 0.0 then
      if Received(r, m) == s[m].balance then exists t :: 0 <= t < |r| && LastReceipt(r, t, m) && v == r[t].amount
      else v == s[m].balance - Received(r, m)
    else v == s[m].balance
  }

  /** `DebtorLeft` at a cursor position, restated for the member it points at. */
  lemma {:induction false} DebtorLeftPaid(s: seq<MemberBalance>, D: seq<Entry>, C: seq<Entry>, steps: seq<Step>, k: nat, v: real)
    requires forall st :: st in steps ==> st.di < |D| && st.cj < |C|
    requires forall a, b :: 0 <= a < b < |D| ==> D[a].at != D[b].at
    requires k < |D| && D[k].at < |s| && s[D[k].at].balance < 0.0
    requires DebtorLeft(s[D[k].at].balance, steps, k, v)
    ensures LeftAt(s, ToTransfers(steps, D, C), D[k].at, v)
  {
    var r, m := ToTransfers(steps, D, C), D[k].at;
    PaidIsOutflow(steps, D, C, k);
    if Outflow(steps, k) == -s[m].balance {
      var t :| 0 <= t < |steps| && LastOut(steps, t, k) && v == -steps[t].amount;
      forall u | t < u < |r| ensures r[u].payer != m {
        var x := steps[u].di;
        assert steps[u] in steps && r[u].payer == D[x].at && x != k;
        if x < k {
          assert D[x].at != D[k].at;
        } else {
          assert D[k].at != D[x].at;
        }
      }
      assert LastPayment(r, t, m);
    }
  }

  /** `CreditorLeft` at a cursor position, restated for the member it points at. */
  lemma {:induction false} CreditorLeftReceived(s: seq<MemberBalance>, D: seq<Entry>, C: seq<Entry>, steps: seq<Step>, k: nat, v: real)
    requires forall st :: st in steps ==> st.di < |D| && st.cj < |C|
    requires forall a, b :: 0 <= a < b < |C| ==> C[a].at != C[b].at
    requires k < |C| && C[k].at < |s| && s[C[k].at].balance > 0.0
    requires CreditorLeft(s[C[k].at].balance, steps, k, v)
    ensures LeftAt(s, ToTransfers(steps, D, C), C[k].at, v)
  {
    var r, m := ToTransfers(steps, D, C), C[k].at;
    ReceivedIsInflow(steps, D, C, k);
    if Inflow(steps, k) == s[m].balance {
      var t :| 0 <= t < |steps| && LastIn(steps, t, k) && v == steps[t].amount;
      forall u | t < u < |r| ensures r[u].payee != m {
        var y := steps[u].cj;
        assert steps[u] in steps && r[u].payee == C[y].at && y != k;
        if y < k {
          assert C[y].at != C[k].at;
        } else {
          assert C[k].at != C[y].at;
        }
      }
      assert LastReceipt(r, t, m);
    }
  }

  /** One member's write-back, in terms of the payments emitted. */
  lemma {:induction false} MemberLeft(s: seq<MemberBalance>, m: nat)
    requires m < |s|
    ensures |Residuals(s)| == |s|
    ensures LeftAt(s, Transfers(s), m, Residuals(s)[m])
  {
    PlanReady(s);
    var D, C, bs := Debtors(s), Creditors(s), Balances(s);
    var w := Walk(bs, D, C, 0, 0);
    TransferBounds(s, D, C, w.steps);
    assert Transfers(s) == ToTransfers(w.steps, D, C);
    if s[m].balance < 0.0 {
      EntryIn(s, IsDebtor, DebtKey, m);
      var k :| 0 <= k < |D| && D[k] == Entry(m, s[m].balance);
      WalkDebtorLeft(bs, D, C, 0, 0, k);
      DebtorLeftPaid(s, D, C, w.steps, k, w.balances[m]);
    } else if s[m].balance > 0.0 {
      EntryIn(s, IsCreditor, CreditKey, m);
      var k :| 0 <= k < |C| && C[k] == Entry(m, s[m].balance);
      WalkCreditorLeft(bs, D, C, 0, 0, k);
      CreditorLeftReceived(s, D, C, w.steps, k, w.balances[m]);
    } else {
      WalkResiduals(bs, D, C, 0, 0);
      assert Untouched(D, C, 0, 0, m);
    }
  }

  /** Transfers between positions, as settlements between member names. */
  function Named(s: seq<MemberBalance>, r: seq<Transfer>): (out: seq<Settlement>)
    requires forall k :: 0 <= k < |r| ==> r[k].payer < |s| && r[k].payee < |s|
    ensures |out| == |r|
    ensures forall k :: 0 <= k < |r| ==> out[k] == Settlement(s[r[k].payer].member.name, s[r[k].payee].member.name, r[k].amount)
  {
    seq(|r|, k requires 0 <= k < |r| => Settlement(s[r[k].payer].member.name, s[r[k].payee].member.name, r[k].amount))
  }

  /** The argument with its balances replaced. */
  function WriteBack(s: seq<MemberBalance>, bs: seq<real>): (out: seq<MemberBalance>)
    requires |bs| == |s|
    ensures |out| == |s|
    ensures forall m :: 0 <= m < |s| ==> out[m] == MemberBalance(s[m].member, bs[m])
  {
    seq(|s|, m requires 0 <= m < |s| => MemberBalance(s[m].member, bs[m]))
  }

  /**
   * `generateSettlements`: the settlements it returns, between member names,
   * and its argument as the write-backs leave it. Members keep their place;
   * a member with a zero balance is left as it was; every other balance
   * moves toward zero without reaching it, and stops where `LeftAt` says:
   * at minus the last payment of a debtor paid off, at the last receipt of a
   * creditor paid in full, and otherwise at what the payments leave open.
   */
  function GenerateSettlements(s: seq<MemberBalance>): (o: Outcome)
    ensures |o.settlements| == |Transfers(s)|
    ensures forall k :: 0 <= k < |o.settlements| ==>
              var t := Transfers(s)[k];
              o.settlements[k] == Settlement(s[t.payer].member.name, s[t.payee].member.name, t.amount)
    ensures |o.after| == |s| && forall m :: 0 <= m < |s| ==> o.after[m].member == s[m].member
    ensures forall m :: 0 <= m < |s| && s[m].balance == 0.0 ==> o.after[m] == s[m]
    ensures forall m :: 0 <= m < |s| && s[m].balance < 0.0 ==> s[m].balance <= o.after[m].balance < 0.0
    ensures forall m :: 0 <= m < |s| && s[m].balance > 0.0 ==> 0.0 < o.after[m].balance <= s[m].balance
    ensures forall m :: 0 <= m < |s| ==> LeftAt(s, Transfers(s), m, o.after[m].balance)
  {
    var bs := Residuals(s);
    ResidualFacts(s, bs);
    Outcome(Named(s, Transfers(s)), WriteBack(s, bs))
  }

  /**
   * Member `m` is left at `v` as a settled book leaves it: at minus its last
   * payment when it owed money, at its last receipt when it was owed money.
   */
  predicate LeftAtLast(s: seq<MemberBalance>, r: seq<Transfer>, m: nat, v: real)
    requires m < |s|
  {
    && (s[m].balance < 0.0 ==> exists t :: 0 <= t < |r| && LastPayment(r, t, m) && v == -r[t].amount)
    && (s[m].balance > 0.0 ==> exists t :: 0 <= t < |r| && LastReceipt(r, t, m) && v == r[t].amount)
  }

  /**
   * When the balances sum to zero every debtor is paid off and every
   * creditor paid in full, so the write-backs leave each debtor at minus its
   * last payment and each creditor at its last receipt.
   */
  lemma {:induction false} SettledAtLastPayments(s: seq<MemberBalance>)
    requires TotalBalance(s) == 0.0
    ensures forall m :: 0 <= m < |s| ==> LeftAtLast(s, Transfers(s), m, GenerateSettlements(s).after[m].balance)
  {
    var r, o := Transfers(s), GenerateSettlements(s);
    forall m | 0 <= m < |s| ensures LeftAtLast(s, r, m, o.after[m].balance) {
      SettledAt(s, r, m, o.after[m].balance);
    }
  }

  /** `SettledAtLastPayments` for one member. */
  lemma {:induction false} SettledAt(s: seq<MemberBalance>, r: seq<Transfer>, m: nat, v: real)
    requires TotalBalance(s) == 0.0 && r == Transfers(s) && m < |s|
    requires LeftAt(s, r, m, v)
    ensures LeftAtLast(s, r, m, v)
  {
    assert r == Emitted(s);
    MemberSettles(s, m);
  }

  function Person(name: string): User {
    User(name, name, name + "@example.com", Wrappers.None, 800.0)
  }

  function Example(): seq<MemberBalance> {
    [MemberBalance(Person("A"), -30.0), MemberBalance(Person("B"), 10.0), MemberBalance(Person("C"), 20.0)]
  }

  lemma {:induction false} ExampleFiltered(E: seq<Entry>)
    requires E == [Entry(0, -30.0), Entry(1, 10.0), Entry(2, 20.0)]
    ensures Lists.Filter(E, IsDebtor) == [Entry(0, -30.0)]
    ensures Lists.Filter(E, IsCreditor) == [Entry(1, 10.0), Entry(2, 20.0)]
  {
    ExampleDebtors(Entry(0, -30.0), Entry(1, 10.0), Entry(2, 20.0));
    ExampleCreditors(Entry(0, -30.0), Entry(1, 10.0), Entry(2, 20.0));
  }

  lemma {:induction false} ExampleDebtors(e0: Entry, e1: Entry, e2: Entry)
    requires e0 == Entry(0, -30.0) && e1 == Entry(1, 10.0) && e2 == Entry(2, 20.0)
    ensures Lists.Filter([e0, e1, e2], IsDebtor) == [e0]
  {
    assert [e2] == [e2] + [];
    assert [e1, e2] == [e1] + [e2];
    assert [e0, e1, e2] == [e0] + [e1, e2];
    Lists.FilterCons(e2, [], IsDebtor);
    Lists.FilterCons(e1, [e2], IsDebtor);
    Lists.FilterCons(e0, [e1, e2], IsDebtor);
  }

  lemma {:induction false} ExampleCreditors(e0: Entry, e1: Entry, e2: Entry)
    requires e0 == Entry(0, -30.0) && e1 == Entry(1, 10.0) && e2 == Entry(2, 20.0)
    ensures Lists.Filter([e0, e1, e2], IsCreditor) == [e1, e2]
  {
    assert [e2] == [e2] + [];
    assert [e1, e2] == [e1] + [e2];
    assert [e0, e1, e2] == [e0] + [e1, e2];
    Lists.FilterCons(e2, [], IsCreditor);
    Lists.FilterCons(e1, [e2], IsCreditor);
    Lists.FilterCons(e0, [e1, e2], IsCreditor);
  }

  lemma {:induction false} ExampleSorted()
    ensures Debtors(Example()) == [Entry(0, -30.0)]
    ensures Creditors(Example()) == [Entry(2, 20.0), Entry(1, 10.0)]
  {
    var e0, e1, e2 := Entry(0, -30.0), Entry(1, 10.0), Entry(2, 20.0);
    var E := Entries(Example());
    assert E == [e0, e1, e2];
    ExampleFiltered(E);
    Lists.SortTwo(e0, e0, DebtKey);
    Lists.SortTwo(e1, e2, CreditKey);
  }

  lemma {:induction false} ExampleWalk(D: seq<Entry>, C: seq<Entry>)
    requires D == [Entry(0, -30.0)] && C == [Entry(2, 20.0), Entry(1, 10.0)]
    ensures Ready([-30.0, 10.0, 20.0], D, C, 0, 0)
    ensures Walk([-30.0, 10.0, 20.0], D, C, 0, 0) == Run([Step(0, 0, 20.0), Step(0, 1, 10.0)], [-10.0, 10.0, 20.0])
  {
    var bs1 := [-10.0, 10.0, 20.0];
    ExampleTail(D, C, bs1);
    ExampleHead(D, C, [-30.0, 10.0, 20.0], bs1);
  }

  /** The first step: A pays C 20, leaving A owing 10. */
  lemma {:induction false} ExampleHead(D: seq<Entry>, C: seq<Entry>, bs: seq<real>, bs1: seq<real>)
    requires D == [Entry(0, -30.0)] && C == [Entry(2, 20.0), Entry(1, 10.0)]
    requires bs == [-30.0, 10.0, 20.0] && bs1 == [-10.0, 10.0, 20.0]
    requires Ready(bs1, D, C, 0, 1) && Walk(bs1, D, C, 0, 1) == Run([Step(0, 1, 10.0)], bs1)
    ensures Ready(bs, D, C, 0, 0)
    ensures Walk(bs, D, C, 0, 0) == Run([Step(0, 0, 20.0), Step(0, 1, 10.0)], bs1)
  {
    assert bs[0 := bs[0] + 20.0] == bs1;
  }

  /** The second step: A pays B its last 10, and the walk stops. */
  lemma {:induction false} ExampleTail(D: seq<Entry>, C: seq<Entry>, bs1: seq<real>)
    requires D == [Entry(0, -30.0)] && C == [Entry(2, 20.0), Entry(1, 10.0)]
    requires bs1 == [-10.0, 10.0, 20.0]
    ensures Ready(bs1, D, C, 0, 1)
    ensures Walk(bs1, D, C, 0, 1) == Run([Step(0, 1, 10.0)], bs1)
  {
    assert Ready(bs1, D, C, 1, 2);
    assert Walk(bs1, D, C, 1, 2) == Run([], bs1);
  }

  lemma {:induction false} ExampleTransfers(D: seq<Entry>, C: seq<Entry>, steps: seq<Step>)
    requires D == [Entry(0, -30.0)] && C == [Entry(2, 20.0), Entry(1, 10.0)]
    requires steps == [Step(0, 0, 20.0), Step(0, 1, 10.0)]
    ensures ToTransfers(steps, D, C) == [Transfer(0, 2, 20.0), Transfer(0, 1, 10.0)]
  {
    var r := ToTransfers(steps, D, C);
    assert r[0] == Transfer(0, 2, 20.0) && r[1] == Transfer(0, 1, 10.0);
  }

  lemma {:induction false} ExampleBalances()
    ensures Balances(Example()) == [-30.0, 10.0, 20.0]
  {
  }

  lemma {:induction false} ExampleEmitted()
    ensures Emitted(Example()) == [Transfer(0, 2, 20.0), Transfer(0, 1, 10.0)]
  {
    ExampleSorted();
    ExampleBalances();
    var D, C := Debtors(Example()), Creditors(Example());
    ExampleWalk(D, C);
    ExampleTransfers(D, C, Walk(Balances(Example()), D, C, 0, 0).steps);
  }

  lemma {:induction false} ExampleResiduals()
    ensures Residuals(Example()) == [-10.0, 10.0, 20.0]
  {
    ExampleSorted();
    ExampleBalances();
    ExampleWalk(Debtors(Example()), Creditors(Example()));
  }

  lemma {:induction false} SettlementsNamed(s: seq<MemberBalance>, r: seq<Transfer>)
    requires r == Emitted(s)
    ensures forall k :: 0 <= k < |r| ==> r[k].payer < |s| && r[k].payee < |s|
    ensures GenerateSettlements(s).settlements == Named(s, r)
  {
    TransferFacts(s, r);
  }

  lemma {:induction false} ExampleNamed(s: seq<MemberBalance>, r: seq<Transfer>)
    requires s == Example() && r == [Transfer(0, 2, 20.0), Transfer(0, 1, 10.0)]
    ensures Named(s, r) == [Settlement("A", "C", 20.0), Settlement("A", "B", 10.0)]
  {
    var out := Named(s, r);
    assert out[0] == Settlement("A", "C", 20.0) && out[1] == Settlement("A", "B", 10.0);
  }

  lemma {:induction false} ExampleSettlements()
    ensures GenerateSettlements(Example()).settlements == [Settlement("A", "C", 20.0), Settlement("A", "B", 10.0)]
  {
    ExampleEmitted();
    SettlementsNamed(Example(), Emitted(Example()));
    ExampleNamed(Example(), Emitted(Example()));
  }

  lemma {:induction false} ExampleAfter()
    ensures GenerateSettlements(Example()).after[0] == MemberBalance(Person("A"), -10.0)
  {
    ExampleResiduals();
    var s := Example();
    assert GenerateSettlements(s).after == WriteBack(s, [-10.0, 10.0, 20.0]);
  }

  /**
   * The write-back is visible: A owes 30, B is owed 10 and C 20. A pays C
   * 20 and then B 10, and A's entry is left showing a debt of 10.
   */
  lemma {:induction false} SettlingRewritesArgument()
    ensures var o := GenerateSettlements(Example());
            && o.settlements == [Settlement("A", "C", 20.0), Settlement("A", "B", 10.0)]
            && o.after[0].balance == -10.0 && o.after[0] != Example()[0]
  {
    ExampleSettlements();
    ExampleAfter();
  }
}
