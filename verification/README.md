# Group ledger and debt settlement, modelled in Dafny

This project models the core of a group expense tracker. The tracker keeps
groups of members, each member with a budget, and a list of expenses per
group. Each expense records who paid, by member name, and the participant
entries that say how much each member is charged, by member id. On top of
that ledger the application shows:

- a per-member view of spent, paid and balance;
- a budget card per member;
- an end-of-night summary with suggested settlements;
- a dashboard listing all expenses;
- a searchable, sortable expenses table.

The settlement suggestions come from a greedy two-cursor solver over the
members' balances.

The model is written in a functional style. Collections are sequences.
Money is an exact `real`. Timestamps are `int`s. Every fresh id and every
"now" is a parameter. Each module follows one source file:

| module | file | what it holds |
|---|---|---|
| `Wrappers` | — | `Option` and `Result` |
| `Model` | `lib/storage.ts` (types) | users, participants, expenses, groups; first-match share lookup; sums |
| `Lists` | — | filter, a stable descending insertion sort, sums over sequences |
| `Storage` | `lib/storage.ts` | `getGroup`, `addExpense`, `deleteExpense`, `createGroup`, `createUser`; the budget invariant |
| `ExpenseForm` | `components/expenses/expense-dialog.tsx` | form validation, the budget guard, participant entries, the submit handler |
| `Settlements` | `lib/utils/settlements.ts` | `generateSettlements`: the sorted debtor and creditor lists, the walk, its write-backs |
| `Balances` | `components/expenses/member-expenses.tsx`, `components/expenses/expense-list.tsx` | member rows, the balance label, the budget card, the per-person figure |
| `Summary` | `components/expenses/expense-summary-dialog.tsx` | member summaries, shared expenses, settlements of the summary dialog |
| `Dashboard` | `components/expenses/expenses-dashboard.tsx` | all expenses tagged with their group, newest first; the totals |
| `ExpensesTable` | `components/expenses/expenses-table.tsx` | the case-insensitive search and the sort by date or amount |

The solver is modelled as follows:

- `Walk` is the `while` loop. It recurses on the two cursors and carries the balance array, so the loop's writes into `creditors[j].balance` and `debtors[i].balance` are explicit.
- `GenerateSettlements` returns both the settlements and the argument as those writes leave it.
- Sorting uses the ES2019 stable sort. The model proves the order it gives: descending by key, ties in argument order.

Where the documented behaviour and the code differ, the model follows the code:

- `createGroup` in storage does not check the group name. The three-character minimum is enforced only by the group dialog.
- The payer of an expense is matched by member name (`paidBy === member.name`), not by id.

## Model

| member | source | states |
|---|---|---|
| Model.FindParticipant | lib/storage.ts:118 | `find` on participant entries: none exactly when no entry has the id, otherwise the first entry with it |
| Model.ShareIn | components/expenses/member-expenses.tsx:34-35 | the `participation?.amount \|\| 0` figure: 0 when no entry has the id, otherwise the amount of the first entry that has it |
| Storage.GetGroup | lib/storage.ts:97-100 | none exactly when no group has the id, otherwise the first group with that id |
| Storage.AddExpense | lib/storage.ts:102-132 | unknown group: `false` and nothing changes; otherwise `true`. Only the target group changes: it gets the new expense appended with the fresh id and a new `updatedAt`, and each member's budget is reduced by that member's first-matching share |
| Storage.FindExpense | lib/storage.ts:140 | none exactly when no expense has the id, otherwise the first expense with it |
| Storage.WithoutExpense | lib/storage.ts:156 | the expenses whose id differs, each as often as in the list and in its order; nothing with the id survives, and a list without the id is returned unchanged |
| Storage.DeleteExpense | lib/storage.ts:134-161 | unknown group or expense: `false` and nothing changes; otherwise only the target group changes: every expense with that id is removed and the others are kept in order, `updatedAt` is stamped, and each member is refunded its share of the first expense with that id |
| Storage.AddThenDeleteRestores | lib/storage.ts:102-161 | adding an expense under a fresh id and then deleting that id gives back the original groups, except for the group's `updatedAt` |
| Storage.CreditUndoesDebit | lib/storage.ts:144-153 | the refund on delete exactly undoes the charge on add, member by member |
| Storage.AddKeepsBudgetsConsistent | lib/storage.ts:116-128 | if every member's budget is its starting budget minus its shares of the group's expenses, that still holds after `addExpense` |
| Storage.DeleteKeepsBudgetsConsistent | lib/storage.ts:143-156 | the same invariant survives `deleteExpense`, given distinct expense ids |
| Storage.CreateGroup | lib/storage.ts:163-176 | appends one group with the fresh id, the draft's name, description and members, no expenses and the two clock readings; the existing groups are kept unchanged in front |
| Storage.CreatedGroupConsistent | lib/storage.ts:163-176 | a new group, which has no expenses, satisfies the invariant for its members' budgets |
| Storage.CreateGroupThenGet | lib/storage.ts:163-176 | after `createGroup` with a fresh id, `getGroup` finds the new group by that id and every other id as before |
| Storage.LocalPart | lib/storage.ts:190 | `email.split("@")[0]`: a prefix of the email with no `@`, cut exactly at the first `@` |
| Storage.CreateUser | lib/storage.ts:178-198 | fails exactly when some user has the email. Otherwise appends a user with the fresh id, the email, the hash, a budget of 800, and the given name, or the email's local part when the name is missing or empty |
| Storage.CreateUserTwiceFails | lib/storage.ts:180-184 | registering the same email twice fails the second time |
| ExpenseForm.ParseSplitType | components/expenses/expense-dialog.tsx:36 | the enum accepts exactly `EQUAL`, `PERCENTAGE` and `EXACT` |
| ExpenseForm.Failing | components/expenses/expense-dialog.tsx:29-38 | each field is reported exactly when its rule fails: empty title, amount not a positive number, empty payer, unknown split type |
| ExpenseForm.Validate | components/expenses/expense-dialog.tsx:29-38 | the form passes exactly when every rule holds. It then carries the parsed positive amount and the other fields unchanged; otherwise it names at least one failing field |
| ExpenseForm.FindByName | components/expenses/expense-dialog.tsx:82 | none exactly when no member has the name, otherwise the first member with it |
| ExpenseForm.OverBudget | components/expenses/expense-dialog.tsx:80-104 | individual expense: refused exactly when the payer is found and its budget is below the amount. Split expense: refused exactly when some member's budget is below the equal share. No members: never refused |
| ExpenseForm.Participants | components/expenses/expense-dialog.tsx:113-123 | individual: a single paid entry for the payer at the full amount, or no entries when the payer is not a member (the source's `!` throws). Split: one entry per member at amount / members, marked paid exactly for the payer |
| ExpenseForm.SplitSharesSumToAmount | components/expenses/expense-dialog.tsx:119-123 | the split entries add up to the amount, and the split type does not change them |
| ExpenseForm.SubmittedCardLine | components/expenses/expense-list.tsx:197-262 | a submitted expense is shown as individual exactly when it was entered as individual or the group has one member; a split over any other number of members shows each member's share, or no figure without members |
| ExpenseForm.Submit | components/expenses/expense-dialog.tsx:76-128 | refused exactly when the guard finds a member, and then nothing is stored. Failed exactly when the payer lookup or the store fails. Otherwise the groups are those `addExpense` returns for the draft dated by the handler's clock reading, with the ledger's own reading as update time |
| ExpenseForm.GuardKeepsChargedBudgetsNonNegative | components/expenses/expense-dialog.tsx:80-104 | after a stored submission, with distinct member ids, every member whose budget was charged still has a budget of at least zero |
| Lists.SortBy | components/expenses/expenses-table.tsx:48-53 | the sort returns a permutation of its input with keys non-increasing |
| Lists.SortStable | lib/utils/settlements.ts:16-19 | the sort is stable: among equal keys the input order is kept |
| Lists.SortKeepsTies | components/expenses/expenses-table.tsx:48-53 | the sort is stable, stated without ranks: for every key value, the elements with that key appear in the result in the same order and number as in the input |
| Lists.FilterExact | components/expenses/member-expenses.tsx:29-31 | `filter` returns a subsequence of its input holding each element that passes as often as the input does, and nothing else |
| Lists.FilterUnique | components/expenses/member-expenses.tsx:29-31 | that description is complete: any subsequence with exactly those counts is the filter's result |
| Settlements.PlanSorted | lib/utils/settlements.ts:16-19 | debtors come most negative first and creditors largest first, ties in argument order |
| Settlements.Walk | lib/utils/settlements.ts:21-45 | the loop ends. Cursors never move back, every pass moves at least one of them and pays a positive amount, and there are at most (debtors + creditors − 1) passes |
| Settlements.WalkConserves | lib/utils/settlements.ts:22-45 | when the open debts equal the open credits, each debtor's payments add up to its debt and each creditor's receipts to its credit |
| Settlements.Transfers | lib/utils/settlements.ts:14-48 | every payment goes from a member who owes to a member who is owed, and is positive and at most either balance. Each pays the smaller of what its payer still owes and what its payee is still owed once the earlier payments are taken off. There are none when nobody owes or nobody is owed, otherwise fewer than the members with a non-zero balance |
| Settlements.TransfersOrdered | lib/utils/settlements.ts:16-45 | payers appear most negative first and payees largest first, ties in argument order, and no pair of members settles twice |
| Settlements.SettlementsConserve | lib/utils/settlements.ts:14-48 | with balances that sum to zero, every debtor pays exactly its debt and every creditor receives exactly its credit; each member's receipts minus payments equal its balance |
| Settlements.GenerateSettlements | lib/utils/settlements.ts:14-48 | one named settlement per payment, payer to payee with its amount. The argument keeps its members; a zero balance is untouched; every other balance moves toward zero without crossing it. A debtor whose payments cover its debt is left at minus its last payment, one they fall short for at its balance plus its payments; a creditor paid in full is left at its last receipt, one not paid in full at its balance less its receipts |
| Settlements.ResidualFacts | lib/utils/settlements.ts:35-44 | the write-backs: zero balances are kept, a debt only shrinks and stays a debt, a credit only shrinks and stays a credit; each member is left where its payments put it: minus the last payment or last receipt of a member settled in full, otherwise its balance net of what it paid or received |
| Settlements.WalkDebtorLeft | lib/utils/settlements.ts:35-44 | over the loop from any cursors, a debtor still ahead is left at minus its last pass when its passes pay its whole debt, and otherwise at its balance plus what it paid |
| Settlements.WalkCreditorLeft | lib/utils/settlements.ts:35-44 | over the loop from any cursors, a creditor still ahead is left at its last pass when its passes pay its whole credit, and otherwise at its balance less what it received |
| Settlements.WalkStepAmounts | lib/utils/settlements.ts:22-25 | each pass pays the smaller of its debtor's balance and its creditor's balance as the earlier passes left them |
| Settlements.SettledAtLastPayments | lib/utils/settlements.ts:35-44 | with balances that sum to zero, every debtor is left at minus its last payment and every creditor at its last receipt |
| Settlements.SettlingRewritesArgument | lib/utils/settlements.ts:39-42 | for A −30, B 10, C 20 the settlements are A pays C 20, then A pays B 10, and A's balance in the argument is left at −10 |
| Balances.Involving | components/expenses/member-expenses.tsx:29-31 | the member's list is a subsequence of the expenses (their original order) holding every expense with an entry of the member's id, as often as in the list, and nothing else |
| Balances.PaidBy | components/expenses/member-expenses.tsx:38 | the expenses whose payer is the member's name, each as often as in the list, in its order, and nothing else |
| Balances.TotalPaid | components/expenses/member-expenses.tsx:38-39 | the paid figure equals summing, over all expenses, the amount of those paid under the name and zero for the rest |
| Balances.SpentOverInvolving | components/expenses/member-expenses.tsx:29-36 | summing first-matching shares over the member's expenses equals summing them over all expenses |
| Balances.Row | components/expenses/member-expenses.tsx:28-48 | a member's row: its expenses (exactly those with its entry, in order, with their multiplicity), its spent figure (the shares the ledger charged it), the sum of the amounts of the expenses paid under its name, and balance = paid − spent |
| Balances.Rows | components/expenses/member-expenses.tsx:28 | exactly one row per member, in member order, each the member's row |
| Balances.ShowBalance | components/expenses/member-expenses.tsx:71-72 | the label reads "to receive" exactly when the balance is at least zero; the amount shown is never negative, and label plus amount give back the balance |
| Balances.BalancesSumToZero | components/expenses/member-expenses.tsx:28-48 | if member ids and names are distinct and every expense is paid by a member and shared once each among members with shares adding up to its amount, the balances sum to zero |
| Balances.SpentAllIsFirstMatch | components/expenses/expense-list.tsx:117-122 | when no expense lists a member twice, the budget card's spent figure (all matching entries) equals the first-match spent figure |
| Balances.PerPerson | components/expenses/expense-list.tsx:262 | the per-person figure exists exactly when the group has members, and times the number of members it gives the amount back |
| Balances.CardLine | components/expenses/expense-list.tsx:197-262 | the card is badged "Individual" and says "Individual expense" exactly when the expense has one participant entry; otherwise it shows the per-person figure, which exists exactly when the group has members and times their number gives the amount |
| Balances.RemainingCountsTwice | components/expenses/expense-list.tsx:141-146 | with budgets that satisfy the ledger invariant, the card shows starting budget − 2 × spent, and highlights once spending passes half the starting budget |
| Balances.RemainingShownTooLow | components/expenses/expense-list.tsx:143-144 | a member starting at 800 who shares a 100 expense with one other member is shown 700 remaining, not 750 |
| Balances.RemainingIsBudgetLeft | components/expenses/expense-list.tsx:141-146 | the corrected card shows starting budget − spent, and highlights exactly when spending exceeds the starting budget |
| Summary.Summaries | components/expenses/expense-summary-dialog.tsx:32-51 | one summary per member, in member order: shares charged, amount paid by name, and balance = paid − spent |
| Summary.Shared | components/expenses/expense-summary-dialog.tsx:54 | the shared list is a subsequence of the expenses holding every expense with more than one participant entry, as often as in the list, and nothing else |
| Summary.AsWritten | components/expenses/expense-summary-dialog.tsx:54-61 | the dialog as built: the shared expenses are listed, the settlements are computed from the summaries, and each summary's balance is then exactly the balance `generateSettlements` leaves in that member's entry. A zero balance is kept and any other balance only moves toward zero |
| Summary.ShownBalancesAreLastPayments | components/expenses/expense-summary-dialog.tsx:54-61 | for a well-formed ledger, the dialog as built shows a member who owes money minus its last suggested payment, and a member owed money its last suggested receipt |
| Summary.Intended | components/expenses/expense-summary-dialog.tsx:32-61 | the corrected dialog: same shared list and settlements, and each summary keeps balance = paid − spent |
| Summary.SettlementsSettleShownBalances | components/expenses/expense-summary-dialog.tsx:32-55 | for a well-formed ledger, following the suggested settlements makes each member's receipts minus payments equal its shown balance |
| Summary.ShownBalanceIsResidual | components/expenses/expense-summary-dialog.tsx:55-61 | when B and C pay 10 and 20 for A, the dialog as built shows A's balance as −10; the intended balance is −30 |
| Dashboard.Flatten | components/expenses/expenses-dashboard.tsx:20-25 | one entry per expense; an entry is present exactly when it is an expense of some group tagged with that group's name and id |
| Dashboard.AllExpenses | components/expenses/expenses-dashboard.tsx:20-26 | a permutation of the flattened list with timestamps non-increasing (newest first); expenses with equal timestamps keep their flattened order |
| Dashboard.Summarize | components/expenses/expenses-dashboard.tsx:28-45 | total spent is the sum of all groups' expense amounts, total budget the sum of all members' budgets over groups, plus the expense and group counts |
| Dashboard.CreateGroupTotals | components/expenses/expenses-dashboard.tsx:28-32 | creating a group adds one group and its members' budgets to the totals, and leaves total spent and the expense count unchanged |
| ExpensesTable.IncludesAt | components/expenses/expenses-table.tsx:44-46 | `includes` holds exactly when the query occurs at some position of the text |
| ExpensesTable.Search | components/expenses/expenses-table.tsx:42-47 | the kept rows are a subsequence of the input holding every row whose lower-cased title, group name or payer contains the lower-cased query, as often as in the input, and nothing else |
| ExpensesTable.MatchesAt | components/expenses/expenses-table.tsx:43-47 | a row matches exactly when the lower-cased query occurs at some position of one of the three lower-cased fields |
| ExpensesTable.Table | components/expenses/expenses-table.tsx:42-53 | the table is a permutation of the search's rows, ordered by date or by amount, non-increasing, and rows with equal keys keep the search's order |
| ExpensesTable.EmptySearchKeepsAll | components/expenses/expenses-table.tsx:42-47 | an empty query keeps every row, in order |
| ExpensesTable.EmptySearchTable | components/expenses/expenses-table.tsx:42-53 | with an empty query the table is a permutation of all rows |
| ExpensesTable.SearchIgnoresQueryCase | components/expenses/expenses-table.tsx:44-46 | lower-casing the query first does not change which rows match |

## Left out

- Persistence (`localStorage`, JSON, the server fallbacks of `getGroups`/`getUsers`): the model works on the list of groups or users passed in.
- Random ids and `new Date()`: the model takes a fresh id and timestamps as parameters. Each reading of the clock is its own parameter: the dialog's and the ledger's readings are separate, and so are the two readings `createGroup` takes for `createdAt` and `updatedAt`. Timestamps are integers, not ISO strings.
- Password hashing: `createUser` takes the hash as a parameter, because `bcrypt` is a foreign call.
- React state, toasts, dialogs, the share and clipboard handlers and all markup: these are presentation only.
- `generateSummaryText` and `toFixed(2)` formatting: this is text layout only. The balance label it repeats is modelled by `Balances.ShowBalance`.
- Charts and the percentage figures of the expenses summary card: these are presentation only, outside the ledger.
- IEEE floating point: amounts are exact reals, so rounding, `NaN` and `Infinity` are not modelled.
- `Number(amount)`: the form validation takes string-to-number parsing as a parameter that returns nothing for `NaN`.
- ExpensesTable.Search: `toLowerCase` is modelled for ASCII letters only; Unicode case mapping is not modelled.
- Settlements.SettlementsConserve: holds only when the balances sum to zero. `Balances.BalancesSumToZero` gives that for well-formed ledgers. For other inputs the bounds and amount of each payment (`Settlements.Transfers`) and where the write-backs leave each member (`Settlements.GenerateSettlements`) are proved, but no total per member.

## Findings

| source | as written | input that shows it | evidently intended | confidence | as-written member | corrected member |
|---|---|---|---|---|---|---|
| components/expenses/expense-list.tsx:143-144 | "Remaining" is `member.budget - totalSpent` and the highlight tests `totalSpent > member.budget`, but `addExpense` has already taken every share off `member.budget` | a member starting at 800 shares a 100 expense 50/50: stored budget 750, spent 50, shown remaining 700 | remaining = starting budget − spent = the stored budget (750); highlight when the stored budget is below zero | not executed | Balances.RemainingCountsTwice | Balances.RemainingIsBudgetLeft |
| lib/utils/settlements.ts:39-42 | `generateSettlements` writes residual balances into the objects it is given, and the summary dialog passes its `memberSummaries`, then renders them and puts them in the summary text | B pays 10 and C pays 20, both for A: A's summary shows a balance of −10 instead of −30 | the summaries keep balance = paid − spent; the solver works on copies | not executed | Summary.ShownBalanceIsResidual | Summary.Intended |
