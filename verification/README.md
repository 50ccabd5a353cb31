# SplitSavvy debt engine in Dafny

A Dafny model of the money logic of the SplitSavvy expense-splitting app.
The app has two generations of the debt calculator, and the model covers both:

- **V1** (`src/utils/debtCalculator.ts`, group data model of `src/types/index.ts`)
  - computes a balance per member from expenses with paid/unpaid splits and from confirmed settlements;
  - proposes transfers by matching the most-indebted debtor against the largest creditor.
- **V2** (`utils/debtCalculator.ts`, flat data model of `types/index.ts`)
  - debits every split unconditionally;
  - matches debtors and creditors in input order.

It also covers the parts of the screens and the shared context that produce the calculators' inputs:

- the add-expense form (`screens/AddExpenseScreen.tsx`): member selection, validation, and the even split with its rounding correction;
- the settlements screen (`screens/SettlementsScreen.tsx`): the `from-to` key of the selected suggestion, payment confirmation, and the list of pending suggestions;
- the list updates of `context/AppContext.tsx`.

Modules:

| module | file | contents |
|---|---|---|
| `Ledger` | `ledger.dfy` | `Maybe` (a missing or unparsable value) and `Outcome` (an accepted or rejected form); the running-total map (`Book`), posting, tallies, and the generic `SumOf` with its concatenation and permutation lemmas |
| `Matching` | `matching.dfy` | the greedy two-index matching as a pure reference (`Steps`, `Emitted`) shared by both optimizers, with its lemmas |
| `TypesV1`, `DebtV1` | `types_v1.dfy`, `debt_v1.dfy` | V1 records, `calculateBalances`, the sorts and `optimizeTransactions` |
| `TypesV2`, `DebtV2` | `types_v2.dfy`, `debt_v2.dfy` | V2 records, `calculateBalances`, `calculateOptimalSettlements` |
| `AddExpense` | `add_expense.dfy` | `toggleUser`, `handleSubmit` |
| `SettlementsScreen` | `settlements_screen.dfy` | `handleSettle`, `confirmPayment`, `pendingSettlements` |
| `AppContext` | `app_context.dfy` | `USERS`, the initial state, `addExpense`, `deleteExpense`, `addSettlement`, `confirmSettlement` |

All amounts are integers in cents:

- `> 0.01` is `OverCent` (more than one cent);
- a remainder `< 0.01` is `Settled` (below one cent);
- `toFixed(2)` and `Math.round(x * 100) / 100` are the identity on cents.

Both optimizers are written as `while` loops, like the source. Each loop invariant ties the loop to `Matching.Steps`, so every property proved about the pure reference holds for the loop's output.

Behaviour of the code worth knowing:

- V1 filters balances with `> 0` and `< 0`, not with a one-cent tolerance. Only V2 uses `±0.01` (`DebtV1.FilterMembers`, `DebtV2.FilterMembers`).
- V1 adjusts the caller's own `Balance` records in place, and V2 does the same to its creditor records. The model uses working copies, so the transfers it returns are the same. A caller that reads its balance list again after asking V2 for a plan sees every creditor at its remainder rather than at its balance; the home screen, which does this, is not part of this model.
- V2 does not sort its debtor and creditor lists (`DebtV2.DebtorsKeepOrder`).

## Model

| member | source | states |
|---|---|---|
| Ledger.Open | src/utils/debtCalculator.ts:16-18 | every listed member, and no one else, starts with a zero running total |
| Ledger.Post | src/utils/debtCalculator.ts:21-25 | posting changes only the named member's total, by exactly the posted amount; the set of members is unchanged |
| Ledger.PostTally | src/utils/debtCalculator.ts:20-35 | posting to a listed member moves the group's sum by the posted amount; posting to an unlisted id does not move it |
| Ledger.OpenTally | src/utils/debtCalculator.ts:16-18 | the group's sum starts at zero |
| DebtV1.CalculateBalances | src/utils/debtCalculator.ts:9-42 | one balance per member, in member order, with the member's id and name; the amount is what the member paid, less its unpaid shares, plus what it repaid in confirmed settlements, less what it was repaid |
| DebtV1.Totals | src/utils/debtCalculator.ts:14-35 | the running totals are keyed by exactly the member ids, and each holds that member's net position |
| DebtV1.PostSplitsValue | src/utils/debtCalculator.ts:23-27 | posting an expense's splits lowers each member by its unpaid shares only; shares marked paid have no effect |
| DebtV1.PostExpensesValue | src/utils/debtCalculator.ts:20-28 | posting the expenses moves each member by what it paid less its unpaid shares, summed over all expenses |
| DebtV1.ConfirmedOnly | src/utils/debtCalculator.ts:30-31 | a settlement is kept exactly when it is in the list and its status is confirmed |
| DebtV1.ConfirmedRepaid | src/utils/debtCalculator.ts:30-35 | the repayments over the confirmed settlements equal the repayments over all settlements with pending ones counted as zero |
| DebtV1.PostSettlementsValue | src/utils/debtCalculator.ts:32-35 | each settlement raises its payer and lowers its receiver by its amount |
| DebtV1.BalancesTotal | src/utils/debtCalculator.ts:20-41 | when all ids are members, the balances sum to the total of each expense's amount less its unpaid shares; settlements cancel out |
| DebtV1.BalancesSumToZero | src/utils/debtCalculator.ts:20-41 | when each expense's unpaid shares add up to its amount, the balances sum to zero |
| DebtV1.OrderIrrelevant | src/utils/debtCalculator.ts:16-41 | reordering the expenses or the settlements leaves every balance unchanged |
| DebtV1.IgnoredNet | src/utils/debtCalculator.ts:20-35 | expenses that name no member, and settlements that are pending or name no member, do not change a member's net position |
| DebtV1.IgnoredEntries | src/utils/debtCalculator.ts:16-41 | appending such expenses and settlements leaves the balance list unchanged |
| DebtV1.InsertPermutes | src/utils/debtCalculator.ts:47-53 | inserting adds exactly the new element and keeps every other |
| DebtV1.InsertSorted | src/utils/debtCalculator.ts:47-53 | inserting into a sorted list keeps it sorted |
| DebtV1.SortPermutes | src/utils/debtCalculator.ts:47-53 | the sort returns a permutation of its input |
| DebtV1.SortSorted | src/utils/debtCalculator.ts:47-53 | the sort returns a list sorted in the requested direction |
| DebtV1.FilterMembers | src/utils/debtCalculator.ts:47-52 | a balance is a negative one exactly when it is listed and below zero, and a positive one exactly when it is listed and above zero |
| DebtV1.DebtorsOrdered | src/utils/debtCalculator.ts:51-53 | the debtors are a permutation of the negative balances (each kept as often as it occurs), most negative first |
| DebtV1.CreditorsOrdered | src/utils/debtCalculator.ts:47-49 | the creditors are a permutation of the positive balances (each kept as often as it occurs), largest first |
| DebtV1.DebtorsListed | src/utils/debtCalculator.ts:51-53 | every debtor is a listed balance below zero |
| DebtV1.CreditorsListed | src/utils/debtCalculator.ts:47-49 | every creditor is a listed balance above zero |
| DebtV1.ZeroFiltersEmpty | src/utils/debtCalculator.ts:47-53 | when every balance is zero, there are no debtors and no creditors |
| DebtV1.RoundOnBalances | src/utils/debtCalculator.ts:58-75 | one round on the signed working amounts is one step of the reference matching on magnitudes; unvisited debtors stay negative and unvisited creditors stay positive |
| DebtV1.MatchRound | src/utils/debtCalculator.ts:58-75 | one pass of the loop body advances at least one index, and what it pushes followed by the plan for the remaining entries is the plan it started from |
| DebtV1.MatchSorted | src/utils/debtCalculator.ts:55-78 | the two-index loop returns exactly the transfers of the reference matching |
| DebtV1.PlanFacts | src/utils/debtCalculator.ts:57-76 | every planned transfer is above one cent and no larger than the debt of a debtor with that id and the credit of a creditor with that id; there are at most debtors + creditors − 1 transfers; all-zero balances give no transfer |
| DebtV1.OptimizeTransactions | src/utils/debtCalculator.ts:44-79 | sorting the filters and running the loop yields exactly the greedy reference plan over the sorted debtors and creditors, whose guarantees `DebtV1.PlanFacts` states |
| DebtV1.FilterCount | src/utils/debtCalculator.ts:47-53 | every non-zero balance is kept by exactly one of the two filters, so together they hold as many balances as are non-zero |
| DebtV1.PlanSize | src/utils/debtCalculator.ts:44-79 | n non-zero balances give at most n − 1 transfers, and none when every balance is zero |
| DebtV1.MagnitudesOwed | src/utils/debtCalculator.ts:61 | what a member's debtor parties owe is the magnitude of its listed balances |
| DebtV1.MagnitudesTotal | src/utils/debtCalculator.ts:61 | the debtor parties together owe the magnitude of all listed balances |
| DebtV1.AmountsOwed | src/utils/debtCalculator.ts:61 | what a member's creditor parties are owed is the sum of its listed balances |
| DebtV1.AmountsTotal | src/utils/debtCalculator.ts:61 | the creditor parties together are owed the sum of all listed balances |
| DebtV1.NegativesDebt | src/utils/debtCalculator.ts:51-52 | the negative balances of a member add up to its debt |
| DebtV1.PositivesCredit | src/utils/debtCalculator.ts:47-48 | the positive balances of a member add up to its credit |
| DebtV1.FilterTotals | src/utils/debtCalculator.ts:47-52 | total credit minus total debt over the filters is the sum of all balances |
| DebtV1.PartiesTotals | src/utils/debtCalculator.ts:47-53 | sorting keeps the totals: credit parties minus debt parties is the sum of all balances |
| DebtV1.PartiesOwed | src/utils/debtCalculator.ts:47-53 | sorting keeps each member's debt and credit |
| DebtV1.SettlementsCloseTheLoop | src/utils/debtCalculator.ts:44-79 | when the balances sum to zero, each member pays out exactly its debt and receives exactly its credit over the loop's rounds |
| DebtV2.CalculateBalances | utils/debtCalculator.ts:3-21 | one balance per user, in user order, whose amount is what the user paid less all of its shares |
| DebtV2.Totals | utils/debtCalculator.ts:4-15 | the running totals are keyed by exactly the user ids, and each holds that user's net position |
| DebtV2.PostSplitsValue | utils/debtCalculator.ts:12-14 | every split is debited unconditionally |
| DebtV2.PostExpensesValue | utils/debtCalculator.ts:10-15 | posting the expenses moves each user by what it paid less its shares, summed over all expenses |
| DebtV2.BalancesTotal | utils/debtCalculator.ts:10-20 | when all ids are users, the balances sum to the total of each expense's amount less its split total |
| DebtV2.BalancesSumToZero | utils/debtCalculator.ts:6-20 | when every expense's splits add up to its amount, the balances sum to zero |
| DebtV2.ExpenseOrderIrrelevant | utils/debtCalculator.ts:10-20 | reordering the expenses leaves every balance unchanged |
| DebtV2.Debtors | utils/debtCalculator.ts:24 | every debtor's outstanding magnitude is positive |
| DebtV2.Creditors | utils/debtCalculator.ts:25 | every creditor's outstanding amount is positive |
| DebtV2.FilterMembers | utils/debtCalculator.ts:24-25 | a debtor is exactly a balance below −0.01 taken as a magnitude; a creditor is exactly a balance above 0.01 |
| DebtV2.DebtorsKeepOrder | utils/debtCalculator.ts:24 | the debtor filter distributes over concatenation, so it keeps input order |
| DebtV2.CreditorsKeepOrder | utils/debtCalculator.ts:25 | the creditor filter distributes over concatenation, so it keeps input order |
| DebtV2.BandedFiltersEmpty | utils/debtCalculator.ts:24-29 | when every balance is within one cent of zero, there are no debtors and no creditors |
| DebtV2.PlanFacts | utils/debtCalculator.ts:31-50 | every transfer is above one cent and no larger than the debt and the credit of its two ends; the count bound holds; balances within one cent give no transfer |
| DebtV2.PartyCount | utils/debtCalculator.ts:24-25 | every balance outside the one-cent band becomes exactly one debtor or creditor |
| DebtV2.PlanSize | utils/debtCalculator.ts:23-53 | n balances outside the one-cent band give at most n − 1 transfers, and none when n is zero |
| DebtV2.SettleRound | utils/debtCalculator.ts:32-49 | one pass of the loop body advances at least one index, and what it pushes followed by the plan for the remaining entries is the plan it started from |
| DebtV2.CalculateOptimalSettlements | utils/debtCalculator.ts:23-53 | the loop returns the reference matching of the two filtered lists, with the transfer, bound and banded-input guarantees |
| DebtV2.DebtorsOwed | utils/debtCalculator.ts:24 | the debtor list holds, for each user, exactly that user's debt beyond one cent |
| DebtV2.CreditorsOwed | utils/debtCalculator.ts:25 | the creditor list holds, for each user, exactly that user's credit beyond one cent |
| DebtV2.FilterTotals | utils/debtCalculator.ts:24-25 | total credit less total debt over the filters equals the sum of the balances outside the one-cent band |
| DebtV2.SettlementsCloseTheLoop | utils/debtCalculator.ts:31-50 | when the balances outside the band sum to zero, each user pays out exactly its debt and receives exactly its credit over the matching's rounds |
| Matching.Min | utils/debtCalculator.ts:35 | the transfer is the smaller of the two outstanding amounts |
| Matching.EmittedMembers | utils/debtCalculator.ts:37-43 | a transfer is recorded exactly when the round produced it and it is above one cent |
| Matching.EmittedRound | utils/debtCalculator.ts:31-50 | the plan for non-empty lists is the first round's transfer, if above one cent, followed by the plan after both heads are advanced |
| Matching.AdvanceOnCopy | utils/debtCalculator.ts:45-49 | lowering the current entry of a working copy and moving the index once it is settled is the reference's advance step |
| Matching.RoundOnCopies | utils/debtCalculator.ts:35-49 | one loop round on working copies is one step of the reference matching |
| Matching.StepsCount | utils/debtCalculator.ts:31-50 | no transfer when either list is empty; otherwise at most debtors + creditors − 1 rounds |
| Matching.AdvanceTotal | utils/debtCalculator.ts:45-46 | a round lowers the outstanding total, and the outstanding amount of the head's id, by the transferred amount |
| Matching.StepsEnds | utils/debtCalculator.ts:35-43 | every round moves a positive amount that neither its debtor nor its creditor started below |
| Matching.StepsMoved | utils/debtCalculator.ts:31-50 | the rounds together move the smaller of the total debt and the total credit |
| Matching.StepsSettle | utils/debtCalculator.ts:31-50 | when debt and credit balance, each party pays out, or is paid, exactly what it started with |
| Matching.EmittedDust | utils/debtCalculator.ts:37-43 | dropping sub-cent transfers loses at most one cent per dropped round |
| AddExpense.Without | screens/AddExpenseScreen.tsx:22 | an id is kept exactly when it was selected and is not the removed one |
| AddExpense.WithoutConcat | screens/AddExpenseScreen.tsx:22 | the filter distributes over concatenation, so it keeps order |
| AddExpense.ToggleUser | screens/AddExpenseScreen.tsx:19-27 | an unselected member is appended at the end; a selected one is removed unless it is the only one; a duplicate-free non-empty selection never becomes empty |
| AddExpense.ToggleKeepsDistinct | screens/AddExpenseScreen.tsx:19-26 | toggling never adds a duplicate |
| AddExpense.ToggleKeepsOthersInOrder | screens/AddExpenseScreen.tsx:19-26 | the members other than the toggled one stay exactly as they were, in order |
| AddExpense.ToggleTwice | screens/AddExpenseScreen.tsx:20-25 | tapping an unselected member twice restores the selection |
| AddExpense.RoundedShare | screens/AddExpenseScreen.tsx:43-46 | the share is within half a cent of total / n, in cents times n |
| AddExpense.RoundedShareUnique | screens/AddExpenseScreen.tsx:43-46 | the share is the only value within that bound, with halves rounded up |
| AddExpense.EvenSplit | screens/AddExpenseScreen.tsx:43-52 | one split per selected member, in selection order; every member but the first gets the rounded share; the splits add up to the total exactly |
| AddExpense.FirstShareBound | screens/AddExpenseScreen.tsx:49-52 | the first share is the total less the others' shares, and lies within half the member count of the rounded share |
| AddExpense.NegativeFirstShare | screens/AddExpenseScreen.tsx:43-52 | two cents over four members leaves the first member a share of minus one cent |
| AddExpense.Submit | screens/AddExpenseScreen.tsx:29-63 | a blank description or amount is rejected first; a missing or non-positive amount next; a valid form yields an expense with the entered description, amount, payer and category, whose splits cover the selection in order, give every member but the first the amount divided by the member count rounded to the nearest cent, and add up to the amount |
| SettlementsScreen.SplitOn | screens/SettlementsScreen.tsx:28 | splitting yields at least one piece and no piece contains the separator |
| SettlementsScreen.SplitJoin | screens/SettlementsScreen.tsx:28 | joining the pieces restores the text; there are two or more pieces exactly when the separator occurs |
| SettlementsScreen.EncodeKey | screens/SettlementsScreen.tsx:21 | the key always holds a dash |
| SettlementsScreen.DecodeKey | screens/SettlementsScreen.tsx:28 | the decoded payer and receiver hold no dash |
| SettlementsScreen.KeyRoundTrip | screens/SettlementsScreen.tsx:20-28 | the key decodes to the pair it was made from exactly when neither id contains a dash |
| SettlementsScreen.DashInPayerIsLost | screens/SettlementsScreen.tsx:20-28 | a payer id `a-b` paying `c` decodes as `a` paying `b` |
| SettlementsScreen.HandleSettle | screens/SettlementsScreen.tsx:20-23 | selecting a suggestion stores a key that decodes back to its two ids when they hold no dash |
| SettlementsScreen.ConfirmPayment | screens/SettlementsScreen.tsx:25-46 | no selection or an empty amount does nothing; a missing or non-positive amount only raises the alert; otherwise one confirmed settlement between the decoded ids with the entered amount is recorded and the form is cleared |
| SettlementsScreen.SettleThenConfirm | screens/SettlementsScreen.tsx:20-46 | paying a suggestion selected with dash-free ids records a confirmed settlement between exactly those two members |
| SettlementsScreen.Pending | screens/SettlementsScreen.tsx:48-52 | a suggestion stays exactly when it is in the plan and no confirmed settlement has its payer and receiver |
| SettlementsScreen.PendingKeepsOrder | screens/SettlementsScreen.tsx:48-52 | the filter distributes over concatenation, so it keeps plan order |
| SettlementsScreen.NothingConfirmed | screens/SettlementsScreen.tsx:48-52 | with no confirmed settlement, every suggestion is pending |
| SettlementsScreen.UnconfirmedNeverHide | screens/SettlementsScreen.tsx:49-51 | adding unconfirmed settlements leaves the pending list unchanged |
| SettlementsScreen.ConfirmingHidesMore | screens/SettlementsScreen.tsx:48-52 | confirming a settlement in the context can only remove pending suggestions, never add one |
| SettlementsScreen.PaymentHidesSuggestion | screens/SettlementsScreen.tsx:36-52 | once a payment is recorded, no suggestion between those two members is pending |
| AppContext.Initial | context/AppContext.tsx:162-186 | the app starts with exactly the fixed user list, whose ids are "1" to "5" and distinct, with the demo expenses and no settlement |
| AppContext.InitialBalanced | context/AppContext.tsx:162-186 | demo expenses that name only the fixed users and split exactly their amounts start the app with balances summing to zero |
| AppContext.AddExpense | context/AppContext.tsx:166-168 | the new expense is appended under the fresh id, and the earlier ones are kept in order |
| AppContext.DeleteExpense | context/AppContext.tsx:170-172 | an expense is kept exactly when its id differs from the deleted one |
| AppContext.DeleteKeepsOrder | context/AppContext.tsx:170-172 | deleting distributes over concatenation, so it keeps order |
| AppContext.DeleteAbsent | context/AppContext.tsx:170-172 | deleting an id no expense carries changes nothing |
| AppContext.DeleteIdempotent | context/AppContext.tsx:170-172 | deleting twice is deleting once |
| AppContext.DeleteUndoesAdd | context/AppContext.tsx:166-172 | deleting an expense just added under a fresh id restores the list |
| AppContext.AddSettlement | context/AppContext.tsx:174-176 | the new settlement is appended under the fresh id, and the earlier ones are kept in order |
| AppContext.ConfirmSettlement | context/AppContext.tsx:178-182 | only the confirmed flag can change; it becomes set exactly for the matching ids and stays set where it was |
| AppContext.ConfirmIdempotent | context/AppContext.tsx:178-182 | confirming twice is confirming once |
| AppContext.ConfirmUnknown | context/AppContext.tsx:178-182 | confirming an id that no settlement carries changes nothing |

## Left out

- Floating point is not modelled: amounts are whole cents, so `toFixed(2)`, `parseFloat(…toFixed(2))` and `Math.round(x * 100) / 100` become the identity. Drift that binary floating point can cause near half a cent is left out.
- AddExpense.RoundedShare: rounds exact halves up. `toFixed(2)` on a binary double can round some such quotients down, and the model does not reproduce that.
- `parseFloat` is not modelled: the screens receive its value as a parameter (`parsed`, with `Absent` for `NaN`), already in cents.
- SettlementsScreen.HandleSettle: the amount text that `toFixed(2)` shows is a parameter.
- Identifiers from `uuidv4` are passed in as `freshId`. Dates, `createdAt`, receipts and proofs are not fields of the records.
- Timers, `Alert`, `setLoading`, navigation and all rendering are left out. `Effect.alerted` only records whether the alert would be shown.
- `App.tsx` is not part of this model, nor are `HomeScreen`, `ExpensesScreen` and the chart and card components. `App.tsx` prepends in its own add functions.
- AppContext.Initial: the demo expense list (`DEMO_EXPENSES`) is a parameter. Its ids come from `uuidv4`.
- The V1 `Group` record is not modelled; the calculator receives its members, expenses and settlements directly.
- DebtV1.CalculateBalances: in the source, a payer, split member or settlement end that is not a member writes `NaN` under a key that is never read back. The model ignores such postings. `IgnoredEntries` states the consequence.
- DebtV1.CalculateBalances: a member id that occurs twice in the list is not considered. The zero-sum lemmas assume distinct ids.
- DebtV1.SortSorted: the stable order of equal balances comes from the definition of `DebtV1.Sort` and is not stated as a contract.
- AddExpense.ToggleUser: the never-empty guarantee is stated for duplicate-free selections only. The initial selection is the ids of distinct users.
- SettlementsScreen.ConfirmPayment: requires that a stored key contains a dash, which holds for every key `handleSettle` stores. A dash-free key would give `to === undefined` in the source.
- AddExpense.Submit: an empty selection cannot arise through `toggleUser`; the model rejects it with `EmptySelection`. The source would fail reading `splits[0]`.
- DebtV1.MatchRound and DebtV2.SettleRound are the loop bodies written as methods of their own. The loops themselves are unchanged.
