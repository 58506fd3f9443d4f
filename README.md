# BillBuddy core, modelled in Dafny

BillBuddy is a bill-splitting web application: users form groups, record shared
expenses and settle up, and the server reports per-group balances. This project
models the logic at its centre and proves properties of the model:

- **The group balance calculator** (`getGroupBalances`, modules `Balances` and
  `BalanceProofs`). Every current member starts at 0. For each expense the payer is
  added if missing and credited the full amount. The split users are then debited
  under one of four rules: EQUAL, PERCENTAGE, SHARES or EXACT. Each key is reported
  once with its balance rounded to cents. The balance dictionary is a `Ledger`:
  the keys in first-insertion order (the order `Object.keys` returns) and a map to
  the unrounded balance. `GetGroupBalances` and its `Debit*` helpers are the
  handler's loops. Each is proved equal to a fold of specification functions.
  The proofs module states:
  - the closed form per user;
  - the set of reported ids;
  - how the balance total moves under each rule;
  - that reordering the expenses changes nothing.
- **Expense creation** (`addExpense`, `getGroupExpenses`; module
  `ExpenseController`). This covers:
  - the guard order;
  - the PERCENTAGE and EXACT write-time total checks;
  - the EQUAL default of one split per member;
  - the stored defaults.
  The expense collection is an `ExpenseStore` object whose sequence grows on each
  created expense.
- **The prototype calculator** `mockGetGroupBalances` and its three hand scenarios
  (module `ReproBalance`). It is related to the server calculator.
- **The client split form** of `AddExpenseModal` (module `AddExpenseModal`). Its
  component state is a `SplitForm` object with methods for:
  - the open-time reset;
  - the per-user value update;
  - the split-type button;
  - `validateSplits`;
  - the posted `splits` payload.
- **Groups** (`createGroup`, `getGroupById`, `addMember`; module
  `GroupController`): a `GroupStore` object over a map of groups.
- **Friendships** (`sendFriendRequest`, `acceptFriendRequest`, `getFriends`,
  `getPendingRequests`, `inviteFriend`; module `FriendController`): a
  `FriendshipStore` object over a sequence of friendship records.

Money is an exact `real`. `Number(x.toFixed(2))` rounds the exact real value to
cents, ties away from zero; the rounding of binary doubles is not modelled. Ids that the database
would generate are parameters. So are the user collection and the group map a
handler reads. An HTTP reply is a `Response`: `Ok`, `Created` (201) or
`Err(code, message)`.

Where this model departs from a plain reading of the handlers:

- `getGroupBalances` has only the 404 guard, not the membership check that
  `getGroupExpenses` has. The model keeps it that way.
- The reported ids are the members, the payers, and the split users of the
  expenses that actually debit. The split users of a SHARES expense whose shares
  sum to zero or less are never added, and neither are those of an expense with
  an unknown type. "Members, payers and split users" is true only with that
  qualification.
- A stored `splitType` outside the schema's enum, or an empty description, is a
  validation error of `Expense.create`, which the handler answers with 500.
  `splits.reduce` on a PERCENTAGE or EXACT request without `splits` throws, and
  that is also a 500.

## Model

| member | source | states |
|---|---|---|
| Balances.GetGroupBalances | server/src/controllers/balanceController.ts:14-90 | 404 for a missing group; otherwise the formatted report of the fold over the group's expenses, started from the members at 0 |
| Balances.SplitAmount | server/src/controllers/balanceController.ts:47-80 | the `splitAmount` each branch debits a split: amount / n for EQUAL with n > 0 splits, amount * pct / 100 for PERCENTAGE, amount * shares / total for SHARES with a positive total, the split's amount for EXACT, and nothing otherwise (stated by Balances.EqualAmount, PercentageAmount, SharesAmount, ExactAmount) |
| Balances.Distributes | server/src/controllers/balanceController.ts:47-80 | whether the branch for the expense's type walks its splits at all: EQUAL with splits, PERCENTAGE, SHARES with a positive share total, EXACT; not EQUAL without splits, SHARES totalling 0 or less, or an unknown type (stated by BalanceProofs.ExpenseRuleEffect) |
| Balances.EnsureUser | server/src/controllers/balanceController.ts:27-31 | `ensureUser`: a missing key is appended at 0, a present one is left alone (stated by BalanceProofs.EnsureUserEffect) |
| Balances.Add | server/src/controllers/balanceController.ts:43-44 | `ensureUser(id)` followed by `balances[id] += x` (stated by BalanceProofs.AddEffect and TotalOfAdd) |
| Balances.DebitSplits | server/src/controllers/balanceController.ts:51-55 | the inner `forEach` over the splits: ensure each split user, then debit its split amount (stated by BalanceProofs.DebitSplitsEffect and TotalOfDebitSplits) |
| Balances.ApplyExpense | server/src/controllers/balanceController.ts:38-82 | one pass of the outer `forEach`: credit the payer the full amount, then debit the splits when the branch for the type walks them (stated by BalanceProofs.ApplyExpenseEffect and ExpenseRuleEffect) |
| Balances.ApplyExpenses | server/src/controllers/balanceController.ts:38-82 | the outer `forEach` over the expenses in order (stated by BalanceProofs.ApplyExpensesEffect and OrderIndependence) |
| Balances.InitMembers | server/src/controllers/balanceController.ts:33-36 | `ensureUser` of every member in roster order (stated by BalanceProofs.InitMembersEffect) |
| Balances.RawBalances | server/src/controllers/balanceController.ts:33-82 | the dictionary before formatting (stated by BalanceProofs.RawBalancesClosedForm) |
| Balances.RoundCents | server/src/controllers/balanceController.ts:87 | `Number(x.toFixed(2))` on the exact value: the magnitude rounded to cents with ties away from zero, the sign kept (stated by BalanceProofs.RoundCentsClose) |
| Balances.Format | server/src/controllers/balanceController.ts:85-88 | one `{userId, amount}` entry per key in `Object.keys` order, with the rounded balance (stated by BalanceProofs.FormatEntries and FormatMembers) |
| Balances.AddInPlace | server/src/controllers/balanceController.ts:27-31 | `ensureUser` then `+=` on the in-place dictionary equals the specification step that adds the key if missing and shifts its balance |
| Balances.DebitEqual | server/src/controllers/balanceController.ts:47-56 | the EQUAL loop (n > 0 splits) leaves the dictionary the specification's debit of every split |
| Balances.DebitPercentage | server/src/controllers/balanceController.ts:57-63 | the PERCENTAGE loop leaves the dictionary the specification's debit of every split |
| Balances.DebitShares | server/src/controllers/balanceController.ts:64-73 | the SHARES loop with a positive share total leaves the dictionary the specification's debit of every split |
| Balances.DebitExact | server/src/controllers/balanceController.ts:74-80 | the EXACT loop leaves the dictionary the specification's debit of every split |
| Balances.EqualAmount | server/src/controllers/balanceController.ts:48-50 | a one-branch unfolding of Balances.SplitAmount, used by the EQUAL loop: with n > 0 splits each split is debited amount / n |
| Balances.PercentageAmount | server/src/controllers/balanceController.ts:60 | a one-branch unfolding of Balances.SplitAmount, used by the PERCENTAGE loop: a split is debited amount * pct / 100, a missing pct counting as 0 |
| Balances.SharesAmount | server/src/controllers/balanceController.ts:65-69 | a one-branch unfolding of Balances.SplitAmount, used by the SHARES loop: with a positive total a split is debited amount * shares / total shares |
| Balances.ExactAmount | server/src/controllers/balanceController.ts:77 | a one-branch unfolding of Balances.SplitAmount, used by the EXACT loop: a split is debited its own amount (0 if missing), with no check against the expense amount |
| Balances.DebitPrefix | server/src/controllers/balanceController.ts:51-55 | debiting one more split extends the debit of the prefix by exactly that split's amount |
| Balances.ExpensesOf | server/src/controllers/balanceController.ts:23 | `Expense.find({ group })` returns the stored expenses of that group and no others, each as many times as it is stored |
| BalanceProofs.EnsureUserEffect | server/src/controllers/balanceController.ts:27-31 | `ensureUser` keeps the dictionary well formed, changes no balance, adds exactly the one key and keeps the earlier key order |
| BalanceProofs.AddEffect | server/src/controllers/balanceController.ts:43-44 | adding x to a user shifts that user by x and nobody else, adds at most that key and keeps the key order |
| BalanceProofs.DebitSplitsEffect | server/src/controllers/balanceController.ts:51-55 | debiting splits subtracts from each user the sum of the amounts of the splits naming that user; the keys gained are exactly the split users; the order is kept |
| BalanceProofs.DebitSplitsGet | server/src/controllers/balanceController.ts:51-55 | each user ends at its start minus the sum of its own split amounts |
| BalanceProofs.DebitSplitsDomain | server/src/controllers/balanceController.ts:53 | the keys after the debit are the keys before plus the split users |
| BalanceProofs.DebitSplitsValid | server/src/controllers/balanceController.ts:53 | the key list stays duplicate-free and in step with the map |
| BalanceProofs.DebitSplitsExtends | server/src/controllers/balanceController.ts:53 | the earlier keys keep their places |
| BalanceProofs.ApplyExpenseEffect | server/src/controllers/balanceController.ts:38-82 | one expense moves each user by its closed-form change, adds exactly its touched users and always adds the payer |
| BalanceProofs.ApplyExpensesEffect | server/src/controllers/balanceController.ts:38-82 | the whole fold moves each user by the sum of its per-expense changes and adds exactly the touched users |
| BalanceProofs.InitMembersEffect | server/src/controllers/balanceController.ts:33-36 | the initial dictionary holds exactly the members, all at 0; with distinct members its keys are the roster in order |
| BalanceProofs.InitMembersTracks | server/src/controllers/balanceController.ts:33-36 | the initial dictionary is well formed, all zeros, with exactly the members as keys |
| BalanceProofs.InitMembersKeys | server/src/controllers/balanceController.ts:33-36 | with distinct members the initial key order is the roster's |
| BalanceProofs.UntouchedDeltaZero | server/src/controllers/balanceController.ts:38-82 | a user no expense touches is moved by 0 |
| BalanceProofs.RawBalancesClosedForm | server/src/controllers/balanceController.ts:27-82 | the unrounded result has keys members ∪ touched users, each balance is the total change, an untouched member stays 0, and the members lead the key order |
| BalanceProofs.RoundCentsClose | server/src/controllers/balanceController.ts:87 | the rounding to cents moves a value by at most 0.005 |
| BalanceProofs.FormatEntries | server/src/controllers/balanceController.ts:85-88 | one entry per key in key order; each amount within 0.005 of the balance, and exactly 0 for a zero balance |
| BalanceProofs.FormattedReport | server/src/controllers/balanceController.ts:27-88 | every member and touched user is reported exactly once and nobody else; amounts are within 0.005 of the exact totals; an untouched member is reported as 0 |
| BalanceProofs.ReportIds | server/src/controllers/balanceController.ts:85-88 | the reported ids are duplicate-free and are exactly members ∪ touched users (both directions) |
| BalanceProofs.ReportAmounts | server/src/controllers/balanceController.ts:85-88 | every reported amount is within 0.005 of that user's exact total change |
| BalanceProofs.ReportUntouched | server/src/controllers/balanceController.ts:33-36 | a reported user whom no expense touches is reported as exactly 0 |
| BalanceProofs.FormatMembers | server/src/controllers/balanceController.ts:85-88 | an entry is in the report iff its id is a key and its amount is that key's rounded balance |
| BalanceProofs.TotalDeltaAppend | server/src/controllers/balanceController.ts:38 | the change over a concatenation is the sum of the changes over the parts |
| BalanceProofs.Accumulation | server/src/controllers/balanceController.ts:38-82 | the result after a + b is the result after a plus the changes of b |
| BalanceProofs.ExpenseRuleEffect | server/src/controllers/balanceController.ts:42-81 | each rule's closed form per user; with EQUAL and no splits, with SHARES totalling 0 or less, or with an unknown type, only the payer is credited and touched |
| BalanceProofs.EqualRule | server/src/controllers/balanceController.ts:47-56 | EQUAL with n > 0: credit minus (number of the user's listings) * amount / n |
| BalanceProofs.PercentageRule | server/src/controllers/balanceController.ts:57-63 | PERCENTAGE: credit minus amount * (the user's percentages) / 100, with no renormalisation |
| BalanceProofs.SharesRule | server/src/controllers/balanceController.ts:64-73 | SHARES with a positive total: credit minus amount * (the user's shares) / total shares |
| BalanceProofs.ExactRule | server/src/controllers/balanceController.ts:74-80 | EXACT: credit minus the user's split amounts |
| BalanceProofs.CreditOnlyRule | server/src/controllers/balanceController.ts:81 | an expense that debits nobody only credits the payer |
| BalanceProofs.EqualSum | server/src/controllers/balanceController.ts:50-55 | under EQUAL the debit of k splits is k * amount / n |
| BalanceProofs.PercentageSum | server/src/controllers/balanceController.ts:58-63 | under PERCENTAGE the debit of some splits is amount * their percentage total / 100 |
| BalanceProofs.SharesSum | server/src/controllers/balanceController.ts:65-72 | under SHARES the debit of some splits is amount * their share total / total shares |
| BalanceProofs.ExactSum | server/src/controllers/balanceController.ts:75-80 | under EXACT the debit of some splits is their amount total |
| BalanceProofs.TotalOfEnsureUser | server/src/controllers/balanceController.ts:27-31 | `ensureUser` leaves the balance total unchanged |
| BalanceProofs.TotalOfAdd | server/src/controllers/balanceController.ts:44 | adding x to one user moves the balance total by exactly x |
| BalanceProofs.TotalOfDebitSplits | server/src/controllers/balanceController.ts:51-55 | debiting splits lowers the total by the sum of their amounts |
| BalanceProofs.TotalOfApplyExpense | server/src/controllers/balanceController.ts:38-82 | one expense moves the balance total by its net change |
| BalanceProofs.DebitedTotal | server/src/controllers/balanceController.ts:47-80 | a debiting expense debits its amount minus its net change in all |
| BalanceProofs.EqualDebited | server/src/controllers/balanceController.ts:47-56 | EQUAL with n > 0 splits debits exactly the amount |
| BalanceProofs.SharesDebited | server/src/controllers/balanceController.ts:64-73 | SHARES with a positive total debits exactly the amount |
| BalanceProofs.TotalOfRawBalances | server/src/controllers/balanceController.ts:33-82 | the total of the unrounded result is the sum of the expenses' net changes: 0 for EQUAL (n > 0) and SHARES (total > 0), amount * (1 - Σpct/100) for PERCENTAGE, amount - Σamounts for EXACT, amount otherwise |
| BalanceProofs.ZeroSum | server/src/controllers/balanceController.ts:33-36 | a dictionary of zeros sums to 0 |
| BalanceProofs.BalancedDrift | server/src/controllers/expenseController.ts:26-36 | a Balanced expense (EQUAL with splits, SHARES with a positive share total, PERCENTAGE or EXACT within 0.01) moves the total by at most its drift bound; the server's checks alone do not make an expense Balanced (see ExpenseController.CreatedSharesUnbalanced) |
| BalanceProofs.PercentageChangeDrift | server/src/controllers/expenseController.ts:28 | a PERCENTAGE expense within 0.01 of 100% moves the total by at most abs(amount) / 10000 |
| BalanceProofs.ExactChangeDrift | server/src/controllers/expenseController.ts:33 | an EXACT expense within 0.01 of its amount moves the total by at most 0.01 |
| BalanceProofs.PercentageDrift | server/src/controllers/expenseController.ts:28 | abs(a - a * t / 100) <= abs(a) / 10000 whenever abs(t - 100) <= 0.01 |
| BalanceProofs.ZeroSumWithinDrift | server/src/controllers/balanceController.ts:38-82 | over Balanced expenses (EQUAL with splits, SHARES with a positive share total, PERCENTAGE or EXACT within 0.01) the unrounded balances sum to within the summed drift bounds of 0 |
| BalanceProofs.SumTotalChangeBound | server/src/controllers/balanceController.ts:38-82 | the net changes of Balanced expenses (EQUAL with splits, SHARES with a positive share total, PERCENTAGE or EXACT within 0.01) sum to within their drift bounds |
| BalanceProofs.TotalDeltaRemove | server/src/controllers/balanceController.ts:38 | dropping one expense from anywhere in the list removes exactly its change |
| BalanceProofs.TotalDeltaPermutation | server/src/controllers/balanceController.ts:38 | any permutation of the expenses gives every user the same total change |
| BalanceProofs.TouchedAllMembers | server/src/controllers/balanceController.ts:38-82 | a user is touched by the list iff some expense in it touches the user |
| BalanceProofs.OrderIndependence | server/src/controllers/balanceController.ts:38-82 | permuting the expenses leaves the unrounded dictionary and the set of reported entries unchanged |
| ReproBalance.MockGetGroupBalances | server/repro_balance.ts:2-39 | the prototype's loops compute its specification fold, and its keys are exactly the members |
| ReproBalance.MockInit | server/repro_balance.ts:3-4 | `groupMembers.forEach(m => balances[m] = 0)`: exactly the members, each at 0 (stated by ReproBalance.MockKeys with no expenses, and by the first loop's invariant in MockGetGroupBalances) |
| ReproBalance.MockDebitSplits | server/repro_balance.ts:16-33 | the inner `forEach` over the splits: each tracked split user loses its split amount, untracked ones are skipped (stated by ReproBalance.MockDebitSplitsEffect, MockDebitSplitsKeys and MockDebitSplitsGet) |
| ReproBalance.MockApplyAll | server/repro_balance.ts:6-36 | the outer `forEach` over the expenses in order (stated by ReproBalance.MockKeys and NonMembersIgnored) |
| ReproBalance.MockBalances | server/repro_balance.ts:2-39 | the dictionary the prototype returns: the members at 0, then the expense fold (stated by ReproBalance.MockKeys, MemberBalancesAgree and DictionariesAgree) |
| ReproBalance.MockAdd | server/repro_balance.ts:12-14 | `balances[id] += x` only when the id already has a key (stated by ReproBalance.MockDebitSplitsEffect and MockKeys) |
| ReproBalance.MockSplitAmount | server/repro_balance.ts:16-35 | amount / splitCount for EQUAL, amount * pct / 100 for PERCENTAGE, nothing for any other type (stated by ReproBalance.MockEqualRule and MockOtherRules) |
| ReproBalance.MockApplyExpense | server/repro_balance.ts:6-36 | one pass of the outer `forEach`: credit a tracked payer, then debit the tracked split users of an EQUAL or PERCENTAGE expense (stated by ReproBalance.MockKeys and MockDeltaAgrees) |
| ReproBalance.MockDebitEqual | server/repro_balance.ts:16-25 | the EQUAL loop debits each tracked split user, as the fold specifies |
| ReproBalance.MockDebitPercentage | server/repro_balance.ts:26-33 | the PERCENTAGE loop debits each tracked split user, as the fold specifies |
| ReproBalance.MockDebitSplitsEffect | server/repro_balance.ts:20-25 | the split loop adds no key and lowers each tracked user by the sum of its own split amounts |
| ReproBalance.MockDebitSplitsKeys | server/repro_balance.ts:22 | the split loop never adds a key |
| ReproBalance.MockDebitSplitsGet | server/repro_balance.ts:22-24 | a tracked user ends at its start minus its own split amounts |
| ReproBalance.MockKeys | server/repro_balance.ts:3-36 | the prototype's keys are exactly the members, and each member's balance is the sum of the prototype's changes |
| ReproBalance.NonMembersIgnored | server/repro_balance.ts:12-14 | a payer or split user who is not a member is never reported |
| ReproBalance.MockEqualRule | server/repro_balance.ts:16-25 | a one-branch unfolding of ReproBalance.MockSplitAmount and MockDelta for EQUAL: amount / splitCount per listing; with no splits only the payer is credited |
| ReproBalance.MockOtherRules | server/repro_balance.ts:26-35 | a branch unfolding of ReproBalance.MockSplitAmount and MockDelta for the other types: PERCENTAGE debits amount * pct / 100 (a missing pct is 0); any other type only credits the payer |
| ReproBalance.MockSumAgrees | server/repro_balance.ts:16-33 | on EQUAL and PERCENTAGE the prototype's split amounts sum to the server's |
| ReproBalance.MockDeltaAgrees | server/repro_balance.ts:6-36 | on EQUAL and PERCENTAGE expenses the prototype's per-user total change equals the server's |
| ReproBalance.MockAgreesWithServer | server/repro_balance.ts:2-39 | on EQUAL and PERCENTAGE expenses every member has the server's unrounded balance; when all payers and split users are members the dictionaries are equal |
| ReproBalance.MemberBalancesAgree | server/repro_balance.ts:2-39 | on EQUAL and PERCENTAGE expenses every member has the server's unrounded balance |
| ReproBalance.DictionariesAgree | server/repro_balance.ts:2-39 | on EQUAL and PERCENTAGE expenses whose payers and split users are members, the prototype's dictionary is the server's |
| ReproBalance.OneExpense | server/repro_balance.ts:2-39 | on one expense the prototype reports each member's change under that expense |
| ReproBalance.DeltaOfTwo | server/repro_balance.ts:16-33 | the prototype's change under a two-split EQUAL or PERCENTAGE expense, written out |
| ReproBalance.LunchDeltas | server/repro_balance.ts:41-52 | Lunch moves A by +50 and B by -50 |
| ReproBalance.DinnerDeltas | server/repro_balance.ts:54-65 | Dinner moves A by +90, B by -45 and C by -45 |
| ReproBalance.DrinksDeltas | server/repro_balance.ts:67-78 | Drinks moves A by +40 and B by -40 |
| ReproBalance.LunchScenario | server/repro_balance.ts:41-52 | test 1 gives {A: 50, B: -50} |
| ReproBalance.DinnerScenario | server/repro_balance.ts:54-65 | test 2 gives {A: 90, B: -45, C: -45} |
| ReproBalance.DrinksScenario | server/repro_balance.ts:67-78 | test 3 gives {A: 40, B: -40} |
| ReproBalance.ServerLunch | server/src/controllers/balanceController.ts:85-88 | the server calculator reports [A: 50, B: -50] for test 1, in member order |
| ReproBalance.ServerDinner | server/src/controllers/balanceController.ts:85-88 | the server calculator reports [A: 90, B: -45, C: -45] for test 2 |
| ReproBalance.ServerDrinks | server/src/controllers/balanceController.ts:85-88 | the server calculator reports [A: 40, B: -40] for test 3 |
| ReproBalance.ScenarioLedger | server/repro_balance.ts:2-39 | with distinct members and all parties members, the server's unrounded dictionary has the roster as keys and the prototype's balances |
| ExpenseController.ExpenseStore.AddExpense | server/src/controllers/expenseController.ts:10-77 | the reply is the guard-by-guard outcome, and the collection gains the expense exactly when it is created |
| ExpenseController.ExpenseStore.GetGroupExpenses | server/src/controllers/expenseController.ts:79-102 | 404 iff the group is missing, 403 iff the caller is not a member; otherwise the group's expenses and no others, each as many times as it is stored |
| ExpenseController.CheckSplits | server/src/controllers/expenseController.ts:25-36 | a rejection carries one of the two messages; the check throws only when `splits` is missing |
| ExpenseController.DefaultSplits | server/src/controllers/expenseController.ts:45 | one `{user}` split per group member, in roster order |
| ExpenseController.StoredSplitType | server/src/controllers/expenseController.ts:53 | `splitType or 'EQUAL'`: an omitted type is stored as EQUAL, any other is stored as sent (stated by ExpenseController.CreatedShape) |
| ExpenseController.FinalSplits | server/src/controllers/expenseController.ts:43-46 | the member default when the request type is 'EQUAL' and the splits are missing or empty, otherwise the request's splits, a missing list stored as [] (stated by ExpenseController.CreatedShape and OmittedTypeKeepsEmptySplits) |
| ExpenseController.StoredExpense | server/src/controllers/expenseController.ts:48-57 | the document given to `Expense.create`: the request's description, amount and group, paid by the caller, with the stored type and splits (stated by ExpenseController.CreatedShape) |
| ExpenseController.Storable | server/src/models/Expense.ts:20-38 | what `Expense.create` accepts: a non-empty description and a type from the schema's enum |
| ExpenseController.AddExpenseOutcome | server/src/controllers/expenseController.ts:10-77 | addExpense's reply: 404, 403, the 500 of a throwing `splits.reduce`, 400 with the check's message, the 500 of a schema error, else 201 with the stored expense (stated by ExpenseController.AddExpenseGuards) |
| ExpenseController.AddExpenseGuards | server/src/controllers/expenseController.ts:14-57 | 404 iff the group is missing; 403 iff the caller is not a member; 400 iff the split check rejects; created iff every guard passes and the document is storable |
| ExpenseController.PercentageValidation | server/src/controllers/expenseController.ts:26-30 | PERCENTAGE is rejected iff abs(Σpct - 100) > 0.01, a missing pct counting as 0, and passes otherwise |
| ExpenseController.ExactValidation | server/src/controllers/expenseController.ts:31-36 | EXACT is rejected iff abs(Σamount - amount) > 0.01, and passes otherwise |
| ExpenseController.OtherTypesPass | server/src/controllers/expenseController.ts:25-36 | EQUAL, SHARES and any other type always pass the split check |
| ExpenseController.CreatedShape | server/src/controllers/expenseController.ts:43-57 | a created expense is paid by the caller; its type is the request's or EQUAL; its splits are the roster default exactly when the request type is 'EQUAL' with no or empty splits, otherwise the request's |
| ExpenseController.DefaultSplitsRoster | server/src/controllers/expenseController.ts:45 | the default has one split per member in order, naming the member and carrying no amount, percentage or shares |
| ExpenseController.OmittedTypeKeepsEmptySplits | server/src/controllers/expenseController.ts:44-54 | with the type omitted and no splits, the expense is stored as EQUAL with no splits |
| ExpenseController.CreatedEqualIsZeroSum | server/src/controllers/expenseController.ts:43-46 | a created expense requested as EQUAL has at least one split and leaves the balance total unchanged |
| ExpenseController.CreatedWithinTolerance | server/src/controllers/expenseController.ts:26-36 | a created PERCENTAGE expense moves the balance total by at most abs(amount) / 10000, and a created EXACT one by at most 0.01 |
| ExpenseController.CreatedSharesUnbalanced | server/src/controllers/expenseController.ts:25-57 | a SHARES request whose shares sum to 0 or less passes every check and is created; the expense is not Balanced, credits only the payer, and moves the balance total by its whole amount |
| ExpenseController.SettlementAsWritten | client/src/components/SettleUpModal.tsx:26-33 | the settlement as the client posts it is stored as EQUAL with no splits: the payer gains the amount, the payee is not debited, and the total grows by the amount |
| ExpenseController.SettlementFixed | server/src/controllers/expenseController.ts:43-57 | a settlement posted with the payee as its one split debits the payee the amount, credits the payer and leaves the total unchanged |
| ExpenseController.SingleEqualSplit | server/src/controllers/balanceController.ts:42-56 | an EQUAL expense split to one other user moves that user by -amount and the payer by +amount |
| AddExpenseModal.SplitForm.Open | client/src/components/AddExpenseModal.tsx:36-44 | opening sets every member's value to 0, resets the type to EQUAL and clears the error |
| AddExpenseModal.SplitForm.SelectSplitType | client/src/components/AddExpenseModal.tsx:173 | choosing a type changes the type only |
| AddExpenseModal.SplitForm.HandleSplitChange | client/src/components/AddExpenseModal.tsx:46-51 | the one user's value becomes the parsed number or 0; the type and the error are unchanged |
| AddExpenseModal.SplitForm.ValidateSplits | client/src/components/AddExpenseModal.tsx:53-74 | the result is the tolerance test; EQUAL leaves the error as it was; a pass of any other type clears it; a failure sets the percentage or total message |
| AddExpenseModal.Passes | client/src/components/AddExpenseModal.tsx:53-74 | the form's test: PERCENTAGE within 0.1 of 100, EXACT within 0.1 of the amount, EQUAL and SHARES always (stated by AddExpenseModal.SplitForm.ValidateSplits and ServerAcceptedFormAccepted) |
| AddExpenseModal.ValuesTotal | client/src/components/AddExpenseModal.tsx:57 | `Object.values(splitValues).reduce((a, b) => a + b, 0)` in key order (stated by AddExpenseModal.PayloadTotalMatchesForm) |
| AddExpenseModal.Lookup | client/src/components/AddExpenseModal.tsx:79 | a member's value in the form, 0 when it has none (stated by AddExpenseModal.LookupFound, LookupMissing and AssignFacts) |
| AddExpenseModal.LookupFound | client/src/components/AddExpenseModal.tsx:79 | with unique keys, the entry at any position is what the lookup of its user returns |
| AddExpenseModal.ZeroValues | client/src/components/AddExpenseModal.tsx:38-39 | `initialSplits`: every member id at 0, in roster order (stated by AddExpenseModal.ZeroValuesFacts) |
| AddExpenseModal.SplitForm.Payload | client/src/components/AddExpenseModal.tsx:78-85 | the posted splits have one entry per member, in member order |
| AddExpenseModal.BuildSplits | client/src/components/AddExpenseModal.tsx:78-85 | one entry per member in order; EQUAL entries carry no value; the others carry the member's value (0 if missing) in their own field only |
| AddExpenseModal.PayloadSplit | client/src/components/AddExpenseModal.tsx:79-84 | one payload entry: the user, with the looked-up value in the field of the chosen type and no other (stated by AddExpenseModal.BuildSplits) |
| AddExpenseModal.FormRequest | client/src/components/AddExpenseModal.tsx:90-95 | the posted body: description, amount, group, the type's name and the built splits (stated by AddExpenseModal.ServerAcceptedFormAccepted and PayloadTotalMatchesForm) |
| AddExpenseModal.Assign | client/src/components/AddExpenseModal.tsx:47-50 | an existing key keeps its place; a new key is appended |
| AddExpenseModal.AssignFacts | client/src/components/AddExpenseModal.tsx:47-50 | the update sets that user's value, leaves every other value and keeps the keys unique |
| AddExpenseModal.HandleSplitChangeFrame | client/src/components/AddExpenseModal.tsx:46-51 | after the update the user reads the new value and every other user reads its old one |
| AddExpenseModal.LookupMissing | client/src/components/AddExpenseModal.tsx:79 | a member without an entry reads as 0 in the payload |
| AddExpenseModal.ZeroValuesFacts | client/src/components/AddExpenseModal.tsx:38-39 | the reset holds exactly the members, all at 0, with unique keys in roster order when the members are distinct |
| AddExpenseModal.PayloadTotals | client/src/components/AddExpenseModal.tsx:78-85 | the posted percentages, amounts or shares sum to the members' form values |
| AddExpenseModal.PayloadTotalMatchesForm | client/src/components/AddExpenseModal.tsx:57 | when the entries are the members, the posted total is the total the form checks |
| AddExpenseModal.ServerAcceptedFormAccepted | client/src/components/AddExpenseModal.tsx:53-74 | whatever the server's split check passes, the form's check passes too |
| AddExpenseModal.ToleranceGap | client/src/components/AddExpenseModal.tsx:58 | the form accepts 100.05% (within 0.1) which the server then rejects (beyond 0.01) |
| GroupController.GroupStore.CreateGroup | server/src/controllers/groupController.ts:11-43 | the group stored has the caller as creator and the collected member ids; a missing name or a clashing id gives 500 and stores nothing |
| GroupController.CollectMemberIds | server/src/controllers/groupController.ts:15-23 | the list built is the creator followed by the other found users in order, with the creator exactly once |
| GroupController.OthersOf | server/src/controllers/groupController.ts:19-23 | the ids pushed by the `forEach`: each found user other than the creator, in order (stated by GroupController.OthersOfFacts) |
| GroupController.MemberIds | server/src/controllers/groupController.ts:15-23 | `memberIds`: the creator, then the pushed ids (stated by GroupController.MemberIdsFacts) |
| GroupController.UsersWithEmails | server/src/controllers/groupController.ts:18 | the found users are exactly the users with a listed email |
| GroupController.MemberIdsFacts | server/src/controllers/groupController.ts:15-23 | the creator comes first and appears exactly once; the other ids are exactly the other found users; duplicate-free users give a duplicate-free list |
| GroupController.OthersOfFacts | server/src/controllers/groupController.ts:19-23 | the pushed ids never include the creator and are exactly the other found users |
| GroupController.NoEmailsOnlyCreator | server/src/controllers/groupController.ts:15-17 | with no emails the members are exactly [creator] |
| GroupController.GroupStore.GetGroupById | server/src/controllers/groupController.ts:56-74 | 404 iff the group is missing, 403 iff the caller is not a member, else the group |
| GroupController.GroupStore.AddMember | server/src/controllers/groupController.ts:76-127 | the reply is the guard-by-guard outcome; only a success saves the updated group |
| GroupController.AddMemberOutcome | server/src/controllers/groupController.ts:76-127 | addMember's reply guard by guard, and on success the group with the user's id appended (stated by GroupController.AddMemberGuards and AddMemberAppends) |
| GroupController.AddMemberGuards | server/src/controllers/groupController.ts:81-100 | 404 missing group, then 403 non-member caller, then 404 unknown email, then 400 already a member, each iff its condition holds |
| GroupController.AddMemberAppends | server/src/controllers/groupController.ts:102 | a success appends the user with that email: one longer, earlier members unchanged and in order, no duplicate introduced |
| FriendController.FriendshipStore.SendFriendRequest | server/src/controllers/friendController.ts:10-59 | the reply is the guard-by-guard outcome and the table gains the new record exactly on 201 |
| FriendController.FriendshipStore.AcceptFriendRequest | server/src/controllers/friendController.ts:61-82 | the reply is the guard-by-guard outcome and the table is the one with that record accepted |
| FriendController.SendOutcome | server/src/controllers/friendController.ts:10-59 | sendFriendRequest's reply: 404, 400 self, the three 400s of an existing record, the 500 of a clashing new id, else 201 with a pending record (stated by FriendController.SendGuards and SendCreates) |
| FriendController.AcceptOutcome | server/src/controllers/friendController.ts:61-82 | acceptFriendRequest's reply: 404, 403 for a caller who is not the recipient, else the record accepted (stated by FriendController.AcceptGuards) |
| FriendController.AcceptedTable | server/src/controllers/friendController.ts:75-76 | the table after acceptance: only that record's status set to accepted, and only when the caller is its recipient (stated by FriendController.AcceptEffect) |
| FriendController.OtherParty | server/src/controllers/friendController.ts:97-102 | the recipient when the user is the requester, else the requester (stated by FriendController.FriendsOf and FriendsSymmetric) |
| FriendController.FindBetween | server/src/controllers/friendController.ts:25-30 | the lookup finds a record between the two users in either direction, or none iff there is none |
| FriendController.IndexOfId | server/src/controllers/friendController.ts:66 | `findById` finds a record with that id, or none iff there is none |
| FriendController.SendGuards | server/src/controllers/friendController.ts:15-40 | 404 iff the email is unknown; 400 iff it is the requester's own; an existing record gives the message its status and direction choose; 201 only when no record exists |
| FriendController.SendCreates | server/src/controllers/friendController.ts:42-46 | a created record is pending, from the requester to the user with that email, never to the requester |
| FriendController.SendKeepsTableValid | server/src/models/Friendship.ts:18 | sending keeps at most one record per pair of users, in either direction, and no self-friendship |
| FriendController.AcceptGuards | server/src/controllers/friendController.ts:66-76 | 404 iff no record has the id; 403 iff the caller is not its recipient; success returns it accepted |
| FriendController.AcceptEffect | server/src/controllers/friendController.ts:75-76 | acceptance changes that record's status only, nothing else, is idempotent and keeps the table valid |
| FriendController.FriendsOf | server/src/controllers/friendController.ts:88-102 | the friends are exactly the other parties of the user's accepted records |
| FriendController.FriendsSymmetric | server/src/controllers/friendController.ts:97-102 | v is a friend of u iff u is a friend of v |
| FriendController.PendingFor | server/src/controllers/friendController.ts:114-117 | exactly the pending records whose recipient is the user |
| FriendController.PendingNotFriends | server/src/controllers/friendController.ts:114-117 | a pending record is listed for its recipient and for nobody else |
| FriendController.InviteFriend | server/src/controllers/friendController.ts:131-144 | 400 iff a user already has the email; otherwise the success message |
| Models.FindByEmail | server/src/controllers/groupController.ts:92 | `User.findOne({ email })` returns a user with that email, or none iff there is none |
| Models.TotalPercentage | server/src/controllers/expenseController.ts:27 | the sum of the splits' percentages, a missing one counting as 0 (stated by ExpenseController.PercentageValidation and BalanceProofs.PercentageSum) |
| Models.TotalShares | server/src/controllers/balanceController.ts:65 | the sum of the splits' shares, a missing one counting as 0 (stated by BalanceProofs.SharesSum and SharesRule) |
| Models.TotalAmount | server/src/controllers/expenseController.ts:32 | the sum of the splits' amounts, a missing one counting as 0 (stated by ExpenseController.ExactValidation and BalanceProofs.ExactSum) |

## Findings

| source | as written | input that shows it | evidently intended | confidence | as-written member | corrected member |
|---|---|---|---|---|---|---|
| client/src/components/SettleUpModal.tsx:26-33 | the settlement posts `splitBetween: [payeeId]`, which the server ignores, and no `splitType`. The server's member default fires only when the REQUEST type is 'EQUAL', so the expense is stored as EQUAL with no splits and only the payer is credited (server/src/controllers/expenseController.ts:44,53) | a member pays 20 to another member of the same group: the payer's balance rises by 20, the payee's does not move, and the group's balances sum to 20 | the payee is debited the amount, so the members' balances still sum to 0 | not executed | ExpenseController.SettlementAsWritten | ExpenseController.SettlementFixed |

## Left out

- Express request/response plumbing, mongoose queries, `populate`, sorting and `.limit`: only the guard outcomes and the data returned are kept.
- Routes, the server bootstrap and authentication: the caller's id is a parameter, and JWT signing is not modelled.
- Email sending and activity recording (`sendEmail`, `recordActivity`): side effects whose failure is not modelled.
- Binary floating point: money is exact `real` arithmetic. `parseFloat` is an input of type `Option<real>`, where `None` stands for `NaN`.
- `getGroups`, the category and date fields, and the React rendering are not modelled.
- Validation of the other expense fields by the schema, beyond the description and the split-type enum, is not modelled.
- Concurrency between requests, such as two racing `addMember` or `sendFriendRequest` calls.
- ReproBalance.MockGetGroupBalances: the key order of the prototype's result and its console logging are not modelled.
- The corrected settlement request of the finding (the payee as the one EQUAL split) is stated on the server side only; the client code it implies is not part of this model.
- ExpenseController.ExpenseStore.GetGroupExpenses: the result is in collection order; the `.sort({ date: -1 })` is not modelled because the model's expenses carry no date.
