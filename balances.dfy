/**
 * The group balance calculator of getGroupBalances
 * (server/src/controllers/balanceController.ts).
 *
 * The handler builds a `balances` dictionary in place. Here that dictionary is a
 * Ledger: the keys in the order they were first added (the order `Object.keys`
 * reports them) and a map from key to its unrounded balance. The functions below
 * specify the fold one step at a time; GetGroupBalances is the handler's loop,
 * proved equal to them. The lemmas about the specification are in balance_proofs.dfy.
 */
module Balances {
  import opened Common
  import opened Models

  datatype Ledger = Ledger(keys: seq<UserId>, bal: map<UserId, real>)

  /** Every key listed exactly once, and the listed keys are the map's keys. */
  predicate Valid(l: Ledger)
  {
    && NoDuplicates(l.keys)
    && (forall u :: u in l.bal ==> u in l.keys)
    && (forall u :: u in l.keys ==> u in l.bal)
  }

  /** The balance of `u`, 0 for an id that is not tracked. */
  function Get(l: Ledger, u: UserId): real
  {
    if u in l.bal then l.bal[u] else 0.0
  }

  /** `ensureUser`: an untracked id enters with balance 0, after every earlier key. */
  function EnsureUser(l: Ledger, u: UserId): Ledger
  {
    if u in l.bal then l else Ledger(l.keys + [u], l.bal[u := 0.0])
  }

  /** `ensureUser(u); balances[u] += x` (a debit adds `-x`). */
  function Add(l: Ledger, u: UserId, x: real): Ledger
  {
    var t := EnsureUser(l, u);
    Ledger(t.keys, t.bal[u := t.bal[u] + x])
  }

  /** The `splitAmount` that the branch for `e.splitType` debits for split `s`. */
  function SplitAmount(e: Expense, s: Split): real
  {
    if e.splitType == EQUAL then
      (if |e.splits| > 0 then e.amount / (|e.splits| as real) else 0.0)
    else if e.splitType == PERCENTAGE then
      e.amount * OrZero(s.percentage) / 100.0
    else if e.splitType == SHARES then
      (if TotalShares(e.splits) > 0.0 then e.amount * OrZero(s.shares) / TotalShares(e.splits) else 0.0)
    else if e.splitType == EXACT then
      OrZero(s.amount)
    else
      0.0
  }

  /**
   * Whether the calculator walks the splits of `e` at all: not for EQUAL without
   * splits, not for SHARES whose total is not positive, not for an unknown type.
   */
  predicate Distributes(e: Expense)
  {
    || (e.splitType == EQUAL && |e.splits| > 0)
    || e.splitType == PERCENTAGE
    || (e.splitType == SHARES && TotalShares(e.splits) > 0.0)
    || e.splitType == EXACT
  }

  /** The inner `forEach` over the first |ss| splits: ensure each user, then debit it. */
  function DebitSplits(l: Ledger, e: Expense, ss: seq<Split>): Ledger
  {
    if ss == [] then l
    else Add(DebitSplits(l, e, ss[..|ss| - 1]), ss[|ss| - 1].user, -SplitAmount(e, ss[|ss| - 1]))
  }

  /** One iteration of the outer `forEach`: credit the payer, then debit the splits. */
  function ApplyExpense(l: Ledger, e: Expense): Ledger
  {
    var credited := Add(l, e.paidBy, e.amount);
    if Distributes(e) then DebitSplits(credited, e, e.splits) else credited
  }

  function ApplyExpenses(l: Ledger, es: seq<Expense>): Ledger
  {
    if es == [] then l else ApplyExpense(ApplyExpenses(l, es[..|es| - 1]), es[|es| - 1])
  }

  /** `group.members.forEach(member => ensureUser(member))`. */
  function InitMembers(ms: seq<UserId>): Ledger
  {
    if ms == [] then Ledger([], map[]) else EnsureUser(InitMembers(ms[..|ms| - 1]), ms[|ms| - 1])
  }

  /** The dictionary as it stands before formatting. */
  function RawBalances(members: seq<UserId>, expenses: seq<Expense>): Ledger
  {
    ApplyExpenses(InitMembers(members), expenses)
  }

  /**
   * `Number(x.toFixed(2))` on an exact value: the nearest multiple of 0.01, a tie
   * going away from zero (`toFixed` rounds the magnitude and keeps the sign).
   */
  function RoundCents(x: real): real
  {
    if x < 0.0 then -RoundMagnitude(-x) else RoundMagnitude(x)
  }

  function RoundMagnitude(y: real): real
  {
    ((y * 100.0 + 0.5).Floor as real) / 100.0
  }

  datatype BalanceEntry = BalanceEntry(userId: UserId, amount: real)

  /** `Object.keys(balances).map(userId => ({ userId, amount: ... }))`. */
  function Format(l: Ledger): seq<BalanceEntry>
  {
    seq(|l.keys|, i requires 0 <= i < |l.keys| => BalanceEntry(l.keys[i], RoundCents(Get(l, l.keys[i]))))
  }

  /** `Expense.find({ group: groupId })`, in collection order. */
  function ExpensesOf(store: seq<Expense>, g: GroupId): (r: seq<Expense>)
    ensures forall e :: e in r <==> e in store && e.group == g
    ensures forall e :: Count(r, e) == if e.group == g then Count(store, e) else 0
  {
    if store == [] then []
    else
      var p, last := store[..|store| - 1], store[|store| - 1];
      var front := ExpensesOf(p, g);
      var r := front + (if last.group == g then [last] else []);
      assert forall e :: Count(r, e) == Count(front, e) + (if last.group == g && last == e then 1 else 0) by {
        if last.group == g {
          assert r[..|r| - 1] == front;
        } else {
          assert r == front;
        }
      }
      r
  }

  /** `ensureUser(id); balances[id] += x` on the handler's local dictionary. */
  method AddInPlace(keys: seq<UserId>, balances: map<UserId, real>, id: UserId, x: real)
    returns (keys': seq<UserId>, balances': map<UserId, real>)
    ensures Ledger(keys', balances') == Add(Ledger(keys, balances), id, x)
  {
    keys', balances' := keys, balances;
    if id !in balances' {
      keys' := keys' + [id];
      balances' := balances'[id := 0.0];
    }
    balances' := balances'[id := balances'[id] + x];
  }

  /** The EQUAL branch with `splitCount > 0`: every split user is debited `amount / splitCount`. */
  method DebitEqual(keys: seq<UserId>, balances: map<UserId, real>, expense: Expense)
    returns (keys': seq<UserId>, balances': map<UserId, real>)
    requires expense.splitType == EQUAL && |expense.splits| > 0
    ensures Ledger(keys', balances') == DebitSplits(Ledger(keys, balances), expense, expense.splits)
  {
    var splitCount := |expense.splits|;
    var splitAmount := expense.amount / (splitCount as real);
    keys', balances' := keys, balances;
    for k := 0 to splitCount
      invariant Ledger(keys', balances') == DebitSplits(Ledger(keys, balances), expense, expense.splits[..k])
    {
      EqualAmount(expense, expense.splits[k]);
      DebitPrefix(Ledger(keys, balances), expense, k, splitAmount);
      keys', balances' := AddInPlace(keys', balances', expense.splits[k].user, -splitAmount);
    }
    assert expense.splits[..splitCount] == expense.splits;
  }

  /** The PERCENTAGE branch: each split user is debited `amount * (percentage || 0) / 100`. */
  method DebitPercentage(keys: seq<UserId>, balances: map<UserId, real>, expense: Expense)
    returns (keys': seq<UserId>, balances': map<UserId, real>)
    requires expense.splitType == PERCENTAGE
    ensures Ledger(keys', balances') == DebitSplits(Ledger(keys, balances), expense, expense.splits)
  {
    keys', balances' := keys, balances;
    for k := 0 to |expense.splits|
      invariant Ledger(keys', balances') == DebitSplits(Ledger(keys, balances), expense, expense.splits[..k])
    {
      var split := expense.splits[k];
      var splitAmount := (expense.amount * OrZero(split.percentage)) / 100.0;
      PercentageAmount(expense, split);
      DebitPrefix(Ledger(keys, balances), expense, k, splitAmount);
      keys', balances' := AddInPlace(keys', balances', split.user, -splitAmount);
    }
    assert expense.splits[..|expense.splits|] == expense.splits;
  }

  /** The SHARES branch with `totalShares > 0`: each split user is debited `amount * (shares || 0) / totalShares`. */
  method DebitShares(keys: seq<UserId>, balances: map<UserId, real>, expense: Expense, totalShares: real)
    returns (keys': seq<UserId>, balances': map<UserId, real>)
    requires expense.splitType == SHARES && totalShares == TotalShares(expense.splits) && totalShares > 0.0
    ensures Ledger(keys', balances') == DebitSplits(Ledger(keys, balances), expense, expense.splits)
  {
    keys', balances' := keys, balances;
    for k := 0 to |expense.splits|
      invariant Ledger(keys', balances') == DebitSplits(Ledger(keys, balances), expense, expense.splits[..k])
    {
      var split := expense.splits[k];
      var splitAmount := (expense.amount * OrZero(split.shares)) / totalShares;
      SharesAmount(expense, split);
      DebitPrefix(Ledger(keys, balances), expense, k, splitAmount);
      keys', balances' := AddInPlace(keys', balances', split.user, -splitAmount);
    }
    assert expense.splits[..|expense.splits|] == expense.splits;
  }

  /** The EXACT branch: each split user is debited `amount || 0`. */
  method DebitExact(keys: seq<UserId>, balances: map<UserId, real>, expense: Expense)
    returns (keys': seq<UserId>, balances': map<UserId, real>)
    requires expense.splitType == EXACT
    ensures Ledger(keys', balances') == DebitSplits(Ledger(keys, balances), expense, expense.splits)
  {
    keys', balances' := keys, balances;
    for k := 0 to |expense.splits|
      invariant Ledger(keys', balances') == DebitSplits(Ledger(keys, balances), expense, expense.splits[..k])
    {
      var split := expense.splits[k];
      var splitAmount := OrZero(split.amount);
      ExactAmount(expense, split);
      DebitPrefix(Ledger(keys, balances), expense, k, splitAmount);
      keys', balances' := AddInPlace(keys', balances', split.user, -splitAmount);
    }
    assert expense.splits[..|expense.splits|] == expense.splits;
  }

  lemma EqualAmount(e: Expense, s: Split)
    requires e.splitType == EQUAL && |e.splits| > 0
    ensures SplitAmount(e, s) == e.amount / (|e.splits| as real)
  {
  }

  lemma PercentageAmount(e: Expense, s: Split)
    requires e.splitType == PERCENTAGE
    ensures SplitAmount(e, s) == (e.amount * OrZero(s.percentage)) / 100.0
  {
    assert |PERCENTAGE| != |EQUAL|;
  }

  lemma ExactAmount(e: Expense, s: Split)
    requires e.splitType == EXACT
    ensures SplitAmount(e, s) == OrZero(s.amount)
  {
    assert EXACT[1] != EQUAL[1] && |EXACT| != |SHARES| && |EXACT| != |PERCENTAGE|;
  }

  lemma SharesAmount(e: Expense, s: Split)
    requires e.splitType == SHARES && TotalShares(e.splits) > 0.0
    ensures SplitAmount(e, s) == (e.amount * OrZero(s.shares)) / TotalShares(e.splits)
  {
    assert |SHARES| != |EQUAL| && |SHARES| != |PERCENTAGE|;
  }

  /** Debiting one more split of the list, by its splitAmount `x`, extends the fold by one step. */
  lemma DebitPrefix(l: Ledger, e: Expense, k: nat, x: real)
    requires k < |e.splits| && x == SplitAmount(e, e.splits[k])
    ensures DebitSplits(l, e, e.splits[..k + 1]) == Add(DebitSplits(l, e, e.splits[..k]), e.splits[k].user, -x)
  {
    assert e.splits[..k + 1][..k] == e.splits[..k];
  }

  /**
   * getGroupBalances: 404 for a missing group; otherwise the formatted balances of
   * the group's current members and of everyone its expenses touch.
   */
  method GetGroupBalances(groups: map<GroupId, Group>, groupId: GroupId, store: seq<Expense>)
    returns (r: Response<seq<BalanceEntry>>)
    ensures groupId !in groups ==> r == Err(404, "Group not found")
    ensures groupId in groups ==>
      r == Ok(Format(RawBalances(groups[groupId].members, ExpensesOf(store, groupId))))
  {
    if groupId !in groups {
      return Err(404, "Group not found");
    }
    var members := groups[groupId].members;
    var expenses := ExpensesOf(store, groupId);
    var keys: seq<UserId> := [];
    var balances: map<UserId, real> := map[];

    for i := 0 to |members|
      invariant Ledger(keys, balances) == InitMembers(members[..i])
    {
      var id := members[i];
      if id !in balances {
        keys := keys + [id];
        balances := balances[id := 0.0];
      }
      assert members[..i + 1][..i] == members[..i];
    }
    assert members[..|members|] == members;

    for j := 0 to |expenses|
      invariant Ledger(keys, balances) == ApplyExpenses(InitMembers(members), expenses[..j])
    {
      var expense := expenses[j];
      ghost var before := Ledger(keys, balances);
      keys, balances := AddInPlace(keys, balances, expense.paidBy, expense.amount);
      if expense.splitType == EQUAL {
        if |expense.splits| > 0 {
          keys, balances := DebitEqual(keys, balances, expense);
        }
      } else if expense.splitType == PERCENTAGE {
        keys, balances := DebitPercentage(keys, balances, expense);
      } else if expense.splitType == SHARES {
        var totalShares := TotalShares(expense.splits);
        if totalShares > 0.0 {
          keys, balances := DebitShares(keys, balances, expense, totalShares);
        }
      } else if expense.splitType == EXACT {
        keys, balances := DebitExact(keys, balances, expense);
      }
      assert Ledger(keys, balances) == ApplyExpense(before, expense);
      assert expenses[..j + 1][..j] == expenses[..j];
    }
    assert expenses[..|expenses|] == expenses;
    r := Ok(Format(Ledger(keys, balances)));
  }
}
