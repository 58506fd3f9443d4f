/**
 * The expense handlers of server/src/controllers/expenseController.ts: `addExpense`
 * (guards, write-time split validation, the EQUAL member default and the stored
 * defaults) and `getGroupExpenses` (guards and the group's expenses).
 *
 * The expense collection is an ExpenseStore whose `expenses` sequence grows by one
 * on every created expense. A request field the body leaves out is `None` (splits)
 * or "" (splitType); both read as falsy in the handler.
 */
module ExpenseController {
  import opened Common
  import opened Models
  import opened Balances
  import opened BalanceProofs

  datatype ExpenseRequest = ExpenseRequest(
    description: string,
    amount: real,
    groupId: GroupId,
    splitType: string,
    splits: Option<seq<Split>>)

  /**
   * The outcome of the per-type validation: passed, rejected with a 400 message, or
   * thrown (`splits.reduce` on a missing `splits`), which the handler turns into a 500.
   */
  datatype SplitCheck = Pass | Reject(message: string) | Crash

  const PercentageMessage: string := "Percentages must add up to 100"
  const ExactMessage: string := "Split amounts must equal total amount"

  /** The PERCENTAGE / EXACT total checks; every other type passes. */
  function CheckSplits(req: ExpenseRequest): (r: SplitCheck)
    ensures r.Reject? ==> r.message == PercentageMessage || r.message == ExactMessage
    ensures r.Crash? ==> req.splits.None?
  {
    if req.splitType == PERCENTAGE then
      if req.splits.None? then Crash
      else if Abs(TotalPercentage(req.splits.value) - 100.0) > 0.01 then Reject(PercentageMessage)
      else Pass
    else if req.splitType == EXACT then
      if req.splits.None? then Crash
      else if Abs(TotalAmount(req.splits.value) - req.amount) > 0.01 then Reject(ExactMessage)
      else Pass
    else
      Pass
  }

  /** `group.members.map(m => ({ user: m }))`. */
  function DefaultSplits(members: seq<UserId>): (r: seq<Split>)
    ensures |r| == |members|
    ensures forall i :: 0 <= i < |r| ==> r[i] == UserOnly(members[i])
  {
    seq(|members|, i requires 0 <= i < |members| => UserOnly(members[i]))
  }

  /** `splitType || 'EQUAL'`. */
  function StoredSplitType(t: string): string
  {
    if t == "" then EQUAL else t
  }

  /**
   * `finalSplits`: the member default when the REQUEST type is 'EQUAL' and the
   * splits are missing or empty; otherwise the request's splits, a missing list being
   * stored as the schema's empty array.
   */
  function FinalSplits(members: seq<UserId>, req: ExpenseRequest): seq<Split>
  {
    if req.splitType == EQUAL && (req.splits.None? || |req.splits.value| == 0) then DefaultSplits(members)
    else if req.splits.Some? then req.splits.value
    else []
  }

  /** What the schema lets `Expense.create` store: a non-empty description and a type of the enum. */
  predicate Storable(e: Expense)
  {
    e.description != "" && IsSchemaSplitType(e.splitType)
  }

  /** The document `addExpense` builds; `paidBy` is always the caller. */
  function StoredExpense(group: Group, caller: UserId, req: ExpenseRequest): Expense
  {
    Expense(req.description, req.amount, caller, req.groupId, StoredSplitType(req.splitType), FinalSplits(group.members, req))
  }

  /** addExpense's reply, guard by guard. */
  function AddExpenseOutcome(groups: map<GroupId, Group>, caller: UserId, req: ExpenseRequest): Response<Expense>
  {
    if req.groupId !in groups then Err(404, "Group not found")
    else if caller !in groups[req.groupId].members then Err(403, "Not authorized")
    else if CheckSplits(req).Crash? then Err(500, "Server error")
    else if CheckSplits(req).Reject? then Err(400, CheckSplits(req).message)
    else if !Storable(StoredExpense(groups[req.groupId], caller, req)) then Err(500, "Server error")
    else Created(StoredExpense(groups[req.groupId], caller, req))
  }

  /** The expense collection. */
  class ExpenseStore {
    var expenses: seq<Expense>

    constructor ()
      ensures expenses == []
    {
      expenses := [];
    }

    /** addExpense: the reply, and the collection grows by the created document only. */
    method AddExpense(groups: map<GroupId, Group>, caller: UserId, req: ExpenseRequest) returns (r: Response<Expense>)
      modifies this
      ensures r == AddExpenseOutcome(groups, caller, req)
      ensures expenses == old(expenses) + (if r.Created? then [r.value] else [])
    {
      if req.groupId !in groups {
        return Err(404, "Group not found");
      }
      var group := groups[req.groupId];
      if caller !in group.members {
        return Err(403, "Not authorized");
      }
      var check := CheckSplits(req);
      if check.Crash? {
        return Err(500, "Server error");
      }
      if check.Reject? {
        return Err(400, check.message);
      }
      var finalSplits := req.splits;
      if req.splitType == EQUAL && (req.splits.None? || |req.splits.value| == 0) {
        finalSplits := Some(DefaultSplits(group.members));
      }
      var stored := if finalSplits.Some? then finalSplits.value else [];
      var expense := Expense(req.description, req.amount, caller, req.groupId, StoredSplitType(req.splitType), stored);
      if !Storable(expense) {
        return Err(500, "Server error");
      }
      expenses := expenses + [expense];
      r := Created(expense);
    }

    /** getGroupExpenses: 404, then 403 for a non-member, then the group's expenses. */
    function GetGroupExpenses(groups: map<GroupId, Group>, caller: UserId, groupId: GroupId): (r: Response<seq<Expense>>)
      reads this
      ensures groupId !in groups <==> r == Err(404, "Group not found")
      ensures (groupId in groups && caller !in groups[groupId].members) <==> r == Err(403, "Not authorized")
      ensures r.Ok? ==> forall e :: e in r.value <==> e in expenses && e.group == groupId
      ensures r.Ok? ==> forall e :: Count(r.value, e) == if e.group == groupId then Count(expenses, e) else 0
      ensures !r.Created?
    {
      if groupId !in groups then Err(404, "Group not found")
      else if caller !in groups[groupId].members then Err(403, "Not authorized")
      else Ok(ExpensesOf(expenses, groupId))
    }
  }

  // ---------------------------------------------------------------------------
  // Properties of addExpense
  // ---------------------------------------------------------------------------

  /**
   * Guard order: a missing group is 404; a caller outside the group 403; a failed
   * total check 400; otherwise the expense is created unless the total check threw or
   * the schema refuses the document (500).
   */
  lemma AddExpenseGuards(groups: map<GroupId, Group>, caller: UserId, req: ExpenseRequest)
    ensures var r := AddExpenseOutcome(groups, caller, req);
      && (r == Err(404, "Group not found") <==> req.groupId !in groups)
      && (r == Err(403, "Not authorized") <==> req.groupId in groups && caller !in groups[req.groupId].members)
      && (r.Err? && r.code == 400 <==>
            req.groupId in groups && caller in groups[req.groupId].members && CheckSplits(req).Reject?)
      && (r.Created? <==>
            && req.groupId in groups && caller in groups[req.groupId].members && CheckSplits(req) == Pass
            && req.description != "" && IsSchemaSplitType(StoredSplitType(req.splitType)))
  {
  }

  /** PERCENTAGE is rejected exactly when the percentages (missing ones as 0) miss 100 by more than 0.01. */
  lemma PercentageValidation(req: ExpenseRequest)
    requires req.splitType == PERCENTAGE && req.splits.Some?
    ensures CheckSplits(req) == Reject(PercentageMessage) <==> Abs(TotalPercentage(req.splits.value) - 100.0) > 0.01
    ensures CheckSplits(req) == Pass <==> Abs(TotalPercentage(req.splits.value) - 100.0) <= 0.01
  {
  }

  /** EXACT is rejected exactly when the split amounts miss the expense amount by more than 0.01. */
  lemma ExactValidation(req: ExpenseRequest)
    requires req.splitType == EXACT && req.splits.Some?
    ensures CheckSplits(req) == Reject(ExactMessage) <==> Abs(TotalAmount(req.splits.value) - req.amount) > 0.01
    ensures CheckSplits(req) == Pass <==> Abs(TotalAmount(req.splits.value) - req.amount) <= 0.01
  {
  }

  /** EQUAL, SHARES and every other request type pass validation whatever their splits. */
  lemma OtherTypesPass(req: ExpenseRequest)
    requires req.splitType != PERCENTAGE && req.splitType != EXACT
    ensures CheckSplits(req) == Pass
  {
  }

  /** The created document: payer the caller, the request's own fields, the defaulted type and splits. */
  lemma CreatedShape(groups: map<GroupId, Group>, caller: UserId, req: ExpenseRequest)
    requires AddExpenseOutcome(groups, caller, req).Created?
    ensures var e := AddExpenseOutcome(groups, caller, req).value;
      && e.paidBy == caller && e.group == req.groupId
      && e.description == req.description && e.amount == req.amount
      && e.splitType == (if req.splitType == "" then EQUAL else req.splitType)
      && (req.splitType == EQUAL && (req.splits.None? || req.splits.value == []) ==>
            e.splits == DefaultSplits(groups[req.groupId].members))
      && (!(req.splitType == EQUAL && (req.splits.None? || req.splits.value == [])) ==>
            e.splits == (if req.splits.Some? then req.splits.value else []))
  {
  }

  /**
   * The member default: one `{ user }` entry per group member, in roster order,
   * carrying no amount, percentage or shares.
   */
  lemma DefaultSplitsRoster(members: seq<UserId>)
    ensures |DefaultSplits(members)| == |members|
    ensures forall i :: 0 <= i < |members| ==>
      && DefaultSplits(members)[i].user == members[i]
      && DefaultSplits(members)[i].amount.None?
      && DefaultSplits(members)[i].percentage.None?
      && DefaultSplits(members)[i].shares.None?
  {
  }

  /**
   * An omitted type is stored as EQUAL, but the member default tests the request's
   * type, so missing or empty splits stay empty.
   */
  lemma OmittedTypeKeepsEmptySplits(groups: map<GroupId, Group>, caller: UserId, req: ExpenseRequest)
    requires req.splitType == "" && (req.splits.None? || req.splits.value == [])
    requires AddExpenseOutcome(groups, caller, req).Created?
    ensures AddExpenseOutcome(groups, caller, req).value.splitType == EQUAL
    ensures AddExpenseOutcome(groups, caller, req).value.splits == []
  {
  }

  /** A created request of type EQUAL always has splits (the caller is a member), so it moves the balance total by 0. */
  lemma CreatedEqualIsZeroSum(groups: map<GroupId, Group>, caller: UserId, req: ExpenseRequest)
    requires req.splitType == EQUAL
    requires AddExpenseOutcome(groups, caller, req).Created?
    ensures |AddExpenseOutcome(groups, caller, req).value.splits| > 0
    ensures TotalChange(AddExpenseOutcome(groups, caller, req).value) == 0.0
  {
    var members := groups[req.groupId].members;
    if req.splits.None? || |req.splits.value| == 0 {
      assert caller in members;
      assert |DefaultSplits(members)| == |members| > 0;
    }
  }

  /**
   * What the calculator can rely on: a created PERCENTAGE expense moves the balance
   * total by at most |amount| / 10000, an EXACT one by at most 0.01.
   */
  lemma CreatedWithinTolerance(groups: map<GroupId, Group>, caller: UserId, req: ExpenseRequest)
    requires AddExpenseOutcome(groups, caller, req).Created?
    ensures var e := AddExpenseOutcome(groups, caller, req).value;
      && (e.splitType == PERCENTAGE ==> Abs(TotalChange(e)) <= Abs(e.amount) / 10000.0)
      && (e.splitType == EXACT ==> Abs(TotalChange(e)) <= 0.01)
  {
    var e := AddExpenseOutcome(groups, caller, req).value;
    if e.splitType == PERCENTAGE {
      assert Balanced(e);
      BalancedDrift(e);
    } else if e.splitType == EXACT {
      assert Balanced(e);
      BalancedDrift(e);
    }
  }

  /**
   * The write-time checks say nothing about SHARES: a SHARES expense whose shares sum
   * to 0 or less is created, is not Balanced, and moves the balance total by its whole
   * amount, since only the payer is credited.
   */
  lemma CreatedSharesUnbalanced(groups: map<GroupId, Group>, caller: UserId, req: ExpenseRequest)
    requires req.groupId in groups && caller in groups[req.groupId].members && req.description != ""
    requires req.splitType == SHARES && req.splits.Some? && TotalShares(req.splits.value) <= 0.0
    ensures AddExpenseOutcome(groups, caller, req).Created?
    ensures var e := AddExpenseOutcome(groups, caller, req).value;
      && !Balanced(e)
      && TotalChange(e) == e.amount
      && Delta(e, caller) == e.amount
      && Touched(e) == {caller}
  {
    OtherTypesPass(req);
    assert IsSchemaSplitType(SHARES);
    var e := AddExpenseOutcome(groups, caller, req).value;
    assert e.splitType == SHARES && e.splits == req.splits.value;
    assert SHARES != EQUAL && SHARES != PERCENTAGE && SHARES != EXACT by {
      assert |SHARES| != |EQUAL| && |SHARES| != |PERCENTAGE| && |SHARES| != |EXACT|;
    }
    ExpenseRuleEffect(e, caller);
  }

  // ---------------------------------------------------------------------------
  // The settlement request of SettleUpModal
  // ---------------------------------------------------------------------------

  /**
   * The body SettleUpModal posts: no `splitType` and no `splits` (the payee travels
   * in a `splitBetween` field the handler never reads).
   */
  function SettlementRequest(groupId: GroupId, amount: real): ExpenseRequest
  {
    ExpenseRequest("Settlement", amount, groupId, "", None)
  }

  /**
   * As written, a settlement is stored as EQUAL with no splits: the calculator credits
   * the payer and debits nobody, so the payee's balance does not move and the balance
   * total grows by the amount.
   */
  lemma SettlementAsWritten(groups: map<GroupId, Group>, caller: UserId, groupId: GroupId, amount: real, payee: UserId)
    requires groupId in groups && caller in groups[groupId].members && payee != caller
    ensures AddExpenseOutcome(groups, caller, SettlementRequest(groupId, amount)).Created?
    ensures var e := AddExpenseOutcome(groups, caller, SettlementRequest(groupId, amount)).value;
      && e.splitType == EQUAL && e.splits == []
      && Delta(e, payee) == 0.0
      && Delta(e, caller) == amount
      && TotalChange(e) == amount
  {
    var e := AddExpenseOutcome(groups, caller, SettlementRequest(groupId, amount)).value;
    assert Named(e.splits, payee) == [];
  }

  /** The settlement body with the payee as the single EQUAL split. */
  function SettlementRequestFixed(groupId: GroupId, amount: real, payee: UserId): ExpenseRequest
  {
    ExpenseRequest("Settlement", amount, groupId, EQUAL, Some([UserOnly(payee)]))
  }

  /** Corrected, the payer gains the amount, the payee loses it, and the total does not move. */
  lemma SettlementFixed(groups: map<GroupId, Group>, caller: UserId, groupId: GroupId, amount: real, payee: UserId)
    requires groupId in groups && caller in groups[groupId].members && payee != caller
    ensures AddExpenseOutcome(groups, caller, SettlementRequestFixed(groupId, amount, payee)).Created?
    ensures var e := AddExpenseOutcome(groups, caller, SettlementRequestFixed(groupId, amount, payee)).value;
      && e.splits == [UserOnly(payee)]
      && Delta(e, payee) == -amount
      && Delta(e, caller) == amount
      && TotalChange(e) == 0.0
  {
    var r := AddExpenseOutcome(groups, caller, SettlementRequestFixed(groupId, amount, payee));
    assert r == Created(Expense("Settlement", amount, caller, groupId, EQUAL, [UserOnly(payee)]));
    SingleEqualSplit(r.value, payee);
  }

  /** An EQUAL expense with one split: the split user owes the whole amount to the payer. */
  lemma SingleEqualSplit(e: Expense, payee: UserId)
    requires e.splitType == EQUAL && e.splits == [UserOnly(payee)] && payee != e.paidBy
    ensures Delta(e, payee) == -e.amount
    ensures Delta(e, e.paidBy) == e.amount
    ensures TotalChange(e) == 0.0
  {
    assert e.splits[..0] == [];
    assert Named(e.splits, payee) == [UserOnly(payee)];
    assert Named(e.splits, e.paidBy) == [];
    assert SumSplitAmounts(e, [UserOnly(payee)]) == e.amount by {
      assert [UserOnly(payee)][..0] == [];
    }
  }
}
