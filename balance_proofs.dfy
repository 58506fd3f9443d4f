/**
 * What the balance calculator of balances.dfy guarantees: the closed-form effect of
 * one expense on every user, the set of reported ids, how the balance total moves
 * per split rule, and that the order of the expenses does not matter.
 */
module BalanceProofs {
  import opened Common
  import opened Models
  import opened Balances

  // ---------------------------------------------------------------------------
  // Reference definitions: what one expense does to one user
  // ---------------------------------------------------------------------------

  /** The splits of `ss` that name `u`, in order. */
  function Named(ss: seq<Split>, u: UserId): seq<Split>
  {
    if ss == [] then []
    else Named(ss[..|ss| - 1], u) + (if ss[|ss| - 1].user == u then [ss[|ss| - 1]] else [])
  }

  function SplitUsers(ss: seq<Split>): set<UserId>
  {
    if ss == [] then {} else SplitUsers(ss[..|ss| - 1]) + {ss[|ss| - 1].user}
  }

  /** The sum of the splitAmounts the calculator computes for the entries of `ss`. */
  function SumSplitAmounts(e: Expense, ss: seq<Split>): real
  {
    if ss == [] then 0.0 else SumSplitAmounts(e, ss[..|ss| - 1]) + SplitAmount(e, ss[|ss| - 1])
  }

  /** The payer's credit. */
  function Credit(e: Expense, u: UserId): real
  {
    if u == e.paidBy then e.amount else 0.0
  }

  /** The net change expense `e` makes to the balance of `u`. */
  function Delta(e: Expense, u: UserId): real
  {
    Credit(e, u) - (if Distributes(e) then SumSplitAmounts(e, Named(e.splits, u)) else 0.0)
  }

  /** The ids expense `e` adds to the dictionary. */
  function Touched(e: Expense): set<UserId>
  {
    {e.paidBy} + (if Distributes(e) then SplitUsers(e.splits) else {})
  }

  function TotalDelta(es: seq<Expense>, u: UserId): real
  {
    if es == [] then 0.0 else TotalDelta(es[..|es| - 1], u) + Delta(es[|es| - 1], u)
  }

  function TouchedAll(es: seq<Expense>): set<UserId>
  {
    if es == [] then {} else TouchedAll(es[..|es| - 1]) + Touched(es[|es| - 1])
  }

  /** The sum of the balances of a dictionary, over its keys. */
  function Total(l: Ledger): real
  {
    SumOver(l.keys, l)
  }

  function SumOver(ks: seq<UserId>, l: Ledger): real
  {
    if ks == [] then 0.0 else SumOver(ks[..|ks| - 1], l) + Get(l, ks[|ks| - 1])
  }

  /**
   * How much expense `e` moves the sum of all balances, rule by rule: the payer's
   * credit minus everything the splits take.
   */
  function TotalChange(e: Expense): real
  {
    if e.splitType == EQUAL then
      (if |e.splits| > 0 then 0.0 else e.amount)
    else if e.splitType == PERCENTAGE then
      e.amount - e.amount * TotalPercentage(e.splits) / 100.0
    else if e.splitType == SHARES then
      (if TotalShares(e.splits) > 0.0 then 0.0 else e.amount)
    else if e.splitType == EXACT then
      e.amount - TotalAmount(e.splits)
    else
      e.amount
  }

  function SumTotalChange(es: seq<Expense>): real
  {
    if es == [] then 0.0 else SumTotalChange(es[..|es| - 1]) + TotalChange(es[|es| - 1])
  }

  // ---------------------------------------------------------------------------
  // One step at a time
  // ---------------------------------------------------------------------------

  predicate ExtendsKeys(l: Ledger, r: Ledger)
  {
    |l.keys| <= |r.keys| && r.keys[..|l.keys|] == l.keys
  }

  lemma EnsureUserEffect(l: Ledger, u: UserId)
    ensures Valid(l) ==> Valid(EnsureUser(l, u))
    ensures forall v :: Get(EnsureUser(l, u), v) == Get(l, v)
    ensures forall v :: v in EnsureUser(l, u).bal <==> v in l.bal || v == u
    ensures ExtendsKeys(l, EnsureUser(l, u))
  {
    if u !in l.bal && Valid(l) {
      var r := EnsureUser(l, u);
      assert u !in l.keys;
      forall i, j | 0 <= i < j < |r.keys| ensures r.keys[i] != r.keys[j] {
        if j == |l.keys| { assert r.keys[i] == l.keys[i]; }
      }
    }
  }

  lemma AddEffect(l: Ledger, u: UserId, x: real)
    ensures Valid(l) ==> Valid(Add(l, u, x))
    ensures Get(Add(l, u, x), u) == Get(l, u) + x
    ensures forall v :: v != u ==> Get(Add(l, u, x), v) == Get(l, v)
    ensures forall v :: v in Add(l, u, x).bal <==> v in l.bal || v == u
    ensures ExtendsKeys(l, Add(l, u, x))
  {
    EnsureUserEffect(l, u);
  }

  lemma DebitSplitsEffect(l: Ledger, e: Expense, ss: seq<Split>)
    ensures Valid(l) ==> Valid(DebitSplits(l, e, ss))
    ensures forall v :: Get(DebitSplits(l, e, ss), v) == Get(l, v) - SumSplitAmounts(e, Named(ss, v))
    ensures forall v :: v in DebitSplits(l, e, ss).bal <==> v in l.bal || v in SplitUsers(ss)
    ensures ExtendsKeys(l, DebitSplits(l, e, ss))
  {
    if Valid(l) {
      DebitSplitsValid(l, e, ss);
    }
    forall v ensures Get(DebitSplits(l, e, ss), v) == Get(l, v) - SumSplitAmounts(e, Named(ss, v)) {
      DebitSplitsGet(l, e, ss, v);
    }
    DebitSplitsDomain(l, e, ss);
    DebitSplitsExtends(l, e, ss);
  }

  lemma {:induction false} DebitSplitsValid(l: Ledger, e: Expense, ss: seq<Split>)
    requires Valid(l)
    ensures Valid(DebitSplits(l, e, ss))
  {
    if ss != [] {
      var p, s := ss[..|ss| - 1], ss[|ss| - 1];
      DebitSplitsValid(l, e, p);
      AddEffect(DebitSplits(l, e, p), s.user, -SplitAmount(e, s));
    }
  }

  lemma {:induction false} DebitSplitsGet(l: Ledger, e: Expense, ss: seq<Split>, v: UserId)
    ensures Get(DebitSplits(l, e, ss), v) == Get(l, v) - SumSplitAmounts(e, Named(ss, v))
  {
    if ss != [] {
      var p, s := ss[..|ss| - 1], ss[|ss| - 1];
      DebitSplitsGet(l, e, p, v);
      AddEffect(DebitSplits(l, e, p), s.user, -SplitAmount(e, s));
      if s.user == v {
        assert Named(ss, v) == Named(p, v) + [s];
        assert (Named(p, v) + [s])[..|Named(p, v)|] == Named(p, v);
      } else {
        assert Named(ss, v) == Named(p, v);
      }
    }
  }

  lemma {:induction false} DebitSplitsDomain(l: Ledger, e: Expense, ss: seq<Split>)
    ensures forall v :: v in DebitSplits(l, e, ss).bal <==> v in l.bal || v in SplitUsers(ss)
  {
    if ss != [] {
      var p, s := ss[..|ss| - 1], ss[|ss| - 1];
      DebitSplitsDomain(l, e, p);
      AddEffect(DebitSplits(l, e, p), s.user, -SplitAmount(e, s));
    }
  }

  lemma {:induction false} DebitSplitsExtends(l: Ledger, e: Expense, ss: seq<Split>)
    ensures ExtendsKeys(l, DebitSplits(l, e, ss))
  {
    if ss != [] {
      var p, s := ss[..|ss| - 1], ss[|ss| - 1];
      var mid := DebitSplits(l, e, p);
      DebitSplitsExtends(l, e, p);
      AddEffect(mid, s.user, -SplitAmount(e, s));
      var r := DebitSplits(l, e, ss);
      assert r.keys[..|l.keys|] == r.keys[..|mid.keys|][..|l.keys|];
    }
  }

  /**
   * One expense: the payer is credited the full amount, each split user loses its
   * splitAmounts when the rule distributes, nobody else changes, and the only new
   * keys are the payer and (when the rule distributes) the split users, appended.
   */
  lemma ApplyExpenseEffect(l: Ledger, e: Expense)
    ensures Valid(l) ==> Valid(ApplyExpense(l, e))
    ensures forall v :: Get(ApplyExpense(l, e), v) == Get(l, v) + Delta(e, v)
    ensures forall v :: v in ApplyExpense(l, e).bal <==> v in l.bal || v in Touched(e)
    ensures e.paidBy in ApplyExpense(l, e).bal
    ensures ExtendsKeys(l, ApplyExpense(l, e))
  {
    var credited := Add(l, e.paidBy, e.amount);
    AddEffect(l, e.paidBy, e.amount);
    if Distributes(e) {
      DebitSplitsEffect(credited, e, e.splits);
    }
  }

  lemma {:induction false} ApplyExpensesEffect(l: Ledger, es: seq<Expense>)
    ensures Valid(l) ==> Valid(ApplyExpenses(l, es))
    ensures forall v :: Get(ApplyExpenses(l, es), v) == Get(l, v) + TotalDelta(es, v)
    ensures forall v :: v in ApplyExpenses(l, es).bal <==> v in l.bal || v in TouchedAll(es)
    ensures ExtendsKeys(l, ApplyExpenses(l, es))
  {
    if es != [] {
      var p := es[..|es| - 1];
      ApplyExpensesEffect(l, p);
      ApplyExpenseEffect(ApplyExpenses(l, p), es[|es| - 1]);
    }
  }

  /** Starting the dictionary: every member at 0, each once, in roster order. */
  lemma InitMembersEffect(ms: seq<UserId>)
    ensures Valid(InitMembers(ms))
    ensures forall v :: Get(InitMembers(ms), v) == 0.0
    ensures forall v :: v in InitMembers(ms).bal <==> v in ms
    ensures NoDuplicates(ms) ==> InitMembers(ms).keys == ms
  {
    InitMembersTracks(ms);
    if NoDuplicates(ms) {
      InitMembersKeys(ms);
    }
  }

  lemma {:induction false} InitMembersTracks(ms: seq<UserId>)
    ensures Valid(InitMembers(ms))
    ensures forall v :: Get(InitMembers(ms), v) == 0.0
    ensures forall v :: v in InitMembers(ms).bal <==> v in ms
  {
    if ms != [] {
      var p, m := ms[..|ms| - 1], ms[|ms| - 1];
      InitMembersTracks(p);
      EnsureUserEffect(InitMembers(p), m);
      assert ms == p + [m];
    }
  }

  lemma {:induction false} InitMembersKeys(ms: seq<UserId>)
    requires NoDuplicates(ms)
    ensures InitMembers(ms).keys == ms
  {
    if ms != [] {
      var p, m := ms[..|ms| - 1], ms[|ms| - 1];
      NoDuplicatesPrefix(ms, |ms| - 1);
      InitMembersKeys(p);
      InitMembersTracks(p);
      assert m !in p by {
        forall i | 0 <= i < |p| ensures p[i] != m {
          assert ms[i] == p[i];
        }
      }
      assert ms == p + [m];
    }
  }

  // ---------------------------------------------------------------------------
  // The whole computation
  // ---------------------------------------------------------------------------

  lemma {:induction false} UntouchedDeltaZero(es: seq<Expense>, u: UserId)
    requires u !in TouchedAll(es)
    ensures TotalDelta(es, u) == 0.0
  {
    if es != [] {
      var e := es[|es| - 1];
      UntouchedDeltaZero(es[..|es| - 1], u);
      if Distributes(e) {
        NamedOutsideUsers(e.splits, u);
      }
    }
  }

  lemma {:induction false} NamedOutsideUsers(ss: seq<Split>, u: UserId)
    requires u !in SplitUsers(ss)
    ensures Named(ss, u) == []
  {
    if ss != [] {
      NamedOutsideUsers(ss[..|ss| - 1], u);
    }
  }

  /**
   * The unrounded dictionary: it holds exactly the current members, every payer and
   * every user of a split the calculator walked, each once, members first in roster
   * order; each balance is the sum of the per-expense changes, 0 for a member no
   * expense touches.
   */
  lemma RawBalancesClosedForm(ms: seq<UserId>, es: seq<Expense>)
    ensures Valid(RawBalances(ms, es))
    ensures forall v :: v in RawBalances(ms, es).bal <==> v in ms || v in TouchedAll(es)
    ensures forall v :: Get(RawBalances(ms, es), v) == TotalDelta(es, v)
    ensures forall v :: v in ms && v !in TouchedAll(es) ==> Get(RawBalances(ms, es), v) == 0.0
    ensures NoDuplicates(ms) ==> |ms| <= |RawBalances(ms, es).keys| && RawBalances(ms, es).keys[..|ms|] == ms
  {
    InitMembersEffect(ms);
    ApplyExpensesEffect(InitMembers(ms), es);
    forall v | v in ms && v !in TouchedAll(es) ensures Get(RawBalances(ms, es), v) == 0.0 {
      UntouchedDeltaZero(es, v);
    }
  }

  function ReportedIds(out: seq<BalanceEntry>): seq<UserId>
  {
    seq(|out|, i requires 0 <= i < |out| => out[i].userId)
  }

  lemma RoundCentsClose(x: real)
    ensures Abs(RoundCents(x) - x) <= 0.005
  {
    var y := if x < 0.0 then -x else x;
    var f := (y * 100.0 + 0.5).Floor;
    assert (f as real) <= y * 100.0 + 0.5 < (f as real) + 1.0;
  }

  /** Formatting keeps the dictionary's key order and rounds each balance to the cent. */
  lemma FormatEntries(l: Ledger)
    ensures ReportedIds(Format(l)) == l.keys
    ensures forall i :: 0 <= i < |Format(l)| ==> Abs(Format(l)[i].amount - Get(l, Format(l)[i].userId)) <= 0.005
    ensures forall i :: 0 <= i < |Format(l)| && Get(l, Format(l)[i].userId) == 0.0 ==> Format(l)[i].amount == 0.0
  {
    var out := Format(l);
    forall i | 0 <= i < |out| ensures Abs(out[i].amount - Get(l, out[i].userId)) <= 0.005 {
      RoundCentsClose(Get(l, l.keys[i]));
    }
    assert RoundCents(0.0) == 0.0;
  }

  /**
   * The formatted response: one entry per id of the dictionary, no id twice; the ids
   * are the members, the payers and the walked split users; every amount is within
   * half a cent of that user's summed changes, and exactly 0 for an untouched member.
   */
  lemma FormattedReport(ms: seq<UserId>, es: seq<Expense>)
    ensures var out := Format(RawBalances(ms, es));
      && NoDuplicates(ReportedIds(out))
      && (forall v :: v in ReportedIds(out) <==> v in ms || v in TouchedAll(es))
      && (forall i :: 0 <= i < |out| ==> Abs(out[i].amount - TotalDelta(es, out[i].userId)) <= 0.005)
      && (forall i :: 0 <= i < |out| && out[i].userId !in TouchedAll(es) ==> out[i].amount == 0.0)
  {
    ReportIds(ms, es);
    ReportAmounts(ms, es);
    ReportUntouched(ms, es);
  }

  lemma ReportIds(ms: seq<UserId>, es: seq<Expense>)
    ensures NoDuplicates(ReportedIds(Format(RawBalances(ms, es))))
    ensures forall v :: v in ReportedIds(Format(RawBalances(ms, es))) <==> v in ms || v in TouchedAll(es)
  {
    RawBalancesClosedForm(ms, es);
    FormatEntries(RawBalances(ms, es));
  }

  lemma ReportAmounts(ms: seq<UserId>, es: seq<Expense>)
    ensures var out := Format(RawBalances(ms, es));
      forall i :: 0 <= i < |out| ==> Abs(out[i].amount - TotalDelta(es, out[i].userId)) <= 0.005
  {
    RawBalancesClosedForm(ms, es);
    FormatEntries(RawBalances(ms, es));
  }

  lemma ReportUntouched(ms: seq<UserId>, es: seq<Expense>)
    ensures var out := Format(RawBalances(ms, es));
      forall i :: 0 <= i < |out| && out[i].userId !in TouchedAll(es) ==> out[i].amount == 0.0
  {
    var l := RawBalances(ms, es);
    RawBalancesClosedForm(ms, es);
    FormatEntries(l);
    var out := Format(l);
    forall i | 0 <= i < |out| && out[i].userId !in TouchedAll(es) ensures Get(l, out[i].userId) == 0.0 {
      assert out[i].userId == l.keys[i];
    }
  }

  /** Batch computation equals the first batch plus the changes of the second. */
  lemma {:induction false} TotalDeltaAppend(a: seq<Expense>, b: seq<Expense>, u: UserId)
    ensures TotalDelta(a + b, u) == TotalDelta(a, u) + TotalDelta(b, u)
  {
    if b == [] {
      assert a + b == a;
    } else {
      assert (a + b)[..|a + b| - 1] == a + b[..|b| - 1];
      assert (a + b)[|a + b| - 1] == b[|b| - 1];
      TotalDeltaAppend(a, b[..|b| - 1], u);
    }
  }

  lemma Accumulation(ms: seq<UserId>, a: seq<Expense>, b: seq<Expense>, u: UserId)
    ensures Get(RawBalances(ms, a + b), u) == Get(RawBalances(ms, a), u) + Get(RawBalances([], b), u)
  {
    RawBalancesClosedForm(ms, a + b);
    RawBalancesClosedForm(ms, a);
    RawBalancesClosedForm([], b);
    TotalDeltaAppend(a, b, u);
  }

  // ---------------------------------------------------------------------------
  // The four split rules
  // ---------------------------------------------------------------------------

  /** Summing the EQUAL splitAmounts over any list of entries of `e`. */
  lemma {:induction false} EqualSum(e: Expense, ss: seq<Split>)
    requires e.splitType == EQUAL && |e.splits| > 0
    ensures SumSplitAmounts(e, ss) == (|ss| as real) * (e.amount / (|e.splits| as real))
  {
    if ss != [] {
      var c := e.amount / (|e.splits| as real);
      EqualSum(e, ss[..|ss| - 1]);
      assert SplitAmount(e, ss[|ss| - 1]) == c;
      assert ((|ss| - 1) as real) * c + c == (|ss| as real) * c;
    }
  }

  lemma {:induction false} PercentageSum(e: Expense, ss: seq<Split>)
    requires e.splitType == PERCENTAGE
    ensures SumSplitAmounts(e, ss) == e.amount * TotalPercentage(ss) / 100.0
  {
    if ss != [] {
      var p := ss[..|ss| - 1];
      var a, x, y := e.amount, TotalPercentage(p), OrZero(ss[|ss| - 1].percentage);
      PercentageSum(e, p);
      assert SplitAmount(e, ss[|ss| - 1]) == a * y / 100.0;
      assert a * (x + y) == a * x + a * y;
    }
  }

  lemma {:induction false} SharesSum(e: Expense, ss: seq<Split>)
    requires e.splitType == SHARES && TotalShares(e.splits) > 0.0
    ensures SumSplitAmounts(e, ss) == e.amount * TotalShares(ss) / TotalShares(e.splits)
  {
    if ss != [] {
      var p := ss[..|ss| - 1];
      var a, x, y, t := e.amount, TotalShares(p), OrZero(ss[|ss| - 1].shares), TotalShares(e.splits);
      SharesSum(e, p);
      assert SplitAmount(e, ss[|ss| - 1]) == a * y / t;
      assert TotalShares(ss) == x + y;
      ScaledSum(a, x, y, t);
    }
  }

  lemma ScaledSum(a: real, x: real, y: real, t: real)
    requires t > 0.0
    ensures a * (x + y) / t == a * x / t + a * y / t
  {
    assert a * (x + y) == a * x + a * y;
  }

  lemma {:induction false} ExactSum(e: Expense, ss: seq<Split>)
    requires e.splitType == EXACT
    ensures SumSplitAmounts(e, ss) == TotalAmount(ss)
  {
    if ss != [] {
      ExactSum(e, ss[..|ss| - 1]);
    }
  }

  /**
   * The debit each rule puts on one user (summed over the entries naming that user):
   * EQUAL with n > 0 entries takes amount / n per entry and, with none, takes
   * nothing; PERCENTAGE takes amount * pct / 100, a missing pct counting as 0 and no
   * renormalisation; SHARES takes amount * s / totalShares, and nothing when the total
   * is not positive; EXACT takes the entry amounts, unchecked against the expense
   * amount; an unrecognised type only credits the payer.
   */
  lemma ExpenseRuleEffect(e: Expense, u: UserId)
    ensures e.splitType == EQUAL && |e.splits| > 0 ==>
      Delta(e, u) == Credit(e, u) - (|Named(e.splits, u)| as real) * (e.amount / (|e.splits| as real))
    ensures e.splitType == EQUAL && |e.splits| == 0 ==> Delta(e, u) == Credit(e, u) && Touched(e) == {e.paidBy}
    ensures e.splitType == PERCENTAGE ==>
      Delta(e, u) == Credit(e, u) - e.amount * TotalPercentage(Named(e.splits, u)) / 100.0
    ensures e.splitType == SHARES && TotalShares(e.splits) > 0.0 ==>
      Delta(e, u) == Credit(e, u) - e.amount * TotalShares(Named(e.splits, u)) / TotalShares(e.splits)
    ensures e.splitType == SHARES && TotalShares(e.splits) <= 0.0 ==> Delta(e, u) == Credit(e, u) && Touched(e) == {e.paidBy}
    ensures e.splitType == EXACT ==> Delta(e, u) == Credit(e, u) - TotalAmount(Named(e.splits, u))
    ensures !IsSchemaSplitType(e.splitType) ==> Delta(e, u) == Credit(e, u) && Touched(e) == {e.paidBy}
  {
    if e.splitType == EQUAL && |e.splits| > 0 {
      EqualRule(e, u);
    } else if e.splitType == PERCENTAGE {
      PercentageRule(e, u);
    } else if e.splitType == SHARES && TotalShares(e.splits) > 0.0 {
      SharesRule(e, u);
    } else if e.splitType == EXACT {
      ExactRule(e, u);
    } else {
      CreditOnlyRule(e, u);
    }
  }

  lemma EqualRule(e: Expense, u: UserId)
    requires e.splitType == EQUAL && |e.splits| > 0
    ensures Delta(e, u) == Credit(e, u) - (|Named(e.splits, u)| as real) * (e.amount / (|e.splits| as real))
  {
    EqualSum(e, Named(e.splits, u));
  }

  lemma PercentageRule(e: Expense, u: UserId)
    requires e.splitType == PERCENTAGE
    ensures Delta(e, u) == Credit(e, u) - e.amount * TotalPercentage(Named(e.splits, u)) / 100.0
  {
    PercentageSum(e, Named(e.splits, u));
  }

  lemma SharesRule(e: Expense, u: UserId)
    requires e.splitType == SHARES && TotalShares(e.splits) > 0.0
    ensures Delta(e, u) == Credit(e, u) - e.amount * TotalShares(Named(e.splits, u)) / TotalShares(e.splits)
  {
    SharesSum(e, Named(e.splits, u));
  }

  lemma ExactRule(e: Expense, u: UserId)
    requires e.splitType == EXACT
    ensures Delta(e, u) == Credit(e, u) - TotalAmount(Named(e.splits, u))
  {
    ExactSum(e, Named(e.splits, u));
  }

  /** An expense that distributes nothing only credits the payer. */
  lemma CreditOnlyRule(e: Expense, u: UserId)
    requires !Distributes(e)
    ensures Delta(e, u) == Credit(e, u) && Touched(e) == {e.paidBy}
  {
  }

  // ---------------------------------------------------------------------------
  // The balance total
  // ---------------------------------------------------------------------------

  /** Moving one id's balance by `x` moves a sum over `ks` by `x` per listing of that id. */
  lemma SumOverShift(ks: seq<UserId>, a: Ledger, b: Ledger, u: UserId, x: real)
    requires forall v :: Get(b, v) == Get(a, v) + (if v == u then x else 0.0)
    ensures SumOver(ks, b) == SumOver(ks, a) + (Count(ks, u) as real) * x
  {
    SumOverOccurrences(ks, a, b, u, x);
    OccurrencesCount(ks, u, x);
  }

  /** `x` once for every listing of `u` in `ks`. */
  function Occurrences(ks: seq<UserId>, u: UserId, x: real): real
  {
    if ks == [] then 0.0 else Occurrences(ks[..|ks| - 1], u, x) + (if ks[|ks| - 1] == u then x else 0.0)
  }

  lemma {:induction false} SumOverOccurrences(ks: seq<UserId>, a: Ledger, b: Ledger, u: UserId, x: real)
    requires forall v :: Get(b, v) == Get(a, v) + (if v == u then x else 0.0)
    ensures SumOver(ks, b) == SumOver(ks, a) + Occurrences(ks, u, x)
  {
    if ks != [] {
      SumOverOccurrences(ks[..|ks| - 1], a, b, u, x);
    }
  }

  lemma {:induction false} OccurrencesCount(ks: seq<UserId>, u: UserId, x: real)
    ensures Occurrences(ks, u, x) == (Count(ks, u) as real) * x
  {
    if ks != [] {
      var p := ks[..|ks| - 1];
      OccurrencesCount(p, u, x);
      if ks[|ks| - 1] == u {
        assert ((Count(p, u) + 1) as real) * x == (Count(p, u) as real) * x + x;
      }
    }
  }

  lemma {:induction false} CountOfUnique(ks: seq<UserId>, u: UserId)
    requires NoDuplicates(ks) && u in ks
    ensures Count(ks, u) == 1
  {
    var p := ks[..|ks| - 1];
    assert NoDuplicates(p);
    if ks[|ks| - 1] == u {
      CountAbsent(p, u);
    } else {
      assert u in p;
      CountOfUnique(p, u);
    }
  }

  /** Adding a new id at 0 leaves the total alone. */
  lemma TotalOfEnsureUser(l: Ledger, u: UserId)
    ensures Total(EnsureUser(l, u)) == Total(l)
  {
    if u !in l.bal {
      var t := EnsureUser(l, u);
      EnsureUserEffect(l, u);
      assert t.keys[..|t.keys| - 1] == l.keys;
      assert Get(t, u) == 0.0;
      SumOverShift(l.keys, l, t, u, 0.0);
    }
  }

  lemma TotalOfAdd(l: Ledger, u: UserId, x: real)
    requires Valid(l)
    ensures Total(Add(l, u, x)) == Total(l) + x
  {
    ValidCount(l, u);
    AddTotalByCount(l, u, x);
  }

  lemma {:induction false} TotalOfDebitSplits(l: Ledger, e: Expense, ss: seq<Split>)
    requires Valid(l)
    ensures Total(DebitSplits(l, e, ss)) == Total(l) - SumSplitAmounts(e, ss)
  {
    if ss != [] {
      var p, s := ss[..|ss| - 1], ss[|ss| - 1];
      TotalOfDebitSplits(l, e, p);
      assert ss == p + [s];
      DebitLast(l, e, p, s);
    }
  }

  /** One debit of the inner loop moves the running total by that debit. */
  lemma DebitLast(l: Ledger, e: Expense, p: seq<Split>, s: Split)
    requires Valid(l)
    ensures Total(DebitSplits(l, e, p + [s])) == Total(DebitSplits(l, e, p)) - SplitAmount(e, s)
  {
    DebitSplitsSnoc(l, e, p, s);
    DebitSplitsCount(l, e, p, s.user);
    AddTotalByCount(DebitSplits(l, e, p), s.user, -SplitAmount(e, s));
  }

  lemma DebitSplitsCount(l: Ledger, e: Expense, p: seq<Split>, u: UserId)
    requires Valid(l)
    ensures Count(DebitSplits(l, e, p).keys, u) == if u in DebitSplits(l, e, p).bal then 1 else 0
  {
    DebitSplitsValid(l, e, p);
    ValidCount(DebitSplits(l, e, p), u);
  }

  /** In a well-formed dictionary a tracked id is listed once and an untracked one not at all. */
  lemma ValidCount(d: Ledger, u: UserId)
    requires Valid(d)
    ensures Count(d.keys, u) == if u in d.bal then 1 else 0
  {
    if u in d.bal {
      CountOfUnique(d.keys, u);
    } else {
      CountAbsent(d.keys, u);
    }
  }

  /** `balances[u] += x` moves the total by `x` when `u` is listed as often as it is tracked. */
  lemma AddTotalByCount(d: Ledger, u: UserId, x: real)
    requires Count(d.keys, u) == if u in d.bal then 1 else 0
    ensures Total(Add(d, u, x)) == Total(d) + x
  {
    TotalOfEnsureUser(d, u);
    var t, r := EnsureUser(d, u), Add(d, u, x);
    if u !in d.bal {
      assert t.keys[..|t.keys| - 1] == d.keys;
    }
    assert Count(t.keys, u) == 1;
    forall v ensures Get(r, v) == Get(t, v) + (if v == u then x else 0.0) {
    }
    SumOverShift(t.keys, t, r, u, x);
  }

  lemma DebitSplitsSnoc(l: Ledger, e: Expense, p: seq<Split>, s: Split)
    ensures DebitSplits(l, e, p + [s]) == Add(DebitSplits(l, e, p), s.user, -SplitAmount(e, s))
  {
    assert (p + [s])[..|p|] == p;
  }

  /**
   * Per expense, the unrounded total moves by exactly TotalChange(e): 0 for EQUAL
   * with splits and for SHARES with a positive total; amount * (1 - sum(pct) / 100)
   * for PERCENTAGE; amount - sum(amounts) for EXACT; and the full amount when the
   * rule debits nobody.
   */
  lemma TotalOfApplyExpense(l: Ledger, e: Expense)
    requires Valid(l)
    ensures Total(ApplyExpense(l, e)) == Total(l) + TotalChange(e)
  {
    var credited := Add(l, e.paidBy, e.amount);
    TotalOfAdd(l, e.paidBy, e.amount);
    if Distributes(e) {
      AddEffect(l, e.paidBy, e.amount);
      TotalOfDebitSplits(credited, e, e.splits);
      DebitedTotal(e);
    }
  }

  /** What the splits of a distributing expense take in total, rule by rule. */
  lemma DebitedTotal(e: Expense)
    requires Distributes(e)
    ensures SumSplitAmounts(e, e.splits) == e.amount - TotalChange(e)
  {
    if e.splitType == EQUAL {
      EqualDebited(e);
    } else if e.splitType == PERCENTAGE {
      PercentageSum(e, e.splits);
    } else if e.splitType == SHARES {
      SharesDebited(e);
    } else {
      ExactSum(e, e.splits);
    }
  }

  lemma EqualDebited(e: Expense)
    requires e.splitType == EQUAL && |e.splits| > 0
    ensures SumSplitAmounts(e, e.splits) == e.amount
  {
    EqualSum(e, e.splits);
    var n := |e.splits| as real;
    assert n * (e.amount / n) == e.amount;
  }

  lemma SharesDebited(e: Expense)
    requires e.splitType == SHARES && TotalShares(e.splits) > 0.0
    ensures SumSplitAmounts(e, e.splits) == e.amount
  {
    SharesSum(e, e.splits);
    var t := TotalShares(e.splits);
    assert e.amount * t / t == e.amount;
  }

  lemma {:induction false} TotalOfRawBalances(ms: seq<UserId>, es: seq<Expense>)
    ensures Total(RawBalances(ms, es)) == SumTotalChange(es)
  {
    if es == [] {
      InitMembersEffect(ms);
      ZeroSum(InitMembers(ms).keys, InitMembers(ms));
    } else {
      var p := es[..|es| - 1];
      var prev := RawBalances(ms, p);
      TotalOfRawBalances(ms, p);
      InitMembersEffect(ms);
      ApplyExpensesEffect(InitMembers(ms), p);
      TotalOfApplyExpense(prev, es[|es| - 1]);
      assert RawBalances(ms, es) == ApplyExpense(prev, es[|es| - 1]);
    }
  }

  lemma {:induction false} ZeroSum(ks: seq<UserId>, l: Ledger)
    requires forall v :: Get(l, v) == 0.0
    ensures SumOver(ks, l) == 0.0
  {
    if ks != [] {
      ZeroSum(ks[..|ks| - 1], l);
    }
  }

  /** An expense as the write-time validator lets it through, with splits to walk. */
  predicate Balanced(e: Expense)
  {
    || (e.splitType == EQUAL && |e.splits| > 0)
    || (e.splitType == SHARES && TotalShares(e.splits) > 0.0)
    || (e.splitType == PERCENTAGE && Abs(TotalPercentage(e.splits) - 100.0) <= 0.01)
    || (e.splitType == EXACT && Abs(TotalAmount(e.splits) - e.amount) <= 0.01)
  }

  /** The largest move of the total such an expense can make. */
  function Drift(e: Expense): real
  {
    if e.splitType == PERCENTAGE then Abs(e.amount) / 10000.0
    else if e.splitType == EXACT then 0.01
    else 0.0
  }

  function SumDrift(es: seq<Expense>): real
  {
    if es == [] then 0.0 else SumDrift(es[..|es| - 1]) + Drift(es[|es| - 1])
  }

  lemma BalancedDrift(e: Expense)
    requires Balanced(e)
    ensures Abs(TotalChange(e)) <= Drift(e)
  {
    if e.splitType == PERCENTAGE {
      PercentageChangeDrift(e);
    } else if e.splitType == EXACT {
      ExactChangeDrift(e);
    }
  }

  lemma PercentageChangeDrift(e: Expense)
    requires e.splitType == PERCENTAGE && Abs(TotalPercentage(e.splits) - 100.0) <= 0.01
    ensures Abs(TotalChange(e)) <= Drift(e)
  {
    var t := TotalPercentage(e.splits);
    PercentageDrift(e.amount, t);
    assert TotalChange(e) == e.amount - e.amount * t / 100.0;
  }

  lemma ExactChangeDrift(e: Expense)
    requires e.splitType == EXACT && Abs(TotalAmount(e.splits) - e.amount) <= 0.01
    ensures Abs(TotalChange(e)) <= Drift(e)
  {
    var t := TotalAmount(e.splits);
    assert TotalChange(e) == e.amount - t;
    assert Abs(e.amount - t) == Abs(t - e.amount);
  }

  /** `amount - amount * t / 100` with `t` within 0.01 of 100 moves by at most |amount| / 10000. */
  lemma PercentageDrift(a: real, t: real)
    requires Abs(t - 100.0) <= 0.01
    ensures Abs(a - a * t / 100.0) <= Abs(a) / 10000.0
  {
    var d := 100.0 - t;
    assert a - a * t / 100.0 == a * d / 100.0;
    AbsProduct(a, d);
    assert Abs(d) <= 0.01;
    assert Abs(a) * Abs(d) <= Abs(a) * 0.01;
  }

  lemma AbsProduct(a: real, d: real)
    ensures Abs(a * d / 100.0) == Abs(a) * Abs(d) / 100.0
  {
    if a < 0.0 && d < 0.0 {
      assert a * d == (-a) * (-d);
    } else if a < 0.0 {
      assert -(a * d) == (-a) * d;
    } else if d < 0.0 {
      assert -(a * d) == a * (-d);
    }
  }

  /**
   * Zero-sum within tolerance: when every expense is as the validator admits it and
   * has splits to walk, the unrounded balances add up to at most the summed drift
   * (exactly 0 when there is no PERCENTAGE or EXACT expense).
   */
  lemma {:induction false} ZeroSumWithinDrift(ms: seq<UserId>, es: seq<Expense>)
    requires forall i :: 0 <= i < |es| ==> Balanced(es[i])
    ensures Abs(Total(RawBalances(ms, es))) <= SumDrift(es)
  {
    TotalOfRawBalances(ms, es);
    SumTotalChangeBound(es);
  }

  lemma {:induction false} SumTotalChangeBound(es: seq<Expense>)
    requires forall i :: 0 <= i < |es| ==> Balanced(es[i])
    ensures Abs(SumTotalChange(es)) <= SumDrift(es)
  {
    if es != [] {
      var p := es[..|es| - 1];
      assert forall i :: 0 <= i < |p| ==> Balanced(p[i]) by {
        forall i | 0 <= i < |p| ensures Balanced(p[i]) { assert p[i] == es[i]; }
      }
      SumTotalChangeBound(p);
      BalancedDrift(es[|es| - 1]);
    }
  }

  // ---------------------------------------------------------------------------
  // Order independence
  // ---------------------------------------------------------------------------

  /** Taking one expense out of a list removes exactly its change. */
  lemma TotalDeltaRemove(b: seq<Expense>, i: nat, u: UserId)
    requires i < |b|
    ensures TotalDelta(b, u) == TotalDelta(b[..i] + b[i + 1..], u) + Delta(b[i], u)
  {
    var x := b[i];
    TotalDeltaAppend(b[..i], [x] + b[i + 1..], u);
    TotalDeltaAppend([x], b[i + 1..], u);
    TotalDeltaAppend(b[..i], b[i + 1..], u);
    assert b[..i] + ([x] + b[i + 1..]) == b;
    assert TotalDelta([x], u) == Delta(x, u) by {
      assert [x][..0] == [];
    }
  }

  lemma {:induction false} TotalDeltaPermutation(a: seq<Expense>, b: seq<Expense>, u: UserId)
    requires multiset(a) == multiset(b)
    ensures TotalDelta(a, u) == TotalDelta(b, u)
    decreases |a|
  {
    if a == [] {
      assert |b| == |multiset(b)| == 0;
    } else {
      var x, p := a[|a| - 1], a[..|a| - 1];
      var i := IndexOf(b, x);
      var rest := b[..i] + b[i + 1..];
      MultisetRemoveAt(a, |a| - 1);
      MultisetRemoveAt(b, i);
      assert p + a[|a|..] == p;
      assert multiset(p) == multiset(rest);
      TotalDeltaPermutation(p, rest, u);
      TotalDeltaRemove(b, i, u);
      assert TotalDelta(a, u) == TotalDelta(p, u) + Delta(x, u);
    }
  }

  lemma IndexOf(b: seq<Expense>, x: Expense) returns (i: nat)
    requires x in multiset(b)
    ensures i < |b| && b[i] == x
  {
    assert x in b;
    i :| 0 <= i < |b| && b[i] == x;
  }

  lemma MultisetRemoveAt(b: seq<Expense>, i: nat)
    requires i < |b|
    ensures multiset(b[..i] + b[i + 1..]) == multiset(b) - multiset{b[i]}
  {
    assert b == b[..i] + [b[i]] + b[i + 1..];
  }

  lemma {:induction false} TouchedAllMembers(es: seq<Expense>, u: UserId)
    ensures u in TouchedAll(es) <==> exists e :: e in es && u in Touched(e)
  {
    if es != [] {
      var p := es[..|es| - 1];
      TouchedAllMembers(p, u);
      assert es == p + [es[|es| - 1]];
    }
  }

  /**
   * Permuting the expenses leaves the unrounded balances and the set of reported
   * ids unchanged (only the order of the keys can differ), so the formatted response
   * holds the same entries.
   */
  lemma OrderIndependence(ms: seq<UserId>, a: seq<Expense>, b: seq<Expense>)
    requires multiset(a) == multiset(b)
    ensures RawBalances(ms, a).bal == RawBalances(ms, b).bal
    ensures forall x: BalanceEntry :: x in Format(RawBalances(ms, a)) <==> x in Format(RawBalances(ms, b))
  {
    RawBalancesClosedForm(ms, a);
    RawBalancesClosedForm(ms, b);
    var la, lb := RawBalances(ms, a), RawBalances(ms, b);
    forall u ensures u in la.bal <==> u in lb.bal {
      TouchedAllMembers(a, u);
      TouchedAllMembers(b, u);
      assert forall e :: e in a <==> e in b by {
        forall e ensures e in a <==> e in b {
          assert e in a <==> e in multiset(a);
          assert e in b <==> e in multiset(b);
        }
      }
    }
    forall u | u in la.bal ensures la.bal[u] == lb.bal[u] {
      TotalDeltaPermutation(a, b, u);
    }
    assert la.bal == lb.bal;
    FormatMembers(la);
    FormatMembers(lb);
  }

  lemma FormatMembers(l: Ledger)
    requires Valid(l)
    ensures forall x: BalanceEntry :: x in Format(l) <==> x.userId in l.bal && x.amount == RoundCents(Get(l, x.userId))
  {
    forall x: BalanceEntry | x.userId in l.bal && x.amount == RoundCents(Get(l, x.userId)) ensures x in Format(l) {
      var i :| 0 <= i < |l.keys| && l.keys[i] == x.userId;
      assert Format(l)[i] == x;
    }
  }
}
