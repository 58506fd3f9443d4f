/**
 * The prototype calculator `mockGetGroupBalances` of server/repro_balance.ts and its
 * three hand scenarios.
 *
 * Unlike the server calculator it tracks only the listed members: its dictionary is
 * created with one key per member and never grows, a payer or split user without a
 * key is skipped, and only EQUAL and PERCENTAGE debit anybody. The dictionary
 * is a `map` here; its key order is the members' order and is not modelled.
 */
module ReproBalance {
  import opened Common
  import opened Models
  import opened Balances
  import opened BalanceProofs

  /** `groupMembers.forEach(m => balances[m] = 0)`. */
  function MockInit(ms: seq<UserId>): map<UserId, real>
  {
    map u | u in ms :: 0.0
  }

  /** `if (balances[id] !== undefined) balances[id] += x`. */
  function MockAdd(b: map<UserId, real>, u: UserId, x: real): map<UserId, real>
  {
    if u in b then b[u := b[u] + x] else b
  }

  /** What the prototype debits a split of `e`; nothing for the types it does not handle. */
  function MockSplitAmount(e: Expense, s: Split): real
  {
    if e.splitType == EQUAL then
      (if |e.splits| > 0 then e.amount / (|e.splits| as real) else 0.0)
    else if e.splitType == PERCENTAGE then
      e.amount * OrZero(s.percentage) / 100.0
    else
      0.0
  }

  /** The inner `forEach` over the first |ss| splits. */
  function MockDebitSplits(b: map<UserId, real>, e: Expense, ss: seq<Split>): map<UserId, real>
  {
    if ss == [] then b
    else MockAdd(MockDebitSplits(b, e, ss[..|ss| - 1]), ss[|ss| - 1].user, -MockSplitAmount(e, ss[|ss| - 1]))
  }

  function MockApplyExpense(b: map<UserId, real>, e: Expense): map<UserId, real>
  {
    var credited := MockAdd(b, e.paidBy, e.amount);
    if e.splitType == EQUAL || e.splitType == PERCENTAGE then MockDebitSplits(credited, e, e.splits) else credited
  }

  function MockApplyAll(b: map<UserId, real>, es: seq<Expense>): map<UserId, real>
  {
    if es == [] then b else MockApplyExpense(MockApplyAll(b, es[..|es| - 1]), es[|es| - 1])
  }

  /** The dictionary the prototype returns. */
  function MockBalances(ms: seq<UserId>, es: seq<Expense>): map<UserId, real>
  {
    MockApplyAll(MockInit(ms), es)
  }

  /** The EQUAL branch: each tracked split user loses `amount / splitCount`. */
  method MockDebitEqual(balances: map<UserId, real>, expense: Expense) returns (balances': map<UserId, real>)
    requires expense.splitType == EQUAL
    ensures balances' == MockDebitSplits(balances, expense, expense.splits)
  {
    var splitCount := |expense.splits|;
    balances' := balances;
    for k := 0 to splitCount
      invariant balances' == MockDebitSplits(balances, expense, expense.splits[..k])
    {
      var splitAmount := expense.amount / (splitCount as real);
      var id := expense.splits[k].user;
      assert splitAmount == MockSplitAmount(expense, expense.splits[k]);
      assert expense.splits[..k + 1][..k] == expense.splits[..k] && expense.splits[..k + 1][k] == expense.splits[k];
      if id in balances' {
        balances' := balances'[id := balances'[id] - splitAmount];
      }
    }
    assert expense.splits[..splitCount] == expense.splits;
  }

  /** The PERCENTAGE branch: each tracked split user loses `amount * (percentage || 0) / 100`. */
  method MockDebitPercentage(balances: map<UserId, real>, expense: Expense) returns (balances': map<UserId, real>)
    requires expense.splitType == PERCENTAGE
    ensures balances' == MockDebitSplits(balances, expense, expense.splits)
  {
    balances' := balances;
    for k := 0 to |expense.splits|
      invariant balances' == MockDebitSplits(balances, expense, expense.splits[..k])
    {
      var split := expense.splits[k];
      var splitAmount := (expense.amount * OrZero(split.percentage)) / 100.0;
      assert splitAmount == MockSplitAmount(expense, split);
      assert expense.splits[..k + 1][..k] == expense.splits[..k] && expense.splits[..k + 1][k] == split;
      if split.user in balances' {
        balances' := balances'[split.user := balances'[split.user] - splitAmount];
      }
    }
    assert expense.splits[..|expense.splits|] == expense.splits;
  }

  /**
   * mockGetGroupBalances: one key per member, whatever the expenses name; the
   * console logging is left out.
   */
  method MockGetGroupBalances(groupMembers: seq<UserId>, expenses: seq<Expense>) returns (balances: map<UserId, real>)
    ensures balances == MockBalances(groupMembers, expenses)
    ensures balances.Keys == set m | m in groupMembers
  {
    balances := map[];
    for i := 0 to |groupMembers|
      invariant balances == MockInit(groupMembers[..i])
    {
      balances := balances[groupMembers[i] := 0.0];
      assert forall u :: u in groupMembers[..i + 1] <==> u in groupMembers[..i] || u == groupMembers[i];
    }
    assert groupMembers[..|groupMembers|] == groupMembers;

    for j := 0 to |expenses|
      invariant balances == MockApplyAll(MockInit(groupMembers), expenses[..j])
    {
      var expense := expenses[j];
      ghost var before := balances;
      if expense.paidBy in balances {
        balances := balances[expense.paidBy := balances[expense.paidBy] + expense.amount];
      }
      if expense.splitType == EQUAL {
        balances := MockDebitEqual(balances, expense);
      } else if expense.splitType == PERCENTAGE {
        balances := MockDebitPercentage(balances, expense);
      }
      assert balances == MockApplyExpense(before, expense);
      assert expenses[..j + 1][..j] == expenses[..j];
    }
    assert expenses[..|expenses|] == expenses;
    MockKeys(groupMembers, expenses);
  }

  // ---------------------------------------------------------------------------
  // What the prototype computes
  // ---------------------------------------------------------------------------

  /** The inner loop changes no key and debits each tracked user the sum of its listings. */
  lemma MockDebitSplitsEffect(b: map<UserId, real>, e: Expense, ss: seq<Split>)
    ensures MockDebitSplits(b, e, ss).Keys == b.Keys
    ensures forall u :: u in b ==> MockDebitSplits(b, e, ss)[u] == b[u] - MockSum(e, Named(ss, u))
  {
    MockDebitSplitsKeys(b, e, ss);
    forall u | u in b ensures MockDebitSplits(b, e, ss)[u] == b[u] - MockSum(e, Named(ss, u)) {
      MockDebitSplitsGet(b, e, ss, u);
    }
  }

  lemma {:induction false} MockDebitSplitsKeys(b: map<UserId, real>, e: Expense, ss: seq<Split>)
    ensures MockDebitSplits(b, e, ss).Keys == b.Keys
  {
    if ss != [] {
      MockDebitSplitsKeys(b, e, ss[..|ss| - 1]);
    }
  }

  lemma {:induction false} MockDebitSplitsGet(b: map<UserId, real>, e: Expense, ss: seq<Split>, u: UserId)
    requires u in b
    ensures u in MockDebitSplits(b, e, ss) && MockDebitSplits(b, e, ss)[u] == b[u] - MockSum(e, Named(ss, u))
  {
    if ss != [] {
      var p, s := ss[..|ss| - 1], ss[|ss| - 1];
      MockDebitSplitsGet(b, e, p, u);
      if s.user == u {
        assert (Named(p, u) + [s])[..|Named(p, u)|] == Named(p, u);
      } else {
        assert Named(ss, u) == Named(p, u);
      }
    }
  }

  /** The sum of the prototype's splitAmounts over `ss`. */
  function MockSum(e: Expense, ss: seq<Split>): real
  {
    if ss == [] then 0.0 else MockSum(e, ss[..|ss| - 1]) + MockSplitAmount(e, ss[|ss| - 1])
  }

  /** The prototype's change to the balance of a tracked user. */
  function MockDelta(e: Expense, u: UserId): real
  {
    Credit(e, u) - (if e.splitType == EQUAL || e.splitType == PERCENTAGE then MockSum(e, Named(e.splits, u)) else 0.0)
  }

  function MockTotalDelta(es: seq<Expense>, u: UserId): real
  {
    if es == [] then 0.0 else MockTotalDelta(es[..|es| - 1], u) + MockDelta(es[|es| - 1], u)
  }

  /**
   * The result's keys are exactly the members, whatever the expenses name, and each
   * member's balance is the sum of the prototype's changes to it.
   */
  lemma {:induction false} MockKeys(ms: seq<UserId>, es: seq<Expense>)
    ensures MockBalances(ms, es).Keys == set m | m in ms
    ensures forall u :: u in ms ==> MockBalances(ms, es)[u] == MockTotalDelta(es, u)
  {
    if es != [] {
      var p, e := es[..|es| - 1], es[|es| - 1];
      MockKeys(ms, p);
      var prev := MockBalances(ms, p);
      var credited := MockAdd(prev, e.paidBy, e.amount);
      MockDebitSplitsEffect(credited, e, e.splits);
    }
  }

  /** A payer or split user that is not a member is never reported. */
  lemma NonMembersIgnored(ms: seq<UserId>, es: seq<Expense>, u: UserId)
    requires u !in ms
    ensures u !in MockBalances(ms, es)
  {
    MockKeys(ms, es);
  }

  /** EQUAL debits each listed split by amount / splitCount; an expense without splits only credits. */
  lemma MockEqualRule(e: Expense, s: Split)
    requires e.splitType == EQUAL
    ensures |e.splits| > 0 ==> MockSplitAmount(e, s) == e.amount / (|e.splits| as real)
    ensures e.splits == [] ==> forall u :: MockDelta(e, u) == Credit(e, u)
  {
  }

  /** PERCENTAGE debits amount * pct / 100 (a missing pct is 0); the other types only credit the payer. */
  lemma MockOtherRules(e: Expense, s: Split)
    ensures e.splitType == PERCENTAGE ==> MockSplitAmount(e, s) == e.amount * OrZero(s.percentage) / 100.0
    ensures e.splitType != EQUAL && e.splitType != PERCENTAGE ==> forall u :: MockDelta(e, u) == Credit(e, u)
  {
  }

  // ---------------------------------------------------------------------------
  // The prototype against the server calculator
  // ---------------------------------------------------------------------------

  predicate EqualOrPercentage(e: Expense)
  {
    e.splitType == EQUAL || e.splitType == PERCENTAGE
  }

  lemma {:induction false} MockSumAgrees(e: Expense, ss: seq<Split>)
    requires EqualOrPercentage(e)
    ensures MockSum(e, ss) == SumSplitAmounts(e, ss)
  {
    if ss != [] {
      MockSumAgrees(e, ss[..|ss| - 1]);
    }
  }

  lemma {:induction false} MockDeltaAgrees(es: seq<Expense>, u: UserId)
    requires forall i :: 0 <= i < |es| ==> EqualOrPercentage(es[i])
    ensures MockTotalDelta(es, u) == TotalDelta(es, u)
  {
    if es != [] {
      var p, e := es[..|es| - 1], es[|es| - 1];
      assert forall i :: 0 <= i < |p| ==> EqualOrPercentage(p[i]) by {
        forall i | 0 <= i < |p| ensures EqualOrPercentage(p[i]) { assert p[i] == es[i]; }
      }
      MockDeltaAgrees(p, u);
      MockSumAgrees(e, Named(e.splits, u));
      if e.splitType == EQUAL && e.splits == [] {
        assert Named(e.splits, u) == [];
      }
    }
  }

  /**
   * On EQUAL and PERCENTAGE expenses the prototype and the server agree on every
   * member's unrounded balance; when every payer and split user is a member, the two
   * dictionaries are equal.
   */
  lemma MockAgreesWithServer(ms: seq<UserId>, es: seq<Expense>)
    requires forall i :: 0 <= i < |es| ==> EqualOrPercentage(es[i])
    ensures forall u :: u in ms ==> u in MockBalances(ms, es) && MockBalances(ms, es)[u] == Get(RawBalances(ms, es), u)
    ensures (forall u :: u in TouchedAll(es) ==> u in ms) ==> MockBalances(ms, es) == RawBalances(ms, es).bal
  {
    MemberBalancesAgree(ms, es);
    if forall u :: u in TouchedAll(es) ==> u in ms {
      DictionariesAgree(ms, es);
    }
  }

  lemma MemberBalancesAgree(ms: seq<UserId>, es: seq<Expense>)
    requires forall i :: 0 <= i < |es| ==> EqualOrPercentage(es[i])
    ensures forall u :: u in ms ==> u in MockBalances(ms, es) && MockBalances(ms, es)[u] == Get(RawBalances(ms, es), u)
  {
    MockKeys(ms, es);
    RawBalancesClosedForm(ms, es);
    forall u | u in ms ensures MockBalances(ms, es)[u] == Get(RawBalances(ms, es), u) {
      MockDeltaAgrees(es, u);
    }
  }

  lemma DictionariesAgree(ms: seq<UserId>, es: seq<Expense>)
    requires forall i :: 0 <= i < |es| ==> EqualOrPercentage(es[i])
    requires forall u :: u in TouchedAll(es) ==> u in ms
    ensures MockBalances(ms, es) == RawBalances(ms, es).bal
  {
    var m, l := MockBalances(ms, es), RawBalances(ms, es);
    MemberBalancesAgree(ms, es);
    MockKeys(ms, es);
    assert forall v :: v in l.bal <==> v in ms by {
      RawBalancesClosedForm(ms, es);
    }
    SameMaps(m, l, ms);
  }

  lemma SameMaps(m: map<UserId, real>, l: Ledger, ms: seq<UserId>)
    requires m.Keys == set u | u in ms
    requires forall v :: v in l.bal <==> v in ms
    requires forall u :: u in ms ==> u in m && m[u] == Get(l, u)
    ensures m == l.bal
  {
    assert m.Keys == l.bal.Keys;
  }

  // ---------------------------------------------------------------------------
  // The three scenarios
  // ---------------------------------------------------------------------------

  function Lunch(): Expense
  {
    Expense("Lunch", 100.0, "A", "", EQUAL, [UserOnly("A"), UserOnly("B")])
  }

  function Dinner(): Expense
  {
    Expense("Dinner", 90.0, "A", "", EQUAL, [UserOnly("B"), UserOnly("C")])
  }

  function Drinks(): Expense
  {
    Expense("Drinks", 100.0, "A", "", PERCENTAGE,
      [Split("A", None, Some(60.0), None), Split("B", None, Some(40.0), None)])
  }

  /** A scenario of one expense: the prototype's balances are that expense's changes to the members. */
  lemma OneExpense(ms: seq<UserId>, e: Expense)
    ensures MockBalances(ms, [e]).Keys == set m | m in ms
    ensures forall u :: u in ms ==> MockBalances(ms, [e])[u] == MockDelta(e, u)
  {
    MockKeys(ms, [e]);
    assert [e][..0] == [] && [e][0] == e;
    assert forall u :: MockTotalDelta([e], u) == MockDelta(e, u);
  }

  /** The entries of a two-split list that name `u`. */
  lemma NamedOfTwo(s0: Split, s1: Split, u: UserId)
    ensures Named([s0, s1], u) == (if s0.user == u then [s0] else []) + (if s1.user == u then [s1] else [])
    ensures SplitUsers([s0, s1]) == {s0.user, s1.user}
  {
    assert [s0, s1][..1] == [s0];
    assert [s0][..0] == [];
    assert Named([s0], u) == (if s0.user == u then [s0] else []);
    assert SplitUsers([s0]) == {s0.user};
  }


  lemma MapOfTwo(m: map<UserId, real>, a: UserId, b: UserId, x: real, y: real)
    requires m.Keys == {a, b} && a in m && b in m && m[a] == x && m[b] == y
    ensures m == map[a := x, b := y]
  {
  }

  lemma MapOfThree(m: map<UserId, real>, a: UserId, b: UserId, c: UserId, x: real, y: real, z: real)
    requires m.Keys == {a, b, c} && a in m && b in m && c in m && m[a] == x && m[b] == y && m[c] == z
    ensures m == map[a := x, b := y, c := z]
  {
  }

  /** The prototype's change to `u` for a two-split EQUAL or PERCENTAGE expense. */
  lemma DeltaOfTwo(e: Expense, u: UserId)
    requires |e.splits| == 2 && (e.splitType == EQUAL || e.splitType == PERCENTAGE)
    ensures MockDelta(e, u) == Credit(e, u)
      - (if e.splits[0].user == u then MockSplitAmount(e, e.splits[0]) else 0.0)
      - (if e.splits[1].user == u then MockSplitAmount(e, e.splits[1]) else 0.0)
  {
    var s0, s1 := e.splits[0], e.splits[1];
    assert e.splits == [s0, s1];
    SumNamedOfTwo(e, s0, s1, u);
  }

  lemma SumNamedOfTwo(e: Expense, s0: Split, s1: Split, u: UserId)
    ensures MockSum(e, Named([s0, s1], u))
      == (if s0.user == u then MockSplitAmount(e, s0) else 0.0) + (if s1.user == u then MockSplitAmount(e, s1) else 0.0)
  {
    NamedOfTwo(s0, s1, u);
    if s0.user == u && s1.user == u {
      assert Named([s0, s1], u) == [s0] + [s1];
      MockSumOfAtMostOne(e, [s0]);
      MockSumSnoc(e, [s0], s1);
    } else if s0.user == u {
      assert Named([s0, s1], u) == [s0];
      MockSumOfAtMostOne(e, [s0]);
    } else if s1.user == u {
      assert Named([s0, s1], u) == [s1];
      MockSumOfAtMostOne(e, [s1]);
    } else {
      assert Named([s0, s1], u) == [];
    }
  }

  lemma MockSumSnoc(e: Expense, ss: seq<Split>, s: Split)
    ensures MockSum(e, ss + [s]) == MockSum(e, ss) + MockSplitAmount(e, s)
  {
    assert (ss + [s])[..|ss|] == ss;
  }

  lemma MockSumOfAtMostOne(e: Expense, ss: seq<Split>)
    requires |ss| <= 1
    ensures MockSum(e, ss) == if ss == [] then 0.0 else MockSplitAmount(e, ss[0])
  {
    if ss != [] {
      assert ss[..0] == [];
    }
  }

  lemma LunchDeltas()
    ensures MockDelta(Lunch(), "A") == 50.0 && MockDelta(Lunch(), "B") == -50.0
  {
    var e := Lunch();
    assert MockSplitAmount(e, e.splits[0]) == 50.0 && MockSplitAmount(e, e.splits[1]) == 50.0;
    DeltaOfTwo(e, "A");
    DeltaOfTwo(e, "B");
  }

  lemma DinnerDeltas()
    ensures MockDelta(Dinner(), "A") == 90.0 && MockDelta(Dinner(), "B") == -45.0 && MockDelta(Dinner(), "C") == -45.0
  {
    var e := Dinner();
    assert MockSplitAmount(e, e.splits[0]) == 45.0 && MockSplitAmount(e, e.splits[1]) == 45.0;
    DeltaOfTwo(e, "A");
    DeltaOfTwo(e, "B");
    DeltaOfTwo(e, "C");
  }

  lemma DrinksDeltas()
    ensures MockDelta(Drinks(), "A") == 40.0 && MockDelta(Drinks(), "B") == -40.0
  {
    var e := Drinks();
    assert MockSplitAmount(e, e.splits[0]) == 60.0 && MockSplitAmount(e, e.splits[1]) == 40.0;
    DeltaOfTwo(e, "A");
    DeltaOfTwo(e, "B");
  }

  /** Test 1, a simple equal split: A is owed 50, B owes 50. */
  lemma LunchScenario()
    ensures MockBalances(["A", "B"], [Lunch()]) == map["A" := 50.0, "B" := -50.0]
  {
    OneExpense(["A", "B"], Lunch());
    LunchDeltas();
    SetOfTwo("A", "B");
    MapOfTwo(MockBalances(["A", "B"], [Lunch()]), "A", "B", 50.0, -50.0);
  }

  /** Test 2, the payer outside the split: A is owed 90, B and C owe 45 each. */
  lemma DinnerScenario()
    ensures MockBalances(["A", "B", "C"], [Dinner()]) == map["A" := 90.0, "B" := -45.0, "C" := -45.0]
  {
    OneExpense(["A", "B", "C"], Dinner());
    DinnerDeltas();
    SetOfThree("A", "B", "C");
    MapOfThree(MockBalances(["A", "B", "C"], [Dinner()]), "A", "B", "C", 90.0, -45.0, -45.0);
  }

  /** Test 3, a 60/40 percentage split: A is owed 40, B owes 40. */
  lemma DrinksScenario()
    ensures MockBalances(["A", "B"], [Drinks()]) == map["A" := 40.0, "B" := -40.0]
  {
    OneExpense(["A", "B"], Drinks());
    DrinksDeltas();
    SetOfTwo("A", "B");
    MapOfTwo(MockBalances(["A", "B"], [Drinks()]), "A", "B", 40.0, -40.0);
  }

  /** The server calculator gives the same three answers, in member order. */
  lemma ServerLunch()
    ensures Format(RawBalances(["A", "B"], [Lunch()])) == [BalanceEntry("A", 50.0), BalanceEntry("B", -50.0)]
  {
    var e := Lunch();
    LunchScenario();
    SingleTouched(e);
    NamedOfTwo(e.splits[0], e.splits[1], "A");
    ScenarioLedger(["A", "B"], [e], map["A" := 50.0, "B" := -50.0]);
    FormatOfTwo("A", "B", 50.0, -50.0);
  }

  lemma ServerDinner()
    ensures Format(RawBalances(["A", "B", "C"], [Dinner()]))
      == [BalanceEntry("A", 90.0), BalanceEntry("B", -45.0), BalanceEntry("C", -45.0)]
  {
    var e := Dinner();
    DinnerScenario();
    SingleTouched(e);
    NamedOfTwo(e.splits[0], e.splits[1], "A");
    ScenarioLedger(["A", "B", "C"], [e], map["A" := 90.0, "B" := -45.0, "C" := -45.0]);
    FormatOfThree("A", "B", "C", 90.0, -45.0, -45.0);
  }

  lemma ServerDrinks()
    ensures Format(RawBalances(["A", "B"], [Drinks()])) == [BalanceEntry("A", 40.0), BalanceEntry("B", -40.0)]
  {
    var e := Drinks();
    DrinksScenario();
    SingleTouched(e);
    NamedOfTwo(e.splits[0], e.splits[1], "A");
    ScenarioLedger(["A", "B"], [e], map["A" := 40.0, "B" := -40.0]);
    FormatOfTwo("A", "B", 40.0, -40.0);
  }

  /** Formatting a two-key dictionary of whole-cent balances. */
  lemma FormatOfTwo(a: UserId, b: UserId, x: real, y: real)
    requires a != b && RoundCents(x) == x && RoundCents(y) == y
    ensures Format(Ledger([a, b], map[a := x, b := y])) == [BalanceEntry(a, x), BalanceEntry(b, y)]
  {
    var out := Format(Ledger([a, b], map[a := x, b := y]));
    assert out[0] == BalanceEntry(a, x);
    assert out[1] == BalanceEntry(b, y);
  }

  /** Formatting a three-key dictionary of whole-cent balances. */
  lemma FormatOfThree(a: UserId, b: UserId, c: UserId, x: real, y: real, z: real)
    requires a != b && a != c && b != c && RoundCents(x) == x && RoundCents(y) == y && RoundCents(z) == z
    ensures Format(Ledger([a, b, c], map[a := x, b := y, c := z])) == [BalanceEntry(a, x), BalanceEntry(b, y), BalanceEntry(c, z)]
  {
    var out := Format(Ledger([a, b, c], map[a := x, b := y, c := z]));
    assert out[0] == BalanceEntry(a, x);
    assert out[1] == BalanceEntry(b, y);
    assert out[2] == BalanceEntry(c, z);
  }

  lemma SetOfTwo(a: UserId, b: UserId)
    ensures (set m | m in [a, b]) == {a, b}
  {
  }

  lemma SetOfThree(a: UserId, b: UserId, c: UserId)
    ensures (set m | m in [a, b, c]) == {a, b, c}
  {
  }

  lemma SingleTouched(e: Expense)
    ensures TouchedAll([e]) == Touched(e)
  {
    assert [e][..0] == [];
  }

  /** For a scenario whose participants are distinct members, the server's dictionary is the prototype's, keyed in member order. */
  lemma ScenarioLedger(ms: seq<UserId>, es: seq<Expense>, expected: map<UserId, real>)
    requires NoDuplicates(ms)
    requires forall i :: 0 <= i < |es| ==> EqualOrPercentage(es[i])
    requires forall u :: u in TouchedAll(es) ==> u in ms
    requires MockBalances(ms, es) == expected
    ensures RawBalances(ms, es) == Ledger(ms, expected)
  {
    var l := RawBalances(ms, es);
    MockAgreesWithServer(ms, es);
    RawBalancesClosedForm(ms, es);
    KeysWithinMembers(ms, l);
  }

  /** A duplicate-free key list that starts with the members and holds nothing else is the members. */
  lemma KeysWithinMembers(ms: seq<UserId>, l: Ledger)
    requires Valid(l) && |ms| <= |l.keys| && l.keys[..|ms|] == ms
    requires forall u :: u in l.bal ==> u in ms
    ensures l.keys == ms
  {
    if |l.keys| > |ms| {
      NotInPrefix(l.keys, |ms|);
      assert false;
    }
  }

  lemma NotInPrefix(k: seq<UserId>, n: nat)
    requires NoDuplicates(k) && n < |k|
    ensures k[n] !in k[..n]
  {
  }
}
