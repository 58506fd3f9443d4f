/**
 * The split logic of the client's AddExpenseModal
 * (client/src/components/AddExpenseModal.tsx): the open-time reset, the per-user
 * update, `validateSplits` and the `splits` payload the form posts.
 *
 * The component state is a SplitForm object. `splitValues` is a JavaScript object
 * used as a dictionary; it is a sequence of entries here, in key insertion order
 * (the order `Object.values` walks), with no key twice.
 */
module AddExpenseModal {
  import opened Common
  import opened Models
  import ExpenseController

  datatype FormSplitType = Equal | Percentage | Shares | Exact

  /** The type name the form posts. */
  function TypeName(t: FormSplitType): string
  {
    match t
    case Equal => EQUAL
    case Percentage => PERCENTAGE
    case Shares => SHARES
    case Exact => EXACT
  }

  datatype Member = Member(id: UserId, name: string)

  function Ids(members: seq<Member>): (r: seq<UserId>)
    ensures |r| == |members| && forall i :: 0 <= i < |r| ==> r[i] == members[i].id
  {
    seq(|members|, i requires 0 <= i < |members| => members[i].id)
  }

  /** One key of `splitValues` and the number stored under it. */
  datatype SplitValue = SplitValue(user: UserId, value: real)

  /** The message `validateSplits` shows: none, or the offending total (and the amount for EXACT). */
  datatype FormError = NoError | PercentageTotal(total: real) | ExactTotal(total: real, amount: real)

  function Keys(vs: seq<SplitValue>): (r: seq<UserId>)
    ensures |r| == |vs| && forall i :: 0 <= i < |r| ==> r[i] == vs[i].user
  {
    seq(|vs|, i requires 0 <= i < |vs| => vs[i].user)
  }

  predicate UniqueKeys(vs: seq<SplitValue>)
  {
    NoDuplicates(Keys(vs))
  }

  /** `splitValues[u] || 0`. */
  function Lookup(vs: seq<SplitValue>, u: UserId): real
  {
    if vs == [] then 0.0
    else if vs[|vs| - 1].user == u then vs[|vs| - 1].value
    else Lookup(vs[..|vs| - 1], u)
  }

  /**
   * `{ ...prev, [u]: x }`: an existing key keeps its place and takes the new value; a
   * new key is appended.
   */
  function Assign(vs: seq<SplitValue>, u: UserId, x: real): (r: seq<SplitValue>)
    ensures u in Keys(vs) ==> |r| == |vs| && forall i :: 0 <= i < |vs| ==> r[i].user == vs[i].user
    ensures u !in Keys(vs) ==> r == vs + [SplitValue(u, x)]
  {
    if u in Keys(vs) then seq(|vs|, i requires 0 <= i < |vs| => if vs[i].user == u then SplitValue(u, x) else vs[i])
    else vs + [SplitValue(u, x)]
  }

  /** `Object.values(splitValues).reduce((a, b) => a + b, 0)`. */
  function ValuesTotal(vs: seq<SplitValue>): real
  {
    if vs == [] then 0.0 else ValuesTotal(vs[..|vs| - 1]) + vs[|vs| - 1].value
  }

  /** The dictionary the reset effect builds: `members.forEach(m => initialSplits[m._id] = 0)`. */
  function ZeroValues(members: seq<Member>): seq<SplitValue>
  {
    if members == [] then [] else Assign(ZeroValues(members[..|members| - 1]), members[|members| - 1].id, 0.0)
  }

  /** Whether `validateSplits` accepts a split of type `t` whose values add up to `total`. */
  predicate Passes(t: FormSplitType, total: real, amount: real)
  {
    match t
    case Percentage => Abs(total - 100.0) <= 0.1
    case Exact => Abs(total - amount) <= 0.1
    case _ => true
  }

  /** One payload entry: the user, plus the looked-up value in the field of the chosen type. */
  function PayloadSplit(t: FormSplitType, id: UserId, val: real): Split
  {
    match t
    case Equal => Split(id, None, None, None)
    case Percentage => Split(id, None, Some(val), None)
    case Shares => Split(id, None, None, Some(val))
    case Exact => Split(id, Some(val), None, None)
  }

  /** The `splits` payload: `members.map(m => ...)`. */
  function BuildSplits(members: seq<Member>, t: FormSplitType, vs: seq<SplitValue>): (r: seq<Split>)
    ensures |r| == |members|
    ensures forall i :: 0 <= i < |r| ==> r[i].user == members[i].id
    ensures t == Equal ==> forall i :: 0 <= i < |r| ==> r[i] == UserOnly(members[i].id)
    ensures t == Percentage ==> forall i :: 0 <= i < |r| ==>
      r[i].percentage == Some(Lookup(vs, members[i].id)) && r[i].amount.None? && r[i].shares.None?
    ensures t == Shares ==> forall i :: 0 <= i < |r| ==>
      r[i].shares == Some(Lookup(vs, members[i].id)) && r[i].amount.None? && r[i].percentage.None?
    ensures t == Exact ==> forall i :: 0 <= i < |r| ==>
      r[i].amount == Some(Lookup(vs, members[i].id)) && r[i].percentage.None? && r[i].shares.None?
  {
    seq(|members|, i requires 0 <= i < |members| => PayloadSplit(t, members[i].id, Lookup(vs, members[i].id)))
  }

  /** The modal's split state. */
  class SplitForm {
    var splitType: FormSplitType
    var splitValues: seq<SplitValue>
    var validationError: FormError

    predicate Valid()
      reads this
    {
      UniqueKeys(splitValues)
    }

    constructor ()
      ensures Valid()
      ensures splitType == Equal && splitValues == [] && validationError == NoError
    {
      splitType := Equal;
      splitValues := [];
      validationError := NoError;
    }

    /** The reset effect when the modal opens: every member at 0, type EQUAL, no error. */
    method Open(members: seq<Member>)
      modifies this
      ensures Valid()
      ensures splitValues == ZeroValues(members)
      ensures splitType == Equal && validationError == NoError
    {
      var initialSplits: seq<SplitValue> := [];
      for i := 0 to |members|
        invariant initialSplits == ZeroValues(members[..i])
      {
        assert members[..i + 1][..i] == members[..i];
        initialSplits := Assign(initialSplits, members[i].id, 0.0);
      }
      assert members[..|members|] == members;
      ZeroValuesFacts(members);
      splitValues := initialSplits;
      splitType := Equal;
      validationError := NoError;
    }

    /** A click on one of the four type buttons. */
    method SelectSplitType(t: FormSplitType)
      modifies this
      ensures splitType == t
      ensures splitValues == old(splitValues) && validationError == old(validationError)
    {
      splitType := t;
    }

    /**
     * handleSplitChange: `parsed` is `parseFloat(value)` (None when it is NaN); the
     * entry of `userId` becomes `parsed || 0` and nothing else changes.
     */
    method HandleSplitChange(userId: UserId, parsed: Option<real>)
      requires Valid()
      modifies this
      ensures Valid()
      ensures splitValues == Assign(old(splitValues), userId, OrZero(parsed))
      ensures splitType == old(splitType) && validationError == old(validationError)
    {
      AssignFacts(splitValues, userId, OrZero(parsed));
      splitValues := Assign(splitValues, userId, OrZero(parsed));
    }

    /**
     * validateSplits: EQUAL passes at once and leaves the error as it was; a failed
     * PERCENTAGE or EXACT total sets its message and fails; anything else clears the
     * message and passes.
     */
    method ValidateSplits(amount: real) returns (ok: bool)
      modifies this
      ensures ok == Passes(splitType, ValuesTotal(splitValues), amount)
      ensures splitType == old(splitType) && splitValues == old(splitValues)
      ensures splitType == Equal ==> validationError == old(validationError)
      ensures splitType != Equal && ok ==> validationError == NoError
      ensures !ok && splitType == Percentage ==> validationError == PercentageTotal(ValuesTotal(splitValues))
      ensures !ok && splitType == Exact ==> validationError == ExactTotal(ValuesTotal(splitValues), amount)
    {
      if splitType == Equal {
        return true;
      }
      if splitType == Percentage {
        var total := ValuesTotal(splitValues);
        if Abs(total - 100.0) > 0.1 {
          validationError := PercentageTotal(total);
          return false;
        }
      }
      if splitType == Exact {
        var total := ValuesTotal(splitValues);
        if Abs(total - amount) > 0.1 {
          validationError := ExactTotal(total, amount);
          return false;
        }
      }
      validationError := NoError;
      return true;
    }

    /** The body's `splits` for the current state. */
    function Payload(members: seq<Member>): (r: seq<Split>)
      reads this
      ensures |r| == |members| && forall i :: 0 <= i < |r| ==> r[i].user == members[i].id
    {
      BuildSplits(members, splitType, splitValues)
    }
  }

  // ---------------------------------------------------------------------------
  // The dictionary
  // ---------------------------------------------------------------------------

  lemma {:induction false} LookupFound(vs: seq<SplitValue>, i: nat)
    requires UniqueKeys(vs) && i < |vs|
    ensures Lookup(vs, vs[i].user) == vs[i].value
  {
    var p := vs[..|vs| - 1];
    if i < |vs| - 1 {
      assert Keys(vs)[i] != Keys(vs)[|vs| - 1];
      assert Keys(p) == Keys(vs)[..|vs| - 1];
      assert p[i] == vs[i];
      LookupFound(p, i);
    }
  }

  lemma {:induction false} LookupMissing(vs: seq<SplitValue>, u: UserId)
    requires u !in Keys(vs)
    ensures Lookup(vs, u) == 0.0
  {
    if vs != [] {
      var p := vs[..|vs| - 1];
      assert Keys(vs)[|vs| - 1] == vs[|vs| - 1].user;
      assert Keys(p) == Keys(vs)[..|vs| - 1];
      LookupMissing(p, u);
    }
  }

  /** The value of `u` after an assignment: the new value for `u`, the old one for every other key. */
  lemma AssignFacts(vs: seq<SplitValue>, u: UserId, x: real)
    requires UniqueKeys(vs)
    ensures UniqueKeys(Assign(vs, u, x))
    ensures Lookup(Assign(vs, u, x), u) == x
    ensures forall v :: v != u ==> Lookup(Assign(vs, u, x), v) == Lookup(vs, v)
    ensures forall v :: v in Keys(Assign(vs, u, x)) <==> v in Keys(vs) || v == u
  {
    var r := Assign(vs, u, x);
    if u in Keys(vs) {
      assert Keys(r) == Keys(vs);
      var j :| 0 <= j < |vs| && vs[j].user == u;
      assert r[j] == SplitValue(u, x);
      LookupFound(r, j);
      forall v | v != u ensures Lookup(r, v) == Lookup(vs, v) {
        if v in Keys(vs) {
          var k :| 0 <= k < |vs| && vs[k].user == v;
          assert r[k] == vs[k];
          LookupFound(r, k);
          LookupFound(vs, k);
        } else {
          LookupMissing(vs, v);
          LookupMissing(r, v);
        }
      }
    } else {
      assert Keys(r) == Keys(vs) + [u];
      assert r[..|r| - 1] == vs;
    }
  }

  /** After the reset, every member is at 0, the keys are the members' ids, each once, in roster order when the ids are distinct. */
  lemma ZeroValuesFacts(members: seq<Member>)
    ensures UniqueKeys(ZeroValues(members))
    ensures forall v :: v in Keys(ZeroValues(members)) <==> v in Ids(members)
    ensures forall v :: Lookup(ZeroValues(members), v) == 0.0
    ensures NoDuplicates(Ids(members)) ==> Keys(ZeroValues(members)) == Ids(members)
  {
    ZeroValuesTracks(members);
    if NoDuplicates(Ids(members)) {
      ZeroValuesKeys(members);
    }
  }

  lemma {:induction false} ZeroValuesTracks(members: seq<Member>)
    ensures UniqueKeys(ZeroValues(members))
    ensures forall v :: v in Keys(ZeroValues(members)) <==> v in Ids(members)
    ensures forall v :: Lookup(ZeroValues(members), v) == 0.0
  {
    if members != [] {
      var p, m := members[..|members| - 1], members[|members| - 1];
      ZeroValuesTracks(p);
      AssignFacts(ZeroValues(p), m.id, 0.0);
      assert Ids(members) == Ids(p) + [m.id];
    }
  }

  lemma {:induction false} ZeroValuesKeys(members: seq<Member>)
    requires NoDuplicates(Ids(members))
    ensures Keys(ZeroValues(members)) == Ids(members)
  {
    if members != [] {
      var p, m := members[..|members| - 1], members[|members| - 1];
      assert Ids(members) == Ids(p) + [m.id];
      NoDuplicatesPrefix(Ids(members), |Ids(p)|);
      assert Ids(members)[..|Ids(p)|] == Ids(p);
      ZeroValuesKeys(p);
      ZeroValuesTracks(p);
      assert m.id !in Ids(p) by {
        forall i | 0 <= i < |Ids(p)| ensures Ids(p)[i] != m.id {
          assert Ids(members)[i] == Ids(p)[i];
        }
      }
      AssignFacts(ZeroValues(p), m.id, 0.0);
    }
  }


  /** handleSplitChange touches one entry: the given user's value changes, every other entry keeps its value. */
  lemma HandleSplitChangeFrame(vs: seq<SplitValue>, userId: UserId, parsed: Option<real>, other: UserId)
    requires UniqueKeys(vs) && other != userId
    ensures Lookup(Assign(vs, userId, OrZero(parsed)), userId) == OrZero(parsed)
    ensures Lookup(Assign(vs, userId, OrZero(parsed)), other) == Lookup(vs, other)
  {
    AssignFacts(vs, userId, OrZero(parsed));
  }

  // ---------------------------------------------------------------------------
  // The form against the server
  // ---------------------------------------------------------------------------

  /** The looked-up values of the members, summed in roster order. */
  function MemberTotal(members: seq<Member>, vs: seq<SplitValue>): real
  {
    if members == [] then 0.0 else MemberTotal(members[..|members| - 1], vs) + Lookup(vs, members[|members| - 1].id)
  }

  lemma {:induction false} PayloadTotals(members: seq<Member>, vs: seq<SplitValue>)
    ensures TotalPercentage(BuildSplits(members, Percentage, vs)) == MemberTotal(members, vs)
    ensures TotalAmount(BuildSplits(members, Exact, vs)) == MemberTotal(members, vs)
    ensures TotalShares(BuildSplits(members, Shares, vs)) == MemberTotal(members, vs)
  {
    if members != [] {
      var p := members[..|members| - 1];
      PayloadTotals(p, vs);
      assert BuildSplits(members, Percentage, vs)[..|p|] == BuildSplits(p, Percentage, vs);
      assert BuildSplits(members, Exact, vs)[..|p|] == BuildSplits(p, Exact, vs);
      assert BuildSplits(members, Shares, vs)[..|p|] == BuildSplits(p, Shares, vs);
    }
  }

  /** When the dictionary's keys are the members' ids in order, the member total is the form's total. */
  lemma {:induction false} MemberTotalIsValuesTotal(members: seq<Member>, vs: seq<SplitValue>)
    requires UniqueKeys(vs) && Keys(vs) == Ids(members)
    ensures MemberTotal(members, vs) == ValuesTotal(vs)
  {
    if members != [] {
      var p, q := members[..|members| - 1], vs[..|vs| - 1];
      var last := vs[|vs| - 1];
      assert Keys(q) == Keys(vs)[..|vs| - 1];
      assert Ids(p) == Ids(members)[..|members| - 1];
      assert UniqueKeys(q);
      MemberTotalIsValuesTotal(p, q);
      LookupFound(vs, |vs| - 1);
      SameTotalWithoutLast(p, vs);
    }
  }

  /** The looked-up values of keys before the last one do not see the last entry. */
  lemma {:induction false} SameTotalWithoutLast(p: seq<Member>, vs: seq<SplitValue>)
    requires UniqueKeys(vs) && vs != [] && |p| < |vs|
    requires forall i :: 0 <= i < |p| ==> p[i].id == vs[i].user
    ensures MemberTotal(p, vs) == MemberTotal(p, vs[..|vs| - 1])
  {
    if p != [] {
      var pp := p[..|p| - 1];
      SameTotalWithoutLast(pp, vs);
      var k := |p| - 1;
      assert Keys(vs)[k] != Keys(vs)[|vs| - 1];
    }
  }

  /**
   * The posted totals are the form's totals: for a dictionary keyed by the members in
   * roster order, each non-EQUAL payload adds up to what `validateSplits` checked.
   */
  lemma PayloadTotalMatchesForm(members: seq<Member>, vs: seq<SplitValue>)
    requires UniqueKeys(vs) && Keys(vs) == Ids(members)
    ensures TotalPercentage(BuildSplits(members, Percentage, vs)) == ValuesTotal(vs)
    ensures TotalAmount(BuildSplits(members, Exact, vs)) == ValuesTotal(vs)
    ensures TotalShares(BuildSplits(members, Shares, vs)) == ValuesTotal(vs)
  {
    PayloadTotals(members, vs);
    MemberTotalIsValuesTotal(members, vs);
  }

  /** The request the form posts. */
  function FormRequest(description: string, amount: real, groupId: GroupId, members: seq<Member>,
                       t: FormSplitType, vs: seq<SplitValue>): ExpenseController.ExpenseRequest
  {
    ExpenseController.ExpenseRequest(description, amount, groupId, TypeName(t), Some(BuildSplits(members, t, vs)))
  }

  /** Whatever the server's total check accepts, the form accepted too (0.01 is inside 0.1). */
  lemma ServerAcceptedFormAccepted(description: string, amount: real, groupId: GroupId, members: seq<Member>,
                                   t: FormSplitType, vs: seq<SplitValue>)
    requires UniqueKeys(vs) && Keys(vs) == Ids(members)
    requires ExpenseController.CheckSplits(FormRequest(description, amount, groupId, members, t, vs)).Pass?
    ensures Passes(t, ValuesTotal(vs), amount)
  {
    PayloadTotalMatchesForm(members, vs);
  }

  /**
   * The converse fails: percentages of 60.05 and 40 add up to 100.05, which the form
   * accepts and the server rejects with a 400.
   */
  lemma ToleranceGap()
    ensures var members := [Member("A", "Ann"), Member("B", "Bob")];
      var vs := [SplitValue("A", 60.05), SplitValue("B", 40.0)];
      && Passes(Percentage, ValuesTotal(vs), 50.0)
      && ExpenseController.CheckSplits(FormRequest("Drinks", 50.0, "G", members, Percentage, vs))
         == ExpenseController.Reject(ExpenseController.PercentageMessage)
  {
    var members := [Member("A", "Ann"), Member("B", "Bob")];
    var vs := [SplitValue("A", 60.05), SplitValue("B", 40.0)];
    assert vs[..1] == [SplitValue("A", 60.05)] && vs[..1][..0] == [];
    assert ValuesTotal(vs) == 100.05;
    assert Keys(vs) == Ids(members);
    assert Keys(vs)[0] != Keys(vs)[1];
    PayloadTotalMatchesForm(members, vs);
  }
}
