/**
 * Shapes of the stored documents (server/src/models): users, groups and expenses.
 * Object ids are opaque strings; amounts are exact reals.
 */
module Models {
  import opened Common

  type UserId = string
  type GroupId = string

  /** The four split types the expense schema admits. */
  const EQUAL: string := "EQUAL"
  const PERCENTAGE: string := "PERCENTAGE"
  const SHARES: string := "SHARES"
  const EXACT: string := "EXACT"

  predicate IsSchemaSplitType(t: string)
  {
    t == EQUAL || t == PERCENTAGE || t == SHARES || t == EXACT
  }

  /** One entry of `expense.splits`: the user and the three optional numbers. */
  datatype Split = Split(user: UserId, amount: Option<real>, percentage: Option<real>, shares: Option<real>)

  /** A split that names only its user (`{ user: m }`). */
  function UserOnly(u: UserId): Split
  {
    Split(u, None, None, None)
  }

  /**
   * A stored expense. `splitType` stays a string: the calculator compares it with
   * the four names and treats anything else as "credit the payer only".
   */
  datatype Expense = Expense(
    description: string,
    amount: real,
    paidBy: UserId,
    group: GroupId,
    splitType: string,
    splits: seq<Split>)

  datatype Group = Group(name: string, creator: UserId, members: seq<UserId>)

  datatype User = User(id: UserId, email: string, name: string)

  /** `splits.reduce((acc, curr) => acc + (curr.percentage || 0), 0)`. */
  function TotalPercentage(ss: seq<Split>): real
  {
    if ss == [] then 0.0 else TotalPercentage(ss[..|ss| - 1]) + OrZero(ss[|ss| - 1].percentage)
  }

  /** `splits.reduce((acc, curr) => acc + (curr.shares || 0), 0)`. */
  function TotalShares(ss: seq<Split>): real
  {
    if ss == [] then 0.0 else TotalShares(ss[..|ss| - 1]) + OrZero(ss[|ss| - 1].shares)
  }

  /** `splits.reduce((acc, curr) => acc + (curr.amount || 0), 0)`. */
  function TotalAmount(ss: seq<Split>): real
  {
    if ss == [] then 0.0 else TotalAmount(ss[..|ss| - 1]) + OrZero(ss[|ss| - 1].amount)
  }

  /** `User.findOne({ email })`: the first user, in collection order, with that email. */
  function FindByEmail(users: seq<User>, email: string): (r: Option<User>)
    ensures r.Some? ==> r.value in users && r.value.email == email
    ensures r.None? ==> forall i :: 0 <= i < |users| ==> users[i].email != email
  {
    if users == [] then None
    else if users[0].email == email then Some(users[0])
    else FindByEmail(users[1..], email)
  }

  predicate UniqueUserIds(users: seq<User>)
  {
    forall i, j :: 0 <= i < j < |users| ==> users[i].id != users[j].id
  }
}
