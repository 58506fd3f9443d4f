/** Small building blocks shared by every controller model. */
module Common {

  datatype Option<T> = None | Some(value: T)

  /** A handler's reply: a 200 with a body, a 201 with the created document, or an error status and its message. */
  datatype Response<T> = Ok(value: T) | Created(value: T) | Err(code: int, message: string)

  /** JavaScript's `x || 0` on an optional number: a missing value (and 0 itself) reads as 0. */
  function OrZero(o: Option<real>): real
  {
    if o.Some? then o.value else 0.0
  }

  /** `Math.abs` on exact reals. */
  function Abs(x: real): real
  {
    if x < 0.0 then -x else x
  }

  predicate NoDuplicates<T(==)>(s: seq<T>)
  {
    forall i, j :: 0 <= i < j < |s| ==> s[i] != s[j]
  }

  /** Number of positions of `s` that hold `x`. */
  function Count<T(==)>(s: seq<T>, x: T): nat
  {
    if s == [] then 0 else Count(s[..|s| - 1], x) + (if s[|s| - 1] == x then 1 else 0)
  }

  lemma NoDuplicatesPrefix<T>(s: seq<T>, n: nat)
    requires NoDuplicates(s) && n <= |s|
    ensures NoDuplicates(s[..n])
  {
    forall i, j | 0 <= i < j < n ensures s[..n][i] != s[..n][j] {
      assert s[..n][i] == s[i] && s[..n][j] == s[j];
    }
  }

  /** A value that does not occur is counted 0 times. */
  lemma {:induction false} CountAbsent<T>(s: seq<T>, x: T)
    requires x !in s
    ensures Count(s, x) == 0
  {
    if s != [] {
      CountAbsent(s[..|s| - 1], x);
    }
  }
}
