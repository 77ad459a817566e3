/** Checks tried in order, of which the first that refuses decides. */
module Chains {
  import opened Wrappers

  function Else<E>(a: Option<E>, b: Option<E>): Option<E> { if a.Some? then a else b }

  function When<E>(broken: bool, error: E): Option<E> { if broken then Some(error) else None }

  /** The first answer of a check tried on `from`, `from + 1`, ... below `n`. */
  function First<E>(n: nat, check: nat -> Option<E>, from: nat): Option<E>
    decreases n - from
  {
    if from >= n then None else Else(check(from), First(n, check, from + 1))
  }

  /** The first answer is at some index, with none before it. */
  lemma {:induction false} FirstAt<E>(n: nat, check: nat -> Option<E>, from: nat) returns (k: nat)
    ensures First(n, check, from).None? ==> forall j: nat :: from <= j < n ==> check(j).None?
    ensures First(n, check, from).Some? ==>
              && from <= k < n && check(k) == First(n, check, from)
              && forall j: nat :: from <= j < k ==> check(j).None?
    decreases n - from
  {
    k := from;
    if from < n && check(from).None? { k := FirstAt(n, check, from + 1); }
  }

  lemma FirstNone<E>(n: nat, check: nat -> Option<E>)
    ensures First(n, check, 0).None? <==> forall i: nat :: i < n ==> check(i).None?
  {
    var _ := FirstAt(n, check, 0);
  }

  /** Two runs of checks, one after the other. */
  lemma {:induction false} FirstJoins<E>(n: nat, check: nat -> Option<E>, from: nat, mid: nat)
    requires from <= mid <= n
    ensures First(n, check, from) == Else(First(mid, check, from), First(n, check, mid))
    decreases mid - from
  {
    if from < mid { FirstJoins(n, check, from + 1, mid); }
  }

  lemma FirstOfOne<E>(check: nat -> Option<E>)
    ensures First(1, check, 0) == check(0)
  {
    assert First(1, check, 1).None?;
  }

  lemma FirstOfThree<E>(check: nat -> Option<E>, from: nat)
    ensures First(from + 3, check, from) == Else(check(from), Else(check(from + 1), check(from + 2)))
  {
    assert First(from + 3, check, from + 3).None?;
    assert First(from + 3, check, from + 2) == check(from + 2);
  }

  lemma {:induction false} FirstOfFive<E>(check: nat -> Option<E>)
    ensures First(5, check, 0) == Else(check(0), Else(check(1), Else(check(2), Else(check(3), check(4)))))
  {
    assert First(5, check, 4) == check(4);
    assert First(5, check, 3) == Else(check(3), First(5, check, 4));
    assert First(5, check, 2) == Else(check(2), First(5, check, 3));
  }

  lemma FourChecks<E>(a: bool, b: bool, c: bool, d: bool, w: E, x: E, y: E, z: E)
    ensures (if a then Some(w) else if b then Some(x) else if c then Some(y) else if d then Some(z) else None)
         == Else(When(a, w), Else(When(b, x), Else(When(c, y), When(d, z))))
  {
  }
}
