/** How many elements of a list satisfy a predicate, and how that number moves when the list does. */
module Counting {

  function Count<T>(q: seq<T>, p: T -> bool): nat {
    if q == [] then 0 else Count(q[..|q| - 1], p) + One(p(q[|q| - 1]))
  }

  function One(b: bool): nat { if b then 1 else 0 }

  lemma CountAppend<T>(q: seq<T>, x: T, p: T -> bool)
    ensures Count(q + [x], p) == Count(q, p) + One(p(x))
  {
    assert (q + [x])[..|q|] == q;
  }

  lemma {:induction false} CountUpdate<T>(q: seq<T>, i: nat, x: T, p: T -> bool)
    requires i < |q|
    ensures Count(q[i := x], p) + One(p(q[i])) == Count(q, p) + One(p(x))
  {
    var n := |q| - 1;
    if i == n {
      assert q[i := x][..n] == q[..n];
    } else {
      CountUpdate(q[..n], i, x, p);
      assert q[i := x][..n] == q[..n][i := x];
    }
  }

  lemma {:induction false} CountNone<T>(q: seq<T>, p: T -> bool)
    requires forall i :: 0 <= i < |q| ==> !p(q[i])
    ensures Count(q, p) == 0
  {
    if q != [] { CountNone(q[..|q| - 1], p); }
  }

  lemma {:induction false} CountImplies<T>(q: seq<T>, p: T -> bool, r: T -> bool)
    requires forall i :: 0 <= i < |q| ==> p(q[i]) ==> r(q[i])
    ensures Count(q, p) <= Count(q, r)
  {
    if q != [] { CountImplies(q[..|q| - 1], p, r); }
  }

  lemma {:induction false} CountWitness<T>(q: seq<T>, p: T -> bool)
    requires Count(q, p) > 0
    ensures exists i :: 0 <= i < |q| && p(q[i])
  {
    if !p(q[|q| - 1]) { CountWitness(q[..|q| - 1], p); }
  }

  /** Disjoint cases add up. */
  lemma {:induction false} CountCases<T>(q: seq<T>, p: T -> bool, a: T -> bool, b: T -> bool, c: T -> bool)
    requires forall i :: 0 <= i < |q| ==> One(p(q[i])) == One(a(q[i])) + One(b(q[i])) + One(c(q[i]))
    ensures Count(q, p) == Count(q, a) + Count(q, b) + Count(q, c)
  {
    if q != [] { CountCases(q[..|q| - 1], p, a, b, c); }
  }
}
