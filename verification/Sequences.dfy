/** Sequences with an element taken out, shared by the linked lists and their specification. */
module Sequences {

  ghost predicate NoDuplicates<T>(q: seq<T>) {
    forall x, y :: 0 <= x < y < |q| ==> q[x] != q[y]
  }

  /** `q` without the first occurrence of `p`. */
  function Without<T(==)>(q: seq<T>, p: T): seq<T> {
    if q == [] then [] else if q[0] == p then q[1..] else [q[0]] + Without(q[1..], p)
  }

  lemma {:induction false} WithoutFacts<T>(q: seq<T>, p: T)
    requires NoDuplicates(q)
    ensures forall j :: j in Without(q, p) <==> j in q && j != p
    ensures NoDuplicates(Without(q, p))
  {
    if q != [] {
      assert q == [q[0]] + q[1..];
      WithoutFacts(q[1..], p);
      assert q[0] !in q[1..];
    }
  }

  lemma {:induction false} WithoutLength<T>(q: seq<T>, p: T)
    requires p in q
    ensures |Without(q, p)| == |q| - 1
  {
    if q[0] != p {
      WithoutLength(q[1..], p);
    }
  }

  /** Without an element at a known place. */
  lemma {:induction false} WithoutAt<T>(q: seq<T>, k: nat)
    requires NoDuplicates(q) && k < |q|
    ensures Without(q, q[k]) == q[..k] + q[k + 1..]
  {
    if k > 0 {
      WithoutAt(q[1..], k - 1);
      assert q[1..][k - 1] == q[k];
      assert [q[0]] + q[1..][..k - 1] == q[..k];
      assert q[1..][k..] == q[k + 1..];
    }
  }

  lemma WithoutFirst<T>(p: T, q: seq<T>)
    ensures Without([p] + q, p) == q
  {
    assert ([p] + q)[1..] == q;
  }

  lemma ConcatNoDuplicates<T>(q: seq<T>, r: seq<T>)
    requires NoDuplicates(q) && NoDuplicates(r) && forall x :: 0 <= x < |q| ==> q[x] !in r
    ensures NoDuplicates(q + r)
  {
    forall x, y | 0 <= x < y < |q + r|
      ensures (q + r)[x] != (q + r)[y]
    {
      if x < |q| <= y {
        assert (q + r)[y] == r[y - |q|];
      }
    }
  }
}
