/** Facts about FIFO queues of order ids. */
module Queues {

  ghost predicate NoDup<T>(q: seq<T>) {
    forall i, j :: 0 <= i < j < |q| ==> q[i] != q[j]
  }

  /** The queue with its first occurrence of x taken out; the others keep their order. */
  function Without<T(==)>(q: seq<T>, x: T): (r: seq<T>)
    ensures forall y :: y in r ==> y in q
    ensures forall y :: y in q && y != x ==> y in r
    ensures x !in q ==> r == q
    ensures x in q ==> |r| == |q| - 1
  {
    if q == [] then [] else
    if q[0] == x then q[1..] else
    var r := Without(q[1..], x);
    assert forall y :: y in q ==> y == q[0] || y in q[1..];
    [q[0]] + r
  }

  lemma {:induction false} WithoutAt<T>(q: seq<T>, k: nat)
    requires k < |q| && NoDup(q)
    ensures Without(q, q[k]) == q[..k] + q[k + 1..]
  {
    if k > 0 {
      WithoutAt(q[1..], k - 1);
      assert q[0] != q[k] && q[1..][k - 1] == q[k];
      assert q[..k] + q[k + 1..] == [q[0]] + (q[1..][..k - 1] + q[1..][k..]);
    }
  }

  lemma NoDupWithout<T>(q: seq<T>, x: T)
    requires NoDup(q)
    ensures NoDup(Without(q, x))
    ensures x !in Without(q, x)
  {
    if x in q {
      var k :| 0 <= k < |q| && q[k] == x;
      WithoutAt(q, k);
    }
  }

  /** Taking x out and putting it back at the end changes nobody else's position. */
  lemma WithoutAppended<T>(q: seq<T>, x: T)
    requires x !in q && NoDup(q)
    ensures Without(q + [x], x) == q
  {
    WithoutAt(q + [x], |q|);
    assert (q + [x])[..|q|] + (q + [x])[|q| + 1..] == q;
  }

  lemma NoDupConcat<T>(a: seq<T>, b: seq<T>)
    requires NoDup(a) && NoDup(b) && (forall x :: x in b ==> x !in a)
    ensures NoDup(a + b)
  {
    forall i, j | 0 <= i < j < |a + b|
      ensures (a + b)[i] != (a + b)[j]
    {
      if i < |a| <= j {
        assert b[j - |a|] in b && a[i] in a;
      }
    }
  }

  /** What stands before the first x; all of q if x is not there. */
  function Ahead<T(==)>(q: seq<T>, x: T): seq<T> {
    if q == [] || q[0] == x then [] else [q[0]] + Ahead(q[1..], x)
  }

  lemma {:induction false} AheadIs<T>(q: seq<T>, x: T, k: nat)
    requires k <= |q| && x !in q[..k] && (k < |q| ==> q[k] == x)
    ensures Ahead(q, x) == q[..k]
  {
    if k > 0 {
      assert q[0] == q[..k][0] && q[1..][..k - 1] == q[..k][1..];
      AheadIs(q[1..], x, k - 1);
      assert q[..k] == [q[0]] + q[..k][1..];
    }
  }

  lemma {:induction false} NoDupCardinality<T>(xs: seq<T>)
    requires NoDup(xs)
    ensures |set x | x in xs| == |xs|
  {
    if xs != [] {
      NoDupCardinality(xs[1..]);
      var all, rest := set x | x in xs, set x | x in xs[1..];
      forall x | x in all
        ensures x in rest + {xs[0]}
      {
        assert x in xs;
      }
      assert all == rest + {xs[0]};
    }
  }

  lemma CardinalityOf<T>(xs: seq<T>, s: set<T>)
    requires NoDup(xs) && (forall i :: 0 <= i < |xs| ==> xs[i] in s) && (forall x :: x in s ==> x in xs)
    ensures |s| == |xs|
  {
    NoDupCardinality(xs);
    assert s == set x | x in xs;
  }

  lemma SubsetSize<T>(a: set<T>, b: set<T>)
    requires a <= b
    ensures |a| <= |b|
  {
    assert b == a + (b - a);
  }
}
