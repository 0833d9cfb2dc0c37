/** Sizes of finite sets of naturals. */
module Finite {

  lemma SubsetSmaller<T>(a: set<T>, b: set<T>)
    requires a < b
    ensures |a| < |b|
  {
    var rest := b - a;
    assert b == a + rest;
    assert rest != {};
  }

  lemma {:induction false} AtMost(s: set<nat>, n: nat)
    requires forall b :: b in s ==> b < n
    ensures |s| <= n
  {
    if n > 0 {
      AtMost(s - {n - 1}, n - 1);
    } else {
      assert s == {};
    }
  }

  function Elements(q: seq<nat>): set<nat>
  {
    set n | n in q
  }

  lemma {:induction false} DistinctSize(q: seq<nat>)
    requires forall i, j :: 0 <= i < j < |q| ==> q[i] != q[j]
    ensures |Elements(q)| == |q|
    decreases |q|
  {
    if q != [] {
      var rest := q[..|q| - 1];
      DistinctSize(rest);
      assert q == rest + [q[|q| - 1]];
      assert q[|q| - 1] !in rest;
      assert Elements(q) == Elements(rest) + {q[|q| - 1]};
    }
  }

  /** A list of distinct numbers below `n` that lacks one of them is shorter than `n`. */
  lemma RoomForOne(q: seq<nat>, n: nat, b: nat)
    requires b < n && b !in q
    requires forall i :: 0 <= i < |q| ==> q[i] < n
    requires forall i, j :: 0 <= i < j < |q| ==> q[i] != q[j]
    ensures |q| < n
  {
    DistinctSize(q);
    AtMost(Elements(q) + {b}, n);
  }
}
