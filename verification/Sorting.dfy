/** Sorting by a caller's order. */
module Sorting {

  ghost predicate TotalOrder<T(!new)>(le: (T, T) -> bool)
  {
    && (forall a, b :: le(a, b) || le(b, a))
    && (forall a, b, c :: le(a, b) && le(b, c) ==> le(a, c))
  }

  ghost predicate Sorted<T>(xs: seq<T>, le: (T, T) -> bool)
  {
    forall i, j :: 0 <= i < j < |xs| ==> le(xs[i], xs[j])
  }

  ghost predicate Distinct<T>(xs: seq<T>)
  {
    forall i, j :: 0 <= i < j < |xs| ==> xs[i] != xs[j]
  }

  lemma InsertDistinct<T>(xs: seq<T>, at: nat, x: T)
    requires Distinct(xs) && at <= |xs| && x !in xs
    ensures Distinct(xs[..at] + [x] + xs[at..])
  {
    var ys := xs[..at] + [x] + xs[at..];
    forall i, j | 0 <= i < j < |ys|
      ensures ys[i] != ys[j]
    {
      assert i != at ==> ys[i] == xs[if i < at then i else i - 1];
      assert j != at ==> ys[j] == xs[if j < at then j else j - 1];
    }
  }

  lemma InsertAt<T(!new)>(xs: seq<T>, le: (T, T) -> bool, at: nat, x: T)
    requires TotalOrder(le) && Sorted(xs, le) && at <= |xs|
    requires at > 0 ==> le(xs[at - 1], x)
    requires at < |xs| ==> le(x, xs[at])
    ensures Sorted(xs[..at] + [x] + xs[at..], le)
    ensures forall y :: y in xs[..at] + [x] + xs[at..] <==> y == x || y in xs
    ensures |xs[..at] + [x] + xs[at..]| == |xs| + 1
  {
    var ys := xs[..at] + [x] + xs[at..];
    assert xs == xs[..at] + xs[at..];
    forall i, j | 0 <= i < j < |ys|
      ensures le(ys[i], ys[j])
    {
      if i == at {
        assert ys[j] == xs[j - 1];
        assert at == j - 1 || le(xs[at], xs[j - 1]);
      } else if j == at {
        assert ys[i] == xs[i];
        assert i == at - 1 || le(xs[i], xs[at - 1]);
      } else {
        assert ys[i] == xs[if i < at then i else i - 1] && ys[j] == xs[if j < at then j else j - 1];
      }
    }
  }

  /** `ys` lists the elements of `xs` by the positions in `perm`, each once. */
  ghost predicate Permutes<T>(xs: seq<T>, ys: seq<T>, perm: seq<nat>)
  {
    && |perm| == |ys| == |xs| && Distinct(perm)
    && (forall i :: 0 <= i < |perm| ==> perm[i] < |xs| && ys[i] == xs[perm[i]])
    && (forall k: nat :: k < |xs| ==> k in perm)
  }

  lemma InsertPermutes<T>(xs: seq<T>, ys: seq<T>, perm: seq<nat>, at: nat, x: T)
    requires Permutes(xs, ys, perm) && at <= |ys|
    ensures Permutes(xs + [x], ys[..at] + [x] + ys[at..], perm[..at] + [|xs|] + perm[at..])
  {
    InsertDistinct(perm, at, |xs|);
    var perm' := perm[..at] + [|xs|] + perm[at..];
    forall k: nat | k < |xs| + 1
      ensures k in perm'
    {
      if k < |xs| {
        assert k in perm;
        var i :| 0 <= i < |perm| && perm[i] == k;
        assert perm'[if i < at then i else i + 1] == k;
      } else {
        assert perm'[at] == k;
      }
    }
  }

  method Sort<T(!new)>(xs: seq<T>, le: (T, T) -> bool) returns (ys: seq<T>)
    requires TotalOrder(le)
    ensures Sorted(ys, le) && |ys| == |xs|
    ensures forall x :: x in ys <==> x in xs
    ensures Distinct(xs) ==> Distinct(ys)
    ensures exists perm :: Permutes(xs, ys, perm)
  {
    ys := [];
    ghost var perm: seq<nat> := [];
    for n := 0 to |xs|
      invariant Sorted(ys, le) && |ys| == n
      invariant forall x :: x in ys <==> x in xs[..n]
      invariant Distinct(xs) ==> Distinct(ys)
      invariant Permutes(xs[..n], ys, perm)
    {
      var at := |ys|;
      while 0 < at && !le(ys[at - 1], xs[n])
        invariant 0 <= at <= |ys|
        invariant at < |ys| ==> le(xs[n], ys[at])
      {
        at := at - 1;
      }
      InsertAt(ys, le, at, xs[n]);
      InsertPermutes(xs[..n], ys, perm, at, xs[n]);
      if Distinct(xs) {
        assert xs[n] !in xs[..n];
        InsertDistinct(ys, at, xs[n]);
      }
      ys := ys[..at] + [xs[n]] + ys[at..];
      perm := perm[..at] + [n] + perm[at..];
      assert xs[..n + 1] == xs[..n] + [xs[n]];
    }
    assert xs[..|xs|] == xs;
  }

  /** Drop equal neighbours. */
  method Unique<T(==)>(xs: seq<T>) returns (ys: seq<T>)
    ensures forall x :: x in ys <==> x in xs
    ensures IsSubsequence(xs, ys)
  {
    ys := [];
    ghost var picks: seq<nat> := [];
    for n := 0 to |xs|
      invariant forall x :: x in ys <==> x in xs[..n]
      invariant n > 0 ==> ys != [] && ys[|ys| - 1] == xs[n - 1]
      invariant Picks(xs, ys, picks) && forall k :: 0 <= k < |picks| ==> picks[k] < n
    {
      assert xs[..n + 1] == xs[..n] + [xs[n]];
      if n == 0 || xs[n] != xs[n - 1] {
        ys := ys + [xs[n]];
        picks := picks + [n];
      }
    }
    assert xs[..|xs|] == xs;
  }

  ghost predicate Picks<T>(xs: seq<T>, ys: seq<T>, picks: seq<nat>)
  {
    && |picks| == |ys|
    && (forall k :: 0 <= k < |picks| ==> picks[k] < |xs| && ys[k] == xs[picks[k]])
    && (forall j, k :: 0 <= j < k < |picks| ==> picks[j] < picks[k])
  }

  ghost predicate IsSubsequence<T>(xs: seq<T>, ys: seq<T>)
  {
    exists picks: seq<nat> :: Picks(xs, ys, picks)
  }

  lemma SubsequenceSorted<T>(xs: seq<T>, ys: seq<T>, le: (T, T) -> bool)
    requires Sorted(xs, le) && IsSubsequence(xs, ys)
    ensures Sorted(ys, le)
  {
    var picks: seq<nat> :| Picks(xs, ys, picks);
  }
}
