/** Links that lead upwards to a representative: following them, compressing the way,
    and grafting several representatives under a new one. */
module DisjointSets {

  /** A node links to a later one, or to itself when it has no parent. */
  ghost predicate Links(up: seq<nat>)
  {
    forall n :: 0 <= n < |up| ==> n <= up[n] < |up|
  }

  ghost function Top(up: seq<nat>, n: nat): (t: nat)
    requires Links(up) && n < |up|
    ensures n <= t < |up| && up[t] == t
    decreases |up| - n
  {
    if up[n] == n then n else Top(up, up[n])
  }

  /** `a` is met on the way up from `n`. */
  ghost predicate Under(up: seq<nat>, n: nat, a: nat)
    requires Links(up) && n < |up|
    decreases |up| - n
  {
    n == a || (up[n] != n && Under(up, up[n], a))
  }

  lemma {:induction false} UnderTop(up: seq<nat>, n: nat, a: nat)
    requires Links(up) && n < |up|
    ensures Under(up, n, Top(up, n))
    ensures Under(up, n, a) ==> n <= a < |up| && Top(up, a) == Top(up, n)
    decreases |up| - n
  {
    if up[n] != n {
      UnderTop(up, up[n], a);
    }
  }

  lemma {:induction false} UnderTrans(up: seq<nat>, n: nat, a: nat, b: nat)
    requires Links(up) && n < |up| && a < |up| && Under(up, n, a) && Under(up, a, b)
    ensures Under(up, n, b)
    decreases |up| - n
  {
    if n != a {
      UnderTrans(up, up[n], a, b);
    }
  }

  /** Sets of nodes under two nodes are nested or disjoint. */
  lemma {:induction false} UnderNested(up: seq<nat>, n: nat, a: nat, b: nat)
    requires Links(up) && n < |up| && Under(up, n, a) && Under(up, n, b) && a <= b < |up| && a < |up|
    ensures Under(up, a, b)
    decreases |up| - n
  {
    if n == b {
      UnderTop(up, n, a);
    } else if n != a {
      UnderNested(up, up[n], a, b);
    }
  }

  // ----- path compression -----

  ghost predicate SameTops(up: seq<nat>, up': seq<nat>)
    requires Links(up) && Links(up')
  {
    && |up'| == |up|
    && forall n: nat :: n < |up| ==> Top(up', n) == Top(up, n)
  }

  lemma {:induction false} CompressKeepsTop(up: seq<nat>, node: nat, n: nat)
    requires Links(up) && node < |up| && n < |up| && up[node] != node
    ensures Links(up[node := Top(up, node)])
    ensures Top(up[node := Top(up, node)], n) == Top(up, n)
    decreases |up| - n
  {
    var up' := up[node := Top(up, node)];
    if n == node {
      var t := Top(up, node);
      assert up'[n] == t && t != n && up'[t] == t;
    } else if up[n] != n {
      CompressKeepsTop(up, node, up[n]);
    }
  }

  /** Find the representative of a node and point everything on the way at it. */
  method Find(up: seq<nat>, node: nat) returns (root: nat, up': seq<nat>)
    requires Links(up) && node < |up|
    ensures root == Top(up, node)
    ensures Links(up') && SameTops(up, up')
  {
    root := node;
    while up[root] != root
      invariant root < |up| && Top(up, root) == Top(up, node)
      decreases |up| - root
    {
      root := up[root];
    }
    up' := up;
    var n := node;
    while up'[n] != n
      invariant Links(up') && SameTops(up, up')
      invariant n < |up| && Top(up', n) == root
      decreases |up| - n
    {
      var next := up'[n];
      ghost var before := up';
      assert Top(up', next) == root;
      up' := up'[n := root];
      CompressKeepsTop(before, n, n);
      forall m: nat | m < |up|
        ensures Top(up', m) == Top(up, m)
      {
        CompressKeepsTop(before, n, m);
      }
      n := next;
    }
  }

  // ----- grafting -----

  /** `up'` has one more node, to which the representatives in `roots` now link. */
  ghost predicate Grafted(up: seq<nat>, roots: set<nat>, up': seq<nat>)
  {
    && |up'| == |up| + 1
    && up'[|up|] == |up|
    && forall n: nat :: n < |up| ==> up'[n] == if n in roots then |up| else up[n]
  }

  lemma {:induction false} GraftTop(up: seq<nat>, roots: set<nat>, up': seq<nat>, n: nat)
    requires Links(up) && Grafted(up, roots, up') && n < |up|
    requires forall r :: r in roots ==> r < |up| && up[r] == r
    ensures Links(up')
    ensures Top(up', n) == if Top(up, n) in roots then |up| else Top(up, n)
    ensures Under(up', n, |up|) <==> Top(up, n) in roots
    ensures forall a: nat :: a < |up| ==> (Under(up', n, a) <==> Under(up, n, a))
    decreases |up| - n
  {
    if up[n] != n {
      GraftTop(up, roots, up', up[n]);
    } else if n in roots {
      assert Top(up', |up|) == |up|;
    }
  }
}
