/** Classes of registers kept as circular lists in a `next` vector, with the class
    representative of every register in `first`. */
module Rings {

  /** Following `next` from each member reaches the following one, and the last
      member links back to the start. */
  ghost predicate IsRing(next: seq<nat>, q: seq<nat>)
  {
    && q != []
    && (forall i :: 0 <= i < |q| ==> q[i] < |next|)
    && (forall i :: 0 <= i < |q| - 1 ==> next[q[i]] == q[i + 1])
    && next[q[|q| - 1]] == q[0]
    && (forall i, j :: 0 <= i < j < |q| ==> q[i] != q[j])
  }

  /** The rings partition the registers, each starting at its representative. */
  ghost predicate Partition(first: seq<nat>, next: seq<nat>, rings: map<nat, seq<nat>>)
  {
    && |first| == |next|
    && (forall r: nat :: r < |first| ==> first[r] in rings && r in rings[first[r]])
    && (forall a :: a in rings ==> RingOf(first, next, rings[a], a))
  }

  ghost predicate RingOf(first: seq<nat>, next: seq<nat>, q: seq<nat>, a: nat)
  {
    && IsRing(next, q)
    && q[0] == a
    && |first| == |next|
    && (forall i :: 0 <= i < |q| ==> first[q[i]] == a)
  }

  function Rotate(q: seq<nat>, k: nat): seq<nat>
    requires k <= |q|
  {
    q[k..] + q[..k]
  }

  lemma RotatedAt(q: seq<nat>, k: nat, i: nat)
    requires k < |q| && i < |q|
    ensures |Rotate(q, k)| == |q|
    ensures Rotate(q, k)[i] == if i + k < |q| then q[i + k] else q[i + k - |q|]
  {
  }

  lemma RotatedRing(next: seq<nat>, q: seq<nat>, k: nat)
    requires IsRing(next, q) && k < |q|
    ensures IsRing(next, Rotate(q, k)) && Rotate(q, k)[0] == q[k] && |Rotate(q, k)| == |q|
    ensures forall x :: x in Rotate(q, k) <==> x in q
  {
    hide Rotate;
    var p := Rotate(q, k);
    RotatedAt(q, k, 0);
    forall i | 0 <= i < |q|
      ensures |p| == |q| && p[i] == if i + k < |q| then q[i + k] else q[i + k - |q|]
    {
      RotatedAt(q, k, i);
    }
    RotatedRingSteps(next, q, k, p);
    forall x | x in q
      ensures x in p
    {
      var i :| 0 <= i < |q| && q[i] == x;
      assert p[if k <= i then i - k else i - k + |q|] == x;
    }
  }

  lemma RotatedRingSteps(next: seq<nat>, q: seq<nat>, k: nat, p: seq<nat>)
    requires IsRing(next, q) && k < |q| == |p|
    requires forall i :: 0 <= i < |q| ==> p[i] == if i + k < |q| then q[i + k] else q[i + k - |q|]
    ensures IsRing(next, p)
  {
    forall i | 0 <= i < |p| - 1
      ensures next[p[i]] == p[i + 1]
    {
      if i + k + 1 == |q| {
        assert p[i] == q[|q| - 1] && p[i + 1] == q[0];
      }
    }
    assert next[p[|p| - 1]] == p[0] by {
      if k == 0 {
        assert p[|p| - 1] == q[|q| - 1];
      } else {
        assert p[|p| - 1] == q[k - 1];
      }
    }
  }

  /** Cutting ring `q` after its start and inserting ring `p` there. */
  lemma JoinedRing(next: seq<nat>, q: seq<nat>, p: seq<nat>, next': seq<nat>)
    requires IsRing(next, q) && IsRing(next, p)
    requires forall x, y :: x in q && y in p ==> x != y
    requires next' == next[q[0] := p[0]][p[|p| - 1] := next[q[0]]]
    ensures IsRing(next', [q[0]] + p + q[1..])
  {
    var r := [q[0]] + p + q[1..];
    forall i | 0 <= i < |r| - 1
      ensures next'[r[i]] == r[i + 1]
    {
      if i == 0 {
        assert q[0] in q && p[|p| - 1] in p;
      } else if i < |p| {
        assert r[i] == p[i - 1] && p[i - 1] in p && q[0] in q;
      } else if i == |p| {
        assert r[i] == p[|p| - 1];
      } else {
        assert r[i] == q[i - |p|] && q[i - |p|] in q && p[|p| - 1] in p;
      }
    }
    assert r[|r| - 1] == if |q| > 1 then q[|q| - 1] else p[|p| - 1];
    if |q| > 1 {
      assert q[|q| - 1] in q && p[|p| - 1] in p;
    }
    JoinedDistinct(q, p);
  }

  lemma JoinedDistinct(q: seq<nat>, p: seq<nat>)
    requires q != [] && forall x, y :: x in q && y in p ==> x != y
    requires forall i, j :: 0 <= i < j < |q| ==> q[i] != q[j]
    requires forall i, j :: 0 <= i < j < |p| ==> p[i] != p[j]
    ensures var r := [q[0]] + p + q[1..]; forall i, j :: 0 <= i < j < |r| ==> r[i] != r[j]
  {
    var r := [q[0]] + p + q[1..];
    forall i, j | 0 <= i < j < |r|
      ensures r[i] != r[j]
    {
      assert forall k :: 0 < k <= |p| ==> r[k] == p[k - 1] && p[k - 1] in p;
      assert forall k :: |p| < k < |r| ==> r[k] == q[k - |p|] && q[k - |p|] in q;
      assert q[0] in q;
    }
  }

  lemma RingUnchanged(next: seq<nat>, q: seq<nat>, next': seq<nat>)
    requires IsRing(next, q) && |next'| == |next|
    requires forall x :: x in q ==> next'[x] == next[x]
    ensures IsRing(next', q)
  {
  }

  /** Registers in one ring share a representative; different rings are disjoint. */
  lemma RingsDisjoint(first: seq<nat>, next: seq<nat>, rings: map<nat, seq<nat>>, a: nat, b: nat)
    requires Partition(first, next, rings) && a in rings && b in rings && a != b
    ensures forall x, y :: x in rings[a] && y in rings[b] ==> x != y
  {
    assert RingOf(first, next, rings[a], a) && RingOf(first, next, rings[b], b);
  }

  lemma ClassIsRing(first: seq<nat>, next: seq<nat>, rings: map<nat, seq<nat>>, a: nat)
    requires Partition(first, next, rings) && a in rings
    ensures a < |first| && first[a] == a && IsRing(next, rings[a]) && rings[a][0] == a
    ensures forall r: nat :: r < |first| ==> (first[r] == a <==> r in rings[a])
  {
    assert RingOf(first, next, rings[a], a);
  }

  // ----- joining two classes in place -----

  ghost function Joined(rings: map<nat, seq<nat>>, a: nat, b: nat, k: nat): map<nat, seq<nat>>
    requires a in rings && b in rings && rings[a] != [] && k <= |rings[b]|
  {
    (rings - {b})[a := [rings[a][0]] + Rotate(rings[b], k) + rings[a][1..]]
  }

  /** The effect of `Join` on the representatives. */
  ghost predicate MovesClass(first: seq<nat>, first': seq<nat>, a: nat, b: nat)
  {
    && |first'| == |first|
    && (forall r :: 0 <= r < |first| ==> first'[r] == if first[r] == b then a else first[r])
  }

  lemma JoinedMembers(q: seq<nat>, p: seq<nat>)
    requires q != []
    ensures forall x :: x in [q[0]] + p + q[1..] <==> x in q || x in p
  {
    assert q == [q[0]] + q[1..];
  }

  lemma OtherRing(first: seq<nat>, next: seq<nat>, rings: map<nat, seq<nat>>, a: nat, b: nat, c: nat, z: nat,
                  first': seq<nat>, next': seq<nat>)
    requires Partition(first, next, rings) && a in rings && b in rings && c in rings && c != a && c != b
    requires MovesClass(first, first', a, b) && a in rings[a] && z in rings[b] && a < |next| && z < |next|
    requires |next'| == |next| && next' == next[a := next'[a]][z := next'[z]]
    ensures RingOf(first', next', rings[c], c)
  {
    assert RingOf(first, next, rings[c], c);
    RingsDisjoint(first, next, rings, a, c);
    RingsDisjoint(first, next, rings, b, c);
    hide Partition, IsRing;
    assert forall i :: 0 <= i < |rings[c]| ==> rings[c][i] in rings[c];
    RingMembers(next, rings[c]);
    RingUnchanged(next, rings[c], next');
  }

  lemma RingMembers(next: seq<nat>, q: seq<nat>)
    requires IsRing(next, q)
    ensures forall x :: x in q ==> x < |next|
    ensures q != []
  {
  }

  lemma OwnRing(first: seq<nat>, next: seq<nat>, rings: map<nat, seq<nat>>, a: nat, b: nat, p: seq<nat>,
                first': seq<nat>, next': seq<nat>)
    requires Partition(first, next, rings) && a in rings && b in rings && a != b
    requires MovesClass(first, first', a, b) && rings[a] != [] && rings[a][0] == a && a < |next|
    requires IsRing(next, p) && (forall x :: x in p <==> x in rings[b])
    requires next' == next[a := p[0]][p[|p| - 1] := next[a]]
    ensures RingOf(first', next', [a] + p + rings[a][1..], a)
  {
    ClassIsRing(first, next, rings, a);
    ClassIsRing(first, next, rings, b);
    RingsDisjoint(first, next, rings, a, b);
    hide Partition;
    JoinedRing(next, rings[a], p, next');
    JoinedMembers(rings[a], p);
    var r := [a] + p + rings[a][1..];
    hide IsRing;
    RingMembers(next', r);
    forall i | 0 <= i < |r|
      ensures first'[r[i]] == a
    {
      assert r[i] in r;
    }
  }

  lemma JoinedRings(first: seq<nat>, next: seq<nat>, rings: map<nat, seq<nat>>, a: nat, b: nat, k: nat,
                    p: seq<nat>, first': seq<nat>, next': seq<nat>, c: nat)
    requires Partition(first, next, rings) && a in rings && b in rings && a != b && k < |rings[b]| && rings[a] != []
    requires MovesClass(first, first', a, b) && a < |next| && rings[a][0] == a && p != []
    requires p == Rotate(rings[b], k) && IsRing(next, p) && (forall x :: x in p <==> x in rings[b])
    requires p[|p| - 1] < |next| && next' == next[a := p[0]][p[|p| - 1] := next[a]]
    requires c in Joined(rings, a, b, k)
    ensures RingOf(first', next', Joined(rings, a, b, k)[c], c)
  {
    hide IsRing, RingOf, Partition, Rotate, MovesClass;
    if c == a {
      OwnRing(first, next, rings, a, b, p, first', next');
    } else {
      assert a in rings[a] && p[|p| - 1] in p;
      OtherRing(first, next, rings, a, b, c, p[|p| - 1], first', next');
    }
  }

  lemma JoinKeepsPartition(first: seq<nat>, next: seq<nat>, rings: map<nat, seq<nat>>, a: nat, b: nat, k: nat,
                           p: seq<nat>, first': seq<nat>, next': seq<nat>)
    requires Partition(first, next, rings) && a in rings && b in rings && a != b && k < |rings[b]| && rings[a] != []
    requires MovesClass(first, first', a, b) && a < |next| && rings[a][0] == a && p != []
    requires p == Rotate(rings[b], k) && IsRing(next, p) && (forall x :: x in p <==> x in rings[b])
    requires p[|p| - 1] < |next| && next' == next[a := p[0]][p[|p| - 1] := next[a]]
    ensures Partition(first', next', Joined(rings, a, b, k))
  {
    hide IsRing, RingOf, Rotate;
    var rings' := Joined(rings, a, b, k);
    forall c | c in rings'
      ensures RingOf(first', next', rings'[c], c)
    {
      JoinedRings(first, next, rings, a, b, k, p, first', next', c);
    }
    JoinedMembers(rings[a], p);
    forall r: nat | r < |first'|
      ensures first'[r] in rings' && r in rings'[first'[r]]
    {
      assert r in rings[first[r]];
    }
  }

  /** Merge the class of `destination` into the class represented by `a`: walk the
      ring from `destination`, renaming as it goes, then splice it in after `a`. */
  method Join(first: seq<nat>, next: seq<nat>, a: nat, destination: nat, ghost rings: map<nat, seq<nat>>)
      returns (first': seq<nat>, next': seq<nat>, ghost rings': map<nat, seq<nat>>)
    requires Partition(first, next, rings)
    requires a in rings && destination < |first| && first[destination] != a
    ensures Partition(first', next', rings')
    ensures MovesClass(first, first', a, first[destination])
  {
    ghost var b := first[destination];
    ClassIsRing(first, next, rings, a);
    ClassIsRing(first, next, rings, b);
    ghost var k :| 0 <= k < |rings[b]| && rings[b][k] == destination;
    ghost var p := Rotate(rings[b], k);
    RotatedRing(next, rings[b], k);
    RingMembers(next, p);
    assert p[|p| - 1] in p;
    var last;
    first', last := RenameRing(first, next, a, destination, p);
    var saved := next[a];
    next' := next[a := destination][last := saved];
    rings' := Joined(rings, a, b, k);
    hide Partition, IsRing, Rotate;
    JoinKeepsPartition(first, next, rings, a, b, k, p, first', next');
  }

  /** Give every member of the ring that starts at `destination` the representative
      `a`; `last` is the member that links back to `destination`. */
  method RenameRing(first: seq<nat>, next: seq<nat>, a: nat, destination: nat, ghost p: seq<nat>)
      returns (first': seq<nat>, last: nat)
    requires IsRing(next, p) && p != [] && p[0] == destination && |first| == |next|
    ensures |first'| == |first|
    ensures forall c: nat :: c < |first| ==> first'[c] == if c in p then a else first[c]
    ensures last == p[|p| - 1]
  {
    hide IsRing;
    RingStep(next, p, 0);
    first' := first;
    last := destination;
    var r := next[destination];
    ghost var i := 0;
    while r != destination
      invariant 0 <= i < |p| && last == p[i]
      invariant r == if i + 1 < |p| then p[i + 1] else p[0]
      invariant |first'| == |first|
      invariant forall c: nat :: c < |first| ==> first'[c] == if c in p[1..i + 1] then a else first[c]
      decreases |p| - i
    {
      RingStep(next, p, i);
      RingStep(next, p, i + 1);
      first' := first'[r := a];
      last := r;
      i := i + 1;
      assert p[1..i + 1] == p[1..i] + [p[i]];
      r := next[r];
    }
    RingEnds(next, p, i);
    first' := first'[destination := a];
    assert p == [p[0]] + p[1..i + 1];
  }

  lemma RingStep(next: seq<nat>, p: seq<nat>, i: nat)
    requires IsRing(next, p) && i < |p|
    ensures p != [] && p[i] < |next| && next[p[i]] == if i + 1 < |p| then p[i + 1] else p[0]
    ensures forall j, k :: 0 <= j < k < |p| ==> p[j] != p[k]
  {
  }

  lemma RingEnds(next: seq<nat>, p: seq<nat>, i: nat)
    requires IsRing(next, p) && i < |p|
    requires (if i + 1 < |p| then p[i + 1] else p[0]) == p[0]
    ensures i == |p| - 1
  {
  }
}
