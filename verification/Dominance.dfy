/** The iterative dominator fixpoint and what it computes. */
module Dominance {
  import opened Graphs
  import opened Traversal
  import opened Ancestry

  // ----- facts about one block of a partial tree -----

  ghost predicate PresentPred(g: Graph, m: seq<int>, p: nat, c: nat)
  {
    Present(m, p) && g.Step(p, c)
  }

  /** `x` is on the chain of every predecessor of `c` that has one. */
  ghost predicate Common(g: Graph, rank: seq<nat>, m: seq<int>, x: nat, c: nat)
    requires IsTree(rank, m)
  {
    forall p :: PresentPred(g, m, p, c) ==> Anc(rank, m, x, p)
  }

  /** Recomputing the parent of `c` cannot move it down. */
  ghost predicate NeverRises(g: Graph, rank: seq<nat>, m: seq<int>, c: nat)
    requires IsTree(rank, m) && Present(m, c)
  {
    forall x: nat :: x < |m| && Common(g, rank, m, x, c) ==> rank[x] <= rank[m[c]]
  }

  /** The parent of a block visited in the current sweep is on the chain of each
      predecessor that the sweep visits earlier. */
  ghost predicate Fresh(g: Graph, rank: seq<nat>, m: seq<int>, c: nat)
    requires IsTree(rank, m) && Present(m, c)
  {
    forall p: nat :: PresentPred(g, m, p, c) && rank[p] < rank[c] ==> Anc(rank, m, m[c], p)
  }

  /** A block the sweep has yet to visit: above its parent, an earlier predecessor's
      chain is the parent's chain, and the chains agree from the cursor down. */
  ghost predicate Stale(g: Graph, rank: seq<nat>, m: seq<int>, cursor: nat, c: nat)
    requires IsTree(rank, m) && Present(m, c)
  {
    forall p: nat :: PresentPred(g, m, p, c) && rank[p] < rank[c] ==> StaleAt(rank, m, cursor, c, p)
  }

  ghost predicate StaleAt(rank: seq<nat>, m: seq<int>, cursor: nat, c: nat, p: nat)
    requires IsTree(rank, m) && Present(m, c) && Present(m, p)
  {
    && (forall x: nat :: x < |m| && Anc(rank, m, x, p) && rank[x] <= rank[m[c]] ==> Anc(rank, m, x, m[c]))
    && (forall v: nat :: v < |m| && Anc(rank, m, v, m[c]) && rank[v] >= cursor ==> Anc(rank, m, v, p))
  }

  ghost predicate HighPath(g: Graph, rank: seq<nat>, p: seq<nat>, a: nat, b: nat)
    requires |rank| == g.Count()
  {
    && a < g.Count()
    && g.PathFromTo(p, a, b)
    && forall i :: 0 <= i < |p| ==> rank[p[i]] >= rank[a]
  }

  /** The parent of `c` reaches `c` without going above itself. */
  ghost predicate Descends(g: Graph, rank: seq<nat>, m: seq<int>, c: nat)
    requires IsTree(rank, m) && Present(m, c) && |rank| == g.Count()
  {
    exists p :: HighPath(g, rank, p, m[c], c)
  }

  ghost predicate HoldsDominators(g: Graph, rank: seq<nat>, m: seq<int>, c: nat)
    requires IsTree(rank, m) && Present(m, c)
  {
    forall d :: g.Dominates(d, c) ==> Anc(rank, m, d, c)
  }

  /** The numbering facts the fixpoint relies on. */
  ghost predicate Ranked(g: Graph, rank: seq<nat>)
  {
    && g.Valid()
    && |rank| == g.Count()
    && (forall b: nat :: b < g.Count() ==> (rank[b] != 0 <==> g.Reachable(b)))
    && (forall a, b :: 0 <= a < b < g.Count() && rank[a] != 0 ==> rank[a] != rank[b])
    && (forall b: nat :: 0 < b < g.Count() && rank[b] != 0 ==> HasForwardEdge(g, rank, b))
    && (forall b :: 0 <= b < g.Count() ==> rank[b] <= g.Count())
    && (forall b :: 0 < b < g.Count() && rank[b] != 0 ==> rank[ENTRY] < rank[b])
    && rank[ENTRY] != 0
  }

  /** State of the iteration when the sweep reaches rank `cursor`. */
  ghost predicate Sweeping(g: Graph, rank: seq<nat>, m: seq<int>, cursor: nat)
  {
    && Ranked(g, rank)
    && IsTree(rank, m)
    && (forall b: nat :: b < |m| && 0 < rank[b] < cursor ==> Present(m, b))
    && (forall b: nat, c: nat :: Present(m, c) && b < |m| && 0 < rank[b] < rank[c] ==> Present(m, b))
    && (forall c :: c != ENTRY && Present(m, c) ==> Settled(g, rank, m, cursor, c))
    && (forall c :: Present(m, c) ==> HoldsDominators(g, rank, m, c))
  }

  ghost predicate Settled(g: Graph, rank: seq<nat>, m: seq<int>, cursor: nat, c: nat)
    requires IsTree(rank, m) && Present(m, c) && |rank| == g.Count()
  {
    && NeverRises(g, rank, m, c)
    && Descends(g, rank, m, c)
    && (if rank[c] < cursor then Fresh(g, rank, m, c) else Stale(g, rank, m, cursor, c))
  }

  /** What intersecting the predecessors' chains yields for block `b`. */
  ghost predicate Meets(g: Graph, rank: seq<nat>, m: seq<int>, b: nat, z: nat)
    requires IsTree(rank, m)
  {
    Present(m, z) && forall x :: Anc(rank, m, x, z) <==> Common(g, rank, m, x, b)
  }

  // ----- one update keeps the invariant -----

  lemma EarlierPred(g: Graph, rank: seq<nat>, m: seq<int>, cursor: nat, b: nat) returns (p: nat)
    requires Sweeping(g, rank, m, cursor) && 0 < b < g.Count() && 0 < rank[b] <= cursor
    ensures PresentPred(g, m, p, b) && rank[p] < rank[b]
  {
    hide Settled, HoldsDominators, Anc;
    assert HasForwardEdge(g, rank, b);
    var e :| 0 <= e < |g.edges| && g.edges[e].destination == b && 0 < rank[g.edges[e].source] < rank[b];
    p := g.edges[e].source;
    assert g.edges[e] == Edge(p, b);
  }

  lemma MeetIsLower(g: Graph, rank: seq<nat>, m: seq<int>, cursor: nat, b: nat, z: nat)
    requires Sweeping(g, rank, m, cursor) && 0 < b < g.Count() && rank[b] == cursor > 0
    requires Meets(g, rank, m, b, z)
    ensures CanLink(rank, m, b, z)
    ensures Present(m, b) ==> Anc(rank, m, z, m[b]) && rank[z] <= rank[m[b]]
  {
    var p := EarlierPred(g, rank, m, cursor, b);
    hide HoldsDominators, Ranked, Descends;
    assert Anc(rank, m, z, z);
    assert Common(g, rank, m, z, b);
    AncRank(rank, m, z, p);
    if Present(m, b) {
      assert Settled(g, rank, m, cursor, b);
      assert StaleAt(rank, m, cursor, b, p);
    }
  }

  /** The facts every part of the update proof uses. */
  ghost predicate Update(g: Graph, rank: seq<nat>, m: seq<int>, b: nat, z: nat, m': seq<int>)
  {
    && CanLink(rank, m, b, z)
    && |rank| == g.Count()
    && m' == m[b := z]
    && IsTree(rank, m')
    && (Present(m, b) ==> Anc(rank, m, z, m[b]))
    && Meets(g, rank, m, b, z)
  }

  lemma CommonShrinks(g: Graph, rank: seq<nat>, m: seq<int>, b: nat, z: nat, m': seq<int>, x: nat, c: nat)
    requires Update(g, rank, m, b, z, m') && Common(g, rank, m', x, c)
    ensures Common(g, rank, m, x, c)
  {
    hide Anc, Meets;
    forall p | PresentPred(g, m, p, c)
      ensures Anc(rank, m, x, p)
    {
      assert PresentPred(g, m', p, c);
      AncShrinks(rank, m, b, z, x, p);
    }
  }

  lemma KeepsNeverRises(g: Graph, rank: seq<nat>, m: seq<int>, b: nat, z: nat, m': seq<int>, c: nat)
    requires Update(g, rank, m, b, z, m') && Present(m', c)
    requires c != b ==> Present(m, c) && NeverRises(g, rank, m, c)
    ensures NeverRises(g, rank, m', c)
  {
    forall x: nat | x < |m| && Common(g, rank, m', x, c)
      ensures rank[x] <= rank[m'[c]]
    {
      hide Anc, Common;
      CommonShrinks(g, rank, m, b, z, m', x, c);
      if c == b {
        AncRank(rank, m, x, z);
      }
    }
  }

  lemma KeepsFresh(g: Graph, rank: seq<nat>, m: seq<int>, b: nat, z: nat, m': seq<int>, c: nat)
    requires Update(g, rank, m, b, z, m') && Present(m', c)
    requires rank[c] <= rank[b] && (c != b ==> Present(m, c) && Fresh(g, rank, m, c))
    ensures Fresh(g, rank, m', c)
  {
    hide Anc;
    forall p: nat | PresentPred(g, m', p, c) && rank[p] < rank[c]
      ensures Anc(rank, m', m'[c], p)
    {
      assert PresentPred(g, m, p, c);
      if c == b {
        assert Anc(rank, m, z, z) by { AncSelf(rank, m, z); }
        assert Common(g, rank, m, z, b);
      }
      AncLower(rank, m, b, z, m'[c], p);
    }
  }

  lemma AncSelf(rank: seq<nat>, m: seq<int>, x: nat)
    requires IsTree(rank, m) && Present(m, x)
    ensures Anc(rank, m, x, x)
  {
  }

  lemma KeepsStaleAt(g: Graph, rank: seq<nat>, m: seq<int>, b: nat, z: nat, m': seq<int>, c: nat, p: nat)
    requires Update(g, rank, m, b, z, m') && Present(m, b)
    requires Present(m, c) && rank[b] < rank[c] && Present(m, p) && m'[c] == m[c]
    requires Present(m', c) && Present(m', p)
    requires StaleAt(rank, m, rank[b], c, p)
    ensures StaleAt(rank, m', rank[b] + 1, c, p)
  {
    hide Anc, Meets;
    var y := m[c];
    assert Present(m, y);
    if Anc(rank, m, b, y) {
      assert Anc(rank, m, b, p);
      forall x: nat | x < |m|
        ensures Anc(rank, m', x, p) && rank[x] <= rank[y] ==> Anc(rank, m', x, y)
        ensures Anc(rank, m', x, y) && rank[x] >= rank[b] + 1 ==> Anc(rank, m', x, p)
      {
        AncThrough(rank, m, b, z, x, y);
        AncThrough(rank, m, b, z, x, p);
      }
    } else {
      forall x: nat | x < |m|
        ensures Anc(rank, m', x, p) && rank[x] <= rank[y] ==> Anc(rank, m', x, y)
        ensures Anc(rank, m', x, y) && rank[x] >= rank[b] + 1 ==> Anc(rank, m', x, p)
      {
        AncAside(rank, m, b, z, x, y);
        if Anc(rank, m', x, p) {
          AncShrinks(rank, m, b, z, x, p);
        }
        if Anc(rank, m, x, p) {
          if Anc(rank, m, b, p) {
            AncThrough(rank, m, b, z, x, p);
          } else {
            AncAside(rank, m, b, z, x, p);
          }
        }
      }
    }
  }

  lemma KeepsStale(g: Graph, rank: seq<nat>, m: seq<int>, b: nat, z: nat, m': seq<int>, c: nat)
    requires Update(g, rank, m, b, z, m') && Present(m, b)
    requires Present(m, c) && rank[b] < rank[c] && Present(m', c)
    requires Stale(g, rank, m, rank[b], c)
    ensures Stale(g, rank, m', rank[b] + 1, c)
  {
    hide Anc, Meets, StaleAt;
    forall p: nat | PresentPred(g, m', p, c) && rank[p] < rank[c]
      ensures StaleAt(rank, m', rank[b] + 1, c, p)
    {
      assert PresentPred(g, m, p, c);
      KeepsStaleAt(g, rank, m, b, z, m', c, p);
    }
  }

  /** Chains are walked by paths that never go above their upper end. */
  lemma {:induction false} ChainPath(g: Graph, rank: seq<nat>, m: seq<int>, x: nat, c: nat) returns (p: seq<nat>)
    requires IsTree(rank, m) && |rank| == g.Count() && Present(m, c)
    requires forall d :: d != ENTRY && Present(m, d) ==> Descends(g, rank, m, d)
    requires Anc(rank, m, x, c)
    ensures HighPath(g, rank, p, x, c)
    decreases rank[c]
  {
    if x == c {
      p := [c];
    } else {
      var up := ChainPath(g, rank, m, x, m[c]);
      assert Descends(g, rank, m, c);
      var down :| HighPath(g, rank, down, m[c], c);
      AncRank(rank, m, x, m[c]);
      PathConcat(g, up, down, x, m[c], c);
      p := up + down[1..];
    }
  }

  lemma KeepsDescends(g: Graph, rank: seq<nat>, m: seq<int>, b: nat, z: nat, m': seq<int>, p: nat)
    requires Update(g, rank, m, b, z, m')
    requires forall d :: d != ENTRY && Present(m, d) ==> Descends(g, rank, m, d)
    requires PresentPred(g, m, p, b) && Present(m', b)
    ensures Descends(g, rank, m', b)
  {
    hide Descends;
    assert Anc(rank, m, z, p) by {
      AncSelf(rank, m, z);
      assert Common(g, rank, m, z, b);
    }
    var q := ChainPath(g, rank, m, z, p);
    PathExtend(g, q, z, p, b);
    assert HighPath(g, rank, q + [b], z, b);
    DescendsBy(g, rank, m', b, q + [b]);
  }

  lemma DescendsBy(g: Graph, rank: seq<nat>, m: seq<int>, c: nat, p: seq<nat>)
    requires IsTree(rank, m) && Present(m, c) && |rank| == g.Count()
    requires HighPath(g, rank, p, m[c], c)
    ensures Descends(g, rank, m, c)
  {
  }

  /** A path that avoids `d` shows that `d` does not dominate its end. */
  lemma Avoids(g: Graph, d: nat, p: nat, q: seq<nat>, c: nat)
    requires !g.Dominates(d, p) && g.PathFromTo(q, p, c) && d !in q
    ensures !g.Dominates(d, c)
  {
    var r :| g.PathFromTo(r, ENTRY, p) && d !in r;
    PathConcat(g, r, q, ENTRY, p, c);
  }

  lemma DominatorMeets(g: Graph, rank: seq<nat>, m: seq<int>, b: nat, z: nat, d: nat)
    requires IsTree(rank, m) && Meets(g, rank, m, b, z) && b < g.Count()
    requires forall c :: Present(m, c) ==> HoldsDominators(g, rank, m, c)
    requires g.Dominates(d, b) && d != b && |rank| == g.Count()
    ensures Anc(rank, m, d, z)
  {
    if !Anc(rank, m, d, z) {
      var p :| PresentPred(g, m, p, b) && !Anc(rank, m, d, p);
      assert !g.Dominates(d, p);
      assert g.PathFromTo([p, b], p, b);
      if d == p {
        AncSelf(rank, m, p);
      }
      Avoids(g, d, p, [p, b], b);
    }
  }

  lemma KeepsDominators(g: Graph, rank: seq<nat>, m: seq<int>, b: nat, z: nat, m': seq<int>, c: nat, d: nat)
    requires Update(g, rank, m, b, z, m') && Present(m', c)
    requires forall e :: e != ENTRY && Present(m, e) ==> Descends(g, rank, m, e)
    requires forall e :: Present(m, e) ==> HoldsDominators(g, rank, m, e)
    requires g.Dominates(d, c)
    ensures Anc(rank, m', d, c)
  {
    hide Anc, Descends, Meets, Common, Graph.Dominates;
    if c == b {
      AncAt(rank, m, b, z, d);
      if d != b {
        DominatorMeets(g, rank, m, b, z, d);
      }
    } else {
      assert HoldsDominators(g, rank, m, c);
      assert Anc(rank, m, d, c);
      if !Anc(rank, m, b, c) {
        AncAside(rank, m, b, z, d, c);
      } else {
        AncRank(rank, m, d, c);
        AncThrough(rank, m, b, z, d, c);
        if rank[d] < rank[b] && !g.Dominates(d, b) {
          var q := ChainPath(g, rank, m, b, c);
          Avoids(g, d, b, q, c);
        } else if rank[d] < rank[b] {
          DominatorMeets(g, rank, m, b, z, d);
        }
      }
    }
  }

  lemma BeginUpdate(g: Graph, rank: seq<nat>, m: seq<int>, b: nat, z: nat, m': seq<int>)
    requires 0 < b < g.Count() && |rank| == |m| == g.Count() && 0 < rank[b]
    requires Sweeping(g, rank, m, rank[b]) && Meets(g, rank, m, b, z) && m' == m[b := z]
    ensures Update(g, rank, m, b, z, m')
    ensures rank[z] < rank[b]
    ensures Present(m, b) && m[b] != z ==> rank[z] < rank[m[b]]
  {
    hide Anc, Meets, Ranked, Settled, HoldsDominators, IsTree;
    MeetIsLower(g, rank, m, rank[b], b, z);
    LinkIsTree(rank, m, b, z);
    if Present(m, b) {
      ParentPresent(rank, m, b);
      AncRank(rank, m, z, m[b]);
    }
  }

  lemma ParentPresent(rank: seq<nat>, m: seq<int>, b: nat)
    requires IsTree(rank, m) && Present(m, b)
    ensures 0 <= m[b] && Present(m, m[b])
  {
  }

  lemma AllDescend(g: Graph, rank: seq<nat>, m: seq<int>, cursor: nat)
    requires Sweeping(g, rank, m, cursor)
    ensures forall c :: c != ENTRY && Present(m, c) ==> Descends(g, rank, m, c)
  {
    hide Anc, Ranked, Fresh, Stale, NeverRises, Descends, HoldsDominators;
    RankedDistinct(g, rank);
    forall c | c != ENTRY && Present(m, c)
      ensures Descends(g, rank, m, c)
    {
      assert Settled(g, rank, m, cursor, c);
    }
  }

  lemma UpdateSettles(g: Graph, rank: seq<nat>, m: seq<int>, b: nat, z: nat, m': seq<int>, c: nat)
    requires 0 < b < g.Count() && |rank| == |m| == g.Count() && 0 < rank[b]
    requires Sweeping(g, rank, m, rank[b])
    requires Update(g, rank, m, b, z, m')
    requires Present(m', c) && c != ENTRY
    ensures Settled(g, rank, m', rank[b] + 1, c)
  {
    if c != b {
      assert Present(m, c);
      assert Settled(g, rank, m, rank[b], c);
      assert rank[c] > rank[b] ==> Present(m, b);
      hide Anc, HoldsDominators, Meets, Settled, Ranked;
      KeepsOther(g, rank, m, b, z, m', c);
    } else {
      hide Anc, HoldsDominators, Meets, Ranked;
      var p := EarlierPred(g, rank, m, rank[b], b);
      AllDescend(g, rank, m, rank[b]);
      KeepsNeverRises(g, rank, m, b, z, m', c);
      KeepsDescends(g, rank, m, b, z, m', p);
      KeepsFresh(g, rank, m, b, z, m', c);
    }
  }

  /** Blocks with smaller ranks have parents before those with larger ones. */
  ghost predicate FilledBelow(rank: seq<nat>, m: seq<int>, cursor: nat)
  {
    && |rank| == |m|
    && (forall a: nat :: a < |m| && 0 < rank[a] < cursor ==> Present(m, a))
    && (forall a: nat, c: nat :: Present(m, c) && a < |m| && 0 < rank[a] < rank[c] ==> Present(m, a))
  }

  lemma FillNext(rank: seq<nat>, m: seq<int>, b: nat, z: nat)
    requires b < |rank| && FilledBelow(rank, m, rank[b])
    requires forall a: nat :: a < |rank| && a != b && rank[a] != 0 ==> rank[a] != rank[b]
    ensures FilledBelow(rank, m[b := z], rank[b] + 1)
  {
    var m' := m[b := z];
    forall a: nat, c: nat | Present(m', c) && a < |m'| && 0 < rank[a] < rank[c]
      ensures Present(m', a)
    {
      if c == b {
        assert Present(m, a);
      } else {
        assert Present(m, c) && Present(m, a);
      }
    }
  }

  lemma SweepingFilled(g: Graph, rank: seq<nat>, m: seq<int>, cursor: nat)
    requires Sweeping(g, rank, m, cursor) && |rank| == |m|
    ensures FilledBelow(rank, m, cursor)
  {
    hide Ranked, IsTree, Settled, HoldsDominators;
  }

  lemma UpdateFillsRanks(g: Graph, rank: seq<nat>, m: seq<int>, b: nat, z: nat, m': seq<int>)
    requires 0 < b < g.Count() && |rank| == |m| == g.Count() && 0 < rank[b]
    requires Sweeping(g, rank, m, rank[b]) && m' == m[b := z]
    ensures FilledBelow(rank, m', rank[b] + 1)
  {
    hide *;
    SweepingRanked(g, rank, m, rank[b]);
    RankedDistinct(g, rank);
    SweepingFilled(g, rank, m, rank[b]);
    FillNext(rank, m, b, z);
  }

  lemma SweepingRanked(g: Graph, rank: seq<nat>, m: seq<int>, cursor: nat)
    requires Sweeping(g, rank, m, cursor)
    ensures Ranked(g, rank)
  {
  }

  lemma UpdateKeepsSweeping(g: Graph, rank: seq<nat>, m: seq<int>, b: nat, z: nat)
    requires 0 < b < g.Count() && |rank| == |m| == g.Count() && 0 < rank[b]
    requires Sweeping(g, rank, m, rank[b])
    requires Meets(g, rank, m, b, z)
    ensures Sweeping(g, rank, m[b := z], rank[b] + 1)
    ensures rank[z] < rank[b]
    ensures Present(m, b) && m[b] != z ==> rank[z] < rank[m[b]]
  {
    hide Anc, Meets, Settled, HoldsDominators, Ranked, IsTree, CanLink, Descends;
    var m' := m[b := z];
    BeginUpdate(g, rank, m, b, z, m');
    AllDescend(g, rank, m, rank[b]);
    forall c | c != ENTRY && Present(m', c)
      ensures Settled(g, rank, m', rank[b] + 1, c)
    {
      UpdateSettles(g, rank, m, b, z, m', c);
    }
    forall c | Present(m', c)
      ensures HoldsDominators(g, rank, m', c)
    {
      KeepsAllDominators(g, rank, m, b, z, m', c);
    }
    UpdateFillsRanks(g, rank, m, b, z, m');
  }

  lemma RankedDistinct(g: Graph, rank: seq<nat>)
    requires Ranked(g, rank)
    ensures |rank| == g.Count()
    ensures forall a: nat, b: nat :: a < |rank| && b < |rank| && a != b && rank[a] != 0 ==> rank[a] != rank[b]
  {
    hide Graph.Reachable, HasForwardEdge, Graph.Valid;
  }

  lemma KeepsOther(g: Graph, rank: seq<nat>, m: seq<int>, b: nat, z: nat, m': seq<int>, c: nat)
    requires Update(g, rank, m, b, z, m') && Ranked(g, rank)
    requires Present(m, c) && c != b && Present(m', c)
    requires rank[c] > rank[b] ==> Present(m, b)
    requires Settled(g, rank, m, rank[b], c)
    ensures Settled(g, rank, m', rank[b] + 1, c)
  {
    RankedDistinct(g, rank);
    hide Anc, Meets, Ranked, HighPath;
    KeepsNeverRises(g, rank, m, b, z, m', c);
    if rank[c] < rank[b] {
      KeepsFresh(g, rank, m, b, z, m', c);
    } else {
      KeepsStale(g, rank, m, b, z, m', c);
    }
  }

  lemma KeepsAllDominators(g: Graph, rank: seq<nat>, m: seq<int>, b: nat, z: nat, m': seq<int>, c: nat)
    requires Update(g, rank, m, b, z, m') && Present(m', c)
    requires forall e :: e != ENTRY && Present(m, e) ==> Descends(g, rank, m, e)
    requires forall e :: Present(m, e) ==> HoldsDominators(g, rank, m, e)
    ensures HoldsDominators(g, rank, m', c)
  {
    forall d | g.Dominates(d, c)
      ensures Anc(rank, m', d, c)
    {
      hide Graph.Dominates, HoldsDominators, Descends, Update, Anc;
      KeepsDominators(g, rank, m, b, z, m', c, d);
    }
  }

  // ----- the start, the sweeps and the end -----

  lemma StartSweeping(g: Graph, rank: seq<nat>, m: seq<int>)
    requires Ranked(g, rank)
    requires m == seq(g.Count(), _ => NONE)[ENTRY := 0]
    ensures Sweeping(g, rank, m, 0)
  {
    hide HasForwardEdge;
    forall d | g.Dominates(d, ENTRY)
      ensures Anc(rank, m, d, ENTRY)
    {
      assert g.PathFromTo([ENTRY], ENTRY, ENTRY);
      assert d in [ENTRY];
    }
  }

  lemma FreshIsStale(g: Graph, rank: seq<nat>, m: seq<int>, c: nat)
    requires IsTree(rank, m) && Present(m, c) && c != ENTRY && Fresh(g, rank, m, c)
    ensures Stale(g, rank, m, 0, c)
  {
    var y := m[c];
    forall p: nat | PresentPred(g, m, p, c) && rank[p] < rank[c]
      ensures StaleAt(rank, m, 0, c, p)
    {
      hide Anc;
      forall x: nat | x < |m|
        ensures Anc(rank, m, x, p) && rank[x] <= rank[y] ==> Anc(rank, m, x, y)
        ensures Anc(rank, m, x, y) ==> Anc(rank, m, x, p)
      {
        if Anc(rank, m, x, p) && rank[x] <= rank[y] {
          AncRank(rank, m, x, p);
          AncChain(rank, m, x, y, p);
        }
        if Anc(rank, m, x, y) {
          AncTrans(rank, m, x, y, p);
        }
      }
    }
  }

  /** Every block the sweep visits is below the cursor when it ends. */
  lemma NextSweep(g: Graph, rank: seq<nat>, m: seq<int>, cursor: nat)
    requires Sweeping(g, rank, m, cursor)
    requires forall b: nat :: b < |rank| ==> rank[b] < cursor
    ensures Sweeping(g, rank, m, 0)
  {
    hide Anc, Ranked, NeverRises, Descends, Stale, Fresh, HoldsDominators;
    RankedDistinct(g, rank);
    forall c: nat | c != ENTRY && Present(m, c)
      ensures Settled(g, rank, m, 0, c)
    {
      assert Settled(g, rank, m, cursor, c);
      FreshIsStale(g, rank, m, c);
    }
  }

  lemma StaleLater(g: Graph, rank: seq<nat>, m: seq<int>, cursor: nat, later: nat, c: nat)
    requires IsTree(rank, m) && Present(m, c) && Stale(g, rank, m, cursor, c) && cursor <= later
    ensures Stale(g, rank, m, later, c)
  {
    hide Anc;
    forall p: nat | PresentPred(g, m, p, c) && rank[p] < rank[c]
      ensures StaleAt(rank, m, later, c, p)
    {
      assert StaleAt(rank, m, cursor, c, p);
    }
  }

  /** The cursor may pass ranks that nobody, or only the entry, has. */
  lemma AdvanceCursor(g: Graph, rank: seq<nat>, m: seq<int>, cursor: nat, later: nat)
    requires Sweeping(g, rank, m, cursor) && cursor <= later
    requires forall b: nat :: b < |rank| && cursor <= rank[b] < later ==> rank[b] == 0 || b == ENTRY
    ensures Sweeping(g, rank, m, later)
  {
    hide Anc, Ranked, NeverRises, Descends, Stale, Fresh, HoldsDominators;
    RankedDistinct(g, rank);
    forall c: nat | c != ENTRY && Present(m, c)
      ensures Settled(g, rank, m, later, c)
    {
      assert Settled(g, rank, m, cursor, c);
      if rank[c] >= later {
        StaleLater(g, rank, m, cursor, later, c);
      }
    }
  }

  /** Recomputing the parent of `c` would not change it. */
  ghost predicate AtFixpoint(g: Graph, rank: seq<nat>, m: seq<int>, c: nat)
    requires IsTree(rank, m)
  {
    Present(m, c) && (c != ENTRY ==> Meets(g, rank, m, c, m[c]))
  }

  /** At the fixpoint the tree of parents is dominance. */
  lemma {:induction false} ChainDominates(g: Graph, rank: seq<nat>, m: seq<int>, x: nat, b: nat, p: seq<nat>)
    requires Ranked(g, rank) && IsTree(rank, m)
    requires forall c: nat :: c < g.Count() && rank[c] != 0 ==> AtFixpoint(g, rank, m, c)
    requires Present(m, b) && Anc(rank, m, x, b) && g.PathFromTo(p, ENTRY, b)
    ensures x in p
    decreases |p|
  {
    if x != b {
      hide Ranked, Meets;
      ReachedHasRank(g, rank, b, p);
      assert AtFixpoint(g, rank, m, b);
      assert b != ENTRY;
      assert |p| > 1;
      var q := p[|p| - 2];
      PathPrefix(g, p, |p| - 2);
      assert p[..|p| - 2 + 1] == p[..|p| - 1];
      ReachedHasRank(g, rank, q, p[..|p| - 1]);
      assert AtFixpoint(g, rank, m, q);
      assert g.Step(q, b) && PresentPred(g, m, q, b);
      MeetsAt(g, rank, m, b, x, q);
      ChainDominates(g, rank, m, x, q, p[..|p| - 1]);
    }
  }

  lemma ReachedHasRank(g: Graph, rank: seq<nat>, b: nat, p: seq<nat>)
    requires Ranked(g, rank) && g.PathFromTo(p, ENTRY, b)
    ensures b < g.Count() && rank[b] != 0
  {
    hide Graph.Valid, HasForwardEdge;
    assert g.Reachable(b);
    assert p[|p| - 1] < g.Count();
  }

  lemma MeetsAt(g: Graph, rank: seq<nat>, m: seq<int>, b: nat, x: nat, p: nat)
    requires IsTree(rank, m) && Present(m, b) && b != 0 && Anc(rank, m, x, m[b])
    requires Meets(g, rank, m, b, m[b]) && PresentPred(g, m, p, b)
    ensures Anc(rank, m, x, p)
  {
    assert Common(g, rank, m, x, b);
  }

  lemma FixpointIsDominance(g: Graph, rank: seq<nat>, m: seq<int>, cursor: nat)
    requires Sweeping(g, rank, m, cursor)
    requires forall c: nat :: c < g.Count() && rank[c] != 0 ==> AtFixpoint(g, rank, m, c)
    ensures forall a: nat, b: nat :: Present(m, b) ==> (Anc(rank, m, a, b) <==> g.Dominates(a, b))
  {
    forall a: nat, b: nat | Present(m, b)
      ensures Anc(rank, m, a, b) <==> g.Dominates(a, b)
    {
      hide Settled, Meets, Ranked, Anc;
      assert HoldsDominators(g, rank, m, b);
      if Anc(rank, m, a, b) {
        forall p | g.PathFromTo(p, ENTRY, b)
          ensures a in p
        {
          ChainDominates(g, rank, m, a, b, p);
        }
      }
    }
  }

  // ----- the loops -----

  /** Walk two chains until they meet. */
  method Intersect(rank: seq<nat>, m: seq<int>, a: nat, b: nat) returns (z: nat)
    requires IsTree(rank, m) && Present(m, a) && Present(m, b)
    ensures Present(m, z)
    ensures forall x :: Anc(rank, m, x, z) <==> Anc(rank, m, x, a) && Anc(rank, m, x, b)
  {
    hide Anc;
    z := a;
    var other: nat := b;
    while z != other
      invariant Present(m, z) && Present(m, other)
      invariant forall x :: Anc(rank, m, x, z) && Anc(rank, m, x, other)
                            <==> Anc(rank, m, x, a) && Anc(rank, m, x, b)
      decreases rank[z] + rank[other]
    {
      ghost var before := rank[z] + rank[other];
      TreeDistinct(rank, m, z, other);
      while rank[z] > rank[other]
        invariant Present(m, z) && Present(m, other)
        invariant forall x :: Anc(rank, m, x, z) && Anc(rank, m, x, other)
                              <==> Anc(rank, m, x, a) && Anc(rank, m, x, b)
        invariant rank[z] + rank[other] < before || (rank[z] + rank[other] == before && z != other)
        decreases rank[z]
      {
        StepUp(rank, m, z, other);
        z := m[z];
      }
      while rank[other] > rank[z]
        invariant Present(m, z) && Present(m, other)
        invariant forall x :: Anc(rank, m, x, z) && Anc(rank, m, x, other)
                              <==> Anc(rank, m, x, a) && Anc(rank, m, x, b)
        invariant rank[z] + rank[other] < before
                  || (rank[z] + rank[other] == before && z != other && rank[other] > rank[z])
        decreases rank[other]
      {
        StepUp(rank, m, other, z);
        other := m[other];
      }
    }
  }

  lemma TreeDistinct(rank: seq<nat>, m: seq<int>, a: nat, b: nat)
    requires IsTree(rank, m) && Present(m, a) && Present(m, b) && a != b
    ensures rank[a] != rank[b]
  {
  }

  lemma StepUp(rank: seq<nat>, m: seq<int>, z: nat, other: nat)
    requires IsTree(rank, m) && Present(m, z) && Present(m, other) && rank[z] > rank[other]
    ensures 0 <= m[z] && Present(m, m[z])
    ensures rank[m[z]] < rank[z]
    ensures forall x :: Anc(rank, m, x, other) ==> (Anc(rank, m, x, z) <==> Anc(rank, m, x, m[z]))
  {
    if z == 0 {
      AncRoot(rank, m, other);
      AncRank(rank, m, 0, other);
    }
    forall x | Anc(rank, m, x, other)
      ensures Anc(rank, m, x, z) <==> Anc(rank, m, x, m[z])
    {
      AncRank(rank, m, x, other);
    }
  }

  ghost predicate SourcePresent(g: Graph, m: seq<int>, b: nat, j: nat)
    requires g.Valid() && b < g.Count() && j < |g.incoming[b]|
  {
    Present(m, g.edges[g.incoming[b][j]].source)
  }

  /** `x` is on the chains of the first `k` listed predecessors. */
  ghost predicate CommonUpTo(g: Graph, rank: seq<nat>, m: seq<int>, x: nat, b: nat, k: nat)
    requires g.Valid() && b < g.Count() && k <= |g.incoming[b]| && IsTree(rank, m)
  {
    forall j :: 0 <= j < k && SourcePresent(g, m, b, j) ==> Anc(rank, m, x, g.edges[g.incoming[b][j]].source)
  }

  lemma CommonByList(g: Graph, rank: seq<nat>, m: seq<int>, x: nat, b: nat)
    requires g.Valid() && b < g.Count() && IsTree(rank, m)
    ensures CommonUpTo(g, rank, m, x, b, |g.incoming[b]|) <==> Common(g, rank, m, x, b)
  {
    hide Anc, IsTree;
    if CommonUpTo(g, rank, m, x, b, |g.incoming[b]|) {
      forall p | PresentPred(g, m, p, b)
        ensures Anc(rank, m, x, p)
      {
        var e :| 0 <= e < |g.edges| && g.edges[e] == Edge(p, b);
        var j :| 0 <= j < |g.incoming[b]| && g.incoming[b][j] == e;
        assert SourcePresent(g, m, b, j);
      }
    }
    if Common(g, rank, m, x, b) {
      forall j | 0 <= j < |g.incoming[b]| && SourcePresent(g, m, b, j)
        ensures Anc(rank, m, x, g.edges[g.incoming[b][j]].source)
      {
        var p := g.edges[g.incoming[b][j]].source;
        assert g.edges[g.incoming[b][j]] == Edge(p, b);
        assert PresentPred(g, m, p, b);
      }
    }
  }

  lemma ListedPred(g: Graph, m: seq<int>, p: nat, b: nat)
    requires g.Valid() && b < g.Count() && PresentPred(g, m, p, b)
    ensures exists j: nat :: j < |g.incoming[b]| && SourcePresent(g, m, b, j)
  {
    var e :| 0 <= e < |g.edges| && g.edges[e] == Edge(p, b);
    var j :| 0 <= j < |g.incoming[b]| && g.incoming[b][j] == e;
    assert SourcePresent(g, m, b, j);
  }

  /** Intersect the chains of all predecessors that have one. */
  method MeetPredecessors(g: Graph, rank: seq<nat>, m: seq<int>, b: nat) returns (parent: int)
    requires g.Valid() && b < g.Count() && IsTree(rank, m) && |m| == g.Count()
    ensures parent == NONE ==> forall p :: !PresentPred(g, m, p, b)
    ensures parent != NONE ==> 0 <= parent && Meets(g, rank, m, b, parent)
  {
    hide Anc;
    parent := NONE;
    for k := 0 to |g.incoming[b]|
      invariant parent == NONE ==> forall j: nat :: j < k ==> !SourcePresent(g, m, b, j)
      invariant parent != NONE ==> 0 <= parent && Present(m, parent)
      invariant parent != NONE ==> forall x :: Anc(rank, m, x, parent) <==> CommonUpTo(g, rank, m, x, b, k)
    {
      var pred := g.edges[g.incoming[b][k]].source;
      if m[pred] != NONE {
        if parent == NONE {
          parent := pred;
        } else {
          parent := Intersect(rank, m, parent, pred);
        }
        assert SourcePresent(g, m, b, k);
      }
    }
    if parent == NONE {
      forall p | PresentPred(g, m, p, b)
        ensures false
      {
        ListedPred(g, m, p, b);
      }
    } else {
      forall x
        ensures Anc(rank, m, x, parent) <==> Common(g, rank, m, x, b)
      {
        CommonByList(g, rank, m, x, b);
      }
    }
  }
}
