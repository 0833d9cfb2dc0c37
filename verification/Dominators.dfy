/** Dominator trees: the sweeps over reverse postorder and the interval numbering
    that answers dominance queries in constant time. */
module Dominators {
  import opened Graphs
  import opened Traversal
  import opened Ancestry
  import opened Dominance
  import opened Intervals

  // ----- layout order sorted by rank -----

  ghost predicate SortedByRank(rank: seq<nat>, order: seq<nat>)
  {
    && (forall i :: 0 <= i < |order| ==> order[i] < |rank|)
    && (forall i, j :: 0 <= i < j < |order| ==>
          rank[order[i]] < rank[order[j]] || (rank[order[i]] == rank[order[j]] && order[i] < order[j]))
  }

  lemma InsertSorted(rank: seq<nat>, order: seq<nat>, at: nat, b: nat)
    requires at <= |order| && b < |rank| && SortedByRank(rank, order)
    requires forall i :: 0 <= i < |order| ==> order[i] < b
    requires forall i :: 0 <= i < at ==> rank[order[i]] <= rank[b]
    requires forall i :: at <= i < |order| ==> rank[order[i]] > rank[b]
    ensures SortedByRank(rank, order[..at] + [b] + order[at..])
    ensures forall c :: c == b || c in order ==> c in order[..at] + [b] + order[at..]
  {
    assert order == order[..at] + order[at..];
  }

  /** Stable: blocks of equal rank keep their layout order. */
  method SortByRank(rank: seq<nat>) returns (order: seq<nat>)
    ensures |order| == |rank| && SortedByRank(rank, order)
    ensures forall b: nat :: b < |rank| ==> b in order
  {
    order := [];
    for b := 0 to |rank|
      invariant |order| == b && SortedByRank(rank, order)
      invariant forall i :: 0 <= i < |order| ==> order[i] < b
      invariant forall c: nat :: c < b ==> c in order
    {
      var at := |order|;
      while 0 < at && rank[order[at - 1]] > rank[b]
        invariant 0 <= at <= |order|
        invariant forall i :: at <= i < |order| ==> rank[order[i]] > rank[b]
      {
        at := at - 1;
      }
      assert forall i :: 0 <= i < at ==> rank[order[i]] <= rank[order[at - 1]];
      InsertSorted(rank, order, at, b);
      order := order[..at] + [b] + order[at..];
    }
  }

  // ----- the measure that the sweeps decrease -----

  ghost function Weight(rank: seq<nat>, m: seq<int>, b: nat): nat
    requires IsTree(rank, m) && b < |m|
  {
    if m[b] == NONE then |rank| + 1 else rank[m[b]]
  }

  ghost function Total(rank: seq<nat>, m: seq<int>, n: nat): nat
    requires IsTree(rank, m) && n <= |m|
  {
    if n == 0 then 0 else Total(rank, m, n - 1) + Weight(rank, m, n - 1)
  }

  lemma {:induction false} TotalDrops(rank: seq<nat>, m: seq<int>, m': seq<int>, b: nat, n: nat)
    requires IsTree(rank, m) && IsTree(rank, m') && |m| == |m'| && n <= |m| && b < |m|
    requires forall c :: 0 <= c < |m| && c != b ==> m'[c] == m[c]
    requires Weight(rank, m', b) < Weight(rank, m, b)
    ensures if n <= b then Total(rank, m', n) == Total(rank, m, n) else Total(rank, m', n) < Total(rank, m, n)
  {
    if n > 0 {
      TotalDrops(rank, m, m', b, n - 1);
    }
  }

  // ----- one sweep -----

  /** Rank the sweep has reached after the first `i` blocks of the order. */
  ghost function Cursor(rank: seq<nat>, order: seq<nat>, i: nat): nat
    requires SortedByRank(rank, order) && i <= |order|
  {
    if i == 0 then 0 else rank[order[i - 1]] + 1
  }

  ghost predicate Orders(g: Graph, rank: seq<nat>, order: seq<nat>)
  {
    && |order| == |rank| == g.Count()
    && SortedByRank(rank, order)
    && (forall b: nat :: b < |rank| ==> b in order)
  }

  lemma NoRankBetween(rank: seq<nat>, order: seq<nat>, i: nat, b: nat)
    requires SortedByRank(rank, order) && i < |order|
    requires b < |rank| && b in order
    ensures rank[b] < Cursor(rank, order, i) || rank[order[i]] <= rank[b]
  {
    var k :| 0 <= k < |order| && order[k] == b;
    if k < i - 1 {
      assert rank[order[k]] <= rank[order[i - 1]];
    }
  }

  /** Blocks the sweep passes over: the entry, and blocks never reached. */
  lemma PassOver(g: Graph, rank: seq<nat>, m: seq<int>, order: seq<nat>, i: nat)
    requires Orders(g, rank, order) && i < |order|
    requires Sweeping(g, rank, m, Cursor(rank, order, i))
    requires order[i] == ENTRY || rank[order[i]] == 0
    ensures Sweeping(g, rank, m, Cursor(rank, order, i + 1))
  {
    hide Sweeping;
    var here, later := Cursor(rank, order, i), Cursor(rank, order, i + 1);
    assert i > 0 ==> rank[order[i - 1]] <= rank[order[i]];
    SweepingFacts(g, rank, m, here);
    forall b: nat | b < |rank| && here <= rank[b] < later
      ensures rank[b] == 0 || b == ENTRY
    {
      NoRankBetween(rank, order, i, b);
    }
    AdvanceCursor(g, rank, m, here, later);
  }

  lemma SweepingFacts(g: Graph, rank: seq<nat>, m: seq<int>, cursor: nat)
    requires Sweeping(g, rank, m, cursor)
    ensures |rank| == |m| == g.Count() && IsTree(rank, m) && g.Valid()
    ensures forall a: nat, b: nat :: a < |rank| && b < |rank| && a != b && rank[a] != 0 ==> rank[a] != rank[b]
    ensures forall b: nat :: b < |rank| ==> rank[b] <= |rank|
    ensures Present(m, ENTRY)
  {
    hide Settled, HoldsDominators, Graph.Reachable, HasForwardEdge, Anc;
  }

  lemma Arrive(g: Graph, rank: seq<nat>, m: seq<int>, order: seq<nat>, i: nat)
    requires Orders(g, rank, order) && i < |order|
    requires Sweeping(g, rank, m, Cursor(rank, order, i))
    requires rank[order[i]] != 0
    ensures Sweeping(g, rank, m, rank[order[i]])
  {
    hide Sweeping;
    var here := Cursor(rank, order, i);
    SweepingFacts(g, rank, m, here);
    assert i > 0 ==> rank[order[i - 1]] <= rank[order[i]] && order[i - 1] != order[i];
    forall b: nat | b < |rank|
      ensures rank[b] < here || rank[order[i]] <= rank[b]
    {
      NoRankBetween(rank, order, i, b);
    }
    AdvanceCursor(g, rank, m, here, rank[order[i]]);
  }

  lemma OrderFacts(g: Graph, rank: seq<nat>, order: seq<nat>)
    requires Ranked(g, rank) && Orders(g, rank, order)
    ensures 2 <= g.Count()
    ensures forall i :: 0 <= i < |order| ==> order[i] < g.Count()
  {
  }

  ghost predicate SweptUpTo(g: Graph, rank: seq<nat>, m: seq<int>, order: seq<nat>, i: nat)
    requires IsTree(rank, m) && SortedByRank(rank, order) && i <= |order|
  {
    forall j :: 0 <= j < i && rank[order[j]] != 0 ==> AtFixpoint(g, rank, m, order[j])
  }

  /** One visit: recompute the parent of `b` from its predecessors. */
  method Visit(g: Graph, rank: seq<nat>, m: seq<int>, b: nat) returns (m': seq<int>)
    requires 0 < b < g.Count() && |rank| == |m| == g.Count() && 0 < rank[b]
    requires Sweeping(g, rank, m, rank[b])
    ensures Sweeping(g, rank, m', rank[b] + 1) && IsTree(rank, m) && IsTree(rank, m') && |m'| == |m|
    ensures m' != m ==> Total(rank, m', |m|) < Total(rank, m, |m|)
    ensures m' == m ==> AtFixpoint(g, rank, m, b)
  {
    hide Sweeping, Meets, Anc;
    SweepingFacts(g, rank, m, rank[b]);
    var parent := MeetPredecessors(g, rank, m, b);
    ghost var p := EarlierPred(g, rank, m, rank[b], b);
    UpdateKeepsSweeping(g, rank, m, b, parent);
    m' := m[b := parent];
    SweepingFacts(g, rank, m', rank[b] + 1);
    if m[b] != parent {
      TotalDrops(rank, m, m', b, |m|);
    } else {
      assert m' == m;
    }
  }

  /** Sweep until no parent changes. */
  method ComputeParents(g: Graph, rank: seq<nat>, order: seq<nat>) returns (m: seq<int>)
    requires Ranked(g, rank) && Orders(g, rank, order)
    ensures IsTree(rank, m) && |m| == g.Count()
    ensures forall b: nat :: b < |m| ==> (Present(m, b) <==> g.Reachable(b))
    ensures forall a: nat, b: nat :: Present(m, b) ==> (Anc(rank, m, a, b) <==> g.Dominates(a, b))
  {
    hide Sweeping, AtFixpoint, Anc, Graph.Dominates, Ranked, SortedByRank, Total, IsTree;
    OrderFacts(g, rank, order);
    m := seq(g.Count(), _ => NONE)[ENTRY := 0];
    StartSweeping(g, rank, m);
    SweepingFacts(g, rank, m, 0);
    var changed := true;
    while changed
      invariant Sweeping(g, rank, m, 0) && IsTree(rank, m) && |m| == g.Count()
      invariant !changed ==> SweptUpTo(g, rank, m, order, |order|)
      decreases Total(rank, m, |m|), changed
    {
      changed := false;
      ghost var start := m;
      var i := 0;
      while i < |order|
        invariant 0 <= i <= |order| && |m| == g.Count() && IsTree(rank, m)
        invariant Sweeping(g, rank, m, Cursor(rank, order, i))
        invariant changed ==> Total(rank, m, |m|) < Total(rank, start, |m|)
        invariant !changed ==> m == start && SweptUpTo(g, rank, m, order, i)
      {
        var b := order[i];
        if b != ENTRY && rank[b] != 0 {
          Arrive(g, rank, m, order, i);
          var m' := Visit(g, rank, m, b);
          if m' != m {
            changed := true;
          }
          m := m';
        } else {
          PassOver(g, rank, m, order, i);
          if rank[b] != 0 {
            EntryAtFixpoint(g, rank, m, Cursor(rank, order, i));
          }
        }
        i := i + 1;
      }
      SweepEnds(g, rank, m, order);
    }
    FixpointReached(g, rank, m, order);
  }

  lemma EntryAtFixpoint(g: Graph, rank: seq<nat>, m: seq<int>, cursor: nat)
    requires Sweeping(g, rank, m, cursor) && IsTree(rank, m)
    ensures AtFixpoint(g, rank, m, ENTRY)
  {
    hide Sweeping;
    SweepingFacts(g, rank, m, cursor);
  }

  lemma SweepEnds(g: Graph, rank: seq<nat>, m: seq<int>, order: seq<nat>)
    requires Orders(g, rank, order) && Sweeping(g, rank, m, Cursor(rank, order, |order|))
    ensures Sweeping(g, rank, m, 0)
  {
    hide Sweeping;
    var cursor := Cursor(rank, order, |order|);
    forall b: nat | b < |rank|
      ensures rank[b] < cursor
    {
      assert b in order;
      var k :| 0 <= k < |order| && order[k] == b;
      assert k < |order| - 1 ==> rank[order[k]] <= rank[order[|order| - 1]];
    }
    NextSweep(g, rank, m, cursor);
  }

  lemma FixpointReached(g: Graph, rank: seq<nat>, m: seq<int>, order: seq<nat>)
    requires Orders(g, rank, order) && Sweeping(g, rank, m, 0) && IsTree(rank, m) && Ranked(g, rank)
    requires SweptUpTo(g, rank, m, order, |order|)
    ensures forall b: nat :: b < |m| ==> (Present(m, b) <==> g.Reachable(b))
    ensures forall a: nat, b: nat :: Present(m, b) ==> (Anc(rank, m, a, b) <==> g.Dominates(a, b))
  {
    hide Sweeping, Anc, Meets, Graph.Dominates, HasForwardEdge, Graph.Valid, Graph.Reachable;
    forall b: nat | b < g.Count() && rank[b] != 0
      ensures AtFixpoint(g, rank, m, b)
    {
      assert b in order;
      var k :| 0 <= k < |order| && order[k] == b;
    }
    FixpointIsDominance(g, rank, m, 0);
  }

  // ----- the tree and its queries -----

  datatype DominatorTree = DominatorTree(immediate: seq<int>, begin: seq<nat>, end: seq<nat>)
  {
    /** Out of range is false; a block never reached is dominated by everything. */
    predicate Dominates(ancestor: nat, block: nat)
      requires |immediate| == |begin| == |end|
    {
      if ancestor >= |immediate| || block >= |immediate| then false
      else if immediate[block] == NONE then true
      else immediate[ancestor] != NONE && begin[ancestor] <= begin[block] && end[block] <= end[ancestor]
    }
  }

  /** The query answers dominance by paths, for every pair of blocks. */
  ghost predicate AnswersDominance(g: Graph, tree: DominatorTree)
  {
    && |tree.immediate| == |tree.begin| == |tree.end| == g.Count()
    && (forall a: nat, b: nat :: a < g.Count() && b < g.Count() ==> (tree.Dominates(a, b) <==> g.Dominates(a, b)))
    && (forall a: nat, b: nat :: a >= g.Count() || b >= g.Count() ==> !tree.Dominates(a, b))
  }

  lemma NumbersAreRanks(g: Graph, n: Numbering)
    requires g.Valid() && Numbers(g, n)
    ensures Ranked(g, n.rpost)
  {
    hide HasForwardEdge, Graph.Reachable;
    EntryReached(g);
  }

  lemma EntryReached(g: Graph)
    requires g.Valid()
    ensures g.Reachable(ENTRY)
  {
    assert g.PathFromTo([ENTRY], ENTRY, ENTRY);
  }

  lemma UnreachedIsDominated(g: Graph, a: nat, b: nat)
    requires !g.Reachable(b)
    ensures g.Dominates(a, b)
  {
  }

  /** A dominator of a reachable block is reachable. */
  lemma DominatorIsReached(g: Graph, a: nat, b: nat)
    requires g.Reachable(b) && g.Dominates(a, b)
    ensures g.Reachable(a)
  {
    var p :| g.PathFromTo(p, ENTRY, b);
    var i :| 0 <= i < |p| && p[i] == a;
    PathPrefix(g, p, i);
  }

  method AnalyzeDominators(g: Graph) returns (tree: DominatorTree)
    requires g.Valid()
    ensures AnswersDominance(g, tree)
  {
    hide Anc, Graph.Dominates, Graph.Reachable, Ranked, Numbers, Graph.Valid, IsTree;
    var n := Enumerate(g);
    NumbersAreRanks(g, n);
    var order := SortByRank(n.rpost);
    RankedCount(g, n.rpost);
    var parents := ComputeParents(g, n.rpost, order);
    var times := Number(n.rpost, parents);
    tree := DominatorTree(parents, times.begin, times.end);
    forall a: nat, b: nat | a < g.Count() && b < g.Count()
      ensures tree.Dominates(a, b) <==> g.Dominates(a, b)
    {
      if !Present(parents, b) {
        UnreachedIsDominated(g, a, b);
      } else if g.Dominates(a, b) {
        DominatorIsReached(g, a, b);
      }
    }
  }

  lemma RankedCount(g: Graph, rank: seq<nat>)
    requires Ranked(g, rank)
    ensures |rank| == g.Count()
  {
  }
}
