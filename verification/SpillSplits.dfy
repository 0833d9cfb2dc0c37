/** The edges that spill code splits: the editor refuses none of them, and the nodes it
    gives are passed exactly when the edges are taken. */
module SpillSplits {
  import opened Topology
  import opened EdgeGraphs
  import opened EdgeEditor
  import Graphs
  import Spills = EdgeSpillSemantics
  import Decisions = EdgeSpills
  import Placement = EdgeSpillPlacement

  /** Operations of the edge stay on it: they go neither up nor down. */
  ghost predicate Stranded(f: Spills.Facts, e: nat)
    requires f.Valid()
  {
    e < |f.graph.edges| && Decisions.Busy(f, e) && !Decisions.Hoisted(f, e) && !Decisions.Sunk(f, e)
  }

  lemma BusyIsReal(f: Spills.Facts, e: nat)
    requires f.Valid() && e < |f.graph.edges| && Decisions.Busy(f, e)
    ensures 2 <= f.Src(e) < f.graph.Count() && 2 <= f.Dst(e) < f.graph.Count()
  {
    assert f.Src(e) < |f.gen| && f.Dst(e) < |f.gen|;
  }

  lemma SameEnds(f: Spills.Facts, e: nat, d: nat)
    requires f.Valid() && e < |f.graph.edges| && d < |f.graph.edges|
    ensures f.Src(e) == f.Src(d) && |f.graph.outgoing[f.Src(e)]| == 1 ==> e == d
    ensures f.Dst(e) == f.Dst(d) && |f.graph.incoming[f.Dst(e)]| == 1 ==> e == d
  {
    assert e in f.graph.outgoing[f.Src(e)] && d in f.graph.outgoing[f.Src(d)];
    assert e in f.graph.incoming[f.Dst(e)] && d in f.graph.incoming[f.Dst(d)];
  }

  /** Only critical edges keep their operations. */
  lemma StrandedIsCritical(f: Spills.Facts, e: nat)
    requires f.Valid() && Stranded(f, e)
    ensures |f.graph.outgoing[f.Src(e)]| != 1 && |f.graph.incoming[f.Dst(e)]| != 1
  {
    BusyIsReal(f, e);
    if |f.graph.outgoing[f.Src(e)]| == 1 {
      forall x: nat | x < |f.graph.edges| && f.Src(x) == f.Src(e)
        ensures x == e
      {
        SameEnds(f, e, x);
      }
      assert Decisions.MayHoist(f, e);
      assert Decisions.SourceCommon(f, f.Src(e));
    }
    if |f.graph.incoming[f.Dst(e)]| == 1 {
      forall x: nat | x < |f.graph.edges| && f.Dst(x) == f.Dst(e)
        ensures x == e
      {
        SameEnds(f, e, x);
      }
      assert Decisions.DestinationCommon(f, f.Dst(e));
    }
  }

  /** Only such edges have code of their own. */
  lemma OnEdgeIsStranded(f: Spills.Facts, code: Placement.Code, e: nat)
    requires f.Valid() && Placement.Emitted(f, code) && Placement.At(code, Placement.OnEdge(e), false) != []
    ensures Stranded(f, e)
  {
    hide Spills.Facts.Valid, Decisions.Hoisted, Decisions.Sunk;
    var ops := Placement.At(code, Placement.OnEdge(e), false);
    assert ops[0] in ops;
    var p := Placement.Placement(ops[0].reg, Placement.OnEdge(e), false, ops[0].store);
    assert Placement.Wanted(f, p);
    var d: nat :| d < |f.graph.edges| && Placement.PlacedFor(f, p, d);
    assert Placement.Site(f, d) == (Placement.OnEdge(e), false);
    Decisions.EndsInRange(f);
    assert p.reg in f.Needs(d);
  }

  // ----- the editor's view of the same function -----

  /** The facts speak of the editor's graph and of how its blocks end. */
  ghost predicate Mirrors(f: Spills.Facts, g: Func, edges: seq<Edge>)
  {
    && (forall b, j, k :: 0 <= b < |f.graph.incoming| && 0 <= j < k < |f.graph.incoming[b]| ==> f.graph.incoming[b][j] != f.graph.incoming[b][k])
    && f.graph.Count() == |g.code| && |f.ends| == |g.code| && |f.graph.edges| == |edges|
    && (forall e: nat :: e < |edges| ==> edges[e].source == f.graph.edges[e].source && edges[e].destination == f.graph.edges[e].destination)
    && (forall b: nat :: g.Real(b) ==> (f.ends[b].Falls? <==> g.Tail(b).Fall?) && (f.ends[b].Jumps? <==> g.Tail(b).Jump?))
  }

  ghost predicate Another(edges: seq<Edge>, k: nat)
    requires k < |edges|
  {
    exists j: nat :: j < |edges| && j != k && edges[j].source == edges[k].source
  }

  predicate BranchesAndFalls(f: Func, b: nat)
  {
    f.Real(b) && f.Tail(b).Falls() && f.Tail(b).Branches()
  }

  /** A block that branches and falls on has more than one way to go. */
  ghost predicate NoLoneBranch(f: Func, edges: seq<Edge>)
  {
    forall k: nat :: k < |edges| && BranchesAndFalls(f, edges[k].source) && edges[k].destination >= 2 ==> Another(edges, k)
  }

  lemma MirroredBranches(f: Spills.Facts, g: Func, edges: seq<Edge>)
    requires f.Valid() && Mirrors(f, g, edges)
    ensures NoLoneBranch(g, edges)
  {
    forall k: nat | k < |edges| && BranchesAndFalls(g, edges[k].source) && edges[k].destination >= 2
      ensures Another(edges, k)
    {
      assert f.Src(k) == edges[k].source && f.ends[f.Src(k)].Branches?;
      OtherOut(f, edges, k);
    }
  }

  lemma OtherOut(f: Spills.Facts, edges: seq<Edge>, k: nat)
    requires f.Valid() && |f.graph.edges| == |edges| && k < |edges|
    requires forall e: nat :: e < |edges| ==> edges[e].source == f.graph.edges[e].source
    requires |f.graph.outgoing[f.Src(k)]| != 1
    ensures Another(edges, k)
  {
    var out := f.graph.outgoing[f.Src(k)];
    assert k in out;
    var j := if out[0] == k then out[1] else out[0];
    assert j in out && j != k;
    assert f.graph.edges[j].source == f.Src(k);
  }

  /** Another edge leads to the same block. */
  ghost predicate Joined(edges: seq<Edge>, k: nat)
    requires k < |edges|
  {
    exists j: nat :: j < |edges| && j != k && edges[j].destination == edges[k].destination
  }

  lemma NotAlone(f: Func, edges: seq<Edge>, e: nat)
    requires Matches(f, edges) && e < |edges|
    ensures Another(edges, e) ==> !SoleOut(f, edges[e])
    ensures Joined(edges, e) ==> !SoleIn(f, edges[e])
  {
    hide Direct, Boundary;
    if Another(edges, e) {
      var j: nat :| j < |edges| && j != e && edges[j].source == edges[e].source;
      assert edges[j] in edges && edges[j] != edges[e];
    }
    if Joined(edges, e) {
      var j: nat :| j < |edges| && j != e && edges[j].destination == edges[e].destination;
      assert edges[j] in edges && edges[j] != edges[e];
    }
  }

  /** With that, an edge between blocks is not refused if its source has another way out. */
  lemma NotRefused(f: Func, edges: seq<Edge>, e: nat)
    requires f.Well() && Matches(f, edges) && NoLoneBranch(f, edges)
    requires e < |edges| && f.Real(edges[e].source) && f.Real(edges[e].destination) && Another(edges, e)
    ensures !Refused(f, edges[e])
  {
    NotAlone(f, edges, e);
    assert edges[e] in edges;
    hide Matches, SoleOut, NoLoneBranch;
    forall o: nat | Falling(f, Topology.Edge(o, edges[e].destination, Fallthrough, NO_OPERAND)) && f.Tail(o).Branches()
      ensures !SoleOut(f, Topology.Edge(o, edges[e].destination, Fallthrough, NO_OPERAND))
    {
      FallNotAlone(f, edges, o, edges[e].destination);
    }
  }

  lemma FallNotAlone(f: Func, edges: seq<Edge>, o: nat, d: nat)
    requires Matches(f, edges) && NoLoneBranch(f, edges) && d >= 2
    requires Falling(f, Topology.Edge(o, d, Fallthrough, NO_OPERAND)) && f.Tail(o).Branches()
    ensures !SoleOut(f, Topology.Edge(o, d, Fallthrough, NO_OPERAND))
  {
    var x := Topology.Edge(o, d, Fallthrough, NO_OPERAND);
    assert x in edges;
    var k: nat :| k < |edges| && edges[k] == x;
    assert Another(edges, k);
    NotAlone(f, edges, k);
  }

  // ----- one split among others -----

  /** What has become of the graph since the first split. */
  ghost predicate Detoured(f0: Func, before: seq<Edge>, f: Func, after: seq<Edge>)
  {
    && |f0.code| <= |f.code| && |before| <= |after|
    && (forall k: nat :: k < |before| ==> after[k].source == before[k].source)
    && (forall k: nat :: k < |before| ==> after[k].destination == before[k].destination || after[k].destination >= |f0.code|)
    && (forall k: nat :: k < |before| && after[k].destination < |f0.code| && Joined(before, k) ==> Joined(after, k))
    && (forall j: nat, k: nat :: j < |after| && k < |after| && after[j].destination == after[k].destination >= |f0.code| ==> j == k)
    && NoLoneBranch(f, after)
  }

  /** The node is entered by the edge and by nothing else. */
  ghost predicate Entered(f: Func, node: nat, e: Edge)
  {
    InGraph(f, e) && e.destination == node && SoleIn(f, e)
  }

  lemma NotYet(f: Func, edges: seq<Edge>)
    requires f.Well() && Matches(f, edges) && NoLoneBranch(f, edges)
    ensures Detoured(f, edges, f, edges)
  {
    hide Matches, Direct, NoLoneBranch, Func.Well;
    EndsBelow(f, edges);
  }

  lemma BranchesStay(f1: Func, mid: seq<Edge>, f: Func, after: seq<Edge>, d: nat)
    requires f1.Well() && Matches(f1, mid) && NoLoneBranch(f1, mid) && Detours(f1, mid, f, after, d) && d >= 2
    ensures NoLoneBranch(f, after)
  {
    hide Matches, Direct;
    EndsBelow(f1, mid);
    forall k: nat | k < |after| && BranchesAndFalls(f, after[k].source) && after[k].destination >= 2
      ensures Another(after, k)
    {
      assert k < |mid| && Onto(mid[k].destination, after[k].destination, |f1.code|, d);
      assert Another(mid, k);
      var j: nat :| j < |mid| && j != k && mid[j].source == mid[k].source;
      assert after[j].source == after[k].source;
    }
  }

  lemma DetourMore(f0: Func, before: seq<Edge>, f1: Func, mid: seq<Edge>, f: Func, after: seq<Edge>, d: nat)
    requires f1.Well() && Matches(f1, mid) && Detoured(f0, before, f1, mid) && Detours(f1, mid, f, after, d) && 2 <= d < |f0.code|
    ensures Detoured(f0, before, f, after)
  {
    BranchesStay(f1, mid, f, after, d);
    hide Matches, Direct, NoLoneBranch, Func.Well;
    EndsBelow(f1, mid);
    forall j: nat, k: nat | j < |after| && k < |after| && after[j].destination == after[k].destination >= |f0.code|
      ensures j == k
    {
      if after[j].destination < |f1.code| {
        assert j < |mid| && k < |mid| && mid[j].destination == mid[k].destination;
      }
    }
    forall k: nat | k < |before| && after[k].destination < |f0.code| && Joined(before, k)
      ensures Joined(after, k)
    {
      assert mid[k].destination == after[k].destination;
      JoinedStays(f1, mid, f, after, d, k);
    }
  }

  /** Until an edge is led through a new node, it shares its destination. */
  lemma JoinedStays(f1: Func, mid: seq<Edge>, f: Func, after: seq<Edge>, d: nat, k: nat)
    requires Detours(f1, mid, f, after, d) && k < |mid| && Joined(mid, k) && after[k].destination == mid[k].destination
    ensures Joined(after, k)
  {
    var j: nat :| j < |mid| && j != k && mid[j].destination == mid[k].destination;
    if after[j].destination != mid[j].destination {
      assert Back(after, |mid|, d);
      var m: nat :| |mid| <= m < |after| && after[m].destination == d;
      assert after[m].destination == after[k].destination;
    } else {
      assert after[j].destination == after[k].destination;
    }
  }

  /** A node that is new has one way in. */
  lemma NewIsEntered(f0: Func, before: seq<Edge>, f: Func, after: seq<Edge>, k: nat)
    requires Detoured(f0, before, f, after) && Matches(f, after) && k < |after| && after[k].destination >= |f0.code|
    ensures Entered(f, after[k].destination, after[k])
  {
    hide Direct, Boundary, NoLoneBranch;
    assert after[k] in after;
    forall o | InGraph(f, o) && o.destination == after[k].destination
      ensures o == after[k]
    {
      assert o in after;
      var j: nat :| j < |after| && after[j] == o;
    }
  }

  /** A critical edge gets a new node. */
  lemma GuardIsNew(f1: Func, mid: seq<Edge>, f: Func, after: seq<Edge>, e: nat, node: nat)
    requires e < |mid| && Detours(f1, mid, f, after, mid[e].destination) && Matches(f, after) && Another(after, e) && Joined(mid, e)
    requires Guards(f, node, after[e]) && (after[e] == mid[e] || after[e].destination == node >= |f1.code|)
    ensures after[e].destination == node >= |f1.code|
  {
    hide Matches, Another, Joined, SoleIn, SoleOut;
    NotAlone(f, after, e);
    if after[e].destination == mid[e].destination {
      JoinedStays(f1, mid, f, after, mid[e].destination, e);
    }
    assert after[e] != mid[e];
  }

  lemma AnotherStays(before: seq<Edge>, after: seq<Edge>, k: nat)
    requires k < |before| <= |after| && Another(before, k) && forall j: nat :: j < |before| ==> after[j].source == before[j].source
    ensures Another(after, k)
  {
    var j: nat :| j < |before| && j != k && before[j].source == before[k].source;
    assert after[j].source == after[k].source;
  }

  // ----- all splits -----

  /** A node for every edge that keeps operations, one after the other; an edge that an
      earlier split has led through a node of its own needs no other. No split fails. */
  method SplitEdges(editor: Editor, f: Spills.Facts, wanted: seq<nat>) returns (nodes: seq<nat>)
    requires editor.Valid() && f.Valid() && Mirrors(f, editor.f, editor.edges)
    requires forall n :: 0 <= n < |wanted| ==> Stranded(f, wanted[n])
    modifies editor
    ensures editor.Valid() && |old(editor.edges)| <= |editor.edges| && |nodes| == |wanted|
    ensures forall n :: 0 <= n < |wanted| ==>
              wanted[n] < |old(editor.edges)| && nodes[n] >= |old(editor.f).code| && Entered(editor.f, nodes[n], editor.edges[wanted[n]])
    ensures forall k: nat :: k < |old(editor.edges)| ==> editor.edges[k].source == old(editor.edges)[k].source
    ensures |old(editor.f).code| <= |editor.f.code|
    ensures SameRuns(old(editor.f), editor.f, Names(|old(editor.f).code|, |editor.f.code|))
  {
    hide Spills.Facts.Valid, Matches, Func.Well, AllHold, SameRuns, Names, NoLoneBranch, Detours, Entered, Refused, Stranded, Another, Guards,
         InGraph, Detoured, Mirrors, Joined;
    ghost var f0, edges0 := editor.f, editor.edges;
    nodes := [];
    MirroredBranches(f, f0, edges0);
    NotYet(f0, edges0);
    UneditedRuns(f0);
    MirroredSize(f, f0, edges0);
    for n := 0 to |wanted|
      invariant editor.Valid() && |nodes| == n && Detoured(f0, edges0, editor.f, editor.edges)
      invariant |edges0| <= |editor.edges| && |f0.code| <= |editor.f.code|
      invariant forall m :: 0 <= m < n ==> wanted[m] < |edges0| && editor.edges[wanted[m]].destination == nodes[m] >= |f0.code|
      invariant SameRuns(f0, editor.f, Names(|f0.code|, |editor.f.code|))
    {
      var e := wanted[n];
      WantedEdge(f, f0, edges0, e);
      ghost var f1, mid := editor.f, editor.edges;
      if editor.edges[e].destination >= |f.ends| {
        nodes := nodes + [editor.edges[e].destination];
      } else {
        StillWanted(f0, edges0, f1, mid, e);
        NotRefused(f1, mid, e);
        var placed := editor.Split(e);
        DetourMore(f0, edges0, f1, mid, editor.f, editor.edges, mid[e].destination);
        SplitIsNew(f0, edges0, f1, mid, editor.f, editor.edges, e, placed.node);
        NewStay(f0, f1, mid, editor.f, editor.edges, mid[e].destination);
        RunsCompose(f0, f1, editor.f, Names(|f0.code|, |f1.code|), Names(|f1.code|, |editor.f.code|));
        NamesJoin(|f0.code|, |f1.code|, |editor.f.code|);
        nodes := nodes + [placed.node];
      }
    }
    forall n | 0 <= n < |wanted|
      ensures Entered(editor.f, nodes[n], editor.edges[wanted[n]])
    {
      NewIsEntered(f0, edges0, editor.f, editor.edges, wanted[n]);
    }
    DetouredSources(f0, edges0, editor.f, editor.edges);
  }

  lemma MirroredSize(f: Spills.Facts, g: Func, edges: seq<Edge>)
    requires Mirrors(f, g, edges)
    ensures |f.ends| == |g.code|
  {
  }

  lemma WantedEdge(f: Spills.Facts, g: Func, edges: seq<Edge>, e: nat)
    requires f.Valid() && Mirrors(f, g, edges) && Stranded(f, e)
    ensures e < |edges| && g.Real(edges[e].source) && g.Real(edges[e].destination) && Another(edges, e) && Joined(edges, e)
  {
    BusyIsReal(f, e);
    StrandedIsCritical(f, e);
    OtherOut(f, edges, e);
    var ins := f.graph.incoming[f.Dst(e)];
    assert e in ins;
    var j := if ins[0] == e then ins[1] else ins[0];
    assert j in ins && j != e;
    assert edges[j].destination == edges[e].destination;
  }

  lemma StillWanted(f0: Func, before: seq<Edge>, f: Func, after: seq<Edge>, e: nat)
    requires Detoured(f0, before, f, after) && e < |before| && after[e].destination < |f0.code|
    requires f0.Real(before[e].source) && f0.Real(before[e].destination) && Another(before, e) && Joined(before, e)
    ensures f.Real(after[e].source) && f.Real(after[e].destination) && after[e].destination == before[e].destination
    ensures Another(after, e) && Joined(after, e) && NoLoneBranch(f, after)
  {
    hide NoLoneBranch, Joined;
    AnotherStays(before, after, e);
  }

  lemma SplitIsNew(f0: Func, before: seq<Edge>, f1: Func, mid: seq<Edge>, f: Func, after: seq<Edge>, e: nat, node: nat)
    requires e < |mid| && Detours(f1, mid, f, after, mid[e].destination) && Matches(f, after) && Another(mid, e) && Joined(mid, e)
    requires Guards(f, node, after[e]) && (after[e] == mid[e] || after[e].destination == node >= |f1.code|)
    ensures after[e].destination == node >= |f1.code|
  {
    hide Matches, Guards, Joined;
    AnotherStays(mid, after, e);
    GuardIsNew(f1, mid, f, after, e, node);
  }

  lemma NewStay(f0: Func, f1: Func, mid: seq<Edge>, f: Func, after: seq<Edge>, d: nat)
    requires Detours(f1, mid, f, after, d) && d < |f0.code|
    ensures forall k: nat :: k < |mid| && mid[k].destination >= |f0.code| ==> k < |after| && after[k].destination == mid[k].destination
  {
  }

  lemma DetouredSources(f0: Func, before: seq<Edge>, f: Func, after: seq<Edge>)
    requires Detoured(f0, before, f, after)
    ensures |before| <= |after| && forall k: nat :: k < |before| ==> after[k].source == before[k].source
  {
  }
}
