/** Splitting control-flow edges in place: the edge and node lists are relinked as blocks,
    labels and jumps move, and stay the canonical graph of the edited function. */
module EdgeEditor {
  import opened Optional
  import opened Topology
  import opened EdgeEdits
  import opened EdgeGraphs

  // ----- linked lists of edge identities -----

  function Without(s: seq<nat>, k: nat): seq<nat>
    decreases |s|
  {
    if s == [] then [] else (if s[0] == k then [] else [s[0]]) + Without(s[1..], k)
  }

  lemma {:induction false} WithoutKeeps(s: seq<nat>, k: nat)
    requires Distinct(s)
    ensures Distinct(Without(s, k)) && forall x: nat :: x in Without(s, k) <==> x in s && x != k
    decreases |s|
  {
    if s != [] {
      DistinctTail(s);
      WithoutKeeps(s[1..], k);
      assert s == [s[0]] + s[1..];
      if s[0] == k {
        assert Without(s, k) == Without(s[1..], k);
      } else {
        DistinctCons(s[0], Without(s[1..], k));
      }
    }
  }

  /** `list` holds the identities of exactly the edges that `at` maps to `b`, once each. */
  ghost predicate Holds(list: seq<nat>, ends: seq<nat>, b: nat)
  {
    Distinct(list) && forall k: nat :: k in list <==> k < |ends| && ends[k] == b
  }

  function Sources(edges: seq<Edge>): (r: seq<nat>)
    ensures |r| == |edges| && forall k: nat :: k < |edges| ==> r[k] == edges[k].source
  {
    seq(|edges|, k requires 0 <= k < |edges| => edges[k].source)
  }

  function Destinations(edges: seq<Edge>): (r: seq<nat>)
    ensures |r| == |edges| && forall k: nat :: k < |edges| ==> r[k] == edges[k].destination
  {
    seq(|edges|, k requires 0 <= k < |edges| => edges[k].destination)
  }

  ghost predicate AllHold(lists: seq<seq<nat>>, ends: seq<nat>)
  {
    && (forall b: nat :: b < |lists| ==> Holds(lists[b], ends, b))
    && (forall k: nat :: k < |ends| ==> ends[k] < |lists|)
  }

  function Relink(lists: seq<seq<nat>>, k: nat, from: nat, to: nat): seq<seq<nat>>
    requires from < |lists| && to < |lists|
  {
    var cut := lists[from := Without(lists[from], k)];
    cut[to := cut[to] + [k]]
  }

  lemma RelinkHolds(lists: seq<seq<nat>>, ends: seq<nat>, k: nat, to: nat)
    requires AllHold(lists, ends) && k < |ends| && to < |lists| && to != ends[k]
    ensures AllHold(Relink(lists, k, ends[k], to), ends[k := to])
  {
    var from := ends[k];
    var moved := Relink(lists, k, from, to);
    forall b: nat | b < |moved| ensures Holds(moved[b], ends[k := to], b) {
      assert Holds(lists[b], ends, b);
      WithoutKeeps(lists[b], k);
      if b == to {
        PushDistinct(lists[to], k);
      }
    }
  }

  lemma PushDistinct(s: seq<nat>, x: nat)
    requires Distinct(s) && x !in s
    ensures Distinct(s + [x])
  {
    AppendDistinct(s, x);
  }

  lemma LinkHolds(lists: seq<seq<nat>>, ends: seq<nat>, b: nat)
    requires AllHold(lists, ends) && b < |lists|
    ensures AllHold(lists[b := lists[b] + [|ends|]], ends + [b])
  {
    var more := lists[b := lists[b] + [|ends|]];
    forall c: nat | c < |more| ensures Holds(more[c], ends + [b], c) {
      assert Holds(lists[c], ends, c);
      if c == b {
        PushDistinct(lists[b], |ends|);
      }
    }
  }

  lemma GrowHolds(lists: seq<seq<nat>>, ends: seq<nat>)
    requires AllHold(lists, ends)
    ensures AllHold(lists + [[]], ends)
  {
    var more := lists + [[]];
    forall b: nat | b < |more| ensures Holds(more[b], ends, b) {
      assert b < |lists| ==> Holds(lists[b], ends, b);
    }
  }

  lemma Lone(lists: seq<seq<nat>>, ends: seq<nat>, b: nat, k: nat, j: nat)
    requires AllHold(lists, ends) && b < |lists| && |lists[b]| == 1
    requires k < |ends| && ends[k] == b && j < |ends| && ends[j] == b
    ensures k == j
  {
    assert Holds(lists[b], ends, b);
  }

  lemma Crowd(lists: seq<seq<nat>>, ends: seq<nat>, b: nat, k: nat) returns (j: nat)
    requires AllHold(lists, ends) && b < |lists| && |lists[b]| != 1
    requires k < |ends| && ends[k] == b
    ensures j < |ends| && ends[j] == b && j != k
  {
    assert Holds(lists[b], ends, b);
    assert k in lists[b];
    j := if lists[b][0] == k then lists[b][1] else lists[b][0];
    assert j in lists[b];
  }

  // ----- the editor -----

  /** No other edge leaves, or enters, the block. */
  ghost predicate SoleOut(f: Func, e: Edge)
  {
    forall o :: InGraph(f, o) && o.source == e.source ==> o == e
  }

  ghost predicate SoleIn(f: Func, e: Edge)
  {
    forall o :: InGraph(f, o) && o.destination == e.destination ==> o == e
  }

  /** The edge is the only way into its source. */
  ghost predicate SoleEntry(f: Func, b: nat)
  {
    exists o :: InGraph(f, o) && o.destination == b && SoleIn(f, o)
  }

  /** Falls into the destination from a block that only falls, and yet ends in a branch. */
  ghost predicate IdleBranch(f: Func, d: nat)
  {
    exists o: nat :: Falling(f, Edge(o, d, Fallthrough, NO_OPERAND)) && f.Tail(o).Branches() && SoleOut(f, Edge(o, d, Fallthrough, NO_OPERAND))
  }

  /** Exactly the edges that cannot be split. */
  ghost predicate Refused(f: Func, e: Edge)
  {
    || !Direct(f, e)
    || (!e.kind.Fallthrough? && if SoleOut(f, e) then !SoleEntry(f, e.source) && !f.Tail(e.source).Jump?
                                else !SoleIn(f, e) && IdleBranch(f, e.destination))
  }

  /** Edges change by detours through new nodes only: an edge keeps its source, and its
      destination unless that is `d`, to which a new edge leads back; nothing else leads to a
      new node; and no block that branches and falls on is made. */
  ghost predicate Detours(f0: Func, before: seq<Edge>, f: Func, after: seq<Edge>, d: nat)
  {
    && |f0.code| <= |f.code| && |before| <= |after|
    && (forall k: nat :: k < |before| ==> after[k].source == before[k].source && Onto(before[k].destination, after[k].destination, |f0.code|, d))
    && (forall k: nat :: k < |before| && after[k].destination != before[k].destination ==> Back(after, |before|, d))
    && (forall k: nat :: |before| <= k < |after| ==> after[k].source >= |f0.code| && Onto(d, after[k].destination, |f0.code|, d))
    && (forall j: nat, k: nat :: j < |after| && k < |after| && after[j].destination == after[k].destination >= |f0.code| ==> j == k)
    && (forall b: nat :: b < |f.code| && f.Tail(b).Falls() && f.Tail(b).Branches() ==>
          b < |f0.code| && f0.Tail(b).Falls() && f0.Tail(b).Branches())
  }

  predicate Back(edges: seq<Edge>, first: nat, d: nat)
  {
    exists j :: first <= j < |edges| && edges[j].destination == d
  }

  predicate Onto(was: nat, now: nat, low: nat, d: nat)
  {
    now == was || (was == d && now >= low)
  }

  /** One edge goes through the one new block. */
  lemma OneDetour(f0: Func, before: seq<Edge>, f: Func, after: seq<Edge>, e: nat, first: Edge, second: Edge)
    requires f0.Well() && Matches(f0, before) && e < |before| && Direct(f0, before[e]) && |f.code| == |f0.code| + 1
    requires after == before[e := first] + [second]
    requires first.source == before[e].source && first.destination == |f0.code|
    requires second.source == |f0.code| && second.destination == before[e].destination
    requires forall b: nat :: b < |f.code| && f.Tail(b).Falls() && f.Tail(b).Branches() ==>
               b < |f0.code| && f0.Tail(b).Falls() && f0.Tail(b).Branches()
    ensures Detours(f0, before, f, after, before[e].destination)
  {
    hide Matches, Direct;
    DirectIsReal(f0, before[e]);
    hide Func.Well;
    EndsBelow(f0, before);
    assert after[|before|] == second;
    assert Back(after, |before|, before[e].destination);
  }

  lemma EndsBelow(f: Func, edges: seq<Edge>)
    requires f.Well() && Matches(f, edges)
    ensures forall k: nat :: k < |edges| ==> edges[k].source < |f.code| && edges[k].destination < |f.code|
  {
    hide Matches, Direct, Func.Well;
    forall k: nat | k < |edges|
      ensures edges[k].source < |f.code| && edges[k].destination < |f.code|
    {
      RealEnds(f, edges, k);
    }
  }

  /** One edge turns into another between the same blocks. */
  lemma NoDetour(f0: Func, before: seq<Edge>, f: Func, after: seq<Edge>, e: nat, first: Edge, d: nat)
    requires f0.Well() && Matches(f0, before) && e < |before| && |f.code| == |f0.code|
    requires after == before[e := first] && first.source == before[e].source && first.destination == before[e].destination
    requires forall b: nat :: b < |f.code| && f.Tail(b).Falls() && f.Tail(b).Branches() ==> f0.Tail(b).Falls() && f0.Tail(b).Branches()
    ensures Detours(f0, before, f, after, d)
  {
    hide Matches, Direct, Func.Well;
    EndsBelow(f0, before);
  }

  lemma DetoursCompose(f0: Func, a: seq<Edge>, f1: Func, b: seq<Edge>, f2: Func, c: seq<Edge>, d: nat)
    requires Detours(f0, a, f1, b, d) && Detours(f1, b, f2, c, d) && d < |f0.code|
    requires forall k: nat :: k < |b| ==> b[k].destination < |f1.code|
    ensures Detours(f0, a, f2, c, d)
  {
    hide Back, Func.Tail, Tail.Falls, Tail.Branches;
    forall k: nat | k < |a| && c[k].destination != a[k].destination
      ensures Back(c, |a|, d)
    {
      if b[k].destination != a[k].destination {
        BackAgain(f1, b, f2, c, d, |a|);
      } else {
        BackLater(c, |a|, |b|, d);
      }
    }
    NewApart(f1, b, c, |f0.code|, d, f2);
  }

  lemma BackAgain(f1: Func, b: seq<Edge>, f2: Func, c: seq<Edge>, d: nat, first: nat)
    requires Detours(f1, b, f2, c, d) && Back(b, first, d) && first <= |b|
    ensures Back(c, first, d)
  {
    var j :| first <= j < |b| && b[j].destination == d;
    if c[j].destination != d {
      BackLater(c, first, |b|, d);
    }
  }

  lemma BackLater(c: seq<Edge>, first: nat, later: nat, d: nat)
    requires Back(c, later, d) && first <= later
    ensures Back(c, first, d)
  {
  }

  lemma NewApart(f1: Func, b: seq<Edge>, c: seq<Edge>, low: nat, d: nat, f2: Func)
    requires Detours(f1, b, f2, c, d) && d < low <= |f1.code|
    requires forall j: nat, k: nat :: j < |b| && k < |b| && b[j].destination == b[k].destination >= low ==> j == k
    requires forall k: nat :: k < |b| ==> b[k].destination < |f1.code|
    ensures forall j: nat, k: nat :: j < |c| && k < |c| && c[j].destination == c[k].destination >= low ==> j == k
  {
    hide Back, Func.Tail, Tail.Falls, Tail.Branches;
    forall j: nat, k: nat | j < |c| && k < |c| && c[j].destination == c[k].destination >= low
      ensures j == k
    {
      if c[j].destination < |f1.code| {
        assert j < |b| && k < |b| && b[j].destination == b[k].destination;
      }
    }
  }

  datatype Placed = At(node: nat) | Failed

  class Editor {
    var f: Func
    var edges: seq<Edge>
    var incoming: seq<seq<nat>>
    var outgoing: seq<seq<nat>>

    ghost predicate Linked()
      reads this
    {
      && |incoming| == |outgoing| == |f.code|
      && AllHold(incoming, Destinations(edges)) && AllHold(outgoing, Sources(edges))
    }

    ghost predicate Valid()
      reads this
    {
      f.Well() && Matches(f, edges) && Linked()
    }

    constructor (func: Func, graph: seq<Edge>)
      requires func.Well() && Matches(func, graph)
      ensures Valid() && f == func && edges == graph
    {
      f, edges := func, [];
      incoming, outgoing := seq(|func.code|, _ => []), seq(|func.code|, _ => []);
      new;
      hide Matches, Direct, Func.Well, SameRuns;
      var k := 0;
      while k < |graph|
        invariant 0 <= k <= |graph|
        invariant Linked() && f == func && edges == graph[..k]
      {
        RealEnds(func, graph, k);
        Connect(graph[k].source, graph[k].destination, graph[k].kind, graph[k].operand);
        k := k + 1;
      }
      assert graph[..k] == graph;
    }

    /** A node for the block that `edited` adds. */
    method Create(edited: Func)
      requires Linked() && |edited.code| == |f.code| + 1
      modifies this
      ensures Linked() && f == edited && edges == old(edges)
    {
      GrowHolds(incoming, Destinations(edges));
      GrowHolds(outgoing, Sources(edges));
      f := edited;
      incoming := incoming + [[]];
      outgoing := outgoing + [[]];
    }

    method Connect(from: nat, to: nat, kind: EdgeKind, operand: int)
      requires Linked() && from < |f.code| && to < |f.code|
      modifies this
      ensures Linked() && f == old(f) && edges == old(edges) + [Edge(from, to, kind, operand)]
    {
      LinkHolds(outgoing, Sources(edges), from);
      LinkHolds(incoming, Destinations(edges), to);
      assert Sources(edges + [Edge(from, to, kind, operand)]) == Sources(edges) + [from];
      assert Destinations(edges + [Edge(from, to, kind, operand)]) == Destinations(edges) + [to];
      outgoing := outgoing[from := outgoing[from] + [|edges|]];
      incoming := incoming[to := incoming[to] + [|edges|]];
      edges := edges + [Edge(from, to, kind, operand)];
    }

    /** Moves an edge to the end of another node's incoming list. */
    method Redirect(e: nat, to: nat)
      requires Linked() && e < |edges| && to < |f.code| && to != edges[e].destination
      modifies this
      ensures Linked() && f == old(f) && edges == old(edges)[e := old(edges)[e].(destination := to)]
    {
      var from := edges[e].destination;
      assert from == Destinations(edges)[e];
      RelinkHolds(incoming, Destinations(edges), e, to);
      var moved := edges[e := edges[e].(destination := to)];
      assert Sources(moved) == Sources(edges);
      assert Destinations(moved) == Destinations(edges)[e := to];
      incoming := Relink(incoming, e, from, to);
      edges := moved;
    }

    method Relabel(e: nat, kind: EdgeKind, operand: int)
      requires Linked() && e < |edges|
      modifies this`edges
      ensures Linked() && edges == old(edges)[e := old(edges)[e].(kind := kind, operand := operand)]
    {
      var same := edges[e := edges[e].(kind := kind, operand := operand)];
      assert Sources(same) == Sources(edges) && Destinations(same) == Destinations(edges);
      edges := same;
    }

    // ----- the cases of a split -----

    ghost predicate Splittable(e: nat)
      reads this
    {
      Valid() && e < |edges| && Direct(f, edges[e])
    }

    /** A block between a block and the one it falls into. */
    method SplitFalling(e: nat, body: seq<Op>, tail: Tail)
      requires Splittable(e) && edges[e].kind.Fallthrough? && (body == [] || body == [Anchor])
      requires AfterFallOk(f, edges[e].source, tail, edges[e].destination)
      modifies this
      ensures Valid() && f == AfterFall(old(f), old(edges)[e].source, body, tail)
      ensures SameRuns(old(f), f, Names(|old(f).code|, |f.code|))
      ensures edges == old(edges)[e := old(edges)[e].(destination := |old(f).code|)] + [Onward(|old(f).code|, old(edges)[e].destination, tail)]
      ensures Detours(old(f), old(edges), f, edges, old(edges)[e].destination)
    {
      hide Matches, Direct, SameRuns, Func.Well, AfterFallOk, InsertAfter, AllHold, Names;
      var s, d := edges[e].source, edges[e].destination;
      FallingEdge(f, edges[e]);
      DirectIsReal(f, edges[e]);
      FallEdit(f, s, body, tail, d, edges, e);
      ghost var f0, edges0 := f, edges;
      var n := |f.code|;
      Create(AfterFall(f, s, body, tail));
      Redirect(e, n);
      Connect(n, d, if tail.Fall? then Fallthrough else Branch, if tail.Fall? then NO_OPERAND else 0);
      TailKind(f0, s, tail, d);
      OneDetour(f0, edges0, f, edges, e, edges[e], edges[|edges0|]);
    }

    /** The jump of a block with one exit moves into a block of its own. */
    method SplitJump(e: nat)
      requires Splittable(e) && !edges[e].kind.Fallthrough? && f.Tail(edges[e].source).Jump?
      modifies this
      ensures Valid() && f == JumpMoved(old(f), old(edges)[e].source)
      ensures SameRuns(old(f), f, Names(|old(f).code|, |f.code|))
      ensures edges == old(edges)[e := Edge(old(edges)[e].source, |old(f).code|, Fallthrough, NO_OPERAND)]
                       + [Edge(|old(f).code|, old(edges)[e].destination, Branch, 0)]
      ensures Detours(old(f), old(edges), f, edges, old(edges)[e].destination)
    {
      hide Matches, Direct, SameRuns, Func.Well, InsertAfter, AllHold, Names, JumpMovedOk;
      var s, d := edges[e].source, edges[e].destination;
      DirectIsReal(f, edges[e]);
      JumpEdge(f, edges[e]);
      JumpEdit(f, s, edges, e);
      ghost var f0, edges0 := f, edges;
      var n := |f.code|;
      Create(JumpMoved(f, s));
      Redirect(e, n);
      Relabel(e, Fallthrough, NO_OPERAND);
      assert edges == old(edges)[e := Edge(s, n, Fallthrough, NO_OPERAND)];
      Connect(n, d, Branch, 0);
      OneDetour(f0, edges0, f, edges, e, edges[e], edges[|edges0|]);
    }

    /** The label of a destination with one entry moves up into a block of its own. */
    method SplitLabel(e: nat)
      requires Splittable(e) && !edges[e].kind.Fallthrough? && SoleIn(f, edges[e])
      modifies this
      ensures Valid() && SameRuns(old(f), f, Names(|old(f).code|, |f.code|)) && |f.code| == |old(f).code| + 1
      ensures f.First() == (if old(f).First() == old(edges)[e].destination then |old(f).code| else old(f).First())
      ensures edges == old(edges)[e := old(edges)[e].(destination := |old(f).code|)]
                       + [Edge(|old(f).code|, old(edges)[e].destination, Fallthrough, NO_OPERAND)]
      ensures Detours(old(f), old(edges), f, edges, old(edges)[e].destination)
    {
      hide Matches, Direct, SameRuns, Func.Well, InsertBefore, AllHold, Names, OnlyWay;
      ghost var f0, edges0 := f, edges;
      var s, d := edges[e].source, edges[e].destination;
      TakenEdge(f, edges[e]);
      DirectIsReal(f, edges[e]);
      OnlyWayHere(f, edges[e]);
      LabelEdit(f, s, edges[e].operand, d, edges, e);
      FirstBefore(f, d);
      var n := |f.code|;
      Create(LabelMoved(f, d, f.Tail(s).Operands()[edges[e].operand].value));
      Redirect(e, n);
      Connect(n, d, Fallthrough, NO_OPERAND);
      OneDetour(f0, edges0, f, edges, e, edges[e], edges[|edges0|]);
    }

    /** A fresh label before a destination that nothing falls into. */
    method SplitTarget(e: nat)
      requires Splittable(e) && !edges[e].kind.Fallthrough? && NoneFalls(f, edges[e].destination)
      modifies this
      ensures Valid() && SameRuns(old(f), f, Names(|old(f).code|, |f.code|)) && |f.code| == |old(f).code| + 1
      ensures f.First() == (if old(f).First() == old(edges)[e].destination then |old(f).code| else old(f).First())
      ensures edges == old(edges)[e := old(edges)[e].(destination := |old(f).code|)]
                       + [Edge(|old(f).code|, old(edges)[e].destination, Fallthrough, NO_OPERAND)]
      ensures Detours(old(f), old(edges), f, edges, old(edges)[e].destination)
    {
      hide Matches, Direct, SameRuns, Func.Well, InsertBefore, AllHold, Names, NoneFalls, Tail.WithOperand;
      ghost var f0, edges0 := f, edges;
      var s, d := edges[e].source, edges[e].destination;
      TakenEdge(f, edges[e]);
      DirectIsReal(f, edges[e]);
      TargetEdit(f, s, edges[e].operand, d, edges, e);
      FirstBefore(f, d);
      var n := |f.code|;
      Create(Retargeted(f, s, edges[e].operand, d));
      Redirect(e, n);
      Connect(n, d, Fallthrough, NO_OPERAND);
      RetargetedTails(f0, s, edges0[e].operand, d);
      OneDetour(f0, edges0, f, edges, e, edges[e], edges[|edges0|]);
    }

    /** A jump in place of the fall of a block that only falls. */
    method JumpInstead(i: nat, l: nat)
      requires Splittable(i) && edges[i].kind.Fallthrough? && l < |f.home| && f.home[l] == edges[i].destination
      requires f.Tail(edges[i].source).Fall?
      modifies this
      ensures Valid() && |f.code| == |old(f).code| && f.First() == old(f).First()
      ensures SameRuns(old(f), f, Names(|old(f).code|, |f.code|))
      ensures edges == old(edges)[i := Edge(old(edges)[i].source, old(edges)[i].destination, Branch, 0)]
      ensures Detours(old(f), old(edges), f, edges, old(edges)[i].destination)
    {
      ghost var f0, edges0 := f, edges;
      hide Matches, Direct, SameRuns, AllHold, Names, Func.Well;
      var o := edges[i].source;
      FallingEdge(f, edges[i]);
      AppendEdit(f, o, l, edges, i);
      f := JumpAppended(f, o, l);
      Relabel(i, Branch, 0);
      NoDetour(f0, edges0, f, edges, i, edges[i], edges[i].destination);
    }

    /** The first falling edge among those into a block. */
    method FindFalling(d: nat) returns (r: Option<nat>)
      requires Valid() && f.Real(d)
      ensures r.Some? ==> r.value < |edges| && edges[r.value].destination == d && edges[r.value].kind.Fallthrough?
      ensures r.None? ==> NoneFalls(f, d)
    {
      hide Matches, Direct, Func.Well;
      assert Holds(incoming[d], Destinations(edges), d);
      r := None;
      var k := 0;
      while k < |incoming[d]|
        invariant 0 <= k <= |incoming[d]|
        invariant forall j: nat :: j < k ==> incoming[d][j] < |edges| && !edges[incoming[d][j]].kind.Fallthrough?
      {
        assert incoming[d][k] in incoming[d];
        if edges[incoming[d][k]].kind.Fallthrough? {
          return Some(incoming[d][k]);
        }
        k := k + 1;
      }
      NoFallingEdge(f, edges, d);
    }

    /** Nothing falls into the destination any more: its falling predecessor jumps, or
        falls into a trampoline that jumps. */
    method ClearFall(e: nat, i: nat) returns (refused: bool)
      requires Splittable(e) && !edges[e].kind.Fallthrough?
      requires Splittable(i) && edges[i].kind.Fallthrough? && edges[i].destination == edges[e].destination
      modifies this
      ensures refused <==> IdleBranch(old(f), old(edges)[e].destination)
      ensures refused ==> f == old(f) && edges == old(edges)
      ensures |edges| >= |old(edges)| && Splittable(e) && edges[e] == old(edges)[e]
      ensures !refused ==> NoneFalls(f, edges[e].destination) && |old(f).code| <= |f.code| && f.First() == old(f).First()
      ensures !refused ==> SameRuns(old(f), f, Names(|old(f).code|, |f.code|))
      ensures !refused ==> Detours(old(f), old(edges), f, edges, old(edges)[e].destination)
    {
      hide Matches, Direct, SameRuns, AllHold, Names, Func.Well, NoneFalls, IdleBranch, InsertAfter, Detours;
      var o, d := edges[i].source, edges[i].destination;
      FallingEdge(f, edges[i]);
      DirectIsReal(f, edges[i]);
      TakenEdge(f, edges[e]);
      IdleHere(f, edges[i]);
      SoleOutSize(f, edges, outgoing, i);
      var l := f.Tail(edges[e].source).Operands()[edges[e].operand].value;
      if |outgoing[o]| == 1 {
        if f.Tail(o).Branches() {
          return true;
        }
        JumpInstead(i, l);
      } else {
        FirstAfter(f, o);
        SplitFalling(i, [], Jump(l));
      }
      StillSplittable(old(f), old(edges), f, edges, e, i);
      FallCleared(old(f), old(edges), f, edges, i);
      refused := false;
    }

    /** A falling edge, or the only edge out of its source. */
    method SplitAtSource(e: nat) returns (r: Placed)
      requires Splittable(e) && (edges[e].kind.Fallthrough? || SoleOut(f, edges[e]))
      modifies this
      ensures Valid() && |edges| >= |old(edges)|
      ensures r.Failed? <==> Refused(old(f), old(edges)[e])
      ensures r.Failed? ==> f == old(f) && edges == old(edges)
      ensures r.At? ==> Guards(f, r.node, edges[e])
      ensures r.At? ==> edges[e].source == old(edges)[e].source && (edges[e] == old(edges)[e] || edges[e].destination == r.node >= |old(f).code|)
      ensures r.At? ==> |old(f).code| <= |f.code| && SameRuns(old(f), f, Names(|old(f).code|, |f.code|))
      ensures r.At? ==> Detours(old(f), old(edges), f, edges, old(edges)[e].destination)
      ensures !HasIn(old(f), old(f).First()) ==> f.First() == old(f).First()
    {
      hide Matches, Direct, SameRuns, AllHold, Names, Func.Well, NoneFalls, SoleIn, SoleOut, SoleEntry, IdleBranch, Guards, InsertAfter, HasIn, Refused, Detours;
      var s, n := edges[e].source, |f.code|;
      DirectIsReal(f, edges[e]);
      SoleEntrySize(f, edges, incoming, s);
      UneditedRuns(f);
      RefusedAtSource(f, edges[e]);
      if edges[e].kind.Fallthrough? {
        FallingEdge(f, edges[e]);
        FirstAfter(f, s);
        SplitFalling(e, [Anchor], Fall);
      } else if |incoming[s]| == 1 {
        GuardsOut(f, edges, e);
        Untouched(f, edges, edges[e].destination);
        return At(s);
      } else {
        if !f.Tail(s).Jump? && !f.Tail(s).Leave? {
          return Failed;
        }
        FirstAfter(f, s);
        SplitJump(e);
      }
      NewGuard(old(f), old(edges), f, edges, e);
      return At(n);
    }

    /** One of several edges out of its source, to a block that others enter too. */
    method SplitShared(e: nat) returns (r: Placed)
      requires Splittable(e) && !edges[e].kind.Fallthrough?
      modifies this
      ensures Valid() && |edges| >= |old(edges)|
      ensures r.Failed? <==> IdleBranch(old(f), old(edges)[e].destination)
      ensures r.Failed? ==> f == old(f) && edges == old(edges)
      ensures r.At? ==> Guards(f, r.node, edges[e])
      ensures r.At? ==> edges[e].source == old(edges)[e].source && (edges[e] == old(edges)[e] || edges[e].destination == r.node >= |old(f).code|)
      ensures r.At? ==> |old(f).code| <= |f.code| && SameRuns(old(f), f, Names(|old(f).code|, |f.code|))
      ensures r.At? ==> Detours(old(f), old(edges), f, edges, old(edges)[e].destination)
      ensures !HasIn(old(f), old(f).First()) ==> f.First() == old(f).First()
    {
      hide Matches, Direct, SameRuns, AllHold, Names, Func.Well, NoneFalls, SoleIn, SoleOut, SoleEntry, IdleBranch, Guards, InsertAfter, HasIn, Refused, Detours;
      var d := edges[e].destination;
      DirectIsReal(f, edges[e]);
      DestinationHasIn(f, edges[e]);
      UneditedRuns(f);
      var falling := FindFalling(d);
      if falling.Some? {
        FoundFalling(f, edges, falling.value);
        var refused := ClearFall(e, falling.value);
        if refused {
          return Failed;
        }
      } else {
        IdleFalls(f, d);
      }
      ghost var f1, edges1 := f, edges;
      var n := |f.code|;
      EndsBelow(f, edges);
      Untouched(old(f), old(edges), d);
      SplitTarget(e);
      DetoursCompose(old(f), old(edges), f1, edges1, f, edges, d);
      NewGuard(f1, edges1, f, edges, e);
      RunsCompose(old(f), f1, f, Names(|old(f).code|, |f1.code|), Names(|f1.code|, |f.code|));
      NamesJoin(|old(f).code|, |f1.code|, |f.code|);
      return At(n);
    }

    /** Splits an edge between two blocks: code put in the node returned runs exactly when
        the edge is taken. */
    method Split(e: nat) returns (r: Placed)
      requires Valid() && e < |edges|
      modifies this
      ensures Valid() && |edges| >= |old(edges)|
      ensures r.Failed? <==> Refused(old(f), old(edges)[e])
      ensures r.Failed? ==> f == old(f) && edges == old(edges)
      ensures r.At? ==> Guards(f, r.node, edges[e])
      ensures r.At? ==> edges[e].source == old(edges)[e].source && (edges[e] == old(edges)[e] || edges[e].destination == r.node >= |old(f).code|)
      ensures r.At? ==> |old(f).code| <= |f.code| && SameRuns(old(f), f, Names(|old(f).code|, |f.code|))
      ensures r.At? ==> Detours(old(f), old(edges), f, edges, old(edges)[e].destination)
      ensures !HasIn(old(f), old(f).First()) ==> f.First() == old(f).First()
    {
      hide Matches, Direct, SameRuns, AllHold, Names, Func.Well, NoneFalls, SoleIn, SoleOut, SoleEntry, IdleBranch, Guards, InsertAfter, HasIn, Refused, Detours;
      var s, d, n := edges[e].source, edges[e].destination, |f.code|;
      RealEnds(f, edges, e);
      BoundaryRefused(f, edges[e]);
      if s < 2 || d < 2 {
        return Failed;
      }
      SoleOutSize(f, edges, outgoing, e);
      SoleInSize(f, edges, incoming, e);
      RefusedElsewhere(f, edges[e]);
      if |outgoing[s]| == 1 || edges[e].kind.Fallthrough? {
        r := SplitAtSource(e);
      } else if |incoming[d]| == 1 {
        UneditedRuns(f);
        if |set l: nat | l < |f.home| && f.home[l] == d| == 1 && f.code[d] == Block([], Fall) {
          GuardsIn(f, edges, e);
          Untouched(f, edges, d);
          return At(d);
        }
        DestinationHasIn(f, edges[e]);
        SplitLabel(e);
        NewGuard(old(f), old(edges), f, edges, e);
        return At(n);
      } else {
        r := SplitShared(e);
      }
    }
  }

  lemma Untouched(f: Func, edges: seq<Edge>, d: nat)
    requires f.Well() && Matches(f, edges)
    ensures Detours(f, edges, f, edges, d)
  {
    hide Matches, Direct, Func.Well;
    EndsBelow(f, edges);
  }

  lemma TailKind(f: Func, s: nat, tail: Tail, d: nat)
    requires AfterFallOk(f, s, tail, d)
    ensures !(tail.Falls() && tail.Branches())
  {
  }

  lemma RetargetedTails(f: Func, s: nat, k: nat, d: nat)
    requires s < |f.code| && k < |f.Tail(s).Operands()|
    ensures var g := Retargeted(f, s, k, d);
            forall b: nat :: b < |g.code| && g.Tail(b).Falls() && g.Tail(b).Branches() ==>
              b < |f.code| && f.Tail(b).Falls() && f.Tail(b).Branches()
  {
  }

  // ----- reading edges back -----

  lemma FallingEdge(f: Func, e: Edge)
    requires Direct(f, e) && e.kind.Fallthrough?
    ensures e == Edge(e.source, e.destination, Fallthrough, NO_OPERAND) && Falling(f, e)
  {
  }

  lemma TakenEdge(f: Func, e: Edge)
    requires Direct(f, e) && !e.kind.Fallthrough?
    ensures Taken(f, e) && e == Edge(e.source, e.destination, f.Tail(e.source).Kind(), e.operand)
  {
  }

  lemma JumpEdge(f: Func, e: Edge)
    requires f.Well() && Direct(f, e) && !e.kind.Fallthrough? && f.Real(e.source) && f.Tail(e.source).Jump?
    ensures JumpMovedOk(f, e.source)
    ensures e == Edge(e.source, f.home[f.Tail(e.source).label_], Branch, 0)
  {
  }

  lemma OnlyWayHere(f: Func, e: Edge)
    requires f.Well() && Taken(f, e) && SoleIn(f, e)
    ensures OnlyWay(f, e.source, e.operand, e.destination)
  {
    forall o | Direct(f, o) && o.destination == e.destination ensures o == e {
      assert InGraph(f, o);
    }
  }

  lemma FirstBefore(f: Func, d: nat)
    requires f.Well() && f.Real(d)
    ensures f.(order := InsertBefore(f.order, d, |f.code|)).First() == if f.First() == d then |f.code| else f.First()
  {
    assert d in f.order;
    BeforeMembers(f.order, d, |f.code|);
  }

  lemma RefusedAtSource(f: Func, e: Edge)
    requires Direct(f, e) && (e.kind.Fallthrough? || SoleOut(f, e))
    ensures Refused(f, e) <==> !e.kind.Fallthrough? && !SoleEntry(f, e.source) && !f.Tail(e.source).Jump?
    ensures !e.kind.Fallthrough? ==> !f.Tail(e.source).Leave?
  {
  }

  lemma BoundaryRefused(f: Func, e: Edge)
    ensures !Direct(f, e) ==> Refused(f, e)
  {
  }

  lemma RefusedElsewhere(f: Func, e: Edge)
    requires Direct(f, e)
    ensures !e.kind.Fallthrough? && !SoleOut(f, e) ==> (Refused(f, e) <==> !SoleIn(f, e) && IdleBranch(f, e.destination))
  {
  }

  lemma FirstAfter(f: Func, s: nat)
    requires f.Well() && f.Real(s)
    ensures f.(order := InsertAfter(f.order, s, |f.code|)).First() == f.First()
  {
    assert s in f.order;
    AfterMembers(f.order, s, |f.code|);
  }

  lemma RealEnds(f: Func, edges: seq<Edge>, e: nat)
    requires f.Well() && Matches(f, edges) && e < |edges|
    ensures Direct(f, edges[e]) <==> edges[e].source >= 2 && edges[e].destination >= 2
    ensures edges[e].source < |f.code| && edges[e].destination < |f.code|
  {
    hide HasIn, HasOut;
    assert InGraph(f, edges[e]);
    if Direct(f, edges[e]) {
      DirectIsReal(f, edges[e]);
    }
  }

  lemma NoFallingEdge(f: Func, edges: seq<Edge>, d: nat)
    requires f.Well() && Matches(f, edges)
    requires forall k: nat :: k < |edges| && edges[k].destination == d ==> !edges[k].kind.Fallthrough?
    ensures NoneFalls(f, d)
  {
    hide Func.Well;
    forall b: nat | f.Real(b) && Follow(f.order, b) == Some(d) ensures !f.Tail(b).Falls() {
      assert InGraph(f, Edge(b, d, Fallthrough, NO_OPERAND)) ==> Edge(b, d, Fallthrough, NO_OPERAND) in edges;
    }
  }

  lemma FoundFalling(f: Func, edges: seq<Edge>, i: nat)
    requires f.Well() && Matches(f, edges) && i < |edges| && edges[i].kind.Fallthrough?
    ensures Direct(f, edges[i])
  {
    assert InGraph(f, edges[i]);
  }

  lemma SoleOutSize(f: Func, edges: seq<Edge>, outgoing: seq<seq<nat>>, e: nat)
    requires Matches(f, edges) && AllHold(outgoing, Sources(edges)) && e < |edges| && edges[e].source < |outgoing|
    ensures |outgoing[edges[e].source]| == 1 <==> SoleOut(f, edges[e])
  {
    hide InGraph, AllHold;
    var s := edges[e].source;
    assert Sources(edges)[e] == s;
    if |outgoing[s]| == 1 {
      forall o | InGraph(f, o) && o.source == s ensures o == edges[e] {
        assert o in edges;
        var j: nat :| j < |edges| && edges[j] == o;
        Lone(outgoing, Sources(edges), s, e, j);
      }
    } else {
      var j := Crowd(outgoing, Sources(edges), s, e);
      assert edges[j] in edges && edges[j] != edges[e];
      assert InGraph(f, edges[j]) && edges[j].source == s;
    }
  }

  lemma SoleInSize(f: Func, edges: seq<Edge>, incoming: seq<seq<nat>>, e: nat)
    requires Matches(f, edges) && AllHold(incoming, Destinations(edges)) && e < |edges| && edges[e].destination < |incoming|
    ensures |incoming[edges[e].destination]| == 1 <==> SoleIn(f, edges[e])
  {
    hide InGraph, AllHold;
    var d := edges[e].destination;
    assert Destinations(edges)[e] == d;
    if |incoming[d]| == 1 {
      forall o | InGraph(f, o) && o.destination == d ensures o == edges[e] {
        assert o in edges;
        var j: nat :| j < |edges| && edges[j] == o;
        Lone(incoming, Destinations(edges), d, e, j);
      }
    } else {
      var j := Crowd(incoming, Destinations(edges), d, e);
      assert edges[j] in edges && edges[j] != edges[e];
      assert InGraph(f, edges[j]) && edges[j].destination == d;
    }
  }

  lemma SoleEntrySize(f: Func, edges: seq<Edge>, incoming: seq<seq<nat>>, b: nat)
    requires Matches(f, edges) && AllHold(incoming, Destinations(edges)) && b < |incoming|
    ensures |incoming[b]| == 1 <==> SoleEntry(f, b)
  {
    hide InGraph, SoleIn;
    assert Holds(incoming[b], Destinations(edges), b);
    if |incoming[b]| == 1 {
      var k := incoming[b][0];
      assert k in incoming[b];
      SoleInSize(f, edges, incoming, k);
      assert edges[k] in edges;
    }
    if SoleEntry(f, b) {
      var o :| InGraph(f, o) && o.destination == b && SoleIn(f, o);
      assert o in edges;
      var k: nat :| k < |edges| && edges[k] == o;
      SoleInSize(f, edges, incoming, k);
    }
  }

  lemma IdleHere(f: Func, e: Edge)
    requires f.Well() && Falling(f, e)
    ensures IdleBranch(f, e.destination) <==> f.Tail(e.source).Branches() && SoleOut(f, e)
  {
    hide SoleOut, InGraph;
    assert e == Edge(e.source, e.destination, Fallthrough, NO_OPERAND);
    forall o: nat | Falling(f, Edge(o, e.destination, Fallthrough, NO_OPERAND)) ensures o == e.source {
      FollowInjective(f.order, o, e.source);
    }
  }

  lemma IdleFalls(f: Func, d: nat)
    requires NoneFalls(f, d)
    ensures !IdleBranch(f, d)
  {
  }

  /** Rewriting another edge leaves this one alone. */
  lemma StillSplittable(f: Func, edges: seq<Edge>, g: Func, after: seq<Edge>, e: nat, i: nat)
    requires Matches(f, edges) && Matches(g, after) && e < |edges| && i < |edges| && |after| >= |edges|
    requires Direct(f, edges[e]) && edges[e].kind != edges[i].kind && !edges[e].kind.Fallthrough?
    requires forall k: nat :: k < |edges| && k != i ==> after[k] == edges[k]
    ensures after[e] == edges[e] && Direct(g, after[e])
  {
    assert after[e] in after;
    assert InGraph(g, after[e]);
  }

  lemma FallCleared(f: Func, edges: seq<Edge>, g: Func, after: seq<Edge>, i: nat)
    requires f.Well() && Matches(f, edges) && Matches(g, after) && i < |edges| && Falling(f, edges[i])
    requires |edges| <= |after| && forall k: nat :: k < |edges| && k != i ==> after[k] == edges[k]
    requires forall k: nat :: k < |after| && (k == i || k >= |edges|) ==> after[k].kind.Branch? || after[k].destination >= |f.code|
    ensures NoneFalls(g, edges[i].destination)
  {
    hide Func.Well;
    var d := edges[i].destination;
    FallingIsReal(f, edges[i]);
    forall b: nat | g.Real(b) && Follow(g.order, b) == Some(d) ensures !g.Tail(b).Falls() {
      var way := Edge(b, d, Fallthrough, NO_OPERAND);
      if g.Tail(b).Falls() {
        assert InGraph(g, way);
        assert way in after;
        var k: nat :| k < |after| && after[k] == way;
        assert k < |edges| && k != i && edges[k] == way;
        FallsOnce(f, edges, i, k);
      }
    }
  }

  lemma FallingIsReal(f: Func, e: Edge)
    requires f.Well() && Falling(f, e)
    ensures e.destination < |f.code|
  {
    DirectIsReal(f, e);
  }

  lemma FallsOnce(f: Func, edges: seq<Edge>, i: nat, k: nat)
    requires f.Well() && Matches(f, edges) && i < |edges| && k < |edges|
    requires edges[i].kind.Fallthrough? && edges[k].kind.Fallthrough? && edges[i].destination == edges[k].destination
    ensures i == k
  {
    assert InGraph(f, edges[i]) && InGraph(f, edges[k]);
    FollowInjective(f.order, edges[i].source, edges[k].source);
    assert edges[i] == edges[k];
  }

  /** The node is passed exactly when the edge is taken: it is the only way in, or the only
      way out. */
  ghost predicate Guards(f: Func, node: nat, e: Edge)
  {
    InGraph(f, e) && ((e.destination == node && SoleIn(f, e)) || (e.source == node && SoleOut(f, e)))
  }

  lemma GuardsOut(f: Func, edges: seq<Edge>, e: nat)
    requires Matches(f, edges) && e < |edges| && SoleOut(f, edges[e])
    ensures Guards(f, edges[e].source, edges[e])
  {
  }

  lemma GuardsIn(f: Func, edges: seq<Edge>, e: nat)
    requires Matches(f, edges) && e < |edges| && SoleIn(f, edges[e])
    ensures Guards(f, edges[e].destination, edges[e])
  {
  }

  lemma NewGuard(f: Func, edges: seq<Edge>, g: Func, after: seq<Edge>, e: nat)
    requires f.Well() && Matches(f, edges) && Matches(g, after) && e < |edges| && |after| == |edges| + 1
    requires forall k: nat :: k < |edges| && k != e ==> after[k] == edges[k]
    requires after[e].destination == |f.code| && after[|edges|].destination < |f.code|
    ensures Guards(g, |f.code|, after[e])
  {
    hide Func.Well, InGraph;
    assert after[e] in after;
    forall o | InGraph(g, o) && o.destination == |f.code| ensures o == after[e] {
      assert o in after;
      var k: nat :| k < |after| && after[k] == o;
      if k < |edges| {
        RealEnds(f, edges, k);
      }
    }
  }

  lemma DestinationHasIn(f: Func, e: Edge)
    requires Direct(f, e)
    ensures HasIn(f, e.destination)
  {
  }

  lemma UneditedRuns(f: Func)
    ensures SameRuns(f, f, Names(|f.code|, |f.code|))
  {
    hide Trace;
    forall m, at, st, steps: nat | Old(f, at)
      ensures ShowsIn(m, f, f, {}, at, st, steps) && ComesFrom(m, f, f, {}, at, st, steps)
    {
      EraseNothing(Trace(m, f, at, st, steps));
    }
  }

  lemma {:induction false} EraseNothing(t: seq<(nat, int)>)
    ensures Erase(t, {}) == t
    decreases |t|
  {
    if t != [] {
      EraseNothing(t[1..]);
    }
  }

  lemma NamesJoin(a: nat, b: nat, c: nat)
    requires a <= b <= c
    ensures Names(a, b) + Names(b, c) == Names(a, c)
  {
  }
}
