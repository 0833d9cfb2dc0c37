/** Building the canonical control-flow graph, and what agreement with it means for edits
    and runs. */
module ControlFlow {
  import opened Optional
  import opened Topology
  import opened EdgeGraphs
  import opened EdgeEditor

  /** The edges out of one block: falling on first, then its label operands in order. */
  method BlockEdges(f: Func, b: nat) returns (out: seq<Edge>)
    requires f.Well() && f.Real(b)
    ensures Distinct(out) && forall e :: e in out <==> Direct(f, e) && e.source == b
  {
    hide Func.Well, Follow;
    var t := f.Tail(b);
    out := [];
    var next := Follow(f.order, b);
    if t.Falls() && next.Some? {
      out := [Edge(b, next.value, Fallthrough, NO_OPERAND)];
    }
    var k := 0;
    while k < |t.Operands()|
      invariant 0 <= k <= |t.Operands()|
      invariant Distinct(out)
      invariant forall e :: e in out <==> Direct(f, e) && e.source == b && e.operand < k
    {
      if t.Operands()[k].Some? {
        LabelHome(f, b, k);
        var e := Edge(b, f.home[t.Operands()[k].value], t.Kind(), k);
        AppendDistinct(out, e);
        out := out + [e];
      }
      k := k + 1;
    }
  }

  lemma LabelHome(f: Func, b: nat, k: nat)
    requires f.Well() && f.Labels(b, k)
    ensures f.Tail(b).Operands()[k].value < |f.home|
  {
  }

  lemma JoinDistinct(s: seq<Edge>, t: seq<Edge>)
    requires Distinct(s) && Distinct(t) && forall e :: e in s ==> e !in t
    ensures Distinct(s + t)
  {
    var u := s + t;
    forall i: nat, j: nat | i < j < |u| ensures u[i] != u[j] {
      if i < |s| <= j {
        assert u[i] in s && u[j] in t;
      } else if |s| <= i {
        assert t[i - |s|] != t[j - |s|];
      }
    }
  }

  /** The boundary edges of nodes below `b`. */
  ghost predicate BoundaryBelow(f: Func, e: Edge, b: nat)
  {
    || (b > 0 && e == Edge(0, 1, Exit, NO_OPERAND))
    || (f.Real(e.destination) && e.destination < b && !HasIn(f, e.destination) && e == Edge(0, e.destination, Entry, NO_OPERAND))
    || (f.Real(e.source) && e.source < b && !HasOut(f, e.source) && e == Edge(e.source, 1, Exit, NO_OPERAND))
  }

  /** Direct edges block by block; then entries and exits for nodes with none. */
  method Build(f: Func) returns (edges: seq<Edge>)
    requires f.Well()
    ensures Matches(f, edges)
  {
    hide Func.Well, Direct, Boundary;
    edges := [];
    var p := 0;
    while p < |f.order|
      invariant 0 <= p <= |f.order|
      invariant Distinct(edges)
      invariant forall e :: e in edges <==> Direct(f, e) && e.source in f.order[..p]
    {
      InLayout(f, p);
      var out := BlockEdges(f, f.order[p]);
      JoinDistinct(edges, out);
      assert f.order[..p + 1] == f.order[..p] + [f.order[p]];
      edges := edges + out;
      p := p + 1;
    }
    assert f.order[..p] == f.order;
    AllLaidOut(f);
    edges := AddBoundary(f, edges);
  }

  lemma InLayout(f: Func, p: nat)
    requires f.Well() && p < |f.order|
    ensures f.Real(f.order[p]) && f.order[p] !in f.order[..p]
  {
    assert f.order[p] in f.order;
  }

  lemma AllLaidOut(f: Func)
    requires f.Well()
    ensures forall e :: Direct(f, e) ==> e.source in f.order
  {
    forall e | Direct(f, e) ensures e.source in f.order {
      DirectIsReal(f, e);
    }
  }

  ghost predicate Counted(f: Func, edges: seq<Edge>, into: set<int>, outOf: set<int>, b: nat)
  {
    && Distinct(edges)
    && (forall e :: e in edges <==> Direct(f, e) || BoundaryBelow(f, e, b))
    && (forall c: nat :: c >= 2 && c >= b ==> (c in into <==> HasIn(f, c)) && (c in outOf <==> HasOut(f, c)))
    && (1 in into <==> b > 0) && (0 in outOf <==> b > 0)
  }

  method AddBoundary(f: Func, direct: seq<Edge>) returns (edges: seq<Edge>)
    requires f.Well() && Distinct(direct) && forall e :: e in direct <==> Direct(f, e)
    ensures Matches(f, edges)
  {
    hide Func.Well, Direct, HasIn, HasOut, Counted, Matches;
    var into, outOf := Ends(f, direct);
    edges := direct;
    CountedAtFirst(f, direct, into, outOf);
    var b := 0;
    while b < |f.code|
      invariant 0 <= b <= |f.code|
      invariant Counted(f, edges, into, outOf, b)
    {
      var entry := b != 0 && b !in into;
      var exit := b != 1 && b !in outOf;
      CountedNext(f, edges, into, outOf, b);
      if entry {
        edges, into, outOf := edges + [Edge(0, b, Entry, NO_OPERAND)], into + {b}, outOf + {0};
      }
      if exit {
        edges, into, outOf := edges + [Edge(b, 1, Exit, NO_OPERAND)], into + {1}, outOf + {b};
      }
      b := b + 1;
    }
    CountedAll(f, edges, into, outOf);
  }

  method Ends(f: Func, direct: seq<Edge>) returns (into: set<int>, outOf: set<int>)
    requires f.Well() && forall e :: e in direct <==> Direct(f, e)
    ensures forall c: nat :: (c in into <==> HasIn(f, c)) && (c in outOf <==> HasOut(f, c))
  {
    hide Func.Well, Direct;
    into, outOf := {}, {};
    var k := 0;
    while k < |direct|
      invariant 0 <= k <= |direct|
      invariant forall c: nat :: c in into <==> exists j: nat :: j < k && direct[j].destination == c
      invariant forall c: nat :: c in outOf <==> exists j: nat :: j < k && direct[j].source == c
    {
      into, outOf := into + {direct[k].destination}, outOf + {direct[k].source};
      k := k + 1;
    }
    forall c: nat ensures (c in into <==> HasIn(f, c)) && (c in outOf <==> HasOut(f, c)) {
      if c in into {
        var j: nat :| j < k && direct[j].destination == c;
        assert direct[j] in direct;
      }
      if c in outOf {
        var j: nat :| j < k && direct[j].source == c;
        assert direct[j] in direct;
      }
      if HasIn(f, c) {
        var e :| Direct(f, e) && e.destination == c;
        assert e in direct;
      }
      if HasOut(f, c) {
        var e :| Direct(f, e) && e.source == c;
        assert e in direct;
      }
    }
  }

  lemma CountedAtFirst(f: Func, direct: seq<Edge>, into: set<int>, outOf: set<int>)
    requires f.Well() && Distinct(direct) && forall e :: e in direct <==> Direct(f, e)
    requires forall c: nat :: (c in into <==> HasIn(f, c)) && (c in outOf <==> HasOut(f, c))
    ensures Counted(f, direct, into, outOf, 0)
  {
    hide Direct, Func.Well;
    forall e | Direct(f, e) ensures e.source >= 2 && e.destination >= 2 {
      DirectIsReal(f, e);
    }
  }

  /** One node of the boundary loop. */
  lemma CountedNext(f: Func, edges: seq<Edge>, into: set<int>, outOf: set<int>, b: nat)
    requires f.Well() && b < |f.code| && Counted(f, edges, into, outOf, b)
    ensures var entry := b != 0 && b !in into;
            var exit := b != 1 && b !in outOf;
            var e1 := if entry then edges + [Edge(0, b, Entry, NO_OPERAND)] else edges;
            var i1 := if entry then into + {b} else into;
            var o1 := if entry then outOf + {0} else outOf;
            var e2 := if exit then e1 + [Edge(b, 1, Exit, NO_OPERAND)] else e1;
            var i2 := if exit then i1 + {1} else i1;
            var o2 := if exit then o1 + {b} else o1;
            Counted(f, e2, i2, o2, b + 1)
  {
    hide Func.Well, Direct, HasIn, HasOut, Distinct;
    var entry := b != 0 && b !in into;
    var exit := b != 1 && b !in outOf;
    NoDirectBoundary(f, b);
    var e1 := if entry then edges + [Edge(0, b, Entry, NO_OPERAND)] else edges;
    var e2 := if exit then e1 + [Edge(b, 1, Exit, NO_OPERAND)] else e1;
    if entry {
      AppendDistinct(edges, Edge(0, b, Entry, NO_OPERAND));
    }
    if exit {
      AppendDistinct(e1, Edge(b, 1, Exit, NO_OPERAND));
    }
    forall e ensures e in e2 <==> Direct(f, e) || BoundaryBelow(f, e, b + 1) {
    }
  }

  lemma NoDirectBoundary(f: Func, b: nat)
    ensures !Direct(f, Edge(0, b, Entry, NO_OPERAND)) && !Direct(f, Edge(b, 1, Exit, NO_OPERAND))
  {
  }

  lemma CountedAll(f: Func, edges: seq<Edge>, into: set<int>, outOf: set<int>)
    requires f.Well() && Counted(f, edges, into, outOf, |f.code|)
    ensures Matches(f, edges)
  {
    hide Func.Well, Direct, HasIn, HasOut;
    assert |f.code| > 0 by { SizeOf(f); }
  }

  lemma SizeOf(f: Func)
    requires f.Well()
    ensures |f.code| >= 2
  {
  }

  // ----- finishing -----

  lemma {:induction false} SameElements(s: seq<Edge>, t: seq<Edge>)
    requires Distinct(s) && Distinct(t) && forall e :: e in s <==> e in t
    ensures multiset(s) == multiset(t)
  {
    forall e ensures multiset(s)[e] == multiset(t)[e] {
      CountsOnce(s, e);
      CountsOnce(t, e);
    }
  }

  lemma {:induction false} CountsOnce(s: seq<Edge>, e: Edge)
    requires Distinct(s)
    ensures multiset(s)[e] == if e in s then 1 else 0
    decreases |s|
  {
    if s != [] {
      DistinctTail(s);
      CountsOnce(s[1..], e);
      assert s == [s[0]] + s[1..];
    }
  }

  /** The final comparison of sorted edge lists never fails: the edited list is, as a
      multiset, the list built afresh from the edited function. */
  method Finish(editor: Editor) returns (agrees: bool)
    requires editor.Valid()
    ensures agrees
  {
    var canonical := Build(editor.f);
    SameElements(canonical, editor.edges);
    agrees := multiset(canonical) == multiset(editor.edges);
  }

  // ----- edges and runs -----

  /** Control only moves along direct edges. */
  lemma StepIsEdge(m: Machine, f: Func, b: nat, st: int)
    requires f.Well() && f.Real(b) && Next(m, f, b, st).Some?
    ensures exists e :: Direct(f, e) && e.source == b && e.destination == Next(m, f, b, st).value
  {
    hide Func.Well, Follow;
    var t := f.Tail(b);
    var k := Choice(m, t, st);
    if k.Some? {
      LabelHome(f, b, k.value);
      assert Direct(f, Edge(b, Next(m, f, b, st).value, t.Kind(), k.value));
    } else {
      assert Direct(f, Edge(b, Next(m, f, b, st).value, Fallthrough, NO_OPERAND));
    }
  }

  /** A run that does not start in a node that guards its incoming edge only comes to it
      from the source of that edge. */
  lemma {:induction false} VisitsFollowEdge(m: Machine, f: Func, at: Option<nat>, st: int, steps: nat, node: nat, e: Edge, i: nat)
    requires f.Well() && Old(f, at) && SoleIn(f, e) && e.destination == node
    requires var t := Trace(m, f, at, st, steps); 0 < i < |t| && t[i].0 == node
    ensures Trace(m, f, at, st, steps)[i - 1].0 == e.source
    decreases steps
  {
    hide Func.Well, Next, Direct;
    var after := Effect(m, f.code[at.value].body, st);
    var next := Next(m, f, at.value, after);
    NextOld(m, f, at.value, after);
    var rest := Trace(m, f, next, after, steps - 1);
    assert Trace(m, f, at, st, steps) == [(at.value, st)] + rest;
    if i == 1 {
      StepIsEdge(m, f, at.value, after);
      var o :| Direct(f, o) && o.source == at.value && o.destination == next.value;
      assert InGraph(f, o);
    } else {
      VisitsFollowEdge(m, f, next, after, steps - 1, node, e, i - 1);
    }
  }

  /** A run that leaves a node that guards its outgoing edge goes to the destination of
      that edge. */
  lemma {:induction false} VisitsTakeEdge(m: Machine, f: Func, at: Option<nat>, st: int, steps: nat, node: nat, e: Edge, i: nat)
    requires f.Well() && Old(f, at) && SoleOut(f, e) && e.source == node
    requires var t := Trace(m, f, at, st, steps); i + 1 < |t| && t[i].0 == node
    ensures Trace(m, f, at, st, steps)[i + 1].0 == e.destination
    decreases steps
  {
    hide Func.Well, Next, Direct;
    var after := Effect(m, f.code[at.value].body, st);
    var next := Next(m, f, at.value, after);
    NextOld(m, f, at.value, after);
    var rest := Trace(m, f, next, after, steps - 1);
    assert Trace(m, f, at, st, steps) == [(at.value, st)] + rest;
    if i == 0 {
      StepIsEdge(m, f, at.value, after);
      var o :| Direct(f, o) && o.source == at.value && o.destination == next.value;
      assert InGraph(f, o);
    } else {
      VisitsTakeEdge(m, f, next, after, steps - 1, node, e, i - 1);
    }
  }
}
