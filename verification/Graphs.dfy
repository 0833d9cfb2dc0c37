/** Control-flow graphs as the analyses see them: blocks are indices, edges are
    records, and every block lists the identifiers of the edges that enter and
    leave it. Paths give the analyses their declarative meaning. */
module Graphs {

  const ENTRY: nat := 0
  const EXIT: nat := 1

  datatype Edge = Edge(source: nat, destination: nat)

  datatype Graph = Graph(edges: seq<Edge>, incoming: seq<seq<nat>>, outgoing: seq<seq<nat>>)
  {
    function Count(): nat { |outgoing| }

    /** Incidence lists agree with the edge records, and nothing enters the entry. */
    ghost predicate Valid()
    {
      && 2 <= |outgoing|
      && |incoming| == |outgoing|
      && (forall e :: 0 <= e < |edges| ==>
            && edges[e].source < |outgoing|
            && edges[e].destination < |outgoing|
            && edges[e].destination != ENTRY
            && e in outgoing[edges[e].source]
            && e in incoming[edges[e].destination])
      && (forall b, k :: 0 <= b < |outgoing| && 0 <= k < |outgoing[b]| ==>
            outgoing[b][k] < |edges| && edges[outgoing[b][k]].source == b)
      && (forall b, j, k :: 0 <= b < |outgoing| && 0 <= j < k < |outgoing[b]| ==>
            outgoing[b][j] != outgoing[b][k])
      && (forall b, k :: 0 <= b < |incoming| && 0 <= k < |incoming[b]| ==>
            incoming[b][k] < |edges| && edges[incoming[b][k]].destination == b)
    }

    ghost predicate Step(a: nat, b: nat)
    {
      exists e :: 0 <= e < |edges| && edges[e] == Edge(a, b)
    }

    ghost predicate IsPath(p: seq<nat>)
    {
      && p != []
      && (forall i :: 0 <= i < |p| ==> p[i] < Count())
      && (forall i :: 0 <= i < |p| - 1 ==> Step(p[i], p[i + 1]))
    }

    ghost predicate PathFromTo(p: seq<nat>, a: nat, b: nat)
    {
      IsPath(p) && p[0] == a && p[|p| - 1] == b
    }

    ghost predicate Reachable(b: nat)
    {
      exists p :: PathFromTo(p, ENTRY, b)
    }

    /** Every path from the entry to `b` passes `a`; vacuous for unreachable `b`. */
    ghost predicate Dominates(a: nat, b: nat)
    {
      forall p :: PathFromTo(p, ENTRY, b) ==> a in p
    }
  }

  lemma PathConcat(g: Graph, p: seq<nat>, q: seq<nat>, a: nat, b: nat, c: nat)
    requires g.PathFromTo(p, a, b) && g.PathFromTo(q, b, c)
    ensures g.PathFromTo(p + q[1..], a, c)
    ensures forall x :: x in p + q[1..] ==> x in p || x in q
  {
    var r := p + q[1..];
    forall i | 0 <= i < |r| - 1
      ensures g.Step(r[i], r[i + 1])
    {
      if i < |p| - 1 {
        assert r[i] == p[i] && r[i + 1] == p[i + 1];
      } else if i == |p| - 1 {
        assert r[i] == q[0] && r[i + 1] == q[1];
      } else {
        assert r[i] == q[i - |p| + 1] && r[i + 1] == q[i - |p| + 2];
      }
    }
  }

  lemma PathExtend(g: Graph, p: seq<nat>, a: nat, b: nat, c: nat)
    requires g.PathFromTo(p, a, b) && g.Step(b, c) && c < g.Count()
    ensures g.PathFromTo(p + [c], a, c)
  {
    assert g.PathFromTo([b, c], b, c);
    PathConcat(g, p, [b, c], a, b, c);
    assert p + [b, c][1..] == p + [c];
  }

  lemma PathPrefix(g: Graph, p: seq<nat>, i: nat)
    requires g.IsPath(p) && i < |p|
    ensures g.PathFromTo(p[..i + 1], p[0], p[i])
  {
  }

  lemma PathSuffix(g: Graph, p: seq<nat>, i: nat)
    requires g.IsPath(p) && i < |p|
    ensures g.PathFromTo(p[i..], p[i], p[|p| - 1])
  {
  }

  lemma ReachableStep(g: Graph, a: nat, b: nat)
    requires g.Reachable(a) && g.Step(a, b) && b < g.Count()
    ensures g.Reachable(b)
  {
    var p :| g.PathFromTo(p, ENTRY, a);
    PathExtend(g, p, ENTRY, a, b);
  }

  /** A set holding the entry and closed under steps holds every reachable block. */
  lemma {:induction false} ClosedHoldsReachable(g: Graph, s: set<nat>, p: seq<nat>)
    requires g.IsPath(p) && p[0] in s
    requires forall a: nat, b: nat :: a in s && g.Step(a, b) && b < g.Count() ==> b in s
    ensures p[|p| - 1] in s
    decreases |p|
  {
    if |p| > 1 {
      PathPrefix(g, p, |p| - 2);
      ClosedHoldsReachable(g, s, p[..|p| - 1]);
      assert g.Step(p[|p| - 2], p[|p| - 1]);
    }
  }
}
