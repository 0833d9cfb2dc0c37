/** Natural loops by paths: what belongs to the loop of a header, when the header
    dominates it, and how loops nest. */
module NaturalLoops {
  import opened Graphs
  import opened Traversal

  ghost predicate LoopSource(g: Graph, back: seq<bool>, s: nat, h: nat)
  {
    exists e: nat :: e < |g.edges| && e < |back| && back[e] && g.edges[e] == Edge(s, h)
  }

  /** A path that avoids `h` and ends at the source of a back edge to `h`. */
  ghost predicate BodyPath(g: Graph, back: seq<bool>, q: seq<nat>, b: nat, h: nat)
  {
    g.IsPath(q) && q[0] == b && h !in q && LoopSource(g, back, q[|q| - 1], h)
  }

  ghost predicate InLoop(g: Graph, back: seq<bool>, h: nat, b: nat)
  {
    b == h || (g.Reachable(b) && exists q :: BodyPath(g, back, q, b, h))
  }

  /** Everything but the header has all its reachable predecessors in the loop. */
  lemma LoopClosed(g: Graph, back: seq<bool>, h: nat, p: nat, b: nat)
    requires InLoop(g, back, h, b) && b != h && g.Step(p, b) && g.Reachable(p) && p < g.Count()
    ensures InLoop(g, back, h, p)
  {
    if p != h {
      var q :| BodyPath(g, back, q, b, h);
      var r := [p] + q;
      assert r[1..] == q && r[|r| - 1] == q[|q| - 1];
      forall i | 0 <= i < |r| - 1
        ensures g.Step(r[i], r[i + 1])
      {
        assert i > 0 ==> g.Step(q[i - 1], q[i]);
      }
      assert BodyPath(g, back, r, p, h);
    }
  }

  lemma SourceInLoop(g: Graph, back: seq<bool>, h: nat, s: nat)
    requires LoopSource(g, back, s, h) && g.Reachable(s) && s < g.Count()
    ensures InLoop(g, back, h, s)
  {
    if s != h {
      assert BodyPath(g, back, [s], s, h);
    }
  }

  lemma BodyPathInside(g: Graph, back: seq<bool>, q: seq<nat>, b: nat, h: nat, i: nat)
    requires BodyPath(g, back, q, b, h) && g.Reachable(b) && i < |q|
    ensures InLoop(g, back, h, q[i])
  {
    var p :| g.PathFromTo(p, ENTRY, b);
    PathPrefix(g, q, i);
    PathConcat(g, p, q[..i + 1], ENTRY, b, q[i]);
    PathSuffix(g, q, i);
    assert BodyPath(g, back, q[i..], q[i], h);
  }

  /** A path from the entry into a loop that the entry is not in comes through the
      header. */
  lemma {:induction false} EntersByHeader(g: Graph, back: seq<bool>, h: nat, b: nat, p: seq<nat>)
    requires g.PathFromTo(p, ENTRY, b) && InLoop(g, back, h, b) && !InLoop(g, back, h, ENTRY)
    ensures h in p
    decreases |p|
  {
    if b != h {
      assert |p| > 1;
      var front, c := p[..|p| - 1], p[|p| - 2];
      PathPrefix(g, p, |p| - 2);
      assert g.PathFromTo(front, ENTRY, c);
      assert g.Step(c, b);
      LoopClosed(g, back, h, c, b);
      EntersByHeader(g, back, h, c, front);
    }
  }

  /** The header dominates its loop just when the entry is outside it, and then it
      dominates the source of each of its back edges. */
  lemma HeaderDominates(g: Graph, back: seq<bool>, h: nat)
    requires g.Valid() && h != ENTRY && h < g.Count()
    ensures !InLoop(g, back, h, ENTRY) <==> forall b: nat :: InLoop(g, back, h, b) ==> g.Dominates(h, b)
    ensures !InLoop(g, back, h, ENTRY) <==>
            forall s: nat :: LoopSource(g, back, s, h) && g.Reachable(s) ==> g.Dominates(h, s)
  {
    if !InLoop(g, back, h, ENTRY) {
      forall b: nat, p | InLoop(g, back, h, b) && g.PathFromTo(p, ENTRY, b)
        ensures h in p
      {
        EntersByHeader(g, back, h, b, p);
      }
      forall s: nat | LoopSource(g, back, s, h) && g.Reachable(s)
        ensures InLoop(g, back, h, s)
      {
        SourceInLoop(g, back, h, s);
      }
    } else {
      var q :| BodyPath(g, back, q, ENTRY, h);
      var s := q[|q| - 1];
      assert g.PathFromTo(q, ENTRY, s);
      assert g.PathFromTo([ENTRY], ENTRY, ENTRY);
      assert !g.Dominates(h, s) && !g.Dominates(h, ENTRY);
    }
  }

  ghost predicate Inside(g: Graph, back: seq<bool>, h: nat, q: seq<nat>)
  {
    forall i :: 0 <= i < |q| ==> InLoop(g, back, h, q[i])
  }

  /** From its header every block of a loop is reached inside the loop. */
  lemma {:induction false} DownFromHeader(g: Graph, back: seq<bool>, h: nat, b: nat, p: seq<nat>) returns (q: seq<nat>)
    requires g.PathFromTo(p, ENTRY, b) && InLoop(g, back, h, b) && !InLoop(g, back, h, ENTRY)
    ensures g.PathFromTo(q, h, b) && Inside(g, back, h, q)
    decreases |p|
  {
    hide InLoop;
    if b == h {
      q := [h];
    } else {
      assert |p| > 1;
      var front, c := p[..|p| - 1], p[|p| - 2];
      PathPrefix(g, p, |p| - 2);
      assert g.PathFromTo(front, ENTRY, c);
      assert g.Step(c, b);
      LoopClosed(g, back, h, c, b);
      var r := DownFromHeader(g, back, h, c, front);
      PathExtend(g, r, h, c, b);
      q := r + [b];
    }
  }

  /** From every block of a loop its header is reached inside the loop. */
  lemma UpToHeader(g: Graph, back: seq<bool>, h: nat, b: nat) returns (q: seq<nat>)
    requires InLoop(g, back, h, b) && h < g.Count()
    ensures g.PathFromTo(q, b, h) && Inside(g, back, h, q)
  {
    if b == h {
      q := [h];
    } else {
      var r :| BodyPath(g, back, r, b, h);
      forall i | 0 <= i < |r|
        ensures InLoop(g, back, h, r[i])
      {
        BodyPathInside(g, back, r, b, h, i);
      }
      var e: nat :| e < |g.edges| && e < |back| && back[e] && g.edges[e] == Edge(r[|r| - 1], h);
      assert g.Step(r[|r| - 1], h);
      PathExtend(g, r, b, r[|r| - 1], h);
      q := r + [h];
    }
  }

  lemma WithinAvoids(g: Graph, back: seq<bool>, inner: nat, h: nat, q: seq<nat>)
    requires Inside(g, back, inner, q) && !InLoop(g, back, inner, h)
    ensures h !in q
  {
  }

  /** A loop that shares a block with the loop of `h`, and does not contain `h`, lies
      inside the loop of `h`. */
  lemma NestedMember(g: Graph, back: seq<bool>, h: nat, inner: nat, b: nat, c: nat)
    requires g.Valid() && inner < g.Count() && g.Reachable(b) && g.Reachable(c)
    requires InLoop(g, back, inner, b) && InLoop(g, back, inner, c) && !InLoop(g, back, inner, ENTRY)
    requires !InLoop(g, back, inner, h) && InLoop(g, back, h, c)
    ensures InLoop(g, back, h, b)
  {
    var up := UpToHeader(g, back, inner, b);
    var p :| g.PathFromTo(p, ENTRY, c);
    var down := DownFromHeader(g, back, inner, c, p);
    WithinAvoids(g, back, inner, h, up);
    WithinAvoids(g, back, inner, h, down);
    var r := Joined(g, up, down, b, inner, c, h);
    var q :| BodyPath(g, back, q, c, h);
    var t := Joined(g, r, q, b, c, q[|q| - 1], h);
    assert BodyPath(g, back, t, b, h);
  }

  lemma Joined(g: Graph, p: seq<nat>, q: seq<nat>, a: nat, b: nat, c: nat, h: nat) returns (r: seq<nat>)
    requires g.PathFromTo(p, a, b) && g.PathFromTo(q, b, c) && h !in p && h !in q
    ensures g.PathFromTo(r, a, c) && h !in r
  {
    PathConcat(g, p, q, a, b, c);
    r := p + q[1..];
  }

  /** Blocks of a loop are numbered after its header. */
  lemma {:induction false} HeaderFirst(g: Graph, n: Numbering, h: nat, b: nat)
    requires g.Valid() && Numbers(g, n) && InLoop(g, n.back, h, b) && !InLoop(g, n.back, h, ENTRY)
    requires b != h && b < g.Count()
    ensures h < g.Count() && n.rpost[h] < n.rpost[b]
    decreases if b < |n.rpost| then n.rpost[b] else 0
  {
    hide InLoop, Graph.Reachable;
    MemberReachable(g, n.back, h, b);
    assert HasForwardEdge(g, n.rpost, b);
    var e :| 0 <= e < |g.edges| && g.edges[e].destination == b && 0 < n.rpost[g.edges[e].source] < n.rpost[b];
    var p := g.edges[e].source;
    assert g.edges[e] == Edge(p, b);
    assert g.Step(p, b);
    LoopClosed(g, n.back, h, p, b);
    if p != h {
      HeaderFirst(g, n, h, p);
    }
  }

  lemma MemberReachable(g: Graph, back: seq<bool>, h: nat, b: nat)
    requires InLoop(g, back, h, b) && b != h
    ensures g.Reachable(b)
  {
  }
}
