/** The loop forest of a flow graph, built with a path-compressed union-find, and the
    depths read off it. */
module LoopForest {
  import opened Graphs
  import opened Traversal
  import opened NaturalLoops
  import opened DisjointSets
  import opened Sorting
  import Finite

  const NONE: int := -1

  /** A leaf stands for its block; a loop has no block of its own but an entry. */
  datatype Node = Node(block: int, entry: nat, parent: int, children: seq<nat>)

  ghost function Up(nodes: seq<Node>): seq<nat>
  {
    seq(|nodes|, n requires 0 <= n < |nodes| => if nodes[n].parent < 0 then n else nodes[n].parent)
  }

  ghost predicate ParentsLater(count: nat, nodes: seq<Node>)
  {
    forall n :: 0 <= n < |nodes| ==>
      nodes[n].parent == NONE || (n < nodes[n].parent < |nodes| && count <= nodes[n].parent)
  }

  /** Children lists and parent links say the same. */
  ghost predicate ListsChildren(nodes: seq<Node>)
  {
    && (forall n, k :: 0 <= n < |nodes| && 0 <= k < |nodes[n].children| ==>
          nodes[n].children[k] < |nodes| && nodes[nodes[n].children[k]].parent == n)
    && (forall c :: 0 <= c < |nodes| && 0 <= nodes[c].parent < |nodes| ==> c in nodes[nodes[c].parent].children)
  }

  ghost predicate Shaped(count: nat, nodes: seq<Node>)
  {
    && count <= |nodes|
    && (forall n :: 0 <= n < |nodes| ==> nodes[n].entry < count)
    && (forall n :: 0 <= n < count ==> nodes[n].block == n && nodes[n].entry == n)
    && (forall n :: count <= n < |nodes| ==> nodes[n].block == NONE)
    && ParentsLater(count, nodes)
    && ListsChildren(nodes)
  }

  lemma UpLinks(count: nat, nodes: seq<Node>)
    requires ParentsLater(count, nodes)
    ensures Links(Up(nodes)) && |Up(nodes)| == |nodes|
    ensures forall n: nat :: n < |nodes| ==> (Up(nodes)[n] == n <==> nodes[n].parent == NONE)
    ensures forall n: nat :: n < |nodes| && nodes[n].parent != NONE ==> Up(nodes)[n] == nodes[n].parent >= count
  {
  }

  /** What lies under a loop node is the natural loop of its entry, which the function's
      entry is not in. */
  ghost predicate LoopAt(g: Graph, back: seq<bool>, nodes: seq<Node>, l: nat)
    requires g.Valid() && Shaped(g.Count(), nodes) && g.Count() <= l < |nodes|
  {
    UpLinks(g.Count(), nodes);
    var h := nodes[l].entry;
    && g.Reachable(h) && !InLoop(g, back, h, ENTRY)
    && forall b: nat :: b < g.Count() ==> (Under(Up(nodes), b, l) <==> InLoop(g, back, h, b))
  }

  ghost predicate Exact(g: Graph, back: seq<bool>, nodes: seq<Node>)
    requires g.Valid() && Shaped(g.Count(), nodes)
  {
    forall l: nat :: g.Count() <= l < |nodes| ==> LoopAt(g, back, nodes, l)
  }

  ghost predicate Forest(g: Graph, back: seq<bool>, nodes: seq<Node>)
    requires g.Valid()
  {
    Shaped(g.Count(), nodes) && Exact(g, back, nodes)
  }

  /** The compressed links agree with the parents. */
  ghost predicate Represents(count: nat, nodes: seq<Node>, roots: seq<nat>)
    requires ParentsLater(count, nodes)
  {
    UpLinks(count, nodes);
    Links(roots) && SameTops(Up(nodes), roots)
  }

  lemma LeafTop(g: Graph, back: seq<bool>, nodes: seq<Node>, b: nat)
    requires g.Valid() && Forest(g, back, nodes) && b < g.Count()
    ensures Links(Up(nodes)) && |Up(nodes)| == |nodes|
    ensures var t := Top(Up(nodes), b);
            (t == b && Up(nodes)[b] == b) || (g.Count() <= t < |nodes| && InLoop(g, back, nodes[t].entry, b))
  {
    UpLinks(g.Count(), nodes);
    var up := Up(nodes);
    UnderTop(up, b, b);
    var t := Top(up, b);
    if up[b] != b {
      assert t >= up[b] >= g.Count();
      assert LoopAt(g, back, nodes, t);
    }
  }

  /** A root stands for its entry block. */
  lemma Representative(g: Graph, back: seq<bool>, nodes: seq<Node>, m: nat)
    requires g.Valid() && Forest(g, back, nodes) && m < |nodes| && nodes[m].parent == NONE
    ensures Links(Up(nodes)) && |Up(nodes)| == |nodes|
    ensures Top(Up(nodes), nodes[m].entry) == m
  {
    UpLinks(g.Count(), nodes);
    if m >= g.Count() {
      assert LoopAt(g, back, nodes, m);
      assert Under(Up(nodes), nodes[m].entry, m);
      UnderTop(Up(nodes), nodes[m].entry, m);
    }
  }

  // ----- collecting one loop -----

  /** What the search of a header may assume of the forest. */
  ghost predicate Ready(g: Graph, n: Numbering, nodes: seq<Node>, h: nat)
    requires g.Valid()
  {
    && Numbers(g, n)
    && Forest(g, n.back, nodes)
    && ENTRY < h < g.Count()
    && nodes[h].parent == NONE
  }

  lemma ReadyUp(g: Graph, n: Numbering, nodes: seq<Node>, h: nat)
    requires g.Valid() && Ready(g, n, nodes, h)
    ensures Links(Up(nodes)) && |Up(nodes)| == |nodes| >= g.Count()
    ensures Top(Up(nodes), h) == h
    ensures forall b: nat :: b < g.Count() && Top(Up(nodes), b) == h ==> b == h
  {
    hide Exact, ListsChildren;
    UpLinks(g.Count(), nodes);
    assert Up(nodes)[h] == h;
    forall b: nat | b < g.Count()
      ensures Top(Up(nodes), b) == b || Top(Up(nodes), b) >= g.Count()
    {
      LeafOrLoop(g.Count(), nodes, b);
    }
  }

  lemma LeafOrLoop(count: nat, nodes: seq<Node>, b: nat)
    requires ParentsLater(count, nodes) && b < |nodes|
    ensures Links(Up(nodes)) && |Up(nodes)| == |nodes|
    ensures Top(Up(nodes), b) == b || Top(Up(nodes), b) >= count
  {
    UpLinks(count, nodes);
  }

  ghost predicate Sound(g: Graph, n: Numbering, nodes: seq<Node>, h: nat, members: seq<nat>)
    requires g.Valid() && Ready(g, n, nodes, h)
  {
    ReadyUp(g, n, nodes, h);
    && (forall m :: m in members ==> m < |nodes| && nodes[m].parent == NONE && m != h)
    && (forall b: nat :: b < g.Count() && Top(Up(nodes), b) in members ==> InLoop(g, n.back, h, b))
  }

  ghost predicate Explored(g: Graph, n: Numbering, nodes: seq<Node>, h: nat, members: seq<nat>, m: nat)
    requires g.Valid() && Ready(g, n, nodes, h) && m < |nodes|
  {
    ReadyUp(g, n, nodes, h);
    && nodes[m].entry != ENTRY
    && forall p: nat :: p < g.Count() && g.Step(p, nodes[m].entry) && g.Reachable(p) && p != h ==>
         Top(Up(nodes), p) in members
  }

  lemma SharedTop(g: Graph, n: Numbering, nodes: seq<Node>, h: nat, b: nat, c: nat)
    requires g.Valid() && Ready(g, n, nodes, h) && b < g.Count() && c < g.Count() && b != h && b != c
    requires InLoop(g, n.back, h, b)
    requires Links(Up(nodes)) && |Up(nodes)| == |nodes| && Top(Up(nodes), b) == Top(Up(nodes), c)
    ensures InLoop(g, n.back, h, c)
  {
    hide InLoop, Numbers, Graph.Reachable, Graph.Valid;
    var up := Up(nodes);
    ReadyUp(g, n, nodes, h);
    LeafTop(g, n.back, nodes, b);
    LeafTop(g, n.back, nodes, c);
    var t := Top(up, b);
    var inner := nodes[t].entry;
    assert LoopAt(g, n.back, nodes, t);
    UnderTop(up, h, t);
    MemberReachable(g, n.back, h, b);
    if c != inner {
      MemberReachable(g, n.back, inner, c);
    }
    NestedMember(g, n.back, h, inner, c, b);
  }

  lemma NodeUp(g: Graph, n: Numbering, nodes: seq<Node>, h: nat, b: nat)
    requires g.Valid() && Ready(g, n, nodes, h) && b < g.Count() && b != h
    requires Links(Up(nodes)) && |Up(nodes)| == |nodes|
    ensures Top(Up(nodes), b) < |nodes| && nodes[Top(Up(nodes), b)].parent == NONE && Top(Up(nodes), b) != h
  {
    hide Exact, ListsChildren, Numbers;
    ReadyUp(g, n, nodes, h);
    UpLinks(g.Count(), nodes);
  }

  /** A new member brings all blocks it stands for into the loop. */
  lemma AddMember(g: Graph, n: Numbering, nodes: seq<Node>, h: nat, members: seq<nat>, b: nat)
    requires g.Valid() && Ready(g, n, nodes, h) && Sound(g, n, nodes, h, members)
    requires b < g.Count() && b != h && InLoop(g, n.back, h, b)
    ensures Links(Up(nodes)) && |Up(nodes)| == |nodes| && b < |nodes|
    ensures Sound(g, n, nodes, h, members + [Top(Up(nodes), b)])
  {
    hide InLoop, Ready, Graph.Valid;
    ReadyUp(g, n, nodes, h);
    NodeUp(g, n, nodes, h, b);
    var t := Top(Up(nodes), b);
    forall c: nat | c < g.Count() && Top(Up(nodes), c) in members + [t]
      ensures InLoop(g, n.back, h, c)
    {
      if Top(Up(nodes), c) == t && c != b {
        SharedTop(g, n, nodes, h, b, c);
      }
    }
  }

  /** The predecessors of a member's entry, except the header, join the loop. */
  lemma PredecessorInLoop(g: Graph, n: Numbering, nodes: seq<Node>, h: nat, members: seq<nat>, m: nat, p: nat)
    requires g.Valid() && Ready(g, n, nodes, h) && Sound(g, n, nodes, h, members) && m in members
    requires m < |nodes| && p < g.Count() && g.Step(p, nodes[m].entry) && g.Reachable(p)
    ensures InLoop(g, n.back, h, nodes[m].entry) && nodes[m].entry != h && InLoop(g, n.back, h, p)
  {
    hide InLoop, Numbers, Graph.Reachable, Graph.Valid;
    ReadyUp(g, n, nodes, h);
    Representative(g, n.back, nodes, m);
    LoopClosed(g, n.back, h, p, nodes[m].entry);
  }

  /** The search state: everything found belongs to the loop, and everything found but
      not pending, save `current`, has been explored. */
  ghost predicate Searching(g: Graph, n: Numbering, nodes: seq<Node>, h: nat, members: seq<nat>, pending: seq<nat>, current: int)
    requires g.Valid() && Ready(g, n, nodes, h)
  {
    && Sound(g, n, nodes, h, members)
    && (forall m :: m in pending ==> m in members)
    && (forall m :: m in members ==> m < |nodes|)
    && (forall m :: m in members ==> m in pending || m == current || Explored(g, n, nodes, h, members, m))
  }

  ghost predicate HoldsSources(g: Graph, n: Numbering, nodes: seq<Node>, h: nat, members: seq<nat>)
    requires g.Valid() && Ready(g, n, nodes, h)
  {
    ReadyUp(g, n, nodes, h);
    forall s: nat :: s < g.Count() && s != h && LoopSource(g, n.back, s, h) ==> Top(Up(nodes), s) in members
  }

  /** One step back along a path into the loop stays among the members. */
  lemma CoveredBack(g: Graph, n: Numbering, nodes: seq<Node>, h: nat, members: seq<nat>, b: nat, c: nat)
    requires g.Valid() && Ready(g, n, nodes, h) && Searching(g, n, nodes, h, members, [], NONE)
    requires Links(Up(nodes)) && |Up(nodes)| == |nodes|
    requires b < g.Count() && c < g.Count() && g.Step(b, c) && g.Reachable(b) && b != h
    requires Top(Up(nodes), c) in members
    ensures Top(Up(nodes), b) in members
  {
    hide InLoop, Numbers, Graph.Reachable, Graph.Valid, Sound;
    var up := Up(nodes);
    var m := Top(up, c);
    assert Explored(g, n, nodes, h, members, m);
    LeafTop(g, n.back, nodes, c);
    if nodes[m].entry != c {
      assert LoopAt(g, n.back, nodes, m);
      LoopClosed(g, n.back, nodes[m].entry, b, c);
      assert Under(up, b, m);
      UnderTop(up, b, m);
      assert up[m] == m;
    }
  }

  /** A finished search has found the whole loop. */
  lemma {:induction false} Covered(g: Graph, n: Numbering, nodes: seq<Node>, h: nat, members: seq<nat>, b: nat, q: seq<nat>)
    requires g.Valid() && Ready(g, n, nodes, h) && Searching(g, n, nodes, h, members, [], NONE)
    requires HoldsSources(g, n, nodes, h, members)
    requires Links(Up(nodes)) && |Up(nodes)| == |nodes|
    requires g.Reachable(b) && BodyPath(g, n.back, q, b, h)
    ensures b < g.Count() <= |nodes| && Top(Up(nodes), b) in members
    decreases |q|
  {
    hide InLoop, Numbers, Searching, Graph.Reachable, Graph.Valid, LoopSource;
    if |q| > 1 {
      assert g.Step(q[0], q[1]);
      ReachableStep(g, b, q[1]);
      PathSuffix(g, q, 1);
      assert BodyPath(g, n.back, q[1..], q[1], h);
      Covered(g, n, nodes, h, members, q[1], q[1..]);
      CoveredBack(g, n, nodes, h, members, b, q[1]);
    }
  }

  lemma FinishedSearch(g: Graph, n: Numbering, nodes: seq<Node>, h: nat, members: seq<nat>)
    requires g.Valid() && Ready(g, n, nodes, h) && Searching(g, n, nodes, h, members, [], NONE)
    requires HoldsSources(g, n, nodes, h, members)
    ensures Links(Up(nodes)) && |Up(nodes)| == |nodes| >= g.Count()
    ensures forall b: nat :: b < g.Count() && b != h ==> (Top(Up(nodes), b) in members <==> InLoop(g, n.back, h, b))
    ensures !InLoop(g, n.back, h, ENTRY)
  {
    hide Numbers, Graph.Valid, Forest, BodyPath;
    ReadyUp(g, n, nodes, h);
    forall b: nat | b < g.Count() && b != h && InLoop(g, n.back, h, b)
      ensures Top(Up(nodes), b) in members
    {
      var q :| BodyPath(g, n.back, q, b, h);
      Covered(g, n, nodes, h, members, b, q);
    }
    EntryIsLeaf(g, n, nodes, h);
    MembersExplored(g, n, nodes, h, members);
  }

  lemma MembersExplored(g: Graph, n: Numbering, nodes: seq<Node>, h: nat, members: seq<nat>)
    requires g.Valid() && Ready(g, n, nodes, h) && Searching(g, n, nodes, h, members, [], NONE)
    ensures h != ENTRY && forall m :: m in members ==> m < |nodes| && nodes[m].entry != ENTRY
  {
    forall m | m in members
      ensures m < |nodes| && nodes[m].entry != ENTRY
    {
      assert Explored(g, n, nodes, h, members, m);
    }
  }

  lemma EntryIsLeaf(g: Graph, n: Numbering, nodes: seq<Node>, h: nat)
    requires g.Valid() && Ready(g, n, nodes, h)
    ensures Links(Up(nodes)) && |Up(nodes)| == |nodes| && ENTRY < |nodes|
    ensures Top(Up(nodes), ENTRY) == ENTRY && nodes[ENTRY].entry == ENTRY
  {
    hide InLoop, Numbers;
    LeafTop(g, n.back, nodes, ENTRY);
    var t := Top(Up(nodes), ENTRY);
    assert t >= g.Count() ==> LoopAt(g, n.back, nodes, t);
  }

  /** `seen` marks the members found for `h`. */
  ghost predicate Marks(nodes: seq<Node>, seen: seq<int>, h: nat, members: seq<nat>)
  {
    |seen| >= |nodes| && forall m :: 0 <= m < |nodes| ==> (seen[m] == h <==> m in members)
  }

  ghost predicate OnlyMarked(seen: seq<int>, seen': seq<int>, h: nat)
  {
    |seen'| == |seen| && forall k :: 0 <= k < |seen| ==> seen'[k] == seen[k] || seen'[k] == h
  }

  ghost function Unfound(nodes: seq<Node>, members: seq<nat>): set<nat>
  {
    set m: nat | m < |nodes| && m !in members
  }

  lemma FoundMore(g: Graph, n: Numbering, nodes: seq<Node>, h: nat, members: seq<nat>, pending: seq<nat>, current: int, m: nat)
    requires g.Valid() && Ready(g, n, nodes, h) && Searching(g, n, nodes, h, members, pending, current)
    requires m !in members && m < |nodes| && Sound(g, n, nodes, h, members + [m])
    ensures Searching(g, n, nodes, h, members + [m], pending + [m], current)
    ensures Unfound(nodes, members + [m]) < Unfound(nodes, members)
  {
    hide Ready, Sound, Graph.Valid, Up;
    forall k | k in members && Explored(g, n, nodes, h, members, k)
      ensures Explored(g, n, nodes, h, members + [m], k)
    {
    }
    assert m in Unfound(nodes, members);
  }

  /** Add the node that stands for `b`, unless `b` is unreachable or already found. */
  method Add(g: Graph, n: Numbering, nodes: seq<Node>, h: nat, roots: seq<nat>, seen: seq<int>, members: seq<nat>,
             pending: seq<nat>, b: nat, ghost current: int)
      returns (roots': seq<nat>, seen': seq<int>, members': seq<nat>, pending': seq<nat>)
    requires g.Valid() && Ready(g, n, nodes, h) && Searching(g, n, nodes, h, members, pending, current)
    requires Represents(g.Count(), nodes, roots) && Marks(nodes, seen, h, members)
    requires b < g.Count() && b != h && (g.Reachable(b) ==> InLoop(g, n.back, h, b))
    ensures Searching(g, n, nodes, h, members', pending', current)
    ensures Represents(g.Count(), nodes, roots') && Marks(nodes, seen', h, members') && OnlyMarked(seen, seen', h)
    ensures Links(Up(nodes)) && |Up(nodes)| == |nodes| >= g.Count()
    ensures g.Reachable(b) ==> Top(Up(nodes), b) in members'
    ensures forall m :: m in members ==> m in members'
    ensures (members' == members && pending' == pending) || Unfound(nodes, members') < Unfound(nodes, members)
  {
    hide InLoop, Graph.Valid, Sound, Explored, Forest, Graph.Reachable, Unfound;
    ReadyUp(g, n, nodes, h);
    seen', members', pending' := seen, members, pending;
    var node;
    node, roots' := Find(roots, b);
    NodeUp(g, n, nodes, h, b);
    assert node == Top(Up(nodes), b);
    NumbersReach(g, n, b);
    if n.preorder[b] == 0 || seen[node] == h {
      return;
    }
    AddMember(g, n, nodes, h, members, b);
    FoundMore(g, n, nodes, h, members, pending, current, node);
    seen' := seen[node := h];
    members' := members + [node];
    pending' := pending + [node];
  }

  lemma NumbersReach(g: Graph, n: Numbering, b: nat)
    requires g.Valid() && Numbers(g, n) && b < g.Count()
    ensures |n.preorder| == g.Count() && (n.preorder[b] != 0 <==> g.Reachable(b))
  {
  }

  lemma Pred(g: Graph, b: nat, k: nat)
    requires g.Valid() && b < g.Count() && k < |g.incoming[b]|
    ensures g.incoming[b][k] < |g.edges|
    ensures g.edges[g.incoming[b][k]].source < g.Count()
    ensures g.edges[g.incoming[b][k]] == Edge(g.edges[g.incoming[b][k]].source, b)
    ensures g.Step(g.edges[g.incoming[b][k]].source, b)
  {
    assert g.edges[g.incoming[b][k]] == Edge(g.edges[g.incoming[b][k]].source, b);
  }

  ghost predicate SourcesUpTo(g: Graph, n: Numbering, nodes: seq<Node>, h: nat, members: seq<nat>, k: nat)
    requires g.Valid() && Ready(g, n, nodes, h) && k <= |g.incoming[h]|
  {
    ReadyUp(g, n, nodes, h);
    forall j :: 0 <= j < k ==>
      var e := g.incoming[h][j];
      e < |g.edges| && e < |n.back| && (n.back[e] && g.edges[e].source != h ==>
        g.edges[e].source < g.Count() && Top(Up(nodes), g.edges[e].source) in members)
  }

  lemma AllSources(g: Graph, n: Numbering, nodes: seq<Node>, h: nat, members: seq<nat>)
    requires g.Valid() && Ready(g, n, nodes, h) && SourcesUpTo(g, n, nodes, h, members, |g.incoming[h]|)
    ensures HoldsSources(g, n, nodes, h, members)
  {
    hide Numbers, Forest, Up;
    ReadyUp(g, n, nodes, h);
    forall s: nat | s < g.Count() && s != h && LoopSource(g, n.back, s, h)
      ensures Top(Up(nodes), s) in members
    {
      var e: nat :| e < |g.edges| && e < |n.back| && n.back[e] && g.edges[e] == Edge(s, h);
      assert e in g.incoming[h];
    }
  }

  lemma BackSource(g: Graph, n: Numbering, e: nat)
    requires g.Valid() && Numbers(g, n) && e < |g.edges|
    ensures e < |n.back|
    ensures n.back[e] ==> g.edges[e].source < g.Count() && g.Reachable(g.edges[e].source)
    ensures n.back[e] ==> LoopSource(g, n.back, g.edges[e].source, g.edges[e].destination)
  {
    hide Graph.Reachable;
  }

  /** Start from the sources of the back edges. */
  method CollectSources(g: Graph, n: Numbering, nodes: seq<Node>, h: nat, roots: seq<nat>, seen: seq<int>)
      returns (roots': seq<nat>, seen': seq<int>, members: seq<nat>, pending: seq<nat>)
    requires g.Valid() && Ready(g, n, nodes, h)
    requires Represents(g.Count(), nodes, roots) && Marks(nodes, seen, h, [])
    ensures Searching(g, n, nodes, h, members, pending, NONE) && HoldsSources(g, n, nodes, h, members)
    ensures Represents(g.Count(), nodes, roots') && Marks(nodes, seen', h, members) && OnlyMarked(seen, seen', h)
  {
    hide InLoop, Graph.Valid, Searching, Sound, Forest, Graph.Reachable, Unfound, Numbers, Represents, HoldsSources, LoopSource;
    roots', seen', members, pending := roots, seen, [], [];
    StartSearch(g, n, nodes, h);
    ReadySizes(g, n, nodes, h);
    for k := 0 to |g.incoming[h]|
      invariant Searching(g, n, nodes, h, members, pending, NONE) && SourcesUpTo(g, n, nodes, h, members, k)
      invariant Represents(g.Count(), nodes, roots') && Marks(nodes, seen', h, members) && OnlyMarked(seen, seen', h)
    {
      var e := g.incoming[h][k];
      Pred(g, h, k);
      BackSource(g, n, e);
      var pred := g.edges[e].source;
      ghost var before := members;
      if pred != h && n.back[e] {
        SourceInLoop(g, n.back, h, pred);
        roots', seen', members, pending := Add(g, n, nodes, h, roots', seen', members, pending, pred, NONE);
      }
    }
    AllSources(g, n, nodes, h, members);
  }

  lemma StartSearch(g: Graph, n: Numbering, nodes: seq<Node>, h: nat)
    requires g.Valid() && Ready(g, n, nodes, h)
    ensures Searching(g, n, nodes, h, [], [], NONE)
  {
  }

  lemma ReadySizes(g: Graph, n: Numbering, nodes: seq<Node>, h: nat)
    requires g.Valid() && Ready(g, n, nodes, h)
    ensures h < |g.incoming| == g.Count() && |n.back| == |g.edges| && ParentsLater(g.Count(), nodes)
  {
  }

  // ----- following predecessors -----

  ghost predicate ExploredUpTo(g: Graph, n: Numbering, nodes: seq<Node>, h: nat, members: seq<nat>, b: nat, k: nat)
    requires g.Valid() && Ready(g, n, nodes, h) && b < g.Count() && k <= |g.incoming[b]|
  {
    ReadyUp(g, n, nodes, h);
    forall j :: 0 <= j < k ==>
      var e := g.incoming[b][j];
      e < |g.edges| && g.edges[e].source < g.Count()
      && (g.Reachable(g.edges[e].source) && g.edges[e].source != h ==> Top(Up(nodes), g.edges[e].source) in members)
  }

  lemma NowExplored(g: Graph, n: Numbering, nodes: seq<Node>, h: nat, members: seq<nat>, pending: seq<nat>, m: nat)
    requires g.Valid() && Ready(g, n, nodes, h) && m < |nodes| && nodes[m].entry < g.Count() && nodes[m].entry != ENTRY
    requires Searching(g, n, nodes, h, members, pending, m)
    requires ExploredUpTo(g, n, nodes, h, members, nodes[m].entry, |g.incoming[nodes[m].entry]|)
    ensures Searching(g, n, nodes, h, members, pending, NONE)
  {
    hide Numbers, Forest, Sound, Up, Graph.Reachable;
    ReadyUp(g, n, nodes, h);
    var b := nodes[m].entry;
    forall p: nat | p < g.Count() && g.Step(p, b) && g.Reachable(p) && p != h
      ensures Top(Up(nodes), p) in members
    {
      var e: nat :| e < |g.edges| && g.edges[e] == Edge(p, b);
      assert e in g.incoming[b];
    }
    assert Explored(g, n, nodes, h, members, m);
  }

  lemma PopPending(g: Graph, n: Numbering, nodes: seq<Node>, h: nat, members: seq<nat>, pending: seq<nat>)
    requires g.Valid() && Ready(g, n, nodes, h) && pending != [] && Searching(g, n, nodes, h, members, pending, NONE)
    ensures var m := pending[|pending| - 1];
            && m in members && m < |nodes| && nodes[m].entry < g.Count()
            && Searching(g, n, nodes, h, members, pending[..|pending| - 1], m)
            && InLoop(g, n.back, h, nodes[m].entry) && nodes[m].entry != h
  {
    hide InLoop, Numbers, Exact, Sound, Explored;
    var m := pending[|pending| - 1];
    assert pending == pending[..|pending| - 1] + [m];
    MemberEntry(g, n, nodes, h, members, m);
  }

  lemma MemberEntry(g: Graph, n: Numbering, nodes: seq<Node>, h: nat, members: seq<nat>, m: nat)
    requires g.Valid() && Ready(g, n, nodes, h) && Sound(g, n, nodes, h, members) && m in members
    ensures m < |nodes| && nodes[m].entry < g.Count()
    ensures InLoop(g, n.back, h, nodes[m].entry) && nodes[m].entry != h
  {
    hide InLoop, Numbers;
    ReadyUp(g, n, nodes, h);
    Representative(g, n.back, nodes, m);
  }

  /** Add the predecessors of a member's entry. */
  method Explore(g: Graph, n: Numbering, nodes: seq<Node>, h: nat, roots: seq<nat>, seen: seq<int>, members: seq<nat>,
                 pending: seq<nat>, m: nat)
      returns (roots': seq<nat>, seen': seq<int>, members': seq<nat>, pending': seq<nat>)
    requires g.Valid() && Ready(g, n, nodes, h) && Searching(g, n, nodes, h, members, pending, m)
    requires Represents(g.Count(), nodes, roots) && Marks(nodes, seen, h, members)
    requires m in members && m < |nodes| && nodes[m].entry < g.Count() && nodes[m].entry != ENTRY
    ensures Searching(g, n, nodes, h, members', pending', NONE)
    ensures Represents(g.Count(), nodes, roots') && Marks(nodes, seen', h, members') && OnlyMarked(seen, seen', h)
    ensures forall x :: x in members ==> x in members'
    ensures (members' == members && pending' == pending) || Unfound(nodes, members') < Unfound(nodes, members)
  {
    hide InLoop, Graph.Valid, Searching, Sound, Forest, Graph.Reachable, Unfound, Numbers, Represents;
    roots', seen', members', pending' := roots, seen, members, pending;
    var b := nodes[m].entry;
    ReadySizes(g, n, nodes, h);
    for k := 0 to |g.incoming[b]|
      invariant Searching(g, n, nodes, h, members', pending', m) && ExploredUpTo(g, n, nodes, h, members', b, k)
      invariant Represents(g.Count(), nodes, roots') && Marks(nodes, seen', h, members') && OnlyMarked(seen, seen', h)
      invariant forall x :: x in members ==> x in members'
      invariant (members' == members && pending' == pending) || Unfound(nodes, members') < Unfound(nodes, members)
    {
      Pred(g, b, k);
      var pred := g.edges[g.incoming[b][k]].source;
      if pred != h {
        if g.Reachable(pred) {
          SoundPart(g, n, nodes, h, members', pending', m);
          PredecessorInLoop(g, n, nodes, h, members', m, pred);
        }
        roots', seen', members', pending' := Add(g, n, nodes, h, roots', seen', members', pending', pred, m);
      }
    }
    NowExplored(g, n, nodes, h, members', pending', m);
  }

  lemma SoundPart(g: Graph, n: Numbering, nodes: seq<Node>, h: nat, members: seq<nat>, pending: seq<nat>, current: int)
    requires g.Valid() && Ready(g, n, nodes, h) && Searching(g, n, nodes, h, members, pending, current)
    ensures Sound(g, n, nodes, h, members)
  {
  }

  /** Collect the members of the loop of `h`, or find that it has several entries. */
  method CollectLoop(g: Graph, n: Numbering, nodes: seq<Node>, h: nat, roots: seq<nat>, seen: seq<int>)
      returns (multipleEntries: bool, members: seq<nat>, roots': seq<nat>, seen': seq<int>)
    requires g.Valid() && Ready(g, n, nodes, h)
    requires Represents(g.Count(), nodes, roots) && Marks(nodes, seen, h, [])
    ensures Represents(g.Count(), nodes, roots') && OnlyMarked(seen, seen', h)
    ensures multipleEntries <==> InLoop(g, n.back, h, ENTRY)
    ensures Links(Up(nodes)) && |Up(nodes)| == |nodes| >= g.Count()
    ensures Sound(g, n, nodes, h, members)
    ensures !multipleEntries ==> forall b: nat :: b < g.Count() && b != h ==>
              (Top(Up(nodes), b) in members <==> InLoop(g, n.back, h, b))
  {
    hide InLoop, Graph.Valid, Searching, Sound, Forest, Graph.Reachable, Unfound, Numbers, Represents, HoldsSources;
    var pending;
    roots', seen', members, pending := CollectSources(g, n, nodes, h, roots, seen);
    multipleEntries := false;
    ReadyUp(g, n, nodes, h);
    ReadySizes(g, n, nodes, h);
    while pending != []
      invariant Searching(g, n, nodes, h, members, pending, NONE) && HoldsSources(g, n, nodes, h, members)
      invariant Represents(g.Count(), nodes, roots') && Marks(nodes, seen', h, members) && OnlyMarked(seen, seen', h)
      decreases Unfound(nodes, members), |pending|
    {
      PopPending(g, n, nodes, h, members, pending);
      var node := pending[|pending| - 1];
      pending := pending[..|pending| - 1];
      ghost var before := members;
      if nodes[node].entry == ENTRY {
        multipleEntries := true;
        SoundPart(g, n, nodes, h, members, pending, node);
        return;
      }
      roots', seen', members, pending := Explore(g, n, nodes, h, roots', seen', members, pending, node);
      SourcesKept(g, n, nodes, h, before, members);
    }
    SoundPart(g, n, nodes, h, members, pending, NONE);
    FinishedSearch(g, n, nodes, h, members);
  }

  lemma SourcesKept(g: Graph, n: Numbering, nodes: seq<Node>, h: nat, members: seq<nat>, more: seq<nat>)
    requires g.Valid() && Ready(g, n, nodes, h) && HoldsSources(g, n, nodes, h, members)
    requires forall x :: x in members ==> x in more
    ensures HoldsSources(g, n, nodes, h, more)
  {
    hide Numbers, Forest, LoopSource;
  }

  // ----- adding the loop -----

  /** `nodes'` has one more node, the loop entered at `h`, over the nodes in `all`. */
  ghost predicate Extended(nodes: seq<Node>, all: seq<nat>, h: nat, nodes': seq<Node>)
  {
    && |nodes'| == |nodes| + 1
    && (forall m :: 0 <= m < |nodes| ==> nodes'[m] == if m in all then nodes[m].(parent := |nodes|) else nodes[m])
    && nodes'[|nodes|].block == NONE && nodes'[|nodes|].entry == h && nodes'[|nodes|].parent == NONE
    && (forall m :: m in nodes'[|nodes|].children <==> m in all)
  }

  method AddLoop(nodes: seq<Node>, roots: seq<nat>, all: seq<nat>, h: nat) returns (nodes': seq<Node>, roots': seq<nat>)
    requires |roots| == |nodes| && forall m :: m in all ==> m < |nodes|
    ensures Extended(nodes, all, h, nodes')
    ensures Grafted(roots, Finite.Elements(all), roots')
  {
    var loop := |nodes|;
    nodes' := nodes + [Node(NONE, h, NONE, [])];
    roots' := roots + [loop];
    var k := |all|;
    assert all[k..] == [];
    while 0 < k
      invariant 0 <= k <= |all|
      invariant Extended(nodes, all[k..], h, nodes')
      invariant Grafted(roots, Finite.Elements(all[k..]), roots')
    {
      k := k - 1;
      var m := all[k];
      assert m in all && m < loop;
      assert all[k..] == [m] + all[k + 1..];
      nodes' := nodes'[loop := nodes'[loop].(children := nodes'[loop].children + [m])];
      nodes' := nodes'[m := nodes'[m].(parent := loop)];
      roots' := roots'[m := loop];
    }
    assert all[0..] == all;
  }

  lemma ExtendedShaped(count: nat, nodes: seq<Node>, all: seq<nat>, h: nat, nodes': seq<Node>)
    requires Shaped(count, nodes) && Extended(nodes, all, h, nodes') && h < count
    requires forall m :: m in all ==> m < |nodes| && nodes[m].parent == NONE
    ensures Shaped(count, nodes')
  {
    hide ListsChildren;
    GrownLists(nodes, Finite.Elements(all), nodes');
  }

  /** Children lists stay right when parentless nodes get a new parent. */
  lemma GrownLists(nodes: seq<Node>, s: set<nat>, nodes': seq<Node>)
    requires ListsChildren(nodes) && |nodes'| == |nodes| + 1
    requires forall m :: m in s ==> m < |nodes| && nodes[m].parent == NONE
    requires forall m :: 0 <= m < |nodes| ==> nodes'[m] == if m in s then nodes[m].(parent := |nodes|) else nodes[m]
    requires forall m :: 0 <= m < |nodes| ==> nodes[m].parent < |nodes|
    requires nodes'[|nodes|].parent == NONE && forall m :: m in nodes'[|nodes|].children <==> m in s
    ensures ListsChildren(nodes')
  {
    forall n, k | 0 <= n < |nodes'| && 0 <= k < |nodes'[n].children|
      ensures nodes'[n].children[k] < |nodes'| && nodes'[nodes'[n].children[k]].parent == n
    {
      var c := nodes'[n].children[k];
      if n < |nodes| {
        assert nodes'[n].children == nodes[n].children;
        assert nodes[nodes[n].children[k]].parent == n;
      } else {
        assert c in s;
      }
    }
  }

  lemma ExtendedUp(count: nat, nodes: seq<Node>, all: seq<nat>, h: nat, nodes': seq<Node>)
    requires Shaped(count, nodes) && Extended(nodes, all, h, nodes') && Shaped(count, nodes')
    ensures Grafted(Up(nodes), Finite.Elements(all), Up(nodes'))
  {
    hide ListsChildren;
    UpLinks(count, nodes);
    UpLinks(count, nodes');
  }

  lemma ExtendedRepresents(count: nat, nodes: seq<Node>, all: seq<nat>, h: nat, nodes': seq<Node>, roots: seq<nat>, roots': seq<nat>)
    requires Shaped(count, nodes) && Extended(nodes, all, h, nodes') && Shaped(count, nodes')
    requires Represents(count, nodes, roots) && Grafted(roots, Finite.Elements(all), roots')
    requires forall m :: m in all ==> m < |nodes| && nodes[m].parent == NONE
    ensures Represents(count, nodes', roots')
  {
    hide ListsChildren;
    UpLinks(count, nodes);
    UpLinks(count, nodes');
    ExtendedUp(count, nodes, all, h, nodes');
    var s := Finite.Elements(all);
    forall r | r in s
      ensures r < |roots| && roots[r] == r
    {
      assert Top(Up(nodes), r) == r;
      assert Top(roots, r) == r;
    }
    assert Links(roots') by {
      if |roots| > 0 { GraftTop(roots, s, roots', 0); }
    }
    forall n: nat | n < |nodes'|
      ensures Top(roots', n) == Top(Up(nodes'), n)
    {
      if n < |nodes| {
        GraftTop(roots, s, roots', n);
        GraftTop(Up(nodes), s, Up(nodes'), n);
      }
    }
  }

  lemma OldLoop(g: Graph, n: Numbering, nodes: seq<Node>, all: seq<nat>, h: nat, nodes': seq<Node>, l: nat)
    requires g.Valid() && Forest(g, n.back, nodes) && g.Count() <= l < |nodes|
    requires Extended(nodes, all, h, nodes') && Shaped(g.Count(), nodes')
    requires forall m :: m in all ==> m < |nodes| && nodes[m].parent == NONE
    ensures LoopAt(g, n.back, nodes', l)
  {
    hide Numbers, InLoop, Graph.Reachable, Graph.Valid, ListsChildren;
    UpLinks(g.Count(), nodes);
    UpLinks(g.Count(), nodes');
    ExtendedUp(g.Count(), nodes, all, h, nodes');
    assert LoopAt(g, n.back, nodes, l);
    assert nodes'[l].entry == nodes[l].entry;
    forall b: nat | b < g.Count()
      ensures Under(Up(nodes'), b, l) <==> Under(Up(nodes), b, l)
    {
      GraftTop(Up(nodes), Finite.Elements(all), Up(nodes'), b);
    }
  }

  /** The new node holds the natural loop of `h`; older loops are unchanged. */
  lemma ExtendedExact(g: Graph, n: Numbering, nodes: seq<Node>, h: nat, members: seq<nat>, nodes': seq<Node>)
    requires g.Valid() && Ready(g, n, nodes, h) && Sound(g, n, nodes, h, members)
    requires Extended(nodes, members + [h], h, nodes') && Shaped(g.Count(), nodes')
    requires Links(Up(nodes)) && |Up(nodes)| == |nodes| >= g.Count()
    requires g.Reachable(h) && !InLoop(g, n.back, h, ENTRY)
    requires forall b: nat :: b < g.Count() && b != h ==> (Top(Up(nodes), b) in members <==> InLoop(g, n.back, h, b))
    ensures Exact(g, n.back, nodes')
  {
    hide Numbers, InLoop, Graph.Reachable, Graph.Valid, ListsChildren, Exact;
    var all := members + [h];
    MembersAreRoots(g, n, nodes, h, members);
    ReadyUp(g, n, nodes, h);
    UpLinks(g.Count(), nodes);
    UpLinks(g.Count(), nodes');
    ExtendedUp(g.Count(), nodes, all, h, nodes');
    HeaderIsMember(g, n.back, h);
    forall b: nat | b < g.Count()
      ensures Under(Up(nodes'), b, |nodes|) <==> InLoop(g, n.back, h, b)
    {
      GraftTop(Up(nodes), Finite.Elements(all), Up(nodes'), b);
    }
    assert LoopAt(g, n.back, nodes', |nodes|);
    OldLoops(g, n, nodes, all, h, nodes');
  }

  lemma OldLoops(g: Graph, n: Numbering, nodes: seq<Node>, all: seq<nat>, h: nat, nodes': seq<Node>)
    requires g.Valid() && Forest(g, n.back, nodes)
    requires Extended(nodes, all, h, nodes') && Shaped(g.Count(), nodes')
    requires forall m :: m in all ==> m < |nodes| && nodes[m].parent == NONE
    requires |nodes| >= g.Count() && LoopAt(g, n.back, nodes', |nodes|)
    ensures Exact(g, n.back, nodes')
  {
    hide Forest, Extended, Shaped, LoopAt, Graph.Valid;
    assert |nodes'| == |nodes| + 1 by { ExtendedSize(nodes, all, h, nodes'); }
    forall l: nat | g.Count() <= l < |nodes'|
      ensures LoopAt(g, n.back, nodes', l)
    {
      if l < |nodes| {
        OldLoop(g, n, nodes, all, h, nodes', l);
      }
    }
  }

  lemma ExtendedSize(nodes: seq<Node>, all: seq<nat>, h: nat, nodes': seq<Node>)
    requires Extended(nodes, all, h, nodes')
    ensures |nodes'| == |nodes| + 1
  {
  }

  lemma HeaderIsMember(g: Graph, back: seq<bool>, h: nat)
    ensures InLoop(g, back, h, h)
  {
  }

  // ----- headers -----

  ghost predicate IsHeader(g: Graph, back: seq<bool>, h: nat)
  {
    exists s: nat :: LoopSource(g, back, s, h)
  }

  ghost predicate HasBackEdge(g: Graph, back: seq<bool>, b: nat)
    requires b < |g.incoming|
  {
    exists k :: 0 <= k < |g.incoming[b]| && g.incoming[b][k] < |back| && back[g.incoming[b][k]]
  }

  lemma BackEdgeIsHeader(g: Graph, n: Numbering, b: nat)
    requires g.Valid() && Numbers(g, n) && b < g.Count()
    ensures b < |g.incoming| && (HasBackEdge(g, n.back, b) <==> IsHeader(g, n.back, b))
  {
    hide *;
    NumbersSizes(g, n);
    if b < |g.incoming| && HasBackEdge(g, n.back, b) {
      BackEdgeLeads(g, n.back, b);
    }
    if IsHeader(g, n.back, b) {
      HeaderIsEntered(g, n.back, b);
    }
  }

  lemma NumbersSizes(g: Graph, n: Numbering)
    requires g.Valid() && Numbers(g, n)
    ensures |n.back| == |g.edges| && |g.incoming| == g.Count() && |n.rpost| == g.Count()
  {
  }

  lemma BackEdgeLeads(g: Graph, back: seq<bool>, b: nat)
    requires g.Valid() && b < g.Count() && b < |g.incoming| && HasBackEdge(g, back, b)
    ensures IsHeader(g, back, b)
  {
    hide Graph.Valid;
    var k :| 0 <= k < |g.incoming[b]| && g.incoming[b][k] < |back| && back[g.incoming[b][k]];
    Pred(g, b, k);
    assert LoopSource(g, back, g.edges[g.incoming[b][k]].source, b);
  }

  lemma HeaderIsEntered(g: Graph, back: seq<bool>, b: nat)
    requires g.Valid() && |back| == |g.edges| && b < g.Count() == |g.incoming| && IsHeader(g, back, b)
    ensures HasBackEdge(g, back, b)
  {
    var s: nat :| LoopSource(g, back, s, b);
    var e: nat :| e < |g.edges| && e < |back| && back[e] && g.edges[e] == Edge(s, b);
    assert e in g.incoming[b];
  }

  lemma HeaderReached(g: Graph, n: Numbering, h: nat)
    requires g.Valid() && Numbers(g, n) && IsHeader(g, n.back, h)
    ensures ENTRY < h < g.Count() && g.Reachable(h) && n.rpost[h] != 0
  {
    hide Graph.Reachable;
    var s: nat :| LoopSource(g, n.back, s, h);
    var e: nat :| e < |g.edges| && e < |n.back| && n.back[e] && g.edges[e] == Edge(s, h);
    assert g.Step(s, h);
    assert g.Reachable(s);
    ReachableStep(g, s, h);
  }

  method FindHeaders(g: Graph, n: Numbering) returns (headers: seq<nat>)
    requires g.Valid() && Numbers(g, n)
    ensures Distinct(headers)
    ensures forall h: nat :: h in headers <==> IsHeader(g, n.back, h)
  {
    hide Numbers, LoopSource;
    headers := [];
    for b := 0 to g.Count()
      invariant Distinct(headers)
      invariant forall h: nat :: h in headers <==> h < b && IsHeader(g, n.back, h)
    {
      var k := 0;
      BackSizes(g, n, b);
      while k < |g.incoming[b]| && !n.back[g.incoming[b][k]]
        invariant 0 <= k <= |g.incoming[b]|
        invariant forall j :: 0 <= j < k ==> !n.back[g.incoming[b][j]]
      {
        k := k + 1;
      }
      BackEdgeIsHeader(g, n, b);
      if k < |g.incoming[b]| {
        headers := headers + [b];
      }
    }
    forall h: nat | IsHeader(g, n.back, h)
      ensures h < g.Count()
    {
      HeaderReached(g, n, h);
    }
  }

  lemma BackSizes(g: Graph, n: Numbering, b: nat)
    requires g.Valid() && Numbers(g, n) && b < g.Count()
    ensures b < |g.incoming| && forall k :: 0 <= k < |g.incoming[b]| ==> g.incoming[b][k] < |n.back|
  {
  }

  predicate LaterFirst(rank: seq<nat>, a: nat, b: nat)
  {
    Ranked(rank, a) >= Ranked(rank, b)
  }

  function Ranked(rank: seq<nat>, b: nat): nat
  {
    if b < |rank| then rank[b] else 0
  }

  /** Headers by falling reverse postorder number, so inner loops come first. */
  method SortHeaders(g: Graph, n: Numbering, headers: seq<nat>) returns (sorted: seq<nat>)
    requires g.Valid() && Numbers(g, n) && Distinct(headers)
    requires forall h: nat :: h in headers <==> IsHeader(g, n.back, h)
    ensures Distinct(sorted) && forall h: nat :: h in sorted <==> IsHeader(g, n.back, h)
    ensures |sorted| <= g.Count()
    ensures forall j :: 0 <= j < |sorted| ==> ENTRY < sorted[j] < g.Count() == |n.rpost|
    ensures forall i, j :: 0 <= i < j < |sorted| ==> n.rpost[sorted[i]] > n.rpost[sorted[j]]
  {
    hide Numbers, LoopSource, IsHeader;
    var le := (a, b) => LaterFirst(n.rpost, a, b);
    sorted := Sort(headers, le);
    forall j | 0 <= j < |sorted|
      ensures ENTRY < sorted[j] < g.Count()
    {
      HeaderReached(g, n, sorted[j]);
    }
    RanksDiffer(g, n);
    forall i, j | 0 <= i < j < |sorted|
      ensures n.rpost[sorted[i]] > n.rpost[sorted[j]]
    {
      assert le(sorted[i], sorted[j]) && sorted[i] != sorted[j];
      HeaderReached(g, n, sorted[i]);
    }
    Finite.DistinctSize(sorted);
    Finite.AtMost(Finite.Elements(sorted), g.Count());
  }

  lemma RanksDiffer(g: Graph, n: Numbering)
    requires g.Valid() && Numbers(g, n)
    ensures |n.rpost| == g.Count()
    ensures forall a: nat, b: nat :: a < g.Count() && b < g.Count() && a != b && n.rpost[a] != 0 ==> n.rpost[a] != n.rpost[b]
  {
    hide Graph.Reachable, HasForwardEdge;
    forall a: nat, b: nat | a < g.Count() && b < g.Count() && a != b && n.rpost[a] != 0
      ensures n.rpost[a] != n.rpost[b]
    {
      assert b < a && n.rpost[b] != 0 ==> n.rpost[b] != n.rpost[a];
    }
  }

  // ----- the forest -----

  /** After the first `i` headers: their loops are there, exactly when they have one
      entry. */
  ghost predicate Building(g: Graph, n: Numbering, headers: seq<nat>, i: nat, nodes: seq<Node>)
    requires g.Valid() && i <= |headers|
  {
    && Forest(g, n.back, nodes)
    && |nodes| <= g.Count() + i
    && (forall l :: g.Count() <= l < |nodes| ==> nodes[l].entry in headers[..i])
    && (forall l, k :: g.Count() <= l < k < |nodes| ==> nodes[l].entry != nodes[k].entry)
    && (forall h :: h in headers[..i] ==> (HasLoop(g, nodes, h) <==> !InLoop(g, n.back, h, ENTRY)))
  }

  ghost predicate HasLoop(g: Graph, nodes: seq<Node>, h: nat)
  {
    exists l :: g.Count() <= l < |nodes| && nodes[l].entry == h
  }

  /** A header has not joined any loop when its turn comes. */
  lemma HeaderIsRoot(g: Graph, n: Numbering, headers: seq<nat>, i: nat, nodes: seq<Node>)
    requires g.Valid() && Numbers(g, n) && i < |headers| && Building(g, n, headers, i, nodes)
    requires forall j :: 0 <= j < |headers| ==> ENTRY < headers[j] < g.Count() == |n.rpost|
    requires forall j, k :: 0 <= j < k < |headers| ==> n.rpost[headers[j]] > n.rpost[headers[k]]
    ensures Ready(g, n, nodes, headers[i])
    ensures !HasLoop(g, nodes, headers[i])
  {
    hide Numbers, InLoop, Graph.Valid, ListsChildren, Exact;
    var h := headers[i];
    UpLinks(g.Count(), nodes);
    if nodes[h].parent != NONE {
      LeafTop(g, n.back, nodes, h);
      var t := Top(Up(nodes), h);
      TopLoopOutside(g, n, nodes, t);
      assert nodes[t].entry in headers[..i];
      HeaderFirst(g, n, nodes[t].entry, h);
      assert false;
    }
  }

  lemma TopLoopOutside(g: Graph, n: Numbering, nodes: seq<Node>, l: nat)
    requires g.Valid() && Forest(g, n.back, nodes) && g.Count() <= l < |nodes|
    ensures !InLoop(g, n.back, nodes[l].entry, ENTRY)
  {
    assert LoopAt(g, n.back, nodes, l);
  }

  lemma SkipHeader(g: Graph, n: Numbering, headers: seq<nat>, i: nat, nodes: seq<Node>)
    requires g.Valid() && i < |headers| && Building(g, n, headers, i, nodes)
    requires InLoop(g, n.back, headers[i], ENTRY) && !HasLoop(g, nodes, headers[i])
    ensures Building(g, n, headers, i + 1, nodes)
  {
    hide InLoop, Forest, Graph.Valid, HasLoop;
    assert headers[..i + 1] == headers[..i] + [headers[i]];
  }

  lemma LoopAdded(g: Graph, n: Numbering, headers: seq<nat>, i: nat, nodes: seq<Node>, all: seq<nat>, nodes': seq<Node>)
    requires g.Valid() && i < |headers| && Building(g, n, headers, i, nodes) && Forest(g, n.back, nodes')
    requires Extended(nodes, all, headers[i], nodes') && g.Count() <= |nodes|
    requires !InLoop(g, n.back, headers[i], ENTRY) && !HasLoop(g, nodes, headers[i])
    ensures Building(g, n, headers, i + 1, nodes')
  {
    hide InLoop, Forest, Graph.Valid;
    assert headers[..i + 1] == headers[..i] + [headers[i]];
    forall h | h in headers[..i + 1]
      ensures HasLoop(g, nodes', h) <==> HasLoop(g, nodes, h) || h == headers[i]
    {
      if HasLoop(g, nodes, h) {
        var l :| g.Count() <= l < |nodes| && nodes[l].entry == h;
        assert nodes'[l].entry == h;
      }
      assert nodes'[|nodes|].entry == headers[i];
      if HasLoop(g, nodes', h) && h != headers[i] {
        var l :| g.Count() <= l < |nodes'| && nodes'[l].entry == h;
        assert nodes[l].entry == h;
      }
    }
  }

  lemma StartForest(g: Graph, n: Numbering, headers: seq<nat>, nodes: seq<Node>, roots: seq<nat>)
    requires g.Valid() && |nodes| == |roots| == g.Count()
    requires forall b: nat :: b < g.Count() ==> nodes[b] == Node(b, b, NONE, []) && roots[b] == b
    ensures Building(g, n, headers, 0, nodes) && Represents(g.Count(), nodes, roots)
  {
    UpLinks(g.Count(), nodes);
  }

  lemma StillUnmarked(headers: seq<nat>, i: nat, seen: seq<int>, seen': seq<int>)
    requires i < |headers| && OnlyMarked(seen, seen', headers[i])
    requires forall k :: 0 <= k < |seen| ==> seen[k] == NONE || seen[k] in headers[..i]
    ensures forall k :: 0 <= k < |seen'| ==> seen'[k] == NONE || seen'[k] in headers[..i + 1]
  {
    assert headers[..i + 1] == headers[..i] + [headers[i]];
  }

  /** One node for each block, then one for each loop, inner loops first. */
  method BuildLoops(g: Graph, n: Numbering, headers: seq<nat>) returns (nodes: seq<Node>, roots: seq<nat>)
    requires g.Valid() && Numbers(g, n) && Distinct(headers) && |headers| <= g.Count()
    requires forall h: nat :: h in headers ==> IsHeader(g, n.back, h)
    requires forall j :: 0 <= j < |headers| ==> ENTRY < headers[j] < g.Count() == |n.rpost|
    requires forall j, k :: 0 <= j < k < |headers| ==> n.rpost[headers[j]] > n.rpost[headers[k]]
    ensures Building(g, n, headers, |headers|, nodes)
    ensures ParentsLater(g.Count(), nodes) && Represents(g.Count(), nodes, roots)
  {
    hide Numbers, InLoop, Graph.Valid, Graph.Reachable, LoopSource, Sound, Building;
    nodes := seq<Node>(g.Count(), b requires 0 <= b => Node(b, b, NONE, []));
    roots := seq<nat>(g.Count(), b requires 0 <= b => b);
    var seen := seq<int>(2 * g.Count() + 1, _ => NONE);
    StartForest(g, n, headers, nodes, roots);
    BuildingShape(g, n, headers, 0, nodes);
    for i := 0 to |headers|
      invariant Building(g, n, headers, i, nodes)
      invariant |nodes| <= g.Count() + i && ParentsLater(g.Count(), nodes) && Represents(g.Count(), nodes, roots)
      invariant |seen| == 2 * g.Count() + 1
      invariant forall k :: 0 <= k < |seen| ==> seen[k] == NONE || seen[k] in headers[..i]
    {
      var h := headers[i];
      HeaderIsRoot(g, n, headers, i, nodes);
      HeaderReached(g, n, h);
      ghost var seenBefore := seen;
      assert Marks(nodes, seen, h, []);
      var multipleEntries, members;
      multipleEntries, members, roots, seen := CollectLoop(g, n, nodes, h, roots, seen);
      StillUnmarked(headers, i, seenBefore, seen);
      if multipleEntries {
        SkipHeader(g, n, headers, i, nodes);
      } else {
        ghost var nodesBefore, rootsBefore := nodes, roots;
        MembersAreRoots(g, n, nodes, h, members);
        nodes, roots := AddLoop(nodes, roots, members + [h], h);
        Grow(g, n, headers, i, nodesBefore, members, nodes, rootsBefore, roots);
        BuildingShape(g, n, headers, i + 1, nodes);
      }
    }
  }

  lemma MembersAreRoots(g: Graph, n: Numbering, nodes: seq<Node>, h: nat, members: seq<nat>)
    requires g.Valid() && Ready(g, n, nodes, h) && Sound(g, n, nodes, h, members)
    ensures forall m :: m in members + [h] ==> m < |nodes| && nodes[m].parent == NONE
  {
    hide Numbers, Exact, ListsChildren;
  }

  lemma BuildingShape(g: Graph, n: Numbering, headers: seq<nat>, i: nat, nodes: seq<Node>)
    requires g.Valid() && i <= |headers| && Building(g, n, headers, i, nodes)
    ensures |nodes| <= g.Count() + i && ParentsLater(g.Count(), nodes)
  {
    hide Exact, ListsChildren;
  }

  lemma Grow(g: Graph, n: Numbering, headers: seq<nat>, i: nat, nodes: seq<Node>, members: seq<nat>, nodes': seq<Node>,
             roots: seq<nat>, roots': seq<nat>)
    requires g.Valid() && i < |headers| && Building(g, n, headers, i, nodes)
    requires Ready(g, n, nodes, headers[i]) && !HasLoop(g, nodes, headers[i])
    requires Sound(g, n, nodes, headers[i], members) && Extended(nodes, members + [headers[i]], headers[i], nodes')
    requires Links(Up(nodes)) && |Up(nodes)| == |nodes| >= g.Count()
    requires g.Reachable(headers[i]) && !InLoop(g, n.back, headers[i], ENTRY)
    requires forall b: nat :: b < g.Count() && b != headers[i] ==>
               (Top(Up(nodes), b) in members <==> InLoop(g, n.back, headers[i], b))
    requires ParentsLater(g.Count(), nodes) && Represents(g.Count(), nodes, roots)
    requires Grafted(roots, Finite.Elements(members + [headers[i]]), roots')
    ensures Building(g, n, headers, i + 1, nodes')
    ensures ParentsLater(g.Count(), nodes') && Represents(g.Count(), nodes', roots')
  {
    hide Numbers, InLoop, Graph.Valid, Graph.Reachable, Sound, Building, Exact, ListsChildren, Extended, HasLoop, ParentsLater, Represents;
    var all := members + [headers[i]];
    MembersAreRoots(g, n, nodes, headers[i], members);
    ExtendedShaped(g.Count(), nodes, all, headers[i], nodes');
    ShapedParents(g.Count(), nodes');
    ExtendedExact(g, n, nodes, headers[i], members, nodes');
    ExtendedRepresents(g.Count(), nodes, all, headers[i], nodes', roots, roots');
    LoopAdded(g, n, headers, i, nodes, all, nodes');
  }

  lemma ShapedParents(count: nat, nodes: seq<Node>)
    requires Shaped(count, nodes)
    ensures ParentsLater(count, nodes)
  {
  }

  // ----- the finished tree -----

  datatype LoopTree = LoopTree(nodes: seq<Node>, root: nat)

  /** Under the root every loop of one entry has a node over its natural loop. */
  ghost predicate IsLoopTree(g: Graph, back: seq<bool>, tree: LoopTree)
    requires g.Valid()
  {
    var nodes, root := tree.nodes, tree.root;
    && g.Count() <= root == |nodes| - 1
    && nodes[root].block == NONE && nodes[root].parent == NONE
    && (forall b :: 0 <= b < g.Count() ==> nodes[b].block == b)
    && (forall n :: g.Count() <= n < root ==> nodes[n].block == NONE && nodes[n].entry < g.Count())
    && (forall n :: 0 <= n < root ==> n < nodes[n].parent <= root)
    && ParentsLater(g.Count(), nodes) && ListsChildren(nodes)
    && (forall l: nat, b: nat :: g.Count() <= l < root && b < g.Count() ==>
          (UnderNode(g.Count(), nodes, b, l) <==> InLoop(g, back, nodes[l].entry, b)))
    && (forall l, k :: g.Count() <= l < k < root ==> nodes[l].entry != nodes[k].entry)
    && (forall h: nat :: IsHeader(g, back, h) ==>
          ((exists l :: g.Count() <= l < root && nodes[l].entry == h) <==> !InLoop(g, back, h, ENTRY)))
    && (forall l :: g.Count() <= l < root ==> IsHeader(g, back, nodes[l].entry))
  }

  ghost predicate UnderNode(count: nat, nodes: seq<Node>, n: nat, l: nat)
    requires ParentsLater(count, nodes) && n < |nodes|
  {
    UpLinks(count, nodes);
    Under(Up(nodes), n, l)
  }

  /** `nodes'` is `nodes` with a root over the tops in `s`. */
  ghost predicate Rooted(nodes: seq<Node>, s: set<nat>, nodes': seq<Node>, noEntry: nat)
  {
    && |nodes'| == |nodes| + 1
    && (forall m :: 0 <= m < |nodes| ==> nodes'[m] == if m in s then nodes[m].(parent := |nodes|) else nodes[m])
    && nodes'[|nodes|].block == NONE && nodes'[|nodes|].entry == noEntry && nodes'[|nodes|].parent == NONE
    && (forall m :: m in nodes'[|nodes|].children <==> m in s)
  }

  lemma RootOneMore(nodes: seq<Node>, s: set<nat>, nodes': seq<Node>, noEntry: nat, m: nat, nodes'': seq<Node>)
    requires Rooted(nodes, s, nodes', noEntry) && m < |nodes| < |nodes'|
    requires var r := nodes'[|nodes| := nodes'[|nodes|].(children := nodes'[|nodes|].children + [m])];
             nodes'' == r[m := r[m].(parent := |nodes|)]
    ensures Rooted(nodes, s + {m}, nodes'', noEntry)
  {
  }

  lemma NextTop(count: nat, nodes: seq<Node>, s: set<nat>, k: nat, t: nat)
    requires Shaped(count, nodes) && k < count && TopsUpTo(count, nodes, s, k)
    requires Links(Up(nodes)) && |Up(nodes)| == |nodes| && t == Top(Up(nodes), k)
    ensures TopsUpTo(count, nodes, s + {t}, k + 1)
  {
    hide Shaped, Up;
    forall m | m in s + {t}
      ensures exists b: nat :: b < k + 1 && Top(Up(nodes), b) == m
    {
      if m in s {
        var b: nat :| b < k && Top(Up(nodes), b) == m;
        assert b < k + 1;
      }
    }
  }

  /** Put the remaining tops under one root. */
  method AddRoot(count: nat, nodes: seq<Node>, roots: seq<nat>) returns (nodes': seq<Node>, ghost s: set<nat>)
    requires Shaped(count, nodes) && Represents(count, nodes, roots)
    ensures Rooted(nodes, s, nodes', count) && TopsUpTo(count, nodes, s, count)
  {
    hide ListsChildren, Up, TopsUpTo;
    UpLinks(count, nodes);
    var root := |nodes|;
    nodes' := nodes + [Node(NONE, count, NONE, [])];
    s := {};
    var links := roots;
    assert TopsUpTo(count, nodes, {}, 0) by { NoTops(count, nodes); }
    for b := 0 to count
      invariant Rooted(nodes, s, nodes', count)
      invariant TopsUpTo(count, nodes, s, b)
      invariant Represents(count, nodes, links)
    {
      var node;
      node, links := Find(links, b);
      NextTop(count, nodes, s, b, node);
      if nodes'[node].parent != root {
        ghost var before := nodes';
        nodes' := nodes'[root := nodes'[root].(children := nodes'[root].children + [node])];
        nodes' := nodes'[node := nodes'[node].(parent := root)];
        RootOneMore(nodes, s, before, count, node, nodes');
      }
      s := s + {node};
    }
  }

  lemma NoTops(count: nat, nodes: seq<Node>)
    requires Shaped(count, nodes)
    ensures TopsUpTo(count, nodes, {}, 0)
  {
  }

  ghost predicate TopsUpTo(count: nat, nodes: seq<Node>, s: set<nat>, k: nat)
    requires Shaped(count, nodes) && k <= count
  {
    UpLinks(count, nodes);
    forall m :: m in s <==> exists b: nat :: b < k && Top(Up(nodes), b) == m
  }

  /** The tops are exactly the nodes without a parent. */
  lemma TopsAreRoots(g: Graph, back: seq<bool>, nodes: seq<Node>, s: set<nat>)
    requires g.Valid() && Forest(g, back, nodes) && TopsUpTo(g.Count(), nodes, s, g.Count())
    ensures forall m: nat :: m in s <==> m < |nodes| && nodes[m].parent == NONE
  {
    hide Exact, ListsChildren, Graph.Valid;
    UpLinks(g.Count(), nodes);
    forall m: nat | m < |nodes| && nodes[m].parent == NONE
      ensures m in s
    {
      Representative(g, back, nodes, m);
      assert nodes[m].entry < g.Count() && Top(Up(nodes), nodes[m].entry) == m;
    }
  }

  lemma RootedLists(count: nat, nodes: seq<Node>, s: set<nat>, nodes': seq<Node>)
    requires Shaped(count, nodes) && Rooted(nodes, s, nodes', count)
    requires forall m: nat :: m in s <==> m < |nodes| && nodes[m].parent == NONE
    ensures ListsChildren(nodes')
  {
    hide ListsChildren;
    GrownLists(nodes, s, nodes');
  }

  lemma RootedShape(count: nat, nodes: seq<Node>, s: set<nat>, nodes': seq<Node>)
    requires Shaped(count, nodes) && Rooted(nodes, s, nodes', count)
    requires forall m: nat :: m in s <==> m < |nodes| && nodes[m].parent == NONE
    ensures ParentsLater(count, nodes') && ListsChildren(nodes')
    ensures forall n :: 0 <= n < |nodes| ==> n < nodes'[n].parent <= |nodes|
  {
    hide ListsChildren;
    RootedLists(count, nodes, s, nodes');
    forall n | 0 <= n < |nodes|
      ensures n < nodes'[n].parent <= |nodes| && count <= nodes'[n].parent
    {
      assert nodes'[n].parent == if n in s then |nodes| else nodes[n].parent;
    }
  }

  lemma RootedUp(count: nat, nodes: seq<Node>, s: set<nat>, nodes': seq<Node>)
    requires Shaped(count, nodes) && Rooted(nodes, s, nodes', count) && ParentsLater(count, nodes')
    requires forall m :: m in s ==> m < |nodes| && nodes[m].parent == NONE
    ensures Grafted(Up(nodes), s, Up(nodes'))
  {
    hide ListsChildren;
    UpLinks(count, nodes);
    UpLinks(count, nodes');
  }

  lemma RootedLoops(g: Graph, back: seq<bool>, nodes: seq<Node>, s: set<nat>, nodes': seq<Node>)
    requires g.Valid() && Forest(g, back, nodes) && Rooted(nodes, s, nodes', g.Count()) && ParentsLater(g.Count(), nodes')
    requires forall m :: m in s ==> m < |nodes| && nodes[m].parent == NONE
    ensures forall l: nat, b: nat :: g.Count() <= l < |nodes| && b < g.Count() ==>
              (UnderNode(g.Count(), nodes', b, l) <==> InLoop(g, back, nodes'[l].entry, b))
  {
    hide InLoop, Graph.Valid, ListsChildren;
    UpLinks(g.Count(), nodes);
    UpLinks(g.Count(), nodes');
    RootedUp(g.Count(), nodes, s, nodes');
    forall l: nat, b: nat | g.Count() <= l < |nodes| && b < g.Count()
      ensures UnderNode(g.Count(), nodes', b, l) <==> InLoop(g, back, nodes'[l].entry, b)
    {
      assert LoopAt(g, back, nodes, l);
      GraftTop(Up(nodes), s, Up(nodes'), b);
    }
  }

  lemma HeadersKept(g: Graph, n: Numbering, headers: seq<nat>, nodes: seq<Node>, s: set<nat>, nodes': seq<Node>, h: nat)
    requires g.Valid() && Building(g, n, headers, |headers|, nodes) && h in headers
    requires Rooted(nodes, s, nodes', g.Count())
    ensures (exists l :: g.Count() <= l < |nodes| && nodes'[l].entry == h) <==> !InLoop(g, n.back, h, ENTRY)
  {
    hide InLoop, Graph.Valid, Forest;
    assert headers[..|headers|] == headers;
    if HasLoop(g, nodes, h) {
      var l :| g.Count() <= l < |nodes| && nodes[l].entry == h;
      assert nodes'[l].entry == h;
    }
    forall l | g.Count() <= l < |nodes| && nodes'[l].entry == h
      ensures HasLoop(g, nodes, h)
    {
      assert nodes[l].entry == h;
    }
  }

  lemma EntriesKept(g: Graph, n: Numbering, headers: seq<nat>, nodes: seq<Node>, s: set<nat>, nodes': seq<Node>)
    requires g.Valid() && Building(g, n, headers, |headers|, nodes) && Rooted(nodes, s, nodes', g.Count())
    requires forall h: nat :: h in headers <==> IsHeader(g, n.back, h)
    ensures |nodes'| == |nodes| + 1 && g.Count() <= |nodes|
    ensures forall l, k :: g.Count() <= l < k < |nodes| ==> nodes'[l].entry != nodes'[k].entry
    ensures forall l :: g.Count() <= l < |nodes| ==> IsHeader(g, n.back, nodes'[l].entry)
    ensures forall b :: 0 <= b < g.Count() ==> nodes'[b].block == b
    ensures forall l :: g.Count() <= l < |nodes| ==> nodes'[l].block == NONE && nodes'[l].entry < g.Count()
  {
    hide InLoop, Graph.Valid, Exact, ListsChildren, IsHeader, ParentsLater, HasLoop;
    assert headers[..|headers|] == headers;
    assert forall l :: g.Count() <= l < |nodes| ==> nodes'[l].entry == nodes[l].entry;
  }

  lemma TreeFinished(g: Graph, n: Numbering, headers: seq<nat>, nodes: seq<Node>, s: set<nat>, nodes': seq<Node>)
    requires g.Valid() && Building(g, n, headers, |headers|, nodes) && Shaped(g.Count(), nodes)
    requires forall h: nat :: h in headers <==> IsHeader(g, n.back, h)
    requires Rooted(nodes, s, nodes', g.Count()) && TopsUpTo(g.Count(), nodes, s, g.Count())
    ensures IsLoopTree(g, n.back, LoopTree(nodes', |nodes|))
  {
    hide InLoop, Graph.Valid, Forest, Shaped, ListsChildren, TopsUpTo, UnderNode, IsHeader, ParentsLater;
    TopsAreRoots(g, n.back, nodes, s);
    RootedShape(g.Count(), nodes, s, nodes');
    RootedLoops(g, n.back, nodes, s, nodes');
    EntriesKept(g, n, headers, nodes, s, nodes');
    forall h: nat | IsHeader(g, n.back, h)
      ensures (exists l :: g.Count() <= l < |nodes| && nodes'[l].entry == h) <==> !InLoop(g, n.back, h, ENTRY)
    {
      HeadersKept(g, n, headers, nodes, s, nodes', h);
    }
  }

  /** The whole analysis. */
  method AnalyzeLoops(g: Graph) returns (n: Numbering, tree: LoopTree)
    requires g.Valid()
    ensures Numbers(g, n) && IsLoopTree(g, n.back, tree)
  {
    hide Numbers, Building, Represents, Graph.Valid, IsLoopTree, IsHeader, TopsUpTo, Rooted;
    n := Enumerate(g);
    var found := FindHeaders(g, n);
    var headers := SortHeaders(g, n, found);
    assert forall h: nat :: h in headers ==> IsHeader(g, n.back, h);
    var nodes, roots := BuildLoops(g, n, headers);
    ghost var s;
    ShapeOfBuilding(g, n, headers, nodes);
    var nodes';
    nodes', s := AddRoot(g.Count(), nodes, roots);
    TreeFinished(g, n, headers, nodes, s, nodes');
    tree := LoopTree(nodes', |nodes|);
  }

  lemma ShapeOfBuilding(g: Graph, n: Numbering, headers: seq<nat>, nodes: seq<Node>)
    requires g.Valid() && Building(g, n, headers, |headers|, nodes)
    ensures Shaped(g.Count(), nodes)
  {
  }

  // ----- depths -----

  ghost predicate ParentsUp(nodes: seq<Node>, root: nat)
  {
    && root == |nodes| - 1 && nodes[root].parent == NONE
    && forall n :: 0 <= n < root ==> n < nodes[n].parent <= root
  }

  /** Ancestors strictly between a node and the root. */
  ghost function DepthOf(nodes: seq<Node>, root: nat, n: nat): nat
    requires ParentsUp(nodes, root) && n <= root
    decreases root - n
  {
    if n == root || nodes[n].parent == root then 0 else 1 + DepthOf(nodes, root, nodes[n].parent)
  }

  /** One block's depth, by walking its ancestors. */
  method Depth(tree: LoopTree, block: nat) returns (depth: nat)
    requires ParentsUp(tree.nodes, tree.root)
    ensures block < |tree.nodes| && tree.nodes[block].block == block ==> depth == DepthOf(tree.nodes, tree.root, block)
    ensures block >= |tree.nodes| || tree.nodes[block].block != block ==> depth == 0
  {
    depth := 0;
    if block >= |tree.nodes| || tree.nodes[block].block != block {
      return;
    }
    var parent := tree.nodes[block].parent;
    ghost var n := block;
    while parent != NONE && parent != tree.root
      invariant n <= tree.root && parent == tree.nodes[n].parent
      invariant depth + DepthOf(tree.nodes, tree.root, n) == DepthOf(tree.nodes, tree.root, block)
      decreases tree.root - n
    {
      depth := depth + 1;
      n := parent;
      parent := tree.nodes[parent].parent;
    }
  }

  /** All depths in one pass from the root down: parents come after their children. */
  method Depths(tree: LoopTree, count: nat) returns (depth: seq<nat>)
    requires ParentsUp(tree.nodes, tree.root) && count <= tree.root
    requires forall b :: 0 <= b < count ==> tree.nodes[b].block == b
    requires forall n :: count <= n < |tree.nodes| ==> tree.nodes[n].block == NONE
    ensures |depth| == count
    ensures forall b: nat :: b < count ==> depth[b] == DepthOf(tree.nodes, tree.root, b)
  {
    var depths := seq<nat>(|tree.nodes|, _ => 0);
    depth := seq<nat>(count, _ => 0);
    var n := |tree.nodes|;
    while 0 < n
      invariant 0 <= n <= |tree.nodes| == |depths| && |depth| == count
      invariant forall m: nat :: n <= m < |tree.nodes| ==> depths[m] == DepthOf(tree.nodes, tree.root, m)
      invariant forall m: nat :: m < n ==> depths[m] == 0
      invariant forall b: nat :: n <= b < count ==> depth[b] == DepthOf(tree.nodes, tree.root, b)
    {
      n := n - 1;
      var node := tree.nodes[n];
      if node.parent != NONE {
        depths := depths[n := depths[node.parent] + (if node.parent != tree.root then 1 else 0)];
      }
      if node.block != NONE {
        depth := depth[node.block := depths[n]];
      }
    }
  }

  ghost function LoopsOver(g: Graph, back: seq<bool>, tree: LoopTree, b: nat): set<nat>
  {
    set l: nat | l < tree.root && l < |tree.nodes| && g.Count() <= l && InLoop(g, back, tree.nodes[l].entry, b)
  }

  ghost function Ancestors(count: nat, nodes: seq<Node>, root: nat, n: nat): set<nat>
    requires ParentsLater(count, nodes) && ParentsUp(nodes, root) && n < |nodes|
  {
    set l: nat | l < root && l != n && UnderNode(count, nodes, n, l)
  }

  lemma {:induction false} AncestorsCounted(count: nat, nodes: seq<Node>, root: nat, n: nat)
    requires ParentsLater(count, nodes) && ParentsUp(nodes, root) && n < root
    ensures |Ancestors(count, nodes, root, n)| == DepthOf(nodes, root, n)
    decreases root - n
  {
    UpLinks(count, nodes);
    var p := nodes[n].parent;
    assert Up(nodes)[n] == p;
    if p == root {
      AncestorsOfTop(count, nodes, root, n);
    } else {
      AncestorsCounted(count, nodes, root, p);
      AncestorsStep(count, nodes, root, n, p);
      assert p !in Ancestors(count, nodes, root, p);
    }
  }

  lemma AncestorsOfTop(count: nat, nodes: seq<Node>, root: nat, n: nat)
    requires ParentsLater(count, nodes) && ParentsUp(nodes, root) && n < root && nodes[n].parent == root
    ensures Ancestors(count, nodes, root, n) == {}
  {
    UpLinks(count, nodes);
    forall l: nat | l < root && l != n
      ensures !UnderNode(count, nodes, n, l)
    {
      assert Up(nodes)[n] == root;
      UnderTop(Up(nodes), root, l);
    }
  }

  lemma AncestorsStep(count: nat, nodes: seq<Node>, root: nat, n: nat, p: nat)
    requires ParentsLater(count, nodes) && ParentsUp(nodes, root) && n < root && nodes[n].parent == p < root
    ensures Ancestors(count, nodes, root, n) == Ancestors(count, nodes, root, p) + {p}
  {
    UpLinks(count, nodes);
    assert Up(nodes)[n] == p;
    forall l: nat | l < root
      ensures l in Ancestors(count, nodes, root, n) <==> l in Ancestors(count, nodes, root, p) + {p}
    {
      UnderTop(Up(nodes), p, l);
    }
  }

  /** A block's depth is the number of natural loops around it. */
  lemma DepthCountsLoops(g: Graph, back: seq<bool>, tree: LoopTree, b: nat)
    requires g.Valid() && IsLoopTree(g, back, tree) && b < g.Count()
    ensures ParentsUp(tree.nodes, tree.root)
    ensures DepthOf(tree.nodes, tree.root, b) == |LoopsOver(g, back, tree, b)|
  {
    hide InLoop, Graph.Valid, ListsChildren, UnderNode, IsHeader;
    AncestorsCounted(g.Count(), tree.nodes, tree.root, b);
    forall l: nat | l < tree.root && l != b && UnderNode(g.Count(), tree.nodes, b, l)
      ensures l >= g.Count()
    {
      ProperAncestorIsLoop(g.Count(), tree.nodes, b, l);
    }
    assert Ancestors(g.Count(), tree.nodes, tree.root, b) == LoopsOver(g, back, tree, b);
  }

  lemma ProperAncestorIsLoop(count: nat, nodes: seq<Node>, n: nat, l: nat)
    requires ParentsLater(count, nodes) && n < |nodes| && UnderNode(count, nodes, n, l) && l != n
    ensures l >= count
  {
    UpLinks(count, nodes);
    UnderTop(Up(nodes), Up(nodes)[n], l);
  }
}
