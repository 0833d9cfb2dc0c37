/** Backward data flow over sets: what solutions are, what the least one means in
    terms of paths, and two worklists that reach it. */
module DataFlow {
  import opened Finite
  import opened Graphs

  /** Facts a block generates and kills, and facts that hold at its end regardless
      of successors. */
  datatype Problem = Problem(gen: seq<set<nat>>, kill: seq<set<nat>>, boundary: seq<set<nat>>)
  {
    ghost predicate Fits(g: Graph)
    {
      g.Valid() && |gen| == |kill| == |boundary| == g.Count()
    }

    function Transfer(b: nat, out: set<nat>): set<nat>
      requires b < |gen| == |kill|
    {
      (out - kill[b]) + gen[b]
    }
  }

  ghost predicate Equation(f: Problem, b: nat, live: seq<set<nat>>, out: seq<set<nat>>)
    requires b < |f.gen| == |f.kill| == |live| == |out|
  {
    live[b] == f.Transfer(b, out[b])
  }

  ghost predicate HearsSuccessors(g: Graph, b: nat, live: seq<set<nat>>, out: seq<set<nat>>)
    requires g.Valid() && b < g.Count() == |live| == |out|
  {
    forall k :: 0 <= k < |g.outgoing[b]| ==> live[g.edges[g.outgoing[b][k]].destination] <= out[b]
  }

  ghost predicate Solves(g: Graph, f: Problem, live: seq<set<nat>>, out: seq<set<nat>>)
    requires f.Fits(g)
  {
    && |live| == |out| == g.Count()
    && (forall b :: 0 <= b < g.Count() ==> f.boundary[b] <= out[b])
    && (forall b :: 0 <= b < g.Count() ==> Equation(f, b, live, out))
    && (forall b :: 0 <= b < g.Count() ==> HearsSuccessors(g, b, live, out))
  }

  // ----- what the least solution means -----

  /** The path starts at `b`, meets no kill of `r` before its end, and its end uses
      `r` or lets the boundary's `r` through. */
  ghost predicate LivePath(g: Graph, f: Problem, p: seq<nat>, b: nat, r: nat)
    requires f.Fits(g)
  {
    && g.IsPath(p) && p[0] == b
    && (forall i :: 0 <= i < |p| - 1 ==> r !in f.kill[p[i]])
    && (r in f.gen[p[|p| - 1]] || (r in f.boundary[p[|p| - 1]] && r !in f.kill[p[|p| - 1]]))
  }

  ghost predicate LiveInto(g: Graph, f: Problem, b: nat, r: nat)
    requires f.Fits(g)
  {
    exists p :: LivePath(g, f, p, b, r)
  }

  ghost predicate LiveOutOf(g: Graph, f: Problem, b: nat, r: nat)
    requires f.Fits(g) && b < g.Count()
  {
    r in f.boundary[b] || exists c: nat :: c < g.Count() && g.Step(b, c) && LiveInto(g, f, c, r)
  }

  lemma StepIsListed(g: Graph, a: nat, b: nat)
    requires g.Valid() && a < g.Count() && b < g.Count() && g.Step(a, b)
    ensures exists k :: 0 <= k < |g.outgoing[a]| && g.edges[g.outgoing[a][k]].destination == b
  {
    var e :| 0 <= e < |g.edges| && g.edges[e] == Edge(a, b);
    var k :| 0 <= k < |g.outgoing[a]| && g.outgoing[a][k] == e;
  }

  lemma ListedIsStep(g: Graph, a: nat, k: nat)
    requires g.Valid() && a < g.Count() && k < |g.outgoing[a]|
    ensures g.Step(a, g.edges[g.outgoing[a][k]].destination)
  {
    assert g.edges[g.outgoing[a][k]] == Edge(a, g.edges[g.outgoing[a][k]].destination);
  }

  /** Every solution contains what paths demand. */
  lemma {:induction false} SolutionHoldsPaths(g: Graph, f: Problem, live: seq<set<nat>>, out: seq<set<nat>>,
                                              p: seq<nat>, b: nat, r: nat)
    requires f.Fits(g) && Solves(g, f, live, out) && LivePath(g, f, p, b, r)
    ensures r in live[b]
    decreases |p|
  {
    assert Equation(f, b, live, out);
    if |p| > 1 {
      var q := p[1..];
      assert g.Step(p[0], p[1]);
      StepIsListed(g, b, p[1]);
      PathSuffix(g, p, 1);
      SolutionHoldsPaths(g, f, live, out, q, p[1], r);
      assert HearsSuccessors(g, b, live, out);
    }
  }

  lemma LiveByTransfer(g: Graph, f: Problem, b: nat, r: nat)
    requires f.Fits(g) && b < g.Count()
    requires r in f.gen[b] || (LiveOutOf(g, f, b, r) && r !in f.kill[b])
    ensures LiveInto(g, f, b, r)
  {
    if r in f.gen[b] || r in f.boundary[b] {
      assert LivePath(g, f, [b], b, r);
    } else {
      var c: nat :| c < g.Count() && g.Step(b, c) && LiveInto(g, f, c, r);
      var p :| LivePath(g, f, p, c, r);
      LongerPath(g, f, b, r, c, p);
    }
  }

  lemma LongerPath(g: Graph, f: Problem, b: nat, r: nat, c: nat, p: seq<nat>)
    requires f.Fits(g) && b < g.Count() && g.Step(b, c) && LivePath(g, f, p, c, r) && r !in f.kill[b]
    ensures LivePath(g, f, [b] + p, b, r)
  {
    hide Graph.Valid;
    var q := [b] + p;
    assert q[|q| - 1] == p[|p| - 1];
    forall i | 0 <= i < |q| - 1
      ensures g.Step(q[i], q[i + 1]) && r !in f.kill[q[i]]
    {
      assert i > 0 ==> q[i] == p[i - 1] && q[i + 1] == p[i] && g.Step(p[i - 1], p[i]);
    }
  }

  /** Facts collected so far are all justified by paths. */
  ghost predicate Sound(g: Graph, f: Problem, live: seq<set<nat>>, out: seq<set<nat>>)
    requires f.Fits(g)
  {
    && |live| == |out| == g.Count()
    && (forall b: nat, r :: b < g.Count() && r in live[b] ==> LiveInto(g, f, b, r))
    && (forall b: nat, r :: b < g.Count() && r in out[b] ==> LiveOutOf(g, f, b, r))
    && (forall b :: 0 <= b < g.Count() ==> f.boundary[b] <= out[b])
  }

  /** A sound solution holds exactly the facts that some path demands. */
  lemma SoundSolutionIsExact(g: Graph, f: Problem, live: seq<set<nat>>, out: seq<set<nat>>)
    requires f.Fits(g) && Solves(g, f, live, out) && Sound(g, f, live, out)
    ensures forall b: nat, r :: b < g.Count() ==> (r in live[b] <==> LiveInto(g, f, b, r))
    ensures forall b: nat, r :: b < g.Count() ==> (r in out[b] <==> LiveOutOf(g, f, b, r))
  {
    hide Solves, LiveInto, LiveOutOf;
    forall b: nat, r | b < g.Count()
      ensures LiveInto(g, f, b, r) ==> r in live[b]
      ensures LiveOutOf(g, f, b, r) ==> r in out[b]
    {
      HoldsDemanded(g, f, live, out, b, r);
    }
  }

  /** It lies below every other solution. */
  lemma SoundSolutionIsLeast(g: Graph, f: Problem, live: seq<set<nat>>, out: seq<set<nat>>,
                             live': seq<set<nat>>, out': seq<set<nat>>)
    requires f.Fits(g) && Sound(g, f, live, out) && Solves(g, f, live', out')
    requires |live'| == |out'| == g.Count()
    ensures forall b: nat :: b < g.Count() ==> live[b] <= live'[b] && out[b] <= out'[b]
  {
    hide Solves, LiveInto, LiveOutOf;
    forall b: nat, r | b < g.Count()
      ensures r in live[b] ==> r in live'[b]
      ensures r in out[b] ==> r in out'[b]
    {
      HoldsDemanded(g, f, live', out', b, r);
    }
  }

  lemma HoldsDemanded(g: Graph, f: Problem, live: seq<set<nat>>, out: seq<set<nat>>, b: nat, r: nat)
    requires f.Fits(g) && Solves(g, f, live, out) && b < g.Count()
    ensures LiveInto(g, f, b, r) ==> r in live[b]
    ensures LiveOutOf(g, f, b, r) ==> r in out[b]
  {
    if LiveInto(g, f, b, r) {
      var p :| LivePath(g, f, p, b, r);
      SolutionHoldsPaths(g, f, live, out, p, b, r);
    }
    if LiveOutOf(g, f, b, r) && r !in f.boundary[b] {
      var c: nat :| c < g.Count() && g.Step(b, c) && LiveInto(g, f, c, r);
      var p :| LivePath(g, f, p, c, r);
      SolutionHoldsPaths(g, f, live, out, p, c, r);
      StepIsListed(g, b, c);
      assert HearsSuccessors(g, b, live, out);
    }
  }

  // ----- the measure -----

  ghost function Universe(f: Problem): set<nat>
  {
    (set b: nat, r | b < |f.gen| && r in f.gen[b] :: r) + (set b: nat, r | b < |f.boundary| && r in f.boundary[b] :: r)
  }

  /** Facts that blocks may still gain. */
  ghost function Missing(universe: set<nat>, live: seq<set<nat>>): nat
  {
    if live == [] then 0 else |universe - live[0]| + Missing(universe, live[1..])
  }

  lemma {:induction false} GrowthDropsMissing(universe: set<nat>, live: seq<set<nat>>, b: nat, more: set<nat>)
    requires b < |live| && live[b] < more <= universe
    ensures Missing(universe, live[b := more]) < Missing(universe, live)
    decreases |live|
  {
    if b == 0 {
      assert live[b := more][1..] == live[1..];
      var r :| r in more && r !in live[0];
      assert universe - more < universe - live[0];
      SubsetSmaller(universe - more, universe - live[0]);
    } else {
      assert live[b := more][1..] == live[1..][b - 1 := more];
      GrowthDropsMissing(universe, live[1..], b - 1, more);
    }
  }

  // ----- one visit -----

  /** What both worklists keep: sound facts inside the universe, a transfer that
      only grows, and equations for the blocks in `done`. */
  ghost predicate Flowing(g: Graph, f: Problem, live: seq<set<nat>>, out: seq<set<nat>>, done: set<nat>)
    requires f.Fits(g)
  {
    && Sound(g, f, live, out)
    && (forall b :: 0 <= b < g.Count() ==> live[b] <= f.Transfer(b, out[b]))
    && (forall b :: 0 <= b < g.Count() ==> out[b] <= Universe(f))
    && (forall b :: 0 <= b < g.Count() && b in done ==> Equation(f, b, live, out) && HearsSuccessors(g, b, live, out))
  }

  lemma StartFlowing(g: Graph, f: Problem, live: seq<set<nat>>)
    requires f.Fits(g) && live == seq(g.Count(), _ => {})
    ensures Flowing(g, f, live, f.boundary, {})
  {
    hide LiveInto;
  }

  /** Gather what the successors need; returns the grown out-facts of `b`. */
  method GatherSuccessors(g: Graph, f: Problem, live: seq<set<nat>>, out: seq<set<nat>>, b: nat, ghost done: set<nat>)
      returns (gathered: set<nat>)
    requires f.Fits(g) && b < g.Count() && Flowing(g, f, live, out, done)
    ensures out[b] <= gathered <= Universe(f)
    ensures forall k :: 0 <= k < |g.outgoing[b]| ==> live[g.edges[g.outgoing[b][k]].destination] <= gathered
    ensures forall r :: r in gathered ==> LiveOutOf(g, f, b, r)
  {
    hide LiveInto, LiveOutOf;
    gathered := out[b];
    for k := 0 to |g.outgoing[b]|
      invariant out[b] <= gathered <= Universe(f)
      invariant forall j :: 0 <= j < k ==> live[g.edges[g.outgoing[b][j]].destination] <= gathered
      invariant forall r :: r in gathered ==> LiveOutOf(g, f, b, r)
    {
      var c := g.edges[g.outgoing[b][k]].destination;
      ListedIsStep(g, b, k);
      LiveInUniverse(g, f, live, out, c, done);
      LiveOutByStep(g, f, b, c, live[c]);
      gathered := gathered + live[c];
    }
  }

  lemma LiveInUniverse(g: Graph, f: Problem, live: seq<set<nat>>, out: seq<set<nat>>, c: nat, done: set<nat>)
    requires f.Fits(g) && c < g.Count() && Flowing(g, f, live, out, done)
    ensures live[c] <= Universe(f)
    ensures forall r :: r in live[c] ==> LiveInto(g, f, c, r)
  {
    hide LiveInto, LiveOutOf;
    GenInUniverse(f, c);
  }

  lemma GenInUniverse(f: Problem, c: nat)
    requires c < |f.gen|
    ensures f.gen[c] <= Universe(f)
  {
  }

  lemma LiveOutByStep(g: Graph, f: Problem, b: nat, c: nat, facts: set<nat>)
    requires f.Fits(g) && b < g.Count() && c < g.Count() && g.Step(b, c)
    requires forall r :: r in facts ==> LiveInto(g, f, c, r)
    ensures forall r :: r in facts ==> LiveOutOf(g, f, b, r)
  {
    hide LiveInto;
  }

  lemma VisitGrows(g: Graph, f: Problem, live: seq<set<nat>>, out: seq<set<nat>>, done: set<nat>, b: nat,
                   gathered: set<nat>, next: set<nat>)
    requires f.Fits(g) && b < g.Count() && Flowing(g, f, live, out, done)
    requires out[b] <= gathered <= Universe(f)
    requires forall r :: r in gathered ==> LiveOutOf(g, f, b, r)
    requires next == f.Transfer(b, gathered)
    ensures live[b] <= next <= Universe(f)
    ensures forall r :: r in next ==> LiveInto(g, f, b, r)
  {
    hide LiveInto, LiveOutOf;
    GenInUniverse(f, b);
    forall r | r in next
      ensures LiveInto(g, f, b, r)
    {
      LiveByTransfer(g, f, b, r);
    }
  }

  /** No block of `done` has an edge to `b`. */
  ghost predicate NoPredecessor(g: Graph, b: nat, done: set<nat>)
    requires g.Valid() && b < g.Count()
  {
    forall k :: 0 <= k < |g.incoming[b]| ==> g.edges[g.incoming[b][k]].source !in done
  }

  lemma VisitKeepsFlowing(g: Graph, f: Problem, live: seq<set<nat>>, out: seq<set<nat>>, done: set<nat>, b: nat,
                            gathered: set<nat>, next: set<nat>, done': set<nat>)
    requires f.Fits(g) && b < g.Count() && Flowing(g, f, live, out, done)
    requires out[b] <= gathered <= Universe(f)
    requires forall k :: 0 <= k < |g.outgoing[b]| ==> live[g.edges[g.outgoing[b][k]].destination] <= gathered
    requires forall r :: r in gathered ==> LiveOutOf(g, f, b, r)
    requires forall r :: r in next ==> LiveInto(g, f, b, r)
    requires next == f.Transfer(b, gathered)
    requires (forall c :: c in done' && c != b ==> c in done) && (next == live[b] || NoPredecessor(g, b, done'))
    ensures Flowing(g, f, live[b := next], out[b := gathered], done')
  {
    hide LiveInto, LiveOutOf, Universe;
    var live', out' := live[b := next], out[b := gathered];
    forall c | 0 <= c < g.Count() && c in done'
      ensures Equation(f, c, live', out') && HearsSuccessors(g, c, live', out')
    {
      forall k | 0 <= k < |g.outgoing[c]|
        ensures live'[g.edges[g.outgoing[c][k]].destination] <= out'[c]
      {
        var e := g.outgoing[c][k];
        if g.edges[e].destination == b {
          assert e in g.incoming[b];
          assert next == live[b];
        }
      }
    }
  }

  lemma AllDoneSolves(g: Graph, f: Problem, live: seq<set<nat>>, out: seq<set<nat>>, done: set<nat>)
    requires f.Fits(g) && Flowing(g, f, live, out, done) && forall b: nat :: b < g.Count() ==> b in done
    ensures Solves(g, f, live, out) && Sound(g, f, live, out)
  {
    hide LiveInto, LiveOutOf;
  }

  // ----- a ring buffer of pending blocks -----

  /** A first-in first-out queue in one cell more than there are blocks. */
  datatype Ring = Ring(cells: seq<nat>, head: nat, tail: nat, pending: nat, queued: seq<bool>)

  function Wrap(at: nat, size: nat): nat
  {
    if at < size then at else at - size
  }

  /** The ring holds `contents`, in order, and its flags say what is queued. */
  ghost predicate Queues(q: Ring, contents: seq<nat>, count: nat)
  {
    && |q.cells| == count + 1 && |q.queued| == count
    && q.pending == |contents|
    && q.head <= count && q.tail <= count && |contents| <= count
    && q.tail == Wrap(q.head + |contents|, count + 1)
    && (forall i :: 0 <= i < |contents| ==>
          contents[i] < count && q.cells[Wrap(q.head + i, count + 1)] == contents[i])
    && (forall i, j :: 0 <= i < j < |contents| ==> contents[i] != contents[j])
    && (forall b: nat :: b < count ==> (q.queued[b] <==> b in contents))
  }

  method Dequeue(q: Ring, ghost contents: seq<nat>, count: nat) returns (b: nat, q': Ring)
    requires Queues(q, contents, count) && q.pending > 0
    ensures b == contents[0] && b < count && Queues(q', contents[1..], count)
    ensures q'.pending == q.pending - 1
  {
    assert q.cells[Wrap(q.head + 0, count + 1)] == contents[0];
    b := q.cells[q.head];
    var head := if q.head + 1 == |q.cells| then 0 else q.head + 1;
    q' := Ring(q.cells, head, q.tail, q.pending - 1, q.queued[b := false]);
    DequeuedCells(q, contents, count, head);
    DequeuedFlags(q, contents, count);
  }

  lemma DequeuedCells(q: Ring, contents: seq<nat>, count: nat, head: nat)
    requires Queues(q, contents, count) && contents != [] && head == Wrap(q.head + 1, count + 1)
    ensures forall i :: 0 <= i < |contents[1..]| ==>
              contents[1..][i] < count && q.cells[Wrap(head + i, count + 1)] == contents[1..][i]
  {
    forall i | 0 <= i < |contents[1..]|
      ensures contents[1..][i] < count && q.cells[Wrap(head + i, count + 1)] == contents[1..][i]
    {
      assert contents[1..][i] == contents[i + 1];
      assert Wrap(head + i, count + 1) == Wrap(q.head + (i + 1), count + 1);
    }
  }

  lemma DequeuedFlags(q: Ring, contents: seq<nat>, count: nat)
    requires Queues(q, contents, count) && contents != []
    ensures forall b: nat :: b < count ==> (q.queued[contents[0] := false][b] <==> b in contents[1..])
  {
    assert contents == [contents[0]] + contents[1..];
  }

  /** Never overflows: a block that is not queued leaves a free cell. */
  method Enqueue(q: Ring, ghost contents: seq<nat>, count: nat, b: nat) returns (q': Ring)
    requires Queues(q, contents, count) && b < count && !q.queued[b]
    ensures Queues(q', contents + [b], count)
    ensures q'.pending == q.pending + 1
  {
    RoomForOne(contents, count, b);
    var tail := if q.tail + 1 == |q.cells| then 0 else q.tail + 1;
    q' := Ring(q.cells[q.tail := b], q.head, tail, q.pending + 1, q.queued[b := true]);
  }

  /** Every block once. */
  ghost predicate Lists(order: seq<nat>, count: nat)
  {
    && |order| == count
    && (forall i :: 0 <= i < |order| ==> order[i] < count)
    && (forall i, j :: 0 <= i < j < |order| ==> order[i] != order[j])
    && (forall b: nat :: b < count ==> b in order)
  }

  /** Queue the predecessors of `b` that are not queued yet. */
  method EnqueuePredecessors(g: Graph, q: Ring, ghost contents: seq<nat>, b: nat)
      returns (q': Ring, ghost contents': seq<nat>)
    requires g.Valid() && b < g.Count() && Queues(q, contents, g.Count())
    ensures Queues(q', contents', g.Count())
    ensures forall c :: c in contents ==> c in contents'
    ensures forall k :: 0 <= k < |g.incoming[b]| ==> g.edges[g.incoming[b][k]].source in contents'
  {
    hide Queues;
    q', contents' := q, contents;
    QueueFlags(q', contents', g.Count());
    for k := 0 to |g.incoming[b]|
      invariant Queues(q', contents', g.Count()) && |q'.queued| == g.Count()
      invariant forall c :: c in contents ==> c in contents'
      invariant forall j :: 0 <= j < k ==> g.edges[g.incoming[b][j]].source in contents'
    {
      var pred := g.edges[g.incoming[b][k]].source;
      QueueFlags(q', contents', g.Count());
      if !q'.queued[pred] {
        q' := Enqueue(q', contents', g.Count(), pred);
        contents' := contents' + [pred];
        QueueFlags(q', contents', g.Count());
      }
    }
  }

  lemma QueueFlags(q: Ring, contents: seq<nat>, count: nat)
    requires Queues(q, contents, count)
    ensures |q.queued| == count && forall b: nat :: b < count ==> (q.queued[b] <==> b in contents)
    ensures q.pending == |contents| && forall c :: c in contents ==> c < count
  {
  }

  ghost function Unqueued(contents: seq<nat>, count: nat): set<nat>
  {
    set b: nat | b < count && b !in contents
  }

  /** Visit pending blocks in queue order until none is left. */
  method RingWorklist(g: Graph, f: Problem, order: seq<nat>) returns (live: seq<set<nat>>, out: seq<set<nat>>)
    requires f.Fits(g) && Lists(order, g.Count())
    ensures Solves(g, f, live, out) && Sound(g, f, live, out)
  {
    hide Flowing, Queues, Solves, Sound, NoPredecessor, Universe, LiveOutOf, LiveInto;
    var count := g.Count();
    live := seq(count, _ => {});
    out := f.boundary;
    var q := Ring(order + [0], 0, count, count, seq(count, _ => true));
    ghost var contents := order;
    StartQueue(q, order, count);
    StartFlowing(g, f, live);
    NothingUnqueued(order, count);
    while q.pending > 0
      invariant Queues(q, contents, count) && |live| == |out| == count
      invariant Flowing(g, f, live, out, Unqueued(contents, count))
      decreases Missing(Universe(f), live), q.pending
    {
      ghost var done := Unqueued(contents, count);
      var b;
      QueueFlags(q, contents, count);
      b, q := Dequeue(q, contents, count);
      contents := contents[1..];
      var gathered := GatherSuccessors(g, f, live, out, b, done);
      var next := f.Transfer(b, gathered);
      VisitGrows(g, f, live, out, done, b, gathered, next);
      if next != live[b] {
        ghost var before := contents;
        q, contents := EnqueuePredecessors(g, q, contents, b);
        AllPredecessorsQueued(g, b, contents);
        GrowthDropsMissing(Universe(f), live, b, next);
      }
      VisitKeepsFlowing(g, f, live, out, done, b, gathered, next, Unqueued(contents, count));
      out := out[b := gathered];
      assert next == live[b] ==> live[b := next] == live;
      live := live[b := next];
    }
    QueueFlags(q, contents, count);
    AllDoneSolves(g, f, live, out, Unqueued(contents, count));
  }

  lemma StartQueue(q: Ring, order: seq<nat>, count: nat)
    requires Lists(order, count)
    requires q == Ring(order + [0], 0, count, count, seq(count, _ => true))
    ensures Queues(q, order, count)
  {
  }

  lemma NothingUnqueued(order: seq<nat>, count: nat)
    requires Lists(order, count)
    ensures Unqueued(order, count) == {}
  {
  }

  lemma AllPredecessorsQueued(g: Graph, b: nat, contents: seq<nat>)
    requires g.Valid() && b < g.Count()
    requires forall k :: 0 <= k < |g.incoming[b]| ==> g.edges[g.incoming[b][k]].source in contents
    ensures NoPredecessor(g, b, Unqueued(contents, g.Count()))
  {
  }
}
