/** Register liveness: block summaries in both scan directions, and the analysis of
    the machine code generator, which swaps two worklists between epochs. */
module Liveness {
  import opened Graphs
  import opened DataFlow
  import opened MachineCode

  // ----- block summaries -----

  /** A summary acts on any out-facts as the instructions do one by one. */
  ghost predicate Summarizes(gen: set<nat>, kill: set<nat>, body: seq<Inst>, scan: set<nat>)
  {
    forall out :: out <= scan ==> (out - kill) + gen == LiveIn(body, scan, out)
  }

  /** Reverse scan: definitions leave `gen` and join `kill`, then uses join `gen`. */
  method SummarizeBackward(body: seq<Inst>, scan: set<nat>) returns (gen: set<nat>, kill: set<nat>)
    ensures Summarizes(gen, kill, body, scan) && gen <= scan
  {
    gen, kill := {}, {};
    var at := |body|;
    assert body[at..] == [];
    while 0 < at
      invariant 0 <= at <= |body| && gen <= scan
      invariant Summarizes(gen, kill, body[at..], scan)
    {
      at := at - 1;
      assert body[at..][0] == body[at] && body[at..][1..] == body[at + 1..];
      ghost var gen', kill' := gen, kill;
      var def := DefSet(body[at]) * scan;
      gen := gen - def;
      kill := kill + def;
      gen := gen + UseSet(body[at]) * scan;
      PrependSummary(gen', kill', body[at], body[at + 1..], scan, gen, kill);
      assert [body[at]] + body[at + 1..] == body[at..];
    }
    assert body[0..] == body;
  }

  lemma PrependSummary(gen: set<nat>, kill: set<nat>, i: Inst, rest: seq<Inst>, scan: set<nat>,
                       gen': set<nat>, kill': set<nat>)
    requires Summarizes(gen, kill, rest, scan) && gen <= scan
    requires gen' == (gen - DefSet(i) * scan) + UseSet(i) * scan && kill' == kill + DefSet(i) * scan
    ensures Summarizes(gen', kill', [i] + rest, scan)
  {
    forall out | out <= scan
      ensures (out - kill') + gen' == LiveIn([i] + rest, scan, out)
    {
      assert ([i] + rest)[1..] == rest;
      assert LiveIn(rest, scan, out) == (out - kill) + gen;
    }
  }

  /** Forward scan: a use counts unless an earlier definition killed the register. */
  method SummarizeForward(body: seq<Inst>, scan: set<nat>) returns (gen: set<nat>, kill: set<nat>)
    ensures Summarizes(gen, kill, body, scan) && gen <= scan
  {
    gen, kill := {}, {};
    var at := 0;
    assert body[..0] == [];
    while at < |body|
      invariant 0 <= at <= |body| && gen <= scan
      invariant Summarizes(gen, kill, body[..at], scan)
    {
      ghost var gen', kill' := gen, kill;
      gen := gen + (UseSet(body[at]) * scan - kill);
      kill := kill + DefSet(body[at]) * scan;
      AppendSummary(gen', kill', body[at], body[..at], scan, gen, kill);
      at := at + 1;
      assert body[..at] == body[..at - 1] + [body[at - 1]];
    }
    assert body[..at] == body;
  }

  lemma {:induction false} LiveInAppend(body: seq<Inst>, i: Inst, scan: set<nat>, out: set<nat>)
    ensures LiveIn(body + [i], scan, out) == LiveIn(body, scan, LiveBefore(i, scan, out))
    decreases |body|
  {
    if body != [] {
      assert (body + [i])[1..] == body[1..] + [i];
      LiveInAppend(body[1..], i, scan, out);
    } else {
      assert [i][1..] == [];
      assert LiveIn([i], scan, out) == LiveBefore(i, scan, LiveIn([], scan, out));
      assert body + [i] == [i];
    }
  }

  lemma AppendSummary(gen: set<nat>, kill: set<nat>, i: Inst, body: seq<Inst>, scan: set<nat>,
                      gen': set<nat>, kill': set<nat>)
    requires Summarizes(gen, kill, body, scan)
    requires gen' == gen + (UseSet(i) * scan - kill) && kill' == kill + DefSet(i) * scan
    ensures Summarizes(gen', kill', body + [i], scan)
  {
    forall out | out <= scan
      ensures (out - kill') + gen' == LiveIn(body + [i], scan, out)
    {
      hide LiveIn;
      LiveInAppend(body, i, scan, out);
      var before := LiveBefore(i, scan, out);
      assert before <= scan;
      assert LiveIn(body, scan, before) == (before - kill) + gen;
    }
  }

  ghost predicate SummarizesProgram(f: Problem, p: Program, scan: set<nat>)
    requires p.Valid()
  {
    && f.Fits(p.graph)
    && (forall b :: 0 <= b < p.graph.Count() ==> Summarizes(f.gen[b], f.kill[b], p.bodies[b], scan))
    && (forall b :: 0 <= b < p.graph.Count() ==> f.gen[b] <= scan && f.boundary[b] == {})
  }

  method Summarize(p: Program, scan: set<nat>) returns (f: Problem)
    requires p.Valid()
    ensures SummarizesProgram(f, p, scan)
  {
    var gen, kill, none := [], [], [];
    for b := 0 to p.graph.Count()
      invariant |gen| == |kill| == |none| == b
      invariant forall c :: 0 <= c < b ==> Summarizes(gen[c], kill[c], p.bodies[c], scan) && gen[c] <= scan && none[c] == {}
    {
      var generated, killed := SummarizeBackward(p.bodies[b], scan);
      gen, kill, none := gen + [generated], kill + [killed], none + [{}];
    }
    f := Problem(gen, kill, none);
  }

  // ----- two swapped worklists -----

  /** Blocks whose equations are known to hold: those in neither list. */
  ghost function Elsewhere(work: seq<nat>, at: nat, pending: seq<nat>, count: nat): set<nat>
    requires at <= |work|
  {
    set b: nat | b < count && b !in work[at..] && b !in pending
  }

  /** Sorting permutes the list; the order affects the number of epochs, not the result. */
  ghost predicate SameBlocks(a: seq<nat>, b: seq<nat>)
  {
    |a| == |b| && forall c :: c in a <==> c in b
  }

  /** Highest rank first. */
  ghost predicate ByRank(rank: seq<nat>, sorted: seq<nat>)
  {
    && (forall i :: 0 <= i < |sorted| ==> sorted[i] < |rank|)
    && forall i, j :: 0 <= i < j < |sorted| ==> rank[sorted[i]] >= rank[sorted[j]]
  }

  lemma NothingRanked(rank: seq<nat>)
    ensures ByRank(rank, [])
  {
  }

  lemma InsertByRank(rank: seq<nat>, sorted: seq<nat>, at: nat, b: nat)
    requires ByRank(rank, sorted) && at <= |sorted| && b < |rank|
    requires forall i :: at <= i < |sorted| ==> rank[sorted[i]] < rank[b]
    requires at > 0 ==> rank[sorted[at - 1]] >= rank[b]
    ensures ByRank(rank, sorted[..at] + [b] + sorted[at..])
  {
    var s := sorted[..at] + [b] + sorted[at..];
    forall i, j | 0 <= i < j < |s|
      ensures s[i] < |rank| && s[j] < |rank| && rank[s[i]] >= rank[s[j]]
    {
      assert i < at ==> s[i] == sorted[i];
      assert i > at ==> s[i] == sorted[i - 1];
      assert j < at ==> s[j] == sorted[j];
      assert j > at ==> s[j] == sorted[j - 1];
    }
    assert forall i :: 0 <= i < |s| ==> s[i] in sorted || s[i] == b;
  }

  method SortWork(work: seq<nat>, rank: seq<nat>) returns (sorted: seq<nat>)
    requires forall i :: 0 <= i < |work| ==> work[i] < |rank|
    ensures SameBlocks(work, sorted) && forall i :: 0 <= i < |sorted| ==> sorted[i] < |rank|
    ensures ByRank(rank, sorted)
  {
    sorted := [];
    hide ByRank;
    assert ByRank(rank, sorted) by { NothingRanked(rank); }
    for n := 0 to |work|
      invariant SameBlocks(work[..n], sorted)
      invariant forall i :: 0 <= i < |sorted| ==> sorted[i] < |rank|
      invariant ByRank(rank, sorted)
    {
      var at := |sorted|;
      while 0 < at && rank[sorted[at - 1]] < rank[work[n]]
        invariant 0 <= at <= |sorted|
        invariant forall i :: at <= i < |sorted| ==> rank[sorted[i]] < rank[work[n]]
      {
        at := at - 1;
      }
      InsertByRank(rank, sorted, at, work[n]);
      assert sorted == sorted[..at] + sorted[at..];
      assert work[..n + 1] == work[..n] + [work[n]];
      sorted := sorted[..at] + [work[n]] + sorted[at..];
    }
    assert work[..|work|] == work;
  }

  /** Grow the out-facts of `b`; says whether they changed. */
  method UnionSuccessors(g: Graph, f: Problem, live: seq<set<nat>>, out: seq<set<nat>>, b: nat, ghost done: set<nat>)
      returns (gathered: set<nat>, changed: bool)
    requires f.Fits(g) && b < g.Count() && Flowing(g, f, live, out, done)
    ensures out[b] <= gathered <= Universe(f)
    ensures changed <==> gathered != out[b]
    ensures forall k :: 0 <= k < |g.outgoing[b]| ==> live[g.edges[g.outgoing[b][k]].destination] <= gathered
    ensures forall r :: r in gathered ==> LiveOutOf(g, f, b, r)
  {
    gathered := GatherSuccessors(g, f, live, out, b, done);
    changed := gathered != out[b];
  }

  /** Schedule each predecessor once per epoch. */
  method SchedulePredecessors(g: Graph, pending: seq<nat>, scheduled: seq<nat>, epoch: nat, b: nat)
      returns (pending': seq<nat>, scheduled': seq<nat>)
    requires g.Valid() && b < g.Count() == |scheduled|
    requires forall i :: 0 <= i < |pending| ==> pending[i] < g.Count()
    requires forall c: nat :: c < g.Count() && scheduled[c] == epoch ==> c in pending
    ensures |scheduled'| == g.Count()
    ensures forall i :: 0 <= i < |pending'| ==> pending'[i] < g.Count()
    ensures forall c: nat :: c < g.Count() && scheduled'[c] == epoch ==> c in pending'
    ensures forall c: nat :: c < g.Count() && scheduled'[c] != epoch ==> scheduled'[c] == scheduled[c]
    ensures forall c :: c in pending ==> c in pending'
    ensures forall k :: 0 <= k < |g.incoming[b]| ==> g.edges[g.incoming[b][k]].source in pending'
  {
    pending', scheduled' := pending, scheduled;
    for k := 0 to |g.incoming[b]|
      invariant |scheduled'| == g.Count()
      invariant forall i :: 0 <= i < |pending'| ==> pending'[i] < g.Count()
      invariant forall c: nat :: c < g.Count() && scheduled'[c] == epoch ==> c in pending'
      invariant forall c: nat :: c < g.Count() && scheduled'[c] != epoch ==> scheduled'[c] == scheduled[c]
      invariant forall c :: c in pending ==> c in pending'
      invariant forall j :: 0 <= j < k ==> g.edges[g.incoming[b][j]].source in pending'
    {
      var p := g.edges[g.incoming[b][k]].source;
      if scheduled'[p] != epoch {
        scheduled' := scheduled'[p := epoch];
        pending' := pending' + [p];
      }
    }
  }

  lemma ElsewhereStep(g: Graph, work: seq<nat>, at: nat, pending: seq<nat>, pending': seq<nat>)
    requires g.Valid() && at < |work| && work[at] < g.Count()
    requires forall c :: c in pending ==> c in pending'
    ensures forall c :: c in Elsewhere(work, at + 1, pending', g.Count()) && c != work[at] ==>
              c in Elsewhere(work, at, pending, g.Count())
    ensures (forall k :: 0 <= k < |g.incoming[work[at]]| ==> g.edges[g.incoming[work[at]][k]].source in pending')
            ==> NoPredecessor(g, work[at], Elsewhere(work, at + 1, pending', g.Count()))
  {
    assert work[at..] == [work[at]] + work[at + 1..];
  }

  /** A block whose out-facts did not grow still satisfies its equation, once it has
      been computed in the first epoch. */
  lemma SkipKeepsFlowing(g: Graph, f: Problem, live: seq<set<nat>>, out: seq<set<nat>>, done: set<nat>, b: nat,
                         done': set<nat>)
    requires f.Fits(g) && b < g.Count() && Flowing(g, f, live, out, done)
    requires Equation(f, b, live, out) && HearsSuccessors(g, b, live, out)
    requires forall c :: c in done' && c != b ==> c in done
    ensures Flowing(g, f, live, out, done')
  {
    hide Sound, Universe, Equation, HearsSuccessors;
  }

  lemma EquationsKept(f: Problem, live: seq<set<nat>>, out: seq<set<nat>>, b: nat, gathered: set<nat>, next: set<nat>,
                      live': seq<set<nat>>, out': seq<set<nat>>)
    requires b < |f.gen| == |f.kill| == |live| == |out| && next == f.Transfer(b, gathered)
    requires live' == live[b := next] && out' == out[b := gathered]
    ensures forall c: nat :: c < |live| && (c == b || Equation(f, c, live, out)) ==> Equation(f, c, live', out')
  {
  }

  /** What holds between visits of an epoch. */
  ghost predicate InEpoch(g: Graph, f: Problem, live: seq<set<nat>>, out: seq<set<nat>>, work: seq<nat>, at: nat,
                          pending: seq<nat>, scheduled: seq<nat>, epoch: nat, first: bool)
    requires f.Fits(g)
  {
    && at <= |work| && |live| == |out| == |scheduled| == g.Count()
    && (forall i :: 0 <= i < |work| ==> work[i] < g.Count())
    && (forall i :: 0 <= i < |pending| ==> pending[i] < g.Count())
    && (forall c: nat :: c < g.Count() && scheduled[c] == epoch ==> c in pending)
    && (forall c :: 0 <= c < g.Count() ==> scheduled[c] <= epoch)
    && Flowing(g, f, live, out, Elsewhere(work, at, pending, g.Count()))
    && (forall c: nat :: c < g.Count() && (!first || c !in work[at..]) ==> Equation(f, c, live, out))
  }

  /** Recompute one block, and schedule its predecessors when it changed. */
  method VisitBlock(g: Graph, f: Problem, live: seq<set<nat>>, out: seq<set<nat>>, work: seq<nat>, at: nat,
                    pending: seq<nat>, scheduled: seq<nat>, epoch: nat, first: bool)
      returns (live': seq<set<nat>>, out': seq<set<nat>>, pending': seq<nat>, scheduled': seq<nat>)
    requires f.Fits(g) && InEpoch(g, f, live, out, work, at, pending, scheduled, epoch, first) && at < |work|
    ensures InEpoch(g, f, live', out', work, at + 1, pending', scheduled', epoch, first)
    ensures Missing(Universe(f), live') <= Missing(Universe(f), live)
    ensures pending' == pending || Missing(Universe(f), live') < Missing(Universe(f), live)
  {
    hide Flowing, Solves, Sound, NoPredecessor, Universe, LiveOutOf, LiveInto, Elsewhere, Equation, Missing, Graph.Valid;
    live', out', pending', scheduled' := live, out, pending, scheduled;
    var b := work[at];
    ghost var done := Elsewhere(work, at, pending, g.Count());
    assert work[at..] == [b] + work[at + 1..];
    var gathered, grown := UnionSuccessors(g, f, live, out, b, done);
    VisitGrows(g, f, live, out, done, b, gathered, f.Transfer(b, gathered));
    if first || grown {
      var next := f.Transfer(b, gathered);
      if next != live[b] {
        pending', scheduled' := SchedulePredecessors(g, pending, scheduled, epoch, b);
        GrowthDropsMissing(Universe(f), live, b, next);
      }
      ElsewhereStep(g, work, at, pending, pending');
      VisitKeepsFlowing(g, f, live, out, done, b, gathered, next, Elsewhere(work, at + 1, pending', g.Count()));
      out' := out[b := gathered];
      assert next == live[b] ==> live[b := next] == live;
      live' := live[b := next];
      EquationsKept(f, live, out, b, gathered, next, live', out');
    } else {
      assert out[b := gathered] == out;
      ElsewhereStep(g, work, at, pending, pending);
      SkipKeepsFlowing(g, f, live, out, done, b, Elsewhere(work, at + 1, pending, g.Count()));
    }
  }

  method EpochWorklist(g: Graph, f: Problem, rank: seq<nat>) returns (live: seq<set<nat>>, out: seq<set<nat>>)
    requires f.Fits(g) && |rank| == g.Count()
    ensures Solves(g, f, live, out) && Sound(g, f, live, out)
  {
    hide Flowing, Solves, Sound, Universe, Elsewhere, Equation, Missing, Graph.Valid;
    var count := g.Count();
    live := seq(count, _ => {});
    out := f.boundary;
    var work := seq<nat>(count, b => b);
    var pending: seq<nat> := [];
    var scheduled := seq<nat>(count, _ => 0);
    var epoch := 0;
    var first := true;
    StartFlowing(g, f, live);
    StartElsewhere(work, count);
    while work != []
      invariant |live| == |out| == |scheduled| == count
      invariant forall i :: 0 <= i < |work| ==> work[i] < count
      invariant forall c :: 0 <= c < count ==> scheduled[c] <= epoch
      invariant Flowing(g, f, live, out, Elsewhere(work, 0, [], count))
      invariant !first ==> forall c: nat :: c < count ==> Equation(f, c, live, out)
      invariant first ==> work == seq<nat>(count, b => b)
      decreases Missing(Universe(f), live), |work|
    {
      pending := [];
      epoch := epoch + 1;
      ghost var missing := Missing(Universe(f), live);
      var sorted := SortWork(work, rank);
      SameElsewhere(work, sorted, count);
      work := sorted;
      var at := 0;
      while at < |work|
        invariant InEpoch(g, f, live, out, work, at, pending, scheduled, epoch, first)
        invariant Missing(Universe(f), live) <= missing
        invariant pending == [] || Missing(Universe(f), live) < missing
      {
        live, out, pending, scheduled := VisitBlock(g, f, live, out, work, at, pending, scheduled, epoch, first);
        at := at + 1;
      }
      assert work[at..] == [];
      NextElsewhere(work, pending, count);
      first := false;
      work := pending;
    }
    EmptyElsewhere(count);
    AllDoneSolves(g, f, live, out, Elsewhere(work, 0, [], count));
  }

  lemma StartElsewhere(work: seq<nat>, count: nat)
    requires work == seq<nat>(count, b => b)
    ensures Elsewhere(work, 0, [], count) == {}
  {
    assert forall b: nat :: b < count ==> work[b] == b && b in work[0..];
  }

  lemma SameElsewhere(work: seq<nat>, sorted: seq<nat>, count: nat)
    requires SameBlocks(work, sorted)
    ensures Elsewhere(sorted, 0, [], count) == Elsewhere(work, 0, [], count)
    ensures work == seq<nat>(count, b => b) ==> forall c :: 0 <= c < count ==> c in sorted[0..]
  {
    assert work[0..] == work && sorted[0..] == sorted;
    if work == seq<nat>(count, b => b) {
      forall b: nat | b < count ensures b in work {
        assert work[b] == b;
      }
    }
  }

  lemma NextElsewhere(work: seq<nat>, pending: seq<nat>, count: nat)
    ensures Elsewhere(work, |work|, pending, count) == Elsewhere(pending, 0, [], count)
  {
    assert pending[0..] == pending && work[|work|..] == [];
  }

  lemma EmptyElsewhere(count: nat)
    ensures forall b: nat :: b < count ==> b in Elsewhere([], 0, [], count)
  {
  }
}
