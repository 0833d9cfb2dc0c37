/** The coalescing pass as a whole: select, analyze, scan, merge, rewrite. */
module CoalescingPass {
  import opened Graphs
  import opened DataFlow
  import opened MachineCode
  import opened Liveness
  import opened Renaming
  import opened ConflictMatrix
  import opened Rings
  import opened Coalescing

  // ----- values a function reads before writing -----

  predicate ReadsFirst(body: seq<Inst>, r: nat)
  {
    r in LiveIn(body, {r}, {})
  }

  predicate LetsThrough(body: seq<Inst>, r: nat)
  {
    r in LiveIn(body, {r}, {r})
  }

  /** Some path from the start of `b` reads `r` before any instruction writes it. */
  ghost predicate ExposedAt(p: Program, b: nat, r: nat)
    requires p.Valid()
  {
    exists q :: Exposes(p, q, b, r)
  }

  ghost predicate Exposes(p: Program, q: seq<nat>, b: nat, r: nat)
    requires p.Valid()
  {
    && p.graph.IsPath(q) && q[0] == b
    && (forall i :: 0 <= i < |q| - 1 ==> LetsThrough(p.bodies[q[i]], r))
    && ReadsFirst(p.bodies[q[|q| - 1]], r)
  }

  lemma {:induction false} LiveInOfOne(body: seq<Inst>, scan: set<nat>, out: set<nat>, r: nat)
    requires r in scan
    ensures r in LiveIn(body, scan, out) <==> r in LiveIn(body, {r}, out * {r})
    decreases |body|
  {
    if body != [] {
      LiveInOfOne(body[1..], scan, out, r);
    }
  }

  lemma LivePathExposes(p: Program, scan: set<nat>, f: Problem, q: seq<nat>, b: nat, r: nat)
    requires p.Valid() && SummarizesProgram(f, p, scan) && LivePath(p.graph, f, q, b, r)
    ensures Exposes(p, q, b, r)
  {
    hide LiveIn;
    var last := q[|q| - 1];
    assert r in f.gen[last] && f.gen[last] <= scan;
    forall i | 0 <= i < |q|
      ensures r in f.gen[q[i]] ==> ReadsFirst(p.bodies[q[i]], r)
      ensures r !in f.kill[q[i]] ==> LetsThrough(p.bodies[q[i]], r)
    {
      var body := p.bodies[q[i]];
      assert Summarizes(f.gen[q[i]], f.kill[q[i]], body, scan);
      LiveInOfOne(body, scan, {}, r);
      LiveInOfOne(body, scan, {r}, r);
      assert {} * {r} == {} && {r} * {r} == {r};
      assert ({} - f.kill[q[i]]) + f.gen[q[i]] == LiveIn(body, scan, {});
      assert ({r} - f.kill[q[i]]) + f.gen[q[i]] == LiveIn(body, scan, {r});
    }
  }

  /** `r` is read first on some path that leaves `b`. */
  ghost predicate LiveAfter(p: Program, b: nat, r: nat)
    requires p.Valid()
  {
    exists c: nat :: c < p.graph.Count() && p.graph.Step(b, c) && ExposedAt(p, c, r)
  }

  lemma {:induction false} LiveInGrows(body: seq<Inst>, scan: set<nat>, out: set<nat>, more: set<nat>)
    requires out <= more
    ensures LiveIn(body, scan, out) <= LiveIn(body, scan, more)
    decreases |body|
  {
    if body != [] {
      LiveInGrows(body[1..], scan, out, more);
    }
  }

  lemma {:induction false} ExposedIsLive(p: Program, scan: set<nat>, live: seq<set<nat>>, out: seq<set<nat>>,
                                         q: seq<nat>, b: nat, r: nat)
    requires p.Valid() && SolvesLiveness(p, scan, live, out) && r in scan && Exposes(p, q, b, r)
    ensures r in live[b]
    decreases |q|
  {
    hide LiveIn;
    var body := p.bodies[b];
    LiveInOfOne(body, scan, {}, r);
    LiveInOfOne(body, scan, {r}, r);
    assert {} * {r} == {} && {r} * {r} == {r};
    if |q| == 1 {
      LiveInGrows(body, scan, {}, out[b]);
    } else {
      PathSuffix(p.graph, q, 1);
      ExposedIsLive(p, scan, live, out, q[1..], q[1], r);
      assert p.graph.Step(q[0], q[1]);
      LiveInGrows(body, scan, {r}, out[b]);
    }
  }

  /** The analysis is exact: what is live after a block is what some path reads. */
  ghost predicate ExactLiveness(p: Program, scan: set<nat>, out: seq<set<nat>>)
    requires p.Valid()
  {
    && |out| == p.graph.Count()
    && forall b: nat, r :: b < p.graph.Count() ==> (r in out[b] <==> r in scan && LiveAfter(p, b, r))
  }

  // ----- the analysis of selected registers -----

  lemma SolutionIsLiveness(p: Program, scan: set<nat>, f: Problem, live: seq<set<nat>>, out: seq<set<nat>>)
    requires p.Valid() && SummarizesProgram(f, p, scan)
    requires Solves(p.graph, f, live, out) && Sound(p.graph, f, live, out)
    ensures SolvesLiveness(p, scan, live, out) && |live| == p.graph.Count()
    ensures forall r :: r in live[ENTRY] ==> r in scan && ExposedAt(p, ENTRY, r)
  {
    hide LiveIn;
    forall b | 0 <= b < p.graph.Count()
      ensures out[b] <= scan && live[b] == LiveIn(p.bodies[b], scan, out[b])
    {
      forall r | r in out[b]
        ensures r in scan
      {
        LiveOutScanned(p, scan, f, b, r);
      }
      assert Equation(f, b, live, out);
      assert Summarizes(f.gen[b], f.kill[b], p.bodies[b], scan);
    }
    forall e | 0 <= e < |p.graph.edges|
      ensures live[p.graph.edges[e].destination] <= out[p.graph.edges[e].source]
    {
      assert HearsSuccessors(p.graph, p.graph.edges[e].source, live, out);
    }
    forall r | r in live[ENTRY]
      ensures r in scan && ExposedAt(p, ENTRY, r)
    {
      var q :| LivePath(p.graph, f, q, ENTRY, r);
      LivePathExposes(p, scan, f, q, ENTRY, r);
      assert f.gen[q[|q| - 1]] <= scan;
    }
  }

  lemma LiveOutScanned(p: Program, scan: set<nat>, f: Problem, b: nat, r: nat)
    requires p.Valid() && SummarizesProgram(f, p, scan) && b < p.graph.Count() && LiveOutOf(p.graph, f, b, r)
    ensures r in scan
  {
    hide Summarizes;
    var c: nat :| c < p.graph.Count() && p.graph.Step(b, c) && LiveInto(p.graph, f, c, r);
    var q :| LivePath(p.graph, f, q, c, r);
    assert f.gen[q[|q| - 1]] <= scan;
  }

  lemma SolutionIsExact(p: Program, scan: set<nat>, f: Problem, live: seq<set<nat>>, out: seq<set<nat>>)
    requires p.Valid() && SummarizesProgram(f, p, scan) && SolvesLiveness(p, scan, live, out)
    requires Solves(p.graph, f, live, out) && Sound(p.graph, f, live, out)
    ensures ExactLiveness(p, scan, out)
  {
    hide LiveIn, LiveAfter, LiveOutOf, Solves, SummarizesProgram, Graph.Valid;
    SolvesSize(p, scan, live, out);
    forall b: nat, r | b < p.graph.Count()
      ensures r in out[b] <==> r in scan && LiveAfter(p, b, r)
    {
      if r in out[b] {
        LiveOutScanned(p, scan, f, b, r);
        SoundIsExposed(p, scan, f, b, r);
      }
      if r in scan && LiveAfter(p, b, r) {
        ExposedAfterIsOut(p, scan, live, out, b, r);
      }
    }
  }

  lemma ExposedAfterIsOut(p: Program, scan: set<nat>, live: seq<set<nat>>, out: seq<set<nat>>, b: nat, r: nat)
    requires p.Valid() && SolvesLiveness(p, scan, live, out) && b < p.graph.Count()
    requires r in scan && LiveAfter(p, b, r)
    ensures r in out[b]
  {
    hide LiveIn, Exposes;
    var c: nat :| c < p.graph.Count() && p.graph.Step(b, c) && ExposedAt(p, c, r);
    var q :| Exposes(p, q, c, r);
    ExposedIsLive(p, scan, live, out, q, c, r);
  }

  lemma SoundIsExposed(p: Program, scan: set<nat>, f: Problem, b: nat, r: nat)
    requires p.Valid() && SummarizesProgram(f, p, scan) && b < p.graph.Count() && LiveOutOf(p.graph, f, b, r)
    ensures LiveAfter(p, b, r)
  {
    hide Summarizes;
    var c: nat :| c < p.graph.Count() && p.graph.Step(b, c) && LiveInto(p.graph, f, c, r);
    var q :| LivePath(p.graph, f, q, c, r);
    LivePathExposes(p, scan, f, q, c, r);
    assert ExposedAt(p, c, r);
  }

  method AnalyzeSelected(p: Program, scan: set<nat>, rank: seq<nat>) returns (live: seq<set<nat>>, out: seq<set<nat>>)
    requires p.Valid() && |rank| == p.graph.Count()
    ensures |live| == |out| == p.graph.Count() && SolvesLiveness(p, scan, live, out)
    ensures ExactLiveness(p, scan, out)
    ensures forall r :: r in live[ENTRY] ==> r in scan && ExposedAt(p, ENTRY, r)
  {
    hide Solves, Sound, SolvesLiveness;
    var f := Summarize(p, scan);
    live, out := EpochWorklist(p.graph, f, rank);
    SolutionIsLiveness(p, scan, f, live, out);
    SolutionIsExact(p, scan, f, live, out);
    SolvesSize(p, scan, live, out);
  }

  lemma SolvesSize(p: Program, scan: set<nat>, live: seq<set<nat>>, out: seq<set<nat>>)
    requires p.Valid() && SolvesLiveness(p, scan, live, out)
    ensures |live| == |out| == p.graph.Count() && ENTRY < |live|
  {
  }

  // ----- the pass -----

  method RewriteProgram(first: seq<nat>, p: Program) returns (q: Program)
    ensures q == RenameProgram(first, p)
  {
    var bodies := [];
    for b := 0 to |p.bodies|
      invariant |bodies| == b && forall c :: 0 <= c < b ==> bodies[c] == RenameBody(first, p.bodies[c])
    {
      var body := RewriteBody(first, p.bodies[b]);
      bodies := bodies + [body];
    }
    q := p.(bodies := bodies);
    assert q.bodies == RenameProgram(first, p).bodies;
  }

  /** Every run of `q` makes the progress of the run of `p` from the same registers. */
  ghost predicate SameRuns(p: Program, q: Program)
    requires p.Valid() && q.Valid()
  {
    forall m, st, steps: nat :: SameProgress(Run(m, p, st, steps), Run(m, q, st, steps))
  }

  lemma {:induction false} SameRunsReflexive(p: Program)
    requires p.Valid()
    ensures SameRuns(p, p)
  {
    forall m, st, steps: nat
      ensures SameProgress(Run(m, p, st, steps), Run(m, p, st, steps))
    {
      var point := Run(m, p, st, steps);
    }
  }

  lemma SafeKeepsRuns(p: Program, first: seq<nat>, scan: set<nat>, live: seq<set<nat>>, out: seq<set<nat>>)
    requires p.Valid() && SolvesLiveness(p, scan, live, out) && Safe(first, scan, p, out)
    requires live[ENTRY] == {}
    ensures RenameProgram(first, p).Valid() && SameRuns(p, RenameProgram(first, p))
  {
    hide Safe, SolvesLiveness;
    RenamedIsValid(p, first);
    forall m, st, steps: nat
      ensures SameProgress(Run(m, p, st, steps), Run(m, RenameProgram(first, p), st, steps))
    {
      SafeRenames(p, first, scan, out);
      RunsAgree(m, first, scan, p, live, out, st, st, steps);
    }
  }

  lemma RenamedIsValid(p: Program, first: seq<nat>)
    requires p.Valid()
    ensures RenameProgram(first, p).Valid()
  {
  }

  lemma RenamedHasNoSelfMoves(p: Program, first: seq<nat>)
    ensures forall b :: 0 <= b < |RenameProgram(first, p).bodies| ==> NoSelfMoves(RenameProgram(first, p).bodies[b])
  {
    hide RenameBody, NoSelfMoves;
    forall b | 0 <= b < |p.bodies|
      ensures NoSelfMoves(RenameBody(first, p.bodies[b]))
    {
      SelfMovesGone(first, p.bodies[b]);
    }
  }

  lemma SafeRenames(p: Program, first: seq<nat>, scan: set<nat>, out: seq<set<nat>>)
    requires Safe(first, scan, p, out)
    ensures forall r: nat :: r !in scan ==> Rep(first, r) == r
  {
  }

  /** Two different classes are kept apart by a conflict between members, or because
      both are bound to hardware. */
  ghost predicate KeptApart(p: Program, scan: set<nat>, out: seq<set<nat>>, first: seq<nat>, bound: seq<bool>, a: nat, b: nat)
    requires |out| == |p.bodies|
  {
    || (a < |bound| && b < |bound| && bound[a] && bound[b])
    || exists x: nat, y: nat :: x < |first| && y < |first| && first[x] == a && first[y] == b
         && ProgramConflict(p, scan, out, x, y)
  }

  /** Coalesce along `moves`, which may come in any order. No run changes; and if the moves
      name fewer registers than the limit, none is left that could still be merged. */
  method Coalesce(p: Program, moves: seq<Pair>, registers: nat, bound: seq<bool>, limit: nat, rank: seq<nat>)
      returns (q: Program, first: seq<nat>, ghost out: seq<set<nat>>)
    requires p.Valid() && |bound| == registers && |rank| == p.graph.Count()
    requires forall k :: 0 <= k < |moves| ==> moves[k].dst < registers && moves[k].src < registers
    ensures |first| == registers && q.Valid() && |out| == |p.bodies|
    ensures forall r: nat :: r < registers ==> first[r] < registers && first[first[r]] == first[r]
    ensures q == RenameProgram(first, p) || q == p
    ensures Named(first, bound)
    ensures MovesWritten(p, moves) ==> SameRuns(p, q)
    ensures 0 < |MoveRegisters(moves)| < limit ==> forall b :: 0 <= b < |q.bodies| ==> NoSelfMoves(q.bodies[b])
    ensures 0 < |MoveRegisters(moves)| < limit ==>
              && q == RenameProgram(first, p) && ExactLiveness(p, MoveRegisters(moves), out)
              && forall k :: 0 <= k < |moves| ==>
                   || first[moves[k].dst] == first[moves[k].src]
                   || KeptApart(p, MoveRegisters(moves), out, first, bound, first[moves[k].src], first[moves[k].dst])
    ensures !(0 < |MoveRegisters(moves)| < limit) ==> q == p && forall r :: 0 <= r < registers ==> first[r] == r
  {
    hide NoSelfMoves, MoveRegisters, MovesWritten, KeptApart, RenameProgram, Program.Valid, Scans, Numbered, Has, BitCount, SolvesLiveness, Safe, SameRuns, ExposedAt, ExactLiveness, ConflictFree, Blocked, ProgramConflict;
    var compact, scan := SelectRegisters(moves, limit);
    out := seq(|p.bodies|, _ => {});
    if |scan| == 0 || |scan| >= limit {
      SameRunsReflexive(p);
      return p, seq<nat>(registers, r => r), out;
    }
    ScansNumber(compact, scan);
    GraphHasEntry(p);
    MovesNamed(moves, registers);
    var live, liveOut := AnalyzeSelected(p, compact.Keys, rank);
    out := liveOut;
    var ok, bits := ScanConflicts(p, compact.Keys, live, liveOut, compact, |scan|);
    assert ok;
    var coalesced;
    first, coalesced := MergeMoves(moves, registers, bits, compact, |scan|, bound);
    q := RewriteProgram(first, p);
    RenamedIsValid(p, first);
    RenamedHasNoSelfMoves(p, first);
    MergedIsSafe(p, compact.Keys, live, liveOut, first, bits, compact, |scan|);
    if MovesWritten(p, moves) {
      WrittenIsDead(p, moves, live[ENTRY]);
      SafeKeepsRuns(p, first, compact.Keys, live, liveOut);
    }
    forall k | 0 <= k < |moves|
      ensures first[moves[k].dst] == first[moves[k].src]
              || KeptApart(p, compact.Keys, out, first, bound, first[moves[k].src], first[moves[k].dst])
    {
      if first[moves[k].dst] != first[moves[k].src] {
        BlockedApart(p, compact, |scan|, bits, liveOut, first, bound, moves[k]);
      }
    }
  }

  /** Every register of a move is written before it is read, on every path. */
  ghost predicate MovesWritten(p: Program, moves: seq<Pair>)
    requires p.Valid()
  {
    forall k :: 0 <= k < |moves| ==> !ExposedAt(p, ENTRY, moves[k].dst) && !ExposedAt(p, ENTRY, moves[k].src)
  }

  lemma MovesNamed(moves: seq<Pair>, registers: nat)
    requires forall k :: 0 <= k < |moves| ==> moves[k].dst < registers && moves[k].src < registers
    ensures forall r :: r in MoveRegisters(moves) ==> r < registers
    ensures forall k :: 0 <= k < |moves| ==> moves[k].dst in MoveRegisters(moves) && moves[k].src in MoveRegisters(moves)
  {
  }

  lemma WrittenIsDead(p: Program, moves: seq<Pair>, live: set<nat>)
    requires p.Valid() && MovesWritten(p, moves)
    requires forall r :: r in live ==> r in MoveRegisters(moves) && ExposedAt(p, ENTRY, r)
    ensures live == {}
  {
    hide ExposedAt;
  }

  lemma GraphHasEntry(p: Program)
    requires p.Valid()
    ensures |p.bodies| == p.graph.Count() && ENTRY < p.graph.Count()
  {
  }

  lemma BlockedApart(p: Program, compact: map<nat, nat>, dimension: nat, bits: seq<bool>, out: seq<set<nat>>,
                     first: seq<nat>, bound: seq<bool>, m: Pair)
    requires Numbered(compact, dimension) && |bits| == BitCount(dimension) && |out| == |p.bodies|
    requires m.dst < |first| == |bound| && m.src < |first| && forall r :: 0 <= r < |first| ==> first[r] < |first|
    requires forall x, y :: x in compact && y in compact ==>
               (Has(bits, compact, dimension, x, y) <==> ProgramConflict(p, compact.Keys, out, x, y))
    requires Blocked(first, bits, compact, dimension, bound, m)
    ensures KeptApart(p, compact.Keys, out, first, bound, first[m.src], first[m.dst])
  {
    hide Has, ProgramConflict, Numbered;
  }
}
