/** Renaming registers to class representatives and dropping the moves inside a
    class keeps every run, as long as no instruction writes a class while another
    member is live. */
module Renaming {
  import opened Optional
  import opened Graphs
  import opened MachineCode

  function Rep(first: seq<nat>, r: nat): nat
  {
    if r < |first| then first[r] else r
  }

  function Reps(first: seq<nat>, rs: seq<nat>): seq<nat>
  {
    seq(|rs|, i requires 0 <= i < |rs| => Rep(first, rs[i]))
  }

  function RenameInst(first: seq<nat>, i: Inst): Inst
  {
    match i
    case Move(d, s) => Move(Rep(first, d), Rep(first, s))
    case Op(code, def, uses) =>
      Op(code, if def.Some? then Some(Rep(first, def.value)) else None, Reps(first, uses))
    case Branch(code, uses) => Branch(code, Reps(first, uses))
  }

  predicate Redundant(first: seq<nat>, i: Inst)
  {
    i.Move? && Rep(first, i.dst) == Rep(first, i.src)
  }

  function RenameBody(first: seq<nat>, body: seq<Inst>): seq<Inst>
  {
    if body == [] then []
    else if Redundant(first, body[0]) then RenameBody(first, body[1..])
    else [RenameInst(first, body[0])] + RenameBody(first, body[1..])
  }

  function RenameProgram(first: seq<nat>, p: Program): Program
  {
    p.(bodies := seq(|p.bodies|, b requires 0 <= b < |p.bodies| => RenameBody(first, p.bodies[b])))
  }

  ghost predicate NoSelfMoves(body: seq<Inst>)
  {
    forall k :: 0 <= k < |body| && body[k].Move? ==> body[k].dst != body[k].src
  }

  /** No move inside a class is left. */
  lemma {:induction false} SelfMovesGone(first: seq<nat>, body: seq<Inst>)
    ensures NoSelfMoves(RenameBody(first, body))
    decreases |body|
  {
    if body != [] {
      SelfMovesGone(first, body[1..]);
      var rest := RenameBody(first, body[1..]);
      if !Redundant(first, body[0]) {
        var all := RenameBody(first, body);
        forall k | 0 <= k < |all| && all[k].Move?
          ensures all[k].dst != all[k].src
        {
          assert k > 0 ==> all[k] == rest[k - 1];
        }
      }
    }
  }

  // ----- interference -----

  /** Instruction `i` writes `x` while `y` is live after it; the source of a move is
      exempt, because the move leaves both registers with one value. */
  ghost predicate Interferes(i: Inst, after: set<nat>, x: nat, y: nat)
  {
    DefOf(i) == Some(x) && y in after && y != x && !(i.Move? && y == i.src)
  }

  ghost predicate SafeInst(first: seq<nat>, scan: set<nat>, i: Inst, after: set<nat>)
  {
    forall x, y :: x in scan && Interferes(i, after, x, y) ==> Rep(first, x) != Rep(first, y)
  }

  ghost predicate SafeBody(first: seq<nat>, scan: set<nat>, body: seq<Inst>, out: set<nat>)
  {
    body == [] || (SafeInst(first, scan, body[0], LiveIn(body[1..], scan, out)) && SafeBody(first, scan, body[1..], out))
  }

  /** Registers outside the scan keep their names; scanned ones stay inside it. */
  ghost predicate RenamesWithin(first: seq<nat>, scan: set<nat>)
  {
    && (forall r: nat :: r !in scan ==> Rep(first, r) == r)
    && (forall r :: r in scan ==> Rep(first, r) in scan)
  }

  ghost predicate Safe(first: seq<nat>, scan: set<nat>, p: Program, out: seq<set<nat>>)
  {
    && RenamesWithin(first, scan)
    && |out| == |p.bodies|
    && (forall b :: 0 <= b < |out| ==> SafeBody(first, scan, p.bodies[b], out[b]))
  }

  // ----- simulation -----

  /** Live registers, and all registers outside the scan, hold their value under
      their new name. */
  ghost predicate Agree(first: seq<nat>, scan: set<nat>, live: set<nat>, regs: Registers, regs': Registers)
  {
    forall r: nat :: r in live || r !in scan ==> Read(regs, r) == Read(regs', Rep(first, r))
  }

  ghost predicate Matches(first: seq<nat>, scan: set<nat>, live: set<nat>, st: State, st': State)
  {
    Agree(first, scan, live, st.regs, st'.regs) && st.mem == st'.mem && st.choice == st'.choice
  }

  lemma UsesAgree(first: seq<nat>, scan: set<nat>, i: Inst, after: set<nat>, regs: Registers, regs': Registers)
    requires Agree(first, scan, LiveBefore(i, scan, after), regs, regs')
    ensures ReadAll(regs, UsesOf(i)) == ReadAll(regs', Reps(first, UsesOf(i)))
  {
    forall k | 0 <= k < |UsesOf(i)|
      ensures Read(regs, UsesOf(i)[k]) == Read(regs', Rep(first, UsesOf(i)[k]))
    {
      assert UsesOf(i)[k] in UseSet(i);
    }
  }

  lemma DefAgrees(first: seq<nat>, scan: set<nat>, i: Inst, after: set<nat>, regs: Registers, regs': Registers,
                  d: nat, v: int)
    requires RenamesWithin(first, scan) && SafeInst(first, scan, i, after) && DefOf(i) == Some(d)
    requires Agree(first, scan, LiveBefore(i, scan, after), regs, regs')
    requires i.Move? ==> v == Read(regs, i.src)
    ensures Agree(first, scan, after, regs[d := v], regs'[Rep(first, d) := v])
  {
    forall r: nat | r in after || r !in scan
      ensures Read(regs[d := v], r) == Read(regs'[Rep(first, d) := v], Rep(first, r))
    {
      if r != d && Rep(first, r) == Rep(first, d) {
        assert r in scan && d in scan;
        assert !Interferes(i, after, d, r);
      }
    }
  }

  lemma InstSimulates(m: Machine, first: seq<nat>, scan: set<nat>, i: Inst, after: set<nat>, st: State, st': State)
    requires RenamesWithin(first, scan) && SafeInst(first, scan, i, after)
    requires Matches(first, scan, LiveBefore(i, scan, after), st, st')
    ensures Matches(first, scan, after, ExecInst(m, i, st),
                    if Redundant(first, i) then st' else ExecInst(m, RenameInst(first, i), st'))
  {
    hide Interferes, ReadAll, Reps, Agree, SafeInst, RenamesWithin;
    UsesAgree(first, scan, i, after, st.regs, st'.regs);
    match i
    case Move(d, s) =>
      SourceAgrees(first, scan, i, after, st.regs, st'.regs);
      if Redundant(first, i) {
        RedundantMove(first, scan, i, after, st.regs, st'.regs);
      } else {
        DefAgrees(first, scan, i, after, st.regs, st'.regs, d, Read(st.regs, s));
      }
    case Op(code, def, uses) =>
      if def.Some? {
        var v := m.value(code, ReadAll(st.regs, uses), st.mem);
        DefAgrees(first, scan, i, after, st.regs, st'.regs, def.value, v);
      } else {
        AgreeFewer(first, scan, LiveBefore(i, scan, after), after, st.regs, st'.regs);
      }
    case Branch(_, _) =>
      AgreeFewer(first, scan, LiveBefore(i, scan, after), after, st.regs, st'.regs);
  }

  lemma SourceAgrees(first: seq<nat>, scan: set<nat>, i: Inst, after: set<nat>, regs: Registers, regs': Registers)
    requires i.Move? && Agree(first, scan, LiveBefore(i, scan, after), regs, regs')
    ensures Read(regs, i.src) == Read(regs', Rep(first, i.src))
  {
    assert i.src in UseSet(i);
  }

  lemma RedundantMove(first: seq<nat>, scan: set<nat>, i: Inst, after: set<nat>, regs: Registers, regs': Registers)
    requires Redundant(first, i) && Agree(first, scan, LiveBefore(i, scan, after), regs, regs')
    ensures Agree(first, scan, after, regs[i.dst := Read(regs, i.src)], regs')
  {
    SourceAgrees(first, scan, i, after, regs, regs');
  }

  lemma AgreeFewer(first: seq<nat>, scan: set<nat>, live: set<nat>, fewer: set<nat>, regs: Registers, regs': Registers)
    requires Agree(first, scan, live, regs, regs') && fewer <= live
    ensures Agree(first, scan, fewer, regs, regs')
  {
  }

  lemma {:induction false} BodySimulates(m: Machine, first: seq<nat>, scan: set<nat>, body: seq<Inst>, out: set<nat>,
                                         st: State, st': State)
    requires RenamesWithin(first, scan) && SafeBody(first, scan, body, out)
    requires Matches(first, scan, LiveIn(body, scan, out), st, st')
    ensures Matches(first, scan, out, ExecBody(m, body, st), ExecBody(m, RenameBody(first, body), st'))
    decreases |body|
  {
    if body != [] {
      hide SafeInst, Matches, RenamesWithin;
      InstSimulates(m, first, scan, body[0], LiveIn(body[1..], scan, out), st, st');
      var next' := if Redundant(first, body[0]) then st' else ExecInst(m, RenameInst(first, body[0]), st');
      BodySimulates(m, first, scan, body[1..], out, ExecInst(m, body[0], st), next');
      if !Redundant(first, body[0]) {
        assert RenameBody(first, body)[1..] == RenameBody(first, body[1..]);
      }
    }
  }

  ghost predicate PointsMatch(first: seq<nat>, scan: set<nat>, live: seq<set<nat>>, a: Point, b: Point)
  {
    match (a, b)
    case (At(x, s), At(y, t)) =>
      x == y && x < |live| && s.mem == t.mem && Agree(first, scan, live[x], s.regs, t.regs)
    case (Halted(s), Halted(t)) => s.mem == t.mem
    case _ => false
  }

  lemma AdvanceSimulates(m: Machine, first: seq<nat>, scan: set<nat>, p: Program, live: seq<set<nat>>, out: seq<set<nat>>,
                         a: Point, b: Point)
    requires p.Valid() && SolvesLiveness(p, scan, live, out) && Safe(first, scan, p, out)
    requires PointsMatch(first, scan, live, a, b)
    ensures RenameProgram(first, p).Valid()
    ensures PointsMatch(first, scan, live, Advance(m, p, a), Advance(m, RenameProgram(first, p), b))
  {
    if a.At? {
      hide Agree, SafeBody, RenamesWithin;
      var s, t := a.state.(choice := 0), b.state.(choice := 0);
      BodySimulates(m, first, scan, p.bodies[a.block], out[a.block], s, t);
      var after := ExecBody(m, p.bodies[a.block], s);
      var after' := ExecBody(m, RenameBody(first, p.bodies[a.block]), t);
      if after.choice < |p.graph.outgoing[a.block]| {
        var e := p.graph.outgoing[a.block][after.choice];
        assert p.graph.edges[e].source == a.block;
        AgreeFewer(first, scan, out[a.block], live[p.graph.edges[e].destination], after.regs, after'.regs);
      }
    }
  }

  /** The main result: the renamed program makes the same progress after any number
      of steps, from any registers that agree on what is live at the entry. */
  lemma {:induction false} RunsAgree(m: Machine, first: seq<nat>, scan: set<nat>, p: Program, live: seq<set<nat>>,
                                     out: seq<set<nat>>, st: State, st': State, steps: nat)
    requires p.Valid() && SolvesLiveness(p, scan, live, out) && Safe(first, scan, p, out)
    requires Agree(first, scan, live[ENTRY], st.regs, st'.regs) && st.mem == st'.mem
    ensures RenameProgram(first, p).Valid()
    ensures PointsMatch(first, scan, live, Run(m, p, st, steps), Run(m, RenameProgram(first, p), st', steps))
    ensures SameProgress(Run(m, p, st, steps), Run(m, RenameProgram(first, p), st', steps))
    decreases steps
  {
    hide Agree, Safe, Advance;
    if steps > 0 {
      RunsAgree(m, first, scan, p, live, out, st, st', steps - 1);
      AdvanceSimulates(m, first, scan, p, live, out, Run(m, p, st, steps - 1),
                       Run(m, RenameProgram(first, p), st', steps - 1));
    }
  }
}
