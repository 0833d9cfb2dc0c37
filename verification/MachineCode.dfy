/** Machine functions before allocation: blocks of instructions over virtual
    registers, and what running them does. Opcodes are uninterpreted. */
module MachineCode {
  import opened Optional
  import opened Graphs


  /** A register-to-register move, an ordinary instruction with at most one register
      result, or a branch that selects among the block's outgoing edges. */
  datatype Inst =
    | Move(dst: nat, src: nat)
    | Op(code: nat, def: Option<nat>, uses: seq<nat>)
    | Branch(code: nat, uses: seq<nat>)

  datatype Program = Program(graph: Graph, bodies: seq<seq<Inst>>)
  {
    ghost predicate Valid()
    {
      graph.Valid() && |bodies| == graph.Count()
    }
  }

  // ----- running -----

  /** What opcodes do: the value and the effect of an instruction and the direction
      of a branch depend on operand values and on memory, which also stands for
      everything a caller can observe. */
  datatype Machine = Machine(value: (nat, seq<int>, int) -> int,
                             effect: (nat, seq<int>, int) -> int,
                             direction: (nat, seq<int>, int) -> nat)

  type Registers = map<nat, int>

  datatype State = State(regs: Registers, mem: int, choice: nat)

  function Read(regs: Registers, r: nat): int
  {
    if r in regs then regs[r] else 0
  }

  function ReadAll(regs: Registers, rs: seq<nat>): seq<int>
  {
    seq(|rs|, i requires 0 <= i < |rs| => Read(regs, rs[i]))
  }

  function ExecInst(m: Machine, i: Inst, st: State): State
  {
    match i
    case Move(d, s) => st.(regs := st.regs[d := Read(st.regs, s)])
    case Op(code, def, uses) =>
      var args := ReadAll(st.regs, uses);
      State(if def.Some? then st.regs[def.value := m.value(code, args, st.mem)] else st.regs,
            m.effect(code, args, st.mem), st.choice)
    case Branch(code, uses) =>
      st.(choice := m.direction(code, ReadAll(st.regs, uses), st.mem))
  }

  function ExecBody(m: Machine, body: seq<Inst>, st: State): State
  {
    if body == [] then st else ExecBody(m, body[1..], ExecInst(m, body[0], st))
  }

  /** Where a run stands: about to execute a block, or finished. */
  datatype Point = At(block: nat, state: State) | Halted(last: State)

  /** A block that ends in no branch takes its first edge. */
  function Advance(m: Machine, p: Program, point: Point): Point
    requires p.Valid()
  {
    match point
    case Halted(_) => point
    case At(b, st) =>
      if b >= p.graph.Count() then Halted(st)
      else
        var after := ExecBody(m, p.bodies[b], st.(choice := 0));
        if after.choice < |p.graph.outgoing[b]|
        then At(p.graph.edges[p.graph.outgoing[b][after.choice]].destination, after)
        else Halted(after)
  }

  function Run(m: Machine, p: Program, st: State, steps: nat): Point
    requires p.Valid()
    decreases steps
  {
    if steps == 0 then At(ENTRY, st) else Advance(m, p, Run(m, p, st, steps - 1))
  }

  /** Two runs stand at the same place with the same memory. */
  predicate SameProgress(a: Point, b: Point)
  {
    match (a, b)
    case (At(x, s), At(y, t)) => x == y && s.mem == t.mem
    case (Halted(s), Halted(t)) => s.mem == t.mem
    case _ => false
  }

  // ----- register effects -----

  function DefOf(i: Inst): Option<nat>
  {
    match i
    case Move(d, _) => Some(d)
    case Op(_, def, _) => def
    case Branch(_, _) => None
  }

  function UsesOf(i: Inst): seq<nat>
  {
    match i
    case Move(_, s) => [s]
    case Op(_, _, uses) => uses
    case Branch(_, uses) => uses
  }

  function DefSet(i: Inst): set<nat>
  {
    if DefOf(i).Some? then {DefOf(i).value} else {}
  }

  function UseSet(i: Inst): set<nat>
  {
    set r | r in UsesOf(i)
  }

  /** Registers of `scan` live before an instruction, given those live after it. */
  function LiveBefore(i: Inst, scan: set<nat>, after: set<nat>): set<nat>
  {
    (after - DefSet(i)) + (UseSet(i) * scan)
  }

  function LiveIn(body: seq<Inst>, scan: set<nat>, out: set<nat>): set<nat>
  {
    if body == [] then out else LiveBefore(body[0], scan, LiveIn(body[1..], scan, out))
  }

  /** A solution of the backward equations over the registers in `scan`. */
  ghost predicate SolvesLiveness(p: Program, scan: set<nat>, live: seq<set<nat>>, out: seq<set<nat>>)
    requires p.Valid()
  {
    && |live| == |out| == p.graph.Count()
    && (forall b :: 0 <= b < |live| ==> out[b] <= scan && live[b] == LiveIn(p.bodies[b], scan, out[b]))
    && (forall e :: 0 <= e < |p.graph.edges| ==> live[p.graph.edges[e].destination] <= out[p.graph.edges[e].source])
  }
}
