/** Running a function over cells: physical registers and the stack. What instructions
    compute is left open, so that only where operands are found can matter. */
module FunctionRuns {
  import opened Graphs
  import opened LiveScan
  import Spills = EdgeSpillSemantics
  import Placement = EdgeSpillPlacement

  // ----- frames -----

  /** Where a value can be: a physical register, or 8 bytes of the stack. */
  datatype Cell = Reg(p: nat) | Stack(unit: nat)

  type Frame = Spills.Store

  function Read(f: Frame, c: Cell): int
  {
    match c
    case Reg(p) => Spills.Get(f.regs, p)
    case Stack(unit) => Spills.Get(f.slots, unit)
  }

  function Write(f: Frame, c: Cell, v: int): Frame
  {
    match c
    case Reg(p) => f.(regs := f.regs[p := v])
    case Stack(unit) => f.(slots := f.slots[unit := v])
  }

  function WriteAll(f: Frame, cells: seq<Cell>, v: int): Frame
    decreases |cells|
  {
    if cells == [] then f else WriteAll(Write(f, cells[0], v), cells[1..], v)
  }

  ghost predicate Contains(f: Frame, cells: seq<Cell>, v: int)
  {
    cells != [] && forall c :: c in cells ==> Read(f, c) == v
  }

  lemma {:induction false} WrittenCells(f: Frame, cells: seq<Cell>, v: int)
    ensures forall c :: Read(WriteAll(f, cells, v), c) == if c in cells then v else Read(f, c)
    decreases |cells|
  {
    if cells != [] {
      WrittenCells(Write(f, cells[0], v), cells[1..], v);
      assert cells == [cells[0]] + cells[1..];
    }
  }

  // ----- running instructions -----

  /** Which cells hold the operands of instructions. */
  type Locate = nat -> seq<Cell>

  /** What instructions do, as far as nobody looks inside: what clobbers leave behind, what
      is computed from the values read and the state of the world, what becomes of the
      world, and which edge is taken. */
  datatype Machine = Machine(
    early: (nat, nat, int) -> (nat -> int),
    clobber: (nat, nat, int) -> (nat -> int),
    result: (nat, nat, seq<int>, int) -> (nat -> int),
    effect: (nat, nat, seq<int>, int) -> int,
    choose: (nat, seq<int>, int) -> nat)

  /** `seen` are the values that the last instruction read, `log` all of them. */
  datatype Running = Running(frame: Frame, world: int, seen: seq<int>, log: seq<(nat, nat, seq<int>)>)

  function Load(f: Frame, cells: seq<Cell>): int
  {
    if cells == [] then 0 else Read(f, cells[0])
  }

  function LoadAll(f: Frame, where: Locate, rs: seq<nat>): seq<int>
  {
    seq(|rs|, n requires 0 <= n < |rs| => Load(f, where(rs[n])))
  }

  function StoreAll(f: Frame, where: Locate, rs: seq<nat>, value: nat -> int): Frame
    decreases |rs|
  {
    if rs == [] then f else StoreAll(WriteAll(f, where(rs[0]), value(rs[0])), where, rs[1..], value)
  }

  /** Early clobbers are written before the operands are read, the others of a call before
      the results. */
  function Exec(m: Machine, where: Locate, i: Inst, b: nat, k: nat, st: Running): Running
  {
    var entered := StoreAll(st.frame, where, i.early, m.early(b, k, st.world));
    var seen := LoadAll(entered, where, i.uses + i.arguments);
    var called := StoreAll(entered, where, i.clobbers, m.clobber(b, k, st.world));
    var done := StoreAll(called, where, i.defs, m.result(b, k, seen, st.world));
    Running(done, m.effect(b, k, seen, st.world), seen, st.log + [(b, k, seen)])
  }

  /** Instructions `from` up to `next`. */
  function ExecBody(m: Machine, where: Locate, body: seq<Inst>, b: nat, from: nat, next: nat, st: Running): Running
    requires from <= next <= |body|
    decreases next
  {
    if next <= from then st
    else
      var k: nat := next - 1;
      Exec(m, where, body[k], b, k, ExecBody(m, where, body, b, from, k, st))
  }

  // ----- running a function -----

  datatype Function = Function(graph: Graph, blocks: seq<Block>, ends: seq<Spills.Ending>)

  function Spill(spots: Spills.Spots, ops: seq<Spills.SpillOp>, st: Running): Running
  {
    st.(frame := Spills.Run(spots, ops, st.frame))
  }

  /** Code at the end of a block stands above the branch, if there is one. */
  function Cut(fn: Function, b: nat): (cut: nat)
    requires b < |fn.blocks| && b < |fn.ends|
    ensures cut <= |fn.blocks[b].body|
  {
    var size := |fn.blocks[b].body|;
    if fn.ends[b].Falls? || size == 0 then size else size - 1
  }

  function ExecBlock(m: Machine, fn: Function, where: Locate, spots: Spills.Spots, code: Placement.Code, b: nat, st: Running): Running
    requires b < |fn.blocks| && b < |fn.ends|
  {
    var body := fn.blocks[b].body;
    var above := ExecBody(m, where, body, b, 0, Cut(fn, b), st.(seen := []));
    ExecBody(m, where, body, b, Cut(fn, b), |body|, Spill(spots, Placement.At(code, Placement.Block(b), true), above))
  }

  /** At the first instruction of a block, or stopped at its end. */
  datatype Point = Point(block: nat, stopped: bool, running: Running)

  function Next(m: Machine, fn: Function, where: Locate, spots: Spills.Spots, code: Placement.Code, at: Point): (next: Point)
    requires fn.graph.Valid() && |fn.blocks| == |fn.ends| == fn.graph.Count() && at.block < fn.graph.Count()
    ensures next.block < fn.graph.Count()
  {
    if at.stopped then at
    else
      var left := ExecBlock(m, fn, where, spots, code, at.block, at.running);
      var e := m.choose(at.block, left.seen, left.world);
      if e !in fn.graph.outgoing[at.block] then Point(at.block, true, left)
      else
        var to := fn.graph.edges[e].destination;
        Point(to, false, Spill(spots, Placement.At(code, Placement.OnEdge(e), false) + Placement.At(code, Placement.Block(to), false), left))
  }

  function Steps(m: Machine, fn: Function, where: Locate, spots: Spills.Spots, code: Placement.Code, start: Running, steps: nat): (at: Point)
    requires fn.graph.Valid() && |fn.blocks| == |fn.ends| == fn.graph.Count()
    ensures at.block < fn.graph.Count()
  {
    if steps == 0 then Point(ENTRY, false, start) else Next(m, fn, where, spots, code, Steps(m, fn, where, spots, code, start, steps - 1))
  }
}
