/** Instructions whose operands have moved to their locations read and leave behind the
    same values as before. */
module OperandRuns {
  import opened LiveScan
  import opened LiveRanges
  import opened AllocationState
  import opened StackSlots
  import opened Assignment
  import opened AllocationSafety
  import opened FunctionRuns
  import Spills = EdgeSpillSemantics

  // ----- the function before and after -----

  /** Every register has its own cell. */
  function Own(): Locate
  {
    (x: nat) => [Reg(x)]
  }

  /** The 8-byte units of a stack location. */
  function UnitsOf(l: Location): seq<nat>
  {
    if !l.OnStack? then [] else if l.size == 16 then [l.offset / 8, l.offset / 8 + 1] else [l.offset / 8]
  }

  function Cells(units: seq<nat>): (cells: seq<Cell>)
    ensures |cells| == |units| && forall u :: u in units <==> Stack(u) in cells
    ensures forall c :: c in cells ==> c.Stack?
  {
    var cells := seq(|units|, k requires 0 <= k < |units| => Stack(units[k]));
    CellsHold(units, cells);
    cells
  }

  lemma CellsHold(units: seq<nat>, cells: seq<Cell>)
    requires |cells| == |units| && forall k :: 0 <= k < |units| ==> cells[k] == Stack(units[k])
    ensures forall u :: u in units <==> Stack(u) in cells
  {
    forall u | u in units
      ensures Stack(u) in cells
    {
      var k :| 0 <= k < |units| && units[k] == u;
      assert cells[k] == Stack(u);
    }
  }

  function Operand(i: Input, s: State, x: nat): seq<Cell>
  {
    if x < i.physical then [Reg(x)]
    else if x >= |s.location| then []
    else if s.location[x].InRegister? then [Reg(s.location[x].physical)]
    else Cells(UnitsOf(s.location[x]))
  }

  function Allocated(i: Input, s: State): Locate
  {
    (x: nat) => Operand(i, s, x)
  }

  /** Where spill code finds a register, and its slot in `w`. */
  function SpotsOf(i: Input, s: State, w: State): Spills.Spots
  {
    Spills.Spots((x: nat) => Home(i, s, x), (x: nat) => SlotUnits(i, s, w, x))
  }

  function Home(i: Input, s: State, x: nat): nat
  {
    if i.physical <= x < |s.location| && s.location[x].InRegister? then s.location[x].physical else x
  }

  function SlotUnits(i: Input, s: State, w: State, x: nat): seq<nat>
  {
    if i.physical <= x < |s.location| && s.location[x].InRegister? && x < |w.location| then UnitsOf(w.location[x]) else []
  }

  /** Where block `b` has the value of `x`. */
  ghost function Place(i: Input, s: State, w: State, b: nat, x: nat): seq<Cell>
  {
    if b < |s.spilled| && x in s.spilled[b] then Cells(SlotUnits(i, s, w, x)) else Operand(i, s, x)
  }

  /** Live values are where the block has them; `a` is the frame of the original run. */
  ghost predicate Related(i: Input, s: State, w: State, b: nat, live: set<nat>, a: Frame, z: Frame)
  {
    forall r :: r in live ==> Contains(z, Place(i, s, w, b, r), Read(a, Reg(r)))
  }

  ghost predicate Clear(cells: seq<Cell>, others: seq<Cell>)
  {
    forall c :: c in cells ==> c !in others
  }

  /** The operand `x` is where the block has its value, and away from every register of
      `live`. */
  ghost predicate Writable(i: Input, s: State, w: State, b: nat, x: nat, live: set<nat>)
  {
    && Operand(i, s, x) != [] && Place(i, s, w, b, x) == Operand(i, s, x)
    && forall r :: r in live && r != x ==> Clear(Operand(i, s, x), Place(i, s, w, b, r))
  }

  lemma {:induction false} StoreRelated(i: Input, s: State, w: State, b: nat, live: set<nat>, all: set<nat>, rs: seq<nat>, value: nat -> int,
                                        a: Frame, z: Frame)
    requires Related(i, s, w, b, live, a, z) && live <= all
    requires forall x :: x in rs ==> x in all && Writable(i, s, w, b, x, all)
    ensures Related(i, s, w, b, live + Regs(rs), StoreAll(a, Own(), rs, value), StoreAll(z, Allocated(i, s), rs, value))
    decreases |rs|
  {
    if rs == [] {
      assert live + Regs(rs) == live;
    } else {
      var x := rs[0];
      var a', z' := WriteAll(a, Own()(x), value(x)), WriteAll(z, Operand(i, s, x), value(x));
      assert x in rs && forall y :: y in rs[1..] ==> y in rs;
      StoreOne(i, s, w, b, live, all, x, value(x), a, z);
      StoreRelated(i, s, w, b, live + {x}, all, rs[1..], value, a', z');
      assert rs == [x] + rs[1..];
      assert live + Regs(rs) == live + {x} + Regs(rs[1..]);
    }
  }

  lemma StoreOne(i: Input, s: State, w: State, b: nat, live: set<nat>, all: set<nat>, x: nat, v: int, a: Frame, z: Frame)
    requires Related(i, s, w, b, live, a, z) && live <= all && Writable(i, s, w, b, x, all)
    ensures Related(i, s, w, b, live + {x}, WriteAll(a, Own()(x), v), WriteAll(z, Operand(i, s, x), v))
  {
    hide Operand, Place, WriteAll, Read;
    WrittenCells(a, [Reg(x)], v);
    WrittenCells(z, Operand(i, s, x), v);
  }

  lemma LoadRelated(i: Input, s: State, w: State, b: nat, live: set<nat>, rs: seq<nat>, a: Frame, z: Frame)
    requires Related(i, s, w, b, live, a, z)
    requires forall x :: x in rs ==> x in live && Place(i, s, w, b, x) == Operand(i, s, x)
    ensures LoadAll(a, Own(), rs) == LoadAll(z, Allocated(i, s), rs)
  {
    hide Operand, Place, Read;
    forall n | 0 <= n < |rs|
      ensures Load(a, Own()(rs[n])) == Load(z, Operand(i, s, rs[n]))
    {
      assert Contains(z, Place(i, s, w, b, rs[n]), Read(a, Reg(rs[n])));
    }
  }

  // ----- an allocation keeps operands apart -----

  /** The ranges of the function were built and every register with a range was placed;
      none is bound to hardware. */
  ghost predicate Placed(i: Input, s: State, w: State, owner: Owners, fn: Function, order: seq<nat>, count: nat)
  {
    && (forall k :: 0 <= k < |order| ==> order[k] < |fn.blocks|)
    && Supplies(i, fn.blocks, order, count) && Allocating(i, s, owner)
    && (forall r: nat :: i.Virtual(r) ==> i.Free(r))
    && (forall r: nat :: i.Free(r) && i.ranges[r] != [] ==> s.location[r] != Unassigned)
    && SlotsFor(i, s, w)
  }

  /** `w` keeps the stack locations of `s` and has a slot for every register that some block
      holds spilled. */
  ghost predicate SlotsFor(i: Input, s: State, w: State)
  {
    && i.Valid() && Sized(i, s) && Sized(i, w) && SlotsOk(i, w)
    && (forall r: nat :: r < i.Count() && s.location[r].OnStack? ==> w.location[r] == s.location[r])
    && (forall b: nat :: b < |s.spilled| ==> HaveSlots(w, s.spilled[b]))
  }

  ghost predicate HaveSlots(w: State, regs: set<nat>)
  {
    forall r :: r in regs ==> r < |w.location| && w.location[r].OnStack?
  }

  lemma OnRange(i: Input, s: State, w: State, owner: Owners, fn: Function, order: seq<nat>, count: nat, r: nat, q: nat, block: nat)
    requires Placed(i, s, w, owner, fn, order, count) && CoveredAt(i.ranges, r, q, block)
    ensures |s.location| == i.Count() && r < i.Count() && (r >= i.physical ==> i.Free(r) && s.location[r] != Unassigned)
    ensures exists n: nat :: i.Covers(r, n, q)
  {
    hide Supplies, Owned, Marked, GapsOk, SpillsRecorded, SlotsOk, SpillsCross;
    var n: nat :| n < |i.ranges[r]| && Holds(i.ranges[r][n], q, block);
    assert i.Covers(r, n, q);
  }

  lemma NeverSpilledWhereNamed(i: Input, s: State, w: State, owner: Owners, fn: Function, order: seq<nat>, count: nat, b: nat, x: nat)
    requires Placed(i, s, w, owner, fn, order, count) && b < |fn.blocks| && x in ReferencedFrom(fn.blocks[b].body, 0)
    ensures Place(i, s, w, b, x) == Operand(i, s, x)
  {
    hide Owned, Marked, GapsOk, SpillsRecorded, SlotsOk, SpillsCross, Input.Valid, RangesFor, Operand, ReferencedFrom;
    if b < |s.spilled| && x in s.spilled[b] {
      SpilledCrosses(i, s, fn.blocks, order, count, b, x);
    }
  }

  /** Slots of registers that are live together share no unit. */
  lemma SlotsClear(i: Input, s: State, w: State, x: nat, r: nat, q: nat)
    requires SlotsFor(i, s, w) && x != r && x < i.Count() && r < i.Count()
    requires w.location[x].OnStack? && w.location[r].OnStack?
    requires (exists n: nat :: i.Covers(x, n, q)) && (exists n: nat :: i.Covers(r, n, q))
    ensures forall u :: u in UnitsOf(w.location[x]) ==> u !in UnitsOf(w.location[r])
  {
    hide Input.Valid, UnitsMarked;
    var n: nat :| i.Covers(x, n, q);
    var m: nat :| i.Covers(r, m, q);
    assert SharePoint(i, x, r);
    assert MayClash(i, x, r);
    assert Aligned(i, w, x) && Aligned(i, w, r);
    SlotCells(w.location[x], w.location[r]);
  }

  lemma SlotCells(a: Location, b: Location)
    requires a.OnStack? && b.OnStack? && Apart(a, b)
    requires (a.size == 8 || a.size == 16) && (b.size == 8 || b.size == 16) && a.offset % a.size == 0 && b.offset % b.size == 0
    ensures a.offset / 8 != b.offset / 8
    ensures a.size == 16 ==> a.offset / 8 + 1 != b.offset / 8
    ensures b.size == 16 ==> a.offset / 8 != b.offset / 8 + 1
  {
  }

  lemma ReferencedWritable(i: Input, s: State, w: State, owner: Owners, fn: Function, order: seq<nat>, count: nat, b: nat, x: nat, live: set<nat>)
    requires Placed(i, s, w, owner, fn, order, count) && b < |fn.blocks|
    requires Together(i.ranges, live, b) && x in live && x in ReferencedFrom(fn.blocks[b].body, 0)
    ensures Writable(i, s, w, b, x, live)
  {
    hide Placed, Operand, Place, Together, ReferencedFrom, CoveredAt, Clear;
    NeverSpilledWhereNamed(i, s, w, owner, fn, order, count, b, x);
    var q: nat := TogetherPoint(i, live, b);
    assert CoveredAt(i.ranges, x, q, b);
    OnRange(i, s, w, owner, fn, order, count, x, q, b);
    OperandSome(i, s, x);
    forall r | r in live && r != x
      ensures Clear(Operand(i, s, x), Place(i, s, w, b, r))
    {
      assert CoveredAt(i.ranges, r, q, b);
      OperandsClear(i, s, w, owner, fn, order, count, b, x, live, r, q);
    }
  }

  lemma TogetherPoint(i: Input, live: set<nat>, b: nat) returns (q: nat)
    requires Together(i.ranges, live, b)
    ensures TogetherAt(i.ranges, live, q, b)
  {
    q :| TogetherAt(i.ranges, live, q, b);
  }

  lemma OperandSome(i: Input, s: State, x: nat)
    requires x < i.physical || (x < |s.location| && s.location[x] != Unassigned)
    ensures Operand(i, s, x) != []
  {
  }

  lemma OperandsClear(i: Input, s: State, w: State, owner: Owners, fn: Function, order: seq<nat>, count: nat, b: nat, x: nat, live: set<nat>,
                      r: nat, q: nat)
    requires Placed(i, s, w, owner, fn, order, count) && b < |fn.blocks| && Together(i.ranges, live, b)
    requires x in live && r in live && x != r && x in ReferencedFrom(fn.blocks[b].body, 0)
    requires CoveredAt(i.ranges, x, q, b) && CoveredAt(i.ranges, r, q, b)
    ensures Clear(Operand(i, s, x), Place(i, s, w, b, r))
  {
    hide Together, ReferencedFrom, CoveredAt;
    OnRange(i, s, w, owner, fn, order, count, x, q, b);
    OnRange(i, s, w, owner, fn, order, count, r, q, b);
    PlacedParts(i, s, w, owner, fn, order, count);
    NeverSpilledWhereNamed(i, s, w, owner, fn, order, count, b, x);
    hide Placed, SlotsOk;
    if r in s.spilled[b] {
      SpillsInHardware(i, s, b, r);
      if x >= i.physical && s.location[x].OnStack? {
        SlotsClear(i, s, w, x, r, q);
      }
    } else if r >= i.physical && s.location[r].OnStack? {
      if x >= i.physical && s.location[x].OnStack? {
        SlotsClear(i, s, w, x, r, q);
      }
    } else if x < i.physical || s.location[x].InRegister? {
      var p := if x < i.physical then x else s.location[x].physical;
      if Sits(i, s, r, p) {
        ReferencedApart(i, s, owner, fn.blocks, order, count, b, x, live, r, p);
      }
    }
  }

  lemma SpillsInHardware(i: Input, s: State, b: nat, r: nat)
    requires Sized(i, s) && SpillsCross(i, s) && b < |s.spilled| && r in s.spilled[b]
    ensures i.Free(r) && r < i.Count() && s.location[r].InRegister?
  {
    hide Input.Crosses;
  }

  lemma PlacedParts(i: Input, s: State, w: State, owner: Owners, fn: Function, order: seq<nat>, count: nat)
    requires Placed(i, s, w, owner, fn, order, count)
    ensures forall k :: 0 <= k < |order| ==> order[k] < |fn.blocks|
    ensures Supplies(i, fn.blocks, order, count) && Booked(i, s, owner) && SlotsOk(i, s) && SpillsCross(i, s)
    ensures i.blocks == |fn.blocks| == |s.spilled| && SlotsFor(i, s, w)
  {
  }

  // ----- instructions -----

  /** The runs have seen the same, and live values are where the block has them. */
  ghost predicate Agree(i: Input, s: State, w: State, b: nat, live: set<nat>, a: Running, z: Running)
  {
    && Related(i, s, w, b, live, a.frame, z.frame)
    && a.world == z.world && a.seen == z.seen && a.log == z.log
  }

  lemma Fewer(i: Input, s: State, w: State, b: nat, live: set<nat>, fewer: set<nat>, a: Frame, z: Frame)
    requires Related(i, s, w, b, live, a, z) && fewer <= live
    ensures Related(i, s, w, b, fewer, a, z)
  {
    hide Place, Contains, Read;
  }

  lemma BlockIsTogether(i: Input, s: State, w: State, owner: Owners, fn: Function, order: seq<nat>, count: nat, b: nat)
    requires Placed(i, s, w, owner, fn, order, count) && b in order && !Skipped(fn.blocks[b])
    ensures BlockTogether(i.ranges, fn.blocks[b], b)
  {
    hide Allocating, BlockTogether, OnlyCrosses, CrossesSome, Skipped;
    var j :| 0 <= j < |order| && order[j] == b;
  }

  lemma InstSets(i: Input, s: State, w: State, owner: Owners, fn: Function, order: seq<nat>, count: nat, b: nat, k: nat)
    requires Placed(i, s, w, owner, fn, order, count) && b in order && k < |fn.blocks[b].body|
    ensures InstTogether(i.ranges, fn.blocks[b].body[k], LiveAt(fn.blocks[b].body, k + 1, fn.blocks[b].out), b)
  {
    hide Placed, InstTogether, LiveAt;
    BlockIsTogether(i, s, w, owner, fn, order, count, b);
  }

  /** All of `rs`, named by the block and live beside `live`, may be written. */
  lemma AllWritable(i: Input, s: State, w: State, owner: Owners, fn: Function, order: seq<nat>, count: nat, b: nat, k: nat, rs: seq<nat>, live: set<nat>)
    requires Placed(i, s, w, owner, fn, order, count) && b in order && k < |fn.blocks[b].body|
    requires rs != [] ==> Together(i.ranges, live, b)
    requires forall x :: x in rs ==> x in live && x in Referenced(fn.blocks[b].body[k])
    ensures forall x :: x in rs ==> x in live && Writable(i, s, w, b, x, live)
  {
    hide Placed, Together, Writable, Referenced;
    InOrder(i, s, w, owner, fn, order, count, b);
    forall x | x in rs
      ensures Writable(i, s, w, b, x, live)
    {
      Refers(fn.blocks[b].body, 0, k, x);
      ReferencedWritable(i, s, w, owner, fn, order, count, b, x, live);
    }
  }

  lemma InOrder(i: Input, s: State, w: State, owner: Owners, fn: Function, order: seq<nat>, count: nat, b: nat)
    requires Placed(i, s, w, owner, fn, order, count) && b in order
    ensures b < |fn.blocks|
  {
    hide Supplies, Allocating;
  }

  lemma InstRelated(m: Machine, i: Input, s: State, w: State, owner: Owners, fn: Function, order: seq<nat>, count: nat, b: nat, k: nat,
                    a: Running, z: Running)
    requires Placed(i, s, w, owner, fn, order, count) && b in order && b < |fn.blocks| && k < |fn.blocks[b].body|
    requires fn.blocks[b].body[k].Valid(i.Count())
    requires Agree(i, s, w, b, LiveAt(fn.blocks[b].body, k, fn.blocks[b].out), a, z)
    ensures Agree(i, s, w, b, LiveAt(fn.blocks[b].body, k + 1, fn.blocks[b].out),
                  Exec(m, Own(), fn.blocks[b].body[k], b, k, a), Exec(m, Allocated(i, s), fn.blocks[b].body[k], b, k, z))
  {
    hide Placed, Together, Writable, Related, StoreAll, LoadAll, Own, Allocated;
    var inst, after := fn.blocks[b].body[k], LiveAt(fn.blocks[b].body, k + 1, fn.blocks[b].out);
    InstSets(i, s, w, owner, fn, order, count, b, k);
    assert LiveAt(fn.blocks[b].body, k, fn.blocks[b].out) == Before(inst, after);
    hide LiveAt;
    var early, clobber := m.early(b, k, a.world), m.clobber(b, k, a.world);
    var above := AtCall(inst, after) + Regs(inst.uses) + Regs(inst.early);
    AllWritable(i, s, w, owner, fn, order, count, b, k, inst.early, above);
    StoreRelated(i, s, w, b, Before(inst, after), above, inst.early, early, a.frame, z.frame);
    var a1, z1 := StoreAll(a.frame, Own(), inst.early, early), StoreAll(z.frame, Allocated(i, s), inst.early, early);
    OperandsRead(i, s, w, owner, fn, order, count, b, k, Before(inst, after) + Regs(inst.early), inst.uses + inst.arguments, a1, z1);
    var across := AfterDefs(inst, after) + Regs(inst.clobbers);
    if inst.call {
      TogetherLess(i.ranges, AroundCall(inst, after), across, b);
    }
    AllWritable(i, s, w, owner, fn, order, count, b, k, inst.clobbers, across);
    Fewer(i, s, w, b, Before(inst, after) + Regs(inst.early), AfterDefs(inst, after) - Regs(inst.clobbers), a1, z1);
    StoreRelated(i, s, w, b, AfterDefs(inst, after) - Regs(inst.clobbers), across, inst.clobbers, clobber, a1, z1);
    var a2, z2 := StoreAll(a1, Own(), inst.clobbers, clobber), StoreAll(z1, Allocated(i, s), inst.clobbers, clobber);
    var result := m.result(b, k, LoadAll(a1, Own(), inst.uses + inst.arguments), a.world);
    AllWritable(i, s, w, owner, fn, order, count, b, k, inst.defs, after + Regs(inst.defs));
    Fewer(i, s, w, b, AfterDefs(inst, after) - Regs(inst.clobbers) + Regs(inst.clobbers), AfterDefs(inst, after), a2, z2);
    StoreRelated(i, s, w, b, AfterDefs(inst, after), after + Regs(inst.defs), inst.defs, result, a2, z2);
    Fewer(i, s, w, b, AfterDefs(inst, after) + Regs(inst.defs), after,
          StoreAll(a2, Own(), inst.defs, result), StoreAll(z2, Allocated(i, s), inst.defs, result));
  }

  lemma OperandsRead(i: Input, s: State, w: State, owner: Owners, fn: Function, order: seq<nat>, count: nat, b: nat, k: nat, live: set<nat>,
                     rs: seq<nat>, a: Frame, z: Frame)
    requires Placed(i, s, w, owner, fn, order, count) && b < |fn.blocks| && k < |fn.blocks[b].body| && Related(i, s, w, b, live, a, z)
    requires forall x :: x in rs ==> x in live && x in Referenced(fn.blocks[b].body[k])
    ensures LoadAll(a, Own(), rs) == LoadAll(z, Allocated(i, s), rs)
  {
    hide Placed, Referenced, Place, Operand, LoadAll, Related;
    forall x | x in rs
      ensures Place(i, s, w, b, x) == Operand(i, s, x)
    {
      Refers(fn.blocks[b].body, 0, k, x);
      NeverSpilledWhereNamed(i, s, w, owner, fn, order, count, b, x);
    }
    LoadRelated(i, s, w, b, live, rs, a, z);
  }

  lemma {:induction false} BodyRelated(m: Machine, i: Input, s: State, w: State, owner: Owners, fn: Function, order: seq<nat>, count: nat, b: nat,
                                       next: nat, a: Running, z: Running)
    requires Placed(i, s, w, owner, fn, order, count) && b in order && b < |fn.blocks| && next <= |fn.blocks[b].body|
    requires ValidBlock(fn.blocks[b], i.Count())
    requires Agree(i, s, w, b, LiveAt(fn.blocks[b].body, 0, fn.blocks[b].out), a, z)
    ensures Agree(i, s, w, b, LiveAt(fn.blocks[b].body, next, fn.blocks[b].out),
                  ExecBody(m, Own(), fn.blocks[b].body, b, 0, next, a), ExecBody(m, Allocated(i, s), fn.blocks[b].body, b, 0, next, z))
    decreases next
  {
    hide Placed, Agree, LiveAt, Exec, Inst.Valid;
    if next > 0 {
      var k: nat := next - 1;
      BodyRelated(m, i, s, w, owner, fn, order, count, b, k, a, z);
      InstRelated(m, i, s, w, owner, fn, order, count, b, k,
                  ExecBody(m, Own(), fn.blocks[b].body, b, 0, k, a), ExecBody(m, Allocated(i, s), fn.blocks[b].body, b, 0, k, z));
    }
  }

  lemma {:induction false} BodySplit(m: Machine, where: Locate, body: seq<Inst>, b: nat, cut: nat, next: nat, st: Running)
    requires cut <= next <= |body|
    ensures ExecBody(m, where, body, b, cut, next, ExecBody(m, where, body, b, 0, cut, st)) == ExecBody(m, where, body, b, 0, next, st)
    decreases next
  {
    hide Exec;
    if cut < next {
      BodySplit(m, where, body, b, cut, next - 1, st);
    }
  }
}
