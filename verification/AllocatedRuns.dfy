/** Running a function before and after allocation: operands move to their locations and
    spill code runs around the blocks, and no run can tell. */
module AllocatedRuns {
  import opened Optional
  import opened Graphs
  import opened LiveScan
  import opened LiveRange
  import opened LiveRanges
  import opened AllocationState
  import opened GapSearch
  import opened StackSlots
  import opened Assignment
  import opened AllocationSafety
  import opened FunctionRuns
  import opened OperandRuns
  import Spills = EdgeSpillSemantics
  import Placement = EdgeSpillPlacement
  import Decisions = EdgeSpills
  import SpillSlots

  // ----- spill code around the branch -----

  /** A branch writes nothing, and a jump reads nothing either. */
  ghost predicate QuietEnd(fn: Function, b: nat)
    requires b < |fn.blocks| && b < |fn.ends|
  {
    var body := fn.blocks[b].body;
    !fn.ends[b].Falls? ==>
      && body != []
      && var last := body[|body| - 1];
         && last.defs == [] && last.clobbers == [] && last.early == []
         && (fn.ends[b].Jumps? ==> last.uses == [] && last.arguments == [])
  }

  /** Stores above a branch, and anything above a jump, may as well run after it. */
  lemma EndCommutes(m: Machine, i: Input, s: State, w: State, fn: Function, b: nat, ops: seq<Spills.SpillOp>, st: Running)
    requires b < |fn.blocks| && b < |fn.ends| && (fn.blocks[b].body == [] || QuietEnd(fn, b))
    requires fn.ends[b].Branches? && fn.blocks[b].body != [] ==>
               var last := fn.blocks[b].body[|fn.blocks[b].body| - 1];
               && ReadsApart(i, s, w, last.uses + last.arguments, ops)
               && forall store :: Spills.Run(SpotsOf(i, s, w), ops, store).regs == store.regs
    ensures var body, spots := fn.blocks[b].body, SpotsOf(i, s, w);
            ExecBody(m, Allocated(i, s), body, b, Cut(fn, b), |body|, Spill(spots, ops, st))
            == Spill(spots, ops, ExecBody(m, Allocated(i, s), body, b, Cut(fn, b), |body|, st))
  {
    var body, spots := fn.blocks[b].body, SpotsOf(i, s, w);
    var cut := Cut(fn, b);
    if cut < |body| {
      var last := body[cut];
      var spilled := Spill(spots, ops, st);
      if last.uses + last.arguments != [] {
        Spills.RunTouches(spots, ops, st.frame);
        SameOperands(i, s, w, last.uses + last.arguments, ops, st.frame, spilled.frame);
      }
      NothingRead(i, s, last.uses + last.arguments, st.frame, spilled.frame);
      hide Spills.Run, LoadAll, Operand, Home, Own;
      assert ExecBody(m, Allocated(i, s), body, b, cut, cut, spilled) == spilled;
      assert ExecBody(m, Allocated(i, s), body, b, cut, cut, st) == st;
      assert Exec(m, Allocated(i, s), last, b, cut, spilled) == Spill(spots, ops, Exec(m, Allocated(i, s), last, b, cut, st));
    }
  }

  function StackUnits(i: Input, s: State, x: nat): seq<nat>
  {
    if i.physical <= x < |s.location| then UnitsOf(s.location[x]) else []
  }

  /** No operand of `rs` is in a slot that `ops` write. */
  ghost predicate ReadsApart(i: Input, s: State, w: State, rs: seq<nat>, ops: seq<Spills.SpillOp>)
  {
    forall x, op, u :: x in rs && op in ops && u in StackUnits(i, s, x) ==> u !in SlotUnits(i, s, w, op.reg)
  }

  lemma SameOperands(i: Input, s: State, w: State, rs: seq<nat>, ops: seq<Spills.SpillOp>, f: Frame, f': Frame)
    requires ReadsApart(i, s, w, rs, ops) && f'.regs == f.regs
    requires forall u: nat :: (forall op :: op in ops ==> u !in SpotsOf(i, s, w).units(op.reg)) ==>
               Spills.Get(f'.slots, u) == Spills.Get(f.slots, u)
    ensures LoadAll(f, Allocated(i, s), rs) == LoadAll(f', Allocated(i, s), rs)
  {
    hide SlotUnits;
    forall n | 0 <= n < |rs|
      ensures Load(f, Operand(i, s, rs[n])) == Load(f', Operand(i, s, rs[n]))
    {
      assert rs[n] in rs;
      SameLoad(i, s, rs[n], f, f');
    }
  }

  lemma NothingRead(i: Input, s: State, rs: seq<nat>, f: Frame, f': Frame)
    ensures rs == [] ==> LoadAll(f, Allocated(i, s), rs) == LoadAll(f', Allocated(i, s), rs)
  {
  }

  lemma SameLoad(i: Input, s: State, x: nat, f: Frame, f': Frame)
    requires f'.regs == f.regs && forall u :: u in StackUnits(i, s, x) ==> Spills.Get(f'.slots, u) == Spills.Get(f.slots, u)
    ensures Load(f, Operand(i, s, x)) == Load(f', Operand(i, s, x))
  {
    hide Spills.Get, UnitsOf;
    var cells := Operand(i, s, x);
    if cells != [] && cells[0].Stack? {
      assert cells[0] in cells;
      assert cells[0].unit in StackUnits(i, s, x);
    }
  }

  // ----- the spill facts of an allocation -----

  predicate InHardware(i: Input, s: State, r: nat)
  {
    r < i.physical || (r < |s.location| && s.location[r].InRegister?)
  }

  function HardwareLive(i: Input, s: State, live: set<nat>): set<nat>
  {
    set r | r in live && InHardware(i, s, r)
  }

  function FactsOf(i: Input, s: State, w: State, fn: Function): Spills.Facts
  {
    Spills.Facts(fn.graph, fn.ends, s.spilled, seq(|fn.blocks|, b requires 0 <= b < |fn.blocks| => HardwareLive(i, s, fn.blocks[b].live)),
                 SpotsOf(i, s, w))
  }

  /** What the earlier phases and the analyses establish: all real blocks were scanned,
      liveness flows along the edges, no value is live before the function begins, and a
      block without a branch has one way out. */
  ghost predicate Runnable(physical: nat, registers: nat, fn: Function, order: seq<nat>)
  {
    && fn.graph.Valid() && |fn.blocks| == |fn.ends| == fn.graph.Count() && fn.graph.outgoing[EXIT] == []
    && (forall b: nat :: b in order <==> 2 <= b < fn.graph.Count())
    && (forall b: nat :: b < fn.graph.Count() ==>
          && ValidBlock(fn.blocks[b], registers)
          && LiveAt(fn.blocks[b].body, 0, fn.blocks[b].out) == fn.blocks[b].live
          && (if b < 2 then fn.blocks[b].body == [] else !Skipped(fn.blocks[b]) && QuietEnd(fn, b))
          && (b >= 2 && !fn.ends[b].Branches? ==> |fn.graph.outgoing[b]| <= 1))
    && (forall e: nat :: e < |fn.graph.edges| ==>
          var b := fn.graph.edges[e].source;
          b >= 2 && fn.ends[b].Branches? && |fn.graph.outgoing[b]| == 1 ==> fn.graph.edges[e].destination == EXIT)
    && (forall e: nat :: e < |fn.graph.edges| ==> fn.blocks[fn.graph.edges[e].destination].live <= fn.blocks[fn.graph.edges[e].source].out)
    && fn.blocks[EXIT].live == {} && forall r: nat :: r in fn.blocks[ENTRY].live ==> r < physical
  }

  lemma SpilledIsLive(i: Input, s: State, w: State, owner: Owners, fn: Function, order: seq<nat>, count: nat, b: nat, r: nat)
    requires Placed(i, s, w, owner, fn, order, count) && b < |s.spilled| && r in s.spilled[b]
    ensures b in order && b < |fn.blocks| && r in fn.blocks[b].live && i.Free(r) && r < |s.location| && s.location[r].InRegister?
  {
    hide SpillsCross, Supplies, ReferencedFrom;
    PlacedParts(i, s, w, owner, fn, order, count);
    hide Placed;
    SpilledCrosses(i, s, fn.blocks, order, count, b, r);
  }

  /** Values in hardware at the start of a block have registers of their own. */
  lemma HomesApart(i: Input, s: State, w: State, owner: Owners, fn: Function, order: seq<nat>, count: nat, b: nat, r: nat, x: nat)
    requires Placed(i, s, w, owner, fn, order, count) && b in order && b < |fn.blocks| && !Skipped(fn.blocks[b])
    requires r in fn.blocks[b].live && x in fn.blocks[b].live && r != x && InHardware(i, s, r) && InHardware(i, s, x)
    requires b < |s.spilled| && r !in s.spilled[b] && x !in s.spilled[b]
    ensures Home(i, s, r) != Home(i, s, x)
  {
    hide Placed, CoveredAt, Together, Skipped, LiveAt;
    BlockIsTogether(i, s, w, owner, fn, order, count, b);
    var q := TogetherPoint(i, fn.blocks[b].live, b);
    OnRange(i, s, w, owner, fn, order, count, r, q, b);
    OnRange(i, s, w, owner, fn, order, count, x, q, b);
    PlacedParts(i, s, w, owner, fn, order, count);
    if Home(i, s, r) == Home(i, s, x) {
      SharersSpill(i, s, owner, r, x, Home(i, s, r), q, b);
    }
  }

  ghost predicate SpilledWithin(i: Input, s: State, fn: Function, b: nat)
    requires b < |fn.blocks|
  {
    && b < |s.spilled| && s.spilled[b] <= HardwareLive(i, s, fn.blocks[b].live)
    && forall r: nat :: r in s.spilled[b] ==> b >= 2 && i.Free(r)
  }

  lemma SpillsAreWithin(i: Input, s: State, w: State, owner: Owners, fn: Function, order: seq<nat>, count: nat, b: nat)
    requires Placed(i, s, w, owner, fn, order, count) && b < |fn.blocks| && forall c :: c in order ==> c >= 2
    ensures SpilledWithin(i, s, fn, b)
  {
    PlacedParts(i, s, w, owner, fn, order, count);
    hide Placed;
    forall r: nat | r in s.spilled[b]
      ensures r in HardwareLive(i, s, fn.blocks[b].live) && b >= 2 && i.Free(r)
    {
      SpilledIsLive(i, s, w, owner, fn, order, count, b, r);
    }
  }

  lemma FactsAreValid(i: Input, s: State, w: State, owner: Owners, fn: Function, order: seq<nat>, count: nat)
    requires Placed(i, s, w, owner, fn, order, count) && Runnable(i.physical, i.Count(), fn, order)
    ensures FactsOf(i, s, w, fn).Valid()
  {
    hide Placed, LiveAt, ValidBlock, QuietEnd, Skipped, Home;
    PlacedParts(i, s, w, owner, fn, order, count);
    var f := FactsOf(i, s, w, fn);
    forall b: nat | b < fn.graph.Count()
      ensures SpilledWithin(i, s, fn, b)
    {
      SpillsAreWithin(i, s, w, owner, fn, order, count, b);
    }
    EntryEdges(i, s, fn, order);
    forall b: nat, r: nat, x: nat | b < fn.graph.Count() && r in f.live[b] - f.gen[b] && x in f.live[b] - f.gen[b] && r != x
      ensures f.spots.home(r) != f.spots.home(x)
    {
      assert r in fn.blocks[b].live && x in fn.blocks[b].live;
      if b < 2 {
        assert fn.blocks[EXIT].live == {};
        assert b == ENTRY;
        assert r in fn.blocks[ENTRY].live && x in fn.blocks[ENTRY].live;
        OwnHome(i, s, r);
        OwnHome(i, s, x);
      } else {
        HomesApart(i, s, w, owner, fn, order, count, b, r, x);
      }
    }
    forall b: nat | b < fn.graph.Count()
      ensures Spills.SlotsApart(f.spots, f.live[b])
    {
      StartSlotsApart(i, s, w, owner, fn, order, count, b);
    }
    forall b: nat, r: nat | b < fn.graph.Count() && r in f.gen[b]
      ensures f.spots.units(r) != []
    {
      assert SpilledWithin(i, s, fn, b);
      SpilledHasSlot(i, s, w, fn, b, r);
    }
    forall b: nat | b < fn.graph.Count()
      ensures f.gen[b] <= f.live[b] && (b < 2 ==> f.gen[b] == {})
    {
      assert SpilledWithin(i, s, fn, b);
    }
  }

  lemma SpilledHasSlot(i: Input, s: State, w: State, fn: Function, b: nat, r: nat)
    requires SlotsFor(i, s, w) && b < |fn.blocks| && SpilledWithin(i, s, fn, b) && r in s.spilled[b]
    ensures SlotUnits(i, s, w, r) != []
  {
    assert r in HardwareLive(i, s, fn.blocks[b].live);
  }

  /** Slots of values in hardware that are live together share no unit, and none with a
      value on the stack. */
  lemma LiveSlotsApart(i: Input, s: State, w: State, owner: Owners, fn: Function, order: seq<nat>, count: nat, live: set<nat>, b: nat,
                       r: nat, x: nat)
    requires Placed(i, s, w, owner, fn, order, count) && Together(i.ranges, live, b) && r in live && x in live && r != x
    ensures forall u :: u in SlotUnits(i, s, w, r) ==> u !in SlotUnits(i, s, w, x) && u !in StackUnits(i, s, x)
  {
    hide Placed, CoveredAt, Together, UnitsOf;
    var q := TogetherPoint(i, live, b);
    OnRange(i, s, w, owner, fn, order, count, r, q, b);
    OnRange(i, s, w, owner, fn, order, count, x, q, b);
    PlacedParts(i, s, w, owner, fn, order, count);
    if w.location[r].OnStack? && w.location[x].OnStack? {
      SlotsClear(i, s, w, r, x, q);
    }
    NoUnits(w.location[r]);
    NoUnits(w.location[x]);
    NoUnits(s.location[x]);
  }

  lemma NoUnits(l: Location)
    ensures !l.OnStack? ==> UnitsOf(l) == []
  {
  }

  lemma StartSlotsApart(i: Input, s: State, w: State, owner: Owners, fn: Function, order: seq<nat>, count: nat, b: nat)
    requires Placed(i, s, w, owner, fn, order, count) && Runnable(i.physical, i.Count(), fn, order) && b < |fn.blocks|
    ensures Spills.SlotsApart(SpotsOf(i, s, w), HardwareLive(i, s, fn.blocks[b].live))
  {
    hide Placed, LiveAt, ValidBlock, QuietEnd, Skipped, Together;
    if b >= 2 {
      BlockIsTogether(i, s, w, owner, fn, order, count, b);
      forall r: nat, x: nat, u: nat | r in fn.blocks[b].live && x in fn.blocks[b].live && r != x && u in SlotUnits(i, s, w, r)
        ensures u !in SlotUnits(i, s, w, x)
      {
        LiveSlotsApart(i, s, w, owner, fn, order, count, fn.blocks[b].live, b, r, x);
      }
    } else {
      assert fn.blocks[EXIT].live == {};
      assert forall r: nat :: r in fn.blocks[b].live ==> r < i.physical;
    }
  }

  lemma OwnHome(i: Input, s: State, r: nat)
    requires r < i.physical
    ensures Home(i, s, r) == r
  {
  }

  lemma EntryEdges(i: Input, s: State, fn: Function, order: seq<nat>)
    requires Runnable(i.physical, i.Count(), fn, order) && |s.spilled| == fn.graph.Count()
    requires forall b: nat :: b < fn.graph.Count() ==> SpilledWithin(i, s, fn, b)
    ensures forall e: nat :: e < |fn.graph.edges| && fn.graph.edges[e].source == ENTRY ==> s.spilled[fn.graph.edges[e].destination] == {}
  {
    hide ValidBlock, QuietEnd, Skipped;
    forall e: nat | e < |fn.graph.edges| && fn.graph.edges[e].source == ENTRY
      ensures s.spilled[fn.graph.edges[e].destination] == {}
    {
      var to := fn.graph.edges[e].destination;
      assert LiveAt(fn.blocks[ENTRY].body, 0, fn.blocks[ENTRY].out) == fn.blocks[ENTRY].live;
      assert to < fn.graph.Count() && fn.blocks[to].live <= fn.blocks[ENTRY].out;
      assert fn.blocks[to].live <= fn.blocks[ENTRY].live;
      assert SpilledWithin(i, s, fn, to);
      var live := fn.blocks[to].live;
      assert s.spilled[to] <= live;
      assert forall r: nat :: r in live ==> !i.Free(r);
    }
  }

  // ----- blocks and edges -----

  ghost predicate Setting(i: Input, s: State, w: State, owner: Owners, fn: Function, order: seq<nat>, count: nat, code: Placement.Code)
  {
    && Placed(i, s, w, owner, fn, order, count) && Runnable(i.physical, i.Count(), fn, order)
    && FactsOf(i, s, w, fn).Valid() && Placement.Emitted(FactsOf(i, s, w, fn), code)
  }

  function EndCode(code: Placement.Code, b: nat): seq<Spills.SpillOp>
  {
    Placement.At(code, Placement.Block(b), true)
  }

  lemma NoSpill(spots: Spills.Spots, st: Running)
    ensures Spill(spots, [], st) == st
  {
  }

  /** At the end of a block both runs agree, but for the spill code there. */
  lemma BlockRelated(m: Machine, i: Input, s: State, w: State, owner: Owners, fn: Function, order: seq<nat>, count: nat, code: Placement.Code,
                     b: nat, a: Running, z: Running) returns (z': Running)
    requires Setting(i, s, w, owner, fn, order, count, code) && b < |fn.blocks| && b < |fn.ends|
    requires Agree(i, s, w, b, fn.blocks[b].live, a, z)
    ensures Agree(i, s, w, b, fn.blocks[b].out, ExecBlock(m, fn, Own(), SpotsOf(i, s, w), map[], b, a), z')
    ensures ExecBlock(m, fn, Allocated(i, s), SpotsOf(i, s, w), code, b, z) == Spill(SpotsOf(i, s, w), EndCode(code, b), z')
  {
    hide Placed, Related, Allocated, Own, Home, Exec, Inst.Valid, QuietEnd, Skipped, Placement.Emitted, Spills.Facts.Valid, Graph.Valid;
    var body, spots := fn.blocks[b].body, SpotsOf(i, s, w);
    var a0, z0 := a.(seen := []), z.(seen := []);
    z' := ExecBody(m, Allocated(i, s), body, b, 0, |body|, z0);
    BlockEntered(i, fn, order, b);
    if b >= 2 {
      BodyRelated(m, i, s, w, owner, fn, order, count, b, |body|, a0, z0);
    }
    NoSpill(spots, ExecBody(m, Own(), body, b, 0, Cut(fn, b), a0));
    BodySplit(m, Own(), body, b, Cut(fn, b), |body|, a0);
    BodySplit(m, Allocated(i, s), body, b, Cut(fn, b), |body|, z0);
    EndIsQuiet(i, s, w, fn, order, code, b);
    if b >= 2 && fn.ends[b].Branches? {
      EndReadsApart(i, s, w, owner, fn, order, count, code, b);
    }
    EndCommutes(m, i, s, w, fn, b, EndCode(code, b), ExecBody(m, Allocated(i, s), body, b, 0, Cut(fn, b), z0));
  }

  lemma BlockEntered(i: Input, fn: Function, order: seq<nat>, b: nat)
    requires Runnable(i.physical, i.Count(), fn, order) && b < |fn.blocks|
    ensures ValidBlock(fn.blocks[b], i.Count()) && LiveAt(fn.blocks[b].body, 0, fn.blocks[b].out) == fn.blocks[b].live
    ensures if b < 2 then fn.blocks[b].body == [] && fn.blocks[b].out == fn.blocks[b].live else b in order
  {
    hide ValidBlock, QuietEnd, Skipped, Graph.Valid;
  }

  lemma EndIsQuiet(i: Input, s: State, w: State, fn: Function, order: seq<nat>, code: Placement.Code, b: nat)
    requires Runnable(i.physical, i.Count(), fn, order) && b < |fn.blocks|
    requires FactsOf(i, s, w, fn).Valid() && Placement.Emitted(FactsOf(i, s, w, fn), code)
    ensures b < |fn.ends| && (b < 2 || QuietEnd(fn, b))
    ensures fn.ends[b].Branches? ==> forall store :: Spills.Run(SpotsOf(i, s, w), EndCode(code, b), store).regs == store.regs
  {
    hide ValidBlock, QuietEnd, Skipped, Graph.Valid, Spills.Facts.Valid, Placement.Emitted, Spills.Run, LiveAt;
    if fn.ends[b].Branches? {
      forall store
        ensures Spills.Run(SpotsOf(i, s, w), EndCode(code, b), store).regs == store.regs
      {
        Placement.BranchSeesRegisters(FactsOf(i, s, w, fn), code, b, store);
      }
    }
  }

  /** Where spill code at the end of a block comes from. */
  lemma EndIsLive(i: Input, s: State, w: State, owner: Owners, fn: Function, order: seq<nat>, count: nat, code: Placement.Code,
                  b: nat, op: Spills.SpillOp)
    requires Setting(i, s, w, owner, fn, order, count, code) && b < |fn.blocks| && op in EndCode(code, b)
    ensures op.reg in fn.blocks[b].out && InHardware(i, s, op.reg)
  {
    var f := FactsOf(i, s, w, fn);
    hide Placed, Runnable, Spills.Facts.Valid, Decisions.Hoisted, Decisions.Sunk;
    var p := Placement.Placement(op.reg, Placement.Block(b), true, op.store);
    assert op == Spills.SpillOp(op.reg, op.store);
    assert Placement.Wanted(f, p);
    var e: nat :| e < |f.graph.edges| && Placement.PlacedFor(f, p, e);
    assert f.Src(e) == b;
    Spills.ServingIsApart(f, e);
    EdgeFlows(i, s, w, owner, fn, order, count, e);
    Decisions.EndsInRange(f);
    assert op.reg in f.Stores(e) + f.Restores(e);
  }

  lemma EndReadsApart(i: Input, s: State, w: State, owner: Owners, fn: Function, order: seq<nat>, count: nat, code: Placement.Code, b: nat)
    requires Setting(i, s, w, owner, fn, order, count, code) && b in order && b < |fn.blocks| && b < |fn.ends|
    requires fn.ends[b].Branches? && QuietEnd(fn, b)
    ensures var last := fn.blocks[b].body[|fn.blocks[b].body| - 1];
            ReadsApart(i, s, w, last.uses + last.arguments, EndCode(code, b))
  {
    hide Setting, Together, SlotUnits, StackUnits, LiveAt, EndCode;
    SettingIsPlaced(i, s, w, owner, fn, order, count, code);
    var last := fn.blocks[b].body[|fn.blocks[b].body| - 1];
    EndTogether(i, s, w, owner, fn, order, count, b);
    var live := fn.blocks[b].out + Regs(last.uses) + Regs(last.arguments);
    forall x: nat, op, u: nat | x in last.uses + last.arguments && op in EndCode(code, b) && u in StackUnits(i, s, x)
      ensures u !in SlotUnits(i, s, w, op.reg)
    {
      EndIsLive(i, s, w, owner, fn, order, count, code, b, op);
      OnStackOnly(i, s, x, op.reg);
      assert x in live && op.reg in live;
      hide Placed, Runnable;
      LiveSlotsApart(i, s, w, owner, fn, order, count, live, b, op.reg, x);
    }
  }

  /** What a branch reads is live together with everything that leaves the block. */
  lemma EndTogether(i: Input, s: State, w: State, owner: Owners, fn: Function, order: seq<nat>, count: nat, b: nat)
    requires Placed(i, s, w, owner, fn, order, count) && b in order && b < |fn.blocks| && b < |fn.ends|
    requires fn.ends[b].Branches? && QuietEnd(fn, b)
    ensures var last := fn.blocks[b].body[|fn.blocks[b].body| - 1];
            Together(i.ranges, fn.blocks[b].out + Regs(last.uses) + Regs(last.arguments), b)
  {
    var body, out := fn.blocks[b].body, fn.blocks[b].out;
    var last := body[|body| - 1];
    assert LiveAt(body, |body|, out) == out;
    hide Placed, Together, LiveAt;
    InstSets(i, s, w, owner, fn, order, count, b, |body| - 1);
    assert out + Regs(last.uses) + Regs(last.arguments) == AtCall(last, out) + Regs(last.uses) + Regs(last.early);
  }

  lemma OnStackOnly(i: Input, s: State, x: nat, r: nat)
    requires StackUnits(i, s, x) != [] && InHardware(i, s, r)
    ensures x != r
  {
  }

  lemma SettingIsPlaced(i: Input, s: State, w: State, owner: Owners, fn: Function, order: seq<nat>, count: nat, code: Placement.Code)
    requires Setting(i, s, w, owner, fn, order, count, code)
    ensures Placed(i, s, w, owner, fn, order, count) && Runnable(i.physical, i.Count(), fn, order)
  {
  }

  lemma RelatedIsFound(i: Input, s: State, w: State, fn: Function, b: nat, live: set<nat>, a: Frame, z: Frame)
    requires b < |s.spilled| && b < |FactsOf(i, s, w, fn).gen| && Related(i, s, w, b, live, a, z)
    ensures Spills.Found(FactsOf(i, s, w, fn), b, HardwareLive(i, s, live), a.regs, z)
  {
    var f := FactsOf(i, s, w, fn);
    forall r: nat | r in HardwareLive(i, s, live)
      ensures if r in f.gen[b] then Spills.Kept(z.slots, f.spots.units(r), Spills.Get(a.regs, r))
              else Spills.Get(z.regs, f.spots.home(r)) == Spills.Get(a.regs, r)
    {
      assert Contains(z, Place(i, s, w, b, r), Read(a, Reg(r)));
      HardwarePlace(i, s, w, b, r);
      if r in s.spilled[b] {
        CellsKept(z, SlotUnits(i, s, w, r), Spills.Get(a.regs, r));
      } else {
        assert Reg(Home(i, s, r)) in Place(i, s, w, b, r);
      }
    }
  }

  lemma CellsKept(z: Frame, units: seq<nat>, v: int)
    ensures Contains(z, Cells(units), v) <==> Spills.Kept(z.slots, units, v)
  {
    if Contains(z, Cells(units), v) {
      forall u | u in units
        ensures Spills.Get(z.slots, u) == v
      {
        assert Stack(u) in Cells(units);
      }
    }
  }

  lemma HardwarePlace(i: Input, s: State, w: State, b: nat, r: nat)
    requires b < |s.spilled| && InHardware(i, s, r)
    ensures Place(i, s, w, b, r) == if r in s.spilled[b] then Cells(SlotUnits(i, s, w, r)) else [Reg(Home(i, s, r))]
  {
  }

  /** On its way along an edge a value in hardware moves between slot and register, and a
      value on the stack stays where it is. */
  lemma FoundIsRelated(i: Input, s: State, w: State, fn: Function, src: nat, dst: nat, live: set<nat>, a: Frame, z: Frame, z': Frame)
    requires src < |s.spilled| && dst < |s.spilled| && Related(i, s, w, src, live, a, z)
    requires src < |fn.blocks| && dst < |fn.blocks| && SpilledWithin(i, s, fn, src) && SpilledWithin(i, s, fn, dst)
    requires Spills.Found(FactsOf(i, s, w, fn), dst, HardwareLive(i, s, live), a.regs, z')
    requires forall r: nat, u: nat :: r in live && !InHardware(i, s, r) && u in StackUnits(i, s, r) ==>
               Spills.Get(z'.slots, u) == Spills.Get(z.slots, u)
    ensures Related(i, s, w, dst, live, a, z')
  {
    hide Spills.Get, StackUnits, SlotUnits, Operand, Home;
    forall r: nat | r in live
      ensures Contains(z', Place(i, s, w, dst, r), Read(a, Reg(r)))
    {
      if InHardware(i, s, r) {
        HardwarePlace(i, s, w, dst, r);
        assert r in HardwareLive(i, s, live);
        if r in s.spilled[dst] {
          CellsKept(z', SlotUnits(i, s, w, r), Spills.Get(a.regs, r));
        }
      } else {
        assert Contains(z, Place(i, s, w, src, r), Read(a, Reg(r)));
        StackPlace(i, s, w, fn, src, r);
        StackPlace(i, s, w, fn, dst, r);
      }
    }
  }

  lemma StackPlace(i: Input, s: State, w: State, fn: Function, b: nat, r: nat)
    requires b < |fn.blocks| && SpilledWithin(i, s, fn, b) && !InHardware(i, s, r)
    ensures Place(i, s, w, b, r) == Operand(i, s, r) && forall c :: c in Operand(i, s, r) ==> c.Stack? && c.unit in StackUnits(i, s, r)
  {
    assert r !in HardwareLive(i, s, fn.blocks[b].live);
    var units := StackUnits(i, s, r);
    assert forall c :: c in Cells(units) ==> c == Stack(c.unit);
  }

  /** Stores on an edge spare the values on the stack that are live at its end. */
  lemma StackUntouched(i: Input, s: State, w: State, owner: Owners, fn: Function, order: seq<nat>, count: nat, code: Placement.Code,
                       e: nat, r: nat, u: nat)
    requires Setting(i, s, w, owner, fn, order, count, code) && e < |fn.graph.edges| && fn.graph.edges[e].destination < |fn.blocks|
    requires r in fn.blocks[fn.graph.edges[e].destination].live && !InHardware(i, s, r) && u in StackUnits(i, s, r)
    ensures Spills.OffSlots(SpotsOf(i, s, w), FactsOf(i, s, w, fn).Stores(e), u)
  {
    var f, dst := FactsOf(i, s, w, fn), fn.graph.edges[e].destination;
    Spills.ServingIsApart(f, e);
    hide Placed, Spills.Facts.Valid, Placement.Emitted, StackUnits, SlotUnits, Together;
    BlockEntered(i, fn, order, dst);
    SettingIsReal(i, fn, order, dst);
    hide Runnable;
    forall x | x in f.Stores(e)
      ensures u !in SlotUnits(i, s, w, x)
    {
      assert x in HardwareLive(i, s, fn.blocks[dst].live);
      if dst >= 2 {
        BlockIsTogether(i, s, w, owner, fn, order, count, dst);
        LiveSlotsApart(i, s, w, owner, fn, order, count, fn.blocks[dst].live, dst, x, r);
      } else {
        PhysicalHasNone(i, s, w, x);
      }
    }
  }

  lemma PhysicalHasNone(i: Input, s: State, w: State, x: nat)
    requires x < i.physical
    ensures SlotUnits(i, s, w, x) == []
  {
  }

  lemma SettingIsReal(i: Input, fn: Function, order: seq<nat>, b: nat)
    requires Runnable(i.physical, i.Count(), fn, order) && b < |fn.blocks|
    ensures b >= 2 ==> b in order && !Skipped(fn.blocks[b])
    ensures b < 2 ==> forall r: nat :: r in fn.blocks[b].live ==> r < i.physical
  {
    hide ValidBlock, QuietEnd, LiveAt, Skipped;
    assert fn.blocks[EXIT].live == {};
  }

  lemma EdgeRelated(i: Input, s: State, w: State, owner: Owners, fn: Function, order: seq<nat>, count: nat, code: Placement.Code, e: nat, a: Frame, z: Frame)
    requires Setting(i, s, w, owner, fn, order, count, code) && e < |fn.graph.edges|
    requires fn.graph.edges[e].source < |fn.blocks| && fn.graph.edges[e].destination < |fn.blocks|
    requires Related(i, s, w, fn.graph.edges[e].source, fn.blocks[fn.graph.edges[e].source].out, a, z)
    ensures var (src, dst) := (fn.graph.edges[e].source, fn.graph.edges[e].destination);
            Related(i, s, w, dst, fn.blocks[dst].live, a,
                    Spills.Run(SpotsOf(i, s, w), Placement.Between(code, e, src, dst), z))
  {
    var src, dst := fn.graph.edges[e].source, fn.graph.edges[e].destination;
    var f, live := FactsOf(i, s, w, fn), fn.blocks[dst].live;
    EdgeFlows(i, s, w, owner, fn, order, count, e);
    Fewer(i, s, w, src, fn.blocks[src].out, live, a, z);
    RelatedIsFound(i, s, w, fn, src, live, a, z);
    hide Placed, Runnable, Related, Spills.Found, Spills.Run, Placement.Emitted, Placement.Between, Spills.Facts.Valid, Home, SlotUnits,
         StackUnits, Spills.Serves, Spills.OffSlots;
    Placement.EdgeServed(f, code, e);
    var ops := Placement.Between(code, e, src, dst);
    Spills.ServeFinds(f, e, ops, a.regs, z);
    forall r: nat, u: nat | r in live && !InHardware(i, s, r) && u in StackUnits(i, s, r)
      ensures Spills.OffSlots(SpotsOf(i, s, w), f.Stores(e), u)
    {
      StackUntouched(i, s, w, owner, fn, order, count, code, e, r, u);
    }
    FoundIsRelated(i, s, w, fn, src, dst, live, a, z, Spills.Run(SpotsOf(i, s, w), ops, z));
  }

  lemma EdgeFlows(i: Input, s: State, w: State, owner: Owners, fn: Function, order: seq<nat>, count: nat, e: nat)
    requires Placed(i, s, w, owner, fn, order, count) && Runnable(i.physical, i.Count(), fn, order) && e < |fn.graph.edges|
    ensures var (src, dst) := (fn.graph.edges[e].source, fn.graph.edges[e].destination);
            && src < |fn.blocks| && dst < |fn.blocks| && fn.blocks[dst].live <= fn.blocks[src].out
            && SpilledWithin(i, s, fn, src) && SpilledWithin(i, s, fn, dst)
  {
    hide Placed, ValidBlock, QuietEnd, Skipped, LiveAt, SpilledWithin;
    SpillsAreWithin(i, s, w, owner, fn, order, count, fn.graph.edges[e].source);
    SpillsAreWithin(i, s, w, owner, fn, order, count, fn.graph.edges[e].destination);
  }

  // ----- whole runs -----

  /** Both runs are at the same place and have seen the same. */
  ghost predicate SamePoint(a: Point, z: Point)
  {
    && a.block == z.block && a.stopped == z.stopped
    && a.running.world == z.running.world && a.running.seen == z.running.seen && a.running.log == z.running.log
  }

  ghost predicate InStep(i: Input, s: State, w: State, fn: Function, a: Point, z: Point)
  {
    && SamePoint(a, z) && a.block < |fn.blocks|
    && (!a.stopped ==> Related(i, s, w, a.block, fn.blocks[a.block].live, a.running.frame, z.running.frame))
  }

  lemma NextRelated(m: Machine, i: Input, s: State, w: State, owner: Owners, fn: Function, order: seq<nat>, count: nat, code: Placement.Code, a: Point, z: Point)
    requires Setting(i, s, w, owner, fn, order, count, code) && InStep(i, s, w, fn, a, z)
    ensures fn.graph.Valid() && |fn.blocks| == |fn.ends| == fn.graph.Count()
    ensures InStep(i, s, w, fn, Next(m, fn, Own(), SpotsOf(i, s, w), map[], a), Next(m, fn, Allocated(i, s), SpotsOf(i, s, w), code, z))
  {
    hide Placed, Spills.Facts.Valid, Placement.Emitted, Related, LiveAt, ValidBlock, QuietEnd, Skipped, ExecBlock, Spills.Run, Own, Allocated, Home;
    if !a.stopped {
      var spots := SpotsOf(i, s, w);
      var z' := BlockRelated(m, i, s, w, owner, fn, order, count, code, a.block, a.running, z.running);
      var left := ExecBlock(m, fn, Own(), spots, map[], a.block, a.running);
      var e := m.choose(a.block, left.seen, left.world);
      if e in fn.graph.outgoing[a.block] {
        assert fn.graph.edges[e].source == a.block;
        var to := fn.graph.edges[e].destination;
        EdgeRelated(i, s, w, owner, fn, order, count, code, e, left.frame, z'.frame);
        SpillTwice(spots, EndCode(code, a.block), Placement.At(code, Placement.OnEdge(e), false) + Placement.At(code, Placement.Block(to), false), z');
        BetweenParts(code, e, a.block, to);
        NoSpill(spots, left);
      }
    }
  }

  lemma BetweenParts(code: Placement.Code, e: nat, src: nat, dst: nat)
    ensures EndCode(code, src) + (Placement.At(code, Placement.OnEdge(e), false) + Placement.At(code, Placement.Block(dst), false))
            == Placement.Between(code, e, src, dst)
    ensures Placement.At(map[], Placement.OnEdge(e), false) + Placement.At(map[], Placement.Block(dst), false) == []
  {
  }

  lemma SpillTwice(spots: Spills.Spots, first: seq<Spills.SpillOp>, second: seq<Spills.SpillOp>, st: Running)
    ensures Spill(spots, second, Spill(spots, first, st)) == Spill(spots, first + second, st)
  {
    hide Spills.Run;
    Spills.RunAppend(spots, first, second, st.frame);
  }

  /** After any number of blocks the allocated function is where the original one is, has
      read the same values in every instruction and left the world in the same state. */
  lemma {:induction false} SameRuns(m: Machine, i: Input, s: State, w: State, owner: Owners, fn: Function, order: seq<nat>, count: nat,
                                    code: Placement.Code, a: Frame, z: Frame, world: int, steps: nat)
    requires Setting(i, s, w, owner, fn, order, count, code) && fn.graph.Valid() && |fn.blocks| == |fn.ends| == fn.graph.Count()
    requires Related(i, s, w, ENTRY, fn.blocks[ENTRY].live, a, z)
    ensures InStep(i, s, w, fn, Steps(m, fn, Own(), SpotsOf(i, s, w), map[], Running(a, world, [], []), steps),
                      Steps(m, fn, Allocated(i, s), SpotsOf(i, s, w), code, Running(z, world, [], []), steps))
    decreases steps
  {
    hide Setting, InStep, Related, Own, Allocated, Home, Next;
    if steps == 0 {
      StartTogether(i, s, w, fn, a, z, world);
    } else {
      SameRuns(m, i, s, w, owner, fn, order, count, code, a, z, world, steps - 1);
      NextRelated(m, i, s, w, owner, fn, order, count, code,
                  Steps(m, fn, Own(), SpotsOf(i, s, w), map[], Running(a, world, [], []), steps - 1),
                  Steps(m, fn, Allocated(i, s), SpotsOf(i, s, w), code, Running(z, world, [], []), steps - 1));
    }
  }

  lemma StartTogether(i: Input, s: State, w: State, fn: Function, a: Frame, z: Frame, world: int)
    requires ENTRY < |fn.blocks| && Related(i, s, w, ENTRY, fn.blocks[ENTRY].live, a, z)
    ensures InStep(i, s, w, fn, Point(ENTRY, false, Running(a, world, [], [])), Point(ENTRY, false, Running(z, world, [], [])))
  {
  }

  ghost predicate SameRunsAlways(i: Input, s: State, w: State, fn: Function, code: Placement.Code)
    requires fn.graph.Valid() && |fn.blocks| == |fn.ends| == fn.graph.Count()
  {
    forall m, a, z, world, steps: nat :: Related(i, s, w, ENTRY, fn.blocks[ENTRY].live, a, z) ==>
      InStep(i, s, w, fn, Steps(m, fn, Own(), SpotsOf(i, s, w), map[], Running(a, world, [], []), steps),
             Steps(m, fn, Allocated(i, s), SpotsOf(i, s, w), code, Running(z, world, [], []), steps))
  }

  /** What the target and the frequencies supply, completed by the live ranges. */
  function Complete(target: Input, ranges: seq<seq<Range>>, count: nat, blocks: nat, crossed: set<nat>): Input
  {
    target.(ranges := ranges, points := if count == 0 then 0 else count - 1, blocks := blocks, crossed := crossed,
            bound := seq(|ranges|, _ => None))
  }

  /** Live ranges, locations and spill code of a function. Whatever order the registers are
      placed in, no run can tell the result from the function itself. */
  method Allocate(fn: Function, target: Input, registers: nat, order: seq<nat>, priority: seq<nat>)
      returns (ok: bool, i: Input, s: State, w: State, code: Placement.Code)
    requires target.physical <= registers && Runnable(target.physical, registers, fn, order)
    requires forall k :: 0 <= k < |order| ==> order[k] < |fn.blocks|
    requires forall j, k :: 0 <= j < k < |order| ==> order[j] != order[k]
    requires forall j, k :: 0 <= j < k < |priority| ==> priority[j] != priority[k]
    requires forall r: nat :: r in priority <==> target.physical <= r < registers
    requires target.addressable == {} && forall p :: p in target.globals || p in target.clobbered ==> p < target.physical
    ensures ok ==> SameRunsAlways(i, s, w, fn, code)
    ensures !ok ==> OrderTicks(fn.blocks, order, |order|) > POINT_LIMIT || (i.advanced && !Affordable(i))
  {
    hide Runnable, SameRunsAlways, Scannable, Allocating, RangesFor, Affordable, SlotsFor, SpillSlots.Slotted, SlotsOk, SpillsCross;
    OrderInBlocks(target.physical, registers, fn, order);
    var ranges, count, crossed, kills;
    ok, ranges, count, crossed, kills := BuildRanges(registers, target.physical, fn.blocks, order);
    i, s, code := target, State([], [], [], map[], [], [], 0, 0), map[];
    w := s;
    RunnableScans(target.physical, registers, fn, order);
    if !ok {
      return;
    }
    RangesSized(registers, target.physical, fn.blocks, order, ranges, count, crossed);
    i := Complete(target, ranges, count, |fn.blocks|, crossed);
    CompleteSupplies(i, fn, order, count);
    BuiltRangesFit(i, fn.blocks, order, count);
    AllVirtualsFree(i, priority);
    ghost var owner;
    ok, s, owner := Assign(i, priority);
    if !ok {
      return;
    }
    AllocatingParts(i, s, owner);
    var spilled := SpilledRegisters(s.spilled);
    SpilledInHardware(i, s, owner, spilled);
    w := SpillSlots.PreserveAll(i, s, spilled);
    SlottedServes(i, s, w, spilled);
    AllPlaced(i, s, w, owner, fn, order, count, priority);
    FactsAreValid(i, s, w, owner, fn, order, count);
    code := Placement.Insert(FactsOf(i, s, w, fn));
    AllRunsSame(i, s, w, owner, fn, order, count, code);
  }

  lemma OrderInBlocks(physical: nat, registers: nat, fn: Function, order: seq<nat>)
    requires Runnable(physical, registers, fn, order)
    ensures fn.graph.Valid() && |fn.blocks| == |fn.ends| == fn.graph.Count()
    ensures forall k :: 0 <= k < |order| ==> order[k] < |fn.blocks|
    ensures forall b :: 0 <= b < |fn.blocks| ==> ValidBlock(fn.blocks[b], registers)
  {
    hide LiveAt, ValidBlock, QuietEnd, Skipped;
    assert forall k :: 0 <= k < |order| ==> order[k] in order;
  }

  lemma RunnableScans(physical: nat, registers: nat, fn: Function, order: seq<nat>)
    requires Runnable(physical, registers, fn, order) && forall k :: 0 <= k < |order| ==> order[k] < |fn.blocks|
    ensures Scannable(fn.blocks, order) <==> OrderTicks(fn.blocks, order, |order|) <= POINT_LIMIT
  {
    hide LiveAt, ValidBlock, QuietEnd, Skipped;
  }

  lemma RangesSized(registers: nat, physical: nat, blocks: seq<Block>, order: seq<nat>, ranges: seq<seq<Range>>, count: nat, crossed: set<nat>)
    requires forall k :: 0 <= k < |order| ==> order[k] < |blocks|
    requires RangesFor(registers, physical, blocks, order, ranges, count, crossed)
    ensures |ranges| == registers
  {
  }

  lemma CompleteSupplies(i: Input, fn: Function, order: seq<nat>, count: nat)
    requires forall k :: 0 <= k < |order| ==> order[k] < |fn.blocks|
    requires RangesFor(i.Count(), i.physical, fn.blocks, order, i.ranges, count, i.crossed)
    requires count <= i.points + 1 && i.blocks == |fn.blocks|
    ensures Supplies(i, fn.blocks, order, count)
  {
  }

  lemma AllVirtualsFree(i: Input, priority: seq<nat>)
    requires i.bound == seq(i.Count(), _ => None) && i.addressable == {}
    requires forall r: nat :: r in priority <==> i.physical <= r < i.Count()
    requires forall j, k :: 0 <= j < k < |priority| ==> priority[j] != priority[k]
    ensures Order(i, priority) && forall r: nat :: i.Virtual(r) ==> i.Free(r) && r in priority
    ensures forall k :: 0 <= k < |priority| ==> priority[k] < i.Count()
  {
    assert forall k :: 0 <= k < |priority| ==> priority[k] in priority;
  }

  lemma AllocatingParts(i: Input, s: State, owner: Owners)
    requires Allocating(i, s, owner)
    ensures i.Valid() && Sized(i, s) && SlotsOk(i, s) && SpillsCross(i, s)
  {
    hide Owned, Marked, GapsOk, SpillsRecorded, SlotsOk, SpillsCross;
  }

  /** The registers that some block holds spilled; their order decides which of the free
      slots they get. */
  method SpilledRegisters(spilled: seq<set<nat>>) returns (regs: seq<nat>)
    ensures forall r: nat :: r in regs <==> exists b :: 0 <= b < |spilled| && r in spilled[b]
  {
    regs := [];
    for b := 0 to |spilled|
      invariant forall r: nat :: r in regs <==> exists c :: 0 <= c < b && r in spilled[c]
    {
      ghost var before := regs;
      var todo := spilled[b];
      while todo != {}
        invariant todo <= spilled[b]
        invariant forall r: nat :: r in regs <==> r in before || r in spilled[b] - todo
        decreases todo
      {
        var r :| r in todo;
        regs := regs + [r];
        todo := todo - {r};
      }
    }
  }

  lemma SpilledInHardware(i: Input, s: State, owner: Owners, regs: seq<nat>)
    requires i.Valid() && Sized(i, s) && SpillsCross(i, s)
    requires forall r: nat :: r in regs <==> exists b :: 0 <= b < |s.spilled| && r in s.spilled[b]
    ensures forall k :: 0 <= k < |regs| ==> i.Virtual(regs[k]) && s.location[regs[k]].InRegister?
  {
    hide Input.Crosses, Input.Valid;
    forall k | 0 <= k < |regs|
      ensures i.Virtual(regs[k]) && s.location[regs[k]].InRegister?
    {
      assert regs[k] in regs;
      var b: nat :| b < |s.spilled| && regs[k] in s.spilled[b];
      assert i.Free(regs[k]);
    }
  }

  lemma SlottedServes(i: Input, s: State, w: State, regs: seq<nat>)
    requires i.Valid() && Sized(i, s) && SpillSlots.Slotted(i, s, w, set r | r in regs) && SpillsCross(i, s)
    requires forall r: nat :: r in regs <==> exists b :: 0 <= b < |s.spilled| && r in s.spilled[b]
    ensures SlotsFor(i, s, w)
  {
    hide Input.Crosses, Input.Valid, SlotsOk, Input.Free;
    forall b: nat | b < |s.spilled|
      ensures HaveSlots(w, s.spilled[b])
    {
      forall r | r in s.spilled[b]
        ensures r < |w.location| && w.location[r].OnStack?
      {
        SpillsInHardware(i, s, b, r);
        assert r in regs;
        assert r in set x | x in regs;
      }
    }
  }

  lemma AllPlaced(i: Input, s: State, w: State, owner: Owners, fn: Function, order: seq<nat>, count: nat, priority: seq<nat>)
    requires forall k :: 0 <= k < |order| ==> order[k] < |fn.blocks|
    requires Supplies(i, fn.blocks, order, count) && Allocating(i, s, owner) && |s.location| == i.Count() && SlotsFor(i, s, w)
    requires forall r: nat :: i.Virtual(r) ==> i.Free(r) && r in priority
    requires forall k :: 0 <= k < |priority| ==> priority[k] < i.Count()
    requires forall k :: 0 <= k < |priority| && i.ranges[priority[k]] != [] ==> s.location[priority[k]] != Unassigned
    ensures Placed(i, s, w, owner, fn, order, count)
  {
    hide Supplies, Allocating, SlotsFor;
  }

  lemma AllRunsSame(i: Input, s: State, w: State, owner: Owners, fn: Function, order: seq<nat>, count: nat, code: Placement.Code)
    requires Setting(i, s, w, owner, fn, order, count, code) && fn.graph.Valid() && |fn.blocks| == |fn.ends| == fn.graph.Count()
    ensures SameRunsAlways(i, s, w, fn, code)
  {
    hide Setting, Related, InStep, Steps;
    forall m, a, z, world, steps: nat | Related(i, s, w, ENTRY, fn.blocks[ENTRY].live, a, z)
      ensures InStep(i, s, w, fn, Steps(m, fn, Own(), SpotsOf(i, s, w), map[], Running(a, world, [], []), steps),
                     Steps(m, fn, Allocated(i, s), SpotsOf(i, s, w), code, Running(z, world, [], []), steps))
    {
      SameRuns(m, i, s, w, owner, fn, order, count, code, a, z, world, steps);
    }
  }
}
