/** The scan, the compression and the assignment together: no value is overwritten
    while it is live, neither by another definition nor by a call. */
module AllocationSafety {
  import opened LiveRange
  import opened LiveScan
  import opened PointCompression
  import opened LiveRanges
  import opened AllocationState
  import opened RegisterChoice
  import opened Assignment

  /** The allocator's input carries the ranges that were built for the function. */
  ghost predicate Supplies(i: Input, blocks: seq<Block>, order: seq<nat>, count: nat)
    requires forall k :: 0 <= k < |order| ==> order[k] < |blocks|
  {
    && RangesFor(i.Count(), i.physical, blocks, order, i.ranges, count, i.crossed)
    && count <= i.points + 1 && i.blocks == |blocks|
  }

  /** Built ranges meet what the assignment assumes of ranges. */
  lemma BuiltRangesFit(i: Input, blocks: seq<Block>, order: seq<nat>, count: nat)
    requires forall k :: 0 <= k < |order| ==> order[k] < |blocks|
    requires Supplies(i, blocks, order, count) && i.physical <= |i.ranges| == |i.bound|
    requires forall p :: p in i.globals || p in i.clobbered ==> p < i.physical
    requires forall r :: r in i.addressable ==> i.Virtual(r)
    ensures i.Valid()
  {
    forall r: nat | r < |i.ranges|
      ensures Descending(i.ranges[r], count)
    {
    }
    hide AllDescending, LiveAt, ReferencedFrom, BlockTogether, CrossesSome;
    forall r: nat, n: nat, k: nat | i.HasRange(r, n) && k < |i.ranges[r][n].blocks|
      ensures i.ranges[r][n].blocks[k] < i.blocks
    {
      assert Mentions(i.ranges[r], i.ranges[r][n].blocks[k]);
      assert OnlyCrosses(blocks, order, r, i.ranges[r][n].blocks[k]);
    }
  }

  lemma AcrossIsCrossed(blocks: seq<Block>, order: seq<nat>, physical: nat, b: nat, k: nat, r: nat)
    requires b in order && b < |blocks| && k < |blocks[b].body| && blocks[b].body[k].call
    requires r >= physical && forall p :: p in blocks[b].body[k].clobbers ==> p < physical
    requires r in AfterDefs(blocks[b].body[k], LiveAt(blocks[b].body, k + 1, blocks[b].out))
    ensures CrossesSome(blocks, order, physical, r)
  {
    CallCrosses(blocks[b].body, 0, k, blocks[b].out, physical, r);
  }

  lemma {:induction false} CallCrosses(body: seq<Inst>, from: nat, k: nat, out: set<nat>, physical: nat, r: nat)
    requires from <= k < |body| && body[k].call
    requires r >= physical && forall p :: p in body[k].clobbers ==> p < physical
    requires r in AfterDefs(body[k], LiveAt(body, k + 1, out))
    ensures r in CrossedFrom(body, from, out, physical)
    decreases k - from
  {
    if from < k {
      CallCrosses(body, from + 1, k, out, physical, r);
    }
  }

  /** A virtual register that is live across a call is in memory, in a register the
      call preserves for its type, or spilled in the block of the call. */
  lemma LiveAcrossCall(i: Input, s: State, owner: Owners, blocks: seq<Block>, order: seq<nat>, count: nat, j: nat, k: nat, r: nat)
    requires forall k :: 0 <= k < |order| ==> order[k] < |blocks|
    requires Supplies(i, blocks, order, count) && Booked(i, s, owner)
    requires forall c: nat :: i.Free(c) && s.location[c].InRegister? ==> Accepts(i, s.location[c].physical, c)
    requires j < |order| && k < |blocks[order[j]].body| && blocks[order[j]].body[k].call
    requires Regs(blocks[order[j]].body[k].clobbers) == i.clobbered
    requires i.Free(r) && s.location[r] != Unassigned
    requires r in AfterDefs(blocks[order[j]].body[k], LiveAt(blocks[order[j]].body, k + 1, blocks[order[j]].out))
    ensures || s.location[r].OnStack?
            || (s.location[r].physical !in i.clobbered && !i.partly(s.location[r].physical, r))
            || (order[j] < i.blocks && r in s.spilled[order[j]])
  {
    var b := blocks[order[j]];
    var call, after := b.body[k], LiveAt(b.body, k + 1, b.out);
    ClobbersPhysical(i, s, owner);
    assert forall p :: p in call.clobbers ==> p in Regs(call.clobbers);
    AcrossIsCrossed(blocks, order, i.physical, order[j], k, r);
    assert r in i.crossed by { CrossedIsKnown(i, blocks, order, count, r); }
    if s.location[r].InRegister? && s.location[r].physical in i.clobbered {
      CallPoint(i, blocks, order, count, j, k);
      var q: nat :| TogetherAt(i.ranges, AfterDefs(call, after) + Regs(call.clobbers), q, order[j]);
      SharersSpill(i, s, owner, s.location[r].physical, r, s.location[r].physical, q, order[j]);
    }
  }

  lemma ClobbersPhysical(i: Input, s: State, owner: Owners)
    requires Booked(i, s, owner)
    ensures forall p :: p in i.clobbered ==> p < i.physical
    ensures |s.location| == i.Count()
  {
  }

  lemma CrossedIsKnown(i: Input, blocks: seq<Block>, order: seq<nat>, count: nat, r: nat)
    requires forall k :: 0 <= k < |order| ==> order[k] < |blocks|
    requires Supplies(i, blocks, order, count) && CrossesSome(blocks, order, i.physical, r)
    ensures r in i.crossed
  {
  }

  lemma CallPoint(i: Input, blocks: seq<Block>, order: seq<nat>, count: nat, j: nat, k: nat)
    requires forall k :: 0 <= k < |order| ==> order[k] < |blocks|
    requires Supplies(i, blocks, order, count)
    requires j < |order| && k < |blocks[order[j]].body| && blocks[order[j]].body[k].call
    ensures var b := blocks[order[j]];
            Together(i.ranges, AfterDefs(b.body[k], LiveAt(b.body, k + 1, b.out)) + Regs(b.body[k].clobbers), order[j])
  {
    hide AllDescending, LiveAt, ReferencedFrom, CrossesSome, Together;
    assert !Skipped(blocks[order[j]]);
    assert BlockTogether(i.ranges, blocks[order[j]], order[j]);
    var call, after := blocks[order[j]].body[k], LiveAt(blocks[order[j]].body, k + 1, blocks[order[j]].out);
    assert InstTogether(i.ranges, call, after, order[j]);
    TogetherLess(i.ranges, AroundCall(call, after), AfterDefs(call, after) + Regs(call.clobbers), order[j]);
  }

  // ----- sharing a physical register -----

  /** `x` is the physical register `p`, or a value placed in it. */
  ghost predicate Sits(i: Input, s: State, x: nat, p: nat)
  {
    && |s.location| == i.Count() && x < i.Count()
    && if x < i.physical then x == p else i.Free(x) && s.location[x] == InRegister(p)
  }

  /** Only a recorded spill lets two registers that are live together share a physical
      register. */
  lemma SharersSpill(i: Input, s: State, owner: Owners, x: nat, y: nat, p: nat, q: nat, block: nat)
    requires Booked(i, s, owner) && x != y && Sits(i, s, x, p) && Sits(i, s, y, p)
    requires CoveredAt(i.ranges, x, q, block) && CoveredAt(i.ranges, y, q, block)
    ensures block < i.blocks
    ensures (i.Free(x) && x in s.spilled[block]) || (i.Free(y) && y in s.spilled[block])
  {
    var n :| 0 <= n < |i.ranges[x]| && Holds(i.ranges[x][n], q, block);
    var m :| 0 <= m < |i.ranges[y]| && Holds(i.ranges[y][m], q, block);
    RangeInPoints(i, x, n);
    if Resident(i, s, x, n, p) && Resident(i, s, y, m, p) {
      NeverDoubleBooked(i, s, owner, p, q, x, n, y, m);
    } else if Resident(i, s, x, n, p) {
      NotResident(i, s, owner, y, m, p, q, block);
    } else {
      NotResident(i, s, owner, x, n, p, q, block);
    }
  }

  lemma NotResident(i: Input, s: State, owner: Owners, r: nat, n: nat, p: nat, q: nat, block: nat)
    requires Booked(i, s, owner) && Sits(i, s, r, p) && n < |i.ranges[r]| && Holds(i.ranges[r][n], q, block)
    requires !Resident(i, s, r, n, p)
    ensures block < i.blocks && i.Free(r) && r in s.spilled[block]
  {
    hide Owned, Marked, GapsOk, Input.Valid;
  }

  /** A recorded register lives through the block, which does not refer to it. */
  lemma SpilledCrosses(i: Input, s: State, blocks: seq<Block>, order: seq<nat>, count: nat, block: nat, r: nat)
    requires forall k :: 0 <= k < |order| ==> order[k] < |blocks|
    requires Supplies(i, blocks, order, count) && Sized(i, s) && SpillsCross(i, s)
    requires block < i.blocks && r in s.spilled[block]
    ensures i.Free(r) && s.location[r].InRegister? && OnlyCrosses(blocks, order, r, block)
  {
    hide AllDescending, OnlyCrosses, BlockTogether, CrossesSome;
    assert i.Free(r) && i.Crosses(r, block);
    var n: nat :| i.HasRange(r, n) && block in i.ranges[r][n].blocks;
    assert 0 <= n < |i.ranges[r]| && block in i.ranges[r][n].blocks;
    assert Mentions(i.ranges[r], block);
  }

  // ----- writes -----

  lemma {:induction false} Refers(body: seq<Inst>, from: nat, k: nat, r: nat)
    requires from <= k < |body| && r in Referenced(body[k])
    ensures r in ReferencedFrom(body, from)
    decreases k - from
  {
    if from < k {
      Refers(body, from + 1, k, r);
    }
  }

  /** What instruction `i` writes while the registers of `beside` are live: its results
      above what is live after it, call clobbers above what lives across, and early
      clobbers and argument registers among everything live above them. */
  ghost predicate WrittenBeside(i: Inst, after: set<nat>, x: nat, beside: set<nat>)
  {
    || (x in i.defs && beside == after + Regs(i.defs))
    || (i.call && x in i.clobbers && beside == AfterDefs(i, after) + Regs(i.clobbers))
    || ((x in i.early || x in i.arguments) && beside == AtCall(i, after) + Regs(i.uses) + Regs(i.early))
  }

  lemma BesideTogether(i: Input, blocks: seq<Block>, order: seq<nat>, count: nat, j: nat, k: nat, x: nat, beside: set<nat>)
    requires forall k :: 0 <= k < |order| ==> order[k] < |blocks|
    requires Supplies(i, blocks, order, count) && j < |order| && k < |blocks[order[j]].body|
    requires WrittenBeside(blocks[order[j]].body[k], LiveAt(blocks[order[j]].body, k + 1, blocks[order[j]].out), x, beside)
    ensures Together(i.ranges, beside, order[j]) && x in beside && x in ReferencedFrom(blocks[order[j]].body, 0)
  {
    hide AllDescending, LiveAt, ReferencedFrom, CrossesSome, Together;
    assert !Skipped(blocks[order[j]]);
    assert BlockTogether(i.ranges, blocks[order[j]], order[j]);
    var inst, after := blocks[order[j]].body[k], LiveAt(blocks[order[j]].body, k + 1, blocks[order[j]].out);
    assert InstTogether(i.ranges, inst, after, order[j]);
    if inst.call {
      TogetherLess(i.ranges, AroundCall(inst, after), AfterDefs(inst, after) + Regs(inst.clobbers), order[j]);
    }
    Refers(blocks[order[j]].body, 0, k, x);
  }

  /** When an instruction writes a register, virtual or physical, while another is live,
      the two hold different physical registers, or the live one is a value that stays in
      memory throughout the block. */
  lemma WritesSpareLive(i: Input, s: State, owner: Owners, blocks: seq<Block>, order: seq<nat>, count: nat,
                        j: nat, k: nat, x: nat, beside: set<nat>, r: nat, p: nat)
    requires forall k :: 0 <= k < |order| ==> order[k] < |blocks|
    requires Supplies(i, blocks, order, count) && Booked(i, s, owner) && SpillsCross(i, s)
    requires j < |order| && k < |blocks[order[j]].body|
    requires WrittenBeside(blocks[order[j]].body[k], LiveAt(blocks[order[j]].body, k + 1, blocks[order[j]].out), x, beside)
    requires r in beside && r != x && Sits(i, s, x, p) && Sits(i, s, r, p)
    ensures i.Free(r) && order[j] < i.blocks && r in s.spilled[order[j]] && OnlyCrosses(blocks, order, r, order[j])
  {
    BesideTogether(i, blocks, order, count, j, k, x, beside);
    ReferencedApart(i, s, owner, blocks, order, count, order[j], x, beside, r, p);
  }

  lemma ReferencedApart(i: Input, s: State, owner: Owners, blocks: seq<Block>, order: seq<nat>, count: nat,
                        block: nat, x: nat, beside: set<nat>, r: nat, p: nat)
    requires forall k :: 0 <= k < |order| ==> order[k] < |blocks|
    requires Supplies(i, blocks, order, count) && Booked(i, s, owner) && SpillsCross(i, s)
    requires block < |blocks| && Together(i.ranges, beside, block) && x in beside && x in ReferencedFrom(blocks[block].body, 0)
    requires r in beside && r != x && Sits(i, s, x, p) && Sits(i, s, r, p)
    ensures i.Free(r) && block < i.blocks && r in s.spilled[block] && OnlyCrosses(blocks, order, r, block)
  {
    hide RangesFor, ReferencedFrom, SpillsCross, CoveredAt, Sits;
    assert Sized(i, s) by { hide Owned, Marked, GapsOk, SpillsRecorded; }
    hide Booked;
    var q: nat :| TogetherAt(i.ranges, beside, q, block);
    SharersSpill(i, s, owner, x, r, p, q, block);
    if x in s.spilled[block] {
      SpilledCrosses(i, s, blocks, order, count, block, x);
    }
    SpilledCrosses(i, s, blocks, order, count, block, r);
  }
}
