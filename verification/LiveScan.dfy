/** The reverse scan that turns liveness into ranges of live points: what it records
    for each register, and that registers live together share a point. */
module LiveScan {

  /** A range under construction; the finish of an open one is not known yet. */
  datatype Raw = Raw(start: nat, finish: int, blocks: seq<nat>)

  datatype Scan = Scan(ranges: seq<seq<Raw>>, living: set<nat>, referenced: set<nat>, point: nat)

  /** Registers an instruction touches, in the order of the scan. Only calls clobber
      registers and read argument registers beyond their operands. */
  datatype Inst = Inst(defs: seq<nat>, call: bool, clobbers: seq<nat>, arguments: seq<nat>, uses: seq<nat>, early: seq<nat>)
  {
    ghost predicate Valid(registers: nat)
    {
      && (forall k :: 0 <= k < |defs| ==> defs[k] < registers)
      && (forall k :: 0 <= k < |clobbers| ==> clobbers[k] < registers)
      && (forall k :: 0 <= k < |arguments| ==> arguments[k] < registers)
      && (forall k :: 0 <= k < |uses| ==> uses[k] < registers)
      && (forall k :: 0 <= k < |early| ==> early[k] < registers)
      && (forall j, k :: 0 <= j < k < |defs| ==> defs[j] != defs[k])
      && (forall j, k :: 0 <= j < k < |clobbers| ==> clobbers[j] != clobbers[k])
      && (!call ==> clobbers == [] && arguments == [])
    }
  }

  function Regs(rs: seq<nat>): set<nat>
  {
    set r | r in rs
  }

  /** Registers from `physical` on are virtual. */
  function Virtuals(rs: set<nat>, physical: nat): set<nat>
  {
    set r | r in rs && r >= physical
  }

  // ----- liveness along a block -----

  function AfterDefs(i: Inst, after: set<nat>): set<nat>
  {
    after - Regs(i.defs)
  }

  function AtCall(i: Inst, after: set<nat>): set<nat>
  {
    (AfterDefs(i, after) - Regs(i.clobbers)) + Regs(i.arguments)
  }

  function Before(i: Inst, after: set<nat>): set<nat>
  {
    (AtCall(i, after) + Regs(i.uses)) - Regs(i.early)
  }

  function LiveAt(body: seq<Inst>, k: nat, out: set<nat>): set<nat>
    requires k <= |body|
    decreases |body| - k
  {
    if k == |body| then out else Before(body[k], LiveAt(body, k + 1, out))
  }

  /** New points: above what is written, above what a call clobbers, and above operands
      that become live or early clobbers. */
  function InstTicks(i: Inst, after: set<nat>): nat
  {
    (if i.defs != [] then 1 else 0) + (if i.clobbers != [] then 1 else 0)
    + (if !(Regs(i.uses) <= AtCall(i, after)) || i.early != [] then 1 else 0)
  }

  function BodyTicks(body: seq<Inst>, k: nat, out: set<nat>): nat
    requires k <= |body|
    decreases |body| - k
  {
    if k == |body| then 0 else BodyTicks(body, k + 1, out) + InstTicks(body[k], LiveAt(body, k + 1, out))
  }

  lemma {:induction false} TicksGrow(body: seq<Inst>, k: nat, out: set<nat>)
    requires k <= |body|
    ensures BodyTicks(body, k, out) <= BodyTicks(body, 0, out)
    decreases k
  {
    if k > 0 {
      TicksGrow(body, k - 1, out);
    }
  }

  function Referenced(i: Inst): set<nat>
  {
    Regs(i.defs) + Regs(i.clobbers) + Regs(i.arguments) + Regs(i.uses) + Regs(i.early)
  }

  // ----- ranges of one register -----

  /** Ranges come in rising order and apart; only the last of a living register is
      open. */
  ghost predicate RangesOk(rs: seq<Raw>, open: bool, point: nat)
  {
    && (forall j, k :: 0 <= j < k < |rs| ==> rs[j].finish < rs[k].start)
    && (forall k :: 0 <= k < |rs| ==> rs[k].start <= point && rs[k].finish <= point)
    && (forall k :: 0 <= k < |rs| && !(open && k == |rs| - 1) ==> rs[k].start <= rs[k].finish)
    && (open ==> rs != [] && rs[|rs| - 1].blocks == [])
  }

  /** No block: nothing is marked as crossed. */
  const NOWHERE: int := -1

  /** One of the ranges holds `q`, and it crosses no block or just the block `mark`. */
  ghost predicate Has(rs: seq<Raw>, open: bool, point: nat, q: nat, mark: int)
  {
    exists k :: 0 <= k < |rs| && RangeHas(rs, open, point, k, q) && (rs[k].blocks == [] || rs[k].blocks == [mark])
  }

  /** Nothing below the point is newly covered: further ranges begin above it, and a range
      that ended is opened again only where it reaches the point without a hole. */
  ghost predicate Settled(rs: seq<Raw>, open: bool, point: nat, rs': seq<Raw>, open': bool)
    requires |rs| <= |rs'|
  {
    && (forall k :: |rs| <= k < |rs'| ==> point <= rs'[k].start)
    && (forall k :: 0 <= k < |rs| && !(open && k == |rs| - 1) ==>
          point <= rs[k].finish + 1 || (rs'[k].finish == rs[k].finish && !(open' && k == |rs'| - 1)))
  }

  /** `rs` became `rs'`: ranges only grew, from the point on, and only the block `mark` was
      marked. */
  ghost predicate Grows(rs: seq<Raw>, open: bool, point: nat, rs': seq<Raw>, open': bool, mark: int)
  {
    && |rs| <= |rs'| && Settled(rs, open, point, rs', open')
    && forall k :: 0 <= k < |rs| ==>
         && rs'[k].start == rs[k].start && rs[k].finish <= rs'[k].finish
         && (rs'[k].blocks == rs[k].blocks || (mark != NOWHERE && rs[k].blocks == [] && rs'[k].blocks == [mark]))
         && (open && k == |rs| - 1 ==> (open' && k == |rs'| - 1) || rs'[k].finish >= point)
  }

  lemma GrowsHas(rs: seq<Raw>, open: bool, point: nat, rs': seq<Raw>, open': bool, point': nat, mark: int, q: nat, at: int)
    requires Grows(rs, open, point, rs', open', mark) && point <= point' && q <= point
    requires Has(rs, open, point, q, at) && (mark == NOWHERE || at == NOWHERE || at == mark)
    ensures Has(rs', open', point', q, if mark == NOWHERE then at else mark)
  {
    var k :| 0 <= k < |rs| && RangeHas(rs, open, point, k, q) && (rs[k].blocks == [] || rs[k].blocks == [at]);
    assert RangeHas(rs', open', point', k, q);
  }

  /** Some range holds `q`, whatever it crosses. */
  ghost predicate Spans(rs: seq<Raw>, open: bool, point: nat, q: nat)
  {
    exists k :: 0 <= k < |rs| && RangeHas(rs, open, point, k, q)
  }

  lemma GrowsSpans(rs: seq<Raw>, open: bool, point: nat, rs': seq<Raw>, open': bool, point': nat, mark: int, q: nat)
    requires Grows(rs, open, point, rs', open', mark) && q < point && Spans(rs', open', point', q)
    ensures Spans(rs, open, point, q)
  {
    var k :| 0 <= k < |rs'| && RangeHas(rs', open', point', k, q);
    assert k < |rs|;
    assert RangeHas(rs, open, point, k, q);
  }

  ghost predicate RangeHas(rs: seq<Raw>, open: bool, point: nat, k: nat, q: nat)
    requires k < |rs|
  {
    rs[k].start <= q && (q <= rs[k].finish || (open && k == |rs| - 1 && q <= point))
  }

  /** Ranges of crossed blocks ended before the current point. */
  ghost predicate BlocksClosed(rs: seq<Raw>, point: nat)
  {
    forall k :: 0 <= k < |rs| && rs[k].blocks != [] ==> rs[k].finish < point
  }

  /** The last range ended at this very point. */
  predicate EndsAt(rs: seq<Raw>, open: bool, point: nat)
  {
    !open && rs != [] && rs[|rs| - 1].finish == point
  }

  /** The ranges of a register whose value is no longer needed above this point. */
  function DeadRanges(rs: seq<Raw>, open: bool, point: nat): seq<Raw>
    requires open ==> rs != []
  {
    if open then rs[|rs| - 1 := rs[|rs| - 1].(finish := point)] else rs + [Raw(point, point, [])]
  }

  /** The ranges of a register whose value is needed from here on, going up: a range
      that just ended goes on unless it crosses a block. */
  function BornRanges(rs: seq<Raw>, instruction: bool, point: nat): seq<Raw>
  {
    if !instruction || rs == [] || rs[|rs| - 1].blocks != []
       || (rs[|rs| - 1].finish != point && rs[|rs| - 1].finish != point - 1)
    then rs + [Raw(point, -1, [])]
    else rs
  }

  lemma DeadRangesOk(rs: seq<Raw>, open: bool, point: nat)
    requires RangesOk(rs, open, point) && !EndsAt(rs, open, point)
    ensures open ==> rs != []
    ensures var rs' := DeadRanges(rs, open, point);
            && RangesOk(rs', false, point) && Has(rs', false, point, point, NOWHERE)
            && (BlocksClosed(rs, point) ==> BlocksClosed(rs', point))
            && Grows(rs, open, point, rs', false, NOWHERE)
  {
    hide Grows;
    DeadRangesGrow(rs, open, point);
    var rs' := DeadRanges(rs, open, point);
    assert RangeHas(rs', false, point, |rs'| - 1, point);
  }

  lemma DeadRangesGrow(rs: seq<Raw>, open: bool, point: nat)
    requires RangesOk(rs, open, point)
    ensures open ==> rs != []
    ensures Grows(rs, open, point, DeadRanges(rs, open, point), false, NOWHERE)
  {
  }

  lemma BornRangesOk(rs: seq<Raw>, instruction: bool, point: nat)
    requires RangesOk(rs, false, point) && BlocksClosed(rs, point)
    requires !instruction ==> !EndsAt(rs, false, point)
    ensures var rs' := BornRanges(rs, instruction, point);
            && RangesOk(rs', true, point) && Has(rs', true, point, point, NOWHERE) && BlocksClosed(rs', point)
            && Grows(rs, false, point, rs', true, NOWHERE)
  {
    hide Grows;
    BornRangesGrow(rs, instruction, point);
    var rs' := BornRanges(rs, instruction, point);
    assert RangeHas(rs', true, point, |rs'| - 1, point);
  }

  lemma BornRangesGrow(rs: seq<Raw>, instruction: bool, point: nat)
    requires RangesOk(rs, false, point)
    ensures Grows(rs, false, point, BornRanges(rs, instruction, point), true, NOWHERE)
  {
  }

  lemma AdvanceRanges(rs: seq<Raw>, open: bool, point: nat)
    requires RangesOk(rs, open, point)
    ensures RangesOk(rs, open, point + 1) && BlocksClosed(rs, point + 1) && !EndsAt(rs, open, point + 1)
    ensures Grows(rs, open, point, rs, open, NOWHERE)
  {
  }

  // ----- all registers -----

  ghost predicate Good(st: Scan)
  {
    && (forall r :: r in st.living ==> r < |st.ranges|)
    && (forall r: nat :: r < |st.ranges| ==> RangesOk(st.ranges[r], r in st.living, st.point))
  }

  /** At the current point only ranges of registers in `touched` may have ended. */
  ghost predicate Scanning(st: Scan, touched: set<nat>)
  {
    && Good(st)
    && (forall r: nat :: r < |st.ranges| ==> BlocksClosed(st.ranges[r], st.point))
    && (forall r: nat :: r < |st.ranges| && EndsAt(st.ranges[r], r in st.living, st.point) ==> r in touched)
  }

  /** Register `r` has a range over `q`, unmarked or marked with the block `mark`. */
  ghost predicate Cov(st: Scan, r: nat, q: nat, mark: int)
  {
    r < |st.ranges| && Has(st.ranges[r], r in st.living, st.point, q, mark)
  }

  /** Some point lies in such a range of every register in `s`. */
  ghost predicate Shares(st: Scan, s: set<nat>, mark: int)
  {
    exists q: nat :: CommonPoint(st, s, q, mark)
  }

  ghost predicate CommonPoint(st: Scan, s: set<nat>, q: nat, mark: int)
  {
    q <= st.point && forall r :: r in s ==> Cov(st, r, q, mark)
  }

  /** Nothing covered gets uncovered, and only the block `mark` is marked. */
  ghost predicate Keeps(st: Scan, st': Scan, mark: int)
  {
    && |st'.ranges| == |st.ranges| && st.point <= st'.point
    && forall r: nat :: r < |st.ranges| ==>
         Grows(st.ranges[r], r in st.living, st.point, st'.ranges[r], r in st'.living, mark)
  }

  lemma KeepsShares(st: Scan, st': Scan, s: set<nat>, mark: int, at: int)
    requires Keeps(st, st', mark) && Shares(st, s, at) && (mark == NOWHERE || at == NOWHERE || at == mark)
    ensures Shares(st', s, if mark == NOWHERE then at else mark)
  {
    hide Has, Grows;
    var q: nat :| CommonPoint(st, s, q, at);
    var m := if mark == NOWHERE then at else mark;
    forall r | r in s
      ensures Cov(st', r, q, m)
    {
      assert Cov(st, r, q, at);
      GrowsHas(st.ranges[r], r in st.living, st.point, st'.ranges[r], r in st'.living, st'.point, mark, q, at);
    }
    assert CommonPoint(st', s, q, m);
  }

  /** No register outside `s` has a range over `q`. */
  ghost predicate OnlyAt(st: Scan, q: nat, s: set<nat>)
  {
    forall r: nat :: r < |st.ranges| && Spans(st.ranges[r], r in st.living, st.point, q) ==> r in s
  }

  /** The scan leaves what covers earlier points as it is. */
  lemma KeepsOnly(st: Scan, st': Scan, q: nat, s: set<nat>, mark: int)
    requires Keeps(st, st', mark) && q < st.point && OnlyAt(st, q, s)
    ensures OnlyAt(st', q, s)
  {
    hide Spans, Grows;
    forall r: nat | r < |st'.ranges| && Spans(st'.ranges[r], r in st'.living, st'.point, q)
      ensures r in s
    {
      GrowsSpans(st.ranges[r], r in st.living, st.point, st'.ranges[r], r in st'.living, st'.point, mark, q);
    }
  }

  /** At the current point there is only what lives or was touched. */
  lemma HereOnly(st: Scan, touched: set<nat>)
    requires Scanning(st, touched)
    ensures OnlyAt(st, st.point, st.living + touched)
  {
    hide BlocksClosed;
    forall r: nat | r < |st.ranges| && Spans(st.ranges[r], r in st.living, st.point, st.point)
      ensures r in st.living + touched
    {
      if r !in st.living {
        assert RangesOk(st.ranges[r], false, st.point);
        SpansEnd(st.ranges[r], st.point);
      }
    }
  }

  lemma SpansEnd(rs: seq<Raw>, point: nat)
    requires RangesOk(rs, false, point) && Spans(rs, false, point, point)
    ensures EndsAt(rs, false, point)
  {
    var k :| 0 <= k < |rs| && RangeHas(rs, false, point, k, point);
    assert rs[k].finish == point;
  }

  lemma AdvanceOnly(st: Scan, s: set<nat>)
    requires Good(st) && OnlyAt(st, st.point, s)
    ensures OnlyAt(st.(point := st.point + 1), st.point, s)
  {
    hide RangesOk;
    var st' := st.(point := st.point + 1);
    forall r: nat | r < |st'.ranges| && Spans(st'.ranges[r], r in st'.living, st'.point, st.point)
      ensures r in s
    {
      var k :| 0 <= k < |st.ranges[r]| && RangeHas(st.ranges[r], r in st.living, st'.point, k, st.point);
      assert RangeHas(st.ranges[r], r in st.living, st.point, k, st.point);
    }
  }

  lemma KeepsTrans(a: Scan, b: Scan, c: Scan, mark: int)
    requires Keeps(a, b, mark) && Keeps(b, c, mark)
    ensures Keeps(a, c, mark)
  {
    forall r: nat | r < |a.ranges|
      ensures Grows(a.ranges[r], r in a.living, a.point, c.ranges[r], r in c.living, mark)
    {
      assert Grows(a.ranges[r], r in a.living, a.point, b.ranges[r], r in b.living, mark);
      assert Grows(b.ranges[r], r in b.living, b.point, c.ranges[r], r in c.living, mark);
    }
  }

  function Dead(st: Scan, r: nat, instruction: bool): Scan
    requires r < |st.ranges| && (r in st.living ==> st.ranges[r] != [])
  {
    Scan(st.ranges[r := DeadRanges(st.ranges[r], r in st.living, st.point)], st.living - {r},
         if instruction then st.referenced + {r} else st.referenced, st.point)
  }

  function Born(st: Scan, r: nat, instruction: bool): Scan
    requires r < |st.ranges|
  {
    Scan(if r in st.living then st.ranges else st.ranges[r := BornRanges(st.ranges[r], instruction, st.point)],
         st.living + {r}, if instruction then st.referenced + {r} else st.referenced, st.point)
  }

  lemma DeadKeeps(st: Scan, r: nat, instruction: bool, touched: set<nat>)
    requires Scanning(st, touched) && r < |st.ranges| && (r in st.living || r !in touched)
    ensures r in st.living ==> st.ranges[r] != []
    ensures var st' := Dead(st, r, instruction);
            Scanning(st', touched + {r}) && Keeps(st, st', NOWHERE) && Cov(st', r, st.point, NOWHERE)
  {
    hide RangesOk, Has, Grows, BlocksClosed, DeadRanges;
    Unchanged(st);
    assert !EndsAt(st.ranges[r], r in st.living, st.point);
    DeadRangesOk(st.ranges[r], r in st.living, st.point);
  }

  lemma Unchanged(st: Scan)
    ensures forall r: nat :: r < |st.ranges| ==>
              Grows(st.ranges[r], r in st.living, st.point, st.ranges[r], r in st.living, NOWHERE)
  {
  }

  lemma BornKeeps(st: Scan, r: nat, instruction: bool, touched: set<nat>)
    requires Scanning(st, touched) && r < |st.ranges| && (!instruction ==> touched == {})
    ensures var st' := Born(st, r, instruction);
            Scanning(st', touched) && Keeps(st, st', NOWHERE) && Cov(st', r, st.point, NOWHERE)
  {
    hide RangesOk, Has, Grows, BlocksClosed, BornRanges;
    Unchanged(st);
    if r in st.living {
      OpenHasPoint(st.ranges[r], st.point);
    } else {
      BornRangesOk(st.ranges[r], instruction, st.point);
    }
  }

  lemma OpenHasPoint(rs: seq<Raw>, point: nat)
    requires RangesOk(rs, true, point)
    ensures Has(rs, true, point, point, NOWHERE)
  {
    assert RangeHas(rs, true, point, |rs| - 1, point);
  }

  const POINT_LIMIT: nat := 0x7fff_ffff

  /** Points are machine integers; running out of them is an error. */
  method Advance(st: Scan) returns (ok: bool, st': Scan)
    requires Good(st)
    ensures ok <==> st.point != POINT_LIMIT
    ensures ok ==> st' == st.(point := st.point + 1) && Scanning(st', {}) && Keeps(st, st', NOWHERE)
    ensures !ok ==> st' == st
  {
    ok, st' := st.point != POINT_LIMIT, st;
    if ok {
      st' := st.(point := st.point + 1);
      AdvanceKeeps(st);
    }
  }

  lemma AdvanceKeeps(st: Scan)
    requires Good(st)
    ensures Scanning(st.(point := st.point + 1), {}) && Keeps(st, st.(point := st.point + 1), NOWHERE)
  {
    hide RangesOk, Grows, BlocksClosed, EndsAt;
    forall r: nat | r < |st.ranges|
      ensures RangesOk(st.ranges[r], r in st.living, st.point + 1)
      ensures BlocksClosed(st.ranges[r], st.point + 1)
      ensures !EndsAt(st.ranges[r], r in st.living, st.point + 1)
      ensures Grows(st.ranges[r], r in st.living, st.point, st.ranges[r], r in st.living, NOWHERE)
    {
      AdvanceRanges(st.ranges[r], r in st.living, st.point);
    }
  }

  // ----- what a stretch of the scan does -----

  /** Registers that were not referenced are left alone. */
  ghost predicate LeavesOthers(st: Scan, st': Scan)
  {
    && |st'.ranges| == |st.ranges| && st.referenced <= st'.referenced
    && forall r: nat :: r < |st.ranges| && r !in st'.referenced ==>
         st'.ranges[r] == st.ranges[r] && (r in st'.living <==> r in st.living)
  }

  /** No range gains a block, and ranges with blocks stay. */
  ghost predicate KeepsMarks(st: Scan, st': Scan)
  {
    && |st'.ranges| == |st.ranges|
    && forall r: nat, k :: r < |st'.ranges| && 0 <= k < |st'.ranges[r]| && st'.ranges[r][k].blocks != [] ==>
         k < |st.ranges[r]| && st.ranges[r][k] == st'.ranges[r][k]
  }

  ghost predicate Follows(st: Scan, st': Scan)
  {
    Keeps(st, st', NOWHERE) && LeavesOthers(st, st') && KeepsMarks(st, st')
  }

  lemma FollowsTrans(a: Scan, b: Scan, c: Scan)
    requires Follows(a, b) && Follows(b, c)
    ensures Follows(a, c)
  {
    hide Keeps;
    KeepsTrans(a, b, c, NOWHERE);
  }

  lemma FollowsSelf(st: Scan)
    ensures Follows(st, st)
  {
  }

  lemma DeadFollows(st: Scan, r: nat, touched: set<nat>)
    requires Scanning(st, touched) && r < |st.ranges| && (r in st.living || r !in touched)
    ensures r in st.living ==> st.ranges[r] != []
    ensures Follows(st, Dead(st, r, true)) && Scanning(Dead(st, r, true), touched + {r}) && Cov(Dead(st, r, true), r, st.point, NOWHERE)
  {
    hide Has, BlocksClosed, EndsAt, Keeps;
    DeadKeeps(st, r, true, touched);
    assert RangesOk(st.ranges[r], r in st.living, st.point);
  }

  lemma BornFollows(st: Scan, r: nat, touched: set<nat>)
    requires Scanning(st, touched) && r < |st.ranges|
    ensures Follows(st, Born(st, r, true)) && Scanning(Born(st, r, true), touched) && Cov(Born(st, r, true), r, st.point, NOWHERE)
  {
    hide Has, BlocksClosed, EndsAt, Keeps, Good;
    BornKeeps(st, r, true, touched);
  }

  lemma AdvanceFollows(st: Scan)
    requires Good(st)
    ensures Follows(st, st.(point := st.point + 1))
  {
    AdvanceKeeps(st);
  }

  /** Every living register has its open range over the current point. */
  lemma LivingHere(st: Scan)
    requires Good(st)
    ensures forall r :: r in st.living ==> Cov(st, r, st.point, NOWHERE)
  {
    hide Has, RangesOk;
    forall r | r in st.living
      ensures Cov(st, r, st.point, NOWHERE)
    {
      OpenHasPoint(st.ranges[r], st.point);
    }
  }

  lemma FollowsHere(st: Scan, st': Scan, s: set<nat>)
    requires Follows(st, st') && st'.point == st.point
    requires forall r :: r in s ==> Cov(st, r, st.point, NOWHERE)
    ensures forall r :: r in s ==> Cov(st', r, st'.point, NOWHERE)
  {
    hide Has, Grows;
    forall r | r in s
      ensures Cov(st', r, st'.point, NOWHERE)
    {
      GrowsHas(st.ranges[r], r in st.living, st.point, st'.ranges[r], r in st'.living, st'.point, NOWHERE, st.point, NOWHERE);
    }
  }

  method KillAll(st: Scan, rs: seq<nat>) returns (st': Scan)
    requires Scanning(st, {}) && forall k :: 0 <= k < |rs| ==> rs[k] < |st.ranges|
    requires forall j, k :: 0 <= j < k < |rs| ==> rs[j] != rs[k]
    ensures Follows(st, st') && Scanning(st', Regs(rs)) && st'.point == st.point
    ensures st'.living == st.living - Regs(rs) && st'.referenced == st.referenced + Regs(rs)
    ensures forall r :: r in st.living + Regs(rs) ==> Cov(st', r, st'.point, NOWHERE)
  {
    hide Follows, Scanning, Cov, Dead;
    st' := st;
    FollowsSelf(st);
    ScanningGood(st, {});
    LivingHere(st);
    assert Regs(rs[..0]) == {};
    for n := 0 to |rs|
      invariant Follows(st, st') && Scanning(st', Regs(rs[..n])) && st'.point == st.point && |st'.ranges| == |st.ranges|
      invariant st'.living == st.living - Regs(rs[..n]) && st'.referenced == st.referenced + Regs(rs[..n])
      invariant forall r :: r in st.living + Regs(rs[..n]) ==> Cov(st', r, st'.point, NOWHERE)
    {
      var r := rs[n];
      assert rs[..n + 1] == rs[..n] + [r];
      assert Regs(rs[..n + 1]) == Regs(rs[..n]) + {r};
      assert r !in Regs(rs[..n]);
      DeadFollows(st', r, Regs(rs[..n]));
      DeadFields(st', r);
      FollowsHere(st', Dead(st', r, true), st.living + Regs(rs[..n]));
      FollowsTrans(st, st', Dead(st', r, true));
      st' := Dead(st', r, true);
    }
    assert rs[..|rs|] == rs;
  }

  lemma ScanningGood(st: Scan, touched: set<nat>)
    requires Scanning(st, touched)
    ensures Good(st)
  {
  }

  lemma DeadFields(st: Scan, r: nat)
    requires r < |st.ranges| && (r in st.living ==> st.ranges[r] != [])
    ensures var st' := Dead(st, r, true);
            && |st'.ranges| == |st.ranges| && st'.point == st.point
            && st'.living == st.living - {r} && st'.referenced == st.referenced + {r}
  {
  }

  lemma BornFields(st: Scan, r: nat)
    requires r < |st.ranges|
    ensures var st' := Born(st, r, true);
            && |st'.ranges| == |st.ranges| && st'.point == st.point
            && st'.living == st.living + {r} && st'.referenced == st.referenced + {r}
  {
  }

  method BearAll(st: Scan, rs: seq<nat>, ghost touched: set<nat>) returns (any: bool, st': Scan)
    requires Scanning(st, touched) && forall k :: 0 <= k < |rs| ==> rs[k] < |st.ranges|
    ensures Follows(st, st') && Scanning(st', touched) && st'.point == st.point
    ensures st'.living == st.living + Regs(rs) && st'.referenced == st.referenced + Regs(rs)
    ensures any <==> !(Regs(rs) <= st.living)
  {
    hide Follows, Scanning, Cov, Born;
    any, st' := false, st;
    FollowsSelf(st);
    assert Regs(rs[..0]) == {};
    for n := 0 to |rs|
      invariant Follows(st, st') && Scanning(st', touched) && st'.point == st.point && |st'.ranges| == |st.ranges|
      invariant st'.living == st.living + Regs(rs[..n]) && st'.referenced == st.referenced + Regs(rs[..n])
      invariant any <==> !(Regs(rs[..n]) <= st.living)
    {
      var r := rs[n];
      assert rs[..n + 1] == rs[..n] + [r];
      assert Regs(rs[..n + 1]) == Regs(rs[..n]) + {r};
      any := any || r !in st'.living;
      BornFollows(st', r, touched);
      BornFields(st', r);
      FollowsTrans(st, st', Born(st', r, true));
      st' := Born(st', r, true);
    }
    assert rs[..|rs|] == rs;
  }

  /** Early clobbers are written while the operands are still read. */
  method ClobberEarly(st: Scan, rs: seq<nat>) returns (st': Scan)
    requires Scanning(st, {}) && forall k :: 0 <= k < |rs| ==> rs[k] < |st.ranges|
    ensures Follows(st, st') && Scanning(st', Regs(rs)) && st'.point == st.point
    ensures st'.living == st.living - Regs(rs) && st'.referenced == st.referenced + Regs(rs)
    ensures forall r :: r in st.living + Regs(rs) ==> Cov(st', r, st'.point, NOWHERE)
  {
    hide Follows, Scanning, Cov, Born, Dead;
    st' := st;
    FollowsSelf(st);
    ScanningGood(st, {});
    LivingHere(st);
    assert Regs(rs[..0]) == {};
    for n := 0 to |rs|
      invariant Follows(st, st') && Scanning(st', Regs(rs[..n])) && st'.point == st.point && |st'.ranges| == |st.ranges|
      invariant st'.living == st.living - Regs(rs[..n]) && st'.referenced == st.referenced + Regs(rs[..n])
      invariant forall r :: r in st.living + Regs(rs[..n]) ==> Cov(st', r, st'.point, NOWHERE)
    {
      var r := rs[n];
      assert rs[..n + 1] == rs[..n] + [r];
      assert Regs(rs[..n + 1]) == Regs(rs[..n]) + {r};
      BornFollows(st', r, Regs(rs[..n]));
      BornFields(st', r);
      var alive := Born(st', r, true);
      DeadFollows(alive, r, Regs(rs[..n]));
      DeadFields(alive, r);
      FollowsHere(st', alive, st.living + Regs(rs[..n]));
      FollowsHere(alive, Dead(alive, r, true), st.living + Regs(rs[..n]));
      FollowsTrans(st', alive, Dead(alive, r, true));
      FollowsTrans(st, st', Dead(alive, r, true));
      st' := Dead(alive, r, true);
    }
    assert rs[..|rs|] == rs;
  }

  // ----- one instruction -----

  /** What a call clobbers, what it is given, and what lives across it. */
  function AroundCall(i: Inst, after: set<nat>): set<nat>
  {
    AfterDefs(i, after) + Regs(i.clobbers) + Regs(i.arguments)
  }

  /** At an instruction the registers written share a point with those live below it,
      a call's clobbers with its arguments and those live across it, and its operands with
      everything live above it. */
  ghost predicate InstShares(st: Scan, i: Inst, after: set<nat>, mark: int)
  {
    && Shares(st, after + Regs(i.defs), mark)
    && (i.call ==> Shares(st, AroundCall(i, after), mark))
    && Shares(st, AtCall(i, after) + Regs(i.uses) + Regs(i.early), mark)
  }

  /** Every register over the point is touched by the instruction, or alive there, at one
      and the same of its steps. */
  ghost predicate InstPoint(st: Scan, q: nat, i: Inst, after: set<nat>)
  {
    || OnlyAt(st, q, after + Regs(i.defs))
    || (i.call && OnlyAt(st, q, AroundCall(i, after)))
    || OnlyAt(st, q, AtCall(i, after) + Regs(i.uses) + Regs(i.early))
  }

  lemma KeepsInstPoint(st: Scan, st': Scan, q: nat, i: Inst, after: set<nat>, mark: int)
    requires Keeps(st, st', mark) && q < st.point && InstPoint(st, q, i, after)
    ensures InstPoint(st', q, i, after)
  {
    hide Keeps, OnlyAt, AtCall, AroundCall;
    if OnlyAt(st, q, after + Regs(i.defs)) {
      KeepsOnly(st, st', q, after + Regs(i.defs), mark);
    } else if i.call && OnlyAt(st, q, AroundCall(i, after)) {
      KeepsOnly(st, st', q, AroundCall(i, after), mark);
    } else {
      KeepsOnly(st, st', q, AtCall(i, after) + Regs(i.uses) + Regs(i.early), mark);
    }
  }

  lemma FollowsOnly(st: Scan, st': Scan, q: nat, s: set<nat>)
    requires Follows(st, st') && q < st.point && OnlyAt(st, q, s)
    ensures OnlyAt(st', q, s)
  {
    hide Keeps;
    KeepsOnly(st, st', q, s, NOWHERE);
  }

  lemma SharesHere(st: Scan, s: set<nat>)
    requires forall r :: r in s ==> Cov(st, r, st.point, NOWHERE)
    ensures Shares(st, s, NOWHERE)
  {
    hide Cov;
    assert CommonPoint(st, s, st.point, NOWHERE);
  }

  lemma FollowsShares(st: Scan, st': Scan, s: set<nat>)
    requires Follows(st, st') && Shares(st, s, NOWHERE)
    ensures Shares(st', s, NOWHERE)
  {
    hide Shares, Keeps;
    KeepsShares(st, st', s, NOWHERE, NOWHERE);
  }

  function Count(increment: bool): nat
  {
    if increment then 1 else 0
  }

  method Tick(st: Scan, increment: bool, ghost touched: set<nat>) returns (ok: bool, st': Scan)
    requires Scanning(st, touched) && (!increment ==> touched == {}) && st.point <= POINT_LIMIT
    ensures ok <==> st.point + Count(increment) <= POINT_LIMIT
    ensures ok ==> st'.point == st.point + Count(increment)
    ensures ok ==> Scanning(st', {}) && Follows(st, st') && st'.living == st.living && st'.referenced == st.referenced
    ensures ok && increment ==> OnlyAt(st', st.point, st.living + touched)
  {
    hide OnlyAt;
    ok, st' := true, st;
    if increment {
      ok, st' := Advance(st);
      AdvanceFollows(st);
      HereOnly(st, touched);
      AdvanceOnly(st, st.living + touched);
    } else {
      FollowsSelf(st);
    }
  }

  /** Above a call: its clobbers die, its arguments are needed, and the virtual
      registers that live there cross it. */
  method ScanCall(st: Scan, i: Inst, physical: nat, crossed: set<nat>) returns (ok: bool, st': Scan, crossed': set<nat>)
    requires Scanning(st, {}) && i.Valid(|st.ranges|) && st.point <= POINT_LIMIT
    ensures ok <==> st.point + Count(i.clobbers != []) <= POINT_LIMIT
    ensures ok ==> st'.point == st.point + Count(i.clobbers != [])
    ensures ok ==> Scanning(st', {}) && Follows(st, st')
    ensures ok ==> st'.living == (st.living - Regs(i.clobbers)) + Regs(i.arguments)
    ensures ok ==> st'.referenced == st.referenced + Regs(i.clobbers) + Regs(i.arguments)
    ensures ok ==> Shares(st', st.living + Regs(i.clobbers) + Regs(i.arguments), NOWHERE)
    ensures ok && i.clobbers != [] ==> OnlyAt(st', st.point, st.living + Regs(i.clobbers) + Regs(i.arguments))
    ensures ok ==> crossed' == crossed + Virtuals(st'.living, physical)
  {
    hide Follows, Scanning, Cov, Shares, OnlyAt;
    var killed := KillAll(st, i.clobbers);
    SizesKept(st, killed);
    var any, born := BearAll(killed, i.arguments, Regs(i.clobbers));
    ghost var all := st.living + Regs(i.clobbers) + Regs(i.arguments);
    FollowsHere(killed, born, st.living + Regs(i.clobbers));
    ScanningGood(born, Regs(i.clobbers));
    LivingHere(born);
    SharesHere(born, all);
    crossed' := crossed + Virtuals(born.living, physical);
    ok, st' := Tick(born, i.clobbers != [], Regs(i.clobbers));
    if ok {
      assert born.living + Regs(i.clobbers) == all;
      FollowsTrans(st, killed, born);
      FollowsTrans(killed, born, st');
      FollowsTrans(st, born, st');
      FollowsShares(born, st', all);
    }
  }

  lemma SizesKept(st: Scan, st': Scan)
    requires Follows(st, st')
    ensures |st'.ranges| == |st.ranges| && st.point <= st'.point
  {
  }

  /** Operands and early clobbers. */
  method ScanUses(st: Scan, i: Inst) returns (ok: bool, st': Scan)
    requires Scanning(st, {}) && i.Valid(|st.ranges|) && st.point <= POINT_LIMIT
    ensures ok <==> st.point + Count(!(Regs(i.uses) <= st.living) || i.early != []) <= POINT_LIMIT
    ensures ok ==> st'.point == st.point + Count(!(Regs(i.uses) <= st.living) || i.early != [])
    ensures ok ==> Scanning(st', {}) && Follows(st, st')
    ensures ok ==> st'.living == (st.living + Regs(i.uses)) - Regs(i.early)
    ensures ok ==> st'.referenced == st.referenced + Regs(i.uses) + Regs(i.early)
    ensures ok ==> Shares(st', st.living + Regs(i.uses) + Regs(i.early), NOWHERE)
    ensures ok && st.point < st'.point ==> OnlyAt(st', st.point, st.living + Regs(i.uses) + Regs(i.early))
  {
    hide Follows, Scanning, Cov, Shares, OnlyAt;
    var any, born := BearAll(st, i.uses, {});
    SizesKept(st, born);
    var clobbered := ClobberEarly(born, i.early);
    SharesHere(clobbered, st.living + Regs(i.uses) + Regs(i.early));
    ok, st' := Tick(clobbered, any || i.early != [], Regs(i.early));
    if ok {
      assert clobbered.living + Regs(i.early) == st.living + Regs(i.uses) + Regs(i.early);
      FollowsTrans(st, born, clobbered);
      FollowsTrans(st, clobbered, st');
      FollowsShares(clobbered, st', st.living + Regs(i.uses) + Regs(i.early));
    }
  }

  /** One instruction, bottom up. */
  method ScanInst(st: Scan, i: Inst, physical: nat, crossed: set<nat>) returns (ok: bool, st': Scan, crossed': set<nat>)
    requires Scanning(st, {}) && i.Valid(|st.ranges|) && st.point <= POINT_LIMIT
    ensures ok <==> st.point + InstTicks(i, st.living) <= POINT_LIMIT
    ensures ok ==> st'.point == st.point + InstTicks(i, st.living)
    ensures ok ==> Scanning(st', {}) && Follows(st, st')
    ensures ok ==> st'.living == Before(i, st.living) && st'.referenced == st.referenced + Referenced(i)
    ensures ok ==> InstShares(st', i, st.living, NOWHERE)
    ensures ok ==> forall q: nat :: st.point <= q < st'.point ==> InstPoint(st', q, i, st.living)
    ensures ok ==> crossed' == crossed + if i.call then Virtuals(AtCall(i, st.living), physical) else {}
  {
    hide Follows, Scanning, Cov, Shares, OnlyAt;
    crossed' := crossed;
    var killed := KillAll(st, i.defs);
    SharesHere(killed, st.living + Regs(i.defs));
    SizesKept(st, killed);
    var below;
    ok, below := Tick(killed, i.defs != [], Regs(i.defs));
    st' := below;
    if !ok {
      return;
    }
    FollowsTrans(st, killed, below);
    FollowsShares(killed, below, st.living + Regs(i.defs));
    SizesKept(st, below);
    var above := below;
    FollowsSelf(below);
    if i.call {
      ok, above, crossed' := ScanCall(below, i, physical, crossed);
      st' := above;
      if !ok {
        return;
      }
      SizesKept(below, above);
    }
    assert above.living == AtCall(i, st.living);
    ok, st' := ScanUses(above, i);
    if ok {
      FollowsTrans(st, below, above);
      FollowsTrans(below, above, st');
      FollowsTrans(st, above, st');
      FollowsShares(below, st', st.living + Regs(i.defs));
      if i.call {
        FollowsShares(above, st', AroundCall(i, st.living));
      }
      assert killed.living + Regs(i.defs) == st.living + Regs(i.defs);
      if st.point < below.point {
        FollowsOnly(below, st', st.point, st.living + Regs(i.defs));
      }
      if below.point < above.point {
        FollowsOnly(above, st', below.point, AroundCall(i, st.living));
      }
    }
  }

  // ----- one block -----

  ghost predicate BodyShares(st: Scan, body: seq<Inst>, out: set<nat>, from: nat, mark: int)
  {
    forall k :: from <= k < |body| ==> InstShares(st, body[k], LiveAt(body, k + 1, out), mark)
  }

  /** A point of some instruction's. */
  ghost predicate BodyPoint(st: Scan, q: nat, body: seq<Inst>, out: set<nat>, from: nat)
  {
    exists k :: from <= k < |body| && InstPoint(st, q, body[k], LiveAt(body, k + 1, out))
  }

  lemma KeepsBodyPoint(st: Scan, st': Scan, q: nat, body: seq<Inst>, out: set<nat>, from: nat, at: nat, mark: int)
    requires Keeps(st, st', mark) && q < st.point && at <= from && BodyPoint(st, q, body, out, from)
    ensures BodyPoint(st', q, body, out, at)
  {
    hide Keeps, InstPoint, LiveAt;
    var k :| from <= k < |body| && InstPoint(st, q, body[k], LiveAt(body, k + 1, out));
    KeepsInstPoint(st, st', q, body[k], LiveAt(body, k + 1, out), mark);
  }

  lemma NextBodyPoints(st: Scan, st': Scan, body: seq<Inst>, out: set<nat>, k: nat, below: nat, after: set<nat>, begin: nat)
    requires Keeps(st, st', NOWHERE) && k < below == k + 1 <= |body| && after == LiveAt(body, below, out)
    requires forall q: nat :: begin <= q < st.point ==> BodyPoint(st, q, body, out, below)
    requires forall q: nat :: st.point <= q < st'.point ==> InstPoint(st', q, body[k], after)
    ensures forall q: nat :: begin <= q < st'.point ==> BodyPoint(st', q, body, out, k)
  {
    hide Keeps, InstPoint, LiveAt, BodyPoint;
    forall q: nat | begin <= q < st'.point
      ensures BodyPoint(st', q, body, out, k)
    {
      if q < st.point {
        KeepsBodyPoint(st, st', q, body, out, below, k, NOWHERE);
      } else {
        OwnBodyPoint(st', q, body, out, k);
      }
    }
  }

  lemma OwnBodyPoint(st: Scan, q: nat, body: seq<Inst>, out: set<nat>, k: nat)
    requires k < |body| && InstPoint(st, q, body[k], LiveAt(body, k + 1, out))
    ensures BodyPoint(st, q, body, out, k)
  {
    hide InstPoint, LiveAt;
  }

  function ReferencedFrom(body: seq<Inst>, k: nat): set<nat>
    requires k <= |body|
    decreases |body| - k
  {
    if k == |body| then {} else ReferencedFrom(body, k + 1) + Referenced(body[k])
  }

  lemma FollowsBody(st: Scan, st': Scan, body: seq<Inst>, out: set<nat>, from: nat)
    requires Follows(st, st') && BodyShares(st, body, out, from, NOWHERE)
    ensures BodyShares(st', body, out, from, NOWHERE)
  {
    hide Follows, Shares, LiveAt, AtCall, AfterDefs, AroundCall;
    forall k | from <= k < |body|
      ensures InstShares(st', body[k], LiveAt(body, k + 1, out), NOWHERE)
    {
      var i, after := body[k], LiveAt(body, k + 1, out);
      assert InstShares(st, i, after, NOWHERE);
      FollowsShares(st, st', after + Regs(i.defs));
      if i.call {
        FollowsShares(st, st', AroundCall(i, after));
      }
      FollowsShares(st, st', AtCall(i, after) + Regs(i.uses) + Regs(i.early));
    }
  }

  /** Virtual registers live across some call of the block. */
  ghost function CrossedFrom(body: seq<Inst>, k: nat, out: set<nat>, physical: nat): set<nat>
    requires k <= |body|
    decreases |body| - k
  {
    if k == |body| then {}
    else CrossedFrom(body, k + 1, out, physical)
         + (if body[k].call then Virtuals(AtCall(body[k], LiveAt(body, k + 1, out)), physical) else {})
  }

  method ScanBody(st: Scan, body: seq<Inst>, physical: nat, crossed: set<nat>) returns (ok: bool, st': Scan, crossed': set<nat>)
    requires Scanning(st, {}) && st.point <= POINT_LIMIT && forall k :: 0 <= k < |body| ==> body[k].Valid(|st.ranges|)
    ensures ok <==> st.point + BodyTicks(body, 0, st.living) <= POINT_LIMIT
    ensures ok ==> st'.point == st.point + BodyTicks(body, 0, st.living)
    ensures ok ==> Scanning(st', {}) && Follows(st, st')
    ensures ok ==> st'.living == LiveAt(body, 0, st.living) && st'.referenced == st.referenced + ReferencedFrom(body, 0)
    ensures ok ==> BodyShares(st', body, st.living, 0, NOWHERE)
    ensures ok ==> forall q: nat :: st.point <= q < st'.point ==> BodyPoint(st', q, body, st.living, 0)
    ensures ok ==> crossed' == crossed + CrossedFrom(body, 0, st.living, physical)
  {
    hide Follows, Scanning, InstShares, InstTicks, Inst.Valid, Before, Referenced, AtCall, InstPoint, BodyPoint;
    ok, st', crossed' := true, st, crossed;
    FollowsSelf(st);
    var k := |body|;
    while 0 < k
      invariant 0 <= k <= |body| && ok
      invariant st'.point == st.point + BodyTicks(body, k, st.living) <= POINT_LIMIT
      invariant Scanning(st', {}) && Follows(st, st') && |st'.ranges| == |st.ranges|
      invariant st'.living == LiveAt(body, k, st.living) && st'.referenced == st.referenced + ReferencedFrom(body, k)
      invariant BodyShares(st', body, st.living, k, NOWHERE)
      invariant forall q: nat :: st.point <= q < st'.point ==> BodyPoint(st', q, body, st.living, k)
      invariant crossed' == crossed + CrossedFrom(body, k, st.living, physical)
    {
      k := k - 1;
      ghost var before := st';
      ok, st', crossed' := ScanInst(st', body[k], physical, crossed');
      TicksGrow(body, k, st.living);
      if !ok {
        return;
      }
      SizesKept(before, st');
      FollowsTrans(st, before, st');
      FollowsBody(before, st', body, st.living, k + 1);
      FollowsParts(before, st');
      NextBodyPoints(before, st', body, st.living, k, k + 1, LiveAt(body, k + 1, st.living), st.point);
    }
  }

  // ----- entering and leaving a block -----

  datatype Block = Block(body: seq<Inst>, labelled: bool, out: set<nat>, live: set<nat>)

  ghost predicate Opened(st: Scan, s: set<nat>, st': Scan)
  {
    && |st'.ranges| == |st.ranges| && st'.point == st.point && st'.referenced == st.referenced
    && st'.living == st.living + s
    && forall r: nat :: r < |st.ranges| ==>
         st'.ranges[r] == if r in s then st.ranges[r] + [Raw(st.point, -1, [])] else st.ranges[r]
  }

  /** At the end of a block everything live out gets a range of its own. */
  method OpenOut(st: Scan, out: set<nat>) returns (st': Scan)
    requires Scanning(st, {}) && st.living == {} && forall r :: r in out ==> r < |st.ranges|
    ensures Opened(st, out, st') && Scanning(st', {}) && Keeps(st, st', NOWHERE)
  {
    hide Scanning, Cov, Keeps;
    st' := st;
    var todo := out;
    assert Keeps(st, st, NOWHERE) by { FollowsSelf(st); FollowsParts(st, st); }
    while todo != {}
      invariant todo <= out && Opened(st, out - todo, st') && Scanning(st', {}) && Keeps(st, st', NOWHERE)
      decreases todo
    {
      var r :| r in todo;
      BornKeeps(st', r, false, {});
      KeepsTrans(st, st', Born(st', r, false), NOWHERE);
      st' := Born(st', r, false);
      todo := todo - {r};
    }
  }

  lemma FollowsParts(st: Scan, st': Scan)
    requires Follows(st, st')
    ensures Keeps(st, st', NOWHERE)
  {
  }

  function MarkLast(rs: seq<Raw>, b: nat): seq<Raw>
    requires rs != []
  {
    rs[|rs| - 1 := rs[|rs| - 1].(blocks := rs[|rs| - 1].blocks + [b])]
  }

  /** Close the range of `r`, which crossed the block `b` if nothing there referenced
      it. */
  function Close(st: Scan, r: nat, b: nat): Scan
    requires r < |st.ranges| && st.ranges[r] != []
  {
    var dead := Dead(st, r, false);
    if r in st.referenced then dead else dead.(ranges := dead.ranges[r := MarkLast(dead.ranges[r], b)])
  }

  lemma CloseRangesOk(rs: seq<Raw>, point: nat, b: nat, mark: bool)
    requires RangesOk(rs, true, point)
    ensures rs != []
    ensures var dead := DeadRanges(rs, true, point);
            var rs' := if mark then MarkLast(dead, b) else dead;
            RangesOk(rs', false, point) && Grows(rs, true, point, rs', false, b)
  {
  }

  lemma CloseKeeps(st: Scan, r: nat, b: nat)
    requires Good(st) && r in st.living
    ensures r < |st.ranges| && st.ranges[r] != []
    ensures var st' := Close(st, r, b);
            && Good(st') && Keeps(st, st', b) && st'.point == st.point && |st'.ranges| == |st.ranges|
            && st'.living == st.living - {r} && st'.referenced == st.referenced
            && forall c: nat :: c < |st.ranges| && c != r ==> st'.ranges[c] == st.ranges[c]
  {
    hide RangesOk, Grows, DeadRanges, MarkLast;
    CloseRangesOk(st.ranges[r], st.point, b, r !in st.referenced);
    Unchanged(st);
    KeepsAny(st, st, b);
  }

  lemma KeepsAny(st: Scan, st': Scan, mark: int)
    requires Keeps(st, st', NOWHERE) || Keeps(st, st', mark)
    ensures Keeps(st, st', mark)
  {
    forall r: nat | r < |st.ranges|
      ensures Grows(st.ranges[r], r in st.living, st.point, st'.ranges[r], r in st'.living, mark)
    {
    }
  }

  /** A new mark is for a block the register crosses from its first to its last point. */
  ghost predicate Marks(st: Scan, st': Scan, b: nat, begin: nat, through: set<nat>)
  {
    && |st'.ranges| == |st.ranges|
    && forall r: nat, k :: r < |st'.ranges| && 0 <= k < |st'.ranges[r]| && st'.ranges[r][k].blocks != [] ==>
         || (k < |st.ranges[r]| && st.ranges[r][k] == st'.ranges[r][k])
         || (r in through && r !in st.referenced && st'.ranges[r][k] == Raw(begin, st.point, [b]))
  }

  /** Live-through registers without references still have the range that began with
      the block. */
  ghost predicate Untouched(st: Scan, s: set<nat>, begin: nat)
  {
    forall r :: r in s && r !in st.referenced ==>
      r < |st.ranges| && st.ranges[r] != [] && st.ranges[r][|st.ranges[r]| - 1] == Raw(begin, -1, [])
  }

  /** Every register alive here that the block does not refer to gets a whole-block range. */
  ghost predicate MarksAll(st: Scan, st': Scan, b: nat, begin: nat)
  {
    forall r :: r in st.living && r !in st.referenced ==> CrossedIn(st', r, Raw(begin, st.point, [b]))
  }

  ghost predicate CrossedIn(st: Scan, r: nat, range: Raw)
  {
    r < |st.ranges| && range in st.ranges[r]
  }

  method CloseIn(st: Scan, b: nat, ghost begin: nat) returns (st': Scan)
    requires Good(st) && Untouched(st, st.living, begin)
    ensures Good(st') && Keeps(st, st', b) && st'.living == {} && st'.point == st.point && st'.referenced == st.referenced
    ensures Marks(st, st', b, begin, st.living) && MarksAll(st, st', b, begin)
    ensures st.living == {} ==> st' == st
    ensures forall c: nat :: c < |st.ranges| && c !in st.living ==> st'.ranges[c] == st.ranges[c]
  {
    hide Good, Keeps, Untouched, Marks, CrossedIn;
    st' := st;
    var todo := st.living;
    StartClosing(st, b, begin);
    while todo != {}
      invariant Good(st') && Keeps(st, st', b) && st'.point == st.point && st'.referenced == st.referenced
      invariant todo == st'.living <= st.living && |st'.ranges| == |st.ranges|
      invariant forall c: nat :: c < |st.ranges| && c in st'.living ==> st'.ranges[c] == st.ranges[c]
      invariant forall c: nat :: c < |st.ranges| && c !in st.living ==> st'.ranges[c] == st.ranges[c]
      invariant Marks(st, st', b, begin, st.living)
      invariant forall r :: r in st.living - todo && r !in st.referenced ==> CrossedIn(st', r, Raw(begin, st.point, [b]))
      invariant st.living == {} ==> st' == st
      decreases todo
    {
      var r :| r in todo;
      CloseKeeps(st', r, b);
      CloseMarks(st, st', r, b, begin);
      forall c | c in st.living - (todo - {r}) && c !in st.referenced
        ensures CrossedIn(Close(st', r, b), c, Raw(begin, st.point, [b]))
      {
        CloseCrosses(st, st', r, b, begin, c);
      }
      KeepsTrans(st, st', Close(st', r, b), b);
      st' := Close(st', r, b);
      todo := todo - {r};
    }
  }

  lemma StartClosing(st: Scan, b: nat, begin: nat)
    requires Good(st)
    ensures Keeps(st, st, b) && Marks(st, st, b, begin, st.living)
  {
    Unchanged(st);
    KeepsAny(st, st, b);
  }

  lemma CloseMarks(st: Scan, st': Scan, r: nat, b: nat, begin: nat)
    requires Good(st') && r in st'.living && r in st.living && st'.referenced == st.referenced && st'.point == st.point
    requires r < |st'.ranges| == |st.ranges| && st'.ranges[r] == st.ranges[r] && st'.ranges[r] != []
    requires Untouched(st, st.living, begin) && Marks(st, st', b, begin, st.living)
    ensures Marks(st, Close(st', r, b), b, begin, st.living)
  {
    assert RangesOk(st'.ranges[r], true, st'.point);
  }

  lemma CloseCrosses(st: Scan, st': Scan, r: nat, b: nat, begin: nat, c: nat)
    requires Good(st') && r in st'.living && r in st.living && st'.referenced == st.referenced && st'.point == st.point
    requires r < |st'.ranges| == |st.ranges| && st'.ranges[r] == st.ranges[r] && st'.ranges[r] != []
    requires Untouched(st, st.living, begin) && c !in st.referenced
    requires c == r || CrossedIn(st', c, Raw(begin, st.point, [b]))
    ensures CrossedIn(Close(st', r, b), c, Raw(begin, st.point, [b]))
  {
    var rs := st'.ranges[c];
    var after := Close(st', r, b).ranges[c];
    if c == r {
      assert after[|rs| - 1] == Raw(begin, st.point, [b]);
    }
  }

  // ----- blocks -----

  /** What the scan of one block saw. */
  datatype Visit = Visit(block: nat, begin: nat, finish: nat, referenced: set<nat>, through: set<nat>)

  ghost predicate Crosses(st: Scan, visits: set<Visit>)
  {
    forall r: nat, k :: r < |st.ranges| && 0 <= k < |st.ranges[r]| && st.ranges[r][k].blocks != [] ==>
      exists v :: v in visits && CrossesIn(r, st.ranges[r][k], v)
  }

  ghost predicate CrossesIn(r: nat, range: Raw, v: Visit)
  {
    range == Raw(v.begin, v.finish, [v.block]) && r in v.through && r !in v.referenced
  }

  ghost predicate ValidBlock(b: Block, registers: nat)
  {
    && (forall k :: 0 <= k < |b.body| ==> b.body[k].Valid(registers))
    && (forall r :: r in b.out ==> r < registers)
  }

  /** An instruction-free block without labels is passed over. */
  predicate Skipped(b: Block)
  {
    b.body == [] && !b.labelled
  }

  /** Close everything live into the block, and leave its points behind. */
  method LeaveBlock(scanned: Scan, id: nat, ghost begin: nat) returns (ok: bool, st': Scan, ghost closed: Scan)
    requires Scanning(scanned, {}) && Untouched(scanned, scanned.living, begin) && scanned.point <= POINT_LIMIT
    ensures ok <==> scanned.point + Count(scanned.living != {}) <= POINT_LIMIT
    ensures ok ==> st'.point == scanned.point + Count(scanned.living != {})
    ensures Marks(scanned, closed, id, begin, scanned.living) && st'.ranges == closed.ranges
    ensures MarksAll(scanned, closed, id, begin)
    ensures Keeps(scanned, closed, id) && (ok ==> Scanning(st', {}) && Keeps(closed, st', NOWHERE) && st'.living == {})
    ensures ok && scanned.point < st'.point ==> OnlyAt(st', scanned.point, scanned.living)
    ensures closed.point == scanned.point
  {
    hide Scanning, Keeps, Untouched, Marks, OnlyAt, MarksAll;
    ScanningGood(scanned, {});
    st' := CloseIn(scanned, id, begin);
    closed := st';
    ok := true;
    if scanned.living != {} {
      KeepsCount(scanned, closed, id);
      ClosedOnly(scanned, closed);
      AdvanceOnly(closed, scanned.living);
      ok, st' := Advance(st');
    } else {
      assert Keeps(closed, closed, NOWHERE) by { FollowsSelf(closed); FollowsParts(closed, closed); }
    }
  }

  lemma KeepsCount(st: Scan, st': Scan, mark: int)
    requires Keeps(st, st', mark)
    ensures |st'.ranges| == |st.ranges|
  {
  }

  lemma ClosedOnly(scanned: Scan, closed: Scan)
    requires Scanning(scanned, {}) && |closed.ranges| == |scanned.ranges| && closed.living == {} && closed.point == scanned.point
    requires forall c: nat :: c < |scanned.ranges| && c !in scanned.living ==> closed.ranges[c] == scanned.ranges[c]
    ensures OnlyAt(closed, closed.point, scanned.living)
  {
    HereOnly(scanned, {});
    hide Scanning, Spans;
  }

  /** Every register over the point is touched or alive at one step of one of the block's
      instructions, or alive where the block begins. */
  ghost predicate BlockPoint(st: Scan, q: nat, b: Block)
  {
    BodyPoint(st, q, b.body, b.out, 0) || OnlyAt(st, q, b.live)
  }

  lemma KeepsBlockPoint(st: Scan, st': Scan, q: nat, b: Block, mark: int)
    requires Keeps(st, st', mark) && q < st.point && BlockPoint(st, q, b)
    ensures BlockPoint(st', q, b)
  {
    hide Keeps, BodyPoint, OnlyAt;
    if BodyPoint(st, q, b.body, b.out, 0) {
      KeepsBodyPoint(st, st', q, b.body, b.out, 0, 0, mark);
    } else {
      KeepsOnly(st, st', q, b.live, mark);
    }
  }

  lemma BlockPoints(scanned: Scan, closed: Scan, st': Scan, b: Block, id: int, begin: nat)
    requires Keeps(scanned, closed, id) && Keeps(closed, st', NOWHERE) && closed.point == scanned.point
    requires forall q: nat :: begin <= q < scanned.point ==> BodyPoint(scanned, q, b.body, b.out, 0)
    requires st'.point <= scanned.point + 1
    requires scanned.point < st'.point ==> OnlyAt(st', scanned.point, b.live)
    ensures forall q: nat :: begin <= q < st'.point ==> BlockPoint(st', q, b)
  {
    hide Keeps, BodyPoint, OnlyAt;
    forall q: nat | begin <= q < st'.point
      ensures BlockPoint(st', q, b)
    {
      if q < scanned.point {
        KeepsBodyPoint(scanned, closed, q, b.body, b.out, 0, 0, id);
        KeepsBodyPoint(closed, st', q, b.body, b.out, 0, 0, NOWHERE);
      }
    }
  }

  function BlockTicks(b: Block): nat
  {
    BodyTicks(b.body, 0, b.out) + Count(b.live != {})
  }

  /** The scan of a block leaves one visit behind; what is live through the block without
      a reference has the range of the visit. */
  ghost predicate Visited(st: Scan, b: Block, v: Visit)
  {
    && v.referenced == ReferencedFrom(b.body, 0) && v.through == b.live * b.out
    && forall r :: r in v.through - v.referenced ==> CrossedIn(st, r, Raw(v.begin, v.finish, [v.block]))
  }

  /** One block, bottom up: it succeeds exactly when the live-in set agrees and the points
      suffice. */
  method ScanBlock(st: Scan, b: Block, id: nat, physical: nat, crossed: set<nat>, ghost visits: set<Visit>)
      returns (ok: bool, st': Scan, crossed': set<nat>, kill: set<nat>, ghost visit: Visit)
    requires Scanning(st, {}) && st.living == {} && ValidBlock(b, |st.ranges|) && Crosses(st, visits) && st.point <= POINT_LIMIT
    ensures ok <==> LiveAt(b.body, 0, b.out) == b.live && st.point + BlockTicks(b) <= POINT_LIMIT
    ensures ok ==> st'.point == st.point + BlockTicks(b)
    ensures ok ==> Scanning(st', {}) && st'.living == {} && Keeps(st, st', NOWHERE) && Crosses(st', visits + {visit})
    ensures ok ==> BodyShares(st', b.body, b.out, 0, id) && Shares(st', b.out, id) && Shares(st', b.live, id)
    ensures ok ==> crossed' == crossed + CrossedFrom(b.body, 0, b.out, physical)
    ensures ok ==> kill == Virtuals(ReferencedFrom(b.body, 0), physical)
    ensures ok ==> visit.block == id && Visited(st', b, visit)
    ensures ok ==> forall q: nat :: st.point <= q < st'.point ==> BlockPoint(st', q, b)
  {
    hide Scanning, Keeps, Follows, Cov, Shares, OnlyAt, BodyPoint, BlockPoint, BodyShares, Crosses, CrossedIn, MarksAll, Opened, Untouched, Marks, LiveAt, BodyTicks,
         ReferencedFrom, CrossedFrom, Inst.Valid;
    var start := st.(referenced := {});
    ForgetReferences(st, visits);
    var entered := OpenOut(start, b.out);
    OpenedFields(start, b.out, entered);
    assert entered.living == b.out;
    ScanningGood(entered, {});
    LivingHere(entered);
    SharesHere(entered, b.out);
    ok, st', crossed' := ScanBody(entered, b.body, physical, crossed);
    kill := {};
    visit := Visit(id, st.point, st.point, {}, {});
    if !ok || st'.living != b.live {
      ok := false;
      return;
    }
    FollowsShares(entered, st', b.out);
    assert st'.referenced == ReferencedFrom(b.body, 0);
    kill := Virtuals(st'.referenced, physical);
    ghost var scanned := st';
    ScanningGood(scanned, {});
    LivingHere(scanned);
    SharesHere(scanned, b.live);
    OpenedUntouched(start, b.out, entered, scanned, st.point);
    ghost var closed;
    ok, st', closed := LeaveBlock(st', id, st.point);
    if ok {
      visit := Visit(id, st.point, scanned.point, scanned.referenced, b.live * b.out);
      ClosedCrosses(start, b.out, entered, scanned, closed, id, visits, b.live);
      SameRangesCross(closed, st', visits + {visit});
      ClosedVisited(scanned, closed, st', b, visit);
      BlockPoints(scanned, closed, st', b, id, st.point);
      OldRangesKept(start, b.out, entered, scanned, closed, id);
      KeepsTrans(start, closed, st', NOWHERE);
      SameCover(st, start, st');
      KeepsBody(scanned, closed, b.body, b.out, 0, id, NOWHERE);
      KeepsBody(closed, st', b.body, b.out, 0, NOWHERE, id);
      LeftShares(scanned, closed, st', b.out, id);
      LeftShares(scanned, closed, st', b.live, id);
    }
  }

  lemma LeftShares(scanned: Scan, closed: Scan, st': Scan, s: set<nat>, id: nat)
    requires Keeps(scanned, closed, id) && Keeps(closed, st', NOWHERE) && Shares(scanned, s, NOWHERE)
    ensures Shares(st', s, id)
  {
    hide Keeps, Shares;
    KeepsShares(scanned, closed, s, id, NOWHERE);
    KeepsShares(closed, st', s, NOWHERE, id);
  }

  lemma ClosedVisited(scanned: Scan, closed: Scan, st': Scan, b: Block, v: Visit)
    requires MarksAll(scanned, closed, v.block, v.begin) && st'.ranges == closed.ranges && scanned.living == b.live
    requires scanned.referenced == ReferencedFrom(b.body, 0)
    requires v == Visit(v.block, v.begin, scanned.point, scanned.referenced, b.live * b.out)
    ensures Visited(st', b, v)
  {
    hide ReferencedFrom;
  }

  lemma ForgetReferences(st: Scan, visits: set<Visit>)
    requires Scanning(st, {}) && Crosses(st, visits)
    ensures Scanning(st.(referenced := {}), {}) && Crosses(st.(referenced := {}), visits)
  {
  }

  lemma OpenedFields(st: Scan, out: set<nat>, st': Scan)
    requires Opened(st, out, st')
    ensures |st'.ranges| == |st.ranges| && st'.point == st.point && st'.referenced == st.referenced
    ensures st'.living == st.living + out
  {
  }

  lemma OpenedUntouched(st: Scan, out: set<nat>, entered: Scan, scanned: Scan, begin: nat)
    requires Opened(st, out, entered) && Follows(entered, scanned) && begin == st.point && st.living == {}
    requires Good(scanned)
    ensures Untouched(scanned, scanned.living, begin)
    ensures forall r :: r in scanned.living && r < |scanned.ranges| && r !in scanned.referenced ==> r in out
  {
    hide Keeps, KeepsMarks;
  }

  lemma SameCover(st: Scan, start: Scan, st': Scan)
    requires start == st.(referenced := {}) && Keeps(start, st', NOWHERE)
    ensures Keeps(st, st', NOWHERE)
  {
    hide Grows;
  }

  lemma AllEnded(st: Scan, r: nat, k: nat)
    requires Scanning(st, {}) && st.living == {} && r < |st.ranges| && k < |st.ranges[r]|
    ensures st.ranges[r][k].start <= st.ranges[r][k].finish < st.point
  {
    assert RangesOk(st.ranges[r], false, st.point);
    var last := |st.ranges[r]| - 1;
    assert k < last ==> st.ranges[r][k].finish < st.ranges[r][last].start;
  }

  /** Ranges from before the block are not marked when it is left. */
  lemma OldRangesKept(start: Scan, out: set<nat>, entered: Scan, scanned: Scan, closed: Scan, id: nat)
    requires Scanning(start, {}) && start.living == {} && Opened(start, out, entered) && Keeps(start, entered, NOWHERE)
    requires Follows(entered, scanned) && Keeps(scanned, closed, id) && Marks(scanned, closed, id, start.point, scanned.living)
    ensures Keeps(start, closed, NOWHERE)
  {
    hide Scanning, Opened;
    FollowsParts(entered, scanned);
    KeepsTrans(start, entered, scanned, NOWHERE);
    KeepsAny(start, scanned, id);
    KeepsTrans(start, scanned, closed, id);
    forall r: nat | r < |start.ranges|
      ensures Grows(start.ranges[r], false, start.point, closed.ranges[r], r in closed.living, NOWHERE)
    {
      assert Grows(start.ranges[r], false, start.point, closed.ranges[r], r in closed.living, id);
      assert Grows(start.ranges[r], false, start.point, scanned.ranges[r], r in scanned.living, NOWHERE);
      forall k | 0 <= k < |start.ranges[r]|
        ensures closed.ranges[r][k].blocks == start.ranges[r][k].blocks
      {
        AllEnded(start, r, k);
      }
    }
  }

  lemma KeepsBody(st: Scan, st': Scan, body: seq<Inst>, out: set<nat>, from: nat, mark: int, at: int)
    requires Keeps(st, st', mark) && BodyShares(st, body, out, from, at) && (mark == NOWHERE || at == NOWHERE)
    ensures BodyShares(st', body, out, from, if mark == NOWHERE then at else mark)
  {
    hide Keeps, Shares, LiveAt, AtCall, AfterDefs, AroundCall;
    forall k | from <= k < |body|
      ensures InstShares(st', body[k], LiveAt(body, k + 1, out), if mark == NOWHERE then at else mark)
    {
      var i, after := body[k], LiveAt(body, k + 1, out);
      assert InstShares(st, i, after, at);
      KeepsShares(st, st', after + Regs(i.defs), mark, at);
      if i.call {
        KeepsShares(st, st', AroundCall(i, after), mark, at);
      }
      KeepsShares(st, st', AtCall(i, after) + Regs(i.uses) + Regs(i.early), mark, at);
    }
  }

  lemma SameRangesCross(st: Scan, st': Scan, visits: set<Visit>)
    requires Crosses(st, visits) && st'.ranges == st.ranges
    ensures Crosses(st', visits)
  {
    hide CrossesIn;
  }

  lemma ClosedCrosses(start: Scan, out: set<nat>, entered: Scan, scanned: Scan, closed: Scan, id: nat,
                      visits: set<Visit>, live: set<nat>)
    requires Crosses(start, visits) && Opened(start, out, entered) && Follows(entered, scanned)
    requires scanned.living == live && Marks(scanned, closed, id, start.point, live)
    requires forall r :: r in live && r < |scanned.ranges| && r !in scanned.referenced ==> r in out
    ensures Crosses(closed, visits + {Visit(id, start.point, scanned.point, scanned.referenced, live * out)})
  {
    hide Keeps, LeavesOthers;
    var v := Visit(id, start.point, scanned.point, scanned.referenced, live * out);
    forall r: nat, k | r < |closed.ranges| && 0 <= k < |closed.ranges[r]| && closed.ranges[r][k].blocks != []
      ensures exists w :: w in visits + {v} && CrossesIn(r, closed.ranges[r][k], w)
    {
      var range := closed.ranges[r][k];
      if k < |scanned.ranges[r]| && scanned.ranges[r][k] == range {
        assert entered.ranges[r][k] == range;
        assert k < |start.ranges[r]| && start.ranges[r][k] == range;
        var w :| w in visits && CrossesIn(r, start.ranges[r][k], w);
      } else {
        assert CrossesIn(r, range, v);
      }
    }
  }
}
