/** Carrying out the evictions a choice needs, and the room they leave. */
module EvictionPlan {
  import opened LiveRange
  import opened AllocationState
  import opened GapEviction
  import opened Reservation
  import opened GapSearch
  import opened RegisterChoice

  method RecordSpill(spilled: seq<set<nat>>, r: nat, blocks: seq<nat>) returns (spilled': seq<set<nat>>)
    requires forall k :: 0 <= k < |blocks| ==> blocks[k] < |spilled|
    ensures |spilled'| == |spilled|
    ensures forall b: nat :: b < |spilled| ==> spilled'[b] == if b in blocks then spilled[b] + {r} else spilled[b]
  {
    spilled' := spilled;
    for k := 0 to |blocks|
      invariant |spilled'| == |spilled|
      invariant forall b: nat :: b < |spilled| ==> spilled'[b] == if b in blocks[..k] then spilled[b] + {r} else spilled[b]
    {
      spilled' := spilled'[blocks[k] := spilled'[blocks[k]] + {r}];
      assert blocks[..k + 1] == blocks[..k] + [blocks[k]];
    }
    assert blocks[..|blocks|] == blocks;
  }

  /** Gaps already evicted no longer hold their register. */
  ghost predicate Gone(i: Input, s: State, reg: nat, g: Gap)
  {
    g.reg != reg ==>
      && i.HasRange(g.reg, g.range)
      && !Holds(i, s, g)
      && RecordedIn(i, s, g.reg, g.range)
      && forall point: nat :: i.Covers(g.reg, g.range, point) ==> point < |s.used| && g.physical !in s.used[point]
  }

  /** Progress of the eviction, from the back of the plan to `k`. */
  ghost predicate Evicting(i: Input, s0: State, s: State, r: nat, plan: seq<Gap>, own: set<nat>, k: nat)
    requires i.Valid() && Sized(i, s0) && Sized(i, s) && k <= |plan|
  {
    && s.busy == s0.busy && s.stack == s0.stack && s.location == s0.location
    && s.stackBytes == s0.stackBytes && s.reusable == s0.reusable
    && (forall key :: key in s.gaps ==> key in s0.gaps && s0.gaps[key] == s.gaps[key])
    && (forall key :: key in s0.gaps && key !in s.gaps ==> InTail(plan, k, s0.gaps[key]))
    && (forall point: nat :: point <= i.points ==> s.used[point] <= s0.used[point])
    && (forall j :: k <= j < |plan| ==> Gone(i, s, r, plan[j]))
    && (forall j :: k <= j < |plan| && plan[j].reg == r ==>
          i.HasRange(r, plan[j].range) && i.ranges[r][plan[j].range].start in own && RecordedIn(i, s, r, plan[j].range))
    && (forall st :: st in own ==> exists j :: k <= j < |plan| && OwnStart(i, r, plan[j], st))
  }

  ghost predicate InTail(plan: seq<Gap>, k: nat, g: Gap)
  {
    exists j :: k <= j < |plan| && plan[j] == g
  }

  ghost predicate OwnStart(i: Input, r: nat, g: Gap, start: nat)
  {
    g.reg == r && i.HasRange(r, g.range) && i.ranges[r][g.range].start == start
  }

  ghost predicate RecordedIn(i: Input, s: State, r: nat, n: nat)
    requires i.HasRange(r, n)
  {
    forall b :: b in i.ranges[r][n].blocks ==> b < |s.spilled| && r in s.spilled[b]
  }

  lemma EvictGone(i: Input, s: State, r: nat, g: Gap, s': State, h: Gap)
    requires i.Valid() && Sized(i, s) && Holds(i, s, g) && Evicts(i, s, g, s')
    requires h == g || Gone(i, s, r, h)
    ensures Gone(i, s', r, h)
  {
    RangeInPoints(i, g.reg, g.range);
    if h == g {
      hide Input.Valid;
      forall point: nat | i.Covers(g.reg, g.range, point)
        ensures point < |s'.used| && g.physical !in s'.used[point]
      {
      }
    } else if h.reg != r {
      hide Input.Valid;
      forall point: nat | i.Covers(h.reg, h.range, point)
        ensures point < |s'.used| && h.physical !in s'.used[point]
      {
      }
    }
  }

  lemma EvictProgress(i: Input, s0: State, s: State, r: nat, plan: seq<Gap>, own: set<nat>, k: nat, s': State)
    requires i.Valid() && Sized(i, s0) && Sized(i, s) && 0 < k <= |plan| && GapsOk(i, s)
    requires Evicting(i, s0, s, r, plan, own, k) && plan[k - 1].reg != r
    requires Holds(i, s, plan[k - 1]) && Evicts(i, s, plan[k - 1], s')
    ensures Evicting(i, s0, s', r, plan, own, k - 1)
  {
    hide Input.Valid, GapsOk, Gone;
    forall key | key in s0.gaps && key !in s'.gaps
      ensures InTail(plan, k - 1, s0.gaps[key])
    {
      if key in s.gaps {
        assert plan[k - 1] == s0.gaps[key];
      } else {
        assert InTail(plan, k, s0.gaps[key]);
      }
    }
    forall j | k - 1 <= j < |plan|
      ensures Gone(i, s', r, plan[j])
    {
      EvictGone(i, s, r, plan[k - 1], s', plan[j]);
    }
    forall j | k - 1 <= j < |plan| && plan[j].reg == r
      ensures i.HasRange(r, plan[j].range) && i.ranges[r][plan[j].range].start in own && RecordedIn(i, s', r, plan[j].range)
    {
      assert RecordedIn(i, s, r, plan[j].range);
    }
    forall st | st in own
      ensures exists j :: k - 1 <= j < |plan| && OwnStart(i, r, plan[j], st)
    {
      var j :| k <= j < |plan| && OwnStart(i, r, plan[j], st);
    }
  }

  /** A gap listed twice is evicted once; the second time nothing changes. */
  lemma AgainChangesNothing(i: Input, s0: State, s: State, r: nat, plan: seq<Gap>, own: set<nat>, k: nat,
                            used: seq<set<nat>>, spilled: seq<set<nat>>)
    requires i.Valid() && Sized(i, s0) && Sized(i, s) && 0 < k <= |plan|
    requires Evicting(i, s0, s, r, plan, own, k) && plan[k - 1].reg != r
    requires Holds(i, s0, plan[k - 1]) && !Holds(i, s, plan[k - 1])
    requires InTail(plan, k, plan[k - 1])
    requires |used| == |s.used| && |spilled| == |s.spilled|
    requires forall point: nat :: point <= i.points ==>
               used[point] == if i.Covers(plan[k - 1].reg, plan[k - 1].range, point) then s.used[point] - {plan[k - 1].physical} else s.used[point]
    requires forall b: nat :: b < i.blocks ==>
               spilled[b] == if b in RangeOf(i, plan[k - 1]).blocks then s.spilled[b] + {plan[k - 1].reg} else s.spilled[b]
    ensures s == s.(used := used, spilled := spilled, gaps := s.gaps - {(plan[k - 1].physical, RangeOf(i, plan[k - 1]).start)})
    ensures Evicting(i, s0, s, r, plan, own, k - 1)
  {
    hide Input.Valid;
    var g := plan[k - 1];
    var j :| k <= j < |plan| && plan[j] == g;
    assert Gone(i, s, r, g);
    forall point: nat | point <= i.points
      ensures used[point] == s.used[point]
    {
      assert i.Covers(g.reg, g.range, point) ==> g.physical !in s.used[point];
    }
    forall b: nat | b < i.blocks
      ensures spilled[b] == s.spilled[b]
    {
      assert b in RangeOf(i, g).blocks ==> g.reg in s.spilled[b];
    }
    assert used == s.used && spilled == s.spilled;
    assert (g.physical, RangeOf(i, g).start) !in s.gaps;
    forall st | st in own
      ensures exists j :: k - 1 <= j < |plan| && OwnStart(i, r, plan[j], st)
    {
      var m :| k <= m < |plan| && OwnStart(i, r, plan[m], st);
    }
  }

  lemma SpillMoreKeepsBooked(i: Input, s: State, owner: Owners, spilled: seq<set<nat>>)
    requires Booked(i, s, owner) && |spilled| == i.blocks
    requires forall b: nat :: b < i.blocks ==> s.spilled[b] <= spilled[b]
    ensures Booked(i, s.(spilled := spilled), owner)
  {
    var s' := s.(spilled := spilled);
    forall r: nat, n: nat, p: nat
      ensures Resident(i, s', r, n, p) <==> Resident(i, s, r, n, p)
    {
    }
    SpillMoreOwned(i, s, owner, s');
  }

  lemma SpillMoreOwned(i: Input, s: State, owner: Owners, s': State)
    requires i.Valid() && Sized(i, s) && Sized(i, s') && Owned(i, s, owner)
    requires forall r: nat, n: nat, p: nat :: Resident(i, s', r, n, p) <==> Resident(i, s, r, n, p)
    ensures Owned(i, s', owner)
  {
    hide Resident, Input.Valid;
    forall point: nat, p: nat | point <= i.points && p in owner[point]
      ensures Occupies(i, s', owner[point][p], point, p)
    {
      assert Occupies(i, s, owner[point][p], point, p);
    }
  }

  lemma OwnProgress(i: Input, s0: State, s: State, r: nat, plan: seq<Gap>, own: set<nat>, k: nat, spilled: seq<set<nat>>)
    requires i.Valid() && Sized(i, s0) && Sized(i, s) && 0 < k <= |plan|
    requires Evicting(i, s0, s, r, plan, own, k) && plan[k - 1].reg == r && i.HasRange(r, plan[k - 1].range)
    requires |spilled| == i.blocks
    requires forall b: nat :: b < i.blocks ==>
               spilled[b] == if b in RangeOf(i, plan[k - 1]).blocks then s.spilled[b] + {r} else s.spilled[b]
    ensures Evicting(i, s0, s.(spilled := spilled), r, plan, own + {RangeOf(i, plan[k - 1]).start}, k - 1)
  {
    RangeInPoints(i, r, plan[k - 1].range);
    hide Input.Valid;
    var s' := s.(spilled := spilled);
    forall j | k <= j < |plan|
      ensures Gone(i, s', r, plan[j])
    {
      assert Gone(i, s, r, plan[j]);
    }
    forall j | k <= j < |plan| && plan[j].reg == r
      ensures RecordedIn(i, s', r, plan[j].range)
    {
      assert RecordedIn(i, s, r, plan[j].range);
    }
    var own' := own + {RangeOf(i, plan[k - 1]).start};
    forall st | st in own'
      ensures exists j :: k - 1 <= j < |plan| && OwnStart(i, r, plan[j], st)
    {
      if st in own {
        var m :| k <= m < |plan| && OwnStart(i, r, plan[m], st);
      } else {
        assert OwnStart(i, r, plan[k - 1], st);
      }
    }
  }

  /** Take the plan's gaps away from their registers, last one first; whole-block
      ranges of `r` itself that the plan gives up end in `own`. */
  method EvictPlan(i: Input, s0: State, ghost owner0: Owners, r: nat, p: nat, plan: seq<Gap>)
      returns (s: State, own: set<nat>, ghost owner: Owners)
    requires Booked(i, s0, owner0) && Plan(i, s0, r, p, plan)
    ensures Booked(i, s, owner) && Evicting(i, s0, s, r, plan, own, 0)
    ensures plan == [] ==> s == s0
    ensures SpillsMore(i, s0, s.spilled, r)
  {
    hide SpillsMore, Owned, Marked, GapsOk, SpillsRecorded, Planned, Input.Valid, Evicting, Holds;
    s, own, owner := s0, {}, owner0;
    StartEvicting(i, s0, r, plan);
    assert SpillsMore(i, s0, s0.spilled, r) by { NothingSpilled(i, s0, r); }
    var k := |plan|;
    while 0 < k
      invariant 0 <= k <= |plan|
      invariant Booked(i, s, owner) && Evicting(i, s0, s, r, plan, own, k)
      invariant k == |plan| ==> s == s0
      invariant SpillsMore(i, s0, s.spilled, r)
    {
      var g := plan[k - 1];
      var lr := RangeOf(i, g);
      RangeInPoints(i, g.reg, g.range);
      var spilled := RecordSpill(s.spilled, g.reg, lr.blocks);
      PlannedSpill(i, s0, s, r, p, plan, k - 1, spilled);
      if g.reg == r {
        SpillMoreKeepsBooked(i, s, owner, spilled);
        OwnProgress(i, s0, s, r, plan, own, k, spilled);
        own := own + {lr.start};
        s := s.(spilled := spilled);
      } else {
        var used := Reserve(s.used, {g.physical}, lr.start, lr.finish, false);
        var s' := s.(used := used, spilled := spilled, gaps := s.gaps - {(g.physical, lr.start)});
        if HoldsNow(i, s, g) {
          assert Evicts(i, s, g, s');
          EvictKeepsBooked(i, s, owner, g, s');
          EvictProgress(i, s0, s, r, plan, own, k, s');
          owner := Without(i, owner, g);
        } else {
          HeldAtStart(i, s0, s, r, p, plan, own, k);
          AgainChangesNothing(i, s0, s, r, plan, own, k, used, spilled);
        }
        s := s';
      }
      k := k - 1;
    }
  }

  /** Only registers in hardware, and `r` itself, are newly recorded, each in blocks that
      one of its ranges crosses. */
  ghost predicate SpillsMore(i: Input, s0: State, spilled: seq<set<nat>>, r: nat)
  {
    && |spilled| == |s0.spilled| && |s0.location| == i.Count()
    && forall b: nat, c: nat :: b < |spilled| && c in spilled[b] ==>
         c in s0.spilled[b] || (i.Free(c) && i.Crosses(c, b) && (c == r || s0.location[c].InRegister?))
  }

  lemma NothingSpilled(i: Input, s: State, r: nat)
    requires Sized(i, s)
    ensures SpillsMore(i, s, s.spilled, r)
  {
  }

  lemma PlannedSpill(i: Input, s0: State, s: State, r: nat, p: nat, plan: seq<Gap>, k: nat, spilled: seq<set<nat>>)
    requires i.Valid() && Sized(i, s0) && Sized(i, s) && GapsOk(i, s0) && Plan(i, s0, r, p, plan) && k < |plan|
    requires SpillsMore(i, s0, s.spilled, r) && |spilled| == |s.spilled|
    requires forall b: nat :: b < |spilled| ==>
               spilled[b] == if b in RangeOf(i, plan[k]).blocks then s.spilled[b] + {plan[k].reg} else s.spilled[b]
    ensures SpillsMore(i, s0, spilled, r)
  {
    hide Input.Valid, Planned;
    var g := plan[k];
    assert g.reg == r || HeldGap(i, s0, p, g);
    assert i.Free(g.reg) && (g.reg == r || s0.location[g.reg].InRegister?);
    assert forall b: nat :: b in RangeOf(i, g).blocks ==> i.Crosses(g.reg, b);
  }

  ghost predicate HoldsNow(i: Input, s: State, g: Gap)
    ensures HoldsNow(i, s, g) <==> Holds(i, s, g)
  {
    Holds(i, s, g)
  }

  lemma StartEvicting(i: Input, s: State, r: nat, plan: seq<Gap>)
    requires i.Valid() && Sized(i, s)
    ensures Evicting(i, s, s, r, plan, {}, |plan|)
  {
    hide Input.Valid;
  }

  lemma HeldAtStart(i: Input, s0: State, s: State, r: nat, p: nat, plan: seq<Gap>, own: set<nat>, k: nat)
    requires i.Valid() && Sized(i, s0) && Sized(i, s) && 0 < k <= |plan| && ListsHeld(i, s0, p, r, plan)
    requires Evicting(i, s0, s, r, plan, own, k) && plan[k - 1].reg != r && !Holds(i, s, plan[k - 1])
    ensures Holds(i, s0, plan[k - 1])
    ensures InTail(plan, k, plan[k - 1])
  {
    hide Input.Valid;
    assert Holds(i, s0, plan[k - 1]);
  }

  // ----- a carried-out plan leaves room -----

  lemma GapsGaveWay(i: Input, s0: State, owner0: Owners, s: State, owner: Owners, r: nat, p: nat, plan: seq<Gap>, own: set<nat>,
                    n: nat, point: nat)
    requires Booked(i, s0, owner0) && Booked(i, s, owner) && Evicting(i, s0, s, r, plan, own, 0)
    requires i.Free(r) && s0.location[r] == Unassigned && i.advanced && i.Covers(r, n, point)
    requires Available(p, i.ranges[r][n], s0.busy)
    requires FoundBelow(i, s0, p, i.ranges[r][n], plan, i.ranges[r][n].finish + 1)
    ensures point <= i.points && p !in s.used[point]
  {
    RangeInPoints(i, r, n);
    assert p !in s0.busy[point];
    assert p !in i.globals;
    hide Input.Valid, GapsOk, SpillsRecorded;
    if p in s.used[point] {
      assert p in owner[point];
      assert Occupies(i, s, owner[point][p], point, p);
      OwnerIsGap(i, s0, s, owner, r, p, point);
      var g := Gap(p, owner[point][p].0, owner[point][p].1);
      assert i.Covers(g.reg, g.range, point);
      EvictedNotHeld(i, s0, s, r, p, plan, own, n, g);
    }
  }

  lemma EvictedNotHeld(i: Input, s0: State, s: State, r: nat, p: nat, plan: seq<Gap>, own: set<nat>, n: nat, g: Gap)
    requires i.Valid() && Sized(i, s0) && Sized(i, s) && Evicting(i, s0, s, r, plan, own, 0) && i.HasRange(r, n)
    requires HeldGap(i, s0, p, g) && g.reg != r && Meet(RangeOf(i, g), i.ranges[r][n])
    requires FoundBelow(i, s0, p, i.ranges[r][n], plan, i.ranges[r][n].finish + 1)
    ensures !Holds(i, s, g)
  {
    hide Input.Valid;
    assert g in plan;
    var j :| 0 <= j < |plan| && plan[j] == g;
    assert Gone(i, s, r, plan[j]);
  }

  lemma OwnerIsGap(i: Input, s0: State, s: State, owner: Owners, r: nat, p: nat, point: nat)
    requires Booked(i, s, owner) && Sized(i, s0) && point <= i.points && i.advanced
    requires p in owner[point] && p !in s.busy[point] && r < i.Count() && s.location[r] == Unassigned
    requires forall key :: key in s.gaps ==> key in s0.gaps && s0.gaps[key] == s.gaps[key]
    ensures var g := Gap(p, owner[point][p].0, owner[point][p].1);
            g.reg != r && Holds(i, s, g) && Holds(i, s0, g)
  {
    hide GapsOk, SpillsRecorded;
    assert Occupies(i, s, owner[point][p], point, p);
    assert !HeldFirmly(i, owner, point, p);
  }

  lemma PlanMakesRoom(i: Input, s0: State, owner0: Owners, s: State, owner: Owners, r: nat, p: nat, plan: seq<Gap>, own: set<nat>)
    requires Booked(i, s0, owner0) && Booked(i, s, owner) && Plan(i, s0, r, p, plan)
    requires Evicting(i, s0, s, r, plan, own, 0) && r < i.Count() && s0.location[r] == Unassigned
    ensures CanPlace(i, s, r, p, own)
  {
    forall point: nat | point <= i.points && StaysAt(i, r, own, |i.ranges[r]|, point)
      ensures p !in s.used[point]
    {
      var n: nat :| n < |i.ranges[r]| && i.Covers(r, n, point) && i.ranges[r][n].start !in own;
      StayingIsFree(i, s0, owner0, s, owner, r, p, plan, own, n, point);
    }
    forall n: nat | n < |i.ranges[r]| && i.ranges[r][n].start in own
      ensures i.WholeBlock(r, n) && forall b :: b in i.ranges[r][n].blocks ==> b < i.blocks && r in s.spilled[b]
    {
      OwnIsRecorded(i, s0, s, r, p, plan, own, n);
    }
    if own != {} {
      var st :| st in own;
    }
    hide Owned, Marked, GapsOk, SpillsRecorded, Input.Valid;
  }

  lemma OwnIsRecorded(i: Input, s0: State, s: State, r: nat, p: nat, plan: seq<Gap>, own: set<nat>, n: nat)
    requires i.Valid() && Sized(i, s0) && Sized(i, s) && Plan(i, s0, r, p, plan) && Evicting(i, s0, s, r, plan, own, 0)
    requires n < |i.ranges[r]| && i.ranges[r][n].start in own
    ensures i.WholeBlock(r, n) && forall b :: b in i.ranges[r][n].blocks ==> b < i.blocks && r in s.spilled[b]
  {
    var j :| 0 <= j < |plan| && OwnStart(i, r, plan[j], i.ranges[r][n].start);
    StartsDiffer(i, r, n, plan[j].range);
    hide Input.Valid;
    assert RecordedIn(i, s, r, plan[j].range);
  }

  lemma StayingIsFree(i: Input, s0: State, owner0: Owners, s: State, owner: Owners, r: nat, p: nat, plan: seq<Gap>,
                      own: set<nat>, n: nat, point: nat)
    requires Booked(i, s0, owner0) && Booked(i, s, owner) && Plan(i, s0, r, p, plan)
    requires Evicting(i, s0, s, r, plan, own, 0) && s0.location[r] == Unassigned
    requires i.Covers(r, n, point) && i.ranges[r][n].start !in own && point <= i.points
    ensures p !in s.used[point]
  {
    assert Planned(i, s0, r, p, plan, n);
    assert Gap(p, r, n) !in plan;
    if Available(p, i.ranges[r][n], s0.used) {
      assert p !in s0.used[point];
    } else if Available(p, i.ranges[r][n], s0.busy) && FoundBelow(i, s0, p, i.ranges[r][n], plan, i.ranges[r][n].finish + 1) {
      GapsGaveWay(i, s0, owner0, s, owner, r, p, plan, own, n, point);
    }
  }
}
