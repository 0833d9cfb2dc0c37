/** Choosing a physical register, free or worth evicting for. */
module RegisterChoice {
  import opened Optional
  import opened LiveRange
  import opened AllocationState
  import opened GapEviction
  import opened Reservation
  import opened GapSearch

  /** Each range of `r` finds `p` free, or only gaps in the way that the plan
      evicts, or is itself a whole-block range that the plan spills. */
  ghost predicate Planned(i: Input, s: State, r: nat, p: nat, plan: seq<Gap>, n: nat)
    requires i.Valid() && Sized(i, s) && i.HasRange(r, n)
  {
    || Available(p, i.ranges[r][n], s.used)
    || (i.advanced && Available(p, i.ranges[r][n], s.busy)
        && FoundBelow(i, s, p, i.ranges[r][n], plan, i.ranges[r][n].finish + 1))
    || (i.advanced && i.WholeBlock(r, n) && Gap(p, r, n) in plan)
  }

  ghost predicate Plan(i: Input, s: State, r: nat, p: nat, plan: seq<Gap>)
    requires i.Valid() && Sized(i, s)
  {
    && i.Free(r) && p < i.physical && p !in i.reserved && Accepts(i, p, r)
    && ListsHeld(i, s, p, r, plan)
    && (plan != [] ==> i.advanced)
    && forall n: nat :: n < |i.ranges[r]| ==> Planned(i, s, r, p, plan, n)
  }

  /** A value that crosses a call may not sit in a register the call preserves only
      in part. */
  predicate Accepts(i: Input, p: nat, r: nat)
  {
    i.accepts(p, r) && (r !in i.crossed || p in i.clobbered || !i.partly(p, r))
  }

  lemma PlannedMore(i: Input, s: State, r: nat, p: nat, plan: seq<Gap>, more: seq<Gap>, n: nat)
    requires i.Valid() && Sized(i, s) && i.HasRange(r, n) && Planned(i, s, r, p, plan, n) && plan <= more
    ensures Planned(i, s, r, p, more, n)
  {
    hide Holds, Input.Valid;
    assert forall g :: g in plan ==> g in more;
  }

  /** Something marked at a point of `r`. */
  ghost predicate Touched(i: Input, r: nat, points: seq<set<nat>>, x: nat)
  {
    exists n: nat, point: nat :: i.Covers(r, n, point) && point < |points| && x in points[point]
  }

  /** A register that is free at every point of `r`. */
  ghost predicate FreeFor(i: Input, s: State, r: nat, p: nat)
  {
    p < i.physical && p !in i.reserved && Accepts(i, p, r) && !Touched(i, r, s.used, p)
  }

  /** Of the free registers, the first that calls clobber, or the first at all. */
  ghost predicate BestFree(i: Input, s: State, r: nat, p: nat)
  {
    && FreeFor(i, s, r, p)
    && forall q: nat :: FreeFor(i, s, r, q) ==> Preferred(i, p, q)
  }

  predicate Preferred(i: Input, p: nat, q: nat)
  {
    (q in i.clobbered ==> p in i.clobbered) && ((q in i.clobbered <==> p in i.clobbered) ==> p <= q)
  }

  /** Every range finds `p` free of firm reservations, or can be given up. */
  predicate Movable(i: Input, s: State, r: nat, p: nat, count: nat)
    requires i.Valid() && Sized(i, s) && r < i.Count() && count <= |i.ranges[r]|
  {
    forall n: nat :: n < count ==> MovableRange(i, s, r, p, n)
  }

  predicate MovableRange(i: Input, s: State, r: nat, p: nat, n: nat)
    requires i.Valid() && Sized(i, s) && i.HasRange(r, n)
  {
    RangeInPoints(i, r, n);
    Available(p, i.ranges[r][n], s.used) || Available(p, i.ranges[r][n], s.busy) || i.ranges[r][n].blocks != []
  }

  // ----- what giving way gains -----

  /** Range `n` of `r` is in the way of a gap, or given up for it. */
  ghost predicate Clears(i: Input, s: State, r: nat, p: nat, n: nat, g: Gap)
    requires i.Valid() && Sized(i, s) && i.HasRange(r, n)
  {
    RangeInPoints(i, r, n);
    && !Available(p, i.ranges[r][n], s.used)
    && if Available(p, i.ranges[r][n], s.busy) then HeldGap(i, s, p, g) && Meet(RangeOf(i, g), i.ranges[r][n]) else g == Gap(p, r, n)
  }

  /** Nothing is given up that is not in the way of the first `n` ranges. */
  ghost predicate NoneIdle(i: Input, s: State, r: nat, p: nat, n: nat, plan: seq<Gap>)
    requires i.Valid() && Sized(i, s) && r < i.Count() && n <= |i.ranges[r]|
  {
    forall k :: 0 <= k < |plan| ==> ClearsSome(i, s, r, p, n, plan[k])
  }

  ghost predicate ClearsSome(i: Input, s: State, r: nat, p: nat, n: nat, g: Gap)
    requires i.Valid() && Sized(i, s) && r < i.Count() && n <= |i.ranges[r]|
  {
    exists m: nat :: m < n && Clears(i, s, r, p, m, g)
  }

  /** Points of the ranges that only gaps keep from `p`. */
  function GapPoints(i: Input, s: State, r: nat, p: nat, n: nat): nat
    requires i.Valid() && Sized(i, s) && r < i.Count() && n <= |i.ranges[r]|
  {
    if n == 0 then 0
    else
      RangeInPoints(i, r, n - 1);
      var lr := i.ranges[r][n - 1];
      GapPoints(i, s, r, p, n - 1)
      + if !Available(p, lr, s.used) && Available(p, lr, s.busy) then lr.finish - lr.start + 1 else 0
  }

  lemma IdleNext(i: Input, s: State, r: nat, p: nat, n: nat, plan: seq<Gap>, plan': seq<Gap>)
    requires i.Valid() && Sized(i, s) && i.HasRange(r, n) && NoneIdle(i, s, r, p, n, plan) && plan <= plan'
    requires forall k :: |plan| <= k < |plan'| ==> Clears(i, s, r, p, n, plan'[k])
    ensures NoneIdle(i, s, r, p, n + 1, plan')
  {
    hide Clears, Input.Valid;
    forall k | 0 <= k < |plan'|
      ensures ClearsSome(i, s, r, p, n + 1, plan'[k])
    {
      if k < |plan| {
        assert ClearsSome(i, s, r, p, n, plan[k]);
        var m: nat :| m < n && Clears(i, s, r, p, m, plan[k]);
      }
    }
  }

  lemma GapClears(i: Input, s: State, r: nat, p: nat, n: nat, g: Gap)
    requires i.Valid() && Sized(i, s) && i.HasRange(r, n) && i.ranges[r][n].finish < |s.used| == |s.busy|
    requires !Available(p, i.ranges[r][n], s.used) && Available(p, i.ranges[r][n], s.busy)
    requires HeldGap(i, s, p, g) && Meet(RangeOf(i, g), i.ranges[r][n])
    ensures Clears(i, s, r, p, n, g)
  {
    hide Available, Meet, HeldGap, Input.Valid;
  }

  lemma ListedCosts(i: Input, s: State, p: nat, lr: Range, found: seq<Gap>, found': seq<Gap>, total: int, next: nat)
    requires Lists(i, s, p, lr, found, found', total, next)
    ensures total <= INT_MAX ==> CostOf(i, found') == CostOf(i, found) + total
  {
    hide Overlapping, CostOf;
    assert found' == found + found'[|found|..];
    CostAdds(i, found, found'[|found|..]);
  }

  lemma ListedMeets(i: Input, s: State, p: nat, lr: Range, found: seq<Gap>, found': seq<Gap>, total: int, next: nat, k: nat)
    requires Lists(i, s, p, lr, found, found', total, next) && |found| <= k < |found'|
    ensures HeldGap(i, s, p, found'[k]) && Meet(RangeOf(i, found'[k]), lr)
  {
    hide CostOf, Meet, HeldGap;
    assert found'[|found|..][k - |found|] == found'[k];
  }

  lemma GapsClear(i: Input, s: State, r: nat, p: nat, n: nat, plan: seq<Gap>, plan': seq<Gap>, total: int, next: nat)
    requires i.Valid() && Sized(i, s) && i.HasRange(r, n) && i.ranges[r][n].finish < |s.used| == |s.busy|
    requires !Available(p, i.ranges[r][n], s.used) && Available(p, i.ranges[r][n], s.busy)
    requires Lists(i, s, p, i.ranges[r][n], plan, plan', total, next)
    ensures forall k :: |plan| <= k < |plan'| ==> Clears(i, s, r, p, n, plan'[k])
    ensures total <= INT_MAX ==> CostOf(i, plan') == CostOf(i, plan) + total
  {
    hide Available, Lists, Clears, CostOf, Input.Valid;
    ListedCosts(i, s, p, i.ranges[r][n], plan, plan', total, next);
    forall k | |plan| <= k < |plan'|
      ensures Clears(i, s, r, p, n, plan'[k])
    {
      ListedMeets(i, s, p, i.ranges[r][n], plan, plan', total, next, k);
      GapClears(i, s, r, p, n, plan'[k]);
    }
  }

  /** What taking `p` for `r` gives and takes, when the plan is carried out. */
  datatype Offer = Offer(possible: bool, profit: int, gapSize: nat, plan: seq<Gap>)

  /** A possible offer gives up just what is in the way, for the frequency of the value less
      what all that costs. */
  ghost predicate Fair(i: Input, s: State, r: nat, p: nat, o: Offer)
    requires i.Valid() && Sized(i, s) && r < i.Count()
  {
    && (o.possible <==> Movable(i, s, r, p, |i.ranges[r]|))
    && (o.possible ==>
          && Plan(i, s, r, p, o.plan) && NoneIdle(i, s, r, p, |i.ranges[r]|, o.plan)
          && o.profit == i.frequency(r) - CostOf(i, o.plan) && o.gapSize == GapPoints(i, s, r, p, |i.ranges[r]|))
  }

  predicate Candidate(i: Input, r: nat, p: nat)
  {
    p < i.physical && p !in i.reserved && Accepts(i, p, r)
  }

  /** More profit wins, then clobbered by calls, then more points taken from gaps. */
  predicate Beats(i: Input, p: nat, a: Offer, q: nat, b: Offer)
  {
    || a.profit > b.profit
    || (a.profit == b.profit && p in i.clobbered && q !in i.clobbered)
    || (a.profit == b.profit && (p in i.clobbered <==> q in i.clobbered) && a.gapSize > b.gapSize)
  }

  predicate Worthwhile(o: Offer)
  {
    o.possible && o.profit >= 0
  }

  /** Of the worthwhile offers below `n` the first that no other beats, and none only if
      there are none. */
  ghost predicate BestOffer(i: Input, offers: map<nat, Offer>, best: Option<nat>)
  {
    && (best.None? ==> forall q :: q in offers ==> !Worthwhile(offers[q]))
    && (best.Some? ==>
          && best.value in offers && Worthwhile(offers[best.value])
          && forall q :: q in offers && Worthwhile(offers[q]) && q != best.value ==>
               if q < best.value then Beats(i, best.value, offers[best.value], q, offers[q])
               else !Beats(i, q, offers[q], best.value, offers[best.value]))
  }

  lemma BetterOffer(i: Input, offers: map<nat, Offer>, best: Option<nat>, p: nat, o: Offer)
    requires BestOffer(i, offers, best) && forall q :: q in offers ==> q < p
    ensures BestOffer(i, offers[p := o],
                      if Worthwhile(o) && (best.None? || Beats(i, p, o, best.value, offers[best.value])) then Some(p) else best)
  {
  }

  /** Where the ranges considered before the `n`-th begin. */
  function Lowest(i: Input, r: nat, n: nat): nat
    requires r < i.Count() && n <= |i.ranges[r]|
  {
    if n == 0 || i.ranges[r][n - 1].start > i.points then i.points + 1 else i.ranges[r][n - 1].start
  }

  /** Ranges share no point, so that one cost a point pays for those considered. */
  ghost predicate Spent(i: Input, r: nat, n: nat, spent: int)
    requires r < i.Count() && n <= |i.ranges[r]|
  {
    0 <= spent <= Budget(i.points + 1 - Lowest(i, r, n), Most(i))
  }

  lemma NothingSpent(i: Input, r: nat)
    requires r < i.Count()
    ensures Spent(i, r, 0, 0)
  {
  }

  lemma CostFits(i: Input, r: nat, n: nat)
    requires i.HasRange(r, n) && i.ranges[r][n].start <= i.ranges[r][n].finish && Affordable(i)
    ensures i.cost(r, n) <= Budget(i.ranges[r][n].finish - i.ranges[r][n].start + 1, Most(i))
  {
    BudgetGrows(0, i.ranges[r][n].finish - i.ranges[r][n].start + 1, Most(i));
  }

  lemma SpendNext(i: Input, r: nat, n: nat, spent: int, deduction: int)
    requires i.Valid() && i.Free(r) && i.HasRange(r, n) && Affordable(i) && Spent(i, r, n, spent)
    requires i.ranges[r][n].start <= i.ranges[r][n].finish
    requires 0 <= deduction <= Budget(i.ranges[r][n].finish - i.ranges[r][n].start + 1, Most(i))
    ensures deduction <= INT_MAX && Spent(i, r, n + 1, spent + deduction)
    ensures INT_MIN <= i.frequency(r) - spent - deduction <= INT_MAX
  {
    hide Budget;
    RangeInPoints(i, r, n);
    var lr, most := i.ranges[r][n], Most(i);
    assert n > 0 ==> i.HasRange(r, n - 1) && lr.finish < i.ranges[r][n - 1].start;
    BudgetAdds(i.points - lr.finish, lr.finish - lr.start + 1, most);
    BudgetGrows(i.points + 1 - Lowest(i, r, n), i.points - lr.finish, most);
    BudgetGrows(i.points + 1 - lr.start, i.points + 1, most);
    BudgetGrows(lr.finish - lr.start + 1, i.points + 1, most);
  }

  /** Try `p` for `r`: what would have to give way, and what that costs. */
  method Consider(i: Input, s: State, ghost owner: Owners, r: nat, p: nat)
      returns (ok: bool, possible: bool, profit: int, gapSize: nat, plan: seq<Gap>)
    requires Booked(i, s, owner) && i.Free(r) && i.advanced
    requires p < i.physical && p !in i.reserved && Accepts(i, p, r)
    ensures ok && possible ==> Plan(i, s, r, p, plan)
    ensures ok ==> (possible <==> Movable(i, s, r, p, |i.ranges[r]|))
    ensures ok ==> Fair(i, s, r, p, Offer(possible, profit, gapSize, plan))
    ensures ok && INT_MIN <= i.frequency(r) <= INT_MAX ==> INT_MIN <= profit <= INT_MAX
    ensures Affordable(i) ==> ok
  {
    hide NoneIdle, CostOf, GapPoints, Clears, Lists, Affordable, Budget, Lowest, MovableRange, Owned, Marked, GapsOk, SpillsRecorded, Planned, FoundBelow, Holds, Input.Valid;
    ok, possible, profit, gapSize, plan := true, true, i.frequency(r), 0, [];
    NothingSpent(i, r);
    NothingGiven(i, s, r, p);
    for n := 0 to |i.ranges[r]|
      invariant ok && possible && ListsHeld(i, s, p, r, plan)
      invariant forall k: nat :: k < n ==> Planned(i, s, r, p, plan, k)
      invariant Movable(i, s, r, p, n)
      invariant NoneIdle(i, s, r, p, n, plan) && profit == i.frequency(r) - CostOf(i, plan) && gapSize == GapPoints(i, s, r, p, n)
      invariant Affordable(i) ==> Spent(i, r, n, i.frequency(r) - profit)
      invariant INT_MIN <= i.frequency(r) <= INT_MAX ==> INT_MIN <= profit <= INT_MAX
    {
      RangeInPoints(i, r, n);
      var lr := i.ranges[r][n];
      ghost var before := plan;
      CanMove(i, s, r, p, n);
      GapPointsNext(i, s, r, p, n);
      var deduction := 0;
      if !Available(p, lr, s.used) {
        if Available(p, lr, s.busy) {
          plan, deduction := FindGaps(i, s, owner, p, r, lr, plan);
          ghost var next: nat :| Lists(i, s, p, lr, before, plan, deduction, next);
          GapsClear(i, s, r, p, n, before, plan, deduction, next);
          gapSize := gapSize + (lr.finish - lr.start + 1);
        } else if lr.blocks == [] {
          possible := false;
          return;
        } else {
          deduction := i.cost(r, n);
          plan := plan + [Gap(p, r, n)];
          CostMore(i, before, Gap(p, r, n));
          OwnClears(i, s, r, p, n);
        }
        if Affordable(i) {
          CostFits(i, r, n);
          SpendNext(i, r, n, i.frequency(r) - profit, deduction);
        }
        if deduction > INT_MAX {
          ok := false;
          return;
        }
        profit := profit - deduction;
        if profit < INT_MIN || profit > INT_MAX {
          ok := false;
          return;
        }
      } else if Affordable(i) {
        CostFits(i, r, n);
        SpendNext(i, r, n, i.frequency(r) - profit, 0);
      }
      forall k: nat | k < n
        ensures Planned(i, s, r, p, plan, k)
      {
        PlannedMore(i, s, r, p, before, plan, k);
      }
      PlannedNow(i, s, r, p, plan, n);
      IdleNext(i, s, r, p, n, before, plan);
    }
  }

  lemma NothingGiven(i: Input, s: State, r: nat, p: nat)
    requires i.Valid() && Sized(i, s) && r < i.Count()
    ensures NoneIdle(i, s, r, p, 0, []) && CostOf(i, []) == 0 && GapPoints(i, s, r, p, 0) == 0
  {
  }

  lemma GapPointsNext(i: Input, s: State, r: nat, p: nat, n: nat)
    requires i.Valid() && Sized(i, s) && i.HasRange(r, n) && i.ranges[r][n].finish < |s.used| == |s.busy|
    ensures var lr := i.ranges[r][n];
            GapPoints(i, s, r, p, n + 1) == GapPoints(i, s, r, p, n)
              + if !Available(p, lr, s.used) && Available(p, lr, s.busy) then lr.finish - lr.start + 1 else 0
  {
    hide Available;
  }

  lemma OwnClears(i: Input, s: State, r: nat, p: nat, n: nat)
    requires i.Valid() && Sized(i, s) && i.HasRange(r, n) && i.ranges[r][n].finish < |s.used| == |s.busy|
    requires !Available(p, i.ranges[r][n], s.used) && !Available(p, i.ranges[r][n], s.busy)
    ensures Clears(i, s, r, p, n, Gap(p, r, n))
  {
    hide Available;
  }

  lemma CanMove(i: Input, s: State, r: nat, p: nat, n: nat)
    requires i.Valid() && Sized(i, s) && i.HasRange(r, n)
    ensures i.ranges[r][n].finish < |s.used| == |s.busy|
    ensures MovableRange(i, s, r, p, n) <==>
            Available(p, i.ranges[r][n], s.used) || Available(p, i.ranges[r][n], s.busy) || i.ranges[r][n].blocks != []
  {
    RangeInPoints(i, r, n);
  }

  lemma PlannedNow(i: Input, s: State, r: nat, p: nat, plan: seq<Gap>, n: nat)
    requires i.Valid() && Sized(i, s) && i.HasRange(r, n)
    requires Available(p, i.ranges[r][n], s.used) || (i.advanced && Available(p, i.ranges[r][n], s.busy)
               && FoundBelow(i, s, p, i.ranges[r][n], plan, i.ranges[r][n].finish + 1))
             || (i.advanced && i.WholeBlock(r, n) && plan != [] && plan[|plan| - 1] == Gap(p, r, n))
    ensures Planned(i, s, r, p, plan, n)
  {
  }

  /** The best register for `r`, with the gaps it takes over; none, or an overflow of
      the cost arithmetic. */
  method Choose(i: Input, s: State, ghost owner: Owners, r: nat, conflicts: set<nat>)
      returns (ok: bool, best: Option<nat>, plan: seq<Gap>, ghost offers: map<nat, Offer>)
    requires Booked(i, s, owner) && i.Free(r)
    requires forall n: nat, point: nat :: i.Covers(r, n, point) ==> point <= i.points && s.used[point] <= conflicts
    requires forall p :: p in conflicts ==> Touched(i, r, s.used, p)
    ensures ok && best.Some? ==> Plan(i, s, r, best.value, plan)
    ensures forall p: nat :: FreeFor(i, s, r, p) ==> ok && best.Some? && BestFree(i, s, r, best.value) && plan == []
    ensures !i.advanced && (forall p: nat :: !FreeFor(i, s, r, p)) ==> ok && best.None?
    ensures ok && i.advanced && (forall p: nat :: !FreeFor(i, s, r, p)) ==>
              && (forall p: nat :: p in offers <==> Candidate(i, r, p))
              && (forall p: nat :: p in offers ==> Fair(i, s, r, p, offers[p]))
              && BestOffer(i, offers, best) && (best.Some? ==> plan == offers[best.value].plan)
    ensures !i.advanced || Affordable(i) ==> ok
  {
    hide BestOffer, Fair, Affordable, Owned, Marked, GapsOk, SpillsRecorded, Planned, Input.Valid, Holds;
    ok, best, plan, offers := true, None, [], map[];
    ConflictsTouch(i, s, r, conflicts);
    hide Touched;
    for p := 0 to i.physical
      invariant best.Some? ==> best.value < p && best.value !in i.reserved && Accepts(i, best.value, r) && best.value !in conflicts
      invariant forall q: nat :: q < p && FreeFor(i, s, r, q) ==> best.Some? && Preferred(i, best.value, q)
    {
      if p !in i.reserved && Accepts(i, p, r) && p !in conflicts {
        if best.None? || (best.value !in i.clobbered && p in i.clobbered) {
          best := Some(p);
        }
      }
    }
    if best.Some? {
      FreePlan(i, s, r, best.value, conflicts);
      assert BestFree(i, s, r, best.value);
    } else if i.advanced {
      ok, best, plan, offers := ChooseByProfit(i, s, owner, r);
    }
  }

  lemma ConflictsTouch(i: Input, s: State, r: nat, conflicts: set<nat>)
    requires Sized(i, s)
    requires forall n: nat, point: nat :: i.Covers(r, n, point) ==> point <= i.points && s.used[point] <= conflicts
    requires forall p :: p in conflicts ==> Touched(i, r, s.used, p)
    ensures forall p: nat :: p in conflicts <==> Touched(i, r, s.used, p)
  {
  }

  lemma FreePlan(i: Input, s: State, r: nat, p: nat, conflicts: set<nat>)
    requires i.Valid() && Sized(i, s) && i.Free(r) && p < i.physical && p !in i.reserved && Accepts(i, p, r)
    requires forall n: nat, point: nat :: i.Covers(r, n, point) ==> point <= i.points && s.used[point] <= conflicts
    requires p !in conflicts
    ensures Plan(i, s, r, p, [])
  {
    forall n: nat | n < |i.ranges[r]|
      ensures Planned(i, s, r, p, [], n)
    {
      RangeInPoints(i, r, n);
      forall k | i.ranges[r][n].start <= k <= i.ranges[r][n].finish
        ensures p !in s.used[k]
      {
        assert i.Covers(r, n, k);
      }
    }
  }

  /** Every candidate makes its offer, and the best worthwhile one is taken. */
  method ChooseByProfit(i: Input, s: State, ghost owner: Owners, r: nat)
      returns (ok: bool, best: Option<nat>, plan: seq<Gap>, ghost offers: map<nat, Offer>)
    requires Booked(i, s, owner) && i.Free(r) && i.advanced
    ensures ok && best.Some? ==> Plan(i, s, r, best.value, plan)
    ensures ok ==> forall p: nat :: p in offers <==> Candidate(i, r, p)
    ensures ok ==> i.Valid() && Sized(i, s) && forall p: nat :: p in offers ==> Fair(i, s, r, p, offers[p])
    ensures ok ==> BestOffer(i, offers, best) && (best.Some? ==> plan == offers[best.value].plan)
    ensures Affordable(i) ==> ok
  {
    hide Affordable, Booked, Plan, BestOffer, Fair;
    BookedGives(i, s, owner);
    ok, best, plan, offers := true, None, [], map[];
    assert BestOffer(i, offers, best) by { NoOffers(i); }
    var bestProfit, bestGap := 0, 0;
    var p := 0;
    while p < i.physical && ok
      invariant ok && best.Some? ==> BookedFacts(i, s) && Plan(i, s, r, best.value, plan)
      invariant ok ==> forall q: nat :: q in offers <==> Candidate(i, r, q) && q < p
      invariant ok ==> BookedFacts(i, s) && forall q: nat :: q in offers ==> Fair(i, s, r, q, offers[q])
      invariant ok ==> BestOffer(i, offers, best)
      invariant ok && best.Some? ==> best.value in offers && offers[best.value] == Offer(true, bestProfit, bestGap, plan)
      invariant Affordable(i) ==> ok
      decreases i.physical - p, ok
    {
      if p !in i.reserved && Accepts(i, p, r) {
        var fine, possible, profit, gapSize, candidate := Consider(i, s, owner, r, p);
        BookedGives(i, s, owner);
        ok := fine;
        if ok {
          BetterOffer(i, offers, best, p, Offer(possible, profit, gapSize, candidate));
          offers := offers[p := Offer(possible, profit, gapSize, candidate)];
        }
        if ok && possible && profit >= 0 {
          if best.None? || profit > bestProfit
             || (profit == bestProfit && best.value !in i.clobbered && p in i.clobbered)
             || (profit == bestProfit && (best.value in i.clobbered <==> p in i.clobbered) && gapSize > bestGap)
          {
            best, bestProfit, bestGap, plan := Some(p), profit, gapSize, candidate;
          }
        }
      }
      p := p + 1;
    }
  }

  lemma NoOffers(i: Input)
    ensures BestOffer(i, map[], None)
  {
  }

  ghost predicate BookedFacts(i: Input, s: State)
  {
    i.Valid() && Sized(i, s)
  }

  lemma BookedGives(i: Input, s: State, owner: Owners)
    requires Booked(i, s, owner)
    ensures BookedFacts(i, s)
  {
  }
}
