/** Finding the gaps that overlap a range. */
module GapSearch {
  import opened Optional
  import opened LiveRange
  import opened AllocationState
  import opened GapEviction
  import opened Reservation

  function RangeOf(i: Input, g: Gap): Range
    requires i.HasRange(g.reg, g.range)
  {
    i.ranges[g.reg][g.range]
  }

  ghost predicate HeldGap(i: Input, s: State, p: nat, g: Gap)
  {
    g.physical == p && Holds(i, s, g)
  }

  lemma GapHeld(i: Input, s: State, p: nat, start: nat)
    requires i.Valid() && Sized(i, s) && GapsOk(i, s) && (p, start) in s.gaps
    ensures HeldGap(i, s, p, s.gaps[(p, start)]) && RangeOf(i, s.gaps[(p, start)]).start == start
    ensures RangeOf(i, s.gaps[(p, start)]).start <= RangeOf(i, s.gaps[(p, start)]).finish
  {
  }

  /** Gaps of one physical register never overlap. */
  lemma GapsDisjoint(i: Input, s: State, owner: Owners, p: nat, g: Gap, h: Gap)
    requires Booked(i, s, owner) && HeldGap(i, s, p, g) && HeldGap(i, s, p, h)
    requires Meet(RangeOf(i, g), RangeOf(i, h))
    ensures g == h
  {
    hide Owned, Marked, GapsOk, SpillsRecorded, Input.Valid, Resident;
    var point := if RangeOf(i, g).start <= RangeOf(i, h).start then RangeOf(i, h).start else RangeOf(i, g).start;
    GapIsResident(i, s, g);
    GapIsResident(i, s, h);
    RangeInPoints(i, g.reg, g.range);
    RangeInPoints(i, h.reg, h.range);
    OwnerAt(i, s, owner, g.reg, g.range, p, point);
    OwnerAt(i, s, owner, h.reg, h.range, p, point);
  }

  lemma OwnerAt(i: Input, s: State, owner: Owners, r: nat, n: nat, p: nat, point: nat)
    requires Booked(i, s, owner) && Resident(i, s, r, n, p) && i.Covers(r, n, point)
    ensures point < |owner| && p in owner[point] && owner[point][p] == (r, n)
  {
    hide Resident, Marked, GapsOk, SpillsRecorded, Occupies;
  }

  /** Every gap of `p` that overlaps `lr` and starts before `next` is listed. */
  ghost predicate FoundBelow(i: Input, s: State, p: nat, lr: Range, found: seq<Gap>, next: nat)
  {
    forall g :: HeldGap(i, s, p, g) && RangeOf(i, g).start < next && Meet(RangeOf(i, g), lr) ==> g in found
  }

  ghost predicate ListsHeld(i: Input, s: State, p: nat, reg: nat, found: seq<Gap>)
  {
    forall k :: 0 <= k < |found| ==>
      && found[k].physical == p && i.WholeBlock(found[k].reg, found[k].range)
      && (found[k].reg == reg || HeldGap(i, s, p, found[k]))
  }

  // ----- what eviction can cost -----

  const INT_MAX: int := 0x7fff_ffff
  const INT_MIN: int := -0x8000_0000

  /** No spill costs more than `most`, and frequencies leave room for one at every point. */
  ghost predicate AffordableAt(i: Input, most: nat)
  {
    && (forall r: nat, n: nat :: i.HasRange(r, n) ==> i.cost(r, n) <= most)
    && Budget(i.points + 1, most) <= INT_MAX
    && (forall r: nat :: i.Free(r) ==> INT_MIN + Budget(i.points + 1, most) <= i.frequency(r) <= INT_MAX)
  }

  ghost predicate Affordable(i: Input)
  {
    exists most: nat :: AffordableAt(i, most)
  }

  ghost function Most(i: Input): (most: nat)
    ensures Affordable(i) ==> AffordableAt(i, most)
  {
    if Affordable(i) then
      var most: nat :| AffordableAt(i, most);
      most
    else 0
  }

  /** One cost for each of some points. */
  function Budget(points: nat, most: nat): nat
  {
    if points == 0 then 0 else Budget(points - 1, most) + most
  }

  lemma {:induction false} BudgetGrows(a: nat, b: nat, most: nat)
    ensures a < b ==> Budget(a, most) + most <= Budget(b, most)
    ensures a <= b ==> Budget(a, most) <= Budget(b, most)
    decreases b
  {
    if a < b {
      BudgetGrows(a, b - 1, most);
    }
  }

  lemma {:induction false} BudgetAdds(a: nat, b: nat, most: nat)
    ensures Budget(a + b, most) == Budget(a, most) + Budget(b, most)
    decreases b
  {
    if b > 0 {
      BudgetAdds(a, b - 1, most);
    }
  }

  /** What it costs to spill some gaps. */
  function CostOf(i: Input, gaps: seq<Gap>): nat
  {
    if gaps == [] then 0 else CostOf(i, gaps[..|gaps| - 1]) + i.cost(gaps[|gaps| - 1].reg, gaps[|gaps| - 1].range)
  }

  lemma {:induction false} CostAdds(i: Input, a: seq<Gap>, b: seq<Gap>)
    ensures CostOf(i, a + b) == CostOf(i, a) + CostOf(i, b)
    decreases |b|
  {
    if b == [] {
      assert a + b == a;
    } else {
      var rest, last := b[..|b| - 1], b[|b| - 1];
      CostAdds(i, a, rest);
      assert (a + b)[..|a + b| - 1] == a + rest;
    }
  }

  /** Costs are added up only as far as they can be used. */
  function Capped(n: nat): (r: nat)
    ensures r <= INT_MAX + 1
  {
    if n < INT_MAX + 1 then n else INT_MAX + 1
  }

  /** Gaps of `p` over `lr`, from left to right and apart, the last before `next`. */
  ghost predicate Overlapping(i: Input, s: State, p: nat, lr: Range, gaps: seq<Gap>, next: nat)
  {
    && (forall k :: 0 <= k < |gaps| ==> HeldGap(i, s, p, gaps[k]))
    && (forall k :: 0 <= k < |gaps| ==> Meet(RangeOf(i, gaps[k]), lr) && RangeOf(i, gaps[k]).finish < next)
    && (forall j, k :: 0 <= j < k < |gaps| ==> RangeOf(i, gaps[j]).finish < RangeOf(i, gaps[k]).start)
  }

  lemma OverlappingMore(i: Input, s: State, p: nat, lr: Range, gaps: seq<Gap>, next: nat, g: Gap, after: nat)
    requires Overlapping(i, s, p, lr, gaps, next) && HeldGap(i, s, p, g) && Meet(RangeOf(i, g), lr)
    requires RangeOf(i, g).finish < after && next <= after && (next <= RangeOf(i, g).start || gaps == [])
    ensures Overlapping(i, s, p, lr, gaps + [g], after) && Overlapping(i, s, p, lr, gaps, after)
  {
    hide HeldGap, Meet;
    assert forall h :: HeldGap(i, s, p, h) ==> i.HasRange(h.reg, h.range) by { HeldHasRange(i, s, p); }
  }

  lemma HeldHasRange(i: Input, s: State, p: nat)
    ensures forall h :: HeldGap(i, s, p, h) ==> i.HasRange(h.reg, h.range)
  {
  }

  lemma CostMore(i: Input, gaps: seq<Gap>, g: Gap)
    ensures CostOf(i, gaps + [g]) == CostOf(i, gaps) + i.cost(g.reg, g.range)
  {
    assert (gaps + [g])[..|gaps|] == gaps;
  }

  /** `found'` lists further gaps of `p` over `lr` after those of `found`, at this cost. */
  ghost predicate Lists(i: Input, s: State, p: nat, lr: Range, found: seq<Gap>, found': seq<Gap>, total: int, next: nat)
  {
    && found <= found' && total == Capped(CostOf(i, found'[|found|..]))
    && Overlapping(i, s, p, lr, found'[|found|..], next)
  }

  lemma ListsNone(i: Input, s: State, p: nat, lr: Range, found: seq<Gap>, next: nat)
    ensures Lists(i, s, p, lr, found, found, 0, next)
  {
  }

  lemma ListsMore(i: Input, s: State, p: nat, lr: Range, found: seq<Gap>, found': seq<Gap>, total: int, next: nat, g: Gap, after: nat)
    requires Lists(i, s, p, lr, found, found', total, next) && HeldGap(i, s, p, g)
    requires RangeOf(i, g).finish < after && next <= after && (next <= RangeOf(i, g).start || found' == found)
    requires var r := RangeOf(i, g); r.start <= r.finish && lr.start <= r.finish && r.start <= lr.finish
    ensures 0 <= total <= INT_MAX + 1
    ensures Lists(i, s, p, lr, found, found' + [g], Capped(total + i.cost(g.reg, g.range)), after)
    ensures Lists(i, s, p, lr, found, found', total, after)
  {
    var more := found'[|found|..];
    assert Meet(RangeOf(i, g), lr);
    hide Overlapping, CostOf, HeldGap;
    assert (found' + [g])[|found|..] == more + [g];
    CostMore(i, more, g);
    OverlappingMore(i, s, p, lr, more, next, g, after);
  }

  /** What appending `g` gives. */
  ghost predicate Appended(i: Input, found: seq<Gap>, total: int, last: Option<Gap>, g: Gap, found': seq<Gap>, total': int)
  {
    && found' == (if last == Some(g) then found else found + [g])
    && (0 <= total <= INT_MAX + 1 ==> total' == if last == Some(g) then total else Capped(total + i.cost(g.reg, g.range)))
    && (0 <= total ==> 0 <= total' && (Affordable(i) ==> total' <= total + Most(i)))
    && last == LastOf(found)
  }

  function LastOf(found: seq<Gap>): Option<Gap>
  {
    if found == [] then None else Some(found[|found| - 1])
  }

  method AppendGap(i: Input, found: seq<Gap>, total: int, last: Option<Gap>, g: Gap)
      returns (found': seq<Gap>, total': int)
    requires i.HasRange(g.reg, g.range)
    requires last == LastOf(found)
    ensures Appended(i, found, total, last, g, found', total')
  {
    found', total' := found, total;
    if last != Some(g) {
      found' := found + [g];
      var sum := total + i.cost(g.reg, g.range);
      total' := if sum < INT_MAX + 1 then sum else INT_MAX + 1;
    }
  }

  lemma NextGap(i: Input, s: State, owner: Owners, p: nat, lr: Range, found: seq<Gap>, next: nat, g: Gap, found': seq<Gap>)
    requires Booked(i, s, owner) && HeldGap(i, s, p, g)
    requires FoundBelow(i, s, p, lr, found, next) && next <= RangeOf(i, g).start
    requires forall st: nat :: (p, st) in s.gaps && next <= st ==> RangeOf(i, g).start <= st
    requires (forall h :: h in found ==> h in found') && g in found'
    ensures FoundBelow(i, s, p, lr, found', RangeOf(i, g).finish + 1)
  {
    hide Booked;
    forall h | HeldGap(i, s, p, h) && RangeOf(i, h).start < RangeOf(i, g).finish + 1 && Meet(RangeOf(i, h), lr)
      ensures h in found'
    {
      if next <= RangeOf(i, h).start {
        HeldRange(i, s, owner, p, h);
        GapsDisjoint(i, s, owner, p, g, h);
      }
    }
  }

  lemma HeldRange(i: Input, s: State, owner: Owners, p: nat, g: Gap)
    requires Booked(i, s, owner) && HeldGap(i, s, p, g)
    ensures RangeOf(i, g).start <= RangeOf(i, g).finish <= i.points
    ensures (p, RangeOf(i, g).start) in s.gaps && i.WholeBlock(g.reg, g.range)
  {
    hide Owned, Marked, SpillsRecorded;
  }

  lemma PreviousGap(i: Input, s: State, owner: Owners, p: nat, lr: Range, g: Gap, found: seq<Gap>)
    requires Booked(i, s, owner) && HeldGap(i, s, p, g) && RangeOf(i, g).start <= lr.start
    requires forall st: nat :: (p, st) in s.gaps && st <= lr.start ==> st <= RangeOf(i, g).start
    ensures RangeOf(i, g).finish < lr.start ==> FoundBelow(i, s, p, lr, found, lr.start + 1)
    ensures RangeOf(i, g).finish >= lr.start && g in found ==> FoundBelow(i, s, p, lr, found, RangeOf(i, g).finish + 1)
  {
    hide Booked;
    forall h | HeldGap(i, s, p, h) && Meet(RangeOf(i, h), lr)
      ensures RangeOf(i, h).start <= lr.start ==> RangeOf(i, g).finish >= lr.start && h == g
      ensures RangeOf(i, g).finish >= lr.start && RangeOf(i, h).start <= RangeOf(i, g).finish ==> h == g
    {
      HeldRange(i, s, owner, p, h);
      HeldRange(i, s, owner, p, g);
      if RangeOf(i, h).start <= lr.start || RangeOf(i, h).start <= RangeOf(i, g).finish {
        if Meet(RangeOf(i, h), RangeOf(i, g)) {
          GapsDisjoint(i, s, owner, p, h, g);
        }
      }
    }
  }

  /** Every gap of `p` over `lr` that begins before `next` is among the further ones, but for
      a leftmost one that `found` ends with. */
  ghost predicate Complete(i: Input, s: State, p: nat, lr: Range, found: seq<Gap>, found': seq<Gap>, next: nat)
  {
    && found <= found'
    && (|found| < |found'| && found != [] ==> found'[|found|] != found[|found| - 1])
    && forall g :: HeldGap(i, s, p, g) && RangeOf(i, g).start < next && Meet(RangeOf(i, g), lr) ==>
         g in found'[|found|..] || (found != [] && g == found[|found| - 1] && LeftOf(i, g, found'[|found|..]))
  }

  ghost predicate LeftOf(i: Input, g: Gap, gaps: seq<Gap>)
    requires i.HasRange(g.reg, g.range)
  {
    forall k :: 0 <= k < |gaps| ==> i.HasRange(gaps[k].reg, gaps[k].range) && RangeOf(i, g).finish < RangeOf(i, gaps[k]).start
  }

  /** Nothing over `lr` begins before `next`. */
  lemma CompleteNone(i: Input, s: State, p: nat, lr: Range, found: seq<Gap>, next: nat)
    requires forall g :: HeldGap(i, s, p, g) && Meet(RangeOf(i, g), lr) ==> RangeOf(i, g).start >= next
    ensures Complete(i, s, p, lr, found, found, next)
  {
  }

  /** The next gap is appended, unless `found` ends with it. */
  lemma CompleteMore(i: Input, s: State, owner: Owners, p: nat, lr: Range, found: seq<Gap>, before: seq<Gap>, next: nat, total: int,
                     g: Gap, found': seq<Gap>, after: nat)
    requires Booked(i, s, owner) && HeldGap(i, s, p, g) && after <= RangeOf(i, g).finish + 1
    requires Complete(i, s, p, lr, found, before, next) && Lists(i, s, p, lr, found, before, total, next)
    requires next <= RangeOf(i, g).start || before == found
    requires found' == if before != [] && before[|before| - 1] == g then before else before + [g]
    requires forall h :: HeldGap(i, s, p, h) && Meet(RangeOf(i, h), lr) && RangeOf(i, h).start < after ==>
               h == g || RangeOf(i, h).start < next
    requires next <= RangeOf(i, g).start || forall h :: HeldGap(i, s, p, h) && Meet(RangeOf(i, h), lr) && RangeOf(i, h).start < after ==> h == g
    ensures Complete(i, s, p, lr, found, found', after)
  {
    hide Booked, Meet, CostOf, Capped, HeldGap;
    HeldHasRange(i, s, p);
    var old_, new_ := before[|found|..], found'[|found|..];
    assert new_ == old_ || new_ == old_ + [g];
    if before != found {
      LastEndsBelow(i, s, owner, p, lr, found, before, total, next);
    }
    hide Lists, Overlapping;
    forall h | HeldGap(i, s, p, h) && RangeOf(i, h).start < after && Meet(RangeOf(i, h), lr)
      ensures h in new_ || (found != [] && h == found[|found| - 1] && LeftOf(i, h, new_))
    {
      if h != g && h !in old_ {
        OrderedGaps(i, s, owner, p, h, g);
      }
    }
  }

  lemma LastEndsBelow(i: Input, s: State, owner: Owners, p: nat, lr: Range, found: seq<Gap>, before: seq<Gap>, total: int, next: nat)
    requires Booked(i, s, owner) && Lists(i, s, p, lr, found, before, total, next) && before != found
    ensures before != [] && HeldGap(i, s, p, before[|before| - 1])
    ensures RangeOf(i, before[|before| - 1]).start <= RangeOf(i, before[|before| - 1]).finish < next
  {
    hide Booked, Meet, CostOf, Capped, HeldGap;
    var tail := before[|found|..];
    assert tail[|tail| - 1] == before[|before| - 1];
    HeldHasRange(i, s, p);
    HeldRange(i, s, owner, p, before[|before| - 1]);
  }

  lemma OrderedGaps(i: Input, s: State, owner: Owners, p: nat, g: Gap, h: Gap)
    requires Booked(i, s, owner) && HeldGap(i, s, p, g) && HeldGap(i, s, p, h) && g != h
    ensures RangeOf(i, g).start <= RangeOf(i, h).start ==> RangeOf(i, g).finish < RangeOf(i, h).start
  {
    hide Booked;
    HeldRange(i, s, owner, p, g);
    HeldRange(i, s, owner, p, h);
    if Meet(RangeOf(i, g), RangeOf(i, h)) {
      GapsDisjoint(i, s, owner, p, g, h);
    }
  }

  /** Everything about the gaps of `p` that begin before `next`: those over `lr` are listed,
      from left to right, and paid for. */
  ghost predicate Searched(i: Input, s: State, p: nat, reg: nat, lr: Range, found: seq<Gap>, found': seq<Gap>, total: int, next: nat)
  {
    && ListsHeld(i, s, p, reg, found') && FoundBelow(i, s, p, lr, found', next)
    && Lists(i, s, p, lr, found, found', total, next) && Paid(i, lr, next, total)
    && Complete(i, s, p, lr, found, found', next)
  }

  /** The gap that covers the beginning of `lr` is the only one that begins by its end. */
  lemma FirstIsComplete(i: Input, s: State, owner: Owners, p: nat, lr: Range, found: seq<Gap>, g: Gap, found': seq<Gap>)
    requires Booked(i, s, owner) && HeldGap(i, s, p, g) && RangeOf(i, g).start <= lr.start <= RangeOf(i, g).finish && lr.start <= lr.finish
    requires forall st: nat :: (p, st) in s.gaps && st <= lr.start ==> st <= RangeOf(i, g).start
    requires found' == if LastOf(found) == Some(g) then found else found + [g]
    ensures Complete(i, s, p, lr, found, found', RangeOf(i, g).finish + 1)
  {
    ListsNone(i, s, p, lr, found, lr.start + 1);
    hide Booked, Lists, HeldGap;
    HeldHasRange(i, s, p);
    PreviousGap(i, s, owner, p, lr, g, [g]);
    assert found'[|found|..] == [] || found'[|found|..] == [g];
  }

  lemma NextIsComplete(i: Input, s: State, owner: Owners, p: nat, lr: Range, found: seq<Gap>, before: seq<Gap>, total: int, next: nat,
                       g: Gap, found': seq<Gap>)
    requires Booked(i, s, owner) && HeldGap(i, s, p, g) && next <= RangeOf(i, g).start
    requires Complete(i, s, p, lr, found, before, next) && Lists(i, s, p, lr, found, before, total, next)
    requires forall st: nat :: (p, st) in s.gaps && next <= st ==> RangeOf(i, g).start <= st
    requires found' == if LastOf(before) == Some(g) then before else before + [g]
    ensures Complete(i, s, p, lr, found, found', RangeOf(i, g).finish + 1)
  {
    hide Booked, Lists, Complete, HeldGap;
    HeldHasRange(i, s, p);
    forall h | HeldGap(i, s, p, h) && Meet(RangeOf(i, h), lr) && RangeOf(i, h).start < RangeOf(i, g).finish + 1
      ensures h == g || RangeOf(i, h).start < next
    {
      HeldRange(i, s, owner, p, h);
      if next <= RangeOf(i, h).start && h != g {
        OrderedGaps(i, s, owner, p, g, h);
      }
    }
    CompleteMore(i, s, owner, p, lr, found, before, next, total, g, found', RangeOf(i, g).finish + 1);
  }

  lemma ListsHeldMore(i: Input, s: State, owner: Owners, p: nat, reg: nat, found: seq<Gap>, g: Gap)
    requires Booked(i, s, owner) && ListsHeld(i, s, p, reg, found) && HeldGap(i, s, p, g)
    ensures ListsHeld(i, s, p, reg, found + [g])
  {
    HeldRange(i, s, owner, p, g);
    hide HeldGap, Booked;
  }

  lemma SearchedFirst(i: Input, s: State, owner: Owners, p: nat, reg: nat, lr: Range, found: seq<Gap>, last: Option<Gap>, g: Gap,
                      found': seq<Gap>, total: int)
    requires Booked(i, s, owner) && ListsHeld(i, s, p, reg, found) && lr.start <= lr.finish
    requires HeldGap(i, s, p, g) && RangeOf(i, g).start <= lr.start <= RangeOf(i, g).finish
    requires forall st: nat :: (p, st) in s.gaps && st <= lr.start ==> st <= RangeOf(i, g).start
    requires Appended(i, found, 0, last, g, found', total)
    ensures Searched(i, s, p, reg, lr, found, found', total, RangeOf(i, g).finish + 1)
  {
    hide Booked, FoundBelow, ListsHeld, Lists, Paid, Capped, Affordable, Budget, Complete;
    HeldRange(i, s, owner, p, g);
    ListsHeldMore(i, s, owner, p, reg, found, g);
    FirstIsComplete(i, s, owner, p, lr, found, g, found');
    PayNothing(i, lr);
    ListsNone(i, s, p, lr, found, lr.start + 1);
    PayGap(i, lr, lr.start, lr.start, RangeOf(i, g).finish + 1, 0);
    ListsMore(i, s, p, lr, found, found, 0, lr.start + 1, g, RangeOf(i, g).finish + 1);
    PreviousGap(i, s, owner, p, lr, g, found');
  }

  lemma SearchedNone(i: Input, s: State, p: nat, reg: nat, lr: Range, found: seq<Gap>)
    requires ListsHeld(i, s, p, reg, found) && FoundBelow(i, s, p, lr, [], lr.start + 1)
    ensures Searched(i, s, p, reg, lr, found, found, 0, lr.start + 1)
  {
    hide Lists, Paid;
    CompleteNone(i, s, p, lr, found, lr.start + 1);
    PayNothing(i, lr);
    ListsNone(i, s, p, lr, found, lr.start + 1);
  }

  lemma SearchedNext(i: Input, s: State, owner: Owners, p: nat, reg: nat, lr: Range, found: seq<Gap>, before: seq<Gap>, total: int,
                     next: nat, last: Option<Gap>, g: Gap, found': seq<Gap>, total': int)
    requires Booked(i, s, owner) && Searched(i, s, p, reg, lr, found, before, total, next) && lr.start <= next
    requires HeldGap(i, s, p, g) && next <= RangeOf(i, g).start <= lr.finish
    requires forall st: nat :: (p, st) in s.gaps && next <= st ==> RangeOf(i, g).start <= st
    requires Appended(i, before, total, last, g, found', total')
    ensures Searched(i, s, p, reg, lr, found, found', total', RangeOf(i, g).finish + 1)
  {
    hide Booked, FoundBelow, ListsHeld, Lists, Paid, Capped, Affordable, Budget, Complete;
    HeldRange(i, s, owner, p, g);
    ListsHeldMore(i, s, owner, p, reg, before, g);
    NextIsComplete(i, s, owner, p, lr, found, before, total, next, g, found');
    assert 0 <= total by { ListsMore(i, s, p, lr, found, before, total, next, g, RangeOf(i, g).finish + 1); }
    PayGap(i, lr, next, RangeOf(i, g).start, RangeOf(i, g).finish + 1, total);
    ListsMore(i, s, p, lr, found, before, total, next, g, RangeOf(i, g).finish + 1);
    NextGap(i, s, owner, p, lr, before, next, g, found');
  }

  lemma SearchedAll(i: Input, s: State, owner: Owners, p: nat, reg: nat, lr: Range, found: seq<Gap>, found': seq<Gap>, total: int,
                    next: nat, some: bool, start: nat)
    requires Booked(i, s, owner) && Searched(i, s, p, reg, lr, found, found', total, next) && lr.start <= next && lr.start <= lr.finish
    requires forall st: nat :: (p, st) in s.gaps && next <= st ==> some && start <= st
    requires !some || start > lr.finish
    ensures ListsHeld(i, s, p, reg, found') && found <= found'
    ensures FoundBelow(i, s, p, lr, found', lr.finish + 1)
    ensures Lists(i, s, p, lr, found, found', total, next)
    ensures Complete(i, s, p, lr, found, found', lr.finish + 1)
    ensures 0 <= total && (Affordable(i) ==> total <= Budget(lr.finish - lr.start + 1, Most(i)))
  {
    hide Booked, FoundBelow, Paid, Affordable, Budget;
    RestIsComplete(i, s, owner, p, lr, found, found', next, some, start);
    RestIsAbove(i, s, owner, p, lr, found', next, some, start);
    PaidInFull(i, lr, next, total);
  }

  /** List the gaps of `p` that overlap `lr`, and no others, after those already found. */
  method FindGaps(i: Input, s: State, ghost owner: Owners, p: nat, reg: nat, lr: Range, found: seq<Gap>)
      returns (found': seq<Gap>, total: int)
    requires Booked(i, s, owner) && ListsHeld(i, s, p, reg, found) && lr.start <= lr.finish
    ensures ListsHeld(i, s, p, reg, found') && found <= found'
    ensures FoundBelow(i, s, p, lr, found', lr.finish + 1)
    ensures exists next: nat :: Lists(i, s, p, lr, found, found', total, next)
    ensures Complete(i, s, p, lr, found, found', lr.finish + 1)
    ensures 0 <= total && (Affordable(i) ==> total <= Budget(lr.finish - lr.start + 1, Most(i)))
  {
    hide Searched, Lists, Complete, ListsHeld, CostOf, Capped, Owned, Marked, SpillsRecorded, FoundBelow, GapsOk, Input.Valid, Input.WholeBlock, Budget,
         Affordable, Paid, Meet;
    found', total := found, 0;
    var last := if found == [] then None else Some(found[|found| - 1]);
    assert last == LastOf(found);
    var next: nat := lr.start + 1;
    var some;
    var start: nat;
    some, start := LastGap(s.gaps, p, lr.start);
    if some {
      var g := s.gaps[(p, start)];
      GapHeld(i, s, p, start);
      if RangeOf(i, g).finish >= lr.start {
        next := RangeOf(i, g).finish + 1;
        found', total := AppendGap(i, found', total, last, g);
        SearchedFirst(i, s, owner, p, reg, lr, found, last, g, found', total);
        last := Some(g);
      } else {
        PreviousGap(i, s, owner, p, lr, g, []);
        SearchedNone(i, s, p, reg, lr, found);
      }
    } else {
      NoneBefore(i, s, owner, p, lr, []);
      SearchedNone(i, s, p, reg, lr, found);
    }
    some, start := FirstGap(s.gaps, p, next);
    while some && start <= lr.finish
      invariant next > lr.start && Searched(i, s, p, reg, lr, found, found', total, next)
      invariant last == LastOf(found')
      invariant some ==> (p, start) in s.gaps && next <= start
      invariant forall st: nat :: (p, st) in s.gaps && next <= st ==> some && start <= st
      decreases i.points + 1 - next, some
    {
      var g := s.gaps[(p, start)];
      GapHeld(i, s, p, start);
      HeldRange(i, s, owner, p, g);
      ghost var before, paid := found', total;
      found', total := AppendGap(i, found', total, last, g);
      SearchedNext(i, s, owner, p, reg, lr, found, before, paid, next, last, g, found', total);
      last := Some(g);
      next := RangeOf(i, g).finish + 1;
      some, start := FirstGap(s.gaps, p, next);
    }
    SearchedAll(i, s, owner, p, reg, lr, found, found', total, next, some, start);
  }

  /** What was spent on gaps before `next`: at most one cost a point. */
  ghost predicate Paid(i: Input, lr: Range, next: nat, total: int)
  {
    0 <= total && (Affordable(i) && lr.start <= next && lr.start <= lr.finish ==>
      total <= Budget(next - lr.start, Most(i)) && total <= Budget(lr.finish - lr.start + 1, Most(i)))
  }

  lemma PayNothing(i: Input, lr: Range)
    ensures Paid(i, lr, lr.start, 0) && Paid(i, lr, lr.start + 1, 0)
  {
  }

  /** A gap found from `next` on, at `start`, ends before `after`. */
  lemma PayGap(i: Input, lr: Range, next: nat, start: nat, after: nat, total: int)
    requires Paid(i, lr, next, total) && lr.start <= next <= start <= lr.finish && start < after
    ensures forall more: int :: 0 <= more && (Affordable(i) ==> more <= total + Most(i)) ==> Paid(i, lr, after, more)
  {
    hide Budget;
    BudgetGrows(next - lr.start, start - lr.start, Most(i));
    BudgetGrows(start - lr.start, lr.finish - lr.start + 1, Most(i));
    BudgetGrows(start - lr.start, after - lr.start, Most(i));
  }

  lemma PaidInFull(i: Input, lr: Range, next: nat, total: int)
    requires Paid(i, lr, next, total) && lr.start <= next && lr.start <= lr.finish
    ensures 0 <= total && (Affordable(i) ==> total <= Budget(lr.finish - lr.start + 1, Most(i)))
  {
  }

  lemma NoneBefore(i: Input, s: State, owner: Owners, p: nat, lr: Range, found: seq<Gap>)
    requires Booked(i, s, owner) && forall st: nat :: (p, st) in s.gaps ==> st > lr.start
    ensures FoundBelow(i, s, p, lr, found, lr.start + 1)
  {
    hide Owned, Marked, SpillsRecorded, GapsOk;
  }

  lemma RestIsComplete(i: Input, s: State, owner: Owners, p: nat, lr: Range, found: seq<Gap>, found': seq<Gap>, next: nat, some: bool, start: nat)
    requires Booked(i, s, owner) && Complete(i, s, p, lr, found, found', next)
    requires forall st: nat :: (p, st) in s.gaps && next <= st ==> some && start <= st
    requires !some || start > lr.finish
    ensures Complete(i, s, p, lr, found, found', lr.finish + 1)
  {
    hide Booked, LeftOf;
    forall g | HeldGap(i, s, p, g) && RangeOf(i, g).start < lr.finish + 1
      ensures RangeOf(i, g).start < next
    {
      HeldRange(i, s, owner, p, g);
    }
  }

  lemma RestIsAbove(i: Input, s: State, owner: Owners, p: nat, lr: Range, found: seq<Gap>, next: nat, some: bool, start: nat)
    requires Booked(i, s, owner) && FoundBelow(i, s, p, lr, found, next)
    requires forall st: nat :: (p, st) in s.gaps && next <= st ==> some && start <= st
    requires !some || start > lr.finish
    ensures FoundBelow(i, s, p, lr, found, lr.finish + 1)
  {
    hide Owned, Marked, SpillsRecorded, GapsOk;
  }
}
