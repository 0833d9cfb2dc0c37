/** Stack slots: aligned, reused when the owners never meet, never shared otherwise. */
module StackSlots {
  import opened LiveRange
  import opened AllocationState
  import opened GapEviction
  import opened Reservation
  import opened GapSearch
  import opened RegisterChoice
  import opened EvictionPlan

  predicate Units(offset: nat, size: nat, unit: nat)
  {
    offset / 8 <= unit < (offset + size) / 8
  }

  ghost predicate SharePoint(i: Input, a: nat, b: nat)
  {
    exists point: nat, n: nat, k: nat :: i.Covers(a, n, point) && i.Covers(b, k, point)
  }

  ghost predicate Apart(a: Location, b: Location)
  {
    a.OnStack? && b.OnStack? ==> a.offset + a.size <= b.offset || b.offset + b.size <= a.offset
  }

  /** Every slot is aligned to its size and below the high-water mark. */
  ghost predicate Aligned(i: Input, s: State, r: nat)
    requires Sized(i, s) && r < i.Count()
  {
    s.location[r].OnStack? ==>
      && s.location[r].size == i.Size(r) && s.location[r].offset % s.location[r].size == 0
      && s.location[r].offset + s.location[r].size <= s.stackBytes
      && (if r in i.addressable then s.location[r].offset + s.location[r].size <= s.reusable else s.reusable <= s.location[r].offset)
  }

  ghost predicate UnitsMarked(i: Input, s: State, r: nat)
    requires Sized(i, s) && r < i.Count()
  {
    s.location[r].OnStack? && r !in i.addressable ==>
      forall n: nat, point: nat, unit: nat ::
        i.Covers(r, n, point) && point <= i.points && Units(s.location[r].offset, s.location[r].size, unit) ==> unit in s.stack[point]
  }

  ghost predicate MayClash(i: Input, a: nat, b: nat)
  {
    a in i.addressable || b in i.addressable || SharePoint(i, a, b)
  }

  /** Slots of values that are live together, and of values whose address is taken,
      are disjoint. */
  ghost predicate SlotsOk(i: Input, s: State)
    requires i.Valid() && Sized(i, s)
  {
    && s.reusable <= s.stackBytes
    && (forall r: nat :: r < i.Count() ==> Aligned(i, s, r) && UnitsMarked(i, s, r))
    && (forall a: nat, b: nat :: a < i.Count() && b < i.Count() && a != b && MayClash(i, a, b) ==>
          Apart(s.location[a], s.location[b]))
  }

  /** The next slot above everything allotted so far, rounded up to its alignment. */
  function RoundUp(bytes: nat, size: nat): nat
    requires size > 0
  {
    (bytes + size - 1) / size * size
  }

  lemma RoundUpFacts(bytes: nat, size: nat)
    requires size == 8 || size == 16
    ensures bytes <= RoundUp(bytes, size) && RoundUp(bytes, size) % size == 0
  {
    if size == 8 {
      assert RoundUp(bytes, size) == (bytes + 7) / 8 * 8;
    } else {
      assert RoundUp(bytes, size) == (bytes + 15) / 16 * 16;
    }
  }

  /** A location outside the physical registers changes nothing about them. */
  lemma StackKeepsBooked(i: Input, s: State, owner: Owners, r: nat, s': State)
    requires Booked(i, s, owner) && i.Virtual(r) && s.location[r] == Unassigned && Sized(i, s')
    requires s' == s.(location := s'.location, stack := s'.stack, stackBytes := s'.stackBytes, reusable := s'.reusable)
    requires s'.location == s.location[r := s'.location[r]] && !s'.location[r].InRegister?
    ensures Booked(i, s', owner)
  {
    forall c: nat, n: nat, p: nat
      ensures Resident(i, s', c, n, p) <==> Resident(i, s, c, n, p)
    {
      hide Owned, Marked, GapsOk, SpillsRecorded;
    }
    StackKeepsGaps(i, s, r, s');
    hide Resident, Input.Valid, Input.Free, GapsOk;
    SpillMoreOwned(i, s, owner, s');
  }

  lemma StackKeepsGaps(i: Input, s: State, r: nat, s': State)
    requires i.Valid() && Sized(i, s) && Sized(i, s') && GapsOk(i, s) && i.Virtual(r) && s.location[r] == Unassigned
    requires s'.gaps == s.gaps && s'.location == s.location[r := s'.location[r]]
    ensures GapsOk(i, s')
  {
  }

  ghost predicate GivesSlot(i: Input, s: State, r: nat, offset: nat, s': State)
    requires Sized(i, s) && r < i.Count()
  {
    && Sized(i, s') && s'.location == s.location[r := OnStack(offset, i.Size(r))]
    && offset % i.Size(r) == 0
    && (forall point: nat :: point <= i.points ==> s.stack[point] <= s'.stack[point])
  }

  lemma GiveNewSlot(i: Input, s: State, r: nat, s': State)
    requires i.Valid() && Sized(i, s) && SlotsOk(i, s) && i.Virtual(r) && s.location[r] == Unassigned
    requires GivesSlot(i, s, r, RoundUp(s.stackBytes, i.Size(r)), s') && UnitsMarked(i, s', r)
    requires s'.stackBytes == RoundUp(s.stackBytes, i.Size(r)) + i.Size(r)
    requires if r in i.addressable then s'.reusable == s'.stackBytes && forall c: nat :: c < i.Count() && c !in i.addressable ==> !s.location[c].OnStack?
             else s'.reusable == s.reusable
    ensures SlotsOk(i, s')
  {
    hide Input.Valid, RoundUp, SharePoint;
    RoundUpFacts(s.stackBytes, i.Size(r));
    forall c: nat | c < i.Count()
      ensures Aligned(i, s', c) && UnitsMarked(i, s', c)
    {
      assert Aligned(i, s, c) && UnitsMarked(i, s, c);
    }
    forall a: nat, b: nat | a < i.Count() && b < i.Count() && a != b && MayClash(i, a, b)
      ensures Apart(s'.location[a], s'.location[b])
    {
      assert Aligned(i, s, a) && Aligned(i, s, b);
      assert Apart(s.location[a], s.location[b]);
    }
  }

  lemma GiveReusedSlot(i: Input, s: State, r: nat, offset: nat, conflicts: set<nat>, s': State)
    requires i.Valid() && Sized(i, s) && SlotsOk(i, s) && i.Virtual(r) && s.location[r] == Unassigned && r !in i.addressable
    requires GivesSlot(i, s, r, offset, s') && UnitsMarked(i, s', r)
    requires s'.stackBytes == s.stackBytes && s'.reusable == s.reusable && s.reusable <= offset && offset + i.Size(r) <= s.stackBytes
    requires forall n: nat, point: nat :: i.Covers(r, n, point) ==> point <= i.points && s.stack[point] <= conflicts
    requires forall unit: nat :: Units(offset, i.Size(r), unit) ==> unit !in conflicts
    ensures SlotsOk(i, s')
  {
    hide Input.Valid, SharePoint;
    forall c: nat | c < i.Count()
      ensures Aligned(i, s', c) && UnitsMarked(i, s', c)
    {
      assert Aligned(i, s, c) && UnitsMarked(i, s, c);
    }
    forall a: nat, b: nat | a < i.Count() && b < i.Count() && a != b && MayClash(i, a, b)
      ensures Apart(s'.location[a], s'.location[b])
    {
      assert Apart(s.location[a], s.location[b]);
      if a == r && b != r {
        ReusedIsApart(i, s, r, offset, conflicts, b);
      } else if b == r {
        ClashSymmetric(i, a, b);
        ReusedIsApart(i, s, r, offset, conflicts, a);
      }
    }
  }

  lemma ClashSymmetric(i: Input, a: nat, b: nat)
    requires MayClash(i, a, b)
    ensures MayClash(i, b, a)
  {
  }

  lemma ReusedIsApart(i: Input, s: State, r: nat, offset: nat, conflicts: set<nat>, b: nat)
    requires i.Valid() && Sized(i, s) && r < i.Count() && b < i.Count() && b != r && r !in i.addressable && MayClash(i, r, b)
    requires Aligned(i, s, b) && UnitsMarked(i, s, b) && s.reusable <= offset && offset % i.Size(r) == 0
    requires forall n: nat, point: nat :: i.Covers(r, n, point) ==> point <= i.points && s.stack[point] <= conflicts
    requires forall unit: nat :: Units(offset, i.Size(r), unit) ==> unit !in conflicts
    ensures Apart(OnStack(offset, i.Size(r)), s.location[b])
  {
    hide Input.Valid;
    if s.location[b].OnStack? && b !in i.addressable {
      var point: nat, n: nat, k: nat :| i.Covers(r, n, point) && i.Covers(b, k, point);
      var o, z := s.location[b].offset, s.location[b].size;
      if offset < o + z && o < offset + i.Size(r) {
        OverlapSharesUnit(offset, i.Size(r), o, z);
      }
    }
  }

  lemma OverlapSharesUnit(a: nat, size: nat, b: nat, other: nat)
    requires a % 8 == 0 && b % 8 == 0 && size % 8 == 0 && other % 8 == 0 && 0 < size && 0 < other
    requires a < b + other && b < a + size
    ensures var unit := if b <= a then a / 8 else b / 8; Units(a, size, unit) && Units(b, other, unit)
  {
  }

  method MarkUnits(i: Input, stack: seq<set<nat>>, r: nat, offset: nat, size: nat) returns (marked: seq<set<nat>>)
    requires i.Valid() && |stack| == i.points + 1 && r < i.Count()
    ensures |marked| == |stack|
    ensures forall point: nat :: point <= i.points ==> stack[point] <= marked[point]
    ensures forall n: nat, point: nat, unit: nat :: i.Covers(r, n, point) && point <= i.points && Units(offset, size, unit) ==>
              unit in marked[point]
  {
    hide Input.Valid, Units;
    marked := stack;
    var units := set unit: nat | unit < (offset + size) / 8 + 1 && Units(offset, size, unit);
    assert forall unit: nat :: Units(offset, size, unit) ==> unit in units by { UnitsBelow(offset, size); }
    for n := 0 to |i.ranges[r]|
      invariant |marked| == |stack|
      invariant forall point: nat :: point <= i.points ==> stack[point] <= marked[point]
      invariant forall k: nat, point: nat :: k < n && i.Covers(r, k, point) && point <= i.points ==> units <= marked[point]
    {
      RangeInPoints(i, r, n);
      ghost var before := marked;
      marked := Reserve(marked, units, i.ranges[r][n].start, i.ranges[r][n].finish, true);
      forall k: nat, point: nat | k <= n && i.Covers(r, k, point) && point <= i.points
        ensures units <= marked[point]
      {
        assert k < n ==> units <= before[point];
      }
    }
  }

  lemma UnitsBelow(offset: nat, size: nat)
    ensures forall unit: nat :: Units(offset, size, unit) ==> unit < (offset + size) / 8 + 1
  {
  }

  /** Exactly what touches a point of `r`. */
  method Conflicts(i: Input, s: State, r: nat) returns (registers: set<nat>, units: set<nat>)
    requires i.Valid() && Sized(i, s) && r < i.Count()
    ensures forall n: nat, point: nat :: i.Covers(r, n, point) ==>
              point <= i.points && s.used[point] <= registers && s.stack[point] <= units
    ensures forall p :: p in registers ==> Touched(i, r, s.used, p)
    ensures forall u :: u in units ==> Touched(i, r, s.stack, u)
  {
    hide Input.Valid;
    registers, units := {}, {};
    for n := 0 to |i.ranges[r]|
      invariant forall k: nat, point: nat :: k < n && i.Covers(r, k, point) ==>
                  point <= i.points && s.used[point] <= registers && s.stack[point] <= units
      invariant forall p :: p in registers ==> Touched(i, r, s.used, p)
      invariant forall u :: u in units ==> Touched(i, r, s.stack, u)
    {
      RangeInPoints(i, r, n);
      var lr := i.ranges[r][n];
      for point := lr.start to lr.finish + 1
        invariant forall k: nat, at: nat :: k < n && i.Covers(r, k, at) ==>
                    at <= i.points && s.used[at] <= registers && s.stack[at] <= units
        invariant forall at :: lr.start <= at < point ==> s.used[at] <= registers && s.stack[at] <= units
        invariant forall p :: p in registers ==> Touched(i, r, s.used, p)
        invariant forall u :: u in units ==> Touched(i, r, s.stack, u)
      {
        assert i.Covers(r, n, point);
        registers := registers + s.used[point];
        units := units + s.stack[point];
      }
    }
  }

  /** An aligned slot in the reusable area with no unit in `units`. */
  ghost predicate SlotFree(s: State, size: nat, units: set<nat>, offset: nat)
    requires size == 8 || size == 16
  {
    && s.reusable <= offset && offset + size <= s.stackBytes && offset % size == 0 && (offset - s.reusable) % 8 == 0
    && forall unit: nat :: Units(offset, size, unit) ==> unit !in units
  }

  /** First reusable slot with no unit in `units`, if any. */
  method FindReusable(s: State, size: nat, units: set<nat>) returns (found: bool, offset: nat)
    requires size == 8 || size == 16
    ensures found ==> SlotFree(s, size, units, offset)
    ensures forall at: nat :: SlotFree(s, size, units, at) ==> found && offset <= at
  {
    found, offset := false, s.reusable;
    while offset + size <= s.stackBytes
      invariant s.reusable <= offset && (offset - s.reusable) % 8 == 0
      invariant forall at: nat :: SlotFree(s, size, units, at) ==> offset <= at
      decreases s.stackBytes + size - offset
    {
      if offset % size == 0 {
        var free := true;
        var unit := offset / 8;
        while unit < (offset + size) / 8
          invariant offset / 8 <= unit
          invariant free <==> forall k: nat :: offset / 8 <= k < unit && Units(offset, size, k) ==> k !in units
        {
          free := free && unit !in units;
          unit := unit + 1;
        }
        if free {
          return true, offset;
        }
      }
      assert !SlotFree(s, size, units, offset);
      offset := offset + 8;
    }
  }

  lemma ReusableSlot(s: State, size: nat, units: set<nat>, offset: nat)
    requires size == 8 || size == 16
    ensures SlotFree(s, size, units, offset) ==>
              && s.reusable <= offset && offset + size <= s.stackBytes && offset % size == 0
              && forall unit: nat :: Units(offset, size, unit) ==> unit !in units
  {
  }

  /** The first free slot for `r`, or a new one, marked at the points of `r`. */
  method GiveSlot(i: Input, s: State, r: nat, units: set<nat>) returns (s': State)
    requires i.Valid() && Sized(i, s) && SlotsOk(i, s) && i.Virtual(r) && r !in i.addressable && s.location[r] == Unassigned
    requires forall n: nat, point: nat :: i.Covers(r, n, point) ==> point <= i.points && s.stack[point] <= units
    ensures Sized(i, s') && SlotsOk(i, s')
    ensures s' == s.(location := s'.location, stack := s'.stack, stackBytes := s'.stackBytes)
    ensures s'.location == s.location[r := s'.location[r]] && s'.location[r].OnStack?
    ensures forall at: nat :: SlotFree(s, i.Size(r), units, at) ==> s'.stackBytes == s.stackBytes && s'.location[r].offset <= at
  {
    hide SlotFree, SlotsOk, Input.Valid, Units, RoundUp;
    var size := i.Size(r);
    var reuse, offset := FindReusable(s, size, units);
    ReusableSlot(s, size, units, offset);
    var above := RoundUp(s.stackBytes, size);
    RoundUpFacts(s.stackBytes, size);
    if !reuse {
      offset := above;
    }
    var stack := MarkUnits(i, s.stack, r, offset, size);
    s' := s.(location := s.location[r := OnStack(offset, size)], stack := stack,
             stackBytes := if reuse then s.stackBytes else above + size);
    assert UnitsMarked(i, s', r);
    assert GivesSlot(i, s, r, offset, s');
    if reuse {
      GiveReusedSlot(i, s, r, offset, units, s');
    } else {
      GiveNewSlot(i, s, r, s');
    }
  }
}
