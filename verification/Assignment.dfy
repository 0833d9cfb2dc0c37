/** Priority assignment: registers take a free physical register, evict whole-block
    ranges that others can afford to lose, or get a stack slot. */
module Assignment {
  import opened Optional
  import opened LiveRange
  import opened AllocationState
  import opened GapEviction
  import opened Reservation
  import opened GapSearch
  import opened RegisterChoice
  import opened EvictionPlan
  import opened StackSlots

  ghost predicate Allocating(i: Input, s: State, owner: Owners)
  {
    Booked(i, s, owner) && SlotsOk(i, s) && SpillsCross(i, s)
  }

  method AssignStack(i: Input, s: State, ghost owner: Owners, r: nat, units: set<nat>) returns (s': State)
    requires Allocating(i, s, owner) && i.Free(r) && r !in i.addressable && s.location[r] == Unassigned
    requires forall n: nat, point: nat :: i.Covers(r, n, point) ==> point <= i.points && s.stack[point] <= units
    ensures Allocating(i, s', owner)
    ensures s'.location == s.location[r := s'.location[r]] && s'.location[r].OnStack?
    ensures s'.location[r].size == (if r in i.wide then 16 else 8) && s'.location[r].offset % s'.location[r].size == 0
    ensures forall at: nat :: SlotFree(s, i.Size(r), units, at) ==> s'.stackBytes == s.stackBytes && s'.location[r].offset <= at
  {
    hide SlotFree, Owned, Marked, GapsOk, SpillsRecorded, SpillsCross, SlotsOk, Input.Valid;
    s' := GiveSlot(i, s, r, units);
    StackKeepsBooked(i, s, owner, r, s');
    StackKeepsSpills(i, s, r, s');
    SlotIsAligned(i, s', r);
  }

  lemma SlotIsAligned(i: Input, s: State, r: nat)
    requires i.Valid() && Sized(i, s) && SlotsOk(i, s) && r < i.Count() && s.location[r].OnStack?
    ensures s.location[r].size == (if r in i.wide then 16 else 8) && s.location[r].offset % s.location[r].size == 0
  {
    hide UnitsMarked, Apart, MayClash;
    assert Aligned(i, s, r);
  }

  lemma StackKeepsSpills(i: Input, s: State, r: nat, s': State)
    requires Sized(i, s) && Sized(i, s') && SpillsCross(i, s) && r < i.Count() && s.location[r] == Unassigned
    requires s'.spilled == s.spilled && s'.location == s.location[r := s'.location[r]]
    ensures SpillsCross(i, s')
  {
    hide Input.Crosses;
    forall b: nat, c: nat | b < i.blocks && c in s'.spilled[b]
      ensures i.Free(c) && c < |s'.location| && i.Crosses(c, b) && s'.location[c].InRegister?
    {
      assert b < |s.spilled| && c in s.spilled[b];
      assert i.Free(c) && i.Crosses(c, b) && s.location[c].InRegister?;
    }
  }

  /** Place one register of the priority order. */
  method AssignOne(i: Input, s: State, ghost owner: Owners, r: nat) returns (ok: bool, s': State, ghost owner': Owners)
    requires Allocating(i, s, owner) && i.Free(r) && r !in i.addressable && s.location[r] == Unassigned
    ensures ok ==> Allocating(i, s', owner') && |s'.location| == i.Count()
    ensures ok ==> forall c: nat :: c < i.Count() && c != r ==> s'.location[c] == s.location[c]
    ensures ok && i.ranges[r] != [] ==> s'.location[r] != Unassigned
    ensures ok && s'.location[r].InRegister? ==>
              s'.location[r].physical < i.physical && s'.location[r].physical !in i.reserved && Accepts(i, s'.location[r].physical, r)
    ensures i.ranges[r] != [] ==> forall p: nat :: FreeFor(i, s, r, p) ==>
              ok && s'.location[r].InRegister? && BestFree(i, s, r, s'.location[r].physical) && s'.spilled == s.spilled
    ensures !i.advanced || Affordable(i) ==> ok
  {
    hide SpillsCross, SpillsMore, Affordable, FreeFor, BestFree, Touched, Owned, Marked, GapsOk, SpillsRecorded, SlotsOk, Input.Valid, Evicting, CanPlace;
    ok, s', owner' := true, s, owner;
    if i.ranges[r] == [] {
      return;
    }
    var registers, units := Conflicts(i, s, r);
    var best: Option<nat>;
    var plan: seq<Gap>;
    ghost var offers;
    ok, best, plan, offers := Choose(i, s, owner, r, registers);
    if !ok {
      return;
    }
    match best {
      case Some(p) =>
        var own;
        s', own, owner' := EvictPlan(i, s, owner, r, p, plan);
        PlanMakesRoom(i, s, owner, s', owner', r, p, plan, own);
        ghost var before := s';
        EvictingFrame(i, s, s', r, plan, own);
        s' := PlaceRegister(i, s', owner', r, p, own);
        owner' := With(i, owner', r, p, own);
        PlacedSlots(i, s, r, p, s');
        PlacedSpills(i, s, before, r, p, s');
      case None =>
        s' := AssignStack(i, s, owner, r, units);
    }
  }

  lemma PlacedSpills(i: Input, s0: State, s: State, r: nat, p: nat, s': State)
    requires Sized(i, s0) && Sized(i, s) && Sized(i, s') && SpillsCross(i, s0) && SpillsMore(i, s0, s.spilled, r) && r < i.Count()
    requires s'.location == s0.location[r := InRegister(p)] && s'.spilled == s.spilled
    ensures SpillsCross(i, s')
  {
    hide Input.Crosses;
    forall b: nat, c: nat | b < i.blocks && c in s'.spilled[b]
      ensures i.Free(c) && c < |s'.location| && i.Crosses(c, b) && s'.location[c].InRegister?
    {
      assert b < |s.spilled| && c in s.spilled[b];
      assert i.Free(c) && i.Crosses(c, b);
      assert c in s0.spilled[b] || c == r || s0.location[c].InRegister?;
    }
  }

  lemma EvictingFrame(i: Input, s0: State, s: State, r: nat, plan: seq<Gap>, own: set<nat>)
    requires i.Valid() && Sized(i, s0) && Sized(i, s) && Evicting(i, s0, s, r, plan, own, 0)
    ensures s.location == s0.location && s.stack == s0.stack && s.stackBytes == s0.stackBytes && s.reusable == s0.reusable
  {
  }

  lemma PlacedSlots(i: Input, s: State, r: nat, p: nat, s': State)
    requires i.Valid() && Sized(i, s) && Sized(i, s') && SlotsOk(i, s) && r < i.Count()
    requires s'.location == s.location[r := InRegister(p)]
    requires s'.stack == s.stack && s'.stackBytes == s.stackBytes && s'.reusable == s.reusable
    ensures SlotsOk(i, s')
  {
    hide Input.Valid, SharePoint;
    forall c: nat | c < i.Count()
      ensures Aligned(i, s', c) && UnitsMarked(i, s', c)
    {
      assert Aligned(i, s, c) && UnitsMarked(i, s, c);
    }
    forall a: nat, b: nat | a < i.Count() && b < i.Count() && a != b && MayClash(i, a, b)
      ensures Apart(s'.location[a], s'.location[b])
    {
      assert Apart(s.location[a], s.location[b]);
    }
  }

  // ----- the whole pass -----

  ghost predicate FixedAt(i: Input, k: nat, p: nat, point: nat)
  {
    p < k && exists n: nat :: i.Covers(p, n, point)
  }

  ghost function FixedOwners(i: Input): Owners
  {
    seq(i.points + 1, point requires 0 <= point =>
      map p: nat | p < i.physical && FixedAt(i, i.physical, p, point) :: (p, FixedRange(i, p, point)))
  }

  ghost function FixedRange(i: Input, p: nat, point: nat): nat
    requires FixedAt(i, i.physical, p, point)
  {
    var n: nat :| i.Covers(p, n, point);
    n
  }

  /** Global registers are held everywhere, other physical registers where live. */
  ghost predicate StartsWith(i: Input, points: seq<set<nat>>)
  {
    && |points| == i.points + 1
    && forall point: nat, p: nat :: point <= i.points ==>
         (p in points[point] <==> p in i.globals || FixedAt(i, i.physical, p, point))
  }

  lemma StartBooked(i: Input, s: State)
    requires i.Valid() && Sized(i, s) && StartsWith(i, s.used) && (i.advanced ==> StartsWith(i, s.busy)) && s.gaps == map[]
    requires forall r :: 0 <= r < i.Count() ==> s.location[r] == Unassigned
    ensures Booked(i, s, FixedOwners(i))
  {
    var owner := FixedOwners(i);
    forall point: nat, p: nat, r: nat, n: nat | point <= i.points && Resident(i, s, r, n, p) && i.Covers(r, n, point)
      ensures p in owner[point] && owner[point][p] == (r, n)
    {
      assert FixedAt(i, i.physical, p, point);
      OneRangeAt(i, p, n, FixedRange(i, p, point), point);
    }
    hide Input.Valid;
    forall point: nat, p: nat | point <= i.points && p in owner[point]
      ensures Occupies(i, s, owner[point][p], point, p)
    {
    }
  }

  method ReserveRanges(i: Input, before: seq<set<nat>>, p: nat) returns (points: seq<set<nat>>)
    requires i.Valid() && |before| == i.points + 1 && p < i.Count()
    ensures |points| == i.points + 1
    ensures forall point: nat, q: nat :: point <= i.points ==>
              (q in points[point] <==> q in before[point] || (q == p && FixedBelow(i, p, |i.ranges[p]|, point)))
  {
    hide Input.Valid, FixedBelow;
    points := before;
    NothingFixed(i);
    for n := 0 to |i.ranges[p]|
      invariant |points| == i.points + 1
      invariant forall point: nat, q: nat :: point <= i.points ==>
                  (q in points[point] <==> q in before[point] || (q == p && FixedBelow(i, p, n, point)))
    {
      RangeInPoints(i, p, n);
      FixedNext(i, p, n);
      points := Reserve(points, {p}, i.ranges[p][n].start, i.ranges[p][n].finish, true);
    }
  }

  method ReserveFixed(i: Input) returns (points: seq<set<nat>>)
    requires i.Valid()
    ensures StartsWith(i, points)
  {
    hide Input.Valid, FixedBelow, FixedAt, Input.Covers;
    points := seq(i.points + 1, _ => i.globals);
    assert forall q, point :: !FixedAt(i, 0, q, point) by { NothingFixed(i); }
    Bounded(i);
    for p := 0 to i.physical
      invariant |points| == i.points + 1
      invariant forall point: nat, q: nat :: point <= i.points ==>
                  (q in points[point] <==> q in i.globals || FixedAt(i, p, q, point))
    {
      points := ReserveRanges(i, points, p);
      FixedAll(i, p);
    }
  }

  lemma NothingFixed(i: Input)
    ensures forall q, point :: !FixedAt(i, 0, q, point)
    ensures forall q, point :: !FixedBelow(i, q, 0, point)
  {
  }

  ghost predicate FixedBelow(i: Input, p: nat, n: nat, point: nat)
  {
    exists k: nat :: k < n && i.Covers(p, k, point)
  }

  lemma FixedNext(i: Input, p: nat, n: nat)
    ensures forall point :: FixedBelow(i, p, n + 1, point) <==> FixedBelow(i, p, n, point) || i.Covers(p, n, point)
  {
    forall point: nat
      ensures FixedBelow(i, p, n + 1, point) <==> FixedBelow(i, p, n, point) || i.Covers(p, n, point)
    {
      if FixedBelow(i, p, n + 1, point) && !i.Covers(p, n, point) {
        var k: nat :| k < n + 1 && i.Covers(p, k, point);
        assert k < n;
      }
    }
  }

  lemma FixedAll(i: Input, p: nat)
    requires p < |i.ranges|
    ensures forall q, point :: FixedAt(i, p + 1, q, point) <==>
              FixedAt(i, p, q, point) || (q == p && FixedBelow(i, p, |i.ranges[p]|, point))
  {
    forall q: nat, point: nat
      ensures FixedAt(i, p + 1, q, point) <==>
              FixedAt(i, p, q, point) || (q == p && FixedBelow(i, p, |i.ranges[p]|, point))
    {
      if q == p && (exists n: nat :: i.Covers(p, n, point)) {
        var n: nat :| i.Covers(p, n, point);
        assert FixedBelow(i, p, |i.ranges[p]|, point);
      }
    }
  }

  lemma Bounded(i: Input)
    requires i.Valid()
    ensures i.physical <= |i.ranges| == |i.bound|
  {
  }

  /** Registers in priority order: each virtual register without a taken address,
      once. The order decides who wins, not whether the result is sound. */
  ghost predicate Order(i: Input, order: seq<nat>)
  {
    && (forall k :: 0 <= k < |order| ==> i.Virtual(order[k]) && order[k] !in i.addressable)
    && (forall j, k :: 0 <= j < k < |order| ==> order[j] != order[k])
  }

  /** A bound register takes its binding and reserves nothing. */
  lemma BindKeepsBooked(i: Input, s: State, owner: Owners, r: nat, s': State)
    requires Booked(i, s, owner) && i.Virtual(r) && !i.Free(r) && s.location[r] == Unassigned
    requires Sized(i, s') && s' == s.(location := s.location[r := s'.location[r]])
    ensures Booked(i, s', owner)
  {
    forall c: nat, n: nat, p: nat
      ensures Resident(i, s', c, n, p) <==> Resident(i, s, c, n, p)
    {
      hide Owned, Marked, GapsOk, SpillsRecorded;
    }
    StackKeepsGaps(i, s, r, s');
    hide Resident, Input.Valid, Input.Free, GapsOk;
    SpillMoreOwned(i, s, owner, s');
  }

  method AssignAddressable(i: Input, s0: State, ghost owner: Owners) returns (s: State)
    requires Allocating(i, s0, owner)
    requires forall r: nat :: r < i.Count() ==> s0.location[r] == Unassigned
    ensures Allocating(i, s, owner) && |s.location| == i.Count()
    ensures forall r: nat :: r < i.Count() ==> if i.Virtual(r) && r in i.addressable then s.location[r].OnStack? else s.location[r] == Unassigned
  {
    hide Owned, Marked, GapsOk, SpillsRecorded, SpillsCross, SlotsOk, Input.Valid;
    Bounded(i);
    s := s0;
    for r := i.physical to i.Count()
      invariant Allocating(i, s, owner) && |s.location| == i.Count()
      invariant forall c: nat :: c < i.Count() ==>
                  if i.Virtual(c) && c in i.addressable && c < r then s.location[c].OnStack? else s.location[c] == Unassigned
    {
      if r in i.addressable {
        var size := i.Size(r);
        var offset := RoundUp(s.stackBytes, size);
        RoundUpFacts(s.stackBytes, size);
        ghost var before := s;
        s := s.(location := s.location[r := OnStack(offset, size)], stackBytes := offset + size, reusable := offset + size);
        assert UnitsMarked(i, s, r);
        GiveNewSlot(i, before, r, s);
        StackKeepsBooked(i, before, owner, r, s);
        StackKeepsSpills(i, before, r, s);
      }
    }
  }

  /** Assign every register of `order`. Only the cost arithmetic of evictions can fail,
      and not while one cost a point is affordable. */
  method Assign(i: Input, order: seq<nat>) returns (ok: bool, s: State, ghost owner: Owners)
    requires i.Valid() && Order(i, order)
    ensures !i.advanced || Affordable(i) ==> ok
    ensures ok ==> Allocating(i, s, owner)
    ensures ok ==> forall k :: 0 <= k < |order| && i.ranges[order[k]] != [] ==> s.location[order[k]] != Unassigned
    ensures ok ==> forall r: nat :: i.Free(r) && s.location[r].InRegister? ==> Accepts(i, s.location[r].physical, r)
  {
    hide Affordable, Owned, Marked, GapsOk, SpillsRecorded, SpillsCross, SlotsOk, Input.Valid, StartsWith;
    Bounded(i);
    ok := true;
    var held := ReserveFixed(i);
    s := State(held, held, seq(i.points + 1, _ => {}), map[], seq(i.Count(), _ => Unassigned), seq(i.blocks, _ => {}), 0, 0);
    assert |held| == i.points + 1 by { StartSized(i, held); }
    StartBooked(i, s);
    owner := FixedOwners(i);
    StartSlots(i, s);
    assert SpillsCross(i, s) by { NoSpills(i, s); }
    s := AssignAddressable(i, s, owner);
    var k := 0;
    while k < |order| && ok
      invariant 0 <= k <= |order| && (!i.advanced || Affordable(i) ==> ok)
      invariant ok ==> Allocating(i, s, owner) && |s.location| == i.Count()
      invariant ok ==> forall j :: k <= j < |order| ==> s.location[order[j]] == Unassigned
      invariant ok ==> forall j :: 0 <= j < k && i.ranges[order[j]] != [] ==> s.location[order[j]] != Unassigned
      invariant ok ==> forall r: nat :: i.Free(r) && s.location[r].InRegister? ==> Accepts(i, s.location[r].physical, r)
      decreases |order| - k
    {
      var r := order[k];
      if i.bound[r].Some? {
        ghost var before := s;
        s := s.(location := s.location[r := InRegister(i.bound[r].value)]);
        BindKeepsBooked(i, before, owner, r, s);
        StackKeepsSpills(i, before, r, s);
        BoundSlots(i, before, r, s);
      } else {
        ok, s, owner := AssignOne(i, s, owner, r);
      }
      k := k + 1;
    }
  }

  lemma StartSized(i: Input, held: seq<set<nat>>)
    requires StartsWith(i, held)
    ensures |held| == i.points + 1
  {
  }

  lemma NoSpills(i: Input, s: State)
    requires Sized(i, s) && forall b: nat :: b < i.blocks ==> s.spilled[b] == {}
    ensures SpillsCross(i, s)
  {
  }

  lemma StartSlots(i: Input, s: State)
    requires i.Valid() && Sized(i, s) && s.stackBytes == s.reusable == 0
    requires forall r: nat :: r < i.Count() ==> s.location[r] == Unassigned
    ensures SlotsOk(i, s)
  {
    hide Input.Valid;
  }

  lemma BoundSlots(i: Input, s: State, r: nat, s': State)
    requires i.Valid() && Sized(i, s) && Sized(i, s') && SlotsOk(i, s) && r < i.Count()
    requires s' == s.(location := s.location[r := s'.location[r]]) && s'.location[r].InRegister?
    ensures SlotsOk(i, s')
  {
    hide Input.Valid;
    PlacedSlots(i, s, r, s'.location[r].physical, s');
  }

  // ----- what an allocation means -----

  /** At a point, a physical register has at most one resident range. */
  lemma NeverDoubleBooked(i: Input, s: State, owner: Owners, p: nat, point: nat, r: nat, n: nat, c: nat, k: nat)
    requires Booked(i, s, owner) && point <= i.points
    requires Resident(i, s, r, n, p) && i.Covers(r, n, point) && Resident(i, s, c, k, p) && i.Covers(c, k, point)
    ensures r == c && n == k
  {
    assert owner[point][p] == (r, n);
  }

  /** `used` without `busy` is exactly what the gaps cover. */
  lemma UsedNotBusyIsGaps(i: Input, s: State, owner: Owners, p: nat, point: nat)
    requires Booked(i, s, owner) && i.advanced && point <= i.points
    ensures p in s.used[point] && p !in s.busy[point] <==>
            exists g :: HeldGap(i, s, p, g) && i.Covers(g.reg, g.range, point)
  {
    hide Input.Valid, SpillsRecorded;
    if p in s.used[point] && p !in s.busy[point] {
      assert p !in i.globals;
      assert p in owner[point];
      assert Occupies(i, s, owner[point][p], point, p);
      assert !HeldFirmly(i, owner, point, p);
      var g := Gap(p, owner[point][p].0, owner[point][p].1);
      assert HeldGap(i, s, p, g);
    }
    if g :| HeldGap(i, s, p, g) && i.Covers(g.reg, g.range, point) {
      GapIsResident(i, s, g);
      assert owner[point][p] == (g.reg, g.range);
      assert Occupies(i, s, owner[point][p], point, p);
    }
  }

  /** A value live across a call is in memory, in a register the call preserves for
      its type, or recorded as spilled in every block of the range that crosses. */
  lemma CallsPreserve(i: Input, s: State, owner: Owners, r: nat, n: nat, call: nat)
    requires Booked(i, s, owner) && i.Free(r) && r in i.crossed && i.Covers(r, n, call)
    requires forall c: nat :: i.Free(c) && s.location[c].InRegister? ==> Accepts(i, s.location[c].physical, c)
    requires forall p :: p in i.clobbered ==> exists k: nat :: i.Covers(p, k, call)
    requires s.location[r] != Unassigned
    ensures || s.location[r].OnStack?
            || (s.location[r].physical !in i.clobbered && !i.partly(s.location[r].physical, r))
            || (i.WholeBlock(r, n) && forall b :: b in i.ranges[r][n].blocks ==> b < i.blocks && r in s.spilled[b])
  {
    RangeInPoints(i, r, n);
    if s.location[r].InRegister? && s.location[r].physical in i.clobbered {
      var p := s.location[r].physical;
      var k: nat :| i.Covers(p, k, call);
      assert p < i.physical;
      assert Resident(i, s, p, k, p);
      if Resident(i, s, r, n, p) {
        NeverDoubleBooked(i, s, owner, p, call, r, n, p, k);
      }
    }
  }
}
