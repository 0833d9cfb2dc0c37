/** Putting a register into a physical register, range by range. */
module Reservation {
  import opened LiveRange
  import opened AllocationState
  import opened GapEviction

  /** Point `point` lies on one of the first `k` ranges of `r` that stay resident. */
  ghost predicate StaysAt(i: Input, r: nat, own: set<nat>, k: nat, point: nat)
  {
    exists n: nat :: n < k && i.Covers(r, n, point) && i.ranges[r][n].start !in own
  }

  ghost predicate FirmAt(i: Input, r: nat, own: set<nat>, k: nat, point: nat)
  {
    exists n: nat :: n < k && i.Covers(r, n, point) && i.ranges[r][n].start !in own && !i.WholeBlock(r, n)
  }

  /** State after the first `k` ranges of `r` were reserved in `p`, except those
      whose starts are in `own`. */
  ghost predicate Places(i: Input, s: State, r: nat, p: nat, own: set<nat>, k: nat, s': State)
    requires i.Valid() && Sized(i, s) && i.Free(r) && k <= |i.ranges[r]|
  {
    && Sized(i, s')
    && s' == s.(used := s'.used, busy := s'.busy, gaps := s'.gaps, location := s.location[r := InRegister(p)])
    && (forall point: nat :: point <= i.points ==>
          s'.used[point] == if StaysAt(i, r, own, k, point) then s.used[point] + {p} else s.used[point])
    && (i.advanced ==> forall point: nat :: point <= i.points ==>
          s'.busy[point] == if FirmAt(i, r, own, k, point) then s.busy[point] + {p} else s.busy[point])
    && (forall key :: key in s.gaps ==> key in s'.gaps && s'.gaps[key] == s.gaps[key])
    && (forall key :: key in s'.gaps && key !in s.gaps ==>
          key.0 == p && NewGap(i, r, own, k, key.1, s'.gaps[key], p))
    && (forall n: nat :: n < k && i.advanced && i.WholeBlock(r, n) && i.ranges[r][n].start !in own ==>
          (p, i.ranges[r][n].start) in s'.gaps && s'.gaps[(p, i.ranges[r][n].start)] == Gap(p, r, n))
  }

  ghost predicate NewGap(i: Input, r: nat, own: set<nat>, k: nat, start: nat, g: Gap, p: nat)
  {
    && i.advanced && g == Gap(p, r, g.range) && g.range < k && i.WholeBlock(r, g.range)
    && i.ranges[r][g.range].start == start && start !in own
  }

  /** Before the reservation: nothing holds `p` where `r` will stay, no gap starts
      there, and ranges that will not stay are recorded as spilled. */
  ghost predicate CanPlace(i: Input, s: State, r: nat, p: nat, own: set<nat>)
    requires i.Valid() && Sized(i, s)
  {
    && i.Free(r) && s.location[r] == Unassigned
    && (forall point: nat :: point <= i.points && StaysAt(i, r, own, |i.ranges[r]|, point) ==> p !in s.used[point])
    && (own != {} ==> i.advanced)
    && (forall n: nat :: n < |i.ranges[r]| && i.ranges[r][n].start in own ==>
          i.WholeBlock(r, n) && forall b :: b in i.ranges[r][n].blocks ==> b < i.blocks && r in s.spilled[b])
  }

  ghost function With(i: Input, owner: Owners, r: nat, p: nat, own: set<nat>): Owners
    requires r < |i.ranges|
  {
    seq(|owner|, point requires 0 <= point < |owner| =>
      if StaysAt(i, r, own, |i.ranges[r]|, point) then owner[point][p := (r, RangeAt(i, r, own, point))] else owner[point])
  }

  ghost function RangeAt(i: Input, r: nat, own: set<nat>, point: nat): nat
    requires r < |i.ranges| && StaysAt(i, r, own, |i.ranges[r]|, point)
  {
    var n: nat :| n < |i.ranges[r]| && i.Covers(r, n, point) && i.ranges[r][n].start !in own;
    n
  }

  lemma OneRangeAt(i: Input, r: nat, n: nat, k: nat, point: nat)
    requires i.Valid() && i.Covers(r, n, point) && i.Covers(r, k, point)
    ensures n == k
  {
    assert n < k || k < n || n == k;
  }

  lemma StartsDiffer(i: Input, r: nat, n: nat, k: nat)
    requires i.Valid() && i.HasRange(r, n) && i.HasRange(r, k) && i.ranges[r][n].start == i.ranges[r][k].start
    ensures n == k
  {
    OneRangeAt(i, r, n, k, i.ranges[r][n].start);
  }

  lemma GapHoldsStart(i: Input, s: State, owner: Owners, p: nat, start: nat)
    requires Booked(i, s, owner) && (p, start) in s.gaps
    ensures start <= i.points && p in s.used[start]
  {
    var g := s.gaps[(p, start)];
    GapIsResident(i, s, g);
    assert i.Covers(g.reg, g.range, start);
    assert p in owner[start];
  }

  /** A gap of `p` that starts where `r` will stay would hold `p` there. */
  lemma NoGapInTheWay(i: Input, s: State, owner: Owners, r: nat, p: nat, own: set<nat>, n: nat)
    requires Booked(i, s, owner) && CanPlace(i, s, r, p, own)
    requires n < |i.ranges[r]| && i.ranges[r][n].start !in own
    ensures (p, i.ranges[r][n].start) !in s.gaps
  {
    hide Owned, Marked, GapsOk, SpillsRecorded;
    var start := i.ranges[r][n].start;
    assert i.Covers(r, n, start);
    assert StaysAt(i, r, own, |i.ranges[r]|, start);
    if (p, start) in s.gaps {
      GapHoldsStart(i, s, owner, p, start);
    }
  }

  lemma PlaceResidents(i: Input, s: State, owner: Owners, r: nat, p: nat, own: set<nat>, s': State, c: nat, n: nat, q: nat)
    requires Booked(i, s, owner) && CanPlace(i, s, r, p, own) && Places(i, s, r, p, own, |i.ranges[r]|, s')
    ensures Resident(i, s', c, n, q) <==>
            Resident(i, s, c, n, q) || (c == r && q == p && n < |i.ranges[r]| && i.ranges[r][n].start !in own)
  {
    hide Owned, Marked, SpillsRecorded, StaysAt, FirmAt;
    if c == r && n < |i.ranges[r]| {
      if i.ranges[r][n].start !in own {
      } else {
        var key := (p, i.ranges[r][n].start);
        OwnNotGap(i, s, r, p, own, s', n);
      }
    } else if i.HasRange(c, n) {
      var key := (q, i.ranges[c][n].start);
    }
  }

  lemma OwnNotGap(i: Input, s: State, r: nat, p: nat, own: set<nat>, s': State, n: nat)
    requires i.Valid() && Sized(i, s) && GapsOk(i, s) && CanPlace(i, s, r, p, own) && Places(i, s, r, p, own, |i.ranges[r]|, s')
    requires n < |i.ranges[r]| && i.ranges[r][n].start in own
    ensures !Resident(i, s', r, n, p)
  {
  }

  lemma PlaceOwned(i: Input, s: State, owner: Owners, r: nat, p: nat, own: set<nat>, s': State)
    requires Booked(i, s, owner) && CanPlace(i, s, r, p, own) && Places(i, s, r, p, own, |i.ranges[r]|, s')
    requires Sized(i, s')
    ensures Owned(i, s', With(i, owner, r, p, own))
  {
    var owner' := With(i, owner, r, p, own);
    assert |owner'| == i.points + 1;
    forall point: nat, q: nat | point <= i.points && q in owner'[point]
      ensures Occupies(i, s', owner'[point][q], point, q)
    {
      hide Resident, Places, SpillsRecorded, GapsOk;
      if StaysAt(i, r, own, |i.ranges[r]|, point) && q == p {
        var n := RangeAt(i, r, own, point);
        PlaceResidents(i, s, owner, r, p, own, s', r, n, p);
      } else {
        assert Occupies(i, s, owner[point][q], point, q);
        PlaceResidents(i, s, owner, r, p, own, s', owner[point][q].0, owner[point][q].1, q);
      }
    }
    forall point: nat, q: nat, c: nat, n: nat | point <= i.points && Resident(i, s', c, n, q) && i.Covers(c, n, point)
      ensures q in owner'[point] && owner'[point][q] == (c, n)
    {
      hide Resident, Places, SpillsRecorded, GapsOk;
      PlaceResidents(i, s, owner, r, p, own, s', c, n, q);
      PlacedEntry(i, s, owner, r, p, own, c, n, q, point);
    }
  }

  lemma PlacedEntry(i: Input, s: State, owner: Owners, r: nat, p: nat, own: set<nat>, c: nat, n: nat, q: nat, point: nat)
    requires Booked(i, s, owner) && CanPlace(i, s, r, p, own) && point <= i.points && i.Covers(c, n, point)
    requires Resident(i, s, c, n, q) || (c == r && q == p && n < |i.ranges[r]| && i.ranges[r][n].start !in own)
    ensures q in With(i, owner, r, p, own)[point] && With(i, owner, r, p, own)[point][q] == (c, n)
  {
    hide GapsOk, SpillsRecorded;
    if Resident(i, s, c, n, q) {
      hide Resident;
      assert q in owner[point] && q in s.used[point];
      assert StaysAt(i, r, own, |i.ranges[r]|, point) ==> q != p;
    } else {
      assert StaysAt(i, r, own, |i.ranges[r]|, point);
      OneRangeAt(i, r, n, RangeAt(i, r, own, point), point);
    }
  }

  lemma PlaceMarkedAt(i: Input, s: State, owner: Owners, r: nat, p: nat, own: set<nat>, s': State, owner': Owners,
                      point: nat, q: nat)
    requires Booked(i, s, owner) && CanPlace(i, s, r, p, own) && Places(i, s, r, p, own, |i.ranges[r]|, s')
    requires owner' == With(i, owner, r, p, own) && point <= i.points
    ensures q in s'.used[point] <==> q in i.globals || q in owner'[point]
    ensures i.advanced ==> (q in s'.busy[point] <==> q in i.globals || HeldFirmly(i, owner', point, q))
  {
    hide Occupies, GapsOk, SpillsRecorded, Resident, Input.Valid, StaysAt, FirmAt;
    FirmImpliesStays(i, r, own, |i.ranges[r]|, point);
    if StaysAt(i, r, own, |i.ranges[r]|, point) {
      FirmWhenWithin(i, s, owner, r, p, own, point);
    }
  }

  lemma PlaceMarked(i: Input, s: State, owner: Owners, r: nat, p: nat, own: set<nat>, s': State)
    requires Booked(i, s, owner) && CanPlace(i, s, r, p, own) && Places(i, s, r, p, own, |i.ranges[r]|, s')
    requires Sized(i, s') && Owned(i, s', With(i, owner, r, p, own))
    ensures Marked(i, s', With(i, owner, r, p, own))
  {
    hide Booked, Places, With, HeldFirmly, StaysAt;
    var owner' := With(i, owner, r, p, own);
    forall point: nat, q: nat | point <= i.points
      ensures q in s'.used[point] <==> q in i.globals || q in owner'[point]
      ensures i.advanced ==> (q in s'.busy[point] <==> q in i.globals || HeldFirmly(i, owner', point, q))
    {
      PlaceMarkedAt(i, s, owner, r, p, own, s', owner', point, q);
    }
  }

  lemma FirmImpliesStays(i: Input, r: nat, own: set<nat>, k: nat, point: nat)
    ensures FirmAt(i, r, own, k, point) ==> StaysAt(i, r, own, k, point)
  {
  }

  lemma FirmWhenWithin(i: Input, s: State, owner: Owners, r: nat, p: nat, own: set<nat>, point: nat)
    requires i.Valid() && i.Free(r) && StaysAt(i, r, own, |i.ranges[r]|, point) && point < |owner|
    ensures FirmAt(i, r, own, |i.ranges[r]|, point) <==> HeldFirmly(i, With(i, owner, r, p, own), point, p)
  {
    var n := RangeAt(i, r, own, point);
    if FirmAt(i, r, own, |i.ranges[r]|, point) {
      var k: nat :| k < |i.ranges[r]| && i.Covers(r, k, point) && i.ranges[r][k].start !in own && !i.WholeBlock(r, k);
      OneRangeAt(i, r, n, k, point);
    }
  }

  lemma PlaceGaps(i: Input, s: State, r: nat, p: nat, own: set<nat>, s': State)
    requires i.Valid() && Sized(i, s) && GapsOk(i, s) && CanPlace(i, s, r, p, own)
    requires Places(i, s, r, p, own, |i.ranges[r]|, s') && Sized(i, s')
    ensures GapsOk(i, s')
  {
    hide StaysAt, FirmAt;
  }

  lemma PlaceRecords(i: Input, s: State, owner: Owners, r: nat, p: nat, own: set<nat>, s': State)
    requires Booked(i, s, owner) && CanPlace(i, s, r, p, own) && Places(i, s, r, p, own, |i.ranges[r]|, s')
    requires Sized(i, s')
    ensures SpillsRecorded(i, s')
  {
    forall c: nat, n: nat | i.HasRange(c, n) && i.Free(c) && s'.location[c].InRegister? && !Resident(i, s', c, n, s'.location[c].physical)
      ensures i.WholeBlock(c, n) && forall b :: b in i.ranges[c][n].blocks ==> b < i.blocks && c in s'.spilled[b]
    {
      hide Owned, Marked, StaysAt, FirmAt, GapsOk, Resident;
      PlaceResidents(i, s, owner, r, p, own, s', c, n, s'.location[c].physical);
      if c == r {
        assert i.ranges[r][n].start in own;
      } else {
        assert s.location[c] == s'.location[c];
      }
    }
  }

  lemma PlaceKeepsBooked(i: Input, s: State, owner: Owners, r: nat, p: nat, own: set<nat>, s': State)
    requires Booked(i, s, owner) && CanPlace(i, s, r, p, own) && Places(i, s, r, p, own, |i.ranges[r]|, s')
    ensures Booked(i, s', With(i, owner, r, p, own))
  {
    hide Owned, Marked, GapsOk, SpillsRecorded, CanPlace, StaysAt, FirmAt;
    PlaceOwned(i, s, owner, r, p, own, s');
    PlaceMarked(i, s, owner, r, p, own, s');
    PlaceGaps(i, s, r, p, own, s');
    PlaceRecords(i, s, owner, r, p, own, s');
  }

  // ----- reserving the ranges of a placed register -----

  lemma StaysNext(i: Input, r: nat, own: set<nat>, k: nat, point: nat)
    ensures StaysAt(i, r, own, k + 1, point) <==>
            StaysAt(i, r, own, k, point) || (i.Covers(r, k, point) && i.ranges[r][k].start !in own)
    ensures FirmAt(i, r, own, k + 1, point) <==>
            FirmAt(i, r, own, k, point) || (i.Covers(r, k, point) && i.ranges[r][k].start !in own && !i.WholeBlock(r, k))
  {
    if StaysAt(i, r, own, k + 1, point) && !(i.Covers(r, k, point) && i.ranges[r][k].start !in own) {
      var n: nat :| n < k + 1 && i.Covers(r, n, point) && i.ranges[r][n].start !in own;
      assert n < k;
    }
    if FirmAt(i, r, own, k + 1, point) && !(i.Covers(r, k, point) && i.ranges[r][k].start !in own && !i.WholeBlock(r, k)) {
      var n: nat :| n < k + 1 && i.Covers(r, n, point) && i.ranges[r][n].start !in own && !i.WholeBlock(r, n);
      assert n < k;
    }
  }

  lemma PlaceStart(i: Input, s: State, r: nat, p: nat, own: set<nat>)
    requires i.Valid() && Sized(i, s) && i.Free(r)
    ensures Places(i, s, r, p, own, 0, s.(location := s.location[r := InRegister(p)]))
  {
    hide Input.Valid;
  }

  lemma FreshStart(i: Input, s: State, owner: Owners, r: nat, p: nat, own: set<nat>, k: nat)
    requires Booked(i, s, owner) && CanPlace(i, s, r, p, own) && k < |i.ranges[r]|
    ensures i.ranges[r][k].start !in own ==> (p, i.ranges[r][k].start) !in s.gaps
    ensures forall n: nat :: n < k ==> i.ranges[r][n].start != i.ranges[r][k].start
  {
    hide Booked, CanPlace;
    BookedValid(i, s, owner);
    PlaceableIsFree(i, s, r, p, own);
    if i.ranges[r][k].start !in own {
      NoGapInTheWay(i, s, owner, r, p, own, k);
    }
    forall n: nat | n < k
      ensures i.ranges[r][n].start != i.ranges[r][k].start
    {
      if i.ranges[r][n].start == i.ranges[r][k].start {
        StartsDiffer(i, r, n, k);
      }
    }
  }

  lemma PlaceableIsFree(i: Input, s: State, r: nat, p: nat, own: set<nat>)
    requires i.Valid() && Sized(i, s) && CanPlace(i, s, r, p, own)
    ensures i.Free(r)
  {
  }

  lemma BookedValid(i: Input, s: State, owner: Owners)
    requires Booked(i, s, owner)
    ensures i.Valid() && Sized(i, s)
  {
  }

  /** How one more range changes the state: not at all when it is skipped, else its
      points are reserved, firmly or as a gap. */
  ghost predicate PlacesOne(i: Input, r: nat, p: nat, own: set<nat>, k: nat, s': State, s'': State)
    requires i.HasRange(r, k) && Sized(i, s') && Sized(i, s'')
  {
    var stays := i.ranges[r][k].start !in own;
    && s'' == s'.(used := s''.used, busy := s''.busy, gaps := s''.gaps)
    && (forall point: nat :: point <= i.points ==>
          s''.used[point] == if stays && i.Covers(r, k, point) then s'.used[point] + {p} else s'.used[point])
    && (i.advanced ==> forall point: nat :: point <= i.points ==>
          s''.busy[point] == if stays && !i.WholeBlock(r, k) && i.Covers(r, k, point) then s'.busy[point] + {p} else s'.busy[point])
    && s''.gaps == if stays && i.advanced && i.WholeBlock(r, k) then s'.gaps[(p, i.ranges[r][k].start) := Gap(p, r, k)] else s'.gaps
  }

  lemma PlaceStepGaps(i: Input, s: State, r: nat, p: nat, own: set<nat>, k: nat, s': State, s'': State)
    requires i.Valid() && Sized(i, s) && i.Free(r) && k < |i.ranges[r]|
    requires Places(i, s, r, p, own, k, s') && Sized(i, s'') && PlacesOne(i, r, p, own, k, s', s'')
    requires i.ranges[r][k].start !in own ==> (p, i.ranges[r][k].start) !in s.gaps
    requires forall n: nat :: n < k ==> i.ranges[r][n].start != i.ranges[r][k].start
    ensures forall key :: key in s.gaps ==> key in s''.gaps && s''.gaps[key] == s.gaps[key]
    ensures forall key :: key in s''.gaps && key !in s.gaps ==>
              key.0 == p && NewGap(i, r, own, k + 1, key.1, s''.gaps[key], p)
    ensures forall n: nat :: n < k + 1 && i.advanced && i.WholeBlock(r, n) && i.ranges[r][n].start !in own ==>
              (p, i.ranges[r][n].start) in s''.gaps && s''.gaps[(p, i.ranges[r][n].start)] == Gap(p, r, n)
  {
    hide Input.Valid, StaysAt, FirmAt;
  }

  lemma PlaceStepBits(i: Input, s: State, r: nat, p: nat, own: set<nat>, k: nat, s': State, s'': State)
    requires i.Valid() && Sized(i, s) && i.Free(r) && k < |i.ranges[r]|
    requires Places(i, s, r, p, own, k, s') && Sized(i, s'') && PlacesOne(i, r, p, own, k, s', s'')
    ensures forall point: nat :: point <= i.points ==>
              s''.used[point] == if StaysAt(i, r, own, k + 1, point) then s.used[point] + {p} else s.used[point]
    ensures i.advanced ==> forall point: nat :: point <= i.points ==>
              s''.busy[point] == if FirmAt(i, r, own, k + 1, point) then s.busy[point] + {p} else s.busy[point]
  {
    hide Input.Valid, StaysAt, FirmAt, NewGap, Input.Covers, Input.WholeBlock;
    forall point: nat | point <= i.points
      ensures s''.used[point] == if StaysAt(i, r, own, k + 1, point) then s.used[point] + {p} else s.used[point]
      ensures i.advanced ==> s''.busy[point] == if FirmAt(i, r, own, k + 1, point) then s.busy[point] + {p} else s.busy[point]
    {
      StaysNext(i, r, own, k, point);
    }
  }

  /** One more range: skipped, reserved firmly, or reserved as a gap. */
  lemma PlaceStep(i: Input, s: State, owner: Owners, r: nat, p: nat, own: set<nat>, k: nat, s': State, s'': State)
    requires Booked(i, s, owner) && CanPlace(i, s, r, p, own) && k < |i.ranges[r]|
    requires Places(i, s, r, p, own, k, s') && Sized(i, s'') && PlacesOne(i, r, p, own, k, s', s'')
    ensures Places(i, s, r, p, own, k + 1, s'')
  {
    hide Booked, CanPlace, Input.Valid, StaysAt, FirmAt, NewGap;
    BookedValid(i, s, owner);
    PlaceableIsFree(i, s, r, p, own);
    FreshStart(i, s, owner, r, p, own, k);
    PlaceStepGaps(i, s, r, p, own, k, s', s'');
    PlaceStepBits(i, s, r, p, own, k, s', s'');
  }

  method PlaceRegister(i: Input, s: State, ghost owner: Owners, r: nat, p: nat, own: set<nat>) returns (s': State)
    requires Booked(i, s, owner) && CanPlace(i, s, r, p, own)
    ensures Booked(i, s', With(i, owner, r, p, own))
    ensures s'.location == s.location[r := InRegister(p)]
    ensures s'.stack == s.stack && s'.stackBytes == s.stackBytes && s'.reusable == s.reusable && s'.spilled == s.spilled
  {
    hide Owned, Marked, GapsOk, SpillsRecorded, Input.Valid, StaysAt, FirmAt, Places;
    s' := s.(location := s.location[r := InRegister(p)]);
    PlaceStart(i, s, r, p, own);
    for n := 0 to |i.ranges[r]|
      invariant Places(i, s, r, p, own, n, s') && Sized(i, s')
      invariant s'.location == s.location[r := InRegister(p)]
      invariant s'.stack == s.stack && s'.stackBytes == s.stackBytes && s'.reusable == s.reusable && s'.spilled == s.spilled
    {
      var lr := i.ranges[r][n];
      RangeInPoints(i, r, n);
      ghost var before := s';
      if lr.start !in own {
        var used := Reserve(s'.used, {p}, lr.start, lr.finish, true);
        s' := s'.(used := used);
        if i.advanced {
          if lr.blocks == [] {
            var busy := Reserve(s'.busy, {p}, lr.start, lr.finish, true);
            s' := s'.(busy := busy);
          } else {
            s' := s'.(gaps := s'.gaps[(p, lr.start) := Gap(p, r, n)]);
          }
        }
      }
      PlaceStep(i, s, owner, r, p, own, n, before, s');
    }
    PlaceKeepsBooked(i, s, owner, r, p, own, s');
  }
}
