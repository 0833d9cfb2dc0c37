/** Taking one whole-block range out of its physical register. */
module GapEviction {
  import opened LiveRange
  import opened AllocationState

  ghost predicate Evicts(i: Input, s: State, g: Gap, s': State)
    requires i.Valid() && Sized(i, s) && i.HasRange(g.reg, g.range)
  {
    && Sized(i, s')
    && s' == s.(used := s'.used, gaps := s.gaps - {(g.physical, i.ranges[g.reg][g.range].start)}, spilled := s'.spilled)
    && (forall point: nat :: point <= i.points ==>
          s'.used[point] == if i.Covers(g.reg, g.range, point) then s.used[point] - {g.physical} else s.used[point])
    && (forall b: nat :: b < i.blocks ==>
          s'.spilled[b] == if b in i.ranges[g.reg][g.range].blocks then s.spilled[b] + {g.reg} else s.spilled[b])
  }

  ghost function Without(i: Input, owner: Owners, g: Gap): Owners
    requires i.HasRange(g.reg, g.range)
  {
    seq(|owner|, point requires 0 <= point < |owner| =>
      if i.Covers(g.reg, g.range, point) then owner[point] - {g.physical} else owner[point])
  }

  ghost predicate Holds(i: Input, s: State, g: Gap)
  {
    i.HasRange(g.reg, g.range) && (g.physical, i.ranges[g.reg][g.range].start) in s.gaps
    && s.gaps[(g.physical, i.ranges[g.reg][g.range].start)] == g
  }

  lemma EvictResidents(i: Input, s: State, g: Gap, s': State, r: nat, n: nat, p: nat)
    requires i.Valid() && Sized(i, s) && Holds(i, s, g) && GapsOk(i, s) && Evicts(i, s, g, s')
    ensures Resident(i, s', r, n, p) <==> Resident(i, s, r, n, p) && !(r == g.reg && n == g.range && p == g.physical)
  {
  }

  lemma EvictOwned(i: Input, s: State, owner: Owners, g: Gap, s': State)
    requires i.Valid() && Sized(i, s) && Owned(i, s, owner) && GapsOk(i, s)
    requires Holds(i, s, g) && Evicts(i, s, g, s') && Sized(i, s')
    ensures Owned(i, s', Without(i, owner, g))
  {
    hide Resident, Evicts, GapsOk, Input.Valid;
    var owner' := Without(i, owner, g);
    forall point: nat, p: nat | point <= i.points && p in owner'[point]
      ensures Occupies(i, s', owner'[point][p], point, p)
    {
      assert Occupies(i, s, owner[point][p], point, p);
      EvictResidents(i, s, g, s', owner[point][p].0, owner[point][p].1, p);
    }
    forall point: nat, p: nat, r: nat, n: nat | point <= i.points && Resident(i, s', r, n, p) && i.Covers(r, n, point)
      ensures p in owner'[point] && owner'[point][p] == (r, n)
    {
      GapIsResident(i, s, g);
      assert p == g.physical && i.Covers(g.reg, g.range, point) ==>
          p in owner[point] && owner[point][p] == (g.reg, g.range);
      EvictResidents(i, s, g, s', r, n, p);
    }
  }

  lemma GapIsResident(i: Input, s: State, g: Gap)
    requires i.Valid() && Sized(i, s) && Holds(i, s, g) && GapsOk(i, s)
    ensures Resident(i, s, g.reg, g.range, g.physical) && i.IsGap(g.reg, g.range)
  {
  }

  lemma WithoutAt(i: Input, s: State, owner: Owners, g: Gap, point: nat, p: nat)
    requires i.Valid() && Sized(i, s) && Owned(i, s, owner) && GapsOk(i, s) && Holds(i, s, g) && point <= i.points
    ensures |Without(i, owner, g)| == |owner| == i.points + 1
    ensures var gone := p == g.physical && i.Covers(g.reg, g.range, point);
            && (p in Without(i, owner, g)[point] <==> p in owner[point] && !gone)
            && (HeldFirmly(i, Without(i, owner, g), point, p) <==> HeldFirmly(i, owner, point, p))
            && (gone ==> p in owner[point] && i.Free(g.reg))
  {
    GapIsResident(i, s, g);
    hide Resident, Input.Valid, GapsOk, Input.IsGap;
    if p == g.physical && i.Covers(g.reg, g.range, point) {
      assert p in owner[point] && owner[point][p] == (g.reg, g.range);
    }
  }

  lemma EvictMarked(i: Input, s: State, owner: Owners, g: Gap, s': State)
    requires i.Valid() && Sized(i, s) && Owned(i, s, owner) && GapsOk(i, s) && Marked(i, s, owner)
    requires Holds(i, s, g) && Evicts(i, s, g, s') && Owned(i, s', Without(i, owner, g))
    ensures Marked(i, s', Without(i, owner, g))
  {
    hide Resident, Occupies, Input.Valid, GapsOk, HeldFirmly;
    var owner' := Without(i, owner, g);
    forall point: nat, p: nat | point <= i.points
      ensures p in s'.used[point] <==> p in i.globals || p in owner'[point]
      ensures i.advanced ==> (p in s'.busy[point] <==> p in i.globals || HeldFirmly(i, owner', point, p))
    {
      WithoutAt(i, s, owner, g, point, p);
      GlobalsFree(i, s, owner, g, point, p);
      assert p in s.used[point] <==> p in i.globals || p in owner[point];
    }
  }

  /** A global register is never a gap's. */
  lemma GlobalsFree(i: Input, s: State, owner: Owners, g: Gap, point: nat, p: nat)
    requires i.Valid() && Sized(i, s) && Owned(i, s, owner) && GapsOk(i, s) && Holds(i, s, g)
    requires point <= i.points
    ensures p == g.physical && i.Covers(g.reg, g.range, point) ==> p !in i.globals
  {
    if p == g.physical && i.Covers(g.reg, g.range, point) {
      assert owner[point][p] == (g.reg, g.range);
    }
  }

  lemma EvictKeepsGaps(i: Input, s: State, g: Gap, s': State)
    requires i.Valid() && Sized(i, s) && Holds(i, s, g) && GapsOk(i, s) && Evicts(i, s, g, s')
    ensures GapsOk(i, s')
  {
  }

  lemma EvictRecords(i: Input, s: State, g: Gap, s': State)
    requires i.Valid() && Sized(i, s) && Holds(i, s, g) && GapsOk(i, s) && SpillsRecorded(i, s) && Evicts(i, s, g, s')
    ensures SpillsRecorded(i, s')
  {
    forall r: nat, n: nat | i.HasRange(r, n) && i.Free(r) && s'.location[r].InRegister? && !Resident(i, s', r, n, s'.location[r].physical)
      ensures i.WholeBlock(r, n) && forall b :: b in i.ranges[r][n].blocks ==> b < i.blocks && r in s'.spilled[b]
    {
      EvictResidents(i, s, g, s', r, n, s.location[r].physical);
      hide Resident, GapsOk;
    }
  }

  lemma EvictKeepsBooked(i: Input, s: State, owner: Owners, g: Gap, s': State)
    requires Booked(i, s, owner) && Holds(i, s, g) && Evicts(i, s, g, s')
    ensures Booked(i, s', Without(i, owner, g))
  {
    hide Owned, Marked, GapsOk, SpillsRecorded, Input.Valid;
    EvictOwned(i, s, owner, g, s');
    EvictMarked(i, s, owner, g, s');
    EvictKeepsGaps(i, s, g, s');
    EvictRecords(i, s, g, s');
  }
}
