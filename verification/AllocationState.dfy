/** The state of priority assignment: what occupies physical registers, gaps and
    stack slots, and how the bit sets and the gap table record it. */
module AllocationState {
  import opened Optional
  import opened LiveRange

  datatype Location = Unassigned | InRegister(physical: nat) | OnStack(offset: nat, size: nat)

  /** A whole-block range that holds a physical register but may lose it. */
  datatype Gap = Gap(physical: nat, reg: nat, range: nat)


  /** What the analyses and the target supply. Registers below `physical` are the
      physical ones; `crossed` are values live across calls, `clobbered` the registers
      a call overwrites, and `partly(p, r)` says that a call preserves `p` but not all
      of a value of the type of `r`. */
  datatype Input = Input(
    physical: nat,
    points: nat,
    ranges: seq<seq<Range>>,
    blocks: nat,
    globals: set<nat>,
    bound: seq<Option<nat>>,
    addressable: set<nat>,
    reserved: set<nat>,
    clobbered: set<nat>,
    accepts: (nat, nat) -> bool,
    crossed: set<nat>,
    partly: (nat, nat) -> bool,
    wide: set<nat>,
    cost: (nat, nat) -> nat,
    frequency: nat -> int,
    advanced: bool)
  {
    function Count(): nat { |ranges| }

    predicate HasRange(r: nat, n: nat)
    {
      r < |ranges| && n < |ranges[r]|
    }

    predicate Covers(r: nat, n: nat, point: nat)
    {
      HasRange(r, n) && ranges[r][n].start <= point <= ranges[r][n].finish
    }

    predicate Virtual(r: nat)
    {
      physical <= r < |ranges|
    }

    predicate Free(r: nat)
    {
      Virtual(r) && r < |bound| && bound[r].None?
    }

    predicate WholeBlock(r: nat, n: nat)
    {
      HasRange(r, n) && ranges[r][n].blocks != []
    }

    /** A range that is recorded as a gap while it is resident. */
    predicate IsGap(r: nat, n: nat)
    {
      Virtual(r) && WholeBlock(r, n)
    }

    /** One of the ranges crosses the block. */
    ghost predicate Crosses(r: nat, b: nat)
    {
      exists n: nat :: HasRange(r, n) && b in ranges[r][n].blocks
    }

    function Size(r: nat): nat
    {
      if r in wide then 16 else 8
    }

    /** Ranges of one register come in descending order and never share a point. */
    ghost predicate Valid()
    {
      && physical <= |ranges| == |bound|
      && (forall r: nat, n: nat :: HasRange(r, n) ==> ranges[r][n].start <= ranges[r][n].finish <= points)
      && (forall r: nat, n: nat, k: nat :: HasRange(r, n) && HasRange(r, k) && n < k ==> ranges[r][k].finish < ranges[r][n].start)
      && (forall r: nat, n: nat, k: nat :: HasRange(r, n) && k < |ranges[r][n].blocks| ==> ranges[r][n].blocks[k] < blocks)
      && (forall p :: p in globals ==> p < physical)
      && (forall p :: p in clobbered ==> p < physical)
      && (forall r :: r in addressable ==> Virtual(r))
    }
  }

  /** The allocation so far. Bits of `used` and `busy` are physical registers held at
      a point, those of `stack` are 8-byte units. */
  datatype State = State(
    used: seq<set<nat>>,
    busy: seq<set<nat>>,
    stack: seq<set<nat>>,
    gaps: map<(nat, nat), Gap>,
    location: seq<Location>,
    spilled: seq<set<nat>>,
    stackBytes: nat,
    reusable: nat)

  // ----- residency -----

  /** Range `n` of `r` holds physical register `p` at all its points. */
  ghost predicate Resident(i: Input, s: State, r: nat, n: nat, p: nat)
    requires i.Valid() && |s.location| == i.Count()
  {
    && i.HasRange(r, n)
    && (if r < i.physical then p == r
        else && i.Free(r)
             && s.location[r] == InRegister(p)
             && (i.advanced && i.WholeBlock(r, n) ==>
                   (p, i.ranges[r][n].start) in s.gaps && s.gaps[(p, i.ranges[r][n].start)] == Gap(p, r, n)))
  }

  /** Who holds a physical register at a point; a function, so nobody shares it. */
  type Owners = seq<map<nat, (nat, nat)>>

  ghost predicate Sized(i: Input, s: State)
  {
    && |s.used| == |s.busy| == |s.stack| == i.points + 1
    && |s.location| == i.Count()
    && |s.spilled| == i.blocks
  }

  ghost predicate Occupies(i: Input, s: State, holder: (nat, nat), point: nat, p: nat)
    requires i.Valid() && |s.location| == i.Count()
  {
    && Resident(i, s, holder.0, holder.1, p)
    && i.Covers(holder.0, holder.1, point)
    && (holder.0 >= i.physical ==> p !in i.globals)
  }

  /** Owners are exactly the resident ranges covering a point. */
  ghost predicate Owned(i: Input, s: State, owner: Owners)
    requires i.Valid() && Sized(i, s)
  {
    && |owner| == i.points + 1
    && (forall point: nat, p: nat :: point <= i.points && p in owner[point] ==> Occupies(i, s, owner[point][p], point, p))
    && (forall point: nat, p: nat, r: nat, n: nat :: point <= i.points && Resident(i, s, r, n, p) && i.Covers(r, n, point) ==>
          p in owner[point] && owner[point][p] == (r, n))
  }

  /** Held by a range that cannot be evicted. */
  ghost predicate HeldFirmly(i: Input, owner: Owners, point: nat, p: nat)
    requires point < |owner|
  {
    p in owner[point] && !i.IsGap(owner[point][p].0, owner[point][p].1)
  }

  /** The bit sets say what the owners say: `used` is everything held, `busy`
      everything held by a range that is not a gap. */
  ghost predicate Marked(i: Input, s: State, owner: Owners)
    requires i.Valid() && Sized(i, s) && Owned(i, s, owner)
  {
    forall point: nat, p: nat :: point <= i.points ==>
      && (p in s.used[point] <==> p in i.globals || p in owner[point])
      && (i.advanced ==> (p in s.busy[point] <==> p in i.globals || HeldFirmly(i, owner, point, p)))
  }

  ghost predicate GapsOk(i: Input, s: State)
    requires i.Valid() && Sized(i, s)
  {
    forall key :: key in s.gaps ==>
      var g := s.gaps[key];
      && key == (g.physical, if i.HasRange(g.reg, g.range) then i.ranges[g.reg][g.range].start else 0)
      && i.HasRange(g.reg, g.range) && i.Free(g.reg) && i.WholeBlock(g.reg, g.range)
      && i.advanced
      && s.location[g.reg] == InRegister(g.physical)
  }

  /** A range that lost its register, or never got it, is recorded as spilled in
      every block it crosses. */
  ghost predicate SpillsRecorded(i: Input, s: State)
    requires i.Valid() && Sized(i, s)
  {
    forall r: nat, n: nat :: i.HasRange(r, n) && i.Free(r) && s.location[r].InRegister? && !Resident(i, s, r, n, s.location[r].physical) ==>
      i.WholeBlock(r, n) && forall b :: b in i.ranges[r][n].blocks ==> b < i.blocks && r in s.spilled[b]
  }

  /** Only registers in hardware are recorded as spilled, in blocks that they cross. */
  ghost predicate SpillsCross(i: Input, s: State)
    requires Sized(i, s)
  {
    forall b: nat, r: nat :: b < i.blocks && r in s.spilled[b] ==> i.Free(r) && i.Crosses(r, b) && s.location[r].InRegister?
  }

  ghost predicate Booked(i: Input, s: State, owner: Owners)
  {
    && i.Valid() && Sized(i, s)
    && Owned(i, s, owner)
    && Marked(i, s, owner)
    && GapsOk(i, s)
    && SpillsRecorded(i, s)
  }

  // ----- marking points -----

  /** Add or remove one bit at every point of a range. */
  method Reserve(points: seq<set<nat>>, bits: set<nat>, from: nat, to: nat, present: bool) returns (marked: seq<set<nat>>)
    requires from <= to < |points|
    ensures |marked| == |points|
    ensures forall k :: 0 <= k < |points| ==>
              marked[k] == if from <= k <= to then (if present then points[k] + bits else points[k] - bits) else points[k]
  {
    marked := points;
    for at := from to to + 1
      invariant |marked| == |points|
      invariant forall k :: 0 <= k < |points| ==>
                  marked[k] == if from <= k < at then (if present then points[k] + bits else points[k] - bits) else points[k]
    {
      marked := marked[at := if present then marked[at] + bits else marked[at] - bits];
    }
  }

  predicate Available(p: nat, lr: Range, points: seq<set<nat>>)
    requires lr.finish < |points|
  {
    forall k :: lr.start <= k <= lr.finish ==> p !in points[k]
  }

  lemma RangeInPoints(i: Input, r: nat, n: nat)
    requires i.Valid() && i.HasRange(r, n)
    ensures i.ranges[r][n].start <= i.ranges[r][n].finish <= i.points
    ensures forall k :: 0 <= k < |i.ranges[r][n].blocks| ==> i.ranges[r][n].blocks[k] < i.blocks
  {
  }

  // ----- overlapping gaps -----

  /** Least start at or after `from` of a gap on `p`. */
  method FirstGap(gaps: map<(nat, nat), Gap>, p: nat, from: nat) returns (found: bool, start: nat)
    ensures found ==> (p, start) in gaps && from <= start
    ensures forall s: nat :: (p, s) in gaps && from <= s ==> found && start <= s
  {
    found, start := false, 0;
    var keys := gaps.Keys;
    while keys != {}
      invariant keys <= gaps.Keys
      invariant found ==> (p, start) in gaps && from <= start
      invariant forall s: nat :: (p, s) in gaps && from <= s && (p, s) !in keys ==> found && start <= s
      decreases keys
    {
      var key: (nat, nat) :| key in keys;
      keys := keys - {key};
      if key.0 == p && from <= key.1 && (!found || key.1 < start) {
        found, start := true, key.1;
      }
    }
  }

  /** Greatest start at or before `from` of a gap on `p`. */
  method LastGap(gaps: map<(nat, nat), Gap>, p: nat, from: nat) returns (found: bool, start: nat)
    ensures found ==> (p, start) in gaps && start <= from
    ensures forall s: nat :: (p, s) in gaps && s <= from ==> found && s <= start
  {
    found, start := false, 0;
    var keys := gaps.Keys;
    while keys != {}
      invariant keys <= gaps.Keys
      invariant found ==> (p, start) in gaps && start <= from
      invariant forall s: nat :: (p, s) in gaps && s <= from && (p, s) !in keys ==> found && s <= start
      decreases keys
    {
      var key: (nat, nat) :| key in keys;
      keys := keys - {key};
      if key.0 == p && key.1 <= from && (!found || start < key.1) {
        found, start := true, key.1;
      }
    }
  }
}
