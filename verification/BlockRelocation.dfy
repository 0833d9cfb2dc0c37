/** Relocatable code blocks: checking that patched ranges are apart, and pointing every
    successor site at its resolved address. */
module BlockRelocation {
  import opened Optional
  import opened Words
  import opened ByteOrder
  import opened BranchFields
  import opened Sorting

  const TWO_64: nat := 0x1_0000_0000_0000_0000
  const NOP: nat := 0xd503_201f

  datatype Kind = AbsoluteAddress | X86Relative32 | Branch26 | Branch19 | Address21

  datatype Site = Site(kind: Kind, target: nat, offset: nat, next: nat)

  type Range = (nat, nat)

  /** Code with its own relocations in `inner`, which the enclosing artifact checks and
      applies; `pool` is where its constants begin. */
  datatype Block = Block(bytes: seq<nat>, arm: bool, inner: seq<Range>, pool: Option<nat>, sites: seq<Site>)
  {
    ghost predicate Valid()
    {
      && IsBytes(bytes)
      && forall k :: 0 <= k < |inner| ==> inner[k].0 < inner[k].1 <= |bytes|
    }
  }

  // ----- checking -----

  function SiteSize(kind: Kind): nat
  {
    if kind.AbsoluteAddress? then 8 else 4
  }

  predicate InBytes(b: Block, s: Site)
  {
    s.offset <= |b.bytes| && |b.bytes| - s.offset >= SiteSize(s.kind) && (b.arm ==> s.offset % 4 == 0)
  }

  /** The field is clear and sits in the instruction its kind promises; a conditional
      branch has the NOP that a far target needs. */
  predicate SiteOk(b: Block, s: Site)
  {
    && InBytes(b, s)
    && (match s.kind
        case AbsoluteAddress => s.offset % 8 == 0 && s.next == 0 && Read(b.bytes, s.offset, 8) == 0
        case X86Relative32 =>
          !b.arm && s.offset + 4 <= s.next <= |b.bytes| && Read(b.bytes, s.offset, 4) == 0
        case Branch26 =>
          b.arm && s.next == 0 && And(Read(b.bytes, s.offset, 4), 0x7c00_0000) == 0x1400_0000
          && And(Read(b.bytes, s.offset, 4), 0x3ff_ffff) == 0
        case Address21 =>
          b.arm && s.next == 0 && And(Read(b.bytes, s.offset, 4), 0x9f00_0000) == 0x1000_0000
          && And(Read(b.bytes, s.offset, 4), 0x60ff_ffe0) == 0
        case Branch19 =>
          b.arm && s.next == 0
          && (And(Read(b.bytes, s.offset, 4), 0xff00_0010) == 0x5400_0000
              || And(Read(b.bytes, s.offset, 4), 0x7e00_0000) == 0x3400_0000)
          && And(Read(b.bytes, s.offset, 4), 0xff_ffe0) == 0
          && |b.bytes| - s.offset >= 12 && Read(b.bytes, s.offset + 8, 4) == NOP)
    && (b.pool.Some? ==> s.offset < b.pool.value)
  }

  function SiteRanges(s: Site): seq<Range>
  {
    (if s.kind.Branch19? then [(s.offset + 8, s.offset + 12)] else []) + [(s.offset, s.offset + SiteSize(s.kind))]
  }

  function Occupied(b: Block, n: nat): seq<Range>
    requires n <= |b.sites|
  {
    if n == 0 then b.inner else Occupied(b, n - 1) + SiteRanges(b.sites[n - 1])
  }

  predicate Apart(a: Range, b: Range)
  {
    a.1 <= b.0 || b.1 <= a.0
  }

  ghost predicate AllApart(rs: seq<Range>)
  {
    forall j, k :: 0 <= j < k < |rs| ==> Apart(rs[j], rs[k])
  }

  ghost predicate Nonempty(rs: seq<Range>)
  {
    forall k :: 0 <= k < |rs| ==> rs[k].0 < rs[k].1
  }

  predicate RangeLe(a: Range, b: Range)
  {
    a.0 < b.0 || (a.0 == b.0 && a.1 <= b.1)
  }

  lemma RangeOrder()
    ensures TotalOrder(RangeLe)
  {
  }

  /** In sorted order it is enough to look at neighbours. */
  lemma NeighboursDecide(rs: seq<Range>)
    requires Sorted(rs, RangeLe) && Nonempty(rs)
    ensures AllApart(rs) <==> forall n :: 1 <= n < |rs| ==> rs[n].0 >= rs[n - 1].1
  {
    if AllApart(rs) {
      forall n | 1 <= n < |rs|
        ensures rs[n].0 >= rs[n - 1].1
      {
        assert Apart(rs[n - 1], rs[n]) && RangeLe(rs[n - 1], rs[n]);
      }
    }
    if forall n :: 1 <= n < |rs| ==> rs[n].0 >= rs[n - 1].1 {
      forall j, k | 0 <= j < k < |rs|
        ensures Apart(rs[j], rs[k])
      {
        assert rs[j + 1].0 >= rs[j].1;
        assert j + 1 < k ==> RangeLe(rs[j + 1], rs[k]);
      }
    }
  }

  lemma PermutedApart(xs: seq<Range>, ys: seq<Range>, perm: seq<nat>)
    requires Permutes(xs, ys, perm)
    ensures AllApart(xs) <==> AllApart(ys)
  {
    if AllApart(xs) {
      forall j, k | 0 <= j < k < |ys|
        ensures Apart(ys[j], ys[k])
      {
        assert perm[j] != perm[k];
        assert perm[j] < perm[k] ==> Apart(xs[perm[j]], xs[perm[k]]);
        assert perm[k] < perm[j] ==> Apart(xs[perm[k]], xs[perm[j]]);
      }
    }
    if AllApart(ys) {
      forall a: nat, b: nat | a < b < |xs|
        ensures Apart(xs[a], xs[b])
      {
        assert a in perm && b in perm;
        var j :| 0 <= j < |perm| && perm[j] == a;
        var k :| 0 <= k < |perm| && perm[k] == b;
        assert j < k ==> Apart(ys[j], ys[k]);
        assert k < j ==> Apart(ys[k], ys[j]);
      }
    }
  }

  // ----- what is accepted, by instruction words and bytes -----

  predicate Fits(b: Block, s: Site, size: nat, alignment: nat)
    requires alignment > 0
  {
    s.offset + size <= |b.bytes| && s.offset % alignment == 0
  }

  /** An address is a clear double word; an x86 displacement a clear word in front of the next
      instruction; on AArch64 the word is one of the instructions of its kind, with a clear
      field, and behind a conditional branch, one instruction further, stands a NOP. No
      site lies in the constant pool. */
  predicate WellFormed(b: Block, s: Site)
  {
    && (b.pool.Some? ==> s.offset < b.pool.value)
    && match s.kind
       case AbsoluteAddress => Fits(b, s, 8, 8) && s.next == 0 && Read(b.bytes, s.offset, 8) == 0
       case X86Relative32 => !b.arm && Fits(b, s, 4, 1) && s.offset + 4 <= s.next <= |b.bytes| && Read(b.bytes, s.offset, 4) == 0
       case Branch26 =>
         b.arm && Fits(b, s, 4, 4) && s.next == 0 && (Read(b.bytes, s.offset, 4) == 0x1400_0000 || Read(b.bytes, s.offset, 4) == 0x9400_0000)
       case Address21 =>
         b.arm && Fits(b, s, 4, 4) && s.next == 0 && 0x1000_0000 <= Read(b.bytes, s.offset, 4) < 0x1000_0020
       case Branch19 =>
         && b.arm && Fits(b, s, 12, 4) && s.next == 0
         && Conditional(Read(b.bytes, s.offset, 4)) && Read(b.bytes, s.offset + 8, 4) == 0xd503_201f
  }

  lemma SiteForms(b: Block, s: Site)
    requires b.Valid()
    ensures SiteOk(b, s) <==> WellFormed(b, s)
  {
    hide And, Conditional, Read;
    if s.offset + 4 <= |b.bytes| {
      ReadBound(b.bytes, s.offset, 4);
      assert Span(4) == 0x1_0000_0000;
      var word := Read(b.bytes, s.offset, 4);
      LongForm(word);
      AddressForm(word);
      ConditionalForm(word);
    }
  }

  /** A byte that belongs to a site: its field, or the slot of a conditional branch. */
  predicate InSite(s: Site, k: nat)
  {
    s.offset <= k < s.offset + SiteSize(s.kind) || (s.kind.Branch19? && s.offset + 8 <= k < s.offset + 12)
  }

  /** No byte is patched twice. */
  ghost predicate NoneTwice(b: Block)
  {
    && (forall i, j, k: nat :: 0 <= i < j < |b.sites| ==> !(InSite(b.sites[i], k) && InSite(b.sites[j], k)))
    && (forall i, j, k: nat :: 0 <= i < |b.inner| && 0 <= j < |b.sites| ==> !(InRange(b.inner[i], k) && InSite(b.sites[j], k)))
    && (forall i, j, k: nat :: 0 <= i < j < |b.inner| ==> !(InRange(b.inner[i], k) && InRange(b.inner[j], k)))
  }

  predicate InRange(r: Range, k: nat)
  {
    r.0 <= k < r.1
  }

  lemma SiteBytes(s: Site, k: nat)
    ensures InSite(s, k) <==> exists x :: 0 <= x < |SiteRanges(s)| && InRange(SiteRanges(s)[x], k)
  {
    var rs := SiteRanges(s);
    if InSite(s, k) {
      if s.offset <= k < s.offset + SiteSize(s.kind) {
        assert InRange(rs[|rs| - 1], k);
      } else {
        assert InRange(rs[0], k);
      }
    }
  }

  /** The ranges gathered so far cover the bytes of the sites so far and of the block's own
      relocations. */
  ghost predicate Covered(b: Block, n: nat, k: nat)
    requires n <= |b.sites|
  {
    (exists i :: 0 <= i < |b.inner| && InRange(b.inner[i], k)) || exists j :: 0 <= j < n && InSite(b.sites[j], k)
  }

  lemma {:induction false} OccupiedBytes(b: Block, n: nat, k: nat)
    requires n <= |b.sites|
    ensures Covered(b, n, k) <==> exists x :: 0 <= x < |Occupied(b, n)| && InRange(Occupied(b, n)[x], k)
    decreases n
  {
    if n > 0 {
      OccupiedBytes(b, n - 1, k);
      SiteBytes(b.sites[n - 1], k);
      JoinedBytes(Occupied(b, n - 1), SiteRanges(b.sites[n - 1]), k);
      CoveredNext(b, n, k);
      assert Occupied(b, n) == Occupied(b, n - 1) + SiteRanges(b.sites[n - 1]);
      hide Occupied, SiteRanges, Covered, InSite, InRange;
    } else {
      assert Occupied(b, 0) == b.inner;
    }
  }

  lemma CoveredNext(b: Block, n: nat, k: nat)
    requires 0 < n <= |b.sites|
    ensures Covered(b, n, k) <==> Covered(b, n - 1, k) || InSite(b.sites[n - 1], k)
  {
    hide InSite, InRange;
  }

  lemma JoinedBytes(a: seq<Range>, c: seq<Range>, k: nat)
    ensures (exists x :: 0 <= x < |a + c| && InRange((a + c)[x], k))
            <==> (exists x :: 0 <= x < |a| && InRange(a[x], k)) || exists x :: 0 <= x < |c| && InRange(c[x], k)
  {
    if exists x :: 0 <= x < |a| && InRange(a[x], k) {
      var x :| 0 <= x < |a| && InRange(a[x], k);
      assert InRange((a + c)[x], k);
    }
    if exists x :: 0 <= x < |c| && InRange(c[x], k) {
      var x :| 0 <= x < |c| && InRange(c[x], k);
      assert InRange((a + c)[|a| + x], k);
    }
    if exists x :: 0 <= x < |a + c| && InRange((a + c)[x], k) {
      var x :| 0 <= x < |a + c| && InRange((a + c)[x], k);
      assert x < |a| ==> InRange(a[x], k);
      assert x >= |a| ==> InRange(c[x - |a|], k);
    }
  }

  /** Nonempty ranges are apart just when they share no byte. */
  lemma ApartBytes(a: Range, c: Range)
    requires a.0 < a.1 && c.0 < c.1
    ensures Apart(a, c) <==> forall k: nat :: !(InRange(a, k) && InRange(c, k))
  {
    if !Apart(a, c) {
      var k := if a.0 <= c.0 then c.0 else a.0;
      assert InRange(a, k) && InRange(c, k);
    }
  }

  /** Adding the ranges of one more site keeps all apart just when none of its bytes was
      covered before. */
  lemma NextApart(b: Block, n: nat)
    requires b.Valid() && n < |b.sites|
    ensures AllApart(Occupied(b, n + 1)) <==>
              AllApart(Occupied(b, n)) && forall k: nat :: !(Covered(b, n, k) && InSite(b.sites[n], k))
  {
    var old_, new_ := Occupied(b, n), SiteRanges(b.sites[n]);
    OccupiedNonempty(b, n);
    OwnApart(b.sites[n]);
    hide Occupied, SiteRanges, Covered, InSite, InRange;
    if AllApart(old_ + new_) {
      assert AllApart(old_) by { PrefixApart(old_, new_); }
      forall k: nat
        ensures !(Covered(b, n, k) && InSite(b.sites[n], k))
      {
        OccupiedBytes(b, n, k);
        SiteBytes(b.sites[n], k);
        if Covered(b, n, k) && InSite(b.sites[n], k) {
          var x :| 0 <= x < |old_| && InRange(old_[x], k);
          var y :| 0 <= y < |new_| && InRange(new_[y], k);
          assert (old_ + new_)[|old_| + y] == new_[y] && Apart((old_ + new_)[x], (old_ + new_)[|old_| + y]);
          ApartBytes(old_[x], new_[y]);
        }
      }
    }
    if AllApart(old_) && forall k: nat :: !(Covered(b, n, k) && InSite(b.sites[n], k)) {
      forall x, y | 0 <= x < |old_| && 0 <= y < |new_|
        ensures Apart(old_[x], new_[y])
      {
        forall k: nat
          ensures !(InRange(old_[x], k) && InRange(new_[y], k))
        {
          OccupiedBytes(b, n, k);
          SiteBytes(b.sites[n], k);
        }
        ApartBytes(old_[x], new_[y]);
      }
      JoinApart(old_, new_);
    }
  }

  lemma OwnApart(s: Site)
    ensures AllApart(SiteRanges(s)) && Nonempty(SiteRanges(s))
  {
  }

  lemma PrefixApart(a: seq<Range>, c: seq<Range>)
    requires AllApart(a + c)
    ensures AllApart(a)
  {
    forall j, k | 0 <= j < k < |a|
      ensures Apart(a[j], a[k])
    {
      assert Apart((a + c)[j], (a + c)[k]);
    }
  }

  lemma JoinApart(a: seq<Range>, c: seq<Range>)
    requires AllApart(a) && AllApart(c) && forall x, y :: 0 <= x < |a| && 0 <= y < |c| ==> Apart(a[x], c[y])
    ensures AllApart(a + c)
  {
    forall j, k | 0 <= j < k < |a + c|
      ensures Apart((a + c)[j], (a + c)[k])
    {
      assert k >= |a| ==> (a + c)[k] == c[k - |a|];
      assert j >= |a| ==> (a + c)[j] == c[j - |a|];
    }
  }

  ghost predicate NoneTwiceBelow(b: Block, n: nat)
    requires n <= |b.sites|
  {
    && (forall i, j, k: nat :: 0 <= i < j < |b.inner| ==> !(InRange(b.inner[i], k) && InRange(b.inner[j], k)))
    && forall j, k: nat :: 0 <= j < n ==> !(Covered(b, j, k) && InSite(b.sites[j], k))
  }

  lemma {:induction false} ApartBelow(b: Block, n: nat)
    requires b.Valid() && n <= |b.sites|
    ensures AllApart(Occupied(b, n)) <==> NoneTwiceBelow(b, n)
    decreases n
  {
    if n > 0 {
      ApartBelow(b, n - 1);
      NextApart(b, n - 1);
      hide AllApart, Occupied, Covered, InSite, InRange;
    } else {
      hide InRange;
      forall i, j | 0 <= i < j < |b.inner|
        ensures Apart(b.inner[i], b.inner[j]) <==> forall k: nat :: !(InRange(b.inner[i], k) && InRange(b.inner[j], k))
      {
        ApartBytes(b.inner[i], b.inner[j]);
      }
    }
  }

  lemma BelowIsNone(b: Block)
    ensures NoneTwiceBelow(b, |b.sites|) <==> NoneTwice(b)
  {
    hide InSite, InRange;
    if NoneTwiceBelow(b, |b.sites|) {
      forall i, j, k: nat | 0 <= i < j < |b.sites|
        ensures !(InSite(b.sites[i], k) && InSite(b.sites[j], k))
      {
        assert InSite(b.sites[i], k) ==> Covered(b, j, k);
      }
      forall i, j, k: nat | 0 <= i < |b.inner| && 0 <= j < |b.sites|
        ensures !(InRange(b.inner[i], k) && InSite(b.sites[j], k))
      {
        assert InRange(b.inner[i], k) ==> Covered(b, j, k);
      }
    }
  }

  ghost predicate Verified(b: Block)
  {
    && (forall k :: 0 <= k < |b.sites| ==> SiteOk(b, b.sites[k]))
    && AllApart(Occupied(b, |b.sites|))
  }

  lemma {:induction false} OccupiedNonempty(b: Block, n: nat)
    requires b.Valid() && n <= |b.sites|
    ensures Nonempty(Occupied(b, n))
    decreases n
  {
    if n > 0 {
      OccupiedNonempty(b, n - 1);
    }
  }

  /** Check every site and list what it occupies. */
  method CheckSites(b: Block) returns (ok: bool, occupied: seq<Range>)
    requires b.Valid()
    ensures ok <==> forall k :: 0 <= k < |b.sites| ==> SiteOk(b, b.sites[k])
    ensures ok ==> occupied == Occupied(b, |b.sites|)
  {
    hide SiteOk;
    occupied := b.inner;
    for n := 0 to |b.sites|
      invariant occupied == Occupied(b, n)
      invariant forall k :: 0 <= k < n ==> SiteOk(b, b.sites[k])
    {
      if !SiteOk(b, b.sites[n]) {
        return false, occupied;
      }
      occupied := occupied + SiteRanges(b.sites[n]);
    }
    ok := true;
  }

  /** Sort, then compare neighbours. */
  method CheckApart(occupied: seq<Range>) returns (ok: bool)
    requires Nonempty(occupied)
    ensures ok <==> AllApart(occupied)
  {
    hide Permutes, Sorted, RangeLe, AllApart, Nonempty;
    RangeOrder();
    var sorted := Sort(occupied, RangeLe);
    ghost var perm :| Permutes(occupied, sorted, perm);
    SortedNonempty(occupied, sorted, perm);
    PermutedApart(occupied, sorted, perm);
    NeighboursDecide(sorted);
    ok := true;
    var n := 1;
    while n < |sorted|
      invariant 1 <= n
      invariant ok <==> forall m :: 1 <= m < n && m < |sorted| ==> sorted[m].0 >= sorted[m - 1].1
    {
      ok := ok && sorted[n].0 >= sorted[n - 1].1;
      n := n + 1;
    }
  }

  /** Accepts a block exactly when every site is well formed and no byte would be patched
      twice. */
  method Verify(b: Block) returns (ok: bool)
    requires b.Valid()
    ensures ok <==> Verified(b)
    ensures ok <==> NoneTwice(b) && forall k :: 0 <= k < |b.sites| ==> WellFormed(b, b.sites[k])
  {
    hide SiteOk, WellFormed, NoneTwice, Nonempty, AllApart;
    ApartBelow(b, |b.sites|);
    BelowIsNone(b);
    forall k | 0 <= k < |b.sites|
      ensures SiteOk(b, b.sites[k]) <==> WellFormed(b, b.sites[k])
    {
      SiteForms(b, b.sites[k]);
    }
    var occupied;
    ok, occupied := CheckSites(b);
    if ok {
      OccupiedNonempty(b, |b.sites|);
      ok := CheckApart(occupied);
    }
  }

  lemma SortedNonempty(xs: seq<Range>, ys: seq<Range>, perm: seq<nat>)
    requires Permutes(xs, ys, perm) && Nonempty(xs)
    ensures Nonempty(ys)
  {
  }

  // ----- displacements -----

  /** The distance between two addresses, when it lies between `low` and `high`; all
      arithmetic is on unsigned words. */
  function Difference(target: nat, origin: nat, low: int, high: int): (d: Option<int>)
  {
    if target >= origin then
      if target - origin <= high then Some(target - origin) else None
    else
      if origin - target <= -(low + 1) + 1 then Some(-(origin - target)) else None
  }

  /** It is the exact integer difference, and is given exactly when in range. */
  lemma DifferenceExact(target: nat, origin: nat, low: int, high: int)
    requires low < 0 <= high
    ensures var d := Difference(target, origin, low, high);
            && (d.Some? <==> low <= target - origin <= high)
            && (d.Some? ==> d.value == target - origin)
  {
  }

  /** Where control or an address lands, for a block placed at `base`. */
  function Lands(bytes: seq<nat>, base: nat, s: Site): int
    requires s.offset + SiteSize(s.kind) <= |bytes|
  {
    var word := Read(bytes, s.offset, SiteSize(s.kind));
    match s.kind
    case AbsoluteAddress => word
    case X86Relative32 => (base + s.next + Signed(word, 32)) % TWO_64
    case Branch26 => (base + s.offset + 4 * Signed(Imm26(word), 26)) % TWO_64
    case Address21 => (base + s.offset + Signed(ImmAddress(word), 21)) % TWO_64
    case Branch19 => (base + s.offset + 4 * Signed(Imm19(word), 19)) % TWO_64
  }

  /** The branch in the expansion slot of a conditional branch. */
  predicate SlotBranches(bytes: seq<nat>, base: nat, s: Site, address: nat)
    requires s.offset + 12 <= |bytes|
  {
    var word := Read(bytes, s.offset + 8, 4);
    word - Imm26(word) == 0x1400_0000 && (base + s.offset + 8 + 4 * Signed(Imm26(word), 26)) % TWO_64 == address
  }

  /** A site leads to its target: at once, or by way of its expansion slot. */
  predicate Reaches(bytes: seq<nat>, base: nat, s: Site, address: nat)
    requires s.offset + SiteSize(s.kind) <= |bytes| && (s.kind.Branch19? ==> s.offset + 12 <= |bytes|)
  {
    || Lands(bytes, base, s) == address
    || (s.kind.Branch19? && Lands(bytes, base, s) == (base + s.offset + 8) % TWO_64 && SlotBranches(bytes, base, s, address))
  }

  /** Only the displacement changed in the instruction. */
  predicate KeepsOpcode(before: seq<nat>, after: seq<nat>, s: Site)
    requires s.offset + SiteSize(s.kind) <= |before| == |after|
  {
    var old', new' := Read(before, s.offset, SiteSize(s.kind)), Read(after, s.offset, SiteSize(s.kind));
    match s.kind
    case Branch26 => new' - Imm26(new') == old'
    case Branch19 => new' - 32 * Imm19(new') == old'
    case Address21 => new' - 32 * Imm19(new') - 0x2000_0000 * (new' / 0x2000_0000 % 4) == old'
    case _ => true
  }

  // ----- patching one site -----

  ghost predicate SameSite(before: seq<nat>, after: seq<nat>, s: Site)
  {
    |before| == |after| && forall k: nat :: k < |before| && InSite(s, k) ==> before[k] == after[k]
  }

  ghost predicate OnlySite(before: seq<nat>, after: seq<nat>, s: Site)
  {
    |before| == |after| && forall k: nat :: k < |before| && !InSite(s, k) ==> before[k] == after[k]
  }

  /** What a patched site promises. */
  ghost predicate SiteDone(b: Block, bytes: seq<nat>, base: nat, s: Site, address: nat)
    requires SiteOk(b, s)
  {
    |bytes| == |b.bytes| && Reaches(bytes, base, s, address) && KeepsOpcode(b.bytes, bytes, s)
  }

  function OriginOf(base: nat, s: Site): nat
  {
    (base + if s.kind.X86Relative32? then s.next else s.offset) % TWO_64
  }

  lemma Wraps(base: nat, offset: nat, delta: int, address: nat)
    requires address < TWO_64 && (base + offset) % TWO_64 + delta == address
    ensures (base + offset + delta) % TWO_64 == address
  {
  }

  lemma SiteWord(b: Block, bytes: seq<nat>, s: Site)
    requires b.Valid() && SiteOk(b, s) && SameSite(b.bytes, bytes, s) && IsBytes(bytes)
    ensures Read(bytes, s.offset, SiteSize(s.kind)) == Read(b.bytes, s.offset, SiteSize(s.kind))
    ensures !s.kind.AbsoluteAddress? ==> Read(bytes, s.offset, 4) < WORD
  {
    hide And;
    ReadSame(bytes, b.bytes, s.offset, SiteSize(s.kind));
    ReadBound(bytes, s.offset, SiteSize(s.kind));
    Spans();
  }

  lemma Spans()
    ensures Span(4) == WORD && Span(8) == TWO_64
  {
  }

  lemma WroteWord(bytes: seq<nat>, s: Site, v: nat, after: seq<nat>)
    requires s.offset + SiteSize(s.kind) <= |bytes| && IsBytes(bytes)
    requires after == Patched(bytes, s.offset, v, SiteSize(s.kind))
    ensures Read(after, s.offset, SiteSize(s.kind)) == v % if s.kind.AbsoluteAddress? then TWO_64 else WORD
    ensures OnlySite(bytes, after, s) && IsBytes(after)
  {
    Spans();
    ReadPatched(bytes, s.offset, v, SiteSize(s.kind));
    PatchedBytes(bytes, s.offset, v, SiteSize(s.kind));
    forall k: nat | k < |bytes| && !InSite(s, k)
      ensures bytes[k] == after[k]
    {
      PatchedElsewhere(bytes, s.offset, v, SiteSize(s.kind), k);
    }
  }

  lemma AbsoluteDone(b: Block, bytes: seq<nat>, base: nat, s: Site, address: nat, after: seq<nat>)
    requires b.Valid() && SiteOk(b, s) && s.kind.AbsoluteAddress? && |bytes| == |b.bytes| && IsBytes(bytes)
    requires address < TWO_64 && after == Patched(bytes, s.offset, address, 8)
    ensures SiteDone(b, after, base, s, address) && OnlySite(bytes, after, s) && IsBytes(after)
  {
    hide Patched, Read, And;
    WroteWord(bytes, s, address, after);
    SmallRemainder(address, TWO_64);
  }

  lemma X86Done(b: Block, bytes: seq<nat>, base: nat, s: Site, address: nat, delta: int, after: seq<nat>)
    requires b.Valid() && SiteOk(b, s) && s.kind.X86Relative32? && |bytes| == |b.bytes| && IsBytes(bytes)
    requires address < TWO_64 && delta == address - OriginOf(base, s) && -0x8000_0000 <= delta < 0x8000_0000
    requires after == Patched(bytes, s.offset, delta % TWO_64, 4)
    ensures SiteDone(b, after, base, s, address) && OnlySite(bytes, after, s) && IsBytes(after)
  {
    hide Pow2, Signed, Patched, Read, And, OnlySite, IsBytes;
    WroteWord(bytes, s, delta % TWO_64, after);
    FieldPowers();
    SignedRound(delta, 32);
    LowWord(delta);
    Wraps(base, s.next, delta, address);
  }

  lemma LowWord(d: int)
    ensures d % TWO_64 % WORD == d % WORD
  {
  }

  lemma Branch26Done(b: Block, bytes: seq<nat>, base: nat, s: Site, address: nat, delta: int, after: seq<nat>)
    requires b.Valid() && SiteOk(b, s) && s.kind.Branch26? && SameSite(b.bytes, bytes, s) && IsBytes(bytes)
    requires address < TWO_64 && delta == address - OriginOf(base, s) && BranchField(delta, false).Some?
    requires after == Patched(bytes, s.offset, Or(Read(bytes, s.offset, 4), BranchField(delta, false).value), 4)
    ensures SiteDone(b, after, base, s, address) && OnlySite(bytes, after, s) && IsBytes(after)
  {
    hide And, Or, Pow2, Signed, Patched, Read, BranchField;
    SiteWord(b, bytes, s);
    var word := Read(bytes, s.offset, 4);
    Patch26(word, delta);
    WroteWord(bytes, s, Or(word, BranchField(delta, false).value), after);
    Wraps(base, s.offset, delta, address);
  }

  lemma AddressDone(b: Block, bytes: seq<nat>, base: nat, s: Site, address: nat, delta: int, after: seq<nat>)
    requires b.Valid() && SiteOk(b, s) && s.kind.Address21? && SameSite(b.bytes, bytes, s) && IsBytes(bytes)
    requires address < TWO_64 && delta == address - OriginOf(base, s) && -0x10_0000 <= delta < 0x10_0000
    requires after == Patched(bytes, s.offset, AddressBits(Read(bytes, s.offset, 4), delta), 4)
    ensures SiteDone(b, after, base, s, address) && OnlySite(bytes, after, s) && IsBytes(after)
  {
    hide And, Pow2, Signed, Patched, Read, AddressBits, OnlySite, IsBytes, Imm19, ImmAddress;
    SiteWord(b, bytes, s);
    var word := Read(bytes, s.offset, 4);
    PatchAddress(word, delta);
    WroteWord(bytes, s, AddressBits(word, delta), after);
    SmallRemainder(AddressBits(word, delta), WORD);
    Wraps(base, s.offset, delta, address);
  }

  lemma Branch19Done(b: Block, bytes: seq<nat>, base: nat, s: Site, address: nat, delta: int, after: seq<nat>)
    requires b.Valid() && SiteOk(b, s) && s.kind.Branch19? && SameSite(b.bytes, bytes, s) && IsBytes(bytes)
    requires address < TWO_64 && delta == address - OriginOf(base, s) && BranchField(delta, true).Some?
    requires after == Patched(bytes, s.offset, Or(Read(bytes, s.offset, 4), BranchField(delta, true).value), 4)
    ensures SiteDone(b, after, base, s, address) && OnlySite(bytes, after, s) && IsBytes(after)
  {
    hide And, Or, Pow2, Signed, Patched, Read, BranchField, OnlySite, IsBytes, Imm19;
    SiteWord(b, bytes, s);
    var word := Read(bytes, s.offset, 4);
    Patch19(word, delta);
    WroteWord(bytes, s, Or(word, BranchField(delta, true).value), after);
    SmallRemainder(Or(word, BranchField(delta, true).value), WORD);
    Wraps(base, s.offset, delta, address);
  }

  /** A far conditional branch: skip one word onto the slot, which branches on. */
  lemma FarDone(b: Block, bytes: seq<nat>, base: nat, s: Site, address: nat, delta: int, middle: seq<nat>, after: seq<nat>)
    requires b.Valid() && SiteOk(b, s) && s.kind.Branch19? && SameSite(b.bytes, bytes, s) && IsBytes(bytes)
    requires address < TWO_64 && delta == address - OriginOf(base, s) && BranchField(delta - 8, false).Some?
    requires middle == Patched(bytes, s.offset, Or(Read(bytes, s.offset, 4), Shifted(2, 5)), 4)
    requires after == Patched(middle, s.offset + 8, Or(0x1400_0000, BranchField(delta - 8, false).value), 4)
    ensures SiteDone(b, after, base, s, address) && OnlySite(bytes, after, s) && IsBytes(after)
  {
    hide And, Or, Pow2, Signed, Patched, Read, BranchField, Shifted;
    SiteWord(b, bytes, s);
    var word := Read(bytes, s.offset, 4);
    PatchSkip(word);
    WroteWord(bytes, s, Or(word, Shifted(2, 5)), middle);
    PatchSlot(delta - 8);
    WroteSlot(middle, s, Or(0x1400_0000, BranchField(delta - 8, false).value), after);
    Wraps(base, s.offset, delta, address);
  }

  lemma WroteSlot(bytes: seq<nat>, s: Site, v: nat, after: seq<nat>)
    requires s.offset + 12 <= |bytes| && IsBytes(bytes) && s.kind.Branch19? && v < WORD
    requires after == Patched(bytes, s.offset + 8, v, 4)
    ensures Read(after, s.offset + 8, 4) == v && Read(after, s.offset, 4) == Read(bytes, s.offset, 4)
    ensures OnlySite(bytes, after, s) && IsBytes(after)
  {
    Spans();
    ReadPatched(bytes, s.offset + 8, v, 4);
    SmallRemainder(v, WORD);
    PatchedBytes(bytes, s.offset + 8, v, 4);
    forall k: nat | k < |bytes| && !(s.offset + 8 <= k < s.offset + 12)
      ensures bytes[k] == after[k]
    {
      PatchedElsewhere(bytes, s.offset + 8, v, 4, k);
    }
    ReadSame(after, bytes, s.offset, 4);
  }

  /** Which addresses a site can be pointed at. A far conditional branch is limited by
      its slot, which lies 8 bytes further on. */
  predicate InReach(base: nat, s: Site, address: nat)
  {
    var distance := address - OriginOf(base, s);
    match s.kind
    case AbsoluteAddress => true
    case X86Relative32 => -0x8000_0000 <= distance < 0x8000_0000
    case Address21 => -0x10_0000 <= distance < 0x10_0000
    case Branch26 => distance % 4 == 0 && -0x800_0000 <= distance < 0x800_0000
    case Branch19 => distance % 4 == 0 && -0x800_0000 + 8 <= distance < 0x800_0000
  }

  /** Point one site at `address`, exactly when it is in reach. */
  method PatchSite(b: Block, bytes: array<nat>, base: nat, s: Site, address: nat) returns (ok: bool)
    requires b.Valid() && SiteOk(b, s) && SameSite(b.bytes, bytes[..], s) && IsBytes(bytes[..]) && address < TWO_64
    modifies bytes
    ensures ok <==> InReach(base, s, address)
    ensures ok ==> SiteDone(b, bytes[..], base, s, address) && OnlySite(old(bytes[..]), bytes[..], s) && IsBytes(bytes[..])
  {
    hide And, Or, Pow2, Signed, Patched, Read, BranchField, Shifted, SiteDone, OnlySite, SiteOk, SameSite, AddressBits, IsBytes;
    ghost var before := bytes[..];
    SiteFits(b, s, before);
    if s.kind.AbsoluteAddress? {
      WriteBytes(bytes, s.offset, address, 8);
      AbsoluteDone(b, before, base, s, address, bytes[..]);
      return true;
    }
    var origin := OriginOf(base, s);
    var range := if s.kind.Address21? then 0x10_0000 else if s.kind.X86Relative32? then 0x8000_0000 else 0x800_0000;
    var delta := Difference(address, origin, -range, range - 1);
    DifferenceExact(address, origin, -range, range - 1);
    if delta.None? {
      return false;
    }
    var d := delta.value;
    if s.kind.X86Relative32? {
      WriteBytes(bytes, s.offset, d % TWO_64, 4);
      X86Done(b, before, base, s, address, d, bytes[..]);
      return true;
    }
    var word := ReadBytes(bytes[..], s.offset, 4);
    if s.kind.Address21? {
      WriteBytes(bytes, s.offset, AddressBits(word, d), 4);
      AddressDone(b, before, base, s, address, d, bytes[..]);
      return true;
    }
    if s.kind.Branch19? && (d < -0x10_0000 || d >= 0x10_0000) {
      var branch := BranchField(d - 8, false);
      FieldExact(d - 8, false);
      if branch.None? {
        return false;
      }
      WriteBytes(bytes, s.offset, Or(word, Shifted(2, 5)), 4);
      ghost var middle := bytes[..];
      WriteBytes(bytes, s.offset + 8, Or(0x1400_0000, branch.value), 4);
      FarDone(b, before, base, s, address, d, middle, bytes[..]);
      return true;
    }
    var field := BranchField(d, s.kind.Branch19?);
    FieldExact(d, s.kind.Branch19?);
    if field.None? {
      return false;
    }
    WriteBytes(bytes, s.offset, Or(word, field.value), 4);
    if s.kind.Branch19? {
      Branch19Done(b, before, base, s, address, d, bytes[..]);
    } else {
      Branch26Done(b, before, base, s, address, d, bytes[..]);
    }
    ok := true;
  }

  lemma SiteFits(b: Block, s: Site, bytes: seq<nat>)
    requires SiteOk(b, s) && SameSite(b.bytes, bytes, s)
    ensures |bytes| == |b.bytes| && s.offset + SiteSize(s.kind) <= |bytes|
    ensures s.kind.Branch19? ==> s.offset + 12 <= |bytes|
  {
    hide And, Read;
  }

  // ----- the whole block -----

  lemma {:induction false} OccupiedHas(b: Block, n: nat, j: nat)
    requires j < n <= |b.sites|
    ensures |b.inner| <= |Occupied(b, j)| && |Occupied(b, j)| + |SiteRanges(b.sites[j])| <= |Occupied(b, n)|
    ensures Occupied(b, j) <= Occupied(b, n) && b.inner <= Occupied(b, j)
    ensures forall i :: 0 <= i < |SiteRanges(b.sites[j])| ==>
              Occupied(b, n)[|Occupied(b, j)| + i] == SiteRanges(b.sites[j])[i]
    decreases n
  {
    if j < n - 1 {
      OccupiedHas(b, n - 1, j);
    } else if j > 0 {
      OccupiedHas(b, j, j - 1);
    }
  }

  lemma RangeOfByte(s: Site, k: nat) returns (i: nat)
    requires InSite(s, k)
    ensures i < |SiteRanges(s)| && SiteRanges(s)[i].0 <= k < SiteRanges(s)[i].1
  {
    i := if s.kind.Branch19? && !(s.offset + 8 <= k < s.offset + 12) then 1 else 0;
  }

  /** No byte belongs to two sites. */
  lemma SitesApart(b: Block, j: nat, n: nat, k: nat)
    requires Verified(b) && j < n < |b.sites|
    ensures !(InSite(b.sites[j], k) && InSite(b.sites[n], k))
  {
    hide SiteOk, SiteRanges;
    OccupiedHas(b, |b.sites|, j);
    OccupiedHas(b, |b.sites|, n);
    OccupiedHas(b, n, j);
    forall x, y | 0 <= x < |SiteRanges(b.sites[j])| && 0 <= y < |SiteRanges(b.sites[n])|
      ensures Apart(SiteRanges(b.sites[j])[x], SiteRanges(b.sites[n])[y])
    {
      var all := Occupied(b, |b.sites|);
      assert Apart(all[|Occupied(b, j)| + x], all[|Occupied(b, n)| + y]);
    }
    if InSite(b.sites[j], k) && InSite(b.sites[n], k) {
      var x := RangeOfByte(b.sites[j], k);
      var y := RangeOfByte(b.sites[n], k);
    }
  }

  /** Nor to a site and to the block's own relocations. */
  lemma InnerApart(b: Block, i: nat, n: nat, k: nat)
    requires Verified(b) && i < |b.inner| && n < |b.sites| && b.inner[i].0 <= k < b.inner[i].1
    ensures !InSite(b.sites[n], k)
  {
    hide SiteOk, SiteRanges;
    OccupiedHas(b, |b.sites|, n);
    forall y | 0 <= y < |SiteRanges(b.sites[n])|
      ensures Apart(b.inner[i], SiteRanges(b.sites[n])[y])
    {
      var all := Occupied(b, |b.sites|);
      assert all[i] == b.inner[i];
      assert Apart(all[i], all[|Occupied(b, n)| + y]);
    }
    if InSite(b.sites[n], k) {
      var y := RangeOfByte(b.sites[n], k);
    }
  }

  /** The block's own relocations changed only their own bytes. */
  ghost predicate OnlyInner(b: Block, bytes: seq<nat>)
  {
    |bytes| == |b.bytes| && forall k: nat :: k < |bytes| && !InInner(b, k) ==> bytes[k] == b.bytes[k]
  }

  ghost predicate InInner(b: Block, k: nat)
  {
    exists i :: 0 <= i < |b.inner| && b.inner[i].0 <= k < b.inner[i].1
  }

  ghost predicate InSites(b: Block, n: nat, k: nat)
  {
    exists j :: 0 <= j < n && j < |b.sites| && InSite(b.sites[j], k)
  }

  ghost predicate Resolved(b: Block, bytes: seq<nat>, base: nat, resolve: nat -> Option<nat>, n: nat)
    requires n <= |b.sites| && forall k :: 0 <= k < |b.sites| ==> SiteOk(b, b.sites[k])
  {
    forall j :: 0 <= j < n ==>
      var address := resolve(b.sites[j].target);
      address.Some? && SiteDone(b, bytes, base, b.sites[j], address.value)
  }

  /** After the first `n` sites. */
  ghost predicate Relocating(b: Block, start: seq<nat>, bytes: seq<nat>, base: nat, resolve: nat -> Option<nat>, n: nat)
    requires n <= |b.sites| && forall k :: 0 <= k < |b.sites| ==> SiteOk(b, b.sites[k])
  {
    && |bytes| == |b.bytes| == |start| && IsBytes(bytes)
    && Resolved(b, bytes, base, resolve, n)
    && (forall k: nat :: k < |bytes| && !InSites(b, n, k) ==> bytes[k] == start[k])
    && (forall j :: n <= j < |b.sites| ==> SameSite(b.bytes, bytes, b.sites[j]))
  }

  lemma DoneStays(b: Block, bytes: seq<nat>, after: seq<nat>, base: nat, s: Site, address: nat)
    requires SiteOk(b, s) && SiteDone(b, bytes, base, s, address) && SameSite(bytes, after, s)
    ensures SiteDone(b, after, base, s, address)
  {
    hide And, Signed, Read, Imm19, Imm26, ImmAddress;
    ReadSame(bytes, after, s.offset, SiteSize(s.kind));
    if s.kind.Branch19? {
      ReadSame(bytes, after, s.offset + 8, 4);
    }
  }

  lemma NextSite(b: Block, start: seq<nat>, bytes: seq<nat>, after: seq<nat>, base: nat, resolve: nat -> Option<nat>, n: nat)
    requires Verified(b) && n < |b.sites| && Relocating(b, start, bytes, base, resolve, n)
    requires OnlySite(bytes, after, b.sites[n]) && IsBytes(after) && resolve(b.sites[n].target).Some?
    requires SiteDone(b, after, base, b.sites[n], resolve(b.sites[n].target).value)
    ensures Relocating(b, start, after, base, resolve, n + 1)
  {
    hide SiteOk, SiteDone, InSite;
    forall j | 0 <= j < n
      ensures SiteDone(b, after, base, b.sites[j], resolve(b.sites[j].target).value)
    {
      forall k: nat | k < |bytes| && InSite(b.sites[j], k)
        ensures bytes[k] == after[k]
      {
        SitesApart(b, j, n, k);
      }
      DoneStays(b, bytes, after, base, b.sites[j], resolve(b.sites[j].target).value);
    }
    forall j, k: nat | n + 1 <= j < |b.sites| && k < |bytes| && InSite(b.sites[j], k)
      ensures b.bytes[k] == after[k]
    {
      SitesApart(b, n, j, k);
      assert SameSite(b.bytes, bytes, b.sites[j]);
    }
    forall k: nat | k < |bytes| && !InSites(b, n + 1, k)
      ensures after[k] == start[k]
    {
      assert !InSites(b, n, k) && !InSite(b.sites[n], k);
    }
  }

  lemma StartRelocating(b: Block, bytes: seq<nat>, base: nat, resolve: nat -> Option<nat>)
    requires Verified(b) && OnlyInner(b, bytes) && IsBytes(bytes)
    ensures Relocating(b, bytes, bytes, base, resolve, 0)
  {
    hide SiteOk, InSite;
    forall j, k: nat | 0 <= j < |b.sites| && k < |bytes| && InSite(b.sites[j], k)
      ensures b.bytes[k] == bytes[k]
    {
      if InInner(b, k) {
        var i :| 0 <= i < |b.inner| && b.inner[i].0 <= k < b.inner[i].1;
        InnerApart(b, i, j, k);
      }
    }
  }

  /** The target of a site resolves to an address it can be pointed at. */
  predicate Placeable(b: Block, base: nat, s: Site, resolve: nat -> Option<nat>)
  {
    var address := resolve(s.target);
    address.Some? && (b.arm ==> address.value % 4 == 0) && InReach(base, s, address.value)
  }

  /** Relocate a block whose own relocations are already in `bytes`: this succeeds exactly
      when the block is well formed and every target is in reach, and then every successor
      site leads to its resolved address and all other bytes are unchanged. */
  method Relocate(b: Block, bytes: array<nat>, base: nat, resolve: nat -> Option<nat>) returns (ok: bool)
    requires b.Valid() && OnlyInner(b, bytes[..]) && IsBytes(bytes[..])
    requires forall t :: resolve(t).Some? ==> resolve(t).value < TWO_64
    modifies bytes
    ensures ok ==> Verified(b) && Relocating(b, old(bytes[..]), bytes[..], base, resolve, |b.sites|)
    ensures ok <==> Verified(b) && forall j :: 0 <= j < |b.sites| ==> Placeable(b, base, b.sites[j], resolve)
    ensures !Verified(b) ==> !ok && bytes[..] == old(bytes[..])
  {
    hide SiteOk, SiteDone, Resolved, OnlyInner, Verified, IsBytes, InReach;
    ok := Verify(b);
    if !ok {
      return;
    }
    VerifiedSites(b);
    StartRelocating(b, bytes[..], base, resolve);
    var addresses: map<nat, nat> := map[];
    for n := 0 to |b.sites|
      invariant Relocating(b, old(bytes[..]), bytes[..], base, resolve, n)
      invariant forall t :: t in addresses ==> resolve(t) == Some(addresses[t])
      invariant forall j :: 0 <= j < n ==> Placeable(b, base, b.sites[j], resolve)
    {
      var s := b.sites[n];
      if s.target !in addresses {
        var address := resolve(s.target);
        if address.None? {
          return false;
        }
        addresses := addresses[s.target := address.value];
      }
      var address := addresses[s.target];
      if b.arm && address % 4 != 0 {
        return false;
      }
      ghost var before := bytes[..];
      ok := PatchSite(b, bytes, base, s, address);
      if !ok {
        return;
      }
      NextSite(b, old(bytes[..]), before, bytes[..], base, resolve, n);
    }
    ok := true;
  }

  lemma VerifiedSites(b: Block)
    requires Verified(b)
    ensures forall k :: 0 <= k < |b.sites| ==> SiteOk(b, b.sites[k])
  {
    hide SiteOk;
  }
}
