/** The outgoing argument area of an AArch64 call: one walk reserves room for stack
    arguments, a second walk places them and copies large blocks above. */
module CallArea {
  import opened Alignment

  const REGISTERS: nat := 8
  const LIMIT: nat := 0x7FFF_FFFF_FFFF_FFFF
  const WORD: nat := 0x1_0000_0000_0000_0000

  /** Argument types as far as they decide placement; `Wide` is a long double or a vector. */
  datatype ArgType = Integer | Float | Wide | Block(size: nat) | ReturnBlock
  {
    /** Machine IR only has blocks of these sizes. */
    predicate Valid() { Block? ==> 0 < size <= LIMIT - 15 }

    function Words(): nat { if Block? then (size + 7) / 8 else 0 }

    /** Its size in whole words. */
    function Bytes(): (n: nat)
      ensures n == 8 * Words()
    {
      Words() * 8
    }

    predicate Small() { Block? && Words() <= 2 }

    predicate Large() { Block? && Words() > 2 }

    predicate Floating() { Float? || Wide? }

    /** A block that travels in registers or stack words itself; larger ones are copied. */
    predicate ByValue() { Block? && size <= 16 }

    /** General registers an argument takes. */
    function General(): nat { if Floating() then 0 else if ByValue() then (size + 7) / 8 else 1 }

    /** Bytes of its place on the stack. */
    function SlotSize(): nat { if Wide? then 16 else if ByValue() then (size + 7) / 8 * 8 else 8 }
  }

  /** A call: its arguments, how many of them are fixed parameters, and whether variadic
      ones always go to the stack. */
  datatype Call = Call(args: seq<ArgType>, fixed: nat, variadicOnStack: bool)
  {
    ghost predicate Valid() { forall i :: 0 <= i < |args| ==> args[i].Valid() }

    /** The first argument returns a block; it travels in a register of its own. */
    predicate Skips(i: nat) { i == 0 && args != [] && args[0].ReturnBlock? }
  }

  datatype Regs = Regs(ints: nat, floats: nat)

  const FULL := Regs(8, 8)

  datatype Where = InRegisters | OnStack(size: nat, align: nat)

  datatype Put = Put(place: Where, regs: Regs)

  /** Where one argument goes. A small block never straddles registers and stack, and still
      uses registers up; a large block is passed by address. */
  function Place(t: ArgType, r: Regs): (p: Put)
    requires t.Valid()
    ensures p.place.OnStack? ==> p.place.size > 0 && p.place.size % 8 == 0 && (p.place.align == 8 || p.place.align == 16) && p.place.size <= 16
  {
    if t.Small() then
      Put(if r.ints + t.Words() > REGISTERS then OnStack(t.Bytes(), 8) else InRegisters, r.(ints := r.ints + t.Words()))
    else if t.Float? || t.Wide? then
      Put(if r.floats < REGISTERS then InRegisters else if t.Wide? then OnStack(16, 16) else OnStack(8, 8), r.(floats := r.floats + 1))
    else
      Put(if r.ints < REGISTERS then InRegisters else OnStack(8, 8), r.(ints := r.ints + 1))
  }

  function Aligned(at: nat, align: nat): nat
  {
    if align == 16 then Align16(at) else at
  }

  function Grow(at: nat, w: Where): nat
  {
    if w.OnStack? then Aligned(at, w.align) + w.size else at
  }

  /** The registers before argument `i`: variadic arguments find them all taken. */
  function Reset(c: Call, i: nat, r: Regs): Regs
  {
    if c.variadicOnStack && i == c.fixed then FULL else r
  }

  /** The end of the stack arguments from argument `i` on. `early` says that the registers
      are reset even at a skipped argument. */
  function Walk(c: Call, i: nat, r: Regs, at: nat, early: bool): nat
    requires c.Valid() && i <= |c.args|
    decreases |c.args| - i
  {
    if i == |c.args| then at
    else if c.Skips(i) then Walk(c, i + 1, if early then Reset(c, i, r) else r, at, early)
    else
      var p := Place(c.args[i], Reset(c, i, r));
      Walk(c, i + 1, p.regs, Grow(at, p.place), early)
  }

  /** The end of the copies of large blocks, which also passes over small blocks on the
      stack. */
  function Copied(c: Call, i: nat, r: Regs, block: nat, early: bool): nat
    requires c.Valid() && i <= |c.args|
    decreases |c.args| - i
  {
    if i == |c.args| then block
    else if c.Skips(i) then Copied(c, i + 1, if early then Reset(c, i, r) else r, block, early)
    else
      var p := Place(c.args[i], Reset(c, i, r));
      Copied(c, i + 1, p.regs, block + Extra(c.args[i], p.place), early)
  }

  function Extra(t: ArgType, w: Where): nat
  {
    if t.Large() || (t.Small() && w.OnStack?) then t.Bytes() else 0
  }

  // ----- the two walks agree -----

  /** The first argument is a skipped variadic one, so only the second walk takes the
      registers away. */
  predicate Skewed(c: Call)
  {
    c.variadicOnStack && c.fixed == 0 && |c.args| > 1 && c.args[0].ReturnBlock?
  }

  lemma {:induction false} OrderMatters(c: Call, i: nat, r: Regs, at: nat)
    requires c.Valid() && i <= |c.args| && (i > 0 || !c.Skips(0) || !c.variadicOnStack || c.fixed != 0)
    ensures Walk(c, i, r, at, true) == Walk(c, i, r, at, false)
    ensures forall b: nat :: Copied(c, i, r, b, true) == Copied(c, i, r, b, false)
    decreases |c.args| - i
  {
    if i < |c.args| {
      if c.Skips(i) {
        OrderMatters(c, i + 1, r, at);
      } else {
        var p := Place(c.args[i], Reset(c, i, r));
        OrderMatters(c, i + 1, p.regs, Grow(at, p.place));
      }
    }
  }

  /** How far the walk with no registers left is ahead of the walk with registers. */
  ghost predicate Ahead(r: Regs, far: nat, near: nat)
  {
    || (near == 0 && far >= 8 * (r.ints + r.floats))
    || far >= near + 56
    || (far >= near + 48 && (far - near) % 16 == 0)
  }

  lemma AlignTwice(n: nat)
    ensures Align16(Align16(n)) == Align16(n)
  {
  }

  lemma AlignGap(far: nat, near: nat)
    requires far >= near + 56 || (far >= near + 48 && (far - near) % 16 == 0)
    ensures Align16(far) >= Align16(near) + 48 && (Align16(far) - Align16(near)) % 16 == 0
  {
  }

  /** Both walks put the argument on the stack, or only the one with no registers left. */
  lemma SamePlace(t: ArgType, full: Regs, r: Regs)
    requires t.Valid() && full.ints >= REGISTERS && full.floats >= REGISTERS
    ensures var p, q := Place(t, full), Place(t, r);
            && p.place.OnStack? && p.regs.ints >= REGISTERS && p.regs.floats >= REGISTERS
            && (q.place == p.place || q.place == InRegisters)
            && q.regs.ints + q.regs.floats <= r.ints + r.floats + p.place.size / 8
            && (q.place.OnStack? ==> r.ints + r.floats >= 7)
  {
  }

  lemma AheadStep(t: ArgType, full: Regs, r: Regs, far: nat, near: nat)
    requires t.Valid() && full.ints >= REGISTERS && full.floats >= REGISTERS && Ahead(r, far, near)
    ensures var p, q := Place(t, full), Place(t, r);
            Ahead(q.regs, Grow(far, p.place), Grow(near, q.place)) && Grow(far, p.place) > Grow(near, q.place)
    ensures Place(t, full).regs.ints >= REGISTERS && Place(t, full).regs.floats >= REGISTERS
  {
    SamePlace(t, full, r);
    hide Place;
    var p, q := Place(t, full), Place(t, r);
    var f2, n2 := Grow(far, p.place), Grow(near, q.place);
    if near == 0 && far >= 8 * (r.ints + r.floats) {
      assert q.place.OnStack? ==> f2 >= n2 + 56;
    } else {
      AlignGap(far, near);
      assert q.place == InRegisters ==> f2 >= n2 + 56;
    }
  }

  lemma {:induction false} NeverCaughtUp(c: Call, i: nat, full: Regs, r: Regs, far: nat, near: nat, early: bool)
    requires c.Valid() && 0 < i <= |c.args| && c.fixed == 0
    requires full.ints >= REGISTERS && full.floats >= REGISTERS && Ahead(r, far, near)
    ensures i < |c.args| || far > near ==> Walk(c, i, full, far, early) > Walk(c, i, r, near, early)
    decreases |c.args| - i
  {
    hide Ahead, Grow, Place;
    if i < |c.args| {
      AheadStep(c.args[i], full, r, far, near);
      var p, q := Place(c.args[i], full), Place(c.args[i], r);
      NeverCaughtUp(c, i + 1, p.regs, q.regs, Grow(far, p.place), Grow(near, q.place), early);
    }
  }

  /** The end of the stack arguments as the first walk reserves them, and as the second
      walk places them. */
  function Reserved(c: Call): nat
    requires c.Valid()
  {
    Walk(c, 0, Regs(0, 0), 0, false)
  }

  function Placed(c: Call): nat
    requires c.Valid()
  {
    Walk(c, 0, Regs(0, 0), 0, true)
  }

  /** The stack arguments end exactly where the reserved area ends, unless the call is
      skewed, and then they always run past it. */
  lemma PlacedIsReserved(c: Call)
    requires c.Valid()
    ensures Placed(c) == Reserved(c) <==> !Skewed(c)
    ensures Reserved(c) <= Placed(c)
  {
    if c.Skips(0) && c.variadicOnStack && c.fixed == 0 {
      OrderMatters(c, 1, FULL, 0);
      NeverCaughtUp(c, 1, FULL, Regs(0, 0), 0, 0, false);
      assert Placed(c) == Walk(c, 1, FULL, 0, true) && Reserved(c) == Walk(c, 1, Regs(0, 0), 0, false);
      assert |c.args| == 1 ==> Walk(c, 1, FULL, 0, true) == 0 == Walk(c, 1, Regs(0, 0), 0, false);
    } else {
      OrderMatters(c, 0, Regs(0, 0), 0);
    }
  }

  // ----- the areas -----

  datatype Area = Area(offset: nat, size: nat)

  /** Stack arguments in order. */
  function Slots(c: Call, i: nat, r: Regs, at: nat): seq<Area>
    requires c.Valid() && i <= |c.args|
    decreases |c.args| - i
  {
    if i == |c.args| then []
    else if c.Skips(i) then Slots(c, i + 1, Reset(c, i, r), at)
    else
      var p := Place(c.args[i], Reset(c, i, r));
      (if p.place.OnStack? then [Area(Aligned(at, p.place.align), p.place.size)] else [])
      + Slots(c, i + 1, p.regs, Grow(at, p.place))
  }

  /** Copies of large blocks in order. */
  function Copies(c: Call, i: nat, r: Regs, block: nat): seq<Area>
    requires c.Valid() && i <= |c.args|
    decreases |c.args| - i
  {
    if i == |c.args| then []
    else if c.Skips(i) then Copies(c, i + 1, Reset(c, i, r), block)
    else
      var p := Place(c.args[i], Reset(c, i, r));
      (if c.args[i].Large() then [Area(block, c.args[i].Bytes())] else [])
      + Copies(c, i + 1, p.regs, block + Extra(c.args[i], p.place))
  }

  /** Areas one after another between two offsets. */
  ghost predicate Stacked(areas: seq<Area>, low: nat, high: nat)
  {
    && (forall k: nat :: k < |areas| ==> low <= areas[k].offset && areas[k].offset + areas[k].size <= high && areas[k].offset % 8 == 0)
    && (forall j: nat, k: nat :: j < k < |areas| ==> areas[j].offset + areas[j].size <= areas[k].offset)
  }

  lemma StackedCons(a: Area, areas: seq<Area>, low: nat, mid: nat, high: nat)
    requires Stacked(areas, mid, high) && low <= a.offset && a.offset + a.size <= mid <= high && a.offset % 8 == 0
    ensures Stacked([a] + areas, low, high)
  {
    var s := [a] + areas;
    forall k: nat | k < |s| ensures low <= s[k].offset && s[k].offset + s[k].size <= high && s[k].offset % 8 == 0 {
      assert k > 0 ==> s[k] == areas[k - 1];
    }
    forall j: nat, k: nat | j < k < |s| ensures s[j].offset + s[j].size <= s[k].offset {
      assert s[k] == areas[k - 1];
      assert j > 0 ==> s[j] == areas[j - 1];
    }
  }

  lemma GrowAligned(at: nat, w: Where)
    requires at % 8 == 0 && (w.OnStack? ==> w.size % 8 == 0)
    ensures at <= Aligned(at, if w.OnStack? then w.align else 8) && Aligned(at, if w.OnStack? then w.align else 8) % 8 == 0
    ensures at <= Grow(at, w) && Grow(at, w) % 8 == 0
  {
  }

  lemma {:induction false} SlotsFit(c: Call, i: nat, r: Regs, at: nat)
    requires c.Valid() && i <= |c.args| && at % 8 == 0
    ensures at <= Walk(c, i, r, at, true)
    ensures Stacked(Slots(c, i, r, at), at, Walk(c, i, r, at, true))
    decreases |c.args| - i
  {
    hide Stacked, Place, Align16, Aligned;
    if i == |c.args| {
      NoAreas(at, at);
    } else if c.Skips(i) {
      SlotsFit(c, i + 1, Reset(c, i, r), at);
    } else {
      var p := Place(c.args[i], Reset(c, i, r));
      var next := Grow(at, p.place);
      GrowAligned(at, p.place);
      SlotsFit(c, i + 1, p.regs, next);
      var rest := Slots(c, i + 1, p.regs, next);
      if p.place.OnStack? {
        StackedCons(Area(Aligned(at, p.place.align), p.place.size), rest, at, next, Walk(c, i + 1, p.regs, next, true));
      } else {
        assert [] + rest == rest;
      }
    }
  }

  lemma NoAreas(low: nat, high: nat)
    ensures Stacked([], low, high)
  {
  }

  lemma Widen(areas: seq<Area>, low: nat, mid: nat, high: nat)
    requires Stacked(areas, mid, high) && low <= mid
    ensures Stacked(areas, low, high)
  {
  }

  lemma {:induction false} CopiesFit(c: Call, i: nat, r: Regs, block: nat)
    requires c.Valid() && i <= |c.args| && block % 8 == 0
    ensures block <= Copied(c, i, r, block, true)
    ensures Stacked(Copies(c, i, r, block), block, Copied(c, i, r, block, true))
    decreases |c.args| - i
  {
    hide Stacked, Place;
    if i == |c.args| {
      NoAreas(block, block);
    } else if c.Skips(i) {
      CopiesFit(c, i + 1, Reset(c, i, r), block);
    } else {
      var p := Place(c.args[i], Reset(c, i, r));
      var next := block + Extra(c.args[i], p.place);
      CopiesFit(c, i + 1, p.regs, next);
      var rest := Copies(c, i + 1, p.regs, next);
      var end := Copied(c, i + 1, p.regs, next, true);
      if c.args[i].Large() {
        StackedCons(Area(block, c.args[i].Bytes()), rest, block, next, end);
      } else {
        Widen(rest, block, next, end);
        assert [] + rest == rest;
      }
    }
  }

  /** Where the copies end, rounded. */
  function End(c: Call): nat
    requires c.Valid()
  {
    Align16(Copied(c, 0, Regs(0, 0), Align16(Reserved(c)), false))
  }

  /** The stack pointer adjustment. */
  function Adjustment(c: Call): nat
    requires c.Valid()
  {
    var block := Align16(Copied(c, 0, Regs(0, 0), Align16(Reserved(c)), true));
    Align16(if block != 0 then block else Placed(c))
  }

  /** Both walks over the copies end in the same place. */
  lemma SameCopies(c: Call)
    requires c.Valid() && !Skewed(c)
    ensures forall b: nat :: Copied(c, 0, Regs(0, 0), b, true) == Copied(c, 0, Regs(0, 0), b, false)
  {
    if c.Skips(0) && c.variadicOnStack && c.fixed == 0 {
      forall b: nat ensures Copied(c, 0, Regs(0, 0), b, true) == Copied(c, 0, Regs(0, 0), b, false) {
        assert Copied(c, 1, FULL, b, true) == b && Copied(c, 1, Regs(0, 0), b, false) == b;
      }
    } else {
      OrderMatters(c, 0, Regs(0, 0), 0);
    }
  }

  /** Stack arguments and copies of blocks are pairwise disjoint inside the adjustment, with
      the copies above the arguments; the stack pointer stays aligned. */
  lemma AreasDisjoint(c: Call)
    requires c.Valid() && !Skewed(c)
    ensures var slots := Slots(c, 0, Regs(0, 0), 0);
            var copies := Copies(c, 0, Regs(0, 0), Align16(Reserved(c)));
            && Stacked(slots, 0, Reserved(c))
            && Stacked(copies, Align16(Reserved(c)), Adjustment(c))
            && Reserved(c) <= Adjustment(c) && Adjustment(c) % 16 == 0
    ensures Adjustment(c) == End(c)
  {
    hide Stacked, Place, Walk, Copied, Slots, Copies;
    PlacedIsReserved(c);
    AlignTwice(Copied(c, 0, Regs(0, 0), Align16(Reserved(c)), true));
    SlotsFit(c, 0, Regs(0, 0), 0);
    CopiesFit(c, 0, Regs(0, 0), Align16(Reserved(c)));
    SameCopies(c);
    Raise(Copies(c, 0, Regs(0, 0), Align16(Reserved(c))), Align16(Reserved(c)),
          Copied(c, 0, Regs(0, 0), Align16(Reserved(c)), true), Adjustment(c));
  }

  lemma Raise(areas: seq<Area>, low: nat, mid: nat, high: nat)
    requires Stacked(areas, low, mid) && mid <= high
    ensures Stacked(areas, low, high)
  {
  }

  // ----- where arguments go, by counting those in front of them -----

  /** General registers taken by the arguments before argument `i`. */
  function WordsBefore(c: Call, i: nat): nat
    requires i <= |c.args|
  {
    if i == 0 then 0 else WordsBefore(c, i - 1) + if c.Skips(i - 1) then 0 else c.args[i - 1].General()
  }

  function FloatingBefore(c: Call, i: nat): set<nat>
    requires i <= |c.args|
  {
    set j: nat | j < i && c.args[j].Floating()
  }

  /** No register is left for argument `i`: it is variadic and those go to the stack, or
      too many are taken. A small block fits whole or not at all. */
  predicate OutOfRegisters(c: Call, i: nat)
    requires i < |c.args|
  {
    || (c.variadicOnStack && i >= c.fixed)
    || (if c.args[i].Floating() then |FloatingBefore(c, i)| >= 8
        else WordsBefore(c, i) + c.args[i].General() > 8)
  }

  predicate OnStackAt(c: Call, i: nat)
    requires i < |c.args|
  {
    !c.Skips(i) && OutOfRegisters(c, i)
  }

  /** The end of the stack arguments before argument `i`. */
  function StackEnd(c: Call, i: nat): nat
    requires i <= |c.args|
    decreases i, 0
  {
    if i == 0 then 0
    else if OnStackAt(c, i - 1) then SlotOf(c, i - 1).offset + SlotOf(c, i - 1).size
    else StackEnd(c, i - 1)
  }

  /** The place of a stack argument: where the ones before it end, or at the next multiple
      of 16 for a long double or a vector. */
  function SlotOf(c: Call, i: nat): Area
    requires i < |c.args|
    decreases i, 1
  {
    Area(if c.args[i].Wide? then Align16(StackEnd(c, i)) else StackEnd(c, i), c.args[i].SlotSize())
  }

  function SlotsBefore(c: Call, i: nat): seq<Area>
    requires i <= |c.args|
  {
    if i == 0 then [] else SlotsBefore(c, i - 1) + if OnStackAt(c, i - 1) then [SlotOf(c, i - 1)] else []
  }

  /** Where the copies for the arguments before argument `i` end: they start above all
      stack arguments. Small blocks on the stack count too, although they are not copied
      there. */
  function CopyEnd(c: Call, i: nat): nat
    requires i <= |c.args|
  {
    if i == 0 then Align16(StackEnd(c, |c.args|))
    else
      var t := c.args[i - 1];
      CopyEnd(c, i - 1) + if t.Block? && (t.size > 16 || OnStackAt(c, i - 1)) then (t.size + 7) / 8 * 8 else 0
  }

  function CopiesBefore(c: Call, i: nat): seq<Area>
    requires i <= |c.args|
  {
    if i == 0 then []
    else
      var t := c.args[i - 1];
      CopiesBefore(c, i - 1) + if t.Block? && t.size > 16 then [Area(CopyEnd(c, i - 1), (t.size + 7) / 8 * 8)] else []
  }

  /** The home of an argument, or of its address when it is a large block. */
  datatype Home = ReturnPointer | General(first: nat, count: nat) | Vector(index: nat) | Memory(area: Area)

  function HomeOf(c: Call, i: nat): Home
    requires i < |c.args|
  {
    if c.Skips(i) then ReturnPointer
    else if OutOfRegisters(c, i) then Memory(SlotOf(c, i))
    else if c.args[i].Floating() then Vector(|FloatingBefore(c, i)|)
    else General(WordsBefore(c, i), c.args[i].General())
  }

  /** The register counts a walk carries to argument `i`. */
  ghost predicate Counted(c: Call, i: nat, r: Regs)
    requires i <= |c.args|
  {
    if c.variadicOnStack && i > c.fixed then r.ints >= 8 && r.floats >= 8
    else r.ints == WordsBefore(c, i) && r.floats == |FloatingBefore(c, i)|
  }

  lemma FloatingStep(c: Call, i: nat)
    requires i < |c.args|
    ensures |FloatingBefore(c, i + 1)| == |FloatingBefore(c, i)| + if c.args[i].Floating() then 1 else 0
  {
    assert FloatingBefore(c, i + 1) == FloatingBefore(c, i) + if c.args[i].Floating() then {i} else {};
  }

  /** One argument: the counts decide its place. */
  lemma PlaceCounts(c: Call, i: nat, r: Regs)
    requires c.Valid() && i < |c.args| && Counted(c, i, r)
    ensures c.Skips(i) ==> Counted(c, i + 1, Reset(c, i, r))
    ensures var before := Reset(c, i, r);
            var p := Place(c.args[i], before);
            !c.Skips(i) ==>
            && Counted(c, i + 1, p.regs)
            && p.place == (if OutOfRegisters(c, i) then OnStack(c.args[i].SlotSize(), if c.args[i].Wide? then 16 else 8) else InRegisters)
            && (!OutOfRegisters(c, i) ==> before.ints == WordsBefore(c, i) && before.floats == |FloatingBefore(c, i)|)
  {
    FloatingStep(c, i);
    hide FloatingBefore;
  }

  lemma CountedFirst(c: Call)
    ensures Counted(c, 0, Regs(0, 0))
  {
    assert FloatingBefore(c, 0) == {};
  }

  lemma SlotsStep(c: Call, i: nat, before: Regs)
    requires c.Valid() && i < |c.args|
    requires var p := Place(c.args[i], before);
             !c.Skips(i) ==>
               p.place == if OutOfRegisters(c, i) then OnStack(c.args[i].SlotSize(), if c.args[i].Wide? then 16 else 8) else InRegisters
    ensures var p := Place(c.args[i], before);
            var t := c.args[i];
            if c.Skips(i) then
              StackEnd(c, i + 1) == StackEnd(c, i) && SlotsBefore(c, i + 1) == SlotsBefore(c, i)
              && CopyEnd(c, i + 1) == CopyEnd(c, i) && CopiesBefore(c, i + 1) == CopiesBefore(c, i)
            else
              && StackEnd(c, i + 1) == Grow(StackEnd(c, i), p.place)
              && SlotsBefore(c, i + 1) == SlotsBefore(c, i)
                 + (if p.place.OnStack? then [Area(Aligned(StackEnd(c, i), p.place.align), p.place.size)] else [])
              && CopyEnd(c, i + 1) == CopyEnd(c, i) + Extra(t, p.place)
              && CopiesBefore(c, i + 1) == CopiesBefore(c, i) + (if t.Large() then [Area(CopyEnd(c, i), t.Bytes())] else [])
  {
    hide Place, OutOfRegisters, Align16;
  }

  /** What the walks lay out is what the counts say. */
  lemma {:induction false} AreasCount(c: Call, i: nat, r: Regs)
    requires c.Valid() && i <= |c.args| && Counted(c, i, r)
    ensures Walk(c, i, r, StackEnd(c, i), true) == StackEnd(c, |c.args|)
    ensures SlotsBefore(c, i) + Slots(c, i, r, StackEnd(c, i)) == SlotsBefore(c, |c.args|)
    ensures Copied(c, i, r, CopyEnd(c, i), true) == CopyEnd(c, |c.args|)
    ensures CopiesBefore(c, i) + Copies(c, i, r, CopyEnd(c, i)) == CopiesBefore(c, |c.args|)
    decreases |c.args| - i
  {
    hide Place, Counted, Walk, Copied, Slots, Copies, StackEnd, SlotsBefore, CopyEnd, CopiesBefore, Call.Skips;
    if i == |c.args| {
      NoMoreArguments(c, r, StackEnd(c, i), CopyEnd(c, i));
    } else {
      PlaceCounts(c, i, r);
      var before := Reset(c, i, r);
      OneArgument(c, i, r, StackEnd(c, i), CopyEnd(c, i));
      SlotsStep(c, i, before);
      AreasCount(c, i + 1, if c.Skips(i) then before else Place(c.args[i], before).regs);
    }
  }

  /** The whole area, by counts alone. */
  lemma AreaCounts(c: Call)
    requires c.Valid() && !Skewed(c)
    ensures Slots(c, 0, Regs(0, 0), 0) == SlotsBefore(c, |c.args|)
    ensures Copies(c, 0, Regs(0, 0), Align16(Reserved(c))) == CopiesBefore(c, |c.args|)
    ensures Reserved(c) == StackEnd(c, |c.args|) && End(c) == Adjustment(c) == Align16(CopyEnd(c, |c.args|))
  {
    hide Place, Counted, OutOfRegisters, Align16, Walk, Copied, Skewed;
    CountedFirst(c);
    AreasCount(c, 0, Regs(0, 0));
    PlacedIsReserved(c);
    SameCopies(c);
    AreasDisjoint(c);
    assert [] + Slots(c, 0, Regs(0, 0), 0) == Slots(c, 0, Regs(0, 0), 0);
    assert [] + Copies(c, 0, Regs(0, 0), CopyEnd(c, 0)) == Copies(c, 0, Regs(0, 0), CopyEnd(c, 0));
  }

  lemma {:induction false} CountsGrow(c: Call, i: nat, j: nat)
    requires i < j <= |c.args|
    ensures WordsBefore(c, i) + (if c.Skips(i) then 0 else c.args[i].General()) <= WordsBefore(c, j)
    ensures |FloatingBefore(c, i)| + (if c.args[i].Floating() then 1 else 0) <= |FloatingBefore(c, j)|
    ensures StackEnd(c, i) <= StackEnd(c, i + 1) <= StackEnd(c, j)
    decreases j
  {
    hide FloatingBefore, OutOfRegisters;
    if i < j - 1 {
      CountsGrow(c, i, j - 1);
    }
    FloatingStep(c, j - 1);
    assert StackEnd(c, j - 1) <= StackEnd(c, j);
  }

  /** No two arguments of a call share a register or a byte of the stack, and none goes to a
      register that carries no arguments. */
  lemma HomesApart(c: Call, i: nat, j: nat)
    requires c.Valid() && i < j < |c.args|
    ensures var p, q := HomeOf(c, i), HomeOf(c, j);
            && (p.General? ==> p.first + p.count <= 8) && (p.Vector? ==> p.index < 8)
            && (p.General? && q.General? ==> p.first + p.count <= q.first)
            && (p.Vector? && q.Vector? ==> p.index < q.index)
            && (p.Memory? && q.Memory? ==> p.area.offset + p.area.size <= q.area.offset)
  {
    CountsGrow(c, i, j);
    hide FloatingBefore, WordsBefore;
  }

  // ----- the walks themselves -----

  lemma {:induction false} WalkGrows(c: Call, i: nat, r: Regs, at: nat, early: bool)
    requires c.Valid() && i <= |c.args|
    ensures at <= Walk(c, i, r, at, early)
    decreases |c.args| - i
  {
    hide Place;
    if i < |c.args| {
      if c.Skips(i) {
        WalkGrows(c, i + 1, if early then Reset(c, i, r) else r, at, early);
      } else {
        var p := Place(c.args[i], Reset(c, i, r));
        WalkGrows(c, i + 1, p.regs, Grow(at, p.place), early);
      }
    }
  }

  lemma {:induction false} CopiedGrows(c: Call, i: nat, r: Regs, block: nat, early: bool)
    requires c.Valid() && i <= |c.args|
    ensures block <= Copied(c, i, r, block, early)
    decreases |c.args| - i
  {
    hide Place;
    if i < |c.args| {
      if c.Skips(i) {
        CopiedGrows(c, i + 1, if early then Reset(c, i, r) else r, block, early);
      } else {
        var p := Place(c.args[i], Reset(c, i, r));
        CopiedGrows(c, i + 1, p.regs, block + Extra(c.args[i], p.place), early);
      }
    }
  }

  datatype Checked = Fits(value: nat) | TooLarge

  /** Adds within the signed address range. */
  function Add(value: nat, n: nat): (r: Checked)
    ensures r == if value + n <= LIMIT then Fits(value + n) else TooLarge
  {
    if n > LIMIT - value then TooLarge else Fits(value + n)
  }

  function Align(value: nat): (r: Checked)
    ensures r == if Align16(value) <= LIMIT then Fits(Align16(value)) else TooLarge
  {
    if value > LIMIT - 15 then TooLarge else Fits((value + 15) / 16 * 16)
  }

  /** The first walk, checking every step. */
  method CheckReserved(c: Call) returns (r: Checked)
    requires c.Valid()
    ensures r == if Reserved(c) <= LIMIT then Fits(Reserved(c)) else TooLarge
  {
    hide Place, Align16;
    var regs, block: nat := Regs(0, 0), 0;
    var i := 0;
    while i < |c.args|
      invariant 0 <= i <= |c.args| && block <= LIMIT
      invariant Walk(c, i, regs, block, false) == Reserved(c)
    {
      if !c.Skips(i) {
        var p := Place(c.args[i], Reset(c, i, regs));
        if p.place.OnStack? {
          WalkGrows(c, i + 1, p.regs, Grow(block, p.place), false);
          if p.place.align == 16 {
            var aligned := Align(block);
            if aligned.TooLarge? {
              return TooLarge;
            }
            block := aligned.value;
          }
          var sum := Add(block, p.place.size);
          if sum.TooLarge? {
            return TooLarge;
          }
          block := sum.value;
        }
        regs := p.regs;
      }
      i := i + 1;
    }
    return Fits(block);
  }

  /** The preflight check: both walks, without emitting anything. It passes exactly when the
      whole area stays in the signed address range. */
  method CheckCallArea(c: Call) returns (ok: bool)
    requires c.Valid()
    ensures ok <==> End(c) <= LIMIT
  {
    hide Place, Align16, Reserved;
    CopiedGrows(c, 0, Regs(0, 0), Align16(Reserved(c)), false);
    ghost var total := Copied(c, 0, Regs(0, 0), Align16(Reserved(c)), false);
    var reserved := CheckReserved(c);
    if reserved.TooLarge? {
      return false;
    }
    var start := Align(reserved.value);
    if start.TooLarge? {
      return false;
    }
    var stack: nat, block: nat := 0, start.value;
    var regs := Regs(0, 0);
    ReservedIsWalk(c);
    var i := 0;
    while i < |c.args|
      invariant 0 <= i <= |c.args| && stack <= LIMIT && block <= LIMIT
      invariant Walk(c, i, regs, stack, false) == Reserved(c) <= LIMIT
      invariant Copied(c, i, regs, block, false) == total
    {
      if !c.Skips(i) {
        var p := Place(c.args[i], Reset(c, i, regs));
        WalkGrows(c, i + 1, p.regs, Grow(stack, p.place), false);
        CopiedGrows(c, i + 1, p.regs, block + Extra(c.args[i], p.place), false);
        if p.place.OnStack? {
          if p.place.align == 16 {
            var aligned := Align(stack);
            if aligned.TooLarge? {
              return false;
            }
            stack := aligned.value;
          }
          var sum := Add(stack, p.place.size);
          if sum.TooLarge? {
            return false;
          }
          stack := sum.value;
        }
        if c.args[i].Large() || (c.args[i].Small() && p.place.OnStack?) {
          var sum := Add(block, c.args[i].Bytes());
          if sum.TooLarge? {
            return false;
          }
          block := sum.value;
        }
        regs := p.regs;
      }
      i := i + 1;
    }
    var end := Align(block);
    if end.TooLarge? {
      return false;
    }
    if end.value != 0 {
      stack := end.value;
    }
    AlignTwice(block);
    ok := Align(stack).Fits?;
  }

  lemma ReservedIsWalk(c: Call)
    requires c.Valid()
    ensures Reserved(c) == Walk(c, 0, Regs(0, 0), 0, false)
  {
  }

  /** Unsigned 64-bit arithmetic, as the lowering does it. */
  function Plus(a: nat, b: nat): nat { (a + b) % WORD }

  function Align64(n: nat): nat { Plus(n, 15) / 16 * 16 }

  lemma NoWrap(a: nat, b: nat)
    ensures a + b <= LIMIT ==> Plus(a, b) == a + b
    ensures a <= LIMIT ==> Align64(a) == Align16(a)
  {
  }

  /** The lowering's first walk, unchecked. */
  method Reserve(c: Call) returns (block: nat)
    requires c.Valid()
    ensures Reserved(c) <= LIMIT ==> block == Reserved(c)
  {
    hide Place, Align16, Plus, Align64, Reserved;
    var regs := Regs(0, 0);
    block := 0;
    ReservedIsWalk(c);
    var i := 0;
    while i < |c.args|
      invariant 0 <= i <= |c.args|
      invariant Reserved(c) <= LIMIT ==> Walk(c, i, regs, block, false) == Reserved(c)
    {
      if !c.Skips(i) {
        var p := Place(c.args[i], Reset(c, i, regs));
        WalkGrows(c, i + 1, p.regs, Grow(block, p.place), false);
        if p.place.OnStack? {
          if p.place.align == 16 {
            NoWrap(block, 0);
            block := Align64(block);
          }
          NoWrap(block, p.place.size);
          block := Plus(block, p.place.size);
        }
        regs := p.regs;
      }
      i := i + 1;
    }
  }

  /** One argument of the second walk. */
  lemma OneArgument(c: Call, i: nat, r: Regs, at: nat, block: nat)
    requires c.Valid() && i < |c.args|
    ensures var before := Reset(c, i, r);
            var p := Place(c.args[i], before);
            var next := block + Extra(c.args[i], p.place);
            if c.Skips(i) then
              && Walk(c, i, r, at, true) == Walk(c, i + 1, before, at, true)
              && Copied(c, i, r, block, true) == Copied(c, i + 1, before, block, true)
              && Slots(c, i, r, at) == Slots(c, i + 1, before, at)
              && Copies(c, i, r, block) == Copies(c, i + 1, before, block)
            else
              && Walk(c, i, r, at, true) == Walk(c, i + 1, p.regs, Grow(at, p.place), true) >= Grow(at, p.place)
              && Copied(c, i, r, block, true) == Copied(c, i + 1, p.regs, next, true) >= next
              && Slots(c, i, r, at) == (if p.place.OnStack? then [Area(Aligned(at, p.place.align), p.place.size)] else [])
                                       + Slots(c, i + 1, p.regs, Grow(at, p.place))
              && Copies(c, i, r, block) == (if c.args[i].Large() then [Area(block, c.args[i].Bytes())] else [])
                                           + Copies(c, i + 1, p.regs, next)
  {
    hide Place, Align16;
    var p := Place(c.args[i], Reset(c, i, r));
    WalkGrows(c, i + 1, p.regs, Grow(at, p.place), true);
    CopiedGrows(c, i + 1, p.regs, block + Extra(c.args[i], p.place), true);
  }

  lemma NoMoreArguments(c: Call, r: Regs, at: nat, block: nat)
    requires c.Valid()
    ensures Walk(c, |c.args|, r, at, true) == at && Copied(c, |c.args|, r, block, true) == block
    ensures Slots(c, |c.args|, r, at) == [] && Copies(c, |c.args|, r, block) == []
  {
  }

  /** The lowering after a passed preflight: no sum wraps, every argument gets the register
      or the stack place that the arguments in front of it leave, and the copies of large
      blocks follow one another above the stack arguments. */
  method LowerCall(c: Call) returns (homes: seq<Home>, slots: seq<Area>, copies: seq<Area>, adjust: nat)
    requires c.Valid() && End(c) <= LIMIT
    ensures !Skewed(c) ==>
            && slots == Slots(c, 0, Regs(0, 0), 0)
            && copies == Copies(c, 0, Regs(0, 0), Align16(Reserved(c)))
            && adjust == Adjustment(c)
    ensures !Skewed(c) ==>
            && |homes| == |c.args| && (forall i: nat :: i < |c.args| ==> homes[i] == HomeOf(c, i))
            && slots == SlotsBefore(c, |c.args|)
            && copies == CopiesBefore(c, |c.args|)
            && adjust == Align16(CopyEnd(c, |c.args|))
  {
    hide Place, Align16, Plus, Align64, Reserved, Placed, Skewed, Walk, Copied, Slots, Copies, Call.Skips, Counted,
         StackEnd, FloatingBefore, WordsBefore, CopyEnd, SlotsBefore, CopiesBefore, OutOfRegisters, ArgType.SlotSize, ArgType.General,
         HomeOf;
    ghost var start := Align16(Reserved(c));
    Bounds(c);
    var block: nat := Reserve(c);
    NoWrap(block, 0);
    block := Align64(block);
    homes, slots, copies := [], [], [];
    var stack: nat := 0;
    var regs := Regs(0, 0);
    PlacedIsWalk(c);
    CountedFirst(c);
    NoneBefore(c);
    var i := 0;
    while i < |c.args|
      invariant 0 <= i <= |c.args|
      invariant !Skewed(c) ==> Walk(c, i, regs, stack, true) == Placed(c)
      invariant !Skewed(c) ==> Copied(c, i, regs, block, true) == Copied(c, 0, Regs(0, 0), start, true)
      invariant !Skewed(c) ==> slots + Slots(c, i, regs, stack) == Slots(c, 0, Regs(0, 0), 0)
      invariant !Skewed(c) ==> copies + Copies(c, i, regs, block) == Copies(c, 0, Regs(0, 0), start)
      invariant Counted(c, i, regs) && |homes| == i
      invariant !Skewed(c) ==> stack == StackEnd(c, i)
      invariant !Skewed(c) ==> forall j: nat :: j < i ==> homes[j] == HomeOf(c, j)
    {
      var before := Reset(c, i, regs);
      OneArgument(c, i, regs, stack, block);
      PlaceCounts(c, i, regs);
      HomeFollows(c, i, before);
      if c.Skips(i) {
        homes := homes + [ReturnPointer];
        regs := before;
      } else {
        var p := Place(c.args[i], before);
        homes := homes + [HomeAt(c.args[i], before, p.place, stack)];
        if c.args[i].Large() {
          copies := copies + [Area(block, c.args[i].Bytes())];
        }
        if c.args[i].Large() || (c.args[i].Small() && p.place.OnStack?) {
          NoWrap(block, c.args[i].Bytes());
          block := Plus(block, c.args[i].Bytes());
        }
        if p.place.OnStack? {
          if p.place.align == 16 {
            NoWrap(stack, 0);
            stack := Align64(stack);
          }
          slots := slots + [Area(stack, p.place.size)];
          NoWrap(stack, p.place.size);
          stack := Plus(stack, p.place.size);
        }
        regs := p.regs;
      }
      i := i + 1;
    }
    NoMoreArguments(c, regs, stack, block);
    AreasCounted(c);
    NoWrap(block, 0);
    block := Align64(block);
    if block != 0 {
      stack := block;
    }
    NoWrap(stack, 0);
    adjust := if stack != 0 then Align64(stack) else 0;
    assert Align16(0) == 0;
  }

  /** The operand that replaces an argument. */
  function HomeAt(t: ArgType, r: Regs, w: Where, stack: nat): Home
  {
    if w.OnStack? then Memory(Area(Aligned(stack, w.align), w.size))
    else if t.Floating() then Vector(r.floats)
    else General(r.ints, t.General())
  }

  lemma HomeFollows(c: Call, i: nat, before: Regs)
    requires c.Valid() && i < |c.args|
    requires var p := Place(c.args[i], before);
             !c.Skips(i) ==>
             && p.place == (if OutOfRegisters(c, i) then OnStack(c.args[i].SlotSize(), if c.args[i].Wide? then 16 else 8) else InRegisters)
             && (!OutOfRegisters(c, i) ==> before.ints == WordsBefore(c, i) && before.floats == |FloatingBefore(c, i)|)
    ensures var p := Place(c.args[i], before);
            && (c.Skips(i) ==> HomeOf(c, i) == ReturnPointer && StackEnd(c, i + 1) == StackEnd(c, i))
            && (!c.Skips(i) ==> HomeOf(c, i) == HomeAt(c.args[i], before, p.place, StackEnd(c, i))
                                && StackEnd(c, i + 1) == Grow(StackEnd(c, i), p.place))
  {
    hide Place, OutOfRegisters, FloatingBefore, WordsBefore, Align16, ArgType.General;
  }

  lemma NoneBefore(c: Call)
    ensures StackEnd(c, 0) == 0
  {
  }

  lemma AreasCounted(c: Call)
    requires c.Valid()
    ensures !Skewed(c) ==>
            && Slots(c, 0, Regs(0, 0), 0) == SlotsBefore(c, |c.args|)
            && Copies(c, 0, Regs(0, 0), Align16(Reserved(c))) == CopiesBefore(c, |c.args|)
            && Adjustment(c) == Align16(CopyEnd(c, |c.args|))
  {
    if !Skewed(c) {
      AreaCounts(c);
    }
  }

  lemma PlacedIsWalk(c: Call)
    requires c.Valid()
    ensures Placed(c) == Walk(c, 0, Regs(0, 0), 0, true)
  {
  }

  /** What a passed preflight bounds. */
  lemma Bounds(c: Call)
    requires c.Valid() && End(c) <= LIMIT
    ensures Reserved(c) <= Align16(Reserved(c)) <= LIMIT
    ensures !Skewed(c) ==> Placed(c) <= LIMIT && Copied(c, 0, Regs(0, 0), Align16(Reserved(c)), true) <= End(c)
  {
    hide Walk, Copied, Place;
    CopiedGrows(c, 0, Regs(0, 0), Align16(Reserved(c)), false);
    PlacedIsReserved(c);
    if !Skewed(c) {
      SameCopies(c);
    }
  }

  const SKEW := Call([ReturnBlock, Integer, Block(24)], 0, true)

  lemma SkewSlots()
    ensures SKEW.Valid() && Slots(SKEW, 0, Regs(0, 0), 0) == [Area(0, 8), Area(8, 8)]
  {
    hide Copies, Walk, Copied;
    assert Slots(SKEW, 3, Regs(10, 8), 16) == [];
    assert Slots(SKEW, 2, Regs(9, 8), 8) == [Area(8, 8)];
    assert Slots(SKEW, 1, FULL, 0) == [Area(0, 8), Area(8, 8)];
  }

  lemma SkewReserved()
    ensures SKEW.Valid() && Reserved(SKEW) == 0
  {
    hide Copies, Slots, Copied;
    assert Walk(SKEW, 3, Regs(2, 0), 0, false) == 0;
    assert Walk(SKEW, 2, Regs(1, 0), 0, false) == 0;
    assert Walk(SKEW, 1, Regs(0, 0), 0, false) == 0;
  }

  lemma SkewCopies()
    ensures SKEW.Valid() && Copies(SKEW, 0, Regs(0, 0), 0) == [Area(0, 24)]
  {
    hide Slots, Walk, Copied;
    assert Copies(SKEW, 3, Regs(10, 8), 24) == [];
    assert Copies(SKEW, 2, Regs(9, 8), 0) == [Area(0, 24)];
    assert Copies(SKEW, 1, FULL, 0) == [Area(0, 24)];
  }

  /** IR verification lets no return block through as a variadic argument. */
  predicate Verified(c: Call)
  {
    forall i :: c.fixed <= i < |c.args| ==> !c.args[i].ReturnBlock?
  }

  /** What the two walks rely on is supplied by IR verification. */
  lemma VerifiedAgrees(c: Call)
    requires c.Valid() && Verified(c)
    ensures !Skewed(c) && Placed(c) == Reserved(c)
  {
    hide Walk;
    PlacedIsReserved(c);
  }

  /** Without it stack arguments could lie inside the copy of a block: a skipped first
      argument, then an integer and a block of three words. */
  lemma SkewOverlaps()
    ensures SKEW.Valid() && Skewed(SKEW) && !Verified(SKEW)
    ensures Slots(SKEW, 0, Regs(0, 0), 0) == [Area(0, 8), Area(8, 8)]
    ensures Copies(SKEW, 0, Regs(0, 0), Align16(Reserved(SKEW))) == [Area(0, 24)]
  {
    hide Slots, Walk, Copied, Copies;
    assert SKEW.args[0].ReturnBlock?;
    SkewSlots();
    SkewReserved();
    SkewCopies();
  }
}
