/** Stack frames for AArch64: header, spill slots, saved registers and the variadic save
    area, and the epilogue that undoes them. */
module AArch64Frame {
  import opened Alignment
  import opened Finite
  import opened FrameMachine

  const SP: nat := 31
  const FP: nat := 29
  const LINK: nat := 30
  const OTHER: nat := 9
  const INT32_MAX: nat := 0x7FFF_FFFF
  const SAVE_AREA: nat := 192

  datatype Input = Input(linux: bool, stackBytes: nat, aggregate: nat, saved: seq<nat>, leaf: bool, usesAlloca: bool,
                         blockArguments: bool, variadic: bool, jumpReturn: bool, hasReturn: bool)
  {
    /** Registers 0 to 31 are integer registers, 32 to 63 vectors. Frame, link and stack
        pointer and the two temporaries are not allocated. */
    ghost predicate Valid()
    {
      && (forall i: nat :: i < |saved| ==> saved[i] < 64 && saved[i] !in {OTHER, SCRATCH, FP, LINK, SP})
      && (forall i: nat, j: nat :: i < j < |saved| ==> saved[i] != saved[j])
    }
  }

  datatype Plan = Plan(frame: nat, saves: seq<Save>, prologue: seq<Instr>, epilogue: seq<Instr>)

  datatype Result = Ok(plan: Plan) | TooLarge

  function Size(r: nat): (n: nat)
    ensures n == 8 || n == 16
  {
    if r < 32 then 8 else 16
  }

  /** Where a register goes next: vectors at multiples of 16. */
  function At(r: nat, offset: nat): (n: nat)
    ensures n >= offset
  {
    if r >= 32 then Align16(offset) else offset
  }

  function Places(saved: seq<nat>, offset: nat): seq<Save>
    decreases |saved|
  {
    if saved == [] then []
    else
      var at := At(saved[0], offset);
      [Save(saved[0], at, Size(saved[0]))] + Places(saved[1..], at + Size(saved[0]))
  }

  function PlacesEnd(saved: seq<nat>, offset: nat): (n: nat)
    ensures n >= offset
    decreases |saved|
  {
    if saved == [] then offset else PlacesEnd(saved[1..], At(saved[0], offset) + Size(saved[0]))
  }

  // ----- layout -----

  predicate Exceeds(in_: Input)
  {
    in_.stackBytes > INT32_MAX - 4096 || in_.aggregate > INT32_MAX - 4096 || in_.stackBytes > INT32_MAX - 4096 - in_.aggregate
  }

  predicate Frameless(in_: Input)
  {
    in_.leaf && !in_.usesAlloca && in_.saved == [] && !in_.variadic && in_.stackBytes == 0 && !in_.blockArguments && in_.aggregate == 0
  }

  predicate KeepsStack(in_: Input)
  {
    in_.variadic || in_.blockArguments
  }

  predicate HasArea(in_: Input)
  {
    in_.linux && in_.variadic
  }

  /** What spill slots stand above: frame pointer and link, and the caller's stack pointer. */
  function Header(in_: Input): nat
  {
    if KeepsStack(in_) then 32 else 16
  }

  function AreaBytes(in_: Input): nat
  {
    if HasArea(in_) then SAVE_AREA else 0
  }

  /** Room from the first save to the end of the frame. */
  function SavedEnd(in_: Input): nat
  {
    Align16(PlacesEnd(in_.saved, AreaBytes(in_)))
  }

  function Frame(in_: Input): nat
  {
    Align16(SavedEnd(in_) + in_.stackBytes) + Header(in_)
  }

  function FirstSave(in_: Input): nat
  {
    Frame(in_) - SavedEnd(in_)
  }

  function SavesOf(in_: Input): seq<Save>
  {
    Places(in_.saved, FirstSave(in_))
  }

  // ----- code -----

  function Drop(frame: nat): seq<Instr>
  {
    if frame >= 4096 then [Imm(SCRATCH, frame), SubReg(SP, SP, SCRATCH)] else [Add(SP, SP, 0 - frame)]
  }

  function HeadCode(in_: Input, frame: nat): seq<Instr>
  {
    (if KeepsStack(in_) then [Mov(OTHER, SP)] else [])
    + Drop(frame)
    + (if KeepsStack(in_) then [Store(SP, 16, OTHER, 8)] else [])
    + (if in_.jumpReturn then [] else [Store(SP, 8, LINK, 8)])
    + [Store(SP, 0, FP, 8), Mov(FP, SP)]
  }

  function AreaVectors(start: nat, n: nat): seq<Save>
    decreases n
  {
    if n == 0 then [] else AreaVectors(start, n - 1) + [Save(32 + (n - 1), start + 16 * (n - 1), 16)]
  }

  function AreaIntegers(start: nat, n: nat): seq<Save>
    decreases n
  {
    if n == 0 then [] else AreaIntegers(start, n - 1) + [Save(n - 1, start + 128 + 8 * (n - 1), 8)]
  }

  function AreaSaves(start: nat): seq<Save>
  {
    AreaVectors(start, 8) + AreaIntegers(start, 8)
  }

  /** Offsets too large for an address take another base register, which holds the offset
      alone. */
  predicate FarArea(frame: nat)
  {
    frame >= SAVE_AREA && frame - SAVE_AREA + 184 >= 4096
  }

  function AreaCode(in_: Input, frame: nat): seq<Instr>
  {
    if !HasArea(in_) || frame < SAVE_AREA then []
    else if FarArea(frame) then [Imm(OTHER, frame - SAVE_AREA)] + SavesCode(true, AreaSaves(0), OTHER)
    else SavesCode(true, AreaSaves(frame - SAVE_AREA), SP)
  }

  function LeaveCode(in_: Input, frame: nat): seq<Instr>
  {
    (if in_.jumpReturn then [] else [Load(LINK, FP, 8, 8)])
    + [Mov(SCRATCH, FP), Load(FP, FP, 0, 8)]
    + (if frame >= 4096 then [Imm(OTHER, frame), AddReg(SP, SCRATCH, OTHER)] else [Add(SP, SCRATCH, frame)])
  }

  function PlanOf(in_: Input): Plan
  {
    if Frameless(in_) then Plan(0, [], [], [])
    else
      var frame := Frame(in_);
      var saves := SavesOf(in_);
      Plan(frame, saves,
           HeadCode(in_, frame) + AreaCode(in_, frame) + SavesCode(true, saves, FP)
           + (if in_.aggregate != 0 then [Add(SP, SP, 0 - Align16(in_.aggregate))] else []),
           if in_.hasReturn then RestoresCode(true, saves, FP) + LeaveCode(in_, frame) else [])
  }

  // ----- places -----

  /** Ascending and apart, between two offsets. */
  ghost predicate Ascending(saves: seq<Save>, low: nat, high: nat)
  {
    && low <= high
    && (forall i: nat :: i < |saves| ==> low <= saves[i].offset && saves[i].offset + saves[i].size <= high && saves[i].size == Size(saves[i].reg))
    && (forall i: nat, j: nat :: i < j < |saves| ==> Disjoint(saves[i], saves[j]))
  }

  lemma {:induction false} PlacesAscend(saved: seq<nat>, offset: nat)
    ensures Ascending(Places(saved, offset), offset, PlacesEnd(saved, offset))
    ensures |Places(saved, offset)| == |saved| && forall i: nat :: i < |saved| ==> Places(saved, offset)[i].reg == saved[i]
    decreases |saved|
  {
    hide Align16;
    if saved != [] {
      var at := At(saved[0], offset);
      PlacesAscend(saved[1..], at + Size(saved[0]));
      AscendCons(Save(saved[0], at, Size(saved[0])), Places(saved[1..], at + Size(saved[0])), offset, at + Size(saved[0]), PlacesEnd(saved, offset));
    }
  }

  lemma AscendCons(s: Save, saves: seq<Save>, low: nat, mid: nat, high: nat)
    requires Ascending(saves, mid, high) && low <= s.offset && s.offset + s.size <= mid && s.size == Size(s.reg)
    ensures Ascending([s] + saves, low, high)
  {
    var all := [s] + saves;
    forall i: nat | i < |all| ensures low <= all[i].offset && all[i].offset + all[i].size <= high && all[i].size == Size(all[i].reg) {
      assert i > 0 ==> all[i] == saves[i - 1];
    }
    forall i: nat, j: nat | i < j < |all| ensures Disjoint(all[i], all[j]) {
      assert all[j] == saves[j - 1];
      assert i > 0 ==> all[i] == saves[i - 1];
    }
  }

  /** Moving the first place by a multiple of 16 moves every place by as much. */
  lemma {:induction false} PlacesShift(saved: seq<nat>, offset: nat, shift: nat)
    requires shift % 16 == 0
    ensures PlacesEnd(saved, offset + shift) == PlacesEnd(saved, offset) + shift
    decreases |saved|
  {
    if saved != [] {
      AlignShift(offset, shift);
      PlacesShift(saved[1..], At(saved[0], offset) + Size(saved[0]), shift);
      hide Align16;
      assert At(saved[0], offset + shift) == At(saved[0], offset) + shift;
    }
  }

  lemma AlignShift(n: nat, shift: nat)
    requires shift % 16 == 0
    ensures Align16(n + shift) == Align16(n) + shift
  {
  }

  lemma {:induction false} VectorPlaces(saved: seq<nat>, offset: nat)
    ensures forall i: nat :: i < |Places(saved, offset)| && Places(saved, offset)[i].size == 16 ==> Places(saved, offset)[i].offset % 16 == 0
    decreases |saved|
  {
    hide Align16;
    if saved != [] {
      VectorPlaces(saved[1..], At(saved[0], offset) + Size(saved[0]));
    }
  }

  lemma Multiples(in_: Input)
    ensures Frame(in_) % 16 == 0 && FirstSave(in_) % 16 == 0 && Header(in_) + in_.stackBytes <= FirstSave(in_)
    ensures SavedEnd(in_) % 16 == 0 && AreaBytes(in_) % 16 == 0
  {
    hide PlacesEnd;
  }

  lemma SavesEnd(in_: Input)
    ensures PlacesEnd(in_.saved, FirstSave(in_)) + AreaBytes(in_) <= Frame(in_)
  {
    Multiples(in_);
    var area, first := AreaBytes(in_), FirstSave(in_);
    PlacesShift(in_.saved, 0, area);
    PlacesShift(in_.saved, 0, first);
    hide PlacesEnd, Align16, AreaBytes, Header;
  }

  /** Header, spill slots, saves and variadic area follow one another in the frame; vectors
      are aligned when the stack is. */
  lemma Layout(in_: Input)
    ensures Frame(in_) % 16 == 0 && FirstSave(in_) % 16 == 0
    ensures Header(in_) + in_.stackBytes <= FirstSave(in_)
    ensures Frame(in_) >= AreaBytes(in_) && Ascending(SavesOf(in_), FirstSave(in_), Frame(in_) - AreaBytes(in_))
    ensures forall i: nat :: i < |SavesOf(in_)| ==>
              if SavesOf(in_)[i].reg < 32 then SavesOf(in_)[i].size == 8 else SavesOf(in_)[i].size == 16 && SavesOf(in_)[i].offset % 16 == 0
  {
    hide FirstSave, Frame, Places, PlacesEnd, AreaBytes;
    var first := FirstSave(in_);
    Multiples(in_);
    SavesEnd(in_);
    PlacesAscend(in_.saved, first);
    VectorPlaces(in_.saved, first);
    Widen(SavesOf(in_), first, PlacesEnd(in_.saved, first), Frame(in_) - AreaBytes(in_));
  }

  lemma {:induction false} PlacesBound(saved: seq<nat>, offset: nat)
    ensures PlacesEnd(saved, offset) <= offset + 31 * |saved|
    decreases |saved|
  {
    if saved != [] {
      PlacesBound(saved[1..], At(saved[0], offset) + Size(saved[0]));
    }
  }

  /** Offsets in an accepted frame, and the room below it, fit 32 bits with their sign. */
  lemma FrameInRange(in_: Input)
    requires in_.Valid() && !Exceeds(in_)
    ensures Frame(in_) + Align16(in_.aggregate) <= 0x7FFF_FFFF
  {
    hide PlacesEnd, Align16;
    DistinctSize(in_.saved);
    AtMost(Elements(in_.saved), 64);
    PlacesBound(in_.saved, AreaBytes(in_));
    Align16Bound(PlacesEnd(in_.saved, AreaBytes(in_)));
    Align16Bound(SavedEnd(in_) + in_.stackBytes);
    Align16Bound(in_.aggregate);
  }

  lemma Align16Bound(n: nat)
    ensures Align16(n) <= n + 15
  {
  }

  lemma Widen(saves: seq<Save>, low: nat, mid: nat, high: nat)
    requires Ascending(saves, low, mid) && mid <= high
    ensures Ascending(saves, low, high)
  {
  }

  // ----- entering -----

  lemma DropEffect(frame: nat, s: State)
    ensures var t := Exec(Drop(frame), s);
            t.mem == s.mem && t.regs(SP) == s.regs(SP) - frame && forall r: nat :: r != SP && r != SCRATCH ==> t.regs(r) == s.regs(r)
  {
    if frame >= 4096 {
      assert Drop(frame) == [Imm(SCRATCH, frame)] + [SubReg(SP, SP, SCRATCH)];
      ExecOne(Imm(SCRATCH, frame), s);
      ExecThen([Imm(SCRATCH, frame)], SubReg(SP, SP, SCRATCH), s);
    } else {
      ExecOne(Add(SP, SP, 0 - frame), s);
    }
  }

  lemma StoreEffect(cond: bool, disp: int, src: nat, s: State)
    ensures var t := Exec(if cond then [Store(SP, disp, src, 8)] else [], s);
            && t.regs == s.regs
            && (cond ==> Read(t.mem, s.regs(SP) + disp, 8) == s.regs(src))
            && (forall a :: !(cond && s.regs(SP) + disp <= a < s.regs(SP) + disp + 8) ==> t.mem(a) == s.mem(a))
  {
    hide Read;
    if cond {
      ExecOne(Store(SP, disp, src, 8), s);
      ReadWritten(s.mem, s.regs(SP) + disp, 8, s.regs(src));
    }
  }

  /** The frame as the header alone sets it up. */
  ghost predicate Headed(in_: Input, frame: nat, s0: State, s: State)
  {
    var sp := s0.regs(SP) - frame;
    && s.regs(SP) == sp && s.regs(FP) == sp
    && Read(s.mem, sp, 8) == s0.regs(FP)
    && (!in_.jumpReturn ==> Read(s.mem, sp + 8, 8) == s0.regs(LINK))
    && (KeepsStack(in_) ==> Read(s.mem, sp + 16, 8) == s0.regs(SP))
    && (forall r: nat :: r !in {OTHER, SCRATCH, FP, SP} ==> s.regs(r) == s0.regs(r))
  }

  lemma {:induction false} ExecFour(a: seq<Instr>, b: seq<Instr>, c: seq<Instr>, d: seq<Instr>, s: State)
    ensures Exec(a + b + c + d, s) == Exec(d, Exec(c, Exec(b, Exec(a, s))))
  {
    hide Exec;
    ExecJoin(a + b + c, d, s);
    ExecJoin(a + b, c, s);
    ExecJoin(a, b, s);
  }

  function HeaderStores(in_: Input): seq<Instr>
  {
    (if KeepsStack(in_) then [Store(SP, 16, OTHER, 8)] else [])
    + (if !in_.jumpReturn then [Store(SP, 8, LINK, 8)] else [])
    + [Store(SP, 0, FP, 8)]
  }

  /** The header words do not overlap. */
  lemma HeaderStored(in_: Input, s: State)
    ensures var t := Exec(HeaderStores(in_), s);
            && t.regs == s.regs
            && Read(t.mem, s.regs(SP), 8) == s.regs(FP)
            && (!in_.jumpReturn ==> Read(t.mem, s.regs(SP) + 8, 8) == s.regs(LINK))
            && (KeepsStack(in_) ==> Read(t.mem, s.regs(SP) + 16, 8) == s.regs(OTHER))
            && (forall a :: !(s.regs(SP) <= a < s.regs(SP) + Header(in_)) ==> t.mem(a) == s.mem(a))
  {
    hide Exec, Read;
    var store := if KeepsStack(in_) then [Store(SP, 16, OTHER, 8)] else [];
    var link := if !in_.jumpReturn then [Store(SP, 8, LINK, 8)] else [];
    ExecJoin(store + link, [Store(SP, 0, FP, 8)], s);
    ExecJoin(store, link, s);
    StoreEffect(KeepsStack(in_), 16, OTHER, s);
    var c := Exec(store, s);
    StoreEffect(!in_.jumpReturn, 8, LINK, c);
    var d := Exec(link, c);
    StoreEffect(true, 0, FP, d);
    var e := Exec([Store(SP, 0, FP, 8)], d);
    var sp := s.regs(SP);
    ReadSame(c.mem, d.mem, sp + 16, 8);
    ReadSame(d.mem, e.mem, sp + 16, 8);
    ReadSame(d.mem, e.mem, sp + 8, 8);
  }

  lemma HeadEffect(in_: Input, frame: nat, s0: State)
    ensures Headed(in_, frame, s0, Exec(HeadCode(in_, frame), s0))
    ensures forall a :: !(s0.regs(SP) - frame <= a < s0.regs(SP) - frame + Header(in_)) ==> Exec(HeadCode(in_, frame), s0).mem(a) == s0.mem(a)
  {
    hide Exec, Read, Write, Drop, HeaderStores;
    var keep := if KeepsStack(in_) then [Mov(OTHER, SP)] else [];
    HeadParts(in_, frame);
    ExecFour(keep, Drop(frame), HeaderStores(in_), [Mov(FP, SP)], s0);
    ExecOne(Mov(OTHER, SP), s0);
    NoCode(s0);
    var a := Exec(keep, s0);
    DropEffect(frame, a);
    var b := Exec(Drop(frame), a);
    HeaderStored(in_, b);
    ExecOne(Mov(FP, SP), Exec(HeaderStores(in_), b));
  }

  lemma HeadParts(in_: Input, frame: nat)
    ensures HeadCode(in_, frame) == (if KeepsStack(in_) then [Mov(OTHER, SP)] else []) + Drop(frame) + HeaderStores(in_) + [Mov(FP, SP)]
  {
    hide Drop;
    assert [Store(SP, 0, FP, 8), Mov(FP, SP)] == [Store(SP, 0, FP, 8)] + [Mov(FP, SP)];
  }

  // ----- the variadic area -----

  lemma {:induction false} VectorArea(start: nat, n: nat)
    ensures |AreaVectors(start, n)| == n
    ensures forall i: nat :: i < n ==> AreaVectors(start, n)[i] == Save(32 + i, start + 16 * i, 16)
    decreases n
  {
    if n > 0 {
      VectorArea(start, n - 1);
    }
  }

  lemma {:induction false} IntegerArea(start: nat, n: nat)
    ensures |AreaIntegers(start, n)| == n
    ensures forall i: nat :: i < n ==> AreaIntegers(start, n)[i] == Save(i, start + 128 + 8 * i, 8)
    decreases n
  {
    if n > 0 {
      IntegerArea(start, n - 1);
    }
  }

  lemma AreaIs(start: nat)
    ensures |AreaSaves(start)| == 16
    ensures forall i: nat :: i < 8 ==> AreaSaves(start)[i] == Save(32 + i, start + 16 * i, 16)
    ensures forall i: nat :: 8 <= i < 16 ==> AreaSaves(start)[i] == Save(i - 8, start + 128 + 8 * (i - 8), 8)
  {
    hide AreaVectors, AreaIntegers;
    VectorArea(start, 8);
    IntegerArea(start, 8);
  }

  lemma AreaApart(start: nat, base: nat)
    requires base == SP || base == OTHER
    ensures Apart(AreaSaves(start), base)
    ensures forall i: nat, a, b: int :: i < 16 && Inside(a, AreaSaves(start)[i], b) ==> b + start <= a < b + start + SAVE_AREA
  {
    hide AreaSaves;
    AreaIs(start);
  }

  /** Where the code really puts the argument registers. */
  function AreaBase(in_: Input, s0: State): int
  {
    if FarArea(Frame(in_)) then Frame(in_) - SAVE_AREA else s0.regs(SP) - SAVE_AREA
  }

  lemma AreaEffect(in_: Input, s0: State, s: State)
    requires HasArea(in_) && Frame(in_) >= SAVE_AREA && s.regs(SP) == s0.regs(SP) - Frame(in_)
    ensures var t := Exec(AreaCode(in_, Frame(in_)), s);
            && (forall r: nat :: r != SCRATCH && r != OTHER ==> t.regs(r) == s.regs(r))
            && (forall a :: !(AreaBase(in_, s0) <= a < AreaBase(in_, s0) + SAVE_AREA) ==> t.mem(a) == s.mem(a))
            && Holding(AreaSaves(0), t.mem, AreaBase(in_, s0), s.regs)
  {
    hide Exec, Read, Frame, AreaSaves, SavesCode;
    var frame := Frame(in_);
    if FarArea(frame) {
      ExecJoin([Imm(OTHER, frame - SAVE_AREA)], SavesCode(true, AreaSaves(0), OTHER), s);
      ExecOne(Imm(OTHER, frame - SAVE_AREA), s);
      var u := Step(Imm(OTHER, frame - SAVE_AREA), s);
      AreaApart(0, OTHER);
      AreaIs(0);
      SaveAll(true, AreaSaves(0), OTHER, u);
      AreaHolds(AreaSaves(0), Exec(SavesCode(true, AreaSaves(0), OTHER), u).mem, frame - SAVE_AREA, u.regs, s.regs);
    } else {
      var start := frame - SAVE_AREA;
      AreaApart(start, SP);
      AreaIs(0);
      AreaIs(start);
      SaveAll(true, AreaSaves(start), SP, s);
      Rebase(start, Exec(SavesCode(true, AreaSaves(start), SP), s).mem, s.regs(SP), s.regs);
    }
  }

  lemma AreaHolds(saves: seq<Save>, mem: int -> (int, int), base: int, regs: nat -> int, others: nat -> int)
    requires Holding(saves, mem, base, regs) && forall i: nat :: i < |saves| ==> regs(saves[i].reg) == others(saves[i].reg)
    ensures Holding(saves, mem, base, others)
  {
    hide Read;
  }

  lemma Rebase(start: nat, mem: int -> (int, int), base: int, regs: nat -> int)
    requires Holding(AreaSaves(start), mem, base, regs)
    ensures Holding(AreaSaves(0), mem, base + start, regs)
  {
    hide Read, AreaSaves;
    AreaIs(0);
    AreaIs(start);
    forall i: nat | i < 16 ensures Read(mem, base + start + AreaSaves(0)[i].offset, AreaSaves(0)[i].size) == regs(AreaSaves(0)[i].reg) {
      assert base + start + AreaSaves(0)[i].offset == base + AreaSaves(start)[i].offset;
      assert AreaSaves(0)[i].size == AreaSaves(start)[i].size && AreaSaves(0)[i].reg == AreaSaves(start)[i].reg;
    }
  }

  // ----- the whole prologue -----

  /** The frame after the header and the variadic area, before the saves. */
  function Opening(in_: Input): seq<Instr>
  {
    HeadCode(in_, Frame(in_)) + AreaCode(in_, Frame(in_))
  }

  /** The argument registers of a variadic function do not go over the header. */
  predicate HeaderSpared(in_: Input, s0: State)
  {
    var sp := s0.regs(SP) - Frame(in_);
    HasArea(in_) ==> AreaBase(in_, s0) + SAVE_AREA <= sp || sp + Header(in_) <= AreaBase(in_, s0)
  }

  lemma OpeningEffect(in_: Input, s0: State)
    requires HeaderSpared(in_, s0)
    ensures Headed(in_, Frame(in_), s0, Exec(Opening(in_), s0))
    ensures HasArea(in_) ==> Holding(AreaSaves(0), Exec(Opening(in_), s0).mem, AreaBase(in_, s0), s0.regs)
    ensures forall a :: !(s0.regs(SP) - Frame(in_) <= a < s0.regs(SP) - Frame(in_) + Header(in_))
                        && !(HasArea(in_) && AreaBase(in_, s0) <= a < AreaBase(in_, s0) + SAVE_AREA)
                        ==> Exec(Opening(in_), s0).mem(a) == s0.mem(a)
  {
    hide Exec, Read, Frame, AreaSaves, AreaCode, HeadCode, AreaBase, Holding;
    var frame := Frame(in_);
    ExecJoin(HeadCode(in_, frame), AreaCode(in_, frame), s0);
    HeadEffect(in_, frame, s0);
    var a := Exec(HeadCode(in_, frame), s0);
    var sp := s0.regs(SP) - frame;
    if HasArea(in_) {
      RoomForArea(in_);
      AreaEffect(in_, s0, a);
      var b := Exec(AreaCode(in_, frame), a);
      ReadSame(a.mem, b.mem, sp, 8);
      ReadSame(a.mem, b.mem, sp + 8, 8);
      ReadSame(a.mem, b.mem, sp + 16, 8);
      AreaRegisters();
      AreaHolds(AreaSaves(0), b.mem, AreaBase(in_, s0), a.regs, s0.regs);
    } else {
      NoArea(in_, frame);
      NoCode(a);
    }
  }

  lemma NoArea(in_: Input, frame: nat)
    requires !HasArea(in_)
    ensures AreaCode(in_, frame) == []
  {
  }

  lemma AreaRegisters()
    ensures forall i: nat :: i < |AreaSaves(0)| ==> AreaSaves(0)[i].reg !in {OTHER, SCRATCH, FP, SP}
  {
    AreaIs(0);
  }

  lemma RoomForArea(in_: Input)
    requires HasArea(in_)
    ensures Frame(in_) >= SAVE_AREA
  {
    Layout(in_);
  }

  lemma SavesApart(in_: Input)
    requires in_.Valid()
    ensures Apart(SavesOf(in_), FP) && Apart(SavesOf(in_), SP) && Apart(SavesOf(in_), LINK)
    ensures |SavesOf(in_)| == |in_.saved| && forall i: nat :: i < |in_.saved| ==> SavesOf(in_)[i].reg == in_.saved[i]
  {
    hide Places, PlacesEnd, Frame, FirstSave;
    PlacesAscend(in_.saved, FirstSave(in_));
  }

  function Closing(in_: Input): seq<Instr>
  {
    if in_.aggregate != 0 then [Add(SP, SP, 0 - Align16(in_.aggregate))] else []
  }

  lemma PrologueParts(in_: Input, s0: State)
    requires !Frameless(in_)
    ensures PlanOf(in_).frame == Frame(in_) && PlanOf(in_).saves == SavesOf(in_)
    ensures Exec(PlanOf(in_).prologue, s0) == Exec(Closing(in_), Exec(SavesCode(true, SavesOf(in_), FP), Exec(Opening(in_), s0)))
  {
    hide Exec, Frame, HeadCode, AreaCode, SavesCode, SavesOf, Align16;
    ExecJoin(Opening(in_) + SavesCode(true, SavesOf(in_), FP), Closing(in_), s0);
    ExecJoin(Opening(in_), SavesCode(true, SavesOf(in_), FP), s0);
  }

  lemma ClosingEffect(in_: Input, s: State)
    ensures var t := Exec(Closing(in_), s); t.mem == s.mem && forall r: nat :: r != SP ==> t.regs(r) == s.regs(r)
  {
    hide Exec;
    ExecOne(Add(SP, SP, 0 - Align16(in_.aggregate)), s);
    NoCode(s);
  }

  /** What the body finds through the frame pointer. */
  ghost predicate Framed(in_: Input, s0: State, s: State)
  {
    var sp := s0.regs(SP) - Frame(in_);
    && s.regs(FP) == sp
    && Read(s.mem, sp, 8) == s0.regs(FP)
    && (!in_.jumpReturn ==> Read(s.mem, sp + 8, 8) == s0.regs(LINK))
    && (KeepsStack(in_) ==> Read(s.mem, sp + 16, 8) == s0.regs(SP))
    && Holding(SavesOf(in_), s.mem, sp, s0.regs)
  }

  /** The saves leave header and area alone. */
  lemma SavesEffect(in_: Input, s0: State, b: State)
    requires in_.Valid() && Headed(in_, Frame(in_), s0, b)
    ensures var c := Exec(SavesCode(true, SavesOf(in_), FP), b);
            && Framed(in_, s0, c)
            && forall a :: !(s0.regs(SP) - Frame(in_) + FirstSave(in_) <= a < s0.regs(SP) - AreaBytes(in_)) ==> c.mem(a) == b.mem(a)
  {
    hide Exec, Read, Frame, FirstSave, SavesOf, SavesCode, Holding, AreaBytes, Apart;
    var saves, sp := SavesOf(in_), s0.regs(SP) - Frame(in_);
    SavesApart(in_);
    SaveAll(true, saves, FP, b);
    var c := Exec(SavesCode(true, saves, FP), b);
    Layout(in_);
    OutsideSaves(in_, sp);
    ReadSame(b.mem, c.mem, sp, 8);
    ReadSame(b.mem, c.mem, sp + 8, 8);
    if KeepsStack(in_) {
      ReadSame(b.mem, c.mem, sp + 16, 8);
    }
    AreaHolds(saves, c.mem, sp, b.regs, s0.regs);
  }

  lemma OutsideSaves(in_: Input, sp: int)
    ensures FirstSave(in_) >= Header(in_)
    ensures forall a, i: nat :: !(sp + FirstSave(in_) <= a < sp + Frame(in_) - AreaBytes(in_)) && i < |SavesOf(in_)| ==> !Inside(a, SavesOf(in_)[i], sp)
  {
    hide Frame, FirstSave, SavesOf, AreaBytes;
    Layout(in_);
  }

  /** After the prologue every register the epilogue needs is in the frame. */
  lemma PrologueSaves(in_: Input, s0: State)
    requires in_.Valid() && !Frameless(in_) && HeaderSpared(in_, s0)
    ensures Framed(in_, s0, Exec(PlanOf(in_).prologue, s0))
    ensures Exec(PlanOf(in_).prologue, s0).regs(SP) == s0.regs(SP) - Frame(in_) - (in_.aggregate + 15) / 16 * 16
  {
    ClosingDrops(in_, Exec(SavesCode(true, SavesOf(in_), FP), Exec(Opening(in_), s0)));
    KeepsStackPointer(in_, Exec(Opening(in_), s0));
    HeadedStack(in_, s0, Exec(Opening(in_), s0));
    hide Exec, Read, Frame, SavesOf, SavesCode, Opening, Closing, PlanOf, HeaderSpared, Headed, Holding, Input.Valid;
    PrologueParts(in_, s0);
    OpeningEffect(in_, s0);
    var b := Exec(Opening(in_), s0);
    SavesEffect(in_, s0, b);
    ClosingEffect(in_, Exec(SavesCode(true, SavesOf(in_), FP), b));
  }

  lemma ClosingDrops(in_: Input, s: State)
    ensures Exec(Closing(in_), s).regs(SP) == s.regs(SP) - (in_.aggregate + 15) / 16 * 16
  {
    hide Exec;
    ExecOne(Add(SP, SP, 0 - Align16(in_.aggregate)), s);
    NoCode(s);
  }

  lemma HeadedStack(in_: Input, s0: State, s: State)
    ensures Headed(in_, Frame(in_), s0, s) ==> s.regs(SP) == s0.regs(SP) - Frame(in_)
  {
  }

  lemma KeepsStackPointer(in_: Input, b: State)
    requires in_.Valid()
    ensures Exec(SavesCode(true, SavesOf(in_), FP), b).regs(SP) == b.regs(SP)
  {
    hide Exec, Read, SavesOf, SavesCode, Holding;
    SavesApart(in_);
    SaveAll(true, SavesOf(in_), FP, b);
  }

  // ----- leaving -----

  /** What the body of a function leaves alone: the frame pointer, the header, the saves. */
  ghost predicate Respects(in_: Input, s0: State, s1: State, s2: State)
  {
    if Frameless(in_) then
      s2.regs(SP) == s1.regs(SP) && s2.regs(FP) == s1.regs(FP) && s2.regs(LINK) == s1.regs(LINK)
    else
      var sp := s0.regs(SP) - Frame(in_);
      && s2.regs(FP) == s1.regs(FP)
      && (forall a :: sp <= a < sp + Header(in_) ==> s2.mem(a) == s1.mem(a))
      && (forall a :: sp + FirstSave(in_) <= a < s0.regs(SP) - AreaBytes(in_) ==> s2.mem(a) == s1.mem(a))
  }

  lemma StillFramed(in_: Input, s0: State, s1: State, s2: State)
    requires in_.Valid() && Framed(in_, s0, s1) && !Frameless(in_) && Respects(in_, s0, s1, s2)
    ensures Framed(in_, s0, s2)
  {
    hide Read, Frame, FirstSave, SavesOf, AreaBytes, Frameless, Input.Valid;
    var sp, saves := s0.regs(SP) - Frame(in_), SavesOf(in_);
    ReadSame(s1.mem, s2.mem, sp, 8);
    ReadSame(s1.mem, s2.mem, sp + 8, 8);
    if KeepsStack(in_) {
      ReadSame(s1.mem, s2.mem, sp + 16, 8);
    }
    Layout(in_);
    SavesApart(in_);
    forall i: nat | i < |saves| ensures Read(s2.mem, sp + saves[i].offset, saves[i].size) == s0.regs(saves[i].reg) {
      ReadSame(s1.mem, s2.mem, sp + saves[i].offset, saves[i].size);
    }
  }

  lemma RaiseEffect(frame: nat, s: State)
    ensures var t := Exec(if frame >= 4096 then [Imm(OTHER, frame), AddReg(SP, SCRATCH, OTHER)] else [Add(SP, SCRATCH, frame)], s);
            t.mem == s.mem && t.regs(SP) == s.regs(SCRATCH) + frame && forall r: nat :: r != SP && r != OTHER ==> t.regs(r) == s.regs(r)
  {
    if frame >= 4096 {
      assert [Imm(OTHER, frame), AddReg(SP, SCRATCH, OTHER)] == [Imm(OTHER, frame)] + [AddReg(SP, SCRATCH, OTHER)];
      ExecOne(Imm(OTHER, frame), s);
      ExecThen([Imm(OTHER, frame)], AddReg(SP, SCRATCH, OTHER), s);
    } else {
      ExecOne(Add(SP, SCRATCH, frame), s);
    }
  }

  lemma LeaveEffect(in_: Input, frame: nat, s: State)
    ensures var t := Exec(LeaveCode(in_, frame), s);
            && t.regs(SP) == s.regs(FP) + frame
            && t.regs(FP) == Read(s.mem, s.regs(FP), 8)
            && (!in_.jumpReturn ==> t.regs(LINK) == Read(s.mem, s.regs(FP) + 8, 8))
            && forall r: nat :: r !in {OTHER, SCRATCH, SP, FP, LINK} ==> t.regs(r) == s.regs(r)
  {
    hide Exec, Read;
    var link := if in_.jumpReturn then [] else [Load(LINK, FP, 8, 8)];
    var move := [Mov(SCRATCH, FP), Load(FP, FP, 0, 8)];
    var raise := if frame >= 4096 then [Imm(OTHER, frame), AddReg(SP, SCRATCH, OTHER)] else [Add(SP, SCRATCH, frame)];
    ExecJoin(link + move, raise, s);
    ExecJoin(link, move, s);
    ExecOne(Load(LINK, FP, 8, 8), s);
    NoCode(s);
    var a := Exec(link, s);
    assert move == [Mov(SCRATCH, FP)] + [Load(FP, FP, 0, 8)];
    ExecOne(Mov(SCRATCH, FP), a);
    ExecThen([Mov(SCRATCH, FP)], Load(FP, FP, 0, 8), a);
    var b := Step(Mov(SCRATCH, FP), a);
    assert Exec(move, a) == Step(Load(FP, FP, 0, 8), b);
    assert LeaveCode(in_, frame) == link + move + raise;
    RaiseEffect(frame, Exec(move, a));
    var c := Exec(move, a);
    var t := Exec(raise, c);
    assert t == Exec(LeaveCode(in_, frame), s);
    assert forall r: nat :: r != SP && r != OTHER ==> t.regs(r) == c.regs(r);
    assert forall r: nat :: r != FP ==> c.regs(r) == b.regs(r);
    assert forall r: nat :: r != SCRATCH ==> b.regs(r) == a.regs(r);
    assert forall r: nat :: r != LINK ==> a.regs(r) == s.regs(r);
    assert c.regs(FP) == Read(b.mem, b.regs(FP), 8);
  }

  lemma EpilogueRestores(in_: Input, s0: State, s2: State)
    requires in_.Valid() && Framed(in_, s0, s2)
    ensures var s3 := Exec(RestoresCode(true, SavesOf(in_), FP) + LeaveCode(in_, Frame(in_)), s2);
            && s3.regs(SP) == s0.regs(SP) && s3.regs(FP) == s0.regs(FP)
            && (!in_.jumpReturn ==> s3.regs(LINK) == s0.regs(LINK))
            && forall i: nat :: i < |in_.saved| ==> s3.regs(in_.saved[i]) == s0.regs(in_.saved[i])
  {
    hide Exec, Read, Frame, SavesOf, RestoresCode, LeaveCode;
    var saves, frame := SavesOf(in_), Frame(in_);
    SavesApart(in_);
    ExecJoin(RestoresCode(true, saves, FP), LeaveCode(in_, frame), s2);
    RestoreAll(true, saves, FP, s2);
    var u := Exec(RestoresCode(true, saves, FP), s2);
    assert u.regs(FP) == s2.regs(FP);
    LeaveEffect(in_, frame, u);
    var s3 := Exec(LeaveCode(in_, frame), u);
    forall i: nat | i < |in_.saved| ensures s3.regs(in_.saved[i]) == s0.regs(in_.saved[i]) {
      assert saves[i].reg == in_.saved[i];
    }
  }

  /** Frames undo themselves: prologue, a body that respects the frame, and epilogue give
      back the stack pointer, the frame pointer, the link register and every saved
      register. */
  lemma FrameUndone(in_: Input, s0: State, s2: State)
    requires in_.Valid() && in_.hasReturn && (Frameless(in_) || HeaderSpared(in_, s0))
    requires Respects(in_, s0, Exec(PlanOf(in_).prologue, s0), s2)
    ensures var s3 := Exec(PlanOf(in_).epilogue, s2);
            && s3.regs(SP) == s0.regs(SP) && s3.regs(FP) == s0.regs(FP)
            && (!in_.jumpReturn ==> s3.regs(LINK) == s0.regs(LINK))
            && forall i: nat :: i < |in_.saved| ==> s3.regs(in_.saved[i]) == s0.regs(in_.saved[i])
  {
    hide Exec, Read, Frame, SavesOf, RestoresCode, LeaveCode, HeadCode, AreaCode, SavesCode, HeaderSpared, Framed, Input.Valid;
    var s1 := Exec(PlanOf(in_).prologue, s0);
    if Frameless(in_) {
      NoCode(s0);
      NoCode(s2);
    } else {
      PrologueSaves(in_, s0);
      StillFramed(in_, s0, s1, s2);
      EpilogueRestores(in_, s0, s2);
    }
  }

  // ----- the variadic area is filled -----

  /** Every argument register is in its place below the caller's stack pointer. */
  ghost predicate ArgumentsSaved(in_: Input, s0: State)
  {
    var mem, area := Exec(PlanOf(in_).prologue, s0).mem, s0.regs(SP) - 192;
    && (forall n: nat :: n < 8 ==> Read(mem, area + 16 * n, 16) == s0.regs(32 + n))
    && (forall n: nat :: n < 8 ==> Read(mem, area + 128 + 8 * n, 8) == s0.regs(n))
  }

  lemma AreaByNumber(mem: int -> (int, int), area: int, regs: nat -> int)
    requires Holding(AreaSaves(0), mem, area, regs)
    ensures forall n: nat :: n < 8 ==> Read(mem, area + 16 * n, 16) == regs(32 + n)
    ensures forall n: nat :: n < 8 ==> Read(mem, area + 128 + 8 * n, 8) == regs(n)
  {
    hide Read, AreaSaves;
    AreaIs(0);
    forall n: nat | n < 8
      ensures Read(mem, area + 16 * n, 16) == regs(32 + n)
      ensures Read(mem, area + 128 + 8 * n, 8) == regs(n)
    {
      assert AreaSaves(0)[n] == Save(32 + n, 16 * n, 16);
      assert AreaSaves(0)[8 + n] == Save(n, 128 + 8 * n, 8);
    }
  }

  lemma NearSaves(in_: Input, s0: State)
    requires in_.Valid() && HasArea(in_) && !FarArea(Frame(in_))
    ensures ArgumentsSaved(in_, s0)
  {
    hide Exec, Read, SavesOf, SavesCode, Opening, Closing, PlanOf, Headed, Input.Valid, Header, AreaSaves, Holding;
    RoomForArea(in_);
    Layout(in_);
    PrologueParts(in_, s0);
    OpeningEffect(in_, s0);
    var b := Exec(Opening(in_), s0);
    SavesEffect(in_, s0, b);
    var c := Exec(SavesCode(true, SavesOf(in_), FP), b);
    ClosingEffect(in_, c);
    hide Frame;
    AreaKept(b.mem, c.mem, s0.regs(SP) - SAVE_AREA, s0.regs);
    AreaByNumber(c.mem, s0.regs(SP) - SAVE_AREA, s0.regs);
  }

  lemma AreaKept(m: int -> (int, int), n: int -> (int, int), base: int, regs: nat -> int)
    requires Holding(AreaSaves(0), m, base, regs) && forall a :: base <= a < base + SAVE_AREA ==> m(a) == n(a)
    ensures Holding(AreaSaves(0), n, base, regs)
  {
    hide Read, AreaSaves;
    AreaIs(0);
    forall i: nat | i < 16 ensures Read(n, base + AreaSaves(0)[i].offset, AreaSaves(0)[i].size) == regs(AreaSaves(0)[i].reg) {
      ReadSame(m, n, base + AreaSaves(0)[i].offset, AreaSaves(0)[i].size);
    }
  }

  /** A state whose argument registers differ from an untouched area far from address 0. */
  function Witness(frame: nat): State
  {
    State((r: nat) => if r == SP then 2 * frame + 1000 else 1, (a: int) => (5, 0))
  }

  lemma FarLoses(in_: Input)
    requires in_.Valid() && HasArea(in_) && FarArea(Frame(in_))
    ensures !ArgumentsSaved(in_, Witness(Frame(in_)))
  {
    hide Exec, Read, SavesOf, SavesCode, Opening, Closing, PlanOf, Headed, Input.Valid, AreaSaves, FirstSave;
    var s0 := Witness(Frame(in_));
    RoomForArea(in_);
    Layout(in_);
    PrologueParts(in_, s0);
    OpeningEffect(in_, s0);
    var b := Exec(Opening(in_), s0);
    SavesEffect(in_, s0, b);
    var c := Exec(SavesCode(true, SavesOf(in_), FP), b);
    ClosingEffect(in_, c);
    hide Frame;
    var at := s0.regs(SP) - SAVE_AREA;
    ReadSame(s0.mem, c.mem, at, 16);
    AreaIs(0);
    NotWhole(s0.mem, at);
    assert Read(c.mem, at + 16 * 0, 16) != s0.regs(32 + 0);
  }

  lemma NotWhole(mem: int -> (int, int), at: int)
    requires mem(at + 1) == (5, 0)
    ensures Read(mem, at, 16) == 0
  {
    assert !ByteAt(mem, at, 1);
  }

  /** The variadic save area is filled for every caller exactly when its offsets fit into
      addresses; beyond that the registers go to addresses near zero. */
  lemma ArgumentsSavedIff(in_: Input)
    requires in_.Valid() && HasArea(in_)
    ensures (forall s0 :: ArgumentsSaved(in_, s0)) <==> Frame(in_) - 192 + 184 < 4096
  {
    RoomForArea(in_);
    hide ArgumentsSaved, Frame, Input.Valid;
    if FarArea(Frame(in_)) {
      FarLoses(in_);
    } else {
      forall s0 ensures ArgumentsSaved(in_, s0) {
        NearSaves(in_, s0);
      }
    }
  }

  // ----- the planner -----

  /** The first pass over the saved registers, for their size alone. */
  method Measure(saved: seq<nat>, area: nat) returns (end: nat)
    ensures end == Align16(PlacesEnd(saved, area))
  {
    hide Align16;
    end := area;
    var k := 0;
    assert saved[0..] == saved;
    while k < |saved|
      invariant 0 <= k <= |saved|
      invariant PlacesEnd(saved[k..], end) == PlacesEnd(saved, area)
    {
      assert saved[k..][0] == saved[k] && saved[k..][1..] == saved[k + 1..];
      if saved[k] >= 32 {
        end := Align16(end);
      }
      end := end + Size(saved[k]);
      k := k + 1;
    }
    end := Align16(end);
  }

  lemma PlacesNext(saved: seq<nat>, k: nat, offset: nat)
    requires k < |saved|
    ensures Places(saved[k..], offset) == [Save(saved[k], At(saved[k], offset), Size(saved[k]))] + Places(saved[k + 1..], At(saved[k], offset) + Size(saved[k]))
  {
    assert saved[k..][0] == saved[k] && saved[k..][1..] == saved[k + 1..];
  }

  /** The second pass, with places and code. */
  method EmitSaves(saved: seq<nat>, first: nat) returns (saves: seq<Save>, code: seq<Instr>)
    ensures saves == Places(saved, first) && code == SavesCode(true, saves, FP)
  {
    hide Align16, SavesCode, SaveCode, Places;
    var offset: nat := first;
    saves, code := [], [];
    NoSaves(true, FP);
    var k: nat := 0;
    assert saved[0..] == saved;
    while k < |saved|
      invariant 0 <= k <= |saved|
      invariant saves + Places(saved[k..], offset) == Places(saved, first)
      invariant code == SavesCode(true, saves, FP)
    {
      PlacesNext(saved, k, offset);
      var r := saved[k];
      if r >= 32 {
        offset := Align16(offset);
      }
      var s := Save(r, offset, Size(r));
      SavesNext(true, saves, s, FP);
      saves, code := saves + [s], code + SaveCode(true, s, FP);
      offset := offset + Size(r);
      k := k + 1;
    }
    NoPlaces(offset);
    assert saved[k..] == [];
  }

  lemma NoPlaces(offset: nat)
    ensures Places([], offset) == []
  {
  }

  method EmitRestores(saves: seq<Save>) returns (code: seq<Instr>)
    ensures code == RestoresCode(true, saves, FP)
  {
    hide RestoresCode, RestoreCode;
    code := [];
    NoSaves(true, FP);
    var k := 0;
    while k < |saves|
      invariant 0 <= k <= |saves|
      invariant code == RestoresCode(true, saves[..k], FP)
    {
      SavesNext(true, saves[..k], saves[k], FP);
      assert saves[..k + 1] == saves[..k] + [saves[k]];
      code := code + RestoreCode(true, saves[k], FP);
      k := k + 1;
    }
    assert saves[..k] == saves;
  }

  method EmitVectorArea(start: nat, base: nat) returns (code: seq<Instr>)
    ensures code == SavesCode(true, AreaVectors(start, 8), base)
  {
    hide SavesCode, SaveCode;
    code := [];
    NoSaves(true, base);
    for n := 0 to 8
      invariant code == SavesCode(true, AreaVectors(start, n), base)
    {
      SavesNext(true, AreaVectors(start, n), Save(32 + n, start + 16 * n, 16), base);
      code := code + SaveCode(true, Save(32 + n, start + 16 * n, 16), base);
    }
  }

  method EmitIntegerArea(start: nat, base: nat) returns (code: seq<Instr>)
    ensures code == SavesCode(true, AreaIntegers(start, 8), base)
  {
    hide SavesCode, SaveCode;
    code := [];
    NoSaves(true, base);
    for n := 0 to 8
      invariant code == SavesCode(true, AreaIntegers(start, n), base)
    {
      SavesNext(true, AreaIntegers(start, n), Save(n, start + 128 + 8 * n, 8), base);
      code := code + SaveCode(true, Save(n, start + 128 + 8 * n, 8), base);
    }
  }

  /** Argument registers of a variadic function. */
  method EmitArea(frame: nat) returns (code: seq<Instr>)
    requires frame >= SAVE_AREA
    ensures code == if FarArea(frame) then [Imm(OTHER, frame - SAVE_AREA)] + SavesCode(true, AreaSaves(0), OTHER)
                    else SavesCode(true, AreaSaves(frame - SAVE_AREA), SP)
  {
    hide SavesCode, AreaVectors, AreaIntegers;
    var start: nat := frame - SAVE_AREA;
    var base: nat := SP;
    var before: seq<Instr> := [];
    if start + 184 >= 4096 {
      before, start, base := [Imm(OTHER, start)], 0, OTHER;
    }
    var vectors := EmitVectorArea(start, base);
    var integers := EmitIntegerArea(start, base);
    SavesJoin(true, AreaVectors(start, 8), AreaIntegers(start, 8), base);
    code := before + (vectors + integers);
  }

  /** Nothing is set up exactly for a leaf that saves and keeps nothing. */
  lemma NeedsNone(in_: Input)
    ensures PlanOf(in_).prologue == [] <==>
            in_.leaf && !in_.usesAlloca && in_.saved == [] && !in_.variadic && in_.stackBytes == 0 && !in_.blockArguments && in_.aggregate == 0
  {
    hide Drop, AreaCode, SavesCode, RestoresCode, LeaveCode, SavesOf, Frame, Align16;
  }

  /** Plans a frame, or refuses one that target offsets cannot span. */
  method PlanFrame(in_: Input) returns (r: Result)
    requires in_.Valid()
    ensures r.TooLarge? <==> in_.stackBytes + in_.aggregate > 0x7FFF_FFFF - 4096
    ensures r.TooLarge? <==> Exceeds(in_)
    ensures r.Ok? ==> r.plan == PlanOf(in_)
    ensures r.Ok? ==> (r.plan.prologue == [] <==>
              in_.leaf && !in_.usesAlloca && in_.saved == [] && !in_.variadic && in_.stackBytes == 0 && !in_.blockArguments && in_.aggregate == 0)
  {
    NeedsNone(in_);
    hide Places, PlacesEnd, SavesCode, RestoresCode, AreaSaves, FarArea, HeadCode, LeaveCode, Align16, Input.Valid;
    if Exceeds(in_) {
      return TooLarge;
    }
    if Frameless(in_) {
      return Ok(Plan(0, [], [], []));
    }
    var savedEnd := Measure(in_.saved, AreaBytes(in_));
    var frame := Align16(savedEnd + in_.stackBytes) + (if KeepsStack(in_) then 16 else 0) + 16;
    var prologue := HeadCode(in_, frame);
    if HasArea(in_) {
      RoomForArea(in_);
      var area := EmitArea(frame);
      prologue := prologue + area;
    }
    var saves, saving := EmitSaves(in_.saved, frame - savedEnd);
    prologue := prologue + saving;
    if in_.aggregate != 0 {
      prologue := prologue + [Add(SP, SP, 0 - Align16(in_.aggregate))];
    }
    var epilogue := [];
    if in_.hasReturn {
      var restores := EmitRestores(saves);
      epilogue := restores + LeaveCode(in_, frame);
    }
    r := Ok(Plan(frame, saves, prologue, epilogue));
  }
}
