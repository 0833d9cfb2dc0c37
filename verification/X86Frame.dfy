/** Stack frames for x86-64: the prologue, the places of saved registers, and the epilogue
    that undoes it. */
module X86Frame {
  import opened Alignment
  import opened FrameMachine

  const SP: nat := 4
  const BP: nat := 5
  const INT32_MAX: nat := 0x7FFF_FFFF

  datatype Abi = SysV | Windows | OtherAbi

  datatype Input = Input(abi: Abi, spillBytes: nat, saved: seq<nat>, leaf: bool, usesAlloca: bool,
                         blockArguments: bool, variadic: bool, framePointer: bool, jumpReturn: bool,
                         hasReturn: bool, noRedZone: bool)

  /** The target's tables: which registers a callee saves, and the integer argument
      registers of variadic homes. */
  datatype Target = Target(calleeSaved: set<nat>, arguments: nat -> nat)
  {
    /** Registers 0 to 15 are integer registers and 16 to 31 vectors. The stack pointer and
        the scratch register are nobody's to save, and a frame pointer is kept by the frame
        itself. */
    ghost predicate Suits(in_: Input)
    {
      && SP !in calleeSaved && SCRATCH !in calleeSaved
      && (in_.framePointer ==> BP !in calleeSaved)
    }
  }

  datatype Plan = Plan(savesFramePointer: bool, variadicBytes: nat, blockBytes: nat, frameBytes: nat,
                       saves: seq<Save>, prologue: seq<Instr>, epilogue: seq<Instr>)

  datatype Result = Ok(plan: Plan) | Invalid

  const NO_PLAN := Plan(false, 0, 0, 0, [], [], [])

  function Size(r: nat): (n: nat)
    ensures n == 8 || n == 16
  {
    if r < 16 then 8 else 16
  }

  // ----- the places of saved registers -----

  /** Registers `n` to `end` of a set, each after the other from `offset`. */
  function SavesFrom(saved: set<nat>, n: nat, end: nat, offset: int): seq<Save>
    requires n <= end
    decreases end - n
  {
    if n == end then []
    else if n in saved then [Save(n, offset, Size(n))] + SavesFrom(saved, n + 1, end, offset + Size(n))
    else SavesFrom(saved, n + 1, end, offset)
  }

  function Bytes(saved: set<nat>, n: nat, end: nat): nat
    requires n <= end
    decreases end - n
  {
    if n == end then 0 else (if n in saved then Size(n) else 0) + Bytes(saved, n + 1, end)
  }

  /** Vectors come first. */
  function AllSaves(saved: set<nat>, offset: int): seq<Save>
  {
    SavesFrom(saved, 16, 32, offset) + SavesFrom(saved, 0, 16, offset + Bytes(saved, 16, 32))
  }

  function SavedBytes(saved: set<nat>): nat
  {
    Bytes(saved, 0, 16) + Bytes(saved, 16, 32)
  }

  /** Ascending in registers and places, without gaps. */
  ghost predicate Run(saves: seq<Save>, n: nat, end: nat, from: int, to: int)
  {
    && from <= to
    && (forall i: nat :: i < |saves| ==> n <= saves[i].reg < end && saves[i].size == Size(saves[i].reg) && from <= saves[i].offset && saves[i].offset + saves[i].size <= to)
    && (forall i: nat, j: nat :: i < j < |saves| ==> saves[i].reg != saves[j].reg && Disjoint(saves[i], saves[j]))
  }

  lemma RunCons(s: Save, saves: seq<Save>, n: nat, end: nat, to: int)
    requires Run(saves, n + 1, end, s.offset + s.size, to) && s.reg == n < end && s.size == Size(n)
    ensures Run([s] + saves, n, end, s.offset, to)
  {
    var all := [s] + saves;
    forall i: nat | i < |all| ensures n <= all[i].reg < end && all[i].size == Size(all[i].reg) && s.offset <= all[i].offset && all[i].offset + all[i].size <= to {
      assert i > 0 ==> all[i] == saves[i - 1];
    }
    forall i: nat, j: nat | i < j < |all| ensures all[i].reg != all[j].reg && Disjoint(all[i], all[j]) {
      assert all[j] == saves[j - 1];
      assert i > 0 ==> all[i] == saves[i - 1];
    }
  }

  lemma RunJoin(a: seq<Save>, b: seq<Save>, from: int, mid: int, to: int)
    requires Run(a, 16, 32, from, mid) && Run(b, 0, 16, mid, to)
    ensures Run(a + b, 0, 32, from, to)
  {
    var all := a + b;
    forall i: nat | i < |all| ensures 0 <= all[i].reg < 32 && all[i].size == Size(all[i].reg) && from <= all[i].offset && all[i].offset + all[i].size <= to {
      assert i >= |a| ==> all[i] == b[i - |a|];
    }
    forall i: nat, j: nat | i < j < |all| ensures all[i].reg != all[j].reg && Disjoint(all[i], all[j]) {
      assert j >= |a| ==> all[j] == b[j - |a|];
      assert i >= |a| ==> all[i] == b[i - |a|];
    }
  }

  lemma {:induction false} SavesRun(saved: set<nat>, n: nat, end: nat, offset: int)
    requires n <= end
    ensures Run(SavesFrom(saved, n, end, offset), n, end, offset, offset + Bytes(saved, n, end))
    decreases end - n
  {
    if n < end {
      var at := if n in saved then offset + Size(n) else offset;
      SavesRun(saved, n + 1, end, at);
      if n in saved {
        RunCons(Save(n, offset, Size(n)), SavesFrom(saved, n + 1, end, at), n, end, at + Bytes(saved, n + 1, end));
      }
    }
  }

  ghost predicate Lists(saves: seq<Save>, r: nat)
  {
    exists i: nat :: i < |saves| && saves[i].reg == r
  }

  lemma ListsJoin(a: seq<Save>, b: seq<Save>, r: nat)
    ensures Lists(a + b, r) <==> Lists(a, r) || Lists(b, r)
  {
    if Lists(a, r) {
      var i: nat :| i < |a| && a[i].reg == r;
      assert (a + b)[i].reg == r;
    }
    if Lists(b, r) {
      var i: nat :| i < |b| && b[i].reg == r;
      assert (a + b)[|a| + i].reg == r;
    }
  }

  /** Exactly the registers of the set are listed. */
  lemma {:induction false} SavesList(saved: set<nat>, n: nat, end: nat, offset: int, r: nat)
    requires n <= end
    ensures Lists(SavesFrom(saved, n, end, offset), r) <==> n <= r < end && r in saved
    decreases end - n
  {
    if n < end {
      var at := if n in saved then offset + Size(n) else offset;
      SavesList(saved, n + 1, end, at, r);
      if n in saved {
        ListsJoin([Save(n, offset, Size(n))], SavesFrom(saved, n + 1, end, at), r);
        assert Lists([Save(n, offset, Size(n))], r) <==> r == n by {
          assert [Save(n, offset, Size(n))][0].reg == n;
        }
      }
    }
  }

  /** Vectors from an aligned place are all aligned. */
  lemma {:induction false} VectorsAligned(saved: set<nat>, n: nat, end: nat, offset: int)
    requires 16 <= n <= end && offset % 16 == 0
    ensures Bytes(saved, n, end) % 16 == 0
    ensures forall i: nat :: i < |SavesFrom(saved, n, end, offset)| ==> SavesFrom(saved, n, end, offset)[i].offset % 16 == 0
    decreases end - n
  {
    if n < end {
      VectorsAligned(saved, n + 1, end, if n in saved then offset + 16 else offset);
    }
  }

  /** Counting a duplicate-free list one by one gives the total. */
  lemma {:induction false} BytesAdd(saved: set<nat>, r: nat, n: nat, end: nat)
    requires n <= end && r !in saved
    ensures Bytes(saved + {r}, n, end) == Bytes(saved, n, end) + if n <= r < end then Size(r) else 0
    decreases end - n
  {
    if n < end {
      BytesAdd(saved, r, n + 1, end);
    }
  }

  // ----- the plan -----

  /** Nothing to set up. */
  predicate Frameless(in_: Input, bytes: nat)
  {
    in_.leaf && !in_.usesAlloca && !in_.blockArguments && bytes == 0 && !in_.variadic && in_.spillBytes == 0
  }

  predicate Rejected(in_: Input)
  {
    || in_.abi.OtherAbi?
    || in_.spillBytes % 8 != 0 || in_.spillBytes > INT32_MAX - 4096
    || ((in_.variadic || in_.usesAlloca || in_.blockArguments) && !in_.framePointer)
  }

  function VariadicBytes(in_: Input): nat
  {
    if in_.variadic && !in_.abi.Windows? then 176 else 0
  }

  function Slots(in_: Input): nat
  {
    if in_.framePointer then in_.spillBytes else Align16(in_.spillBytes)
  }

  function BlockBytes(in_: Input, bytes: nat): nat
  {
    Align16(Slots(in_) + bytes)
  }

  /** A return address, or in a jump frame without one what keeps the stack aligned. */
  function Service(in_: Input): nat
  {
    if !in_.jumpReturn then 8 else if in_.noRedZone && in_.framePointer then 16 else 0
  }

  function FrameBytes(in_: Input, bytes: nat): nat
  {
    BlockBytes(in_, bytes) + VariadicBytes(in_) + Service(in_)
  }

  function FirstSave(in_: Input, bytes: nat): int
  {
    if in_.framePointer then -(BlockBytes(in_, bytes) + VariadicBytes(in_)) else Slots(in_)
  }

  function SaveBase(in_: Input): nat
  {
    if in_.framePointer then BP else SP
  }

  function OpenFrame(in_: Input): seq<Instr>
  {
    if !in_.framePointer then []
    else if in_.noRedZone then [Add(SCRATCH, SP, -8)]
    else [Store(SP, -8, BP, 8), Add(BP, SP, -8)]
  }

  function Homes(t: Target, base: nat, n: nat): seq<Instr>
    decreases n
  {
    if n == 0 then [] else Homes(t, base, n - 1) + [Store(base, 16 + (n - 1) * 8, t.arguments(n - 1), 8)]
  }

  function VariadicInts(t: Target, at: int, n: nat): seq<Instr>
    decreases n
  {
    if n == 0 then [] else VariadicInts(t, at, n - 1) + [Store(SP, at + (n - 1) * 8, t.arguments(n - 1), 8)]
  }

  function VariadicVectors(at: int, n: nat): seq<Instr>
    decreases n
  {
    if n == 0 then [] else VariadicVectors(at, n - 1) + [Store(SP, at + 48 + (n - 1) * 16, 16 + (n - 1), 8)]
  }

  function Allocate(in_: Input, frame: nat): seq<Instr>
  {
    [Add(SP, SP, 0 - frame)] + if in_.noRedZone && in_.framePointer then [Store(SP, frame - 8, BP, 8), Mov(BP, SCRATCH)] else []
  }

  function Variadics(in_: Input, t: Target, block: nat): seq<Instr>
  {
    if in_.variadic && !in_.abi.Windows? then VariadicInts(t, block, 6) + VariadicVectors(block, 8) else []
  }

  function WindowsHomes(in_: Input, t: Target): seq<Instr>
  {
    if in_.abi.Windows? && in_.variadic then Homes(t, if in_.noRedZone then SCRATCH else BP, 4) else []
  }

  function CloseFrame(in_: Input, frame: nat): seq<Instr>
  {
    if !in_.framePointer then [Add(SP, SP, frame)]
    else if in_.noRedZone then [Mov(SCRATCH, BP), Load(BP, SCRATCH, 0, 8), Add(SP, SCRATCH, 8)]
    else [Add(SP, BP, 8), Load(BP, SP, -8, 8)]
  }

  /** The plan for a set of saved registers. */
  function PlanOf(in_: Input, t: Target, saved: set<nat>): Plan
  {
    var bytes := SavedBytes(saved);
    if Frameless(in_, bytes) then NO_PLAN
    else
      var block := BlockBytes(in_, bytes);
      var frame := FrameBytes(in_, bytes);
      var saves := AllSaves(saved, FirstSave(in_, bytes));
      Plan(in_.framePointer, VariadicBytes(in_), block, frame, saves,
           OpenFrame(in_) + WindowsHomes(in_, t) + Allocate(in_, frame) + Variadics(in_, t, block) + SavesCode(false, saves, SaveBase(in_)),
           if in_.hasReturn then RestoresCode(false, saves, SaveBase(in_)) + CloseFrame(in_, frame) else [])
  }

  // ----- stores -----

  /** Only stores, to a stretch above a base register. */
  ghost predicate StoresIn(code: seq<Instr>, base: nat, low: int, high: int)
  {
    forall i: nat :: i < |code| ==> code[i].Store? && code[i].base == base && low <= code[i].disp && code[i].disp + code[i].size <= high
  }

  lemma {:induction false} StoresKeep(code: seq<Instr>, base: nat, low: int, high: int, s: State, sp: nat)
    requires StoresIn(code, base, low, high)
    ensures Exec(code, s).regs == s.regs
    ensures forall a :: !(s.regs(base) + low <= a < s.regs(base) + high) ==> Exec(code, s).mem(a) == s.mem(a)
    ensures s.regs(base) + low >= s.regs(sp) ==> AboveStack(code, s, sp)
    decreases |code|
  {
    if code != [] {
      StoresKeep(code[1..], base, low, high, Step(code[0], s), sp);
    }
  }

  lemma StoresJoin(a: seq<Instr>, b: seq<Instr>, base: nat, low: int, high: int)
    requires StoresIn(a, base, low, high) && StoresIn(b, base, low, high)
    ensures StoresIn(a + b, base, low, high)
  {
  }

  lemma {:induction false} HomesStore(t: Target, base: nat, n: nat)
    ensures StoresIn(Homes(t, base, n), base, 16, 16 + n * 8)
    decreases n
  {
    if n > 0 {
      HomesStore(t, base, n - 1);
    }
  }

  lemma {:induction false} VariadicsStore(t: Target, at: int, n: nat, k: nat)
    requires n <= 6 && k <= 8
    ensures StoresIn(VariadicInts(t, at, n), SP, at, at + 168) && StoresIn(VariadicVectors(at, k), SP, at, at + 168)
    decreases n + k
  {
    if n > 0 {
      VariadicsStore(t, at, n - 1, k);
    } else if k > 0 {
      VariadicsStore(t, at, n, k - 1);
    }
  }

  /** The last 8 bytes of the area stay free; in a jump frame they may be those of the saved
      frame pointer. */
  function VariadicStored(in_: Input): nat
  {
    if VariadicBytes(in_) == 0 then 0 else 168
  }

  lemma VariadicArea(in_: Input, t: Target, block: nat)
    ensures StoresIn(Variadics(in_, t, block), SP, block, block + VariadicStored(in_))
  {
    VariadicsStore(t, block, 6, 8);
    StoresJoin(VariadicInts(t, block, 6), VariadicVectors(block, 8), SP, block, block + 168);
  }

  lemma {:induction false} SavesStore(saves: seq<Save>, base: nat, low: int, high: int)
    requires forall i: nat :: i < |saves| ==> low <= saves[i].offset && saves[i].offset + saves[i].size <= high
    ensures StoresIn(SavesCode(false, saves, base), base, low, high)
    decreases |saves|
  {
    if saves != [] {
      SavesStore(saves[..|saves| - 1], base, low, high);
      StoresJoin(SavesCode(false, saves[..|saves| - 1], base), SaveCode(false, saves[|saves| - 1], base), base, low, high);
    }
  }

  // ----- the frame -----

  lemma ExecTwo(a: Instr, b: Instr, s: State, sp: nat)
    ensures Exec([a, b], s) == Step(b, Step(a, s))
    ensures AboveStack([a, b], s, sp) <==> AboveStack([a], s, sp) && AboveStack([b], Step(a, s), sp)
  {
    hide Step;
    assert [a, b][1..] == [b] && [a][1..] == [] && [b][1..] == [];
    ExecOne(b, Step(a, s));
  }

  lemma ExecThree(a: Instr, b: Instr, c: Instr, s: State, sp: nat)
    ensures Exec([a, b, c], s) == Step(c, Step(b, Step(a, s)))
    ensures AboveStack([a, b, c], s, sp) <==> AboveStack([a], s, sp) && AboveStack([b], Step(a, s), sp) && AboveStack([c], Step(b, Step(a, s)), sp)
  {
    hide Step;
    assert [a, b, c][1..] == [b, c] && [a][1..] == [];
    ExecTwo(b, c, Step(a, s), sp);
  }

  lemma OneAbove(i: Instr, s: State, sp: nat)
    ensures AboveStack([i], s, sp) <==> (i.Load? || i.Store? ==> s.regs(i.base) + i.disp >= s.regs(sp))
    ensures Exec([i], s) == Step(i, s)
  {
    assert [i][1..] == [];
  }

  /** What a frame that is set up looks like from the caller's registers. */
  ghost predicate Framed(in_: Input, frame: nat, s0: State, s: State)
  {
    && s.regs(SP) == s0.regs(SP) - frame
    && (in_.framePointer ==> s.regs(BP) == s0.regs(SP) - 8 && Read(s.mem, s0.regs(SP) - 8, 8) == s0.regs(BP))
    && (forall r: nat :: r != SP && r != SCRATCH && (in_.framePointer ==> r != BP) ==> s.regs(r) == s0.regs(r))
  }

  function Entry(in_: Input, t: Target, frame: nat): seq<Instr>
  {
    OpenFrame(in_) + WindowsHomes(in_, t) + Allocate(in_, frame)
  }

  lemma HomesApart(in_: Input, t: Target, s: State)
    ensures var u := Exec(WindowsHomes(in_, t), s);
            && u.regs == s.regs
            && (forall a :: a < s.regs(if in_.noRedZone then SCRATCH else BP) + 16 ==> u.mem(a) == s.mem(a))
            && (s.regs(if in_.noRedZone then SCRATCH else BP) + 16 >= s.regs(SP) ==> AboveStack(WindowsHomes(in_, t), s, SP))
  {
    var base := if in_.noRedZone then SCRATCH else BP;
    HomesStore(t, base, 4);
    var code := WindowsHomes(in_, t);
    assert StoresIn(code, base, 16, 48);
    StoresKeep(code, base, 16, 48, s, SP);
  }

  /** With a red zone the frame pointer goes below the stack pointer first. */
  lemma EntryWithRedZone(in_: Input, t: Target, frame: nat, s0: State)
    requires in_.framePointer && !in_.noRedZone
    ensures Framed(in_, frame, s0, Exec(Entry(in_, t, frame), s0)) && !AboveStack(Entry(in_, t, frame), s0, SP)
  {
    hide Read, Write, WindowsHomes, AboveStack;
    var open, homes, alloc := OpenFrame(in_), WindowsHomes(in_, t), Allocate(in_, frame);
    ExecJoin(open + homes, alloc, s0);
    ExecJoin(open, homes, s0);
    AboveJoin(open + homes, alloc, s0, SP);
    AboveJoin(open, homes, s0, SP);
    ExecTwo(Store(SP, -8, BP, 8), Add(BP, SP, -8), s0, SP);
    OneAbove(Store(SP, -8, BP, 8), s0, SP);
    var a := Exec(open, s0);
    ReadWritten(s0.mem, s0.regs(SP) - 8, 8, s0.regs(BP));
    HomesApart(in_, t, a);
    var b := Exec(homes, a);
    ReadSame(b.mem, a.mem, s0.regs(SP) - 8, 8);
    assert alloc == [Add(SP, SP, 0 - frame)];
    ExecOne(Add(SP, SP, 0 - frame), b);
  }

  /** Without one the frame pointer waits until there is room for it. */
  lemma EntryWithoutRedZone(in_: Input, t: Target, frame: nat, s0: State)
    requires in_.framePointer && in_.noRedZone && frame >= 8
    ensures Framed(in_, frame, s0, Exec(Entry(in_, t, frame), s0)) && AboveStack(Entry(in_, t, frame), s0, SP)
  {
    hide Read, Write, WindowsHomes, AboveStack;
    var open, homes, alloc := OpenFrame(in_), WindowsHomes(in_, t), Allocate(in_, frame);
    ExecJoin(open + homes, alloc, s0);
    ExecJoin(open, homes, s0);
    AboveJoin(open + homes, alloc, s0, SP);
    AboveJoin(open, homes, s0, SP);
    OneAbove(Add(SCRATCH, SP, -8), s0, SP);
    var a := Exec(open, s0);
    HomesApart(in_, t, a);
    var b := Exec(homes, a);
    assert alloc == [Add(SP, SP, 0 - frame), Store(SP, frame - 8, BP, 8), Mov(BP, SCRATCH)];
    ExecThree(Add(SP, SP, 0 - frame), Store(SP, frame - 8, BP, 8), Mov(BP, SCRATCH), b, SP);
    var c := Step(Add(SP, SP, 0 - frame), b);
    OneAbove(Add(SP, SP, 0 - frame), b, SP);
    OneAbove(Store(SP, frame - 8, BP, 8), c, SP);
    OneAbove(Mov(BP, SCRATCH), Step(Store(SP, frame - 8, BP, 8), c), SP);
    ReadWritten(c.mem, c.regs(SP) + (frame - 8), 8, c.regs(BP));
  }

  lemma EntryPlain(in_: Input, t: Target, frame: nat, s0: State)
    requires !in_.framePointer && !in_.variadic
    ensures Framed(in_, frame, s0, Exec(Entry(in_, t, frame), s0)) && AboveStack(Entry(in_, t, frame), s0, SP)
  {
    assert Entry(in_, t, frame) == [Add(SP, SP, 0 - frame)];
    OneAbove(Add(SP, SP, 0 - frame), s0, SP);
  }

  lemma SavesFacts(in_: Input, t: Target, saved: set<nat>, r: nat)
    requires saved <= t.calleeSaved && t.Suits(in_)
    ensures var bytes := SavedBytes(saved);
            var saves := AllSaves(saved, FirstSave(in_, bytes));
            && Run(saves, 0, 32, FirstSave(in_, bytes), FirstSave(in_, bytes) + bytes)
            && Apart(saves, SaveBase(in_)) && Apart(saves, SP)
            && (Lists(saves, r) <==> r < 32 && r in saved)
  {
    hide SavesFrom, Bytes, Lists, FirstSave;
    var bytes := SavedBytes(saved);
    var first := FirstSave(in_, bytes);
    var mid := first + Bytes(saved, 16, 32);
    SavesRun(saved, 16, 32, first);
    SavesRun(saved, 0, 16, mid);
    RunJoin(SavesFrom(saved, 16, 32, first), SavesFrom(saved, 0, 16, mid), first, mid, first + bytes);
    SavesList(saved, 16, 32, first, r);
    SavesList(saved, 0, 16, mid, r);
    ListsJoin(SavesFrom(saved, 16, 32, first), SavesFrom(saved, 0, 16, mid), r);
    SavesAvoid(in_, t, saved, first);
  }

  lemma OnlySaved(saved: set<nat>, first: int, i: nat)
    requires i < |AllSaves(saved, first)|
    ensures AllSaves(saved, first)[i].reg in saved
  {
    hide SavesFrom, Bytes;
    var saves := AllSaves(saved, first);
    var r := saves[i].reg;
    assert Lists(saves, r);
    var mid := first + Bytes(saved, 16, 32);
    SavesList(saved, 16, 32, first, r);
    SavesList(saved, 0, 16, mid, r);
    ListsJoin(SavesFrom(saved, 16, 32, first), SavesFrom(saved, 0, 16, mid), r);
  }

  lemma SavesAvoid(in_: Input, t: Target, saved: set<nat>, first: int)
    requires saved <= t.calleeSaved && t.Suits(in_)
    ensures var saves := AllSaves(saved, first);
            forall i: nat :: i < |saves| ==> saves[i].reg != SCRATCH && saves[i].reg != SP && saves[i].reg != SaveBase(in_)
  {
    hide AllSaves;
    var saves := AllSaves(saved, first);
    forall i: nat | i < |saves| ensures saves[i].reg in saved {
      OnlySaved(saved, first, i);
    }
  }

  /** The saves lie beside the spill slots in the block below the variadic area, which lies
      below the saved frame pointer and the return address. */
  lemma Layout(in_: Input, saved: set<nat>)
    requires !Rejected(in_) && !in_.jumpReturn
    ensures var bytes := SavedBytes(saved);
            var block, frame := BlockBytes(in_, bytes), FrameBytes(in_, bytes);
            var first := FirstSave(in_, bytes) - if in_.framePointer then 8 else frame;
            && (in_.framePointer ==> 0 - frame <= first && first + bytes + in_.spillBytes <= 0 - frame + block)
            && (!in_.framePointer ==> 0 - frame + in_.spillBytes <= first && first + bytes <= 0 - 8)
            && (0 - frame) + block + VariadicBytes(in_) == 0 - 8
            && (frame + 8) % 16 == 0
  {
    hide SavedBytes;
  }

  /** Saves stay below the saved frame pointer, in a jump frame too, and above the stack
      pointer where nothing may lie below it; a jump frame keeps the stack aligned. */
  lemma SavesBelow(in_: Input, saved: set<nat>)
    requires !Rejected(in_)
    ensures var bytes := SavedBytes(saved);
            var frame := FrameBytes(in_, bytes);
            && (in_.framePointer ==> FirstSave(in_, bytes) + bytes <= 0)
            && (in_.framePointer && VariadicStored(in_) > 0 ==> BlockBytes(in_, bytes) + VariadicStored(in_) <= frame - 8)
            && (in_.framePointer && in_.noRedZone ==> frame >= 8 && 0 - frame <= FirstSave(in_, bytes) - 8)
            && (!in_.framePointer ==> 0 <= FirstSave(in_, bytes))
            && (in_.jumpReturn ==> frame % 16 == 0)
  {
    hide SavedBytes;
  }

  /** Offsets in an accepted frame fit 32 bits with their sign. */
  lemma FrameInRange(in_: Input, saved: set<nat>)
    requires !Rejected(in_)
    ensures FrameBytes(in_, SavedBytes(saved)) <= 0x7FFF_FFFF
  {
    hide Bytes, Align16;
    BytesBound(saved, 0, 16);
    BytesBound(saved, 16, 32);
    Align16Bound(in_.spillBytes);
    Align16Bound(Slots(in_) + SavedBytes(saved));
  }

  lemma Align16Bound(n: nat)
    ensures Align16(n) <= n + 15
  {
  }

  lemma {:induction false} BytesBound(saved: set<nat>, n: nat, end: nat)
    requires n <= end
    ensures Bytes(saved, n, end) <= 16 * (end - n)
    decreases end - n
  {
    if n < end {
      BytesBound(saved, n + 1, end);
    }
  }

  lemma EntryFrames(in_: Input, t: Target, frame: nat, s0: State)
    requires !Rejected(in_) && (in_.framePointer && in_.noRedZone ==> frame >= 8)
    ensures Framed(in_, frame, s0, Exec(Entry(in_, t, frame), s0))
    ensures AboveStack(Entry(in_, t, frame), s0, SP) <==> in_.noRedZone || !in_.framePointer
  {
    hide Framed, Exec, AboveStack, Entry;
    if in_.framePointer {
      if in_.noRedZone {
        EntryWithoutRedZone(in_, t, frame, s0);
      } else {
        EntryWithRedZone(in_, t, frame, s0);
      }
    } else {
      EntryPlain(in_, t, frame, s0);
    }
  }

  /** The prologue sets the frame up and puts every saved register in its place. */
  lemma PrologueSaves(in_: Input, t: Target, saved: set<nat>, s0: State)
    requires !Rejected(in_) && saved <= t.calleeSaved && t.Suits(in_)
    requires !Frameless(in_, SavedBytes(saved))
    ensures var plan := PlanOf(in_, t, saved);
            var s1 := Exec(plan.prologue, s0);
            Framed(in_, plan.frameBytes, s0, s1) && Holding(plan.saves, s1.mem, s1.regs(SaveBase(in_)), s0.regs)
  {
    hide Exec, AboveStack, Read, Entry, Variadics, AllSaves, SavesCode, VariadicStored, VariadicBytes, BlockBytes, FrameBytes, FirstSave, Frameless, Rejected, Holding;
    var plan := PlanOf(in_, t, saved);
    var bytes, block, frame := SavedBytes(saved), plan.blockBytes, plan.frameBytes;
    var base := SaveBase(in_);
    SavesBelow(in_, saved);
    SavesFacts(in_, t, saved, 0);
    EntryFrames(in_, t, frame, s0);
    VariadicArea(in_, t, block);
    var entry, variadics, saving := Entry(in_, t, frame), Variadics(in_, t, block), SavesCode(false, plan.saves, base);
    PrologueParts(in_, t, saved, s0);
    var a := Exec(entry, s0);
    StoresKeep(variadics, SP, block, block + VariadicStored(in_), a, SP);
    var b := Exec(variadics, a);
    var first := FirstSave(in_, bytes);
    SavesStore(plan.saves, base, first, first + bytes);
    StoresKeep(saving, base, first, first + bytes, b, SP);
    SaveAll(false, plan.saves, base, b);
    SavedFromCaller(in_, t, saved, s0, b);
    var s1 := Exec(saving, b);
    SameRegisters(plan.saves, s1.mem, b.regs(base), b.regs, s0.regs);
    if in_.framePointer {
      ReadSame(a.mem, s1.mem, s0.regs(SP) - 8, 8);
    }
  }

  lemma SameRegisters(saves: seq<Save>, mem: int -> (int, int), base: int, regs: nat -> int, others: nat -> int)
    requires Holding(saves, mem, base, regs) && forall i: nat :: i < |saves| ==> regs(saves[i].reg) == others(saves[i].reg)
    ensures Holding(saves, mem, base, others)
  {
    hide Read;
  }

  /** It touches nothing below the stack pointer, unless it may use the red zone for a frame
      pointer, and then it does. */
  lemma PrologueAboveStack(in_: Input, t: Target, saved: set<nat>, s0: State)
    requires !Rejected(in_) && saved <= t.calleeSaved && t.Suits(in_)
    requires !Frameless(in_, SavedBytes(saved))
    ensures AboveStack(PlanOf(in_, t, saved).prologue, s0, SP) <==> in_.noRedZone || !in_.framePointer
  {
    hide Exec, AboveStack, Read, Entry, Variadics, AllSaves, SavesCode, VariadicStored, VariadicBytes, BlockBytes, FrameBytes, FirstSave, Frameless, Rejected, Holding;
    var plan := PlanOf(in_, t, saved);
    var bytes, block, frame := SavedBytes(saved), plan.blockBytes, plan.frameBytes;
    var base := SaveBase(in_);
    SavesBelow(in_, saved);
    SavesFacts(in_, t, saved, 0);
    EntryFrames(in_, t, frame, s0);
    VariadicArea(in_, t, block);
    var entry, variadics, saving := Entry(in_, t, frame), Variadics(in_, t, block), SavesCode(false, plan.saves, base);
    PrologueParts(in_, t, saved, s0);
    AboveJoin(entry + variadics, saving, s0, SP);
    AboveJoin(entry, variadics, s0, SP);
    ExecJoin(entry, variadics, s0);
    var a := Exec(entry, s0);
    StoresKeep(variadics, SP, block, block + VariadicStored(in_), a, SP);
    var first := FirstSave(in_, bytes);
    SavesStore(plan.saves, base, first, first + bytes);
    StoresKeep(saving, base, first, first + bytes, Exec(variadics, a), SP);
  }

  lemma PrologueParts(in_: Input, t: Target, saved: set<nat>, s0: State)
    requires !Frameless(in_, SavedBytes(saved))
    ensures var plan := PlanOf(in_, t, saved);
            var entry, variadics := Entry(in_, t, plan.frameBytes), Variadics(in_, t, plan.blockBytes);
            var saving := SavesCode(false, plan.saves, SaveBase(in_));
            && plan.prologue == entry + variadics + saving
            && plan.blockBytes == BlockBytes(in_, SavedBytes(saved)) && plan.frameBytes == FrameBytes(in_, SavedBytes(saved))
            && plan.saves == AllSaves(saved, FirstSave(in_, SavedBytes(saved)))
            && Exec(plan.prologue, s0) == Exec(saving, Exec(variadics, Exec(entry, s0)))
  {
    hide Exec, Variadics, AllSaves, SavesCode, BlockBytes, FrameBytes, FirstSave, Frameless, OpenFrame, WindowsHomes, Allocate, SavedBytes;
    var plan := PlanOf(in_, t, saved);
    var entry, variadics := Entry(in_, t, plan.frameBytes), Variadics(in_, t, plan.blockBytes);
    var saving := SavesCode(false, plan.saves, SaveBase(in_));
    ExecJoin(entry + variadics, saving, s0);
    ExecJoin(entry, variadics, s0);
  }

  /** Saved registers still hold the caller's values when they are saved. */
  lemma SavedFromCaller(in_: Input, t: Target, saved: set<nat>, s0: State, b: State)
    requires saved <= t.calleeSaved && t.Suits(in_)
    requires forall r: nat :: r != SP && r != SCRATCH && (in_.framePointer ==> r != BP) ==> b.regs(r) == s0.regs(r)
    ensures forall i: nat :: i < |AllSaves(saved, FirstSave(in_, SavedBytes(saved)))| ==>
              var r := AllSaves(saved, FirstSave(in_, SavedBytes(saved)))[i].reg; b.regs(r) == s0.regs(r)
  {
    SavesAvoid(in_, t, saved, FirstSave(in_, SavedBytes(saved)));
  }

  // ----- the variadic arguments -----

  /** Stores to places that do not overlap. */
  ghost predicate StoresApart(code: seq<Instr>, base: nat)
  {
    && (forall i: nat :: i < |code| ==> code[i].Store? && code[i].base == base && code[i].size > 0)
    && (forall i: nat, j: nat :: i < j < |code| ==> code[i].disp + code[i].size <= code[j].disp)
  }

  lemma {:induction false} StoresFill(code: seq<Instr>, base: nat, s: State, k: nat)
    requires StoresApart(code, base) && k < |code|
    ensures Exec(code, s).regs == s.regs
    ensures Read(Exec(code, s).mem, s.regs(base) + code[k].disp, code[k].size) == s.regs(code[k].src)
    decreases |code|
  {
    hide Exec, Read, Write, StoresApart;
    var rest, last := code[..|code| - 1], code[|code| - 1];
    LastStore(code, base);
    ExecThen(rest, last, s);
    var u := Exec(rest, s);
    if rest == [] {
      NoCode(s);
    } else {
      StoresFill(rest, base, s, 0);
    }
    if k == |rest| {
      ReadWritten(u.mem, s.regs(base) + last.disp, last.size, s.regs(last.src));
    } else {
      StoresFill(rest, base, s, k);
      ReadBelow(u.mem, s.regs(base) + code[k].disp, code[k].size, s.regs(base) + last.disp, last.size, s.regs(last.src));
    }
  }

  lemma LastStore(code: seq<Instr>, base: nat)
    requires StoresApart(code, base) && code != []
    ensures var rest, last := code[..|code| - 1], code[|code| - 1];
            && StoresApart(rest, base) && code == rest + [last] && last.Store? && last.base == base && last.size > 0
            && forall k: nat :: k < |rest| ==> rest[k].Store? && rest[k] == code[k] && rest[k].disp + rest[k].size <= last.disp
  {
  }

  lemma ReadBelow(mem: int -> (int, int), at: int, size: nat, above: int, more: nat, v: int)
    requires size > 0 && at + size <= above
    ensures Read(Write(mem, above, more, v), at, size) == Read(mem, at, size)
  {
    hide Read;
    ReadSame(Write(mem, above, more, v), mem, at, size);
  }

  lemma {:induction false} HomesAre(t: Target, base: nat, n: nat)
    ensures |Homes(t, base, n)| == n
    ensures forall k: nat :: k < n ==> Homes(t, base, n)[k] == Store(base, 16 + 8 * k, t.arguments(k), 8)
    decreases n
  {
    if n > 0 {
      HomesAre(t, base, n - 1);
    }
  }

  lemma {:induction false} IntsAre(t: Target, at: int, n: nat)
    ensures |VariadicInts(t, at, n)| == n
    ensures forall k: nat :: k < n ==> VariadicInts(t, at, n)[k] == Store(SP, at + 8 * k, t.arguments(k), 8)
    decreases n
  {
    if n > 0 {
      IntsAre(t, at, n - 1);
    }
  }

  lemma {:induction false} VectorsAre(at: int, n: nat)
    ensures |VariadicVectors(at, n)| == n
    ensures forall k: nat :: k < n ==> VariadicVectors(at, n)[k] == Store(SP, at + 48 + 16 * k, 16 + k, 8)
    decreases n
  {
    if n > 0 {
      VectorsAre(at, n - 1);
    }
  }

  /** Argument registers are none of those a prologue changes first. */
  ghost predicate Passes(t: Target)
  {
    forall n: nat :: n < 6 ==> t.arguments(n) != SP && t.arguments(n) != BP && t.arguments(n) != SCRATCH
  }

  lemma AreaFilled(in_: Input, t: Target, block: nat, s: State)
    requires in_.variadic && !in_.abi.Windows?
    ensures var u := Exec(Variadics(in_, t, block), s);
            && u.regs == s.regs
            && (forall n: nat :: n < 6 ==> Read(u.mem, s.regs(SP) + block + 8 * n, 8) == s.regs(t.arguments(n)))
            && (forall n: nat :: n < 8 ==> Read(u.mem, s.regs(SP) + block + 48 + 16 * n, 8) == s.regs(16 + n))
  {
    hide Exec, Read, VariadicInts, VariadicVectors;
    IntsAre(t, block, 6);
    VectorsAre(block, 8);
    var code := Variadics(in_, t, block);
    assert StoresApart(code, SP);
    StoresFill(code, SP, s, 0);
    forall n: nat | n < 6 ensures Read(Exec(code, s).mem, s.regs(SP) + block + 8 * n, 8) == s.regs(t.arguments(n)) {
      StoresFill(code, SP, s, n);
    }
    forall n: nat | n < 8 ensures Read(Exec(code, s).mem, s.regs(SP) + block + 48 + 16 * n, 8) == s.regs(16 + n) {
      StoresFill(code, SP, s, 6 + n);
    }
  }

  lemma HomesFill(t: Target, base: nat, s: State, n: nat)
    requires n < 4
    ensures Exec(Homes(t, base, 4), s).regs == s.regs
    ensures Read(Exec(Homes(t, base, 4), s).mem, s.regs(base) + 16 + 8 * n, 8) == s.regs(t.arguments(n))
  {
    hide Exec, Read, Homes;
    HomesAre(t, base, 4);
    assert StoresApart(Homes(t, base, 4), base);
    StoresFill(Homes(t, base, 4), base, s, n);
  }

  lemma OpenBases(in_: Input, s0: State)
    requires in_.framePointer
    ensures var a := Exec(OpenFrame(in_), s0);
            && a.regs(if in_.noRedZone then SCRATCH else BP) == s0.regs(SP) - 8
            && forall r: nat :: r != BP && r != SCRATCH ==> a.regs(r) == s0.regs(r)
  {
    hide Exec;
    if in_.noRedZone {
      ExecOne(Add(SCRATCH, SP, -8), s0);
    } else {
      ExecTwo(Store(SP, -8, BP, 8), Add(BP, SP, -8), s0, SP);
    }
  }

  /** Allocation writes nothing above the stack pointer it finds. */
  lemma AllocateKeeps(in_: Input, frame: nat, b: State, a: int)
    requires a >= b.regs(SP)
    ensures Exec(Allocate(in_, frame), b).mem(a) == b.mem(a)
  {
    hide Exec;
    if in_.noRedZone && in_.framePointer {
      assert Allocate(in_, frame) == [Add(SP, SP, 0 - frame), Store(SP, frame - 8, BP, 8), Mov(BP, SCRATCH)];
      ExecThree(Add(SP, SP, 0 - frame), Store(SP, frame - 8, BP, 8), Mov(BP, SCRATCH), b, SP);
    } else {
      assert Allocate(in_, frame) == [Add(SP, SP, 0 - frame)];
      ExecOne(Add(SP, SP, 0 - frame), b);
    }
  }

  lemma EntryFillsHomes(in_: Input, t: Target, frame: nat, s0: State, n: nat)
    requires in_.framePointer && in_.abi.Windows? && in_.variadic && n < 4 && Passes(t)
    ensures Read(Exec(Entry(in_, t, frame), s0).mem, s0.regs(SP) + 8 + 8 * n, 8) == s0.regs(t.arguments(n))
  {
    hide Exec, Read, Homes, OpenFrame, Allocate;
    var open, homes, alloc := OpenFrame(in_), WindowsHomes(in_, t), Allocate(in_, frame);
    ExecJoin(open + homes, alloc, s0);
    ExecJoin(open, homes, s0);
    OpenBases(in_, s0);
    var a := Exec(open, s0);
    HomesFill(t, if in_.noRedZone then SCRATCH else BP, a, n);
    var b := Exec(homes, a);
    var c := Exec(alloc, b);
    forall x | s0.regs(SP) <= x ensures c.mem(x) == b.mem(x) {
      AllocateKeeps(in_, frame, b, x);
    }
    ReadSame(b.mem, c.mem, s0.regs(SP) + 8 + 8 * n, 8);
  }

  /** The saves stay below the variadic area. */
  lemma SavesBelowArea(in_: Input, t: Target, saved: set<nat>, s0: State)
    requires !Rejected(in_) && !in_.jumpReturn && saved <= t.calleeSaved && t.Suits(in_) && in_.variadic
    ensures var plan := PlanOf(in_, t, saved);
            var area := s0.regs(SP) - plan.frameBytes + plan.blockBytes;
            var a := Exec(Entry(in_, t, plan.frameBytes), s0);
            var b := Exec(Variadics(in_, t, plan.blockBytes), a);
            && Framed(in_, plan.frameBytes, s0, a)
            && area == s0.regs(SP) - 8 - VariadicBytes(in_)
            && forall x :: area <= x ==> Exec(plan.prologue, s0).mem(x) == b.mem(x)
  {
    hide Exec, AboveStack, Read, Entry, Variadics, AllSaves, SavesCode, BlockBytes, FrameBytes, FirstSave;
    var plan := PlanOf(in_, t, saved);
    var bytes, block, frame := SavedBytes(saved), plan.blockBytes, plan.frameBytes;
    PrologueParts(in_, t, saved, s0);
    Layout(in_, saved);
    SavesFacts(in_, t, saved, 0);
    EntryFrames(in_, t, frame, s0);
    var a := Exec(Entry(in_, t, frame), s0);
    VariadicArea(in_, t, block);
    StoresKeep(Variadics(in_, t, block), SP, block, block + VariadicStored(in_), a, SP);
    var first := FirstSave(in_, bytes);
    SavesStore(plan.saves, BP, first, first + bytes);
    StoresKeep(SavesCode(false, plan.saves, BP), BP, first, first + bytes, Exec(Variadics(in_, t, block), a), SP);
  }

  /** After the prologue every argument register of a variadic function is in memory: the
      System V save area above the block holds the six integer registers word by word and
      then the low halves of the eight vectors, 16 bytes apart; on Windows the four homes
      above the caller's return address hold the integer registers. */
  lemma VariadicsSaved(in_: Input, t: Target, saved: set<nat>, s0: State)
    requires !Rejected(in_) && !in_.jumpReturn && saved <= t.calleeSaved && t.Suits(in_) && in_.variadic && Passes(t)
    ensures var plan := PlanOf(in_, t, saved);
            var mem := Exec(plan.prologue, s0).mem;
            var area := s0.regs(SP) - plan.frameBytes + plan.blockBytes;
            if in_.abi.Windows? then
              forall n: nat :: n < 4 ==> Read(mem, s0.regs(SP) + 8 + 8 * n, 8) == s0.regs(t.arguments(n))
            else
              && area == s0.regs(SP) - 184
              && (forall n: nat :: n < 6 ==> Read(mem, area + 8 * n, 8) == s0.regs(t.arguments(n)))
              && (forall n: nat :: n < 8 ==> Read(mem, area + 48 + 16 * n, 8) == s0.regs(16 + n))
  {
    hide *;
    SavesBelowArea(in_, t, saved, s0);
    var plan := PlanOf(in_, t, saved);
    var a := Exec(Entry(in_, t, plan.frameBytes), s0);
    var mem := Exec(plan.prologue, s0).mem;
    NeedsFrame(in_);
    if in_.abi.Windows? {
      NoArea(in_, t, plan.blockBytes, a);
      forall n: nat | n < 4 ensures Read(mem, s0.regs(SP) + 8 + 8 * n, 8) == s0.regs(t.arguments(n)) {
        EntryFillsHomes(in_, t, plan.frameBytes, s0, n);
        ReadSame(a.mem, mem, s0.regs(SP) + 8 + 8 * n, 8);
      }
    } else {
      var area := s0.regs(SP) - plan.frameBytes + plan.blockBytes;
      AreaFilled(in_, t, plan.blockBytes, a);
      FramedRegisters(in_, plan.frameBytes, s0, a);
      AreaStays(t, a, Exec(Variadics(in_, t, plan.blockBytes), a).mem, mem, area, s0);
    }
  }

  lemma NeedsFrame(in_: Input)
    requires !Rejected(in_) && in_.variadic
    ensures in_.framePointer && VariadicBytes(in_) == if in_.abi.Windows? then 0 else 176
  {
  }

  lemma NoArea(in_: Input, t: Target, block: nat, s: State)
    requires in_.abi.Windows?
    ensures Exec(Variadics(in_, t, block), s) == s
  {
  }

  lemma FramedRegisters(in_: Input, frame: nat, s0: State, s: State)
    requires Framed(in_, frame, s0, s)
    ensures s.regs(SP) == s0.regs(SP) - frame && forall r: nat :: r != SP && r != SCRATCH && r != BP ==> s.regs(r) == s0.regs(r)
  {
  }

  lemma AreaStays(t: Target, a: State, m: int -> (int, int), n: int -> (int, int), area: int, s0: State)
    requires forall x :: area <= x ==> n(x) == m(x)
    requires Passes(t) && forall r: nat :: r != SP && r != SCRATCH && r != BP ==> a.regs(r) == s0.regs(r)
    requires forall k: nat :: k < 6 ==> Read(m, area + 8 * k, 8) == a.regs(t.arguments(k))
    requires forall k: nat :: k < 8 ==> Read(m, area + 48 + 16 * k, 8) == a.regs(16 + k)
    ensures forall k: nat :: k < 6 ==> Read(n, area + 8 * k, 8) == s0.regs(t.arguments(k))
    ensures forall k: nat :: k < 8 ==> Read(n, area + 48 + 16 * k, 8) == s0.regs(16 + k)
  {
    hide Read;
    forall k: nat | k < 6 ensures Read(n, area + 8 * k, 8) == s0.regs(t.arguments(k)) {
      ReadSame(m, n, area + 8 * k, 8);
    }
    forall k: nat | k < 8 ensures Read(n, area + 48 + 16 * k, 8) == s0.regs(16 + k) {
      ReadSame(m, n, area + 48 + 16 * k, 8);
    }
  }

  // ----- leaving -----

  /** What the body of a function leaves alone: the register that addresses the frame, the
      saved frame pointer, and the saves. */
  ghost predicate Respects(in_: Input, t: Target, saved: set<nat>, s0: State, s1: State, s2: State)
  {
    var plan := PlanOf(in_, t, saved);
    var base := if plan.savesFramePointer then BP else SP;
    && s2.regs(base) == s1.regs(base)
    && (forall a :: s0.regs(SP) - 8 <= a < s0.regs(SP) && plan.savesFramePointer ==> s2.mem(a) == s1.mem(a))
    && (forall i: nat, a :: i < |plan.saves| && Inside(a, plan.saves[i], s1.regs(base)) ==> s2.mem(a) == s1.mem(a))
  }

  lemma SavesKept(saves: seq<Save>, m: int -> (int, int), n: int -> (int, int), base: int, regs: nat -> int)
    requires Holding(saves, m, base, regs) && forall i: nat :: i < |saves| ==> saves[i].size > 0
    requires forall i: nat, a :: i < |saves| && Inside(a, saves[i], base) ==> n(a) == m(a)
    ensures Holding(saves, n, base, regs)
  {
    hide Read;
    forall i: nat | i < |saves| ensures Read(n, base + saves[i].offset, saves[i].size) == regs(saves[i].reg) {
      forall a | base + saves[i].offset <= a < base + saves[i].offset + saves[i].size ensures n(a) == m(a) {
        assert Inside(a, saves[i], base);
      }
      ReadSame(m, n, base + saves[i].offset, saves[i].size);
    }
  }

  lemma {:induction false} RestoresAbove(saves: seq<Save>, base: nat, low: int, st: State)
    requires Apart(saves, base) && Apart(saves, SP) && base != SCRATCH
    requires forall i: nat :: i < |saves| ==> low <= saves[i].offset
    requires st.regs(base) + low >= st.regs(SP)
    ensures AboveStack(RestoresCode(false, saves, base), st, SP)
    decreases |saves|
  {
    hide Exec, AboveStack, Read;
    if saves == [] {
      NothingAbove(st);
    } else {
      var rest, last := saves[..|saves| - 1], saves[|saves| - 1];
      ApartPrefix(saves, base);
      ApartPrefix(saves, SP);
      RestoresAbove(rest, base, low, st);
      RestoreAll(false, rest, base, st);
      AboveJoin(RestoresCode(false, rest, base), RestoreCode(false, last, base), st, SP);
      OneAbove(Load(last.reg, base, last.offset, last.size), Exec(RestoresCode(false, rest, base), st), SP);
    }
  }

  lemma NothingAbove(st: State)
    ensures AboveStack([], st, SP)
  {
  }

  /** Closing the frame from its base. */
  lemma Close(in_: Input, frame: nat, s0: State, s: State)
    requires if in_.framePointer then s.regs(BP) == s0.regs(SP) - 8 && Read(s.mem, s0.regs(SP) - 8, 8) == s0.regs(BP)
             else s.regs(SP) == s0.regs(SP) - frame
    ensures var u := Exec(CloseFrame(in_, frame), s);
            && u.regs(SP) == s0.regs(SP) && (in_.framePointer ==> u.regs(BP) == s0.regs(BP))
            && forall r: nat :: r != SP && r != SCRATCH && (in_.framePointer ==> r != BP) ==> u.regs(r) == s.regs(r)
    ensures s.regs(SP) <= s0.regs(SP) - 8 ==> (AboveStack(CloseFrame(in_, frame), s, SP) <==> in_.noRedZone || !in_.framePointer)
  {
    hide Read, Exec, AboveStack;
    if !in_.framePointer {
      OneAbove(Add(SP, SP, frame), s, SP);
    } else if in_.noRedZone {
      ExecThree(Mov(SCRATCH, BP), Load(BP, SCRATCH, 0, 8), Add(SP, SCRATCH, 8), s, SP);
      var a := Step(Mov(SCRATCH, BP), s);
      OneAbove(Mov(SCRATCH, BP), s, SP);
      OneAbove(Load(BP, SCRATCH, 0, 8), a, SP);
      OneAbove(Add(SP, SCRATCH, 8), Step(Load(BP, SCRATCH, 0, 8), a), SP);
    } else {
      ExecTwo(Add(SP, BP, 8), Load(BP, SP, 0 - 8, 8), s, SP);
      OneAbove(Load(BP, SP, 0 - 8, 8), Step(Add(SP, BP, 8), s), SP);
    }
  }

  /** Restores and then closes. */
  lemma EpilogueRestores(in_: Input, saves: seq<Save>, frame: nat, s0: State, s2: State, r: nat)
    requires var base := SaveBase(in_);
             Apart(saves, base) && Apart(saves, SP) && Holding(saves, s2.mem, s2.regs(base), s0.regs)
    requires if in_.framePointer then s2.regs(BP) == s0.regs(SP) - 8 && Read(s2.mem, s0.regs(SP) - 8, 8) == s0.regs(BP)
             else s2.regs(SP) == s0.regs(SP) - frame
    ensures var s3 := Exec(RestoresCode(false, saves, SaveBase(in_)) + CloseFrame(in_, frame), s2);
            && s3.regs(SP) == s0.regs(SP)
            && (in_.framePointer ==> s3.regs(BP) == s0.regs(BP))
            && (Lists(saves, r) ==> s3.regs(r) == s0.regs(r))
  {
    hide Exec, Read, RestoresCode, Holding, CloseFrame;
    var base := SaveBase(in_);
    var restores, close := RestoresCode(false, saves, base), CloseFrame(in_, frame);
    ExecJoin(restores, close, s2);
    RestoreAll(false, saves, base, s2);
    var u := Exec(restores, s2);
    SavesUntouched(saves, base, s2, u);
    Close(in_, frame, s0, u);
    Restored(saves, s2.mem, s2.regs(base), s0.regs, u.regs, r);
    Listed(saves, base, r);
  }

  /** Frames undo themselves: prologue, a body that respects the frame, and epilogue give
      back the stack pointer, the frame pointer and every saved register. */
  lemma FrameUndone(in_: Input, t: Target, saved: set<nat>, s0: State, s2: State, r: nat)
    requires !Rejected(in_) && in_.hasReturn && saved <= t.calleeSaved && t.Suits(in_)
    requires Respects(in_, t, saved, s0, Exec(PlanOf(in_, t, saved).prologue, s0), s2)
    ensures var plan := PlanOf(in_, t, saved);
            var s3 := Exec(plan.epilogue, s2);
            && s3.regs(SP) == s0.regs(SP)
            && (plan.savesFramePointer ==> s3.regs(BP) == s0.regs(BP))
            && (r < 32 && r in saved ==> s3.regs(r) == s0.regs(r))
  {
    hide Exec, AboveStack, Read, AllSaves, SavesCode, RestoresCode, Frameless, Rejected, Holding, CloseFrame, SavedBytes, BlockBytes, FrameBytes, FirstSave, VariadicBytes, Apart, Lists;
    var plan := PlanOf(in_, t, saved);
    var s1 := Exec(plan.prologue, s0);
    if Frameless(in_, SavedBytes(saved)) {
      NoFrame(in_, saved, s0, r);
      NoCode(s2);
    } else {
      var base := SaveBase(in_);
      PrologueSaves(in_, t, saved, s0);
      SavesFacts(in_, t, saved, r);
      Sized(plan.saves, base);
      SavesKept(plan.saves, s1.mem, s2.mem, s1.regs(base), s0.regs);
      if in_.framePointer {
        ReadSame(s1.mem, s2.mem, s0.regs(SP) - 8, 8);
      }
      EpilogueRestores(in_, plan.saves, plan.frameBytes, s0, s2, r);
    }
  }

  lemma Sized(saves: seq<Save>, base: nat)
    requires Apart(saves, base)
    ensures forall i: nat :: i < |saves| ==> saves[i].size > 0
  {
  }

  lemma SavesUntouched(saves: seq<Save>, base: nat, s: State, u: State)
    requires Apart(saves, base) && Apart(saves, SP) && base != SCRATCH
    requires forall r: nat :: r != SCRATCH && (forall i: nat :: i < |saves| ==> saves[i].reg != r) ==> u.regs(r) == s.regs(r)
    ensures u.regs(base) == s.regs(base) && u.regs(SP) == s.regs(SP)
  {
    assert SP != SCRATCH;
  }

  lemma Listed(saves: seq<Save>, base: nat, r: nat)
    requires Apart(saves, base) && Apart(saves, SP)
    ensures Lists(saves, r) ==> r != SCRATCH && r != base && r != SP
  {
  }

  lemma Restored(saves: seq<Save>, mem: int -> (int, int), base: int, regs: nat -> int, now: nat -> int, r: nat)
    requires Holding(saves, mem, base, regs) && Holding(saves, mem, base, now)
    ensures Lists(saves, r) ==> now(r) == regs(r)
  {
  }

  lemma NoFrame(in_: Input, saved: set<nat>, s0: State, r: nat)
    requires Frameless(in_, SavedBytes(saved))
    ensures Exec([], s0) == s0 && !(r < 32 && r in saved)
  {
    if r < 32 && r in saved {
      BytesOf(saved, r, 0, 16);
      BytesOf(saved, r, 16, 32);
    }
  }

  lemma {:induction false} BytesOf(saved: set<nat>, r: nat, n: nat, end: nat)
    requires n <= end && r in saved
    ensures n <= r < end ==> Bytes(saved, n, end) > 0
    decreases end - n
  {
    if n < end {
      BytesOf(saved, r, n + 1, end);
    }
  }

  lemma RestoresThenClose(in_: Input, saves: seq<Save>, frame: nat, low: int, s0: State, s2: State)
    requires var base := SaveBase(in_);
             && Apart(saves, base) && Apart(saves, SP) && s2.regs(base) + low >= s2.regs(SP)
             && forall i: nat :: i < |saves| ==> low <= saves[i].offset
    requires if in_.framePointer then s2.regs(BP) == s0.regs(SP) - 8 && Read(s2.mem, s0.regs(SP) - 8, 8) == s0.regs(BP)
             else s2.regs(SP) == s0.regs(SP) - frame
    requires s2.regs(SP) <= s0.regs(SP) - 8
    ensures AboveStack(RestoresCode(false, saves, SaveBase(in_)) + CloseFrame(in_, frame), s2, SP) <==> in_.noRedZone || !in_.framePointer
  {
    hide Exec, AboveStack, Read, RestoresCode, CloseFrame;
    var base := SaveBase(in_);
    var restores, close := RestoresCode(false, saves, base), CloseFrame(in_, frame);
    AboveJoin(restores, close, s2, SP);
    RestoresAbove(saves, base, low, s2);
    RestoreAll(false, saves, base, s2);
    var u := Exec(restores, s2);
    SavesUntouched(saves, base, s2, u);
    Close(in_, frame, s0, u);
  }

  /** After a body that respects the frame, its base still finds the frame pointer. */
  lemma BaseKept(in_: Input, t: Target, saved: set<nat>, s0: State, s2: State)
    requires !Rejected(in_) && saved <= t.calleeSaved && t.Suits(in_)
    requires !Frameless(in_, SavedBytes(saved))
    requires Respects(in_, t, saved, s0, Exec(PlanOf(in_, t, saved).prologue, s0), s2)
    ensures if in_.framePointer then s2.regs(BP) == s0.regs(SP) - 8 && Read(s2.mem, s0.regs(SP) - 8, 8) == s0.regs(BP)
            else s2.regs(SP) == s0.regs(SP) - PlanOf(in_, t, saved).frameBytes
  {
    hide Exec, Read, Write, PlanOf, Frameless, Rejected, Holding, SavedBytes, Target.Suits, Inside;
    HasBase(in_, t, saved);
    PrologueSaves(in_, t, saved, s0);
    if in_.framePointer {
      ReadSame(Exec(PlanOf(in_, t, saved).prologue, s0).mem, s2.mem, s0.regs(SP) - 8, 8);
    }
  }

  lemma HasBase(in_: Input, t: Target, saved: set<nat>)
    requires !Frameless(in_, SavedBytes(saved))
    ensures PlanOf(in_, t, saved).savesFramePointer == in_.framePointer
  {
  }

  lemma EpilogueParts(in_: Input, t: Target, saved: set<nat>)
    requires !Frameless(in_, SavedBytes(saved)) && in_.hasReturn
    ensures var plan := PlanOf(in_, t, saved);
            && plan.epilogue == RestoresCode(false, plan.saves, SaveBase(in_)) + CloseFrame(in_, plan.frameBytes)
            && plan.saves == AllSaves(saved, FirstSave(in_, SavedBytes(saved)))
            && plan.frameBytes == FrameBytes(in_, SavedBytes(saved))
  {
  }

  lemma LowestSave(in_: Input, t: Target, saved: set<nat>)
    requires saved <= t.calleeSaved && t.Suits(in_)
    ensures var first := FirstSave(in_, SavedBytes(saved));
            forall i: nat :: i < |AllSaves(saved, first)| ==> first <= AllSaves(saved, first)[i].offset
  {
    hide AllSaves, FirstSave, SavedBytes;
    SavesFacts(in_, t, saved, 0);
  }

  /** The epilogue, like the prologue, keeps off the red zone exactly when told to. */
  lemma EpilogueAboveStack(in_: Input, t: Target, saved: set<nat>, s0: State, s2: State)
    requires !Rejected(in_) && !in_.jumpReturn && in_.hasReturn && saved <= t.calleeSaved && t.Suits(in_)
    requires !Frameless(in_, SavedBytes(saved))
    requires Respects(in_, t, saved, s0, Exec(PlanOf(in_, t, saved).prologue, s0), s2)
    requires s2.regs(SP) <= s0.regs(SP) - PlanOf(in_, t, saved).frameBytes
    ensures AboveStack(PlanOf(in_, t, saved).epilogue, s2, SP) <==> in_.noRedZone || !in_.framePointer
  {
    hide *;
    var first := FirstSave(in_, SavedBytes(saved));
    BaseKept(in_, t, saved, s0, s2);
    EpilogueParts(in_, t, saved);
    SavesFacts(in_, t, saved, 0);
    LowestSave(in_, t, saved);
    FrameRoom(in_, saved);
    assert SaveBase(in_) == if in_.framePointer then BP else SP by { Base(in_); }
    RestoresThenClose(in_, PlanOf(in_, t, saved).saves, PlanOf(in_, t, saved).frameBytes, first, s0, s2);
  }

  lemma Base(in_: Input)
    ensures SaveBase(in_) == if in_.framePointer then BP else SP
  {
  }

  lemma FrameRoom(in_: Input, saved: set<nat>)
    requires !Rejected(in_) && !in_.jumpReturn
    ensures var first := FirstSave(in_, SavedBytes(saved));
            && FrameBytes(in_, SavedBytes(saved)) >= 8
            && (in_.framePointer ==> first - 8 >= 0 - FrameBytes(in_, SavedBytes(saved))) && (!in_.framePointer ==> first >= 0)
  {
    Layout(in_, saved);
  }

  /** Integer saves take a word and vector saves are whole and aligned, since a call leaves the stack 8 bytes off a multiple of 16. */
  lemma VectorSavesAligned(in_: Input, t: Target, saved: set<nat>, s0: State, i: nat)
    requires !Rejected(in_) && !in_.jumpReturn && saved <= t.calleeSaved && t.Suits(in_)
    requires !Frameless(in_, SavedBytes(saved)) && (s0.regs(SP) - 8) % 16 == 0
    requires i < |PlanOf(in_, t, saved).saves|
    ensures var plan := PlanOf(in_, t, saved);
            if plan.saves[i].reg < 16 then plan.saves[i].size == 8
            else plan.saves[i].size == 16 && (Exec(plan.prologue, s0).regs(SaveBase(in_)) + plan.saves[i].offset) % 16 == 0
  {
    hide Exec, Read, Holding, SavesCode, RestoresCode, Rejected, Frameless, AllSaves, FirstSave, FrameBytes, BlockBytes, VariadicBytes, SavedBytes;
    var bytes := SavedBytes(saved);
    PrologueSaves(in_, t, saved, s0);
    VectorsFirst(in_, saved, i);
    Multiples(in_, bytes);
    FramedBase(in_, t, saved, s0);
    hide *;
    var plan := PlanOf(in_, t, saved);
    if plan.saves[i].reg >= 16 {
      AlignedSum(s0.regs(SP) - 8, Exec(plan.prologue, s0).regs(SaveBase(in_)), plan.frameBytes, plan.saves[i].offset);
    }
  }

  lemma FramedBase(in_: Input, t: Target, saved: set<nat>, s0: State)
    requires !Frameless(in_, SavedBytes(saved)) && Framed(in_, PlanOf(in_, t, saved).frameBytes, s0, Exec(PlanOf(in_, t, saved).prologue, s0))
    ensures var base := Exec(PlanOf(in_, t, saved).prologue, s0).regs(SaveBase(in_));
            base == s0.regs(SP) - 8 || base == s0.regs(SP) - PlanOf(in_, t, saved).frameBytes
    ensures PlanOf(in_, t, saved).frameBytes == FrameBytes(in_, SavedBytes(saved))
    ensures PlanOf(in_, t, saved).saves == AllSaves(saved, FirstSave(in_, SavedBytes(saved)))
  {
    hide Exec, Read, AllSaves, FirstSave, FrameBytes, BlockBytes, VariadicBytes, SavedBytes, SavesCode, RestoresCode, Frameless;
  }

  lemma AlignedSum(top: int, base: int, frame: nat, offset: int)
    requires top % 16 == 0 && (frame - 8) % 16 == 0 && offset % 16 == 0
    requires base == top || base == top + 8 - frame
    ensures (base + offset) % 16 == 0
  {
  }

  lemma Multiples(in_: Input, bytes: nat)
    requires !Rejected(in_) && !in_.jumpReturn
    ensures FirstSave(in_, bytes) % 16 == 0 && (FrameBytes(in_, bytes) - 8) % 16 == 0
  {
    hide Align16;
    var block: int := BlockBytes(in_, bytes);
    assert VariadicBytes(in_) == 0 || VariadicBytes(in_) == 176;
    assert (0 - block) % 16 == 0 && (0 - (block + 176)) % 16 == 0;
  }

  lemma VectorsFirst(in_: Input, saved: set<nat>, i: nat)
    requires !Rejected(in_) && !in_.jumpReturn
    requires i < |AllSaves(saved, FirstSave(in_, SavedBytes(saved)))|
    ensures var s := AllSaves(saved, FirstSave(in_, SavedBytes(saved)))[i];
            if s.reg < 16 then s.size == 8 else s.size == 16 && s.offset % 16 == 0
  {
    hide SavesFrom, FirstSave, SavedBytes, Bytes, Rejected;
    var first := FirstSave(in_, SavedBytes(saved));
    Multiples(in_, SavedBytes(saved));
    VectorsAligned(saved, 16, 32, first);
    SavesRun(saved, 16, 32, first);
    SavesRun(saved, 0, 16, first + Bytes(saved, 16, 32));
  }

  // ----- the planner -----

  predicate BadRegister(in_: Input, t: Target, i: nat)
    requires i < |in_.saved|
  {
    in_.saved[i] !in t.calleeSaved || in_.saved[i] >= 32 || in_.saved[i] in in_.saved[..i]
  }

  predicate BadSaved(in_: Input, t: Target)
  {
    exists i: nat :: i < |in_.saved| && BadRegister(in_, t, i)
  }

  function SavedSet(rs: seq<nat>): set<nat>
  {
    set r | r in rs
  }

  /** Checks and adds up the saved registers. */
  method CheckSaved(in_: Input, t: Target) returns (ok: bool, saved: set<nat>, bytes: nat)
    ensures ok <==> !BadSaved(in_, t)
    ensures ok ==> saved == SavedSet(in_.saved) && bytes == SavedBytes(saved)
  {
    hide Bytes, SavedBytes;
    saved, bytes := {}, 0;
    NothingSaved();
    var i := 0;
    while i < |in_.saved|
      invariant 0 <= i <= |in_.saved|
      invariant forall j: nat :: j < i ==> !BadRegister(in_, t, j)
      invariant saved == SavedSet(in_.saved[..i]) && bytes == SavedBytes(saved)
    {
      var r := in_.saved[i];
      if r !in t.calleeSaved || r >= 32 || r in saved {
        assert BadRegister(in_, t, i);
        return false, {}, 0;
      }
      OneMore(saved, r);
      assert in_.saved[..i + 1] == in_.saved[..i] + [r];
      assert SavedSet(in_.saved[..i + 1]) == SavedSet(in_.saved[..i]) + {r};
      saved, bytes := saved + {r}, bytes + Size(r);
      i := i + 1;
    }
    assert in_.saved[..i] == in_.saved;
    ok := true;
  }

  lemma {:induction false} NothingFrom(n: nat, end: nat)
    requires n <= end
    ensures Bytes({}, n, end) == 0
    decreases end - n
  {
    if n < end {
      NothingFrom(n + 1, end);
    }
  }

  lemma NothingSaved()
    ensures SavedBytes({}) == 0
  {
    hide Bytes;
    NothingFrom(0, 16);
    NothingFrom(16, 32);
  }

  lemma OneMore(saved: set<nat>, r: nat)
    requires r !in saved && r < 32
    ensures SavedBytes(saved + {r}) == SavedBytes(saved) + Size(r)
  {
    hide Bytes;
    BytesAdd(saved, r, 0, 16);
    BytesAdd(saved, r, 16, 32);
  }

  /** Places, saves and restores for one class of registers. */
  method SaveClass(saved: set<nat>, low: nat, high: nat, base: nat, from: int, hasReturn: bool)
      returns (saves: seq<Save>, prologue: seq<Instr>, epilogue: seq<Instr>, offset: int)
    requires low <= high
    ensures saves == SavesFrom(saved, low, high, from) && offset == from + Bytes(saved, low, high)
    ensures prologue == SavesCode(false, saves, base)
    ensures epilogue == if hasReturn then RestoresCode(false, saves, base) else []
  {
    hide SavesCode, RestoresCode;
    saves, prologue, epilogue, offset := [], [], [], from;
    NoSaves(false, base);
    var n := low;
    while n < high
      invariant low <= n <= high
      invariant saves + SavesFrom(saved, n, high, offset) == SavesFrom(saved, low, high, from)
      invariant offset + Bytes(saved, n, high) == from + Bytes(saved, low, high)
      invariant prologue == SavesCode(false, saves, base)
      invariant epilogue == if hasReturn then RestoresCode(false, saves, base) else []
    {
      if n in saved {
        var s := Save(n, offset, Size(n));
        SavesNext(false, saves, s, base);
        prologue := prologue + [Store(base, offset, n, s.size)];
        if hasReturn {
          epilogue := epilogue + [Load(n, base, offset, s.size)];
        }
        saves, offset := saves + [s], offset + s.size;
      }
      n := n + 1;
    }
  }

  /** Everything before the saves. */
  method EmitEntry(in_: Input, t: Target, block: nat, frame: nat) returns (prologue: seq<Instr>)
    ensures prologue == OpenFrame(in_) + WindowsHomes(in_, t) + Allocate(in_, frame) + Variadics(in_, t, block)
  {
    hide OpenFrame, Allocate, Homes, VariadicInts, VariadicVectors;
    prologue := OpenFrame(in_);
    if in_.abi.Windows? && in_.variadic {
      var homes := EmitHomes(t, if in_.noRedZone then SCRATCH else BP);
      prologue := prologue + homes;
    }
    prologue := prologue + Allocate(in_, frame);
    if in_.variadic && !in_.abi.Windows? {
      var areas := EmitVariadics(t, block);
      prologue := prologue + areas;
    }
  }

  /** Plans a frame, or refuses inputs no frame can serve. */
  method PlanFrame(in_: Input, t: Target) returns (r: Result)
    ensures r.Invalid? <==>
              || in_.abi.OtherAbi? || in_.spillBytes % 8 != 0 || in_.spillBytes > 0x7FFF_FFFF - 4096
              || (!in_.framePointer && (in_.variadic || in_.usesAlloca || in_.blockArguments))
              || BadSaved(in_, t)
    ensures r.Invalid? <==> Rejected(in_) || BadSaved(in_, t)
    ensures r.Ok? ==> r.plan == PlanOf(in_, t, SavedSet(in_.saved))
    ensures r.Ok? ==> (r.plan.prologue == [] <==>
              in_.leaf && !in_.usesAlloca && !in_.blockArguments && !in_.variadic && in_.saved == [] && in_.spillBytes == 0)
  {
    RejectedWhen(in_);
    hide *;
    if Rejected(in_) {
      return Invalid;
    }
    var ok, saved, bytes := CheckSaved(in_, t);
    if !ok {
      return Invalid;
    }
    PlanIs(in_, t, saved);
    NeedsNone(in_, t);
    if Frameless(in_, bytes) {
      return Ok(NO_PLAN);
    }
    var block, frame := BlockBytes(in_, bytes), FrameBytes(in_, bytes);
    var prologue := EmitEntry(in_, t, block, frame);
    var base := SaveBase(in_);
    var vectors, saveVectors, restoreVectors, middle := SaveClass(saved, 16, 32, base, FirstSave(in_, bytes), in_.hasReturn);
    var integers, saveIntegers, restoreIntegers, end := SaveClass(saved, 0, 16, base, middle, in_.hasReturn);
    SavesByClass(saved, FirstSave(in_, bytes));
    SavesJoin(false, vectors, integers, base);
    var saves := vectors + integers;
    var epilogue := restoreVectors + restoreIntegers;
    if in_.hasReturn {
      epilogue := epilogue + CloseFrame(in_, frame);
    }
    Associates(prologue, saveVectors, saveIntegers);
    r := Ok(Plan(in_.framePointer, VariadicBytes(in_), block, frame, saves, prologue + saveVectors + saveIntegers, epilogue));
  }

  lemma RejectedWhen(in_: Input)
    ensures Rejected(in_) <==>
              || in_.abi.OtherAbi? || in_.spillBytes % 8 != 0 || in_.spillBytes > 0x7FFF_FFFF - 4096
              || (!in_.framePointer && (in_.variadic || in_.usesAlloca || in_.blockArguments))
  {
  }

  /** Nothing is set up exactly for a leaf that saves and keeps nothing. */
  lemma NeedsNone(in_: Input, t: Target)
    requires !BadSaved(in_, t)
    ensures PlanOf(in_, t, SavedSet(in_.saved)).prologue == [] <==>
            in_.leaf && !in_.usesAlloca && !in_.blockArguments && !in_.variadic && in_.saved == [] && in_.spillBytes == 0
  {
    hide OpenFrame, WindowsHomes, Variadics, AllSaves, SavesCode, RestoresCode, CloseFrame, BlockBytes, FrameBytes, SavedBytes, FirstSave, VariadicBytes;
    if in_.saved == [] {
      assert SavedSet(in_.saved) == {};
      NothingSaved();
    } else {
      var r := in_.saved[0];
      assert !BadRegister(in_, t, 0);
      var s := SavedSet(in_.saved);
      assert s == (s - {r}) + {r};
      OneMore(s - {r}, r);
    }
  }

  lemma PlanIs(in_: Input, t: Target, saved: set<nat>)
    ensures var bytes := SavedBytes(saved);
            var block, frame := BlockBytes(in_, bytes), FrameBytes(in_, bytes);
            var saves := AllSaves(saved, FirstSave(in_, bytes));
            PlanOf(in_, t, saved) == if Frameless(in_, bytes) then NO_PLAN else
              Plan(in_.framePointer, VariadicBytes(in_), block, frame, saves,
                   (OpenFrame(in_) + WindowsHomes(in_, t) + Allocate(in_, frame) + Variadics(in_, t, block)) + SavesCode(false, saves, SaveBase(in_)),
                   if in_.hasReturn then RestoresCode(false, saves, SaveBase(in_)) + CloseFrame(in_, frame) else [])
  {
    hide OpenFrame, WindowsHomes, Allocate, Variadics, AllSaves, SavesCode, RestoresCode, CloseFrame, Frameless, BlockBytes, FrameBytes, SavedBytes, FirstSave, VariadicBytes;
  }

  lemma SavesByClass(saved: set<nat>, first: int)
    ensures AllSaves(saved, first) == SavesFrom(saved, 16, 32, first) + SavesFrom(saved, 0, 16, first + Bytes(saved, 16, 32))
  {
    hide SavesFrom, Bytes;
  }

  lemma Associates(a: seq<Instr>, b: seq<Instr>, c: seq<Instr>)
    ensures a + b + c == a + (b + c)
  {
  }

  method EmitHomes(t: Target, base: nat) returns (code: seq<Instr>)
    ensures code == Homes(t, base, 4)
  {
    code := [];
    for n := 0 to 4
      invariant code == Homes(t, base, n)
    {
      code := code + [Store(base, 16 + n * 8, t.arguments(n), 8)];
    }
  }

  method EmitVariadics(t: Target, block: nat) returns (code: seq<Instr>)
    ensures code == VariadicInts(t, block, 6) + VariadicVectors(block, 8)
  {
    code := [];
    for n := 0 to 6
      invariant code == VariadicInts(t, block, n)
    {
      code := code + [Store(SP, block + n * 8, t.arguments(n), 8)];
    }
    ghost var ints := code;
    for n := 0 to 8
      invariant code == ints + VariadicVectors(block, n)
    {
      code := code + [Store(SP, block + 48 + n * 16, 16 + n, 8)];
    }
  }
}
