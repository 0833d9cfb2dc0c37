/** A machine for prologues and epilogues: registers, and memory that remembers which byte
    of which value each address holds. */
module FrameMachine {

  /** The scratch register of both targets' far addresses. */
  const SCRATCH: nat := 10

  datatype Instr =
    | Add(dst: nat, src: nat, n: int)
    | AddReg(dst: nat, left: nat, right: nat)
    | SubReg(dst: nat, left: nat, right: nat)
    | Mov(dst: nat, src: nat)
    | Imm(dst: nat, n: int)
    | Load(dst: nat, base: nat, disp: int, size: nat)
    | Store(base: nat, disp: int, src: nat, size: nat)

  datatype State = State(regs: nat -> int, mem: int -> (int, int))

  function Set(regs: nat -> int, r: nat, v: int): nat -> int
  {
    (q: nat) => if q == r then v else regs(q)
  }

  function Write(mem: int -> (int, int), at: int, size: nat, v: int): int -> (int, int)
  {
    (a: int) => if at <= a < at + size then (v, a - at) else mem(a)
  }

  predicate ByteAt(mem: int -> (int, int), at: int, k: nat)
  {
    mem(at + k) == (mem(at).0, k)
  }

  predicate Whole(mem: int -> (int, int), at: int, size: nat)
  {
    forall k: nat :: k < size ==> ByteAt(mem, at, k)
  }

  /** The value stored there; bytes of different values read as nothing in particular. */
  function Read(mem: int -> (int, int), at: int, size: nat): int
  {
    if Whole(mem, at, size) then mem(at).0 else 0
  }

  function Step(i: Instr, s: State): State
  {
    match i
    case Add(d, r, n) => s.(regs := Set(s.regs, d, s.regs(r) + n))
    case AddReg(d, a, b) => s.(regs := Set(s.regs, d, s.regs(a) + s.regs(b)))
    case SubReg(d, a, b) => s.(regs := Set(s.regs, d, s.regs(a) - s.regs(b)))
    case Mov(d, r) => s.(regs := Set(s.regs, d, s.regs(r)))
    case Imm(d, n) => s.(regs := Set(s.regs, d, n))
    case Load(d, b, disp, size) => s.(regs := Set(s.regs, d, Read(s.mem, s.regs(b) + disp, size)))
    case Store(b, disp, r, size) => s.(mem := Write(s.mem, s.regs(b) + disp, size, s.regs(r)))
  }

  function Exec(code: seq<Instr>, s: State): State
    decreases |code|
  {
    if code == [] then s else Exec(code[1..], Step(code[0], s))
  }

  lemma {:induction false} ExecJoin(a: seq<Instr>, b: seq<Instr>, s: State)
    ensures Exec(a + b, s) == Exec(b, Exec(a, s))
    decreases |a|
  {
    hide Step;
    if a == [] {
      assert a + b == b;
    } else {
      assert (a + b)[1..] == a[1..] + b;
      ExecJoin(a[1..], b, Step(a[0], s));
    }
  }

  lemma ExecOne(i: Instr, s: State)
    ensures Exec([i], s) == Step(i, s)
  {
    hide Step;
    assert [i][1..] == [];
  }

  lemma ExecThen(code: seq<Instr>, i: Instr, s: State)
    ensures Exec(code + [i], s) == Step(i, Exec(code, s))
  {
    hide Step, Exec;
    ExecJoin(code, [i], s);
    ExecOne(i, Exec(code, s));
  }

  lemma ReadWritten(mem: int -> (int, int), at: int, size: nat, v: int)
    requires size > 0
    ensures Read(Write(mem, at, size, v), at, size) == v
  {
    var after := Write(mem, at, size, v);
    assert after(at) == (v, 0);
    forall k: nat | k < size ensures ByteAt(after, at, k) {
    }
  }

  lemma ReadSame(m: int -> (int, int), n: int -> (int, int), at: int, size: nat)
    requires forall a :: at <= a < at + size ==> m(a) == n(a)
    ensures size > 0 ==> Read(m, at, size) == Read(n, at, size)
  {
    if size > 0 {
      assert m(at) == n(at);
      forall k: nat | k < size ensures ByteAt(m, at, k) <==> ByteAt(n, at, k) {
        assert m(at + k) == n(at + k);
      }
    }
  }

  // ----- saving registers -----

  /** A saved register and its place relative to a base register. */
  datatype Save = Save(reg: nat, offset: int, size: nat)

  /** On AArch64 an offset must be scaled and small to be part of the address. */
  predicate Near(limited: bool, s: Save)
  {
    limited ==> s.size > 0 && s.offset >= 0 && s.offset % s.size == 0 && s.offset / s.size < 4096
  }

  /** Code that leaves in `SCRATCH` or in the instruction the address of a save. */
  function SaveCode(limited: bool, s: Save, base: nat): seq<Instr>
  {
    if Near(limited, s) then [Store(base, s.offset, s.reg, s.size)]
    else [Imm(SCRATCH, s.offset), AddReg(SCRATCH, SCRATCH, base), Store(SCRATCH, 0, s.reg, s.size)]
  }

  function RestoreCode(limited: bool, s: Save, base: nat): seq<Instr>
  {
    if Near(limited, s) then [Load(s.reg, base, s.offset, s.size)]
    else [Imm(SCRATCH, s.offset), AddReg(SCRATCH, SCRATCH, base), Load(s.reg, SCRATCH, 0, s.size)]
  }

  function SavesCode(limited: bool, saves: seq<Save>, base: nat): seq<Instr>
    decreases |saves|
  {
    if saves == [] then [] else SavesCode(limited, saves[..|saves| - 1], base) + SaveCode(limited, saves[|saves| - 1], base)
  }

  function RestoresCode(limited: bool, saves: seq<Save>, base: nat): seq<Instr>
    decreases |saves|
  {
    if saves == [] then [] else RestoresCode(limited, saves[..|saves| - 1], base) + RestoreCode(limited, saves[|saves| - 1], base)
  }

  lemma SaveOne(limited: bool, s: Save, base: nat, st: State)
    requires base != SCRATCH && s.reg != SCRATCH
    ensures var t := Exec(SaveCode(limited, s, base), st);
            && t.mem == Write(st.mem, st.regs(base) + s.offset, s.size, st.regs(s.reg))
            && forall r: nat :: r != SCRATCH ==> t.regs(r) == st.regs(r)
  {
    hide Near;
    if Near(limited, s) {
      ExecOne(Store(base, s.offset, s.reg, s.size), st);
    } else {
      var a := [Imm(SCRATCH, s.offset)];
      ExecOne(Imm(SCRATCH, s.offset), st);
      ExecThen(a, AddReg(SCRATCH, SCRATCH, base), st);
      ExecThen(a + [AddReg(SCRATCH, SCRATCH, base)], Store(SCRATCH, 0, s.reg, s.size), st);
      assert SaveCode(limited, s, base) == a + [AddReg(SCRATCH, SCRATCH, base)] + [Store(SCRATCH, 0, s.reg, s.size)];
    }
  }

  lemma RestoreOne(limited: bool, s: Save, base: nat, st: State)
    requires base != SCRATCH && s.reg != SCRATCH
    ensures var t := Exec(RestoreCode(limited, s, base), st);
            && t.mem == st.mem
            && t.regs(s.reg) == Read(st.mem, st.regs(base) + s.offset, s.size)
            && forall r: nat :: r != SCRATCH && r != s.reg ==> t.regs(r) == st.regs(r)
  {
    hide Near, Read;
    if Near(limited, s) {
      ExecOne(Load(s.reg, base, s.offset, s.size), st);
    } else {
      var a := [Imm(SCRATCH, s.offset)];
      ExecOne(Imm(SCRATCH, s.offset), st);
      ExecThen(a, AddReg(SCRATCH, SCRATCH, base), st);
      ExecThen(a + [AddReg(SCRATCH, SCRATCH, base)], Load(s.reg, SCRATCH, 0, s.size), st);
      assert RestoreCode(limited, s, base) == a + [AddReg(SCRATCH, SCRATCH, base)] + [Load(s.reg, SCRATCH, 0, s.size)];
    }
  }

  predicate Disjoint(s: Save, t: Save)
  {
    s.offset + s.size <= t.offset || t.offset + t.size <= s.offset
  }

  /** Distinct registers in disjoint places, none of them the scratch or base register. */
  ghost predicate Apart(saves: seq<Save>, base: nat)
  {
    && (forall i: nat :: i < |saves| ==> saves[i].size > 0 && saves[i].reg != SCRATCH && saves[i].reg != base)
    && (forall i: nat, j: nat :: i < j < |saves| ==> saves[i].reg != saves[j].reg && Disjoint(saves[i], saves[j]))
  }

  predicate Inside(a: int, s: Save, base: int)
  {
    base + s.offset <= a < base + s.offset + s.size
  }

  /** Every save holds its register. */
  ghost predicate Holding(saves: seq<Save>, mem: int -> (int, int), base: int, regs: nat -> int)
  {
    forall i: nat :: i < |saves| ==> Read(mem, base + saves[i].offset, saves[i].size) == regs(saves[i].reg)
  }

  lemma ApartPrefix(saves: seq<Save>, base: nat)
    requires Apart(saves, base) && saves != []
    ensures Apart(saves[..|saves| - 1], base)
  {
  }

  /** Saving leaves every register in its place and the rest of memory alone. */
  lemma {:induction false} SaveAll(limited: bool, saves: seq<Save>, base: nat, st: State)
    requires Apart(saves, base) && base != SCRATCH
    ensures var t := Exec(SavesCode(limited, saves, base), st);
            && Holding(saves, t.mem, st.regs(base), st.regs)
            && (forall r: nat :: r != SCRATCH ==> t.regs(r) == st.regs(r))
            && (forall a :: (forall i: nat :: i < |saves| ==> !Inside(a, saves[i], st.regs(base))) ==> t.mem(a) == st.mem(a))
    decreases |saves|
  {
    hide Exec, Read, SaveCode, Write;
    if saves == [] {
      NoCode(st);
    } else {
      var rest, last := saves[..|saves| - 1], saves[|saves| - 1];
      ApartPrefix(saves, base);
      SaveAll(limited, rest, base, st);
      var u := Exec(SavesCode(limited, rest, base), st);
      ExecJoin(SavesCode(limited, rest, base), SaveCode(limited, last, base), st);
      SaveOne(limited, last, base, u);
      SaveLast(rest, last, u, st.regs(base), st.regs(last.reg));
    }
  }

  lemma NoCode(st: State)
    ensures Exec([], st) == st
  {
  }

  /** One more write does not disturb the places before it. */
  lemma SaveLast(rest: seq<Save>, last: Save, u: State, base: int, v: int)
    requires last.size > 0 && forall i: nat :: i < |rest| ==> rest[i].size > 0 && Disjoint(rest[i], last)
    ensures var mem := Write(u.mem, base + last.offset, last.size, v);
            && Read(mem, base + last.offset, last.size) == v
            && (forall i: nat :: i < |rest| ==> Read(mem, base + rest[i].offset, rest[i].size) == Read(u.mem, base + rest[i].offset, rest[i].size))
            && (forall a :: !Inside(a, last, base) ==> mem(a) == u.mem(a))
  {
    hide Read;
    var mem := Write(u.mem, base + last.offset, last.size, v);
    ReadWritten(u.mem, base + last.offset, last.size, v);
    forall i: nat | i < |rest| ensures Read(mem, base + rest[i].offset, rest[i].size) == Read(u.mem, base + rest[i].offset, rest[i].size) {
      ReadSame(mem, u.mem, base + rest[i].offset, rest[i].size);
    }
  }

  /** Restoring reads every register back. */
  lemma {:induction false} RestoreAll(limited: bool, saves: seq<Save>, base: nat, st: State)
    requires Apart(saves, base) && base != SCRATCH
    ensures var t := Exec(RestoresCode(limited, saves, base), st);
            && t.mem == st.mem
            && Holding(saves, st.mem, st.regs(base), t.regs)
            && (forall r: nat :: r != SCRATCH && (forall i: nat :: i < |saves| ==> saves[i].reg != r) ==> t.regs(r) == st.regs(r))
    decreases |saves|
  {
    hide Exec, Read, RestoreCode;
    if saves == [] {
      NoCode(st);
    } else {
      var rest, last := saves[..|saves| - 1], saves[|saves| - 1];
      ApartPrefix(saves, base);
      RestoreAll(limited, rest, base, st);
      var u := Exec(RestoresCode(limited, rest, base), st);
      ExecJoin(RestoresCode(limited, rest, base), RestoreCode(limited, last, base), st);
      RestoreOne(limited, last, base, u);
      var t := Exec(RestoresCode(limited, saves, base), st);
      assert u.regs(base) == st.regs(base);
      forall i: nat | i < |saves| ensures Read(st.mem, st.regs(base) + saves[i].offset, saves[i].size) == t.regs(saves[i].reg) {
        if i < |rest| {
          assert rest[i] == saves[i];
        }
      }
    }
  }

  // ----- building the code -----

  lemma SavesNext(limited: bool, saves: seq<Save>, s: Save, base: nat)
    ensures SavesCode(limited, saves + [s], base) == SavesCode(limited, saves, base) + SaveCode(limited, s, base)
    ensures RestoresCode(limited, saves + [s], base) == RestoresCode(limited, saves, base) + RestoreCode(limited, s, base)
  {
    assert (saves + [s])[..|saves|] == saves;
  }

  lemma NoSaves(limited: bool, base: nat)
    ensures SavesCode(limited, [], base) == [] && RestoresCode(limited, [], base) == []
  {
  }

  lemma {:induction false} SavesJoin(limited: bool, a: seq<Save>, b: seq<Save>, base: nat)
    ensures SavesCode(limited, a + b, base) == SavesCode(limited, a, base) + SavesCode(limited, b, base)
    ensures RestoresCode(limited, a + b, base) == RestoresCode(limited, a, base) + RestoresCode(limited, b, base)
    decreases |b|
  {
    hide SavesCode, RestoresCode, SaveCode, RestoreCode;
    NoSaves(limited, base);
    if b == [] {
      assert a + b == a;
    } else {
      var rest, last := b[..|b| - 1], b[|b| - 1];
      assert b == rest + [last] && a + b == (a + rest) + [last];
      SavesJoin(limited, a, rest, base);
      SavesNext(limited, a + rest, last, base);
      SavesNext(limited, rest, last, base);
    }
  }

  // ----- the red zone -----

  /** No access below the stack pointer. */
  predicate AboveStack(code: seq<Instr>, s: State, sp: nat)
    decreases |code|
  {
    code != [] ==>
      && (code[0].Load? || code[0].Store? ==> s.regs(code[0].base) + code[0].disp >= s.regs(sp))
      && AboveStack(code[1..], Step(code[0], s), sp)
  }

  lemma {:induction false} AboveJoin(a: seq<Instr>, b: seq<Instr>, s: State, sp: nat)
    ensures AboveStack(a + b, s, sp) <==> AboveStack(a, s, sp) && AboveStack(b, Exec(a, s), sp)
    decreases |a|
  {
    hide Step;
    if a == [] {
      assert a + b == b;
    } else {
      assert (a + b)[1..] == a[1..] + b;
      AboveJoin(a[1..], b, Step(a[0], s), sp);
    }
  }
}
