/** Dead code after allocation: one reverse pass over each block that deletes results
    nobody reads, with a flag in place of repeated forward searches for overflow
    branches. */
module DeadCode {
  import opened Optional


  /** What an opcode is to the pass. Moves and 32-bit extensions keep the overflow
      flag; overflow arithmetic sets it; overflow branches read it; observable
      instructions stay whatever they define. */
  datatype Kind = Plain | Move | Overflow | OverflowBranch | Observable | Call | Anchor

  /** Registers are physical. `first` is the first operand if it is a register. */
  datatype Inst = Inst(kind: Kind, code: nat, defs: seq<nat>, uses: seq<nat>, first: Option<nat>,
                       clobbers: set<nat>, early: set<nat>, arguments: seq<nat>)
  {
    /** Only calls clobber and take register arguments; early clobbers are no operands
        and no registers of globals. */
    ghost predicate Valid(globals: seq<nat>)
    {
      && (!kind.Call? ==> clobbers == {} && arguments == [])
      && (forall r :: r in uses ==> r !in early)
      && (forall r :: kind.Call? && r in globals ==> r !in early)
    }
  }

  function Regs(rs: seq<nat>): set<nat>
  {
    set r | r in rs
  }

  // ----- running -----

  /** Opcodes are uninterpreted. `effect` is memory and everything a caller can observe,
      with the direction of branches. */
  datatype Machine = Machine(value: (nat, nat, seq<int>, int) -> int,
                             junk: (nat, nat, seq<int>, int) -> int,
                             effect: (nat, seq<int>, int, bool) -> int,
                             overflows: (nat, seq<int>) -> bool,
                             flags: (nat, seq<int>, int) -> bool)

  datatype State = State(regs: nat -> int, mem: int, flag: bool)

  function ReadAll(regs: nat -> int, rs: seq<nat>): seq<int>
  {
    seq(|rs|, k requires 0 <= k < |rs| => regs(rs[k]))
  }

  /** Registers of globals are inputs of every call, and a call may change them. */
  ghost function Arguments(m: Machine, globals: seq<nat>, i: Inst, st: State): seq<int>
  {
    ReadAll(st.regs, i.uses + i.arguments + if i.kind.Call? then globals else [])
  }

  predicate ActsBeyondResults(i: Inst)
  {
    i.kind.Observable? || i.kind.Call? || (i.defs == [] && !i.kind.Anchor?)
  }

  ghost function Exec(m: Machine, globals: seq<nat>, i: Inst, st: State): State
  {
    var args := Arguments(m, globals, i, st);
    State((r: nat) => if r in i.defs || (i.kind.Call? && r in globals) then m.value(i.code, r, args, st.mem)
               else if r in i.clobbers || r in i.early then m.junk(i.code, r, args, st.mem)
               else st.regs(r),
          if ActsBeyondResults(i) then m.effect(i.code, args, st.mem, i.kind.OverflowBranch? && st.flag) else st.mem,
          match i.kind
          case Move => st.flag
          case Anchor => st.flag
          case Overflow => m.overflows(i.code, args)
          case _ => m.flags(i.code, args, st.mem))
  }

  ghost function ExecAll(m: Machine, globals: seq<nat>, body: seq<Inst>, st: State): State
    decreases |body|
  {
    if body == [] then st else ExecAll(m, globals, body[1..], Exec(m, globals, body[0], st))
  }

  // ----- overflow branches -----

  /** The forward search of the original algorithm: over moves and extensions to an
      overflow branch. */
  predicate Reaches(body: seq<Inst>)
    decreases |body|
  {
    body != [] && (body[0].kind.OverflowBranch? || (body[0].kind.Move? && Reaches(body[1..])))
  }

  /** Every overflow branch reads the flag of an overflow instruction that it reaches
      over moves alone. */
  ghost predicate FlagsFlow(body: seq<Inst>)
  {
    && !Reaches(body)
    && forall k :: 0 < k <= |body| && Reaches(body[k..]) ==> body[k - 1].kind.Move? || body[k - 1].kind.Overflow?
  }

  // ----- one instruction of the pass -----

  /** A result that nobody reads, of an instruction that does nothing else, and whose
      flag no surviving overflow branch reads. Stack and frame pointers are kept. */
  predicate Deletable(i: Inst, live: set<nat>, reachable: bool, pinned: set<nat>)
  {
    && i.defs != []
    && (forall r :: r in i.defs ==> r !in live)
    && !i.kind.Observable? && !i.kind.Call?
    && !(i.kind.Overflow? && reachable)
    && !(i.first.Some? && i.first.value in pinned)
  }

  function LiveAbove(i: Inst, live: set<nat>, globals: seq<nat>): set<nat>
  {
    var called := if i.kind.Call? then (live - Regs(i.defs) - i.clobbers) + Regs(globals) else live - Regs(i.defs);
    var used := (called + Regs(i.uses)) - i.early;
    if i.kind.Call? then used + Regs(i.arguments) else used
  }

  /** The flag after a surviving instruction. */
  function Frontier(i: Inst, reachable: bool): bool
  {
    if i.kind.OverflowBranch? then true else if i.kind.Move? then reachable else false
  }

  const ANCHOR: Inst := Inst(Anchor, 0, [], [], None, {}, {}, [])

  datatype Swept = Swept(kept: seq<Inst>, live: set<nat>, reachable: bool)

  /** The pass over `body[k..]`; `whole` says that the block has nothing but the
      instruction to come and no label, so that deleting it needs an anchor. */
  function Sweep(body: seq<Inst>, k: nat, out: set<nat>, globals: seq<nat>, pinned: set<nat>, labelled: bool): Swept
    requires k <= |body|
    decreases |body| - k
  {
    if k == |body| then Swept([], out, false)
    else
      var s := Sweep(body, k + 1, out, globals, pinned, labelled);
      var i := body[k];
      if Deletable(i, s.live, s.reachable, pinned) then
        if k == 0 && s.kept == [] && !labelled then Swept([ANCHOR], s.live, false) else s
      else Swept([i] + s.kept, LiveAbove(i, s.live, globals), Frontier(i, s.reachable))
  }

  // ----- what the pass drops, said without the pass -----

  /** The register's value on entry is read: by an operand, as an argument of a call, or
      as a global that a call may read. */
  predicate Reads(i: Inst, globals: seq<nat>, r: nat)
  {
    || (i.kind.Call? && r in i.arguments)
    || (r !in i.early && (r in i.uses || (i.kind.Call? && r in globals)))
  }

  /** The register's value on entry does not outlive the instruction. */
  predicate Kills(i: Inst, r: nat)
  {
    r in i.defs || r in i.early || (i.kind.Call? && r in i.clobbers)
  }

  /** The code in front of place n leaves the register alone, and it is read there, or
      live out where the code ends. */
  ghost predicate ReadAt(code: seq<Inst>, out: set<nat>, globals: seq<nat>, r: nat, n: nat)
    requires n <= |code|
  {
    && (forall j :: 0 <= j < n ==> !Kills(code[j], r))
    && (if n < |code| then Reads(code[n], globals, r) else r in out)
  }

  ghost predicate Demanded(code: seq<Inst>, out: set<nat>, globals: seq<nat>, r: nat)
  {
    exists n: nat :: n <= |code| && ReadAt(code, out, globals, r, n)
  }

  /** An overflow branch reads the flag, with nothing but moves in front of it. */
  ghost predicate FlagRead(code: seq<Inst>)
  {
    exists n :: 0 <= n < |code| && code[n].kind.OverflowBranch? && forall j :: 0 <= j < n ==> code[j].kind.Move?
  }

  /** The instructions of `body[k..]` whose places are kept, in order. */
  ghost function Survivors(body: seq<Inst>, keep: set<nat>, k: nat): seq<Inst>
    requires k <= |body|
    decreases |body| - k
  {
    if k == |body| then [] else (if k in keep then [body[k]] else []) + Survivors(body, keep, k + 1)
  }

  /** Nothing in `later` depends on the instruction, and it only defines registers other
      than the pinned ones. */
  ghost predicate Needless(i: Inst, later: seq<Inst>, out: set<nat>, globals: seq<nat>, pinned: set<nat>)
  {
    && i.defs != [] && !i.kind.Observable? && !i.kind.Call?
    && !(i.first.Some? && i.first.value in pinned)
    && !(i.kind.Overflow? && FlagRead(later))
    && forall r: nat :: r in i.defs ==> !Demanded(later, out, globals, r)
  }

  lemma LiveAboveHolds(i: Inst, live: set<nat>, globals: seq<nat>, r: nat)
    ensures r in LiveAbove(i, live, globals) <==> Reads(i, globals, r) || (r in live && !Kills(i, r))
  {
  }

  lemma DemandAbove(i: Inst, code: seq<Inst>, out: set<nat>, globals: seq<nat>, r: nat)
    ensures Demanded([i] + code, out, globals, r) <==> Reads(i, globals, r) || (Demanded(code, out, globals, r) && !Kills(i, r))
  {
    var all := [i] + code;
    hide Reads, Kills;
    if Reads(i, globals, r) {
      assert ReadAt(all, out, globals, r, 0);
    } else if Demanded(code, out, globals, r) && !Kills(i, r) {
      var n: nat :| n <= |code| && ReadAt(code, out, globals, r, n);
      forall j | 0 <= j < n + 1 ensures !Kills(all[j], r) {
        assert j > 0 ==> all[j] == code[j - 1];
      }
      assert ReadAt(all, out, globals, r, n + 1);
    }
    if Demanded(all, out, globals, r) && !Reads(i, globals, r) {
      var n: nat :| n <= |all| && ReadAt(all, out, globals, r, n);
      assert all[0] == i && n > 0;
      forall j | 0 <= j < n - 1 ensures !Kills(code[j], r) {
        assert code[j] == all[j + 1];
      }
      assert ReadAt(code, out, globals, r, n - 1);
    }
  }

  lemma {:induction false} SearchReads(code: seq<Inst>)
    ensures Reaches(code) <==> FlagRead(code)
    decreases |code|
  {
    if code != [] {
      var rest := code[1..];
      SearchReads(rest);
      if code[0].kind.Move? && FlagRead(rest) {
        var n :| 0 <= n < |rest| && rest[n].kind.OverflowBranch? && forall j :: 0 <= j < n ==> rest[j].kind.Move?;
        forall j | 0 <= j < n + 1 ensures code[j].kind.Move? {
          assert j > 0 ==> code[j] == rest[j - 1];
        }
        assert code[n + 1].kind.OverflowBranch?;
      }
      if FlagRead(code) && !code[0].kind.OverflowBranch? {
        var n :| 0 <= n < |code| && code[n].kind.OverflowBranch? && forall j :: 0 <= j < n ==> code[j].kind.Move?;
        forall j | 0 <= j < n - 1 ensures rest[j].kind.Move? {
          assert rest[j] == code[j + 1];
        }
        assert rest[n - 1].kind.OverflowBranch?;
      }
    }
  }

  /** The set the pass carries is what the survivors below demand. */
  lemma {:induction false} LiveIsDemanded(body: seq<Inst>, k: nat, out: set<nat>, globals: seq<nat>, pinned: set<nat>, labelled: bool, r: nat)
    requires k <= |body|
    ensures var s := Sweep(body, k, out, globals, pinned, labelled);
            r in s.live <==> Demanded(s.kept, out, globals, r)
    decreases |body| - k
  {
    hide LiveAbove, Reads, Kills, Demanded;
    if k == |body| {
      NothingLeft(out, globals, r);
    } else {
      LiveIsDemanded(body, k + 1, out, globals, pinned, labelled, r);
      var s := Sweep(body, k + 1, out, globals, pinned, labelled);
      LiveAboveHolds(body[k], s.live, globals, r);
      DemandAbove(body[k], s.kept, out, globals, r);
      if s.kept == [] {
        AnchorDemands(out, globals, r);
      }
    }
  }

  lemma NothingLeft(out: set<nat>, globals: seq<nat>, r: nat)
    ensures Demanded([], out, globals, r) <==> r in out
  {
    assert ReadAt([], out, globals, r, 0) <==> r in out;
  }

  lemma AnchorDemands(out: set<nat>, globals: seq<nat>, r: nat)
    ensures Demanded([ANCHOR], out, globals, r) <==> Demanded([], out, globals, r)
  {
    hide Demanded;
    DemandAbove(ANCHOR, [], out, globals, r);
    assert [ANCHOR] + [] == [ANCHOR];
  }

  /** The places the pass does not delete. */
  ghost function Places(body: seq<Inst>, out: set<nat>, globals: seq<nat>, pinned: set<nat>, labelled: bool): set<nat>
  {
    set k: nat | k < |body| &&
                 var s := Sweep(body, k + 1, out, globals, pinned, labelled);
                 !Deletable(body[k], s.live, s.reachable, pinned)
  }

  /** What is left of a block whose kept places are these. */
  ghost function Remaining(body: seq<Inst>, keep: set<nat>, k: nat, labelled: bool): seq<Inst>
    requires k <= |body|
  {
    var left := Survivors(body, keep, k);
    if k == 0 && left == [] && body != [] && !labelled then [ANCHOR] else left
  }

  lemma {:induction false} PlacesSurvive(body: seq<Inst>, k: nat, out: set<nat>, globals: seq<nat>, pinned: set<nat>, labelled: bool)
    requires k <= |body|
    ensures Sweep(body, k, out, globals, pinned, labelled).kept == Remaining(body, Places(body, out, globals, pinned, labelled), k, labelled)
    decreases |body| - k
  {
    hide LiveAbove, Deletable, Frontier, Places;
    if k < |body| {
      PlacesSurvive(body, k + 1, out, globals, pinned, labelled);
      InPlaces(body, k, out, globals, pinned, labelled);
    }
  }

  lemma InPlaces(body: seq<Inst>, k: nat, out: set<nat>, globals: seq<nat>, pinned: set<nat>, labelled: bool)
    requires k < |body|
    ensures var s := Sweep(body, k + 1, out, globals, pinned, labelled);
            k in Places(body, out, globals, pinned, labelled) <==> !Deletable(body[k], s.live, s.reachable, pinned)
  {
    hide Sweep, Deletable;
  }

  /** An instruction is deleted exactly when it is needless to those kept below it. */
  lemma DeletableIsNeedless(body: seq<Inst>, k: nat, out: set<nat>, globals: seq<nat>, pinned: set<nat>, labelled: bool)
    requires k < |body|
    ensures var keep := Places(body, out, globals, pinned, labelled);
            k in keep <==> !Needless(body[k], Survivors(body, keep, k + 1), out, globals, pinned)
  {
    hide LiveAbove, Demanded, Sweep, FlagRead, Survivors;
    var keep := Places(body, out, globals, pinned, labelled);
    var s := Sweep(body, k + 1, out, globals, pinned, labelled);
    PlacesSurvive(body, k + 1, out, globals, pinned, labelled);
    assert s.kept == Survivors(body, keep, k + 1);
    forall r: nat | r in body[k].defs ensures r in s.live <==> Demanded(s.kept, out, globals, r) {
      LiveIsDemanded(body, k + 1, out, globals, pinned, labelled, r);
    }
    FrontierIsSearch(body, k + 1, out, globals, pinned, labelled);
    SearchReads(s.kept);
  }

  /** One reverse pass, deleting in place. What is left are the instructions at the kept
      places, or an anchor where a block without a label would be left empty. A place is
      not kept exactly when its instruction only defines registers that no kept
      instruction below it and no successor reads, none of them for a pinned register,
      and no overflow branch below it reads its flag. */
  method SweepBlock(body: seq<Inst>, out: set<nat>, globals: seq<nat>, pinned: set<nat>, labelled: bool)
      returns (kept: seq<Inst>, live: set<nat>, ghost keep: set<nat>)
    ensures Swept(kept, live, Reaches(kept)) == Sweep(body, 0, out, globals, pinned, labelled)
    ensures kept == if Survivors(body, keep, 0) == [] && body != [] && !labelled then [ANCHOR] else Survivors(body, keep, 0)
    ensures forall k: nat :: k < |body| ==>
              (k in keep <==> !Needless(body[k], Survivors(body, keep, k + 1), out, globals, pinned))
    ensures forall r: nat :: r in live <==> Demanded(kept, out, globals, r)
  {
    kept, live := [], out;
    var reachable := false;
    var at := |body|;
    while at > 0
      invariant 0 <= at <= |body|
      invariant Swept(kept, live, reachable) == Sweep(body, at, out, globals, pinned, labelled)
    {
      at := at - 1;
      var i := body[at];
      var registerDefined, dead := false, true;
      var d := 0;
      ghost var below := live;
      while d < |i.defs|
        invariant 0 <= d <= |i.defs|
        invariant registerDefined <==> d > 0
        invariant live == below - Regs(i.defs[..d])
        invariant dead <==> forall e :: 0 <= e < d ==> i.defs[e] !in below
      {
        registerDefined := true;
        if i.defs[d] in live {
          dead := false;
        }
        live := live - {i.defs[d]};
        assert i.defs[..d + 1] == i.defs[..d] + [i.defs[d]];
        d := d + 1;
      }
      assert i.defs[..d] == i.defs;
      if registerDefined && dead && !i.kind.Observable? && !i.kind.Call? && !(i.kind.Overflow? && reachable)
         && !(i.first.Some? && i.first.value in pinned) {
        assert live == below;
        if at == 0 && kept == [] && !labelled {
          kept := [ANCHOR];
          reachable := false;
        }
        continue;
      }
      assert live == below - Regs(i.defs);
      kept := [i] + kept;
      if i.kind.Call? {
        live := (live - i.clobbers) + Regs(globals);
      }
      live := (live + Regs(i.uses)) - i.early;
      if i.kind.Call? {
        live := live + Regs(i.arguments);
      }
      if i.kind.OverflowBranch? {
        reachable := true;
      } else if !i.kind.Move? {
        reachable := false;
      }
    }
    FrontierIsSearch(body, 0, out, globals, pinned, labelled);
    keep := Places(body, out, globals, pinned, labelled);
    SweepTold(body, out, globals, pinned, labelled);
  }

  lemma SweepTold(body: seq<Inst>, out: set<nat>, globals: seq<nat>, pinned: set<nat>, labelled: bool)
    ensures var s := Sweep(body, 0, out, globals, pinned, labelled);
            var keep := Places(body, out, globals, pinned, labelled);
            && s.kept == Remaining(body, keep, 0, labelled)
            && (forall k: nat :: k < |body| ==>
                  (k in keep <==> !Needless(body[k], Survivors(body, keep, k + 1), out, globals, pinned)))
            && forall r: nat :: r in s.live <==> Demanded(s.kept, out, globals, r)
  {
    hide Sweep, Demanded, Needless, Survivors, Remaining, Places;
    PlacesSurvive(body, 0, out, globals, pinned, labelled);
    forall k: nat | k < |body|
      ensures var keep := Places(body, out, globals, pinned, labelled);
              k in keep <==> !Needless(body[k], Survivors(body, keep, k + 1), out, globals, pinned)
    {
      DeletableIsNeedless(body, k, out, globals, pinned, labelled);
    }
    forall r: nat
      ensures var s := Sweep(body, 0, out, globals, pinned, labelled);
              r in s.live <==> Demanded(s.kept, out, globals, r)
    {
      LiveIsDemanded(body, 0, out, globals, pinned, labelled, r);
    }
  }

  /** The flag always equals a fresh forward search over what survives. */
  lemma {:induction false} FrontierIsSearch(body: seq<Inst>, k: nat, out: set<nat>, globals: seq<nat>, pinned: set<nat>, labelled: bool)
    requires k <= |body|
    ensures var s := Sweep(body, k, out, globals, pinned, labelled);
            s.reachable == Reaches(s.kept)
    decreases |body| - k
  {
    if k < |body| {
      FrontierIsSearch(body, k + 1, out, globals, pinned, labelled);
      var s := Sweep(body, k + 1, out, globals, pinned, labelled);
      assert ([body[k]] + s.kept)[1..] == s.kept;
    }
  }

  // ----- meaning -----

  /** Liveness without any deletion, as the analysis before the pass computes it. */
  function FullLive(body: seq<Inst>, k: nat, out: set<nat>, globals: seq<nat>): set<nat>
    requires k <= |body|
    decreases |body| - k
  {
    if k == |body| then out else LiveAbove(body[k], FullLive(body, k + 1, out, globals), globals)
  }

  /** What instruction selection and register assignment guarantee for a block: valid
      instructions, overflow flags next to their branches, and no value kept in a
      register across an instruction that clobbers it early. */
  ghost predicate WellFormed(body: seq<Inst>, out: set<nat>, globals: seq<nat>)
  {
    && FlagsFlow(body)
    && forall k :: 0 <= k < |body| ==>
         && body[k].Valid(globals)
         && body[k].early * (FullLive(body, k + 1, out, globals) - Regs(body[k].defs)) == {}
  }

  ghost predicate Agree(live: set<nat>, flagged: bool, a: State, b: State)
  {
    && (forall r :: r in live ==> a.regs(r) == b.regs(r))
    && a.mem == b.mem
    && (flagged ==> a.flag == b.flag)
  }

  lemma SameArguments(m: Machine, globals: seq<nat>, i: Inst, live: set<nat>, flagged: bool, a: State, b: State)
    requires i.Valid(globals) && Agree(LiveAbove(i, live, globals), flagged, a, b)
    ensures Arguments(m, globals, i, a) == Arguments(m, globals, i, b)
  {
    var rs := i.uses + i.arguments + if i.kind.Call? then globals else [];
    forall k: nat | k < |rs| ensures a.regs(rs[k]) == b.regs(rs[k]) {
      assert rs[k] in i.uses || rs[k] in i.arguments || (i.kind.Call? && rs[k] in globals);
      assert rs[k] in LiveAbove(i, live, globals);
    }
  }

  /** A surviving instruction: agreement above it gives agreement below it. */
  lemma KeptAgrees(m: Machine, globals: seq<nat>, i: Inst, live: set<nat>, reachable: bool, a: State, b: State)
    requires i.Valid(globals) && (reachable ==> !i.kind.Anchor?)
    requires Agree(LiveAbove(i, live, globals), Frontier(i, reachable), a, b)
    ensures Agree(live, reachable, Exec(m, globals, i, a), Exec(m, globals, i, b))
  {
    SameArguments(m, globals, i, live, Frontier(i, reachable), a, b);
    var p, q := Exec(m, globals, i, a), Exec(m, globals, i, b);
    hide Arguments, ReadAll;
    forall r | r in live ensures p.regs(r) == q.regs(r) {
      if r !in i.defs && !(i.kind.Call? && r in globals) && r !in i.clobbers && r !in i.early {
        assert r in LiveAbove(i, live, globals);
      }
    }
  }

  /** A deleted instruction changes nothing that is read later. */
  lemma DeletedAgrees(m: Machine, globals: seq<nat>, i: Inst, live: set<nat>, reachable: bool, pinned: set<nat>, a: State, b: State)
    requires i.Valid(globals) && Deletable(i, live, reachable, pinned)
    requires i.early * (live - Regs(i.defs)) == {}
    requires reachable ==> i.kind.Move? || i.kind.Overflow?
    requires Agree(live, reachable, a, b)
    ensures Agree(live, reachable, Exec(m, globals, i, a), b)
  {
    hide Arguments, ReadAll;
    forall r | r in live ensures Exec(m, globals, i, a).regs(r) == a.regs(r) {
      assert r !in i.defs;
      assert r in i.early ==> r in i.early * (live - Regs(i.defs));
    }
  }

  /** The pass never finds more registers live than the analysis before it. */
  lemma {:induction false} SweptLive(body: seq<Inst>, k: nat, out: set<nat>, globals: seq<nat>, pinned: set<nat>, labelled: bool)
    requires k <= |body| && WellFormed(body, out, globals)
    ensures Sweep(body, k, out, globals, pinned, labelled).live <= FullLive(body, k, out, globals)
    decreases |body| - k
  {
    hide FlagsFlow, LiveAbove, Deletable, Frontier;
    if k < |body| {
      SweptLive(body, k + 1, out, globals, pinned, labelled);
      var s := Sweep(body, k + 1, out, globals, pinned, labelled);
      LiveAboveGrows(body[k], s, FullLive(body, k + 1, out, globals), globals, pinned);
    }
  }

  lemma LiveAboveGrows(i: Inst, s: Swept, full: set<nat>, globals: seq<nat>, pinned: set<nat>)
    requires s.live <= full && i.Valid(globals) && i.early * (full - Regs(i.defs)) == {}
    ensures LiveAbove(i, s.live, globals) <= LiveAbove(i, full, globals)
    ensures Deletable(i, s.live, s.reachable, pinned) ==> s.live <= LiveAbove(i, full, globals)
  {
    if Deletable(i, s.live, s.reachable, pinned) {
      forall r | r in s.live ensures r in LiveAbove(i, full, globals) {
        assert r !in i.defs;
        assert r in i.early ==> r in i.early * (full - Regs(i.defs));
      }
    }
  }

  /** If the flag is read below among the survivors, it was read there before. */
  lemma {:induction false} SearchSurvives(body: seq<Inst>, k: nat, out: set<nat>, globals: seq<nat>, pinned: set<nat>, labelled: bool)
    requires k <= |body| && FlagsFlow(body)
    ensures Sweep(body, k, out, globals, pinned, labelled).reachable ==> Reaches(body[k..])
    decreases |body| - k
  {
    hide LiveAbove;
    if k < |body| {
      SearchSurvives(body, k + 1, out, globals, pinned, labelled);
      assert body[k..][0] == body[k] && body[k..][1..] == body[k + 1..];
    }
  }

  /** Between a surviving overflow branch and its flag there are only moves. */
  lemma FlagAbove(body: seq<Inst>, k: nat, out: set<nat>, globals: seq<nat>, pinned: set<nat>, labelled: bool)
    requires k < |body| && FlagsFlow(body)
    ensures Sweep(body, k + 1, out, globals, pinned, labelled).reachable ==> body[k].kind.Move? || body[k].kind.Overflow?
  {
    SearchSurvives(body, k + 1, out, globals, pinned, labelled);
    assert body[(k + 1) - 1] == body[k];
  }

  lemma DeletedStep(m: Machine, body: seq<Inst>, k: nat, out: set<nat>, globals: seq<nat>, pinned: set<nat>, labelled: bool,
                    a: State, b: State)
    requires k < |body| && WellFormed(body, out, globals)
    requires var s := Sweep(body, k + 1, out, globals, pinned, labelled);
             Deletable(body[k], s.live, s.reachable, pinned) && Agree(s.live, s.reachable, a, b)
    ensures var s := Sweep(body, k + 1, out, globals, pinned, labelled);
            Agree(s.live, s.reachable, Exec(m, globals, body[k], a), b)
  {
    hide Agree, Exec, Sweep, FullLive, LiveAbove;
    var s := Sweep(body, k + 1, out, globals, pinned, labelled);
    var full := FullLive(body, k + 1, out, globals);
    SweptLive(body, k + 1, out, globals, pinned, labelled);
    FlagAbove(body, k, out, globals, pinned, labelled);
    assert body[k].early * (s.live - Regs(body[k].defs)) <= body[k].early * (full - Regs(body[k].defs));
    DeletedAgrees(m, globals, body[k], s.live, s.reachable, pinned, a, b);
  }

  lemma AnchorDoesNothing(m: Machine, globals: seq<nat>, out: set<nat>, a: State, b: State)
    requires Agree(out, false, a, b)
    ensures Agree(out, false, a, ExecAll(m, globals, [ANCHOR], b))
  {
    assert [ANCHOR][1..] == [];
  }

  /** The survivors of a suffix compute the same live-out registers, memory and
      observable effects as the suffix, from states that agree on what the pass found
      live above it. */
  lemma {:induction false} SuffixPreserved(m: Machine, body: seq<Inst>, k: nat, out: set<nat>, globals: seq<nat>,
                                           pinned: set<nat>, labelled: bool, a: State, b: State)
    requires k <= |body| && WellFormed(body, out, globals)
    requires var s := Sweep(body, k, out, globals, pinned, labelled); Agree(s.live, s.reachable, a, b)
    ensures var s := Sweep(body, k, out, globals, pinned, labelled);
            Agree(out, false, ExecAll(m, globals, body[k..], a), ExecAll(m, globals, s.kept, b))
    decreases |body| - k
  {
    hide LiveAbove, Exec, FullLive, Deletable, FlagsFlow, Frontier;
    if k == |body| {
      assert body[k..] == [];
    } else {
      var i := body[k];
      var s := Sweep(body, k + 1, out, globals, pinned, labelled);
      var top := Sweep(body, k, out, globals, pinned, labelled);
      assert body[k..][0] == i && body[k..][1..] == body[k + 1..];
      FlagAbove(body, k, out, globals, pinned, labelled);
      FrontierIsSearch(body, k + 1, out, globals, pinned, labelled);
      if Deletable(i, s.live, s.reachable, pinned) {
        DeletedStep(m, body, k, out, globals, pinned, labelled, a, b);
        SuffixPreserved(m, body, k + 1, out, globals, pinned, labelled, Exec(m, globals, i, a), b);
        if top.kept != s.kept {
          AnchorDoesNothing(m, globals, out, ExecAll(m, globals, body[k..], a), b);
        }
      } else {
        KeptAgrees(m, globals, i, s.live, s.reachable, a, b);
        SuffixPreserved(m, body, k + 1, out, globals, pinned, labelled, Exec(m, globals, i, a), Exec(m, globals, i, b));
        assert top.kept[0] == i && top.kept[1..] == s.kept;
      }
    }
  }

  /** Every run of a block: states that agree on the registers live on entry lead to
      states that agree on the registers live on exit, with the same memory and the same
      observable behaviour. The flag need not agree on entry. */
  lemma BlockPreserved(m: Machine, body: seq<Inst>, out: set<nat>, globals: seq<nat>, pinned: set<nat>, labelled: bool,
                       a: State, b: State)
    requires WellFormed(body, out, globals) && Agree(FullLive(body, 0, out, globals), false, a, b)
    ensures Agree(out, false, ExecAll(m, globals, body, a),
                  ExecAll(m, globals, Sweep(body, 0, out, globals, pinned, labelled).kept, b))
  {
    hide LiveAbove, Exec, FullLive, Deletable, Sweep, ExecAll, Frontier;
    SweptLive(body, 0, out, globals, pinned, labelled);
    SearchSurvives(body, 0, out, globals, pinned, labelled);
    assert body[0..] == body;
    SuffixPreserved(m, body, 0, out, globals, pinned, labelled, a, b);
  }

  // ----- whole functions -----

  datatype Block = Block(body: seq<Inst>, out: set<nat>, labelled: bool)

  function SweepAll(blocks: seq<Block>, globals: seq<nat>, pinned: set<nat>): (r: seq<Block>)
    ensures |r| == |blocks|
  {
    seq(|blocks|, b requires 0 <= b < |blocks| =>
      blocks[b].(body := Sweep(blocks[b].body, 0, blocks[b].out, globals, pinned, blocks[b].labelled).kept))
  }

  /** Where a block leaves to is decided by what its branches observed. */
  ghost function Run(m: Machine, globals: seq<nat>, follow: (nat, int) -> nat, blocks: seq<Block>, at: nat, st: State, steps: nat): (nat, State)
    decreases steps
  {
    if steps == 0 || at >= |blocks| then (at, st)
    else
      var after := ExecAll(m, globals, blocks[at].body, st);
      Run(m, globals, follow, blocks, follow(at, after.mem), after, steps - 1)
  }

  /** Live-out sets cover what any block that may follow needs on entry; nothing is
      needed past the last block. */
  ghost predicate Covered(blocks: seq<Block>, globals: seq<nat>, follow: (nat, int) -> nat)
  {
    forall b, mem :: 0 <= b < |blocks| ==>
      var n := follow(b, mem);
      n < |blocks| ==> FullLive(blocks[n].body, 0, blocks[n].out, globals) <= blocks[b].out
  }

  ghost predicate AllWellFormed(blocks: seq<Block>, globals: seq<nat>)
  {
    forall b :: 0 <= b < |blocks| ==> WellFormed(blocks[b].body, blocks[b].out, globals)
  }

  /** Every run of the whole function, for any number of blocks: the swept function is in
      the same block with the same memory and the same observable behaviour. */
  lemma {:induction false} RunPreserved(m: Machine, globals: seq<nat>, follow: (nat, int) -> nat, blocks: seq<Block>, pinned: set<nat>,
                                        at: nat, a: State, b: State, steps: nat)
    requires AllWellFormed(blocks, globals) && Covered(blocks, globals, follow)
    requires at < |blocks| ==> Agree(FullLive(blocks[at].body, 0, blocks[at].out, globals), false, a, b)
    requires a.mem == b.mem
    ensures var p := Run(m, globals, follow, blocks, at, a, steps);
            var q := Run(m, globals, follow, SweepAll(blocks, globals, pinned), at, b, steps);
            p.0 == q.0 && p.1.mem == q.1.mem
    decreases steps
  {
    hide LiveAbove, Exec, FullLive, Deletable, Sweep, ExecAll, WellFormed;
    if steps > 0 && at < |blocks| {
      var block := blocks[at];
      var kept := Sweep(block.body, 0, block.out, globals, pinned, block.labelled).kept;
      assert SweepAll(blocks, globals, pinned)[at].body == kept;
      BlockPreserved(m, block.body, block.out, globals, pinned, block.labelled, a, b);
      var p, q := ExecAll(m, globals, block.body, a), ExecAll(m, globals, kept, b);
      RunPreserved(m, globals, follow, blocks, pinned, follow(at, p.mem), p, q, steps - 1);
    }
  }
}
