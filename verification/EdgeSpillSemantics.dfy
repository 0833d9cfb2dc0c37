/** Spill code on control-flow edges: what stores and restores do, and when running
    them leaves every live value where the next block looks for it. */
module EdgeSpillSemantics {
  import opened Graphs

  /** How a block ends: without a branch, with an unconditional jump, or with another
      branch or a return. */
  datatype Ending = Falls | Jumps | Branches

  /** The physical register of each register, and the 8-byte units of its spill slot. */
  datatype Spots = Spots(home: nat -> nat, units: nat -> seq<nat>)

  /** `gen[b]` are the registers whose value is in its slot throughout block `b`; the
      others live in their physical register. */
  datatype Facts = Facts(graph: Graph, ends: seq<Ending>, gen: seq<set<nat>>, live: seq<set<nat>>, spots: Spots)
  {
    function Src(e: nat): nat
      requires e < |graph.edges|
    {
      graph.edges[e].source
    }

    function Dst(e: nat): nat
      requires e < |graph.edges|
    {
      graph.edges[e].destination
    }

    /** Entry and exit hold nothing; a block has several ways out just when it ends in a
        branch other than a jump, unless it leaves the function; live registers in
        hardware are apart, and so are the slots of registers that are live together. */
    ghost predicate Valid()
    {
      && graph.Valid()
      && |ends| == |gen| == |live| == graph.Count()
      && (forall b :: 0 <= b < graph.Count() ==> gen[b] <= live[b])
      && gen[ENTRY] == {} && gen[EXIT] == {} && live[EXIT] == {} && graph.outgoing[EXIT] == []
      && (forall e :: 0 <= e < |graph.edges| && Src(e) == ENTRY ==> gen[Dst(e)] == {})
      && (forall b: nat :: 2 <= b < graph.Count() && !ends[b].Branches? ==> |graph.outgoing[b]| <= 1)
      && (forall e :: 0 <= e < |graph.edges| && Src(e) >= 2 && ends[Src(e)].Branches? && |graph.outgoing[Src(e)]| == 1 ==> Dst(e) == EXIT)
      && (forall b: nat, r, q :: b < graph.Count() && r in live[b] - gen[b] && q in live[b] - gen[b] && r != q ==>
            spots.home(r) != spots.home(q))
      && (forall b: nat :: b < graph.Count() ==> SlotsApart(spots, live[b]))
      && (forall b: nat, r :: b < graph.Count() && r in gen[b] ==> spots.units(r) != [])
    }

    /** The registers to store on an edge, and those to load. */
    function Stores(e: nat): set<nat>
      requires e < |graph.edges| && Src(e) < |gen| && Dst(e) < |gen|
    {
      if Src(e) >= 2 then gen[Dst(e)] - gen[Src(e)] else {}
    }

    function Restores(e: nat): set<nat>
      requires e < |graph.edges| && Src(e) < |gen| && Dst(e) < |gen| && |live| == |gen|
    {
      if Dst(e) >= 2 then (gen[Src(e)] - gen[Dst(e)]) * live[Dst(e)] else {}
    }

    function Needs(e: nat): set<nat>
      requires e < |graph.edges| && Src(e) < |gen| && Dst(e) < |gen| && |live| == |gen|
    {
      Stores(e) + Restores(e)
    }
  }

  // ----- running spill code -----

  datatype SpillOp = SpillOp(reg: nat, store: bool)

  type Values = map<nat, int>

  function Get(m: Values, k: nat): int
  {
    if k in m then m[k] else 0
  }

  /** Contents of physical registers and of spill slots. */
  datatype Store = Store(regs: Values, slots: Values)

  function Run(at: Spots, ops: seq<SpillOp>, s: Store): Store
  {
    if ops == [] then s else Run(at, ops[1..], Apply(at, ops[0], s))
  }

  function Apply(at: Spots, op: SpillOp, s: Store): Store
  {
    if op.store then s.(slots := PutAll(s.slots, at.units(op.reg), Get(s.regs, at.home(op.reg))))
    else s.(regs := s.regs[at.home(op.reg) := First(s.slots, at.units(op.reg))])
  }

  function PutAll(slots: Values, units: seq<nat>, v: int): Values
    decreases |units|
  {
    if units == [] then slots else PutAll(slots[units[0] := v], units[1..], v)
  }

  function First(slots: Values, units: seq<nat>): int
  {
    if units == [] then 0 else Get(slots, units[0])
  }

  lemma {:induction false} PutEverywhere(slots: Values, units: seq<nat>, v: int)
    ensures forall u: nat :: Get(PutAll(slots, units, v), u) == if u in units then v else Get(slots, u)
    decreases |units|
  {
    if units != [] {
      PutEverywhere(slots[units[0] := v], units[1..], v);
      assert units == [units[0]] + units[1..];
    }
  }

  /** Only units of the registers named change. */
  lemma {:induction false} RunTouches(at: Spots, ops: seq<SpillOp>, s: Store)
    ensures forall u: nat :: (forall op :: op in ops ==> u !in at.units(op.reg)) ==> Get(Run(at, ops, s).slots, u) == Get(s.slots, u)
    decreases |ops|
  {
    if ops != [] {
      hide PutAll;
      var s1 := Apply(at, ops[0], s);
      PutEverywhere(s.slots, at.units(ops[0].reg), Get(s.regs, at.home(ops[0].reg)));
      RunTouches(at, ops[1..], s1);
      forall u: nat | forall op :: op in ops ==> u !in at.units(op.reg)
        ensures Get(Run(at, ops, s).slots, u) == Get(s.slots, u)
      {
        assert ops[0] in ops && forall op :: op in ops[1..] ==> op in ops;
      }
    }
  }

  /** All units of a slot hold the value. */
  ghost predicate Kept(slots: Values, units: seq<nat>, v: int)
  {
    units != [] && forall u :: u in units ==> Get(slots, u) == v
  }

  ghost predicate SlotsApart(at: Spots, regs: set<nat>)
  {
    forall r, q, u :: r in regs && q in regs && r != q && u in at.units(r) ==> u !in at.units(q)
  }

  lemma {:induction false} RunAppend(at: Spots, a: seq<SpillOp>, b: seq<SpillOp>, s: Store)
    ensures Run(at, a + b, s) == Run(at, b, Run(at, a, s))
    decreases |a|
  {
    if a == [] {
      assert a + b == b;
    } else {
      assert (a + b)[1..] == a[1..] + b && (a + b)[0] == a[0];
      RunAppend(at, a[1..], b, Apply(at, a[0], s));
    }
  }

  // ----- values are where the block looks for them -----

  /** The value of a live register is in its slot if the block says so, and in its
      physical register otherwise. */
  ghost predicate Found(f: Facts, b: nat, live: set<nat>, value: Values, s: Store)
    requires b < |f.gen|
  {
    && (forall r :: r in live && r in f.gen[b] ==> Kept(s.slots, f.spots.units(r), Get(value, r)))
    && (forall r :: r in live && r !in f.gen[b] ==> Get(s.regs, f.spots.home(r)) == Get(value, r))
  }

  /** A list of operations that serves an edge: its stores come before its restores,
      and both are complete. A list of stores alone may repeat. */
  ghost predicate Serves(stores: set<nat>, restores: set<nat>, ops: seq<SpillOp>)
  {
    && (forall r :: r in stores <==> SpillOp(r, true) in ops)
    && (forall r :: r in restores <==> SpillOp(r, false) in ops)
    && (forall i, j :: 0 <= i < j < |ops| && ops[j].store ==> ops[i].store)
  }

  /** After some stores and restores: slots of stored registers hold what their
      physical registers held, restored ones hold what their slots held, and nothing else
      changed. */
  ghost predicate Moved(at: Spots, stores: set<nat>, restores: set<nat>, s: Store, s': Store)
  {
    && (forall r, u :: r in stores && u in at.units(r) ==> Get(s'.slots, u) == Get(s.regs, at.home(r)))
    && (forall u: nat :: OffSlots(at, stores, u) ==> Get(s'.slots, u) == Get(s.slots, u))
    && (forall r :: r in restores ==> Get(s'.regs, at.home(r)) == First(s.slots, at.units(r)))
    && (forall p: nat :: (forall r :: r in restores ==> at.home(r) != p) ==> Get(s'.regs, p) == Get(s.regs, p))
  }

  ghost predicate OffSlots(at: Spots, stores: set<nat>, u: nat)
  {
    forall r :: r in stores ==> u !in at.units(r)
  }

  ghost predicate Apart(at: Spots, regs: set<nat>)
  {
    forall r, q :: r in regs && q in regs && r != q ==> at.home(r) != at.home(q)
  }

  lemma {:induction false} ServeMoves(at: Spots, stores: set<nat>, restores: set<nat>, ops: seq<SpillOp>, s: Store)
    requires Serves(stores, restores, ops) && Apart(at, restores) && stores !! restores && SlotsApart(at, stores + restores)
    ensures Moved(at, stores, restores, s, Run(at, ops, s))
    decreases |ops|
  {
    if ops != [] {
      hide Moved, Run, Apply, Serves, DoneBy;
      var last, front := ops[|ops| - 1], ops[..|ops| - 1];
      FrontServes(stores, restores, ops);
      ServeMoves(at, DoneBy(front, true), DoneBy(front, false), front, s);
      assert ops == front + [last];
      RunAppend(at, front, [last], s);
      RunOne(at, last, Run(at, front, s));
      LastMoves(at, DoneBy(front, true), DoneBy(front, false), last, s, Run(at, front, s), stores, restores);
    }
  }

  lemma RunOne(at: Spots, op: SpillOp, s: Store)
    ensures Run(at, [op], s) == Apply(at, op, s)
  {
    assert [op][1..] == [];
  }

  /** All but the last operation serve what is left. */
  lemma FrontServes(stores: set<nat>, restores: set<nat>, ops: seq<SpillOp>)
    requires Serves(stores, restores, ops) && ops != []
    ensures var last, front := ops[|ops| - 1], ops[..|ops| - 1];
            && Serves(DoneBy(front, true), DoneBy(front, false), front)
            && stores == (if last.store then DoneBy(front, true) + {last.reg} else DoneBy(front, true))
            && restores == (if last.store then DoneBy(front, false) else DoneBy(front, false) + {last.reg})
            && (last.store ==> DoneBy(front, false) == {})
            && DoneBy(front, true) <= stores && DoneBy(front, false) <= restores
  {
    var last, front := ops[|ops| - 1], ops[..|ops| - 1];
    hide DoneBy;
    assert ops == front + [last];
    DoneBySets(front, true);
    DoneBySets(front, false);
    assert SpillOp(last.reg, last.store) == last;
    forall r
      ensures r in stores <==> r in DoneBy(front, true) || (last.store && r == last.reg)
      ensures r in restores <==> r in DoneBy(front, false) || (!last.store && r == last.reg)
    {
      assert SpillOp(r, true) in ops <==> SpillOp(r, true) in front || SpillOp(r, true) == last;
      assert SpillOp(r, false) in ops <==> SpillOp(r, false) in front || SpillOp(r, false) == last;
    }
    if last.store {
      assert forall i :: 0 <= i < |front| ==> ops[i].store;
      StoresOnly(front);
    }
  }

  lemma StoresOnly(ops: seq<SpillOp>)
    requires forall i :: 0 <= i < |ops| ==> ops[i].store
    ensures forall r :: SpillOp(r, false) !in ops
  {
  }

  ghost function DoneBy(ops: seq<SpillOp>, store: bool): set<nat>
  {
    set op | op in ops && op.store == store :: op.reg
  }

  lemma DoneBySets(ops: seq<SpillOp>, store: bool)
    ensures forall r :: r in DoneBy(ops, store) <==> SpillOp(r, store) in ops
  {
    forall r | r in DoneBy(ops, store)
      ensures SpillOp(r, store) in ops
    {
      var op :| op in ops && op.store == store && op.reg == r;
      assert op == SpillOp(r, store);
    }
    forall r | SpillOp(r, store) in ops
      ensures r in DoneBy(ops, store)
    {
      var op := SpillOp(r, store);
      assert op in ops && op.store == store && op.reg == r;
    }
  }

  lemma LastMoves(at: Spots, stores': set<nat>, restores': set<nat>, last: SpillOp, s: Store, mid: Store,
                  stores: set<nat>, restores: set<nat>)
    requires Moved(at, stores', restores', s, mid) && Apart(at, restores) && stores !! restores && SlotsApart(at, stores + restores)
    requires stores == (if last.store then stores' + {last.reg} else stores')
    requires restores == (if last.store then restores' else restores' + {last.reg})
    requires last.store ==> restores' == {}
    ensures Moved(at, stores, restores, s, Apply(at, last, mid))
  {
    if last.store {
      assert Get(mid.regs, at.home(last.reg)) == Get(s.regs, at.home(last.reg));
      LastStore(at, stores', last.reg, s, mid);
    } else {
      LastRestore(at, stores, restores', last.reg, s, mid);
    }
  }

  lemma LastStore(at: Spots, stores: set<nat>, reg: nat, s: Store, mid: Store)
    requires Moved(at, stores, {}, s, mid) && SlotsApart(at, stores + {reg})
    ensures Moved(at, stores + {reg}, {}, s, Apply(at, SpillOp(reg, true), mid))
  {
    var s' := Apply(at, SpillOp(reg, true), mid);
    PutEverywhere(mid.slots, at.units(reg), Get(mid.regs, at.home(reg)));
    hide PutAll;
    forall u: nat | OffSlots(at, stores + {reg}, u)
      ensures Get(s'.slots, u) == Get(s.slots, u)
    {
      assert reg in stores + {reg};
      assert OffSlots(at, stores, u);
    }
  }

  lemma LastRestore(at: Spots, stores: set<nat>, restores: set<nat>, reg: nat, s: Store, mid: Store)
    requires Moved(at, stores, restores, s, mid) && Apart(at, restores + {reg})
    requires reg !in stores && SlotsApart(at, stores + (restores + {reg}))
    ensures Moved(at, stores, restores + {reg}, s, Apply(at, SpillOp(reg, false), mid))
  {
    var s' := Apply(at, SpillOp(reg, false), mid);
    if at.units(reg) != [] {
      var u := at.units(reg)[0];
      assert u in at.units(reg);
      assert OffSlots(at, stores, u);
    }
    forall p: nat | forall r :: r in restores + {reg} ==> at.home(r) != p
      ensures Get(s'.regs, p) == Get(s.regs, p)
    {
      assert reg in restores + {reg};
      assert forall r :: r in restores ==> r in restores + {reg};
    }
  }

  lemma ServingIsApart(f: Facts, e: nat)
    requires f.Valid() && e < |f.graph.edges|
    ensures f.Stores(e) + f.Restores(e) <= f.live[f.Dst(e)] && f.Stores(e) !! f.Restores(e)
    ensures SlotsApart(f.spots, f.live[f.Dst(e)]) && SlotsApart(f.spots, f.Stores(e) + f.Restores(e))
    ensures Apart(f.spots, f.Restores(e))
  {
    assert SlotsApart(f.spots, f.live[f.Dst(e)]);
    assert f.Stores(e) <= f.gen[f.Dst(e)] <= f.live[f.Dst(e)];
    assert f.Restores(e) <= f.live[f.Dst(e)] - f.gen[f.Dst(e)];
  }

  /** Serving an edge takes values found at the end of its source to values found at
      the start of its destination, and changes no unit but those of the slots stored. */
  lemma ServeFinds(f: Facts, e: nat, ops: seq<SpillOp>, value: Values, s: Store)
    requires f.Valid() && e < |f.graph.edges|
    requires Serves(f.Stores(e), f.Restores(e), ops)
    requires Found(f, f.Src(e), f.live[f.Dst(e)], value, s)
    ensures Found(f, f.Dst(e), f.live[f.Dst(e)], value, Run(f.spots, ops, s))
    ensures forall u: nat :: OffSlots(f.spots, f.Stores(e), u) ==> Get(Run(f.spots, ops, s).slots, u) == Get(s.slots, u)
  {
    var stores, restores := f.Stores(e), f.Restores(e);
    ServingIsApart(f, e);
    ServeMoves(f.spots, stores, restores, ops, s);
    hide Run, Serves;
    var live := f.live[f.Dst(e)];
    var s' := Run(f.spots, ops, s);
    forall r | r in live && r in f.gen[f.Dst(e)]
      ensures Kept(s'.slots, f.spots.units(r), Get(value, r))
    {
      if r !in stores {
        assert Kept(s.slots, f.spots.units(r), Get(value, r)) by { StaysInSlot(f, e, r); }
        SlotUntouched(f, e, r);
      } else {
        SomeSlot(f, f.Dst(e), r);
        StoredFromHome(f, e, r);
      }
    }
    forall r | r in live && r !in f.gen[f.Dst(e)]
      ensures Get(s'.regs, f.spots.home(r)) == Get(value, r)
    {
      LoadedOrLeft(f, e, r, value, s, s');
    }
  }

  lemma StaysInSlot(f: Facts, e: nat, r: nat)
    requires f.Valid() && e < |f.graph.edges| && r in f.gen[f.Dst(e)] && r !in f.Stores(e)
    ensures r in f.gen[f.Src(e)]
  {
  }

  lemma StoredFromHome(f: Facts, e: nat, r: nat)
    requires f.Valid() && e < |f.graph.edges| && r in f.Stores(e)
    ensures r !in f.gen[f.Src(e)]
  {
  }

  lemma SomeSlot(f: Facts, b: nat, r: nat)
    requires f.Valid() && b < |f.gen| && r in f.gen[b]
    ensures f.spots.units(r) != []
  {
  }

  lemma SlotUntouched(f: Facts, e: nat, r: nat)
    requires f.Valid() && e < |f.graph.edges| && r in f.live[f.Dst(e)] && r !in f.Stores(e)
    ensures forall u :: u in f.spots.units(r) ==> OffSlots(f.spots, f.Stores(e), u)
  {
    ServingIsApart(f, e);
    hide Facts.Valid;
  }

  lemma LoadedOrLeft(f: Facts, e: nat, r: nat, value: Values, s: Store, s': Store)
    requires f.Valid() && e < |f.graph.edges| && r in f.live[f.Dst(e)] && r !in f.gen[f.Dst(e)]
    requires Moved(f.spots, f.Stores(e), f.Restores(e), s, s') && Found(f, f.Src(e), f.live[f.Dst(e)], value, s)
    ensures Get(s'.regs, f.spots.home(r)) == Get(value, r)
  {
    if r in f.Restores(e) {
      assert Kept(s.slots, f.spots.units(r), Get(value, r));
      assert f.spots.units(r)[0] in f.spots.units(r);
    } else {
      assert forall q :: q in f.Restores(e) ==> q in f.live[f.Dst(e)] - f.gen[f.Dst(e)] && q != r;
      assert forall q :: q in f.Restores(e) ==> f.spots.home(q) != f.spots.home(r);
    }
  }
}
