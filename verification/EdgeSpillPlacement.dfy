/** Emission of spill code: sorting, duplicate removal and insertion of the placements,
    and the theorem that every live value is found on every path. */
module EdgeSpillPlacement {
  import opened Graphs
  import opened Sorting
  import opened EdgeSpillSemantics
  import opened EdgeSpills

  /** A block of the function, or the block that splits an edge. */
  datatype Node = Block(b: nat) | OnEdge(e: nat)
  {
    predicate Le(other: Node)
    {
      match (this, other)
      case (Block(x), Block(y)) => x <= y
      case (OnEdge(x), OnEdge(y)) => x <= y
      case (Block(_), OnEdge(_)) => true
      case (OnEdge(_), Block(_)) => false
    }
  }

  datatype Placement = Placement(reg: nat, node: Node, end: bool, store: bool)

  predicate PlacementLe(a: Placement, b: Placement)
  {
    if a.node != b.node then a.node.Le(b.node)
    else if a.end != b.end then !a.end
    else if a.store != b.store then (if a.end then a.store else !a.store)
    else a.reg <= b.reg
  }

  lemma PlacementOrder()
    ensures TotalOrder(PlacementLe)
  {
  }

  /** Where the operations of an edge go. */
  ghost function Site(f: Facts, e: nat): (Node, bool)
    requires f.Valid() && e < |f.graph.edges|
  {
    if Hoisted(f, e) then (Block(f.Src(e)), true)
    else if Sunk(f, e) then (Block(f.Dst(e)), false)
    else (OnEdge(e), false)
  }

  ghost predicate PlacedFor(f: Facts, p: Placement, e: nat)
    requires f.Valid() && e < |f.graph.edges|
  {
    p.reg in (if p.store then f.Stores(e) else f.Restores(e)) && Site(f, e) == (p.node, p.end)
  }

  ghost predicate Wanted(f: Facts, p: Placement)
    requires f.Valid()
  {
    exists e: nat :: e < |f.graph.edges| && PlacedFor(f, p, e)
  }

  function Placed(el: Element, source: nat, destination: nat, atSource: bool, atDestination: bool): Placement
  {
    if atSource then Placement(el.reg, Block(source), true, el.store)
    else if atDestination then Placement(el.reg, Block(destination), false, el.store)
    else Placement(el.reg, OnEdge(el.edge), false, el.store)
  }

  /** One placement for each demanded element, in emission order and without
      duplicates. */
  method Arrange(f: Facts, elements: seq<Element>, atSource: seq<bool>, atDestination: seq<bool>)
      returns (placements: seq<Placement>)
    requires Listed(f, elements) && Settled(f, atSource, atDestination)
    ensures Sorted(placements, PlacementLe)
    ensures forall p :: p in placements <==> Wanted(f, p)
  {
    hide Hoisted, Sunk, Sorted, ElementLe;
    var raw: seq<Placement> := [];
    for n := 0 to |elements|
      invariant forall p :: p in raw <==> exists k :: 0 <= k < n && PlacedBy(f, p, elements[k])
    {
      var el := elements[n];
      assert Demanded(f, el) && Busy(f, el.edge);
      var p := Placed(el, f.Src(el.edge), f.Dst(el.edge), atSource[el.edge], atDestination[el.edge]);
      assert forall q :: PlacedBy(f, q, el) <==> q == p;
      raw := raw + [p];
    }
    AllPlaced(f, elements, raw);
    PlacementOrder();
    var sorted := Sort(raw, PlacementLe);
    placements := Unique(sorted);
    SubsequenceSorted(sorted, placements, PlacementLe);
  }

  ghost predicate PlacedBy(f: Facts, p: Placement, el: Element)
    requires f.Valid()
  {
    el.edge < |f.graph.edges| && el.reg == p.reg && el.store == p.store && Site(f, el.edge) == (p.node, p.end)
  }

  lemma AllPlaced(f: Facts, elements: seq<Element>, raw: seq<Placement>)
    requires Listed(f, elements)
    requires forall p :: p in raw <==> exists k :: 0 <= k < |elements| && PlacedBy(f, p, elements[k])
    ensures forall p :: p in raw <==> Wanted(f, p)
  {
    hide Hoisted, Sunk, Sorted, ElementLe, Facts.Valid;
    forall p
      ensures p in raw <==> Wanted(f, p)
    {
      if p in raw {
        var k :| 0 <= k < |elements| && PlacedBy(f, p, elements[k]);
        assert Demanded(f, elements[k]);
        assert PlacedFor(f, p, elements[k].edge);
      }
      if Wanted(f, p) {
        var e: nat :| e < |f.graph.edges| && PlacedFor(f, p, e);
        var el := Element(p.reg, e, p.store);
        assert Demanded(f, el);
        assert el in elements;
        var k :| 0 <= k < |elements| && elements[k] == el;
        assert PlacedBy(f, p, elements[k]);
      }
    }
  }

  // ----- insertion -----

  /** Operations by node and by whether they stand at its end. */
  type Code = map<(Node, bool), seq<SpillOp>>

  function At(code: Code, node: Node, end: bool): seq<SpillOp>
  {
    if (node, end) in code then code[(node, end)] else []
  }

  ghost predicate StoresLead(ops: seq<SpillOp>)
  {
    forall i, j :: 0 <= i < j < |ops| && ops[j].store ==> ops[i].store
  }

  ghost predicate Holds(placements: seq<Placement>, code: Code)
  {
    forall node, end ::
      && StoresLead(At(code, node, end))
      && forall op :: op in At(code, node, end) <==> Placement(op.reg, node, end, op.store) in placements
  }

  /** Insertions at an end follow what is there; insertions at a start precede it. */
  method Emit(placements: seq<Placement>) returns (code: Code)
    requires Sorted(placements, PlacementLe)
    ensures Holds(placements, code)
  {
    code := map[];
    for n := 0 to |placements|
      invariant Holds(placements[..n], code)
    {
      var p := placements[n];
      var old' := At(code, p.node, p.end);
      var op := SpillOp(p.reg, p.store);
      ghost var before := code;
      code := code[(p.node, p.end) := if p.end then old' + [op] else [op] + old'];
      assert placements[..n + 1] == placements[..n] + [p];
      assert forall q :: q in placements[..n] ==> PlacementLe(q, p);
      EmitStep(placements[..n], p, before, code);
    }
    assert placements[..|placements|] == placements;
  }

  lemma EmitStep(placements: seq<Placement>, p: Placement, before: Code, after: Code)
    requires Holds(placements, before)
    requires forall q :: q in placements ==> PlacementLe(q, p)
    requires after == before[(p.node, p.end) :=
                        if p.end then At(before, p.node, p.end) + [SpillOp(p.reg, p.store)]
                        else [SpillOp(p.reg, p.store)] + At(before, p.node, p.end)]
    ensures Holds(placements + [p], after)
  {
    forall node, end
      ensures StoresLead(At(after, node, end))
      ensures forall op :: op in At(after, node, end) <==> Placement(op.reg, node, end, op.store) in placements + [p]
    {
      if (node, end) == (p.node, p.end) {
        var ops := At(before, node, end);
        forall op | op in ops
          ensures if end then p.store ==> op.store else op.store ==> p.store
        {
          assert PlacementLe(Placement(op.reg, node, end, op.store), p);
        }
        Extended(ops, SpillOp(p.reg, p.store), end, At(after, node, end));
      } else {
        assert At(after, node, end) == At(before, node, end);
      }
    }
  }

  lemma Extended(ops: seq<SpillOp>, op: SpillOp, end: bool, more: seq<SpillOp>)
    requires StoresLead(ops) && more == if end then ops + [op] else [op] + ops
    requires forall x :: x in ops ==> if end then op.store ==> x.store else x.store ==> op.store
    ensures StoresLead(more)
    ensures forall x :: x in more <==> x in ops || x == op
  {
    if end {
      assert forall i :: 0 <= i < |ops| ==> more[i] == ops[i] && ops[i] in ops;
    } else {
      assert forall i :: 0 < i < |more| ==> more[i] == ops[i - 1] && ops[i - 1] in ops;
    }
  }

  // ----- every edge is served -----

  /** What runs between the body of an edge's source and that of its destination. */
  function Between(code: Code, e: nat, source: nat, destination: nat): seq<SpillOp>
  {
    At(code, Block(source), true) + At(code, OnEdge(e), false) + At(code, Block(destination), false)
  }

  ghost predicate Emitted(f: Facts, code: Code)
    requires f.Valid()
  {
    forall node, end ::
      && StoresLead(At(code, node, end))
      && forall op :: op in At(code, node, end) <==> Wanted(f, Placement(op.reg, node, end, op.store))
  }

  /** Needs decide stores and restores by what either end of the edge holds. */
  lemma NeedsSplit(f: Facts, e: nat)
    requires f.Valid() && e < |f.graph.edges|
    ensures f.Stores(e) == f.Needs(e) - f.gen[f.Src(e)] == f.Needs(e) * f.gen[f.Dst(e)]
    ensures f.Restores(e) == f.Needs(e) * f.gen[f.Src(e)] == f.Needs(e) - f.gen[f.Dst(e)]
  {
  }

  lemma SingleEdge(f: Facts, e: nat, d: nat)
    requires f.Valid() && e < |f.graph.edges| && d < |f.graph.edges|
    ensures f.Src(e) == f.Src(d) && |f.graph.outgoing[f.Src(e)]| == 1 ==> e == d
    ensures f.Dst(e) == f.Dst(d) && |f.graph.incoming[f.Dst(e)]| == 1 ==> e == d
  {
    assert e in f.graph.outgoing[f.Src(e)] && d in f.graph.outgoing[f.Src(d)];
    assert e in f.graph.incoming[f.Dst(e)] && d in f.graph.incoming[f.Dst(d)];
  }

  /** Edges that share a source are hoisted together and want the same operations. */
  lemma HoistTogether(f: Facts, e: nat, d: nat)
    requires f.Valid() && e < |f.graph.edges| && d < |f.graph.edges| && f.Src(e) == f.Src(d) && Hoisted(f, d)
    ensures Hoisted(f, e) && f.Stores(e) == f.Stores(d) && f.Restores(e) == f.Restores(d)
  {
    hide Facts.Valid, DestinationCommon, MayHoist;
    SingleEdge(f, e, d);
    NeedsSplit(f, e);
    NeedsSplit(f, d);
    assert SourceCommon(f, f.Src(e));
    EndsInRange(f);
    assert f.Needs(e) == f.Needs(d);
  }

  lemma SinkTogether(f: Facts, e: nat, d: nat)
    requires f.Valid() && e < |f.graph.edges| && d < |f.graph.edges| && f.Dst(e) == f.Dst(d) && Sunk(f, d)
    ensures Sunk(f, e) && f.Stores(e) == f.Stores(d) && f.Restores(e) == f.Restores(d)
  {
    hide Facts.Valid, SourceCommon, Busy;
    SingleEdge(f, e, d);
    NeedsSplit(f, e);
    NeedsSplit(f, d);
    assert DestinationCommon(f, f.Dst(e));
    EndsInRange(f);
    assert f.Needs(e) == f.Needs(d);
  }

  /** An edge served at both ends only stores. */
  lemma BothEndsOnlyStore(f: Facts, e: nat)
    requires f.Valid() && e < |f.graph.edges| && Hoisted(f, e) && Sunk(f, e)
    ensures f.Restores(e) == {}
  {
    assert SourceCommon(f, f.Src(e));
    assert MayHoist(f, e);
    assert e in f.graph.outgoing[f.Src(e)];
  }

  lemma SomeOrEmpty(ops: seq<SpillOp>)
    ensures ops == [] || exists op :: op in ops
  {
    if ops != [] {
      assert ops[0] in ops;
    }
  }

  lemma EndHolds(f: Facts, code: Code, e: nat)
    requires f.Valid() && Emitted(f, code) && e < |f.graph.edges|
    ensures Hoisted(f, e) ==> Serves(f.Stores(e), f.Restores(e), At(code, Block(f.Src(e)), true))
    ensures !Hoisted(f, e) ==> At(code, Block(f.Src(e)), true) == []
  {
    hide Facts.Valid, Hoisted, Sunk;
    var ops := At(code, Block(f.Src(e)), true);
    EndsInRange(f);
    assert StoresLead(ops);
    forall op | op in ops
      ensures Hoisted(f, e) && op.reg in (if op.store then f.Stores(e) else f.Restores(e))
    {
      var p := Placement(op.reg, Block(f.Src(e)), true, op.store);
      var d: nat :| d < |f.graph.edges| && PlacedFor(f, p, d);
      HoistTogether(f, e, d);
    }
    if Hoisted(f, e) {
      forall op: SpillOp | op.reg in (if op.store then f.Stores(e) else f.Restores(e))
        ensures op in ops
      {
        assert PlacedFor(f, Placement(op.reg, Block(f.Src(e)), true, op.store), e);
      }
      Lists(f.Stores(e), f.Restores(e), ops);
    } else {
      SomeOrEmpty(ops);
    }
  }

  /** After `Hoisted`, the start list of the destination serves sunk edges; the
      operations of an edge that is hoisted and sunk are in both lists. */
  lemma StartHolds(f: Facts, code: Code, e: nat)
    requires f.Valid() && Emitted(f, code) && e < |f.graph.edges|
    ensures Sunk(f, e) && !Hoisted(f, e) ==> Serves(f.Stores(e), f.Restores(e), At(code, Block(f.Dst(e)), false))
    ensures !Sunk(f, e) ==> At(code, Block(f.Dst(e)), false) == []
    ensures Sunk(f, e) ==> StoresLead(At(code, Block(f.Dst(e)), false))
    ensures forall op :: op in At(code, Block(f.Dst(e)), false) ==> op.reg in (if op.store then f.Stores(e) else f.Restores(e))
  {
    hide Facts.Valid, Hoisted, Sunk;
    var ops := At(code, Block(f.Dst(e)), false);
    EndsInRange(f);
    assert StoresLead(ops);
    forall op | op in ops
      ensures Sunk(f, e) && op.reg in (if op.store then f.Stores(e) else f.Restores(e))
    {
      var p := Placement(op.reg, Block(f.Dst(e)), false, op.store);
      var d: nat :| d < |f.graph.edges| && PlacedFor(f, p, d);
      SinkTogether(f, e, d);
    }
    if Sunk(f, e) && !Hoisted(f, e) {
      forall op: SpillOp | op.reg in (if op.store then f.Stores(e) else f.Restores(e))
        ensures op in ops
      {
        assert PlacedFor(f, Placement(op.reg, Block(f.Dst(e)), false, op.store), e);
      }
      Lists(f.Stores(e), f.Restores(e), ops);
    }
    if !Sunk(f, e) {
      SomeOrEmpty(ops);
    }
  }

  lemma EdgeHolds(f: Facts, code: Code, e: nat)
    requires f.Valid() && Emitted(f, code) && e < |f.graph.edges|
    ensures !Hoisted(f, e) && !Sunk(f, e) ==> Serves(f.Stores(e), f.Restores(e), At(code, OnEdge(e), false))
    ensures Hoisted(f, e) || Sunk(f, e) ==> At(code, OnEdge(e), false) == []
  {
    hide Facts.Valid, Hoisted, Sunk;
    var ops := At(code, OnEdge(e), false);
    EndsInRange(f);
    assert StoresLead(ops);
    forall op | op in ops
      ensures !Hoisted(f, e) && !Sunk(f, e) && op.reg in (if op.store then f.Stores(e) else f.Restores(e))
    {
      var p := Placement(op.reg, OnEdge(e), false, op.store);
      var d: nat :| d < |f.graph.edges| && PlacedFor(f, p, d);
    }
    if !Hoisted(f, e) && !Sunk(f, e) {
      forall op: SpillOp | op.reg in (if op.store then f.Stores(e) else f.Restores(e))
        ensures op in ops
      {
        assert PlacedFor(f, Placement(op.reg, OnEdge(e), false, op.store), e);
      }
      Lists(f.Stores(e), f.Restores(e), ops);
    } else {
      SomeOrEmpty(ops);
    }
  }

  lemma Lists(stores: set<nat>, restores: set<nat>, ops: seq<SpillOp>)
    requires StoresLead(ops)
    requires forall op :: op in ops <==> op.reg in (if op.store then stores else restores)
    ensures Serves(stores, restores, ops)
  {
    forall r
      ensures r in stores <==> SpillOp(r, true) in ops
      ensures r in restores <==> SpillOp(r, false) in ops
    {
      assert SpillOp(r, true) in ops <==> r in stores;
      assert SpillOp(r, false) in ops <==> r in restores;
    }
  }

  lemma EdgeServed(f: Facts, code: Code, e: nat)
    requires f.Valid() && Emitted(f, code) && e < |f.graph.edges|
    ensures Serves(f.Stores(e), f.Restores(e), Between(code, e, f.Src(e), f.Dst(e)))
  {
    hide Facts.Valid, Hoisted, Sunk, Emitted, At, Serves, StoresLead;
    EndHolds(f, code, e);
    StartHolds(f, code, e);
    EdgeHolds(f, code, e);
    var first, middle, last := At(code, Block(f.Src(e)), true), At(code, OnEdge(e), false), At(code, Block(f.Dst(e)), false);
    EndsInRange(f);
    if Hoisted(f, e) && Sunk(f, e) {
      BothEndsOnlyStore(f, e);
      assert first + middle == first;
      RepeatStores(f.Stores(e), first, last);
    } else if Hoisted(f, e) {
      assert first + middle + last == first;
    } else if Sunk(f, e) {
      assert first + middle + last == last;
    } else {
      assert first + middle + last == middle;
    }
  }

  lemma RepeatStores(stores: set<nat>, a: seq<SpillOp>, b: seq<SpillOp>)
    requires Serves(stores, {}, a)
    requires forall op :: op in b ==> op.reg in (if op.store then stores else {})
    ensures Serves(stores, {}, a + b)
  {
    forall op | op in a + b
      ensures op.store && op.reg in stores
    {
      assert op == SpillOp(op.reg, op.store);
      assert op in a ==> if op.store then op.reg in stores else false;
    }
    forall r | r in stores
      ensures SpillOp(r, true) in a + b
    {
      assert SpillOp(r, true) in a;
    }
    forall i | 0 <= i < |a + b|
      ensures (a + b)[i].store
    {
      assert (a + b)[i] in a + b;
    }
  }

  /** What runs above a conditional branch never changes a register it may read. */
  lemma BranchSeesRegisters(f: Facts, code: Code, b: nat, s: Store)
    requires f.Valid() && Emitted(f, code) && b < f.graph.Count() && f.ends[b].Branches?
    ensures Run(f.spots, At(code, Block(b), true), s).regs == s.regs
  {
    var ops := At(code, Block(b), true);
    forall op | op in ops
      ensures op.store
    {
      var p := Placement(op.reg, Block(b), true, op.store);
      var e: nat :| e < |f.graph.edges| && PlacedFor(f, p, e);
      assert MayHoist(f, e);
    }
    hide Facts.Valid, Emitted, At;
    StoresKeepRegisters(f.spots, ops, s);
  }

  lemma {:induction false} StoresKeepRegisters(at: Spots, ops: seq<SpillOp>, s: Store)
    requires forall op :: op in ops ==> op.store
    ensures Run(at, ops, s).regs == s.regs
  {
    if ops != [] {
      assert ops[0] in ops;
      StoresKeepRegisters(at, ops[1..], Apply(at, ops[0], s));
    }
  }

  // ----- every run -----

  /** Place spill code for all edges. */
  method Insert(f: Facts) returns (code: Code)
    requires f.Valid()
    ensures forall e: nat :: e < |f.graph.edges| ==> Serves(f.Stores(e), f.Restores(e), Between(code, e, f.Src(e), f.Dst(e)))
    ensures Emitted(f, code)
  {
    hide Facts.Valid, Hoisted, Sunk, Holds, Serves, Wanted, Sorted, PlacementLe, ElementLe;
    var raw := CollectElements(f);
    ElementOrder();
    var elements := Sort(raw, ElementLe);
    var atSource, atDestination := Decide(f, elements);
    var placements := Arrange(f, elements, atSource, atDestination);
    code := Emit(placements);
    HoldsEmitted(f, placements, code);
    EndsInRange(f);
    forall e: nat | e < |f.graph.edges|
      ensures Serves(f.Stores(e), f.Restores(e), Between(code, e, f.Src(e), f.Dst(e)))
    {
      EdgeServed(f, code, e);
    }
  }

  lemma HoldsEmitted(f: Facts, placements: seq<Placement>, code: Code)
    requires f.Valid() && Holds(placements, code) && forall p :: p in placements <==> Wanted(f, p)
    ensures Emitted(f, code)
  {
    hide Wanted, At, StoresLead, Facts.Valid;
  }

  /** The body of a block, with its spilled operands already in slots: it keeps every
      value that a successor needs where the block promises it. */
  ghost predicate BodiesKeep(f: Facts, body: (nat, Values, Store) -> (Values, Store))
    requires f.Valid()
  {
    forall e: nat, value, s | e < |f.graph.edges| && Found(f, f.Src(e), f.live[f.Src(e)], value, s) ::
      Found(f, f.Src(e), f.live[f.Dst(e)], body(f.Src(e), value, s).0, body(f.Src(e), value, s).1)
  }

  ghost predicate EdgePath(f: Facts, es: seq<nat>)
  {
    && (forall i :: 0 <= i < |es| ==> es[i] < |f.graph.edges|)
    && (|es| > 0 ==> f.Src(es[0]) == ENTRY)
    && (forall i :: 0 <= i < |es| - 1 ==> f.Dst(es[i]) == f.Src(es[i + 1]))
  }

  ghost function LastBlock(f: Facts, es: seq<nat>): nat
    requires EdgePath(f, es)
  {
    if es == [] then ENTRY else f.Dst(es[|es| - 1])
  }

  /** Values and machine contents on arrival at the end of a path. */
  ghost function Follow(f: Facts, code: Code, body: (nat, Values, Store) -> (Values, Store), es: seq<nat>,
                        value: Values, s: Store): (Values, Store)
    requires EdgePath(f, es)
  {
    if es == [] then (value, s)
    else
      var e := es[|es| - 1];
      var (v1, s1) := Follow(f, code, body, es[..|es| - 1], value, s);
      var (v2, s2) := body(f.Src(e), v1, s1);
      (v2, Run(f.spots, Between(code, e, f.Src(e), f.Dst(e)), s2))
  }

  lemma {:induction false} FoundOnEveryPath(f: Facts, code: Code, body: (nat, Values, Store) -> (Values, Store),
                                            es: seq<nat>, value: Values, s: Store)
    requires f.Valid() && Emitted(f, code) && BodiesKeep(f, body) && EdgePath(f, es)
    requires Found(f, ENTRY, f.live[ENTRY], value, s)
    ensures LastBlock(f, es) < f.graph.Count()
    ensures var b := LastBlock(f, es);
            var (v, t) := Follow(f, code, body, es, value, s);
            Found(f, b, f.live[b], v, t)
    decreases |es|
  {
    hide Found, Emitted, Between, Run;
    if es != [] {
      var front, e := es[..|es| - 1], es[|es| - 1];
      FoundOnEveryPath(f, code, body, front, value, s);
      assert LastBlock(f, front) == f.Src(e);
      var (v1, s1) := Follow(f, code, body, front, value, s);
      var (v2, s2) := body(f.Src(e), v1, s1);
      assert Found(f, f.Src(e), f.live[f.Dst(e)], v2, s2);
      EdgeServed(f, code, e);
      ServeFinds(f, e, Between(code, e, f.Src(e), f.Dst(e)), v2, s2);
    }
  }
}
