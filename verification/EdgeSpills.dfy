/** Placement of spill code: hoisted to the end of a source, sunk to the start of a
    destination, or kept on the edge. */
module EdgeSpills {
  import opened Graphs
  import opened Sorting
  import opened EdgeSpillSemantics

  datatype Element = Element(reg: nat, edge: nat, store: bool)

  ghost predicate Demanded(f: Facts, el: Element)
    requires f.Valid()
  {
    el.edge < |f.graph.edges| && el.reg in (if el.store then f.Stores(el.edge) else f.Restores(el.edge))
  }

  /** Edge first, then stores before restores, then registers. */
  predicate ElementLe(a: Element, b: Element)
  {
    if a.edge != b.edge then a.edge < b.edge
    else if a.store != b.store then a.store
    else a.reg <= b.reg
  }

  lemma ElementOrder()
    ensures TotalOrder(ElementLe)
  {
  }

  method AppendAll(elements: seq<Element>, regs: set<nat>, edge: nat, store: bool) returns (more: seq<Element>)
    ensures forall el :: el in more <==> el in elements || (el.edge == edge && el.store == store && el.reg in regs)
  {
    more := elements;
    var todo := regs;
    while todo != {}
      invariant todo <= regs
      invariant forall el :: el in more <==> el in elements || (el.edge == edge && el.store == store && el.reg in regs - todo)
      decreases todo
    {
      var r :| r in todo;
      more := more + [Element(r, edge, store)];
      todo := todo - {r};
    }
  }

  /** Stores on the edges out of real blocks, restores on the edges into them. */
  method CollectElements(f: Facts) returns (elements: seq<Element>)
    requires f.Valid()
    ensures forall el :: el in elements <==> Demanded(f, el)
  {
    elements := [];
    for b := 2 to f.graph.Count()
      invariant forall el :: el in elements <==>
                  Demanded(f, el) && (if el.store then f.Src(el.edge) else f.Dst(el.edge)) < b
    {
      ghost var before := elements;
      var k := |f.graph.outgoing[b]|;
      while 0 < k
        invariant 0 <= k <= |f.graph.outgoing[b]|
        invariant forall el :: el in elements <==>
                    el in before || (el.store && el.edge in f.graph.outgoing[b][k..] && el.reg in f.gen[f.Dst(el.edge)] - f.gen[b])
      {
        k := k - 1;
        var e := f.graph.outgoing[b][k];
        elements := AppendAll(elements, f.gen[f.Dst(e)] - f.gen[b], e, true);
        assert f.graph.outgoing[b][k..] == [e] + f.graph.outgoing[b][k + 1..];
      }
      ghost var middle := elements;
      k := |f.graph.incoming[b]|;
      while 0 < k
        invariant 0 <= k <= |f.graph.incoming[b]|
        invariant forall el :: el in elements <==>
                    el in middle || (!el.store && el.edge in f.graph.incoming[b][k..] && el.reg in (f.gen[f.Src(el.edge)] - f.gen[b]) * f.live[b])
      {
        k := k - 1;
        var e := f.graph.incoming[b][k];
        elements := AppendAll(elements, (f.gen[f.Src(e)] - f.gen[b]) * f.live[b], e, false);
        assert f.graph.incoming[b][k..] == [e] + f.graph.incoming[b][k + 1..];
      }
      ListsOf(f, b);
    }
    forall el | Demanded(f, el)
      ensures (if el.store then f.Src(el.edge) else f.Dst(el.edge)) < f.graph.Count()
    {
    }
  }

  lemma ListsOf(f: Facts, b: nat)
    requires f.Valid() && b < f.graph.Count()
    ensures forall e: nat :: e in f.graph.outgoing[b][0..] <==> e < |f.graph.edges| && f.Src(e) == b
    ensures forall e: nat :: e in f.graph.incoming[b][0..] <==> e < |f.graph.edges| && f.Dst(e) == b
  {
    assert f.graph.outgoing[b][0..] == f.graph.outgoing[b] && f.graph.incoming[b][0..] == f.graph.incoming[b];
  }

  // ----- first marks -----

  /** The elements in the order the engine visits them. */
  ghost predicate Listed(f: Facts, elements: seq<Element>)
  {
    && f.Valid()
    && Sorted(elements, ElementLe)
    && (forall el :: el in elements <==> Demanded(f, el))
  }

  ghost predicate Busy(f: Facts, e: nat)
    requires f.Valid() && e < |f.graph.edges|
  {
    f.Needs(e) != {}
  }

  /** A restore may not move above a conditional branch, which might read the
      register; a store may. */
  ghost predicate MayHoist(f: Facts, e: nat)
    requires f.Valid() && e < |f.graph.edges|
  {
    Busy(f, e) && (f.Restores(e) == {} || !f.ends[f.Src(e)].Branches?)
  }

  ghost predicate Touches(elements: seq<Element>, n: nat, e: nat)
  {
    exists k :: 0 <= k < n && k < |elements| && elements[k].edge == e
  }

  ghost predicate OnlyStores(elements: seq<Element>, n: nat, e: nat)
  {
    forall k :: 0 <= k < n && k < |elements| && elements[k].edge == e ==> elements[k].store
  }

  ghost predicate Marks(f: Facts, elements: seq<Element>, n: nat, atSource: seq<bool>, atDestination: seq<bool>,
                        kill: seq<set<nat>>, gen: seq<set<nat>>)
    requires f.Valid()
  {
    && |atSource| == |atDestination| == |f.graph.edges| && |kill| == |gen| == f.graph.Count()
    && (forall e: nat :: e < |f.graph.edges| ==>
          && (atSource[e] <==> Touches(elements, n, e) && (OnlyStores(elements, n, e) || !f.ends[f.Src(e)].Branches?))
          && (atDestination[e] <==> Touches(elements, n, e)))
    && (forall b: nat, r :: b < f.graph.Count() ==>
          && (r in kill[b] <==> KilledBy(f, elements, n, b, r))
          && (r in gen[b] <==> GeneratedBy(f, elements, n, b, r)))
  }

  ghost predicate KilledBy(f: Facts, elements: seq<Element>, n: nat, b: nat, r: nat)
  {
    exists k :: 0 <= k < n && k < |elements| && elements[k].reg == r && HasSource(f, elements[k], b)
  }

  ghost predicate GeneratedBy(f: Facts, elements: seq<Element>, n: nat, b: nat, r: nat)
  {
    exists k :: 0 <= k < n && k < |elements| && elements[k].reg == r && HasDestination(f, elements[k], b)
  }

  ghost predicate HasSource(f: Facts, el: Element, b: nat)
  {
    el.edge < |f.graph.edges| && f.Src(el.edge) == b
  }

  ghost predicate HasDestination(f: Facts, el: Element, b: nat)
  {
    el.edge < |f.graph.edges| && f.Dst(el.edge) == b
  }

  method MarkEdges(f: Facts, elements: seq<Element>)
      returns (atSource: seq<bool>, atDestination: seq<bool>, kill: seq<set<nat>>, gen: seq<set<nat>>)
    requires Listed(f, elements)
    ensures Marks(f, elements, |elements|, atSource, atDestination, kill, gen)
  {
    atSource := seq(|f.graph.edges|, _ => false);
    atDestination := atSource;
    kill := seq(f.graph.Count(), _ => {});
    gen := kill;
    for n := 0 to |elements|
      invariant Marks(f, elements, n, atSource, atDestination, kill, gen)
    {
      var el := elements[n];
      assert Demanded(f, el);
      var src, dst := f.Src(el.edge), f.Dst(el.edge);
      ghost var a, d, k, g := atSource, atDestination, kill, gen;
      atSource := atSource[el.edge := el.store || !f.ends[src].Branches?];
      atDestination := atDestination[el.edge := true];
      kill := kill[src := kill[src] + {el.reg}];
      gen := gen[dst := gen[dst] + {el.reg}];
      MarkStep(f, elements, n, a, d, k, g, atSource, atDestination, kill, gen);
    }
  }

  lemma MarkStep(f: Facts, elements: seq<Element>, n: nat, a: seq<bool>, d: seq<bool>, kill: seq<set<nat>>, gen: seq<set<nat>>,
                 a': seq<bool>, d': seq<bool>, kill': seq<set<nat>>, gen': seq<set<nat>>)
    requires Listed(f, elements) && n < |elements| && Marks(f, elements, n, a, d, kill, gen)
    requires elements[n].edge < |f.graph.edges|
    requires f.Src(elements[n].edge) < |kill| && f.Dst(elements[n].edge) < |gen| && f.Src(elements[n].edge) < |f.ends|
    requires a' == a[elements[n].edge := elements[n].store || !f.ends[f.Src(elements[n].edge)].Branches?]
    requires d' == d[elements[n].edge := true]
    requires kill' == kill[f.Src(elements[n].edge) := kill[f.Src(elements[n].edge)] + {elements[n].reg}]
    requires gen' == gen[f.Dst(elements[n].edge) := gen[f.Dst(elements[n].edge)] + {elements[n].reg}]
    ensures Marks(f, elements, n + 1, a', d', kill', gen')
  {
    hide Touches, OnlyStores, KilledBy, GeneratedBy, Demanded, Facts.Valid;
    var el := elements[n];
    EndsInRange(f);
    if el.store {
      StoresFirst(f, elements, n);
    }
    forall e: nat | e < |f.graph.edges|
      ensures a'[e] <==> Touches(elements, n + 1, e) && (OnlyStores(elements, n + 1, e) || !f.ends[f.Src(e)].Branches?)
      ensures d'[e] <==> Touches(elements, n + 1, e)
    {
      TouchStep(elements, n, e);
    }
    forall b: nat, r | b < f.graph.Count()
      ensures r in kill'[b] <==> KilledBy(f, elements, n + 1, b, r)
      ensures r in gen'[b] <==> GeneratedBy(f, elements, n + 1, b, r)
    {
      KillStep(f, elements, n, b, r);
    }
  }

  lemma EndsInRange(f: Facts)
    requires f.Valid()
    ensures |f.ends| == |f.gen| == |f.live| == |f.graph.incoming| == f.graph.Count()
    ensures forall e: nat :: e < |f.graph.edges| ==> f.Src(e) < f.graph.Count() && f.Dst(e) < f.graph.Count()
  {
  }

  lemma StoresFirst(f: Facts, elements: seq<Element>, n: nat)
    requires Listed(f, elements) && n < |elements| && elements[n].store
    ensures OnlyStores(elements, n, elements[n].edge)
  {
    forall k | 0 <= k < n && elements[k].edge == elements[n].edge
      ensures elements[k].store
    {
      assert ElementLe(elements[k], elements[n]);
    }
  }

  lemma KillStep(f: Facts, elements: seq<Element>, n: nat, b: nat, r: nat)
    requires n < |elements|
    ensures KilledBy(f, elements, n + 1, b, r) <==> KilledBy(f, elements, n, b, r) || (elements[n].reg == r && HasSource(f, elements[n], b))
    ensures GeneratedBy(f, elements, n + 1, b, r) <==>
            GeneratedBy(f, elements, n, b, r) || (elements[n].reg == r && HasDestination(f, elements[n], b))
  {
    hide HasSource, HasDestination;
  }

  lemma TouchStep(elements: seq<Element>, n: nat, e: nat)
    requires n < |elements|
    ensures Touches(elements, n + 1, e) <==> Touches(elements, n, e) || elements[n].edge == e
    ensures OnlyStores(elements, n + 1, e) <==> OnlyStores(elements, n, e) && (elements[n].edge == e ==> elements[n].store)
  {
    if Touches(elements, n + 1, e) && elements[n].edge != e {
      var k :| 0 <= k < n + 1 && k < |elements| && elements[k].edge == e;
      assert k < n;
    }
  }

  /** What the marks say once all elements were seen. */
  ghost predicate Marked(f: Facts, atSource: seq<bool>, atDestination: seq<bool>, kill: seq<set<nat>>, gen: seq<set<nat>>)
    requires f.Valid()
  {
    && |atSource| == |atDestination| == |f.graph.edges| && |kill| == |gen| == f.graph.Count()
    && (forall e: nat :: e < |f.graph.edges| ==> (atSource[e] <==> MayHoist(f, e)) && (atDestination[e] <==> Busy(f, e)))
    && (forall b: nat, r :: b < f.graph.Count() ==>
          && (r in kill[b] <==> exists e: nat :: e < |f.graph.edges| && f.Src(e) == b && r in f.Needs(e))
          && (r in gen[b] <==> exists e: nat :: e < |f.graph.edges| && f.Dst(e) == b && r in f.Needs(e)))
  }

  lemma AllMarked(f: Facts, elements: seq<Element>, atSource: seq<bool>, atDestination: seq<bool>,
                  kill: seq<set<nat>>, gen: seq<set<nat>>)
    requires Listed(f, elements) && Marks(f, elements, |elements|, atSource, atDestination, kill, gen)
    ensures Marked(f, atSource, atDestination, kill, gen)
  {
    forall e: nat | e < |f.graph.edges|
      ensures Touches(elements, |elements|, e) <==> Busy(f, e)
      ensures OnlyStores(elements, |elements|, e) <==> f.Restores(e) == {}
    {
      EdgeElements(f, elements, e);
    }
    hide Touches, OnlyStores, Facts.Valid;
    forall b: nat, r | b < f.graph.Count()
      ensures r in kill[b] <==> exists e: nat :: e < |f.graph.edges| && f.Src(e) == b && r in f.Needs(e)
      ensures r in gen[b] <==> exists e: nat :: e < |f.graph.edges| && f.Dst(e) == b && r in f.Needs(e)
    {
      RegisterElements(f, elements, r);
    }
  }

  lemma EdgeElements(f: Facts, elements: seq<Element>, e: nat)
    requires Listed(f, elements) && e < |f.graph.edges|
    ensures Touches(elements, |elements|, e) <==> Busy(f, e)
    ensures OnlyStores(elements, |elements|, e) <==> f.Restores(e) == {}
  {
    if Touches(elements, |elements|, e) {
      var k :| 0 <= k < |elements| && elements[k].edge == e;
      assert Demanded(f, elements[k]);
      assert elements[k].reg in f.Needs(e);
    }
    if Busy(f, e) {
      var r :| r in f.Needs(e);
      var el := Element(r, e, r in f.Stores(e));
      assert Demanded(f, el);
      assert el in elements;
    }
    if f.Restores(e) != {} {
      var r :| r in f.Restores(e);
      assert Demanded(f, Element(r, e, false));
      assert Element(r, e, false) in elements;
    } else {
      forall k | 0 <= k < |elements| && elements[k].edge == e
        ensures elements[k].store
      {
        assert Demanded(f, elements[k]);
      }
    }
  }

  lemma RegisterElements(f: Facts, elements: seq<Element>, r: nat)
    requires Listed(f, elements)
    ensures forall e: nat :: e < |f.graph.edges| && r in f.Needs(e) ==>
              exists k :: 0 <= k < |elements| && elements[k].reg == r && elements[k].edge == e
    ensures forall k :: 0 <= k < |elements| && elements[k].reg == r ==>
              elements[k].edge < |f.graph.edges| && r in f.Needs(elements[k].edge)
  {
    forall e: nat | e < |f.graph.edges| && r in f.Needs(e)
      ensures exists k :: 0 <= k < |elements| && elements[k].reg == r && elements[k].edge == e
    {
      var el := Element(r, e, r in f.Stores(e));
      assert Demanded(f, el);
      assert el in elements;
    }
    forall k | 0 <= k < |elements| && elements[k].reg == r
      ensures elements[k].edge < |f.graph.edges| && r in f.Needs(elements[k].edge)
    {
      assert Demanded(f, elements[k]);
    }
  }

  // ----- keeping only marks that all edges of a block share -----

  /** The groups of elements seen by position `p`: a group is never cut. */
  ghost predicate Boundary(elements: seq<Element>, p: nat)
  {
    p <= |elements| && (0 < p < |elements| ==> elements[p - 1].edge != elements[p].edge)
  }

  /** Edge `e` shares its needs with all edges out of its source, which may all be
      hoisted. */
  ghost predicate AgreesAtSource(f: Facts, kill: seq<set<nat>>, e: nat)
    requires f.Valid() && e < |f.graph.edges| && |kill| == f.graph.Count()
  {
    f.Needs(e) == kill[f.Src(e)] && forall d: nat :: d < |f.graph.edges| && f.Src(d) == f.Src(e) ==> MayHoist(f, d)
  }

  ghost predicate AgreesAtDestination(f: Facts, gen: seq<set<nat>>, e: nat)
    requires f.Valid() && e < |f.graph.edges| && |gen| == f.graph.Count()
  {
    f.Needs(e) == gen[f.Dst(e)] && forall d: nat :: d < |f.graph.edges| && f.Dst(d) == f.Dst(e) ==> Busy(f, d)
  }

  /** Some group seen so far disagreed at block `b`. */
  ghost predicate SpoiledSource(f: Facts, elements: seq<Element>, p: nat, kill: seq<set<nat>>, b: nat)
    requires f.Valid() && |kill| == f.graph.Count()
  {
    exists e: nat :: e < |f.graph.edges| && f.Src(e) == b && Touches(elements, p, e) && MayHoist(f, e) && !AgreesAtSource(f, kill, e)
  }

  ghost predicate SpoiledDestination(f: Facts, elements: seq<Element>, p: nat, gen: seq<set<nat>>, b: nat)
    requires f.Valid() && |gen| == f.graph.Count()
  {
    exists e: nat :: e < |f.graph.edges| && f.Dst(e) == b && Touches(elements, p, e) && !AgreesAtDestination(f, gen, e)
  }

  ghost predicate Keeping(f: Facts, elements: seq<Element>, p: nat, atSource: seq<bool>, atDestination: seq<bool>,
                          kill: seq<set<nat>>, gen: seq<set<nat>>)
    requires f.Valid() && |kill| == |gen| == f.graph.Count()
  {
    && |atSource| == |atDestination| == |f.graph.edges|
    && (forall e: nat :: e < |f.graph.edges| ==>
          && (atSource[e] <==> MayHoist(f, e) && !SpoiledSource(f, elements, p, kill, f.Src(e)))
          && (atDestination[e] <==> Busy(f, e) && !SpoiledDestination(f, elements, p, gen, f.Dst(e))))
  }

  /** Collect the registers of the group at `p`. */
  method TakeGroup(f: Facts, elements: seq<Element>, p: nat) returns (regs: set<nat>, q: nat)
    requires Listed(f, elements) && p < |elements| && Boundary(elements, p)
    ensures p < q && Boundary(elements, q)
    ensures elements[p].edge < |f.graph.edges| && regs == f.Needs(elements[p].edge) && regs != {}
    ensures forall e: nat :: Touches(elements, q, e) <==> Touches(elements, p, e) || e == elements[p].edge
  {
    hide Facts.Valid, Demanded, Sorted, ElementLe;
    var e := elements[p].edge;
    regs, q := {elements[p].reg}, p + 1;
    while q < |elements| && elements[q].edge == e
      invariant p < q <= |elements|
      invariant forall k :: p <= k < q ==> elements[k].edge == e
      invariant forall r :: r in regs <==> exists k :: p <= k < q && elements[k].reg == r
    {
      regs := regs + {elements[q].reg};
      q := q + 1;
    }
    GroupIsWhole(f, elements, p, q, regs);
    assert forall c: nat :: Touches(elements, q, c) <==> Touches(elements, p, c) || c == e by {
      assert elements[p].edge == e;
    }
  }

  lemma GroupIsWhole(f: Facts, elements: seq<Element>, p: nat, q: nat, regs: set<nat>)
    requires Listed(f, elements) && p < q <= |elements| && Boundary(elements, p) && Boundary(elements, q)
    requires forall k :: p <= k < q ==> elements[k].edge == elements[p].edge
    requires forall r :: r in regs <==> exists k :: p <= k < q && elements[k].reg == r
    ensures elements[p].edge < |f.graph.edges| && regs == f.Needs(elements[p].edge)
  {
    var e := elements[p].edge;
    assert Demanded(f, elements[p]);
    forall k | 0 <= k < |elements| && elements[k].edge == e
      ensures p <= k < q
    {
      assert k < p - 1 ==> ElementLe(elements[k], elements[p - 1]);
      assert q < k ==> ElementLe(elements[q], elements[k]);
      assert 0 < p ==> ElementLe(elements[p - 1], elements[p]);
      assert q < |elements| ==> ElementLe(elements[q - 1], elements[q]);
    }
    hide Sorted, ElementLe, Facts.Valid;
    forall r
      ensures r in regs <==> r in f.Needs(e)
    {
      RegisterElements(f, elements, r);
    }
  }

  method AllMarkedAt(marks: seq<bool>, edges: seq<nat>) returns (all: bool)
    requires forall k :: 0 <= k < |edges| ==> edges[k] < |marks|
    ensures all <==> forall k :: 0 <= k < |edges| ==> marks[edges[k]]
  {
    all := true;
    for k := 0 to |edges|
      invariant all <==> forall j :: 0 <= j < k ==> marks[edges[j]]
    {
      all := all && marks[edges[k]];
    }
  }

  method ClearMarks(marks: seq<bool>, edges: seq<nat>) returns (cleared: seq<bool>)
    requires forall k :: 0 <= k < |edges| ==> edges[k] < |marks|
    ensures |cleared| == |marks|
    ensures forall e: nat :: e < |marks| ==> cleared[e] == (marks[e] && e !in edges)
  {
    cleared := marks;
    for k := 0 to |edges|
      invariant |cleared| == |marks|
      invariant forall e: nat :: e < |marks| ==> cleared[e] == (marks[e] && e !in edges[..k])
    {
      cleared := cleared[edges[k] := false];
      assert edges[..k + 1] == edges[..k] + [edges[k]];
    }
    assert edges[..|edges|] == edges;
  }

  method KeepCommon(f: Facts, elements: seq<Element>, a: seq<bool>, d: seq<bool>, kill: seq<set<nat>>, gen: seq<set<nat>>)
      returns (atSource: seq<bool>, atDestination: seq<bool>)
    requires Listed(f, elements) && Marked(f, a, d, kill, gen)
    ensures Keeping(f, elements, |elements|, atSource, atDestination, kill, gen)
  {
    hide Facts.Valid, Sorted, ElementLe, Demanded, Keeping;
    atSource, atDestination := a, d;
    StartKeeping(f, elements, a, d, kill, gen);
    EndsInRange(f);
    var p := 0;
    while p < |elements|
      invariant Boundary(elements, p)
      invariant Keeping(f, elements, p, atSource, atDestination, kill, gen)
      invariant |atSource| == |atDestination| == |f.graph.edges|
      decreases |elements| - p
    {
      var e := elements[p].edge;
      var regs, q := TakeGroup(f, elements, p);
      ListsOf(f, f.Src(e));
      ListsOf(f, f.Dst(e));
      ListsInRange(f, f.Src(e));
      ListsInRange(f, f.Dst(e));
      ghost var a', d' := atSource, atDestination;
      if atSource[e] {
        var all := AllMarkedAt(atSource, f.graph.outgoing[f.Src(e)]);
        if !(regs == kill[f.Src(e)] && all) {
          atSource := ClearMarks(atSource, f.graph.outgoing[f.Src(e)]);
        }
      }
      if atDestination[e] {
        var all := AllMarkedAt(atDestination, f.graph.incoming[f.Dst(e)]);
        if !(regs == gen[f.Dst(e)] && all) {
          atDestination := ClearMarks(atDestination, f.graph.incoming[f.Dst(e)]);
        }
      }
      KeepStep(f, elements, p, q, e, a', d', kill, gen, atSource, atDestination);
      p := q;
    }
  }

  lemma SpoilStep(f: Facts, elements: seq<Element>, p: nat, q: nat, e: nat, kill: seq<set<nat>>, gen: seq<set<nat>>, b: nat)
    requires f.Valid() && |kill| == |gen| == f.graph.Count() && e < |f.graph.edges|
    requires forall c: nat :: Touches(elements, q, c) <==> Touches(elements, p, c) || c == e
    ensures SpoiledSource(f, elements, q, kill, b) <==>
            SpoiledSource(f, elements, p, kill, b) || (f.Src(e) == b && MayHoist(f, e) && !AgreesAtSource(f, kill, e))
    ensures SpoiledDestination(f, elements, q, gen, b) <==>
            SpoiledDestination(f, elements, p, gen, b) || (f.Dst(e) == b && !AgreesAtDestination(f, gen, e))
  {
    hide Touches, MayHoist, AgreesAtSource, AgreesAtDestination, Facts.Valid;
  }

  lemma KeepStep(f: Facts, elements: seq<Element>, p: nat, q: nat, e: nat, a: seq<bool>, d: seq<bool>,
                 kill: seq<set<nat>>, gen: seq<set<nat>>, a': seq<bool>, d': seq<bool>)
    requires f.Valid() && |kill| == |gen| == f.graph.Count() && e < |f.graph.edges| && Busy(f, e)
    requires Keeping(f, elements, p, a, d, kill, gen) && |a'| == |d'| == |f.graph.edges|
    requires forall c: nat :: Touches(elements, q, c) <==> Touches(elements, p, c) || c == e
    requires var all := f.Needs(e) == kill[f.Src(e)] && forall y: nat :: y < |a| && f.Src(y) == f.Src(e) ==> a[y];
             forall x: nat :: x < |a| ==> a'[x] == (a[x] && !(a[e] && f.Src(x) == f.Src(e) && !all))
    requires var all := f.Needs(e) == gen[f.Dst(e)] && forall y: nat :: y < |d| && f.Dst(y) == f.Dst(e) ==> d[y];
             forall x: nat :: x < |d| ==> d'[x] == (d[x] && !(d[e] && f.Dst(x) == f.Dst(e) && !all))
    ensures Keeping(f, elements, q, a', d', kill, gen)
  {
    hide Touches, MayHoist, Busy, Facts.Valid, SpoiledSource, SpoiledDestination;
    forall x: nat | x < |f.graph.edges|
      ensures a'[x] <==> MayHoist(f, x) && !SpoiledSource(f, elements, q, kill, f.Src(x))
      ensures d'[x] <==> Busy(f, x) && !SpoiledDestination(f, elements, q, gen, f.Dst(x))
    {
      SpoilStep(f, elements, p, q, e, kill, gen, f.Src(x));
      SpoilStep(f, elements, p, q, e, kill, gen, f.Dst(x));
    }
  }

  lemma StartKeeping(f: Facts, elements: seq<Element>, a: seq<bool>, d: seq<bool>, kill: seq<set<nat>>, gen: seq<set<nat>>)
    requires f.Valid() && Marked(f, a, d, kill, gen)
    ensures Keeping(f, elements, 0, a, d, kill, gen)
  {
    hide Facts.Valid;
  }

  lemma ListsInRange(f: Facts, b: nat)
    requires f.Valid() && b < f.graph.Count()
    ensures forall k :: 0 <= k < |f.graph.outgoing[b]| ==> f.graph.outgoing[b][k] < |f.graph.edges|
    ensures forall k :: 0 <= k < |f.graph.incoming[b]| ==> f.graph.incoming[b][k] < |f.graph.edges|
    ensures forall e: nat :: e in f.graph.outgoing[b] <==> e < |f.graph.edges| && f.Src(e) == b
    ensures forall e: nat :: e in f.graph.incoming[b] <==> e < |f.graph.edges| && f.Dst(e) == b
  {
  }

  // ----- the decision for each edge -----

  /** All edges out of `b` carry the same needs and may be hoisted. */
  ghost predicate SourceCommon(f: Facts, b: nat)
    requires f.Valid()
  {
    forall e: nat, d: nat :: e < |f.graph.edges| && d < |f.graph.edges| && f.Src(e) == b && f.Src(d) == b ==>
      MayHoist(f, e) && f.Needs(e) == f.Needs(d)
  }

  ghost predicate DestinationCommon(f: Facts, b: nat)
    requires f.Valid()
  {
    forall e: nat, d: nat :: e < |f.graph.edges| && d < |f.graph.edges| && f.Dst(e) == b && f.Dst(d) == b ==>
      Busy(f, e) && f.Needs(e) == f.Needs(d)
  }

  ghost predicate Common(f: Facts, atSource: seq<bool>, atDestination: seq<bool>)
    requires f.Valid()
  {
    && |atSource| == |atDestination| == |f.graph.edges|
    && forall e: nat :: e < |f.graph.edges| ==>
         (atSource[e] <==> SourceCommon(f, f.Src(e))) && (atDestination[e] <==> DestinationCommon(f, f.Dst(e)))
  }

  lemma KeptSource(f: Facts, elements: seq<Element>, a: seq<bool>, d: seq<bool>, kill: seq<set<nat>>, gen: seq<set<nat>>, e: nat)
    requires Listed(f, elements) && |kill| == |gen| == f.graph.Count() && e < |f.graph.edges|
    requires Keeping(f, elements, |elements|, a, d, kill, gen)
    requires forall b: nat, r :: b < f.graph.Count() ==>
               (r in kill[b] <==> exists e: nat :: e < |f.graph.edges| && f.Src(e) == b && r in f.Needs(e))
    ensures a[e] <==> SourceCommon(f, f.Src(e))
  {
    var b := f.Src(e);
    assert b < |kill|;
    if a[e] {
      forall x: nat | x < |f.graph.edges| && f.Src(x) == b
        ensures MayHoist(f, x) && f.Needs(x) == kill[b]
      {
        hide Facts.Valid, SpoiledDestination;
        EdgeElements(f, elements, e);
        assert AgreesAtSource(f, kill, e);
        EdgeElements(f, elements, x);
        assert AgreesAtSource(f, kill, x);
      }
    }
    if SourceCommon(f, b) {
      hide Facts.Valid, SpoiledDestination, Busy;
      forall x: nat | x < |f.graph.edges| && f.Src(x) == b
        ensures AgreesAtSource(f, kill, x)
      {
        assert MayHoist(f, x) && MayHoist(f, e);
        assert forall r :: r in kill[b] <==> r in f.Needs(x);
      }
    }
  }

  lemma KeptDestination(f: Facts, elements: seq<Element>, a: seq<bool>, d: seq<bool>, kill: seq<set<nat>>, gen: seq<set<nat>>, e: nat)
    requires Listed(f, elements) && |kill| == |gen| == f.graph.Count() && e < |f.graph.edges|
    requires Keeping(f, elements, |elements|, a, d, kill, gen)
    requires forall b: nat, r :: b < f.graph.Count() ==>
               (r in gen[b] <==> exists e: nat :: e < |f.graph.edges| && f.Dst(e) == b && r in f.Needs(e))
    ensures d[e] <==> DestinationCommon(f, f.Dst(e))
  {
    var b := f.Dst(e);
    assert b < |gen|;
    if d[e] {
      forall x: nat | x < |f.graph.edges| && f.Dst(x) == b
        ensures Busy(f, x) && f.Needs(x) == gen[b]
      {
        hide Facts.Valid, SpoiledSource;
        EdgeElements(f, elements, e);
        assert AgreesAtDestination(f, gen, e);
        EdgeElements(f, elements, x);
        assert AgreesAtDestination(f, gen, x);
      }
    }
    if DestinationCommon(f, b) {
      hide Facts.Valid, SpoiledSource, MayHoist;
      forall x: nat | x < |f.graph.edges| && f.Dst(x) == b
        ensures AgreesAtDestination(f, gen, x)
      {
        assert Busy(f, x) && Busy(f, e);
        assert forall r :: r in gen[b] <==> r in f.Needs(x);
      }
    }
  }

  /** Where an edge's operations go in the end. */
  ghost predicate Hoisted(f: Facts, e: nat)
    requires f.Valid() && e < |f.graph.edges|
  {
    SourceCommon(f, f.Src(e)) && !(DestinationCommon(f, f.Dst(e)) && |f.graph.outgoing[f.Src(e)]| == 1)
  }

  ghost predicate Sunk(f: Facts, e: nat)
    requires f.Valid() && e < |f.graph.edges|
  {
    && DestinationCommon(f, f.Dst(e))
    && !(SourceCommon(f, f.Src(e)) && |f.graph.outgoing[f.Src(e)]| != 1 && |f.graph.incoming[f.Dst(e)]| == 1)
  }

  ghost predicate Settled(f: Facts, atSource: seq<bool>, atDestination: seq<bool>)
    requires f.Valid()
  {
    && |atSource| == |atDestination| == |f.graph.edges|
    && forall e: nat :: e < |f.graph.edges| && Busy(f, e) ==>
         (atSource[e] <==> Hoisted(f, e)) && (atDestination[e] <==> Sunk(f, e))
  }

  /** Drop one of two marks where the other alone covers the edge. */
  method SettleBoth(f: Facts, elements: seq<Element>, a: seq<bool>, d: seq<bool>)
      returns (atSource: seq<bool>, atDestination: seq<bool>)
    requires Listed(f, elements) && Common(f, a, d)
    ensures Settled(f, atSource, atDestination)
  {
    hide SourceCommon, DestinationCommon, Sorted, ElementLe;
    atSource, atDestination := a, d;
    for n := 0 to |elements|
      invariant |atSource| == |atDestination| == |f.graph.edges|
      invariant forall e: nat :: e < |f.graph.edges| ==>
                  if Touches(elements, n, e) then (atSource[e] <==> Hoisted(f, e)) && (atDestination[e] <==> Sunk(f, e))
                  else atSource[e] == a[e] && atDestination[e] == d[e]
    {
      var el := elements[n];
      assert Demanded(f, el);
      forall e: nat
        ensures Touches(elements, n + 1, e) <==> Touches(elements, n, e) || elements[n].edge == e
      {
        TouchStep(elements, n, e);
      }
      if atSource[el.edge] && atDestination[el.edge] {
        if |f.graph.outgoing[f.Src(el.edge)]| == 1 {
          atSource := atSource[el.edge := false];
        } else if |f.graph.incoming[f.Dst(el.edge)]| == 1 {
          atDestination := atDestination[el.edge := false];
        }
      }
    }
    forall e: nat | e < |f.graph.edges| && Busy(f, e)
      ensures (atSource[e] <==> Hoisted(f, e)) && (atDestination[e] <==> Sunk(f, e))
    {
      EdgeElements(f, elements, e);
    }
  }

  method Decide(f: Facts, elements: seq<Element>) returns (atSource: seq<bool>, atDestination: seq<bool>)
    requires Listed(f, elements)
    ensures Settled(f, atSource, atDestination)
  {
    hide Marks, Keeping, Settled, Facts.Valid, SourceCommon, DestinationCommon, Sorted, ElementLe;
    var kill, gen;
    atSource, atDestination, kill, gen := MarkEdges(f, elements);
    AllMarked(f, elements, atSource, atDestination, kill, gen);
    atSource, atDestination := KeepCommon(f, elements, atSource, atDestination, kill, gen);
    KeepingSizes(f, elements, atSource, atDestination, kill, gen);
    forall e: nat | e < |f.graph.edges|
      ensures (atSource[e] <==> SourceCommon(f, f.Src(e))) && (atDestination[e] <==> DestinationCommon(f, f.Dst(e)))
    {
      KeptSource(f, elements, atSource, atDestination, kill, gen, e);
      KeptDestination(f, elements, atSource, atDestination, kill, gen, e);
    }
    atSource, atDestination := SettleBoth(f, elements, atSource, atDestination);
  }

  lemma KeepingSizes(f: Facts, elements: seq<Element>, a: seq<bool>, d: seq<bool>, kill: seq<set<nat>>, gen: seq<set<nat>>)
    requires f.Valid() && |kill| == |gen| == f.graph.Count() && Keeping(f, elements, |elements|, a, d, kill, gen)
    ensures |a| == |d| == |f.graph.edges|
  {
  }
}
