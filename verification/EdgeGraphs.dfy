/** What each edit does to the canonical graph as a list of edges, and to runs. */
module EdgeGraphs {
  import opened Optional
  import opened Topology
  import opened EdgeEdits

  /** `g` sends the edge `gone` through its one new block, as `first` and then `second`. */
  ghost predicate Splits(f: Func, g: Func, gone: Edge, first: Edge, second: Edge)
  {
    && |g.code| == |f.code| + 1 && |f.code| >= 2
    && Direct(f, gone) && f.Real(gone.source) && f.Real(gone.destination)
    && first.source == gone.source && first.destination == |f.code|
    && second.source == |f.code| && second.destination == gone.destination
    && forall e :: Direct(g, e) <==> e == first || e == second || (Direct(f, e) && e != gone)
  }

  /** `g` turns the edge `gone` into `first` between the same blocks. */
  ghost predicate Turns(f: Func, g: Func, gone: Edge, first: Edge)
  {
    && |g.code| == |f.code|
    && Direct(f, gone) && f.Real(gone.source) && f.Real(gone.destination)
    && first.source == gone.source && first.destination == gone.destination
    && forall e :: Direct(g, e) <==> e == first || (Direct(f, e) && e != gone)
  }

  lemma DirectIsReal(f: Func, e: Edge)
    requires f.Well() && Direct(f, e)
    ensures f.Real(e.source) && f.Real(e.destination)
  {
    FollowIn(f.order, e.source);
    assert f.code[e.source].tail.Falls() ==> Follow(f.order, e.source).Some? ==> Follow(f.order, e.source).value in f.order;
  }

  lemma SplitsIn(f: Func, g: Func, gone: Edge, first: Edge, second: Edge, b: nat)
    requires Splits(f, g, gone, first, second)
    ensures b != |f.code| ==> (HasIn(g, b) <==> HasIn(f, b)) && (HasOut(g, b) <==> HasOut(f, b))
    ensures HasIn(g, |f.code|) && HasOut(g, |f.code|)
  {
    hide Direct;
    assert Direct(g, first) && Direct(g, second);
    if b != |f.code| {
      if HasIn(f, b) {
        var e :| Direct(f, e) && e.destination == b;
        assert Direct(g, if e == gone then second else e);
      }
      if HasOut(f, b) {
        var e :| Direct(f, e) && e.source == b;
        assert Direct(g, if e == gone then first else e);
      }
      if HasIn(g, b) {
        var e :| Direct(g, e) && e.destination == b;
        assert Direct(f, if e == second then gone else e);
      }
      if HasOut(g, b) {
        var e :| Direct(g, e) && e.source == b;
        assert Direct(f, if e == first then gone else e);
      }
    }
  }

  /** Boundary edges do not notice. */
  lemma SplitsGraph(f: Func, g: Func, gone: Edge, first: Edge, second: Edge, e: Edge)
    requires Splits(f, g, gone, first, second)
    ensures InGraph(g, e) <==> e == first || e == second || (InGraph(f, e) && e != gone)
  {
    hide Direct, HasIn, HasOut;
    SplitsIn(f, g, gone, first, second, e.source);
    SplitsIn(f, g, gone, first, second, e.destination);
  }

  lemma TurnsGraph(f: Func, g: Func, gone: Edge, first: Edge, e: Edge)
    requires Turns(f, g, gone, first)
    ensures InGraph(g, e) <==> e == first || (InGraph(f, e) && e != gone)
  {
    hide Direct;
    forall b: nat ensures (HasIn(g, b) <==> HasIn(f, b)) && (HasOut(g, b) <==> HasOut(f, b)) {
      if h :| Direct(f, h) && h.destination == b { assert Direct(g, if h == gone then first else h); }
      if h :| Direct(f, h) && h.source == b { assert Direct(g, if h == gone then first else h); }
      if h :| Direct(g, h) && h.destination == b { assert Direct(f, if h == first then gone else h); }
      if h :| Direct(g, h) && h.source == b { assert Direct(f, if h == first then gone else h); }
    }
  }

  lemma ReplaceDistinct<T(!new)>(s: seq<T>, i: nat, x: T)
    requires Distinct(s) && i < |s| && x !in s
    ensures Distinct(s[i := x])
    ensures forall e :: e in s[i := x] <==> e == x || (e in s && e != s[i])
  {
    var t := s[i := x];
    forall e ensures e in t <==> e == x || (e in s && e != s[i]) {
      if e in s && e != s[i] {
        var k: nat :| k < |s| && s[k] == e;
        assert t[k] == e;
      }
      if e in t {
        var k: nat :| k < |t| && t[k] == e;
        assert k != i ==> s[k] == e && s[k] != s[i];
      }
      assert t[i] == x;
    }
    forall a: nat, b: nat | a < b < |t| ensures t[a] != t[b] {
      assert s[a] != s[b];
    }
  }

  lemma AppendDistinct<T(!new)>(s: seq<T>, y: T)
    requires Distinct(s) && y !in s
    ensures Distinct(s + [y])
  {
    var t := s + [y];
    forall a: nat, b: nat | a < b < |t| ensures t[a] != t[b] {
      assert b < |s| ==> s[a] != s[b];
    }
  }

  /** Editing the list of edges the same way keeps it the canonical graph. */
  lemma SplitsMatch(f: Func, g: Func, edges: seq<Edge>, i: nat, first: Edge, second: Edge)
    requires f.Well() && Matches(f, edges) && i < |edges| && Splits(f, g, edges[i], first, second)
    ensures Matches(g, edges[i := first] + [second])
  {
    hide Distinct, Direct, Func.Well;
    var gone := edges[i];
    assert !InGraph(f, first) && !InGraph(f, second) by { NewEdges(f, |f.code|, first, second); }
    ReplaceDistinct(edges, i, first);
    assert second !in edges[i := first];
    AppendDistinct(edges[i := first], second);
    forall e ensures e in edges[i := first] + [second] <==> InGraph(g, e) {
      SplitsGraph(f, g, gone, first, second, e);
      assert e in edges <==> InGraph(f, e);
    }
  }

  lemma NewEdges(f: Func, n: nat, first: Edge, second: Edge)
    requires f.Well() && n == |f.code| && first.destination == n && second.source == n && f.Real(first.source) && f.Real(second.destination)
    ensures !InGraph(f, first) && !InGraph(f, second)
  {
    if Direct(f, first) {
      DirectIsReal(f, first);
    }
    assert !Direct(f, second);
  }

  lemma TurnsMatch(f: Func, g: Func, edges: seq<Edge>, i: nat, first: Edge)
    requires Matches(f, edges) && i < |edges| && Turns(f, g, edges[i], first) && !Direct(f, first)
    ensures Matches(g, edges[i := first])
  {
    hide Distinct, Direct;
    var gone := edges[i];
    assert !InGraph(f, first);
    ReplaceDistinct(edges, i, first);
    forall e ensures e in edges[i := first] <==> InGraph(g, e) {
      TurnsGraph(f, g, gone, first, e);
      assert e in edges <==> InGraph(f, e);
    }
  }

  // ----- the four edits -----

  /** What a reader of the edited function may rely on. */
  ghost predicate Edited(f: Func, g: Func, edges: seq<Edge>)
  {
    g.Well() && Matches(g, edges) && SameRuns(f, g, Names(|f.code|, |g.code|))
  }

  lemma FallEdit(f: Func, s: nat, body: seq<Op>, tail: Tail, d: nat, edges: seq<Edge>, i: nat)
    requires AfterFallOk(f, s, tail, d) && Matches(f, edges) && (body == [] || body == [Anchor])
    requires i < |edges| && edges[i] == Edge(s, d, Fallthrough, NO_OPERAND)
    ensures var g := AfterFall(f, s, body, tail);
            Edited(f, g, edges[i := edges[i].(destination := |f.code|)] + [Onward(|f.code|, d, tail)])
  {
    hide Direct, Next, Matches, InsertAfter, Follow;
    var g := AfterFall(f, s, body, tail);
    var first, second := edges[i].(destination := |f.code|), Onward(|f.code|, d, tail);
    AfterFallWell(f, s, body, tail, d);
    assert Direct(f, edges[i]) by { FallingIsDirect(f, s, d); }
    DirectIsReal(f, edges[i]);
    forall e ensures Direct(g, e) <==> e == first || e == second || (Direct(f, e) && e != edges[i]) {
      AfterFallDirect(f, s, body, tail, d, e);
    }
    SplitsMatch(f, g, edges, i, first, second);
    forall m: Machine, b: nat, st: int | f.Real(b) ensures HopsAt(m, f, g, b, st) {
      AfterFallNext(m, f, s, body, tail, d, b, st);
    }
    forall m: Machine, n: nat, st: int | |f.code| <= n < |g.code| ensures ReturnsAt(m, f, g, n, st) {
      AfterFallNext(m, f, s, body, tail, d, s, st);
    }
    HopsKeepRuns(f, g);
  }

  lemma FallingIsDirect(f: Func, s: nat, d: nat)
    requires f.Real(s) && f.Tail(s).Falls() && Follow(f.order, s) == Some(d)
    ensures Direct(f, Edge(s, d, Fallthrough, NO_OPERAND))
  {
  }

  lemma TakenIsDirect(f: Func, s: nat, k: nat)
    requires f.Well() && f.Labels(s, k)
    ensures Direct(f, Edge(s, f.home[f.Tail(s).Operands()[k].value], f.Tail(s).Kind(), k))
  {
  }

  lemma JumpEdit(f: Func, s: nat, edges: seq<Edge>, i: nat)
    requires JumpMovedOk(f, s) && Matches(f, edges)
    requires i < |edges| && edges[i] == Edge(s, f.home[f.Tail(s).label_], Branch, 0)
    ensures Edited(f, JumpMoved(f, s), edges[i := Edge(s, |f.code|, Fallthrough, NO_OPERAND)] + [Edge(|f.code|, edges[i].destination, Branch, 0)])
  {
    hide Direct, Next, Matches, InsertAfter, Follow;
    var g := JumpMoved(f, s);
    var d := f.home[f.Tail(s).label_];
    var first, second := Edge(s, |f.code|, Fallthrough, NO_OPERAND), Edge(|f.code|, d, Branch, 0);
    JumpMovedWell(f, s);
    assert f.Labels(s, 0);
    TakenIsDirect(f, s, 0);
    DirectIsReal(f, edges[i]);
    forall e ensures Direct(g, e) <==> e == first || e == second || (Direct(f, e) && e != edges[i]) {
      JumpMovedDirect(f, s, e);
    }
    SplitsMatch(f, g, edges, i, first, second);
    forall m: Machine, b: nat, st: int | f.Real(b) ensures HopsAt(m, f, g, b, st) {
      JumpMovedNext(m, f, s, b, st);
    }
    forall m: Machine, n: nat, st: int | |f.code| <= n < |g.code| ensures ReturnsAt(m, f, g, n, st) {
      JumpMovedNext(m, f, s, s, st);
    }
    HopsKeepRuns(f, g);
  }

  lemma AppendEdit(f: Func, o: nat, l: nat, edges: seq<Edge>, i: nat)
    requires JumpAppendedOk(f, o, l) && Matches(f, edges)
    requires i < |edges| && edges[i] == Edge(o, f.home[l], Fallthrough, NO_OPERAND)
    ensures Edited(f, JumpAppended(f, o, l), edges[i := Edge(o, f.home[l], Branch, 0)])
  {
    hide Direct, Next, Matches, Follow;
    var g := JumpAppended(f, o, l);
    var first := Edge(o, f.home[l], Branch, 0);
    JumpAppendedWell(f, o, l);
    FallingIsDirect(f, o, f.home[l]);
    DirectIsReal(f, edges[i]);
    forall e ensures Direct(g, e) <==> e == first || (Direct(f, e) && e != edges[i]) {
      JumpAppendedDirect(f, o, l, e);
    }
    assert !Direct(f, first) by { FallTakesNothing(f, first); }
    TurnsMatch(f, g, edges, i, first);
    forall m: Machine, b: nat, st: int | f.Real(b) ensures HopsAt(m, f, g, b, st) {
      JumpAppendedNext(m, f, o, l, b, st);
    }
    HopsKeepRuns(f, g);
  }

  lemma FallTakesNothing(f: Func, e: Edge)
    requires f.Real(e.source) && f.Tail(e.source).Fall? && e.kind.Branch?
    ensures !Direct(f, e)
  {
  }

  lemma LabelEdit(f: Func, s: nat, k: nat, d: nat, edges: seq<Edge>, i: nat)
    requires OnlyWay(f, s, k, d) && Matches(f, edges)
    requires i < |edges| && edges[i] == Edge(s, d, f.Tail(s).Kind(), k)
    ensures Edited(f, LabelMoved(f, d, f.Tail(s).Operands()[k].value),
                   edges[i := edges[i].(destination := |f.code|)] + [Edge(|f.code|, d, Fallthrough, NO_OPERAND)])
  {
    hide Direct, Next, Matches, InsertBefore, Follow;
    var l := f.Tail(s).Operands()[k].value;
    var g := LabelMoved(f, d, l);
    var first, second := edges[i].(destination := |f.code|), Edge(|f.code|, d, Fallthrough, NO_OPERAND);
    TakenIsDirect(f, s, k);
    DirectIsReal(f, edges[i]);
    LabelMovedWell(f, d, l);
    forall e ensures Direct(g, e) <==> e == first || e == second || (Direct(f, e) && e != edges[i]) {
      LabelMovedDirect(f, s, k, d, e);
    }
    SplitsMatch(f, g, edges, i, first, second);
    forall m: Machine, b: nat, st: int | f.Real(b) ensures HopsAt(m, f, g, b, st) {
      LabelMovedNext(m, f, s, k, d, b, st);
    }
    forall m: Machine, n: nat, st: int | |f.code| <= n < |g.code| ensures ReturnsAt(m, f, g, n, st) {
      LabelMovedNext(m, f, s, k, d, s, st);
    }
    HopsKeepRuns(f, g);
  }

  lemma TargetEdit(f: Func, s: nat, k: nat, d: nat, edges: seq<Edge>, i: nat)
    requires RetargetedOk(f, s, k, d) && Matches(f, edges)
    requires i < |edges| && edges[i] == Edge(s, d, f.Tail(s).Kind(), k)
    ensures Edited(f, Retargeted(f, s, k, d),
                   edges[i := edges[i].(destination := |f.code|)] + [Edge(|f.code|, d, Fallthrough, NO_OPERAND)])
  {
    hide Direct, Next, Matches, InsertBefore, Follow, NoneFalls;
    var g := Retargeted(f, s, k, d);
    var first, second := edges[i].(destination := |f.code|), Edge(|f.code|, d, Fallthrough, NO_OPERAND);
    TakenIsDirect(f, s, k);
    RetargetedWell(f, s, k, d);
    forall e ensures Direct(g, e) <==> e == first || e == second || (Direct(f, e) && e != edges[i]) {
      RetargetedDirect(f, s, k, d, e);
    }
    SplitsMatch(f, g, edges, i, first, second);
    forall m: Machine, b: nat, st: int | f.Real(b) ensures HopsAt(m, f, g, b, st) {
      RetargetedNext(m, f, s, k, d, b, st);
    }
    forall m: Machine, n: nat, st: int | |f.code| <= n < |g.code| ensures ReturnsAt(m, f, g, n, st) {
      RetargetedNext(m, f, s, k, d, s, st);
    }
    HopsKeepRuns(f, g);
  }
}
