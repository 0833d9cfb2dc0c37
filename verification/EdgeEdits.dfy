/** The edits that splitting an edge is made of, each on a whole function: what they do to
    the control-flow graph and to runs. The new block is always `|f.code|`. */
module EdgeEdits {
  import opened Optional
  import opened Topology

  // ----- a block after the source of a falling edge -----

  /** `tail` goes where `s` fell to: by falling on, or by a jump. */
  function AfterFall(f: Func, s: nat, body: seq<Op>, tail: Tail): Func
  {
    f.(order := InsertAfter(f.order, s, |f.code|), code := f.code + [Block(body, tail)])
  }

  ghost predicate AfterFallOk(f: Func, s: nat, tail: Tail, d: nat)
  {
    && f.Well() && f.Real(s) && f.Tail(s).Falls() && Follow(f.order, s) == Some(d)
    && (tail.Fall? || (tail.Jump? && tail.label_ < |f.home| && f.home[tail.label_] == d))
  }

  function Onward(n: nat, d: nat, tail: Tail): Edge
  {
    if tail.Fall? then Edge(n, d, Fallthrough, NO_OPERAND) else Edge(n, d, Branch, 0)
  }

  lemma AfterFallWell(f: Func, s: nat, body: seq<Op>, tail: Tail, d: nat)
    requires AfterFallOk(f, s, tail, d)
    ensures AfterFall(f, s, body, tail).Well()
  {
    hide Distinct;
    var g := AfterFall(f, s, body, tail);
    AfterMembers(f.order, s, |f.code|);
    forall b: nat, k: nat | g.Labels(b, k) ensures g.code[b].tail.Operands()[k].value < |g.home| {
      assert b < |f.code| ==> f.Labels(b, k);
    }
  }

  lemma AfterFallDirect(f: Func, s: nat, body: seq<Op>, tail: Tail, d: nat, e: Edge)
    requires AfterFallOk(f, s, tail, d)
    ensures Direct(AfterFall(f, s, body, tail), e) <==>
            || e == Edge(s, |f.code|, Fallthrough, NO_OPERAND)
            || e == Onward(|f.code|, d, tail)
            || (Direct(f, e) && e != Edge(s, d, Fallthrough, NO_OPERAND))
  {
    hide Distinct;
    assert |f.code| !in f.order && s in f.order;
    InsertedAfter(f.order, s, |f.code|, e.source);
  }

  lemma AfterFallNext(m: Machine, f: Func, s: nat, body: seq<Op>, tail: Tail, d: nat, b: nat, st: int)
    requires AfterFallOk(f, s, tail, d) && f.Real(b)
    ensures var g := AfterFall(f, s, body, tail);
            HopsAt(m, f, g, b, st) && Next(m, g, |f.code|, st) == Some(d)
  {
    hide Distinct;
    var n := |f.code|;
    assert n !in f.order && s in f.order;
    InsertedAfter(f.order, s, n, b);
    InsertedAfter(f.order, s, n, n);
    NextOld(m, f, b, st);
  }

  // ----- the jump of a block in a block of its own -----

  function JumpMoved(f: Func, s: nat): Func
    requires s < |f.code|
  {
    f.(order := InsertAfter(f.order, s, |f.code|), code := f.code[s := f.code[s].(tail := Fall)] + [Block([], f.code[s].tail)])
  }

  ghost predicate JumpMovedOk(f: Func, s: nat)
  {
    && f.Well() && f.Real(s) && f.Tail(s).Jump? && f.Tail(s).label_ < |f.home|
  }

  lemma JumpMovedWell(f: Func, s: nat)
    requires JumpMovedOk(f, s)
    ensures JumpMoved(f, s).Well()
  {
    hide Distinct;
    var g := JumpMoved(f, s);
    AfterMembers(f.order, s, |f.code|);
    forall b: nat, k: nat | g.Labels(b, k) ensures g.code[b].tail.Operands()[k].value < |g.home| {
      assert b < |f.code| ==> f.Labels(b, k);
    }
  }

  lemma JumpMovedDirect(f: Func, s: nat, e: Edge)
    requires JumpMovedOk(f, s)
    ensures var d := f.home[f.Tail(s).label_];
            Direct(JumpMoved(f, s), e) <==>
            || e == Edge(s, |f.code|, Fallthrough, NO_OPERAND)
            || e == Edge(|f.code|, d, Branch, 0)
            || (Direct(f, e) && e != Edge(s, d, Branch, 0))
  {
    hide Distinct;
    assert |f.code| !in f.order && s in f.order;
    InsertedAfter(f.order, s, |f.code|, e.source);
  }

  lemma JumpMovedNext(m: Machine, f: Func, s: nat, b: nat, st: int)
    requires JumpMovedOk(f, s) && f.Real(b)
    ensures var g := JumpMoved(f, s);
            HopsAt(m, f, g, b, st) && Next(m, g, |f.code|, st) == Some(f.home[f.Tail(s).label_])
  {
    hide Distinct;
    assert |f.code| !in f.order && s in f.order;
    InsertedAfter(f.order, s, |f.code|, b);
    NextOld(m, f, b, st);
  }

  // ----- a jump in place of falling -----

  function JumpAppended(f: Func, o: nat, l: nat): Func
    requires o < |f.code|
  {
    f.(code := f.code[o := f.code[o].(tail := Jump(l))])
  }

  ghost predicate JumpAppendedOk(f: Func, o: nat, l: nat)
  {
    && f.Well() && f.Real(o) && f.Tail(o).Fall? && l < |f.home| && Follow(f.order, o) == Some(f.home[l])
  }

  lemma JumpAppendedDirect(f: Func, o: nat, l: nat, e: Edge)
    requires JumpAppendedOk(f, o, l)
    ensures Direct(JumpAppended(f, o, l), e) <==>
            || e == Edge(o, f.home[l], Branch, 0)
            || (Direct(f, e) && e != Edge(o, f.home[l], Fallthrough, NO_OPERAND))
  {
  }

  lemma JumpAppendedWell(f: Func, o: nat, l: nat)
    requires JumpAppendedOk(f, o, l)
    ensures JumpAppended(f, o, l).Well()
  {
    hide Distinct;
    var g := JumpAppended(f, o, l);
    forall b: nat, k: nat | g.Labels(b, k) ensures g.code[b].tail.Operands()[k].value < |g.home| {
      assert b != o ==> f.Labels(b, k);
    }
  }

  lemma JumpAppendedNext(m: Machine, f: Func, o: nat, l: nat, b: nat, st: int)
    requires JumpAppendedOk(f, o, l) && f.Real(b)
    ensures HopsAt(m, f, JumpAppended(f, o, l), b, st)
  {
    NextOld(m, f, b, st);
  }

  // ----- a block before the destination -----

  ghost predicate NoneFalls(f: Func, d: nat)
  {
    forall b: nat :: f.Real(b) && Follow(f.order, b) == Some(d) ==> !f.Tail(b).Falls()
  }

  /** The label moves up to a new block that falls into its old home. */
  function LabelMoved(f: Func, d: nat, l: nat): Func
    requires l < |f.home|
  {
    f.(order := InsertBefore(f.order, d, |f.code|), code := f.code + [Block([], Fall)], home := f.home[l := |f.code|])
  }

  /** Operand `k` of `s` is the only way into `d`. */
  ghost predicate OnlyWay(f: Func, s: nat, k: nat, d: nat)
  {
    && f.Well() && f.Labels(s, k)
    && f.home[f.Tail(s).Operands()[k].value] == d
    && forall e :: Direct(f, e) && e.destination == d ==> e == Edge(s, d, f.Tail(s).Kind(), k)
  }

  lemma OnlyWayNoneFalls(f: Func, s: nat, k: nat, d: nat)
    requires OnlyWay(f, s, k, d)
    ensures NoneFalls(f, d)
  {
    var way := Edge(s, d, f.Tail(s).Kind(), k);
    forall b: nat | f.Real(b) && Follow(f.order, b) == Some(d) ensures !f.Tail(b).Falls() {
      assert Direct(f, Edge(b, d, Fallthrough, NO_OPERAND)) ==> Edge(b, d, Fallthrough, NO_OPERAND) == way;
    }
  }

  lemma LabelMovedWell(f: Func, d: nat, l: nat)
    requires f.Well() && f.Real(d) && l < |f.home|
    ensures LabelMoved(f, d, l).Well()
  {
    hide Distinct;
    var g := LabelMoved(f, d, l);
    BeforeMembers(f.order, d, |f.code|);
    forall b: nat, k: nat | g.Labels(b, k) ensures g.code[b].tail.Operands()[k].value < |g.home| {
      assert b < |f.code| ==> f.Labels(b, k);
    }
  }

  lemma LabelMovedDirect(f: Func, s: nat, k: nat, d: nat, e: Edge)
    requires OnlyWay(f, s, k, d) && f.Real(d)
    ensures var l := f.Tail(s).Operands()[k].value;
            Direct(LabelMoved(f, d, l), e) <==>
            || e == Edge(s, |f.code|, f.Tail(s).Kind(), k)
            || e == Edge(|f.code|, d, Fallthrough, NO_OPERAND)
            || (Direct(f, e) && e != Edge(s, d, f.Tail(s).Kind(), k))
  {
    hide Distinct;
    OnlyWayNoneFalls(f, s, k, d);
    assert |f.code| !in f.order && d in f.order;
    InsertedBefore(f.order, d, |f.code|, e.source);
    FollowIn(f.order, e.source);
    assert Taken(f, Edge(e.source, d, e.kind, e.operand)) ==> Edge(e.source, d, e.kind, e.operand) == Edge(s, d, f.Tail(s).Kind(), k);
  }

  lemma LabelMovedNext(m: Machine, f: Func, s: nat, k: nat, d: nat, b: nat, st: int)
    requires OnlyWay(f, s, k, d) && f.Real(d) && f.Real(b)
    ensures var g := LabelMoved(f, d, f.Tail(s).Operands()[k].value);
            HopsAt(m, f, g, b, st) && Next(m, g, |f.code|, st) == Some(d)
  {
    hide Distinct;
    OnlyWayNoneFalls(f, s, k, d);
    assert |f.code| !in f.order && d in f.order;
    InsertedBefore(f.order, d, |f.code|, b);
    InsertedBefore(f.order, d, |f.code|, |f.code|);
    NextOld(m, f, b, st);
    var c := Choice(m, f.Tail(b), st);
    assert c.Some? ==> f.Labels(b, c.value);
  }

  // ----- a fresh label before a shared destination -----

  function Retargeted(f: Func, s: nat, k: nat, d: nat): Func
    requires s < |f.code| && k < |f.Tail(s).Operands()|
  {
    f.(order := InsertBefore(f.order, d, |f.code|),
       code := f.code[s := f.code[s].(tail := f.Tail(s).WithOperand(k, |f.home|))] + [Block([], Fall)],
       home := f.home + [|f.code|])
  }

  ghost predicate RetargetedOk(f: Func, s: nat, k: nat, d: nat)
  {
    && f.Well() && f.Labels(s, k) && f.Real(d)
    && f.home[f.Tail(s).Operands()[k].value] == d
    && NoneFalls(f, d)
  }

  lemma RetargetedWell(f: Func, s: nat, k: nat, d: nat)
    requires RetargetedOk(f, s, k, d)
    ensures Retargeted(f, s, k, d).Well()
  {
    hide Distinct;
    var g := Retargeted(f, s, k, d);
    BeforeMembers(f.order, d, |f.code|);
    forall b: nat, j: nat | g.Labels(b, j) ensures g.code[b].tail.Operands()[j].value < |g.home| {
      assert b < |f.code| && !(b == s && j == k) ==> f.Labels(b, j);
    }
  }

  lemma RetargetedDirect(f: Func, s: nat, k: nat, d: nat, e: Edge)
    requires RetargetedOk(f, s, k, d)
    ensures Direct(Retargeted(f, s, k, d), e) <==>
            || e == Edge(s, |f.code|, f.Tail(s).Kind(), k)
            || e == Edge(|f.code|, d, Fallthrough, NO_OPERAND)
            || (Direct(f, e) && e != Edge(s, d, f.Tail(s).Kind(), k))
  {
    hide Distinct;
    assert |f.code| !in f.order && d in f.order;
    InsertedBefore(f.order, d, |f.code|, e.source);
    FollowIn(f.order, e.source);
    assert e.operand >= 0 && f.Labels(e.source, e.operand) ==> f.Tail(e.source).Operands()[e.operand].value < |f.home|;
  }

  lemma FallChoosesNothing(m: Machine, st: int)
    ensures Choice(m, Fall, st) == None
  {
  }

  lemma FallsElsewhere(f: Func, b: nat, d: nat)
    requires NoneFalls(f, d) && f.Real(b)
    ensures f.Tail(b).Falls() ==> Follow(f.order, b) != Some(d)
  {
  }

  /** A branch picks its operand by number. */
  lemma SameChoice(m: Machine, t: Tail, k: nat, l: nat, st: int)
    requires k < |t.Operands()| && t.Operands()[k].Some?
    ensures Choice(m, t.WithOperand(k, l), st) == Choice(m, t, st)
  {
  }

  lemma RetargetedNext(m: Machine, f: Func, s: nat, k: nat, d: nat, b: nat, st: int)
    requires RetargetedOk(f, s, k, d) && f.Real(b)
    ensures var g := Retargeted(f, s, k, d);
            HopsAt(m, f, g, b, st) && Next(m, g, |f.code|, st) == Some(d)
  {
    hide Distinct, Choice, InsertBefore, Follow, NoneFalls, Tail.WithOperand;
    SameChoice(m, f.Tail(s), k, |f.home|, st);
    var g := Retargeted(f, s, k, d);
    assert b != s ==> g.Tail(b) == f.Tail(b);
    FallChoosesNothing(m, st);
    assert g.Tail(|f.code|) == Fall;
    FallsElsewhere(f, b, d);
    assert |f.code| !in f.order && d in f.order;
    InsertedBefore(f.order, d, |f.code|, b);
    InsertedBefore(f.order, d, |f.code|, |f.code|);
    NextOld(m, f, b, st);
    var c := Choice(m, f.Tail(b), st);
    assert c.Some? ==> f.Labels(b, c.value);
  }
}
