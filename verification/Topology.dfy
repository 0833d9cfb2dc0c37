/** Machine functions as the edge editor sees them: laid-out blocks whose last
    instruction decides where to go, labels, the canonical control-flow graph, and runs. */
module Topology {
  import opened Optional


  /** Instructions before the last one; an anchor encodes to nothing. */
  datatype Op = Op(code: nat) | Anchor

  /** How a block ends. Labels are numbers; an operand that is no label is `None`. */
  datatype Tail =
    | Fall
    | Jump(label_: nat)
    | Leave(code: nat)
    | Conditional(code: nat, operands: seq<Option<nat>>)
    | Switch(code: nat, operands: seq<Option<nat>>)
  {
    /** The last instruction is a branch, return or switch. */
    predicate Branches() { !Fall? }

    predicate Falls() { Fall? || Conditional? }

    function Operands(): seq<Option<nat>>
    {
      match this
      case Fall => []
      case Jump(l) => [Some(l)]
      case Leave(_) => []
      case Conditional(_, ops) => ops
      case Switch(_, ops) => ops
    }

    function Kind(): EdgeKind { if Switch? then SwitchCase else Branch }

    function WithOperand(k: nat, l: nat): (t: Tail)
      requires k < |Operands()|
      ensures t.Operands() == Operands()[k := Some(l)] && t.Kind() == Kind() && t.Falls() == Falls()
    {
      match this
      case Jump(_) => Jump(l)
      case Conditional(c, ops) => Conditional(c, ops[k := Some(l)])
      case Switch(c, ops) => Switch(c, ops[k := Some(l)])
    }
  }

  datatype Block = Block(body: seq<Op>, tail: Tail)

  datatype EdgeKind = Fallthrough | Branch | SwitchCase | Entry | Exit

  /** Blocks are named by identity; identities 0 and 1 are the boundary nodes, whose code
      means nothing. `home[l]` is the block that label `l` stands before. */
  datatype Func = Func(order: seq<nat>, code: seq<Block>, home: seq<nat>)
  {
    predicate Real(b: nat) { 2 <= b < |code| }

    function Tail(b: nat): Tail
      requires b < |code|
    {
      code[b].tail
    }

    /** Where the function starts. */
    function First(): nat { if order == [] then 0 else order[0] }

    ghost predicate Well()
    {
      && |code| >= 2
      && Distinct(order)
      && (forall b: nat :: b in order <==> Real(b))
      && (forall l: nat :: l < |home| ==> Real(home[l]))
      && (forall b: nat, k: nat :: Labels(b, k) ==> code[b].tail.Operands()[k].value < |home|)
    }

    /** Operand `k` of block `b`'s last instruction is a label. */
    predicate Labels(b: nat, k: nat)
    {
      Real(b) && k < |code[b].tail.Operands()| && code[b].tail.Operands()[k].Some?
    }
  }

  ghost predicate Distinct<T(!new)>(s: seq<T>)
  {
    forall i: nat, j: nat :: i < j < |s| ==> s[i] != s[j]
  }

  // ----- layout -----

  /** The block laid out after `b`. */
  function Follow(order: seq<nat>, b: nat): Option<nat>
    decreases |order|
  {
    if order == [] then None
    else if order[0] == b then (if |order| > 1 then Some(order[1]) else None)
    else Follow(order[1..], b)
  }

  function InsertAfter(order: seq<nat>, b: nat, n: nat): seq<nat>
    decreases |order|
  {
    if order == [] then []
    else if order[0] == b then [b, n] + order[1..]
    else [order[0]] + InsertAfter(order[1..], b, n)
  }

  function InsertBefore(order: seq<nat>, d: nat, n: nat): seq<nat>
    decreases |order|
  {
    if order == [] then []
    else if order[0] == d then [n] + order
    else [order[0]] + InsertBefore(order[1..], d, n)
  }

  lemma DistinctTail<T(!new)>(s: seq<T>)
    requires Distinct(s) && s != []
    ensures Distinct(s[1..]) && s[0] !in s[1..]
  {
    forall i: nat, j: nat | i < j < |s[1..]| ensures s[1..][i] != s[1..][j] {
      assert s[i + 1] != s[j + 1];
    }
  }

  lemma DistinctCons(x: nat, s: seq<nat>)
    requires Distinct(s) && x !in s
    ensures Distinct([x] + s)
  {
    var t := [x] + s;
    forall i: nat, j: nat | i < j < |t| ensures t[i] != t[j] {
      assert t[j] == s[j - 1];
      assert i > 0 ==> t[i] == s[i - 1];
    }
  }

  lemma {:induction false} FollowIn(order: seq<nat>, x: nat)
    ensures Follow(order, x).Some? ==> x in order && Follow(order, x).value in order
    decreases |order|
  {
    if order != [] && order[0] != x {
      FollowIn(order[1..], x);
    }
  }

  lemma {:induction false} FollowInjective(order: seq<nat>, x: nat, y: nat)
    requires Distinct(order) && Follow(order, x).Some? && Follow(order, x) == Follow(order, y)
    ensures x == y
    decreases |order|
  {
    DistinctTail(order);
    if order[0] != x && order[0] != y {
      FollowInjective(order[1..], x, y);
    } else {
      NoneBeforeFirst(order[1..], x);
      NoneBeforeFirst(order[1..], y);
    }
  }

  lemma {:induction false} NoneBeforeFirst(order: seq<nat>, x: nat)
    requires Distinct(order)
    ensures order != [] ==> Follow(order, x) != Some(order[0])
    decreases |order|
  {
    if order != [] {
      DistinctTail(order);
      if order[0] != x {
        FollowIn(order[1..], x);
      }
    }
  }

  lemma {:induction false} AfterMembers(order: seq<nat>, b: nat, n: nat)
    requires Distinct(order) && b in order && n !in order
    ensures var o := InsertAfter(order, b, n);
            Distinct(o) && o[0] == order[0] && forall y: nat :: y in o <==> y in order || y == n
    decreases |order|
  {
    hide Distinct;
    DistinctTail(order);
    var rest := order[1..];
    assert order == [order[0]] + rest;
    if order[0] == b {
      DistinctCons(n, rest);
      DistinctCons(b, [n] + rest);
      assert [b, n] + rest == [b] + ([n] + rest);
    } else {
      AfterMembers(rest, b, n);
      DistinctCons(order[0], InsertAfter(rest, b, n));
    }
  }

  /** Only the new block and its predecessor see the insertion. */
  lemma {:induction false} InsertedAfter(order: seq<nat>, b: nat, n: nat, x: nat)
    requires Distinct(order) && b in order && n !in order
    ensures Follow(InsertAfter(order, b, n), x) ==
            if x == b then Some(n) else if x == n then Follow(order, b) else Follow(order, x)
    decreases |order|
  {
    hide Distinct;
    DistinctTail(order);
    var rest := order[1..];
    if order[0] == b {
      assert ([b, n] + rest)[1..] == [n] + rest;
      assert ([n] + rest)[1..] == rest;
    } else {
      InsertedAfter(rest, b, n, x);
      AfterMembers(rest, b, n);
      var o := InsertAfter(rest, b, n);
      assert ([order[0]] + o)[1..] == o;
    }
  }

  lemma {:induction false} BeforeMembers(order: seq<nat>, d: nat, n: nat)
    requires Distinct(order) && d in order && n !in order
    ensures var o := InsertBefore(order, d, n);
            && Distinct(o) && o[0] == (if order[0] == d then n else order[0])
            && forall y: nat :: y in o <==> y in order || y == n
    decreases |order|
  {
    hide Distinct;
    DistinctTail(order);
    var rest := order[1..];
    assert order == [order[0]] + rest;
    if order[0] == d {
      DistinctCons(n, order);
    } else {
      BeforeMembers(rest, d, n);
      DistinctCons(order[0], InsertBefore(rest, d, n));
    }
  }

  lemma {:induction false} InsertedBefore(order: seq<nat>, d: nat, n: nat, x: nat)
    requires Distinct(order) && d in order && n !in order
    ensures Follow(InsertBefore(order, d, n), x) ==
            if x == n then Some(d) else if Follow(order, x) == Some(d) then Some(n) else Follow(order, x)
    decreases |order|
  {
    hide Distinct;
    DistinctTail(order);
    var rest := order[1..];
    if order[0] == d {
      assert ([n] + order)[1..] == order;
      NoneBeforeFirst(order, x);
    } else {
      InsertedBefore(rest, d, n, x);
      BeforeMembers(rest, d, n);
      var o := InsertBefore(rest, d, n);
      assert ([order[0]] + o)[1..] == o;
      FollowIn(rest, x);
    }
  }

  // ----- the canonical graph -----

  const NO_OPERAND := -1

  datatype Edge = Edge(source: nat, destination: nat, kind: EdgeKind, operand: int)

  predicate Falling(f: Func, e: Edge)
  {
    && f.Real(e.source)
    && e.kind.Fallthrough? && e.operand == NO_OPERAND
    && f.Tail(e.source).Falls()
    && Follow(f.order, e.source) == Some(e.destination)
  }

  predicate Taken(f: Func, e: Edge)
  {
    && e.operand >= 0 && f.Labels(e.source, e.operand)
    && e.kind == f.Tail(e.source).Kind()
    && f.Tail(e.source).Operands()[e.operand].value < |f.home|
    && e.destination == f.home[f.Tail(e.source).Operands()[e.operand].value]
  }

  /** Control can pass from one real block to another. */
  predicate Direct(f: Func, e: Edge)
  {
    Falling(f, e) || Taken(f, e)
  }

  ghost predicate HasIn(f: Func, b: nat)
  {
    exists e :: Direct(f, e) && e.destination == b
  }

  ghost predicate HasOut(f: Func, b: nat)
  {
    exists e :: Direct(f, e) && e.source == b
  }

  ghost predicate Boundary(f: Func, e: Edge)
  {
    || e == Edge(0, 1, Exit, NO_OPERAND)
    || (f.Real(e.destination) && !HasIn(f, e.destination) && e == Edge(0, e.destination, Entry, NO_OPERAND))
    || (f.Real(e.source) && !HasOut(f, e.source) && e == Edge(e.source, 1, Exit, NO_OPERAND))
  }

  /** The edges of a freshly built graph. */
  ghost predicate InGraph(f: Func, e: Edge)
  {
    Direct(f, e) || Boundary(f, e)
  }

  ghost predicate Matches(f: Func, edges: seq<Edge>)
  {
    Distinct(edges) && forall e :: e in edges <==> InGraph(f, e)
  }

  // ----- runs -----

  /** Opcodes are uninterpreted: their effect on the state, and the operand a branch takes. */
  datatype Machine = Machine(exec: (nat, int) -> int, pick: (nat, int) -> nat)

  function Effect(m: Machine, body: seq<Op>, st: int): int
    decreases |body|
  {
    if body == [] then st
    else Effect(m, body[1..], if body[0].Op? then m.exec(body[0].code, st) else st)
  }

  /** The operand that decides where the block goes, if any does. */
  function Choice(m: Machine, t: Tail, st: int): (k: Option<nat>)
    ensures k.Some? ==> k.value < |t.Operands()| && t.Operands()[k.value].Some?
  {
    match t
    case Fall => None
    case Jump(_) => Some(0)
    case Leave(_) => None
    case Conditional(c, ops) => var k := m.pick(c, st); if k < |ops| && ops[k].Some? then Some(k) else None
    case Switch(c, ops) => var k := m.pick(c, st); if k < |ops| && ops[k].Some? then Some(k) else None
  }

  /** Where a block goes after its last instruction; `None` leaves the function. */
  function Next(m: Machine, f: Func, b: nat, st: int): Option<nat>
    requires b < |f.code|
  {
    var k := Choice(m, f.Tail(b), st);
    if k.Some? then
      var l := f.Tail(b).Operands()[k.value].value;
      if l < |f.home| then Some(f.home[l]) else None
    else if f.Tail(b).Falls() then Follow(f.order, b)
    else None
  }

  /** The blocks visited, each with the state on entry. */
  function Trace(m: Machine, f: Func, at: Option<nat>, st: int, steps: nat): seq<(nat, int)>
    decreases steps
  {
    if steps == 0 || at.None? || at.value >= |f.code| then []
    else
      var after := Effect(m, f.code[at.value].body, st);
      [(at.value, st)] + Trace(m, f, Next(m, f, at.value, after), after, steps - 1)
  }

  function Erase(trace: seq<(nat, int)>, added: set<nat>): seq<(nat, int)>
    decreases |trace|
  {
    if trace == [] then []
    else (if trace[0].0 in added then [] else [trace[0]]) + Erase(trace[1..], added)
  }

  ghost predicate Old(f: Func, at: Option<nat>)
  {
    at.Some? ==> f.Real(at.value)
  }

  ghost predicate ShowsIn(m: Machine, f: Func, g: Func, added: set<nat>, at: Option<nat>, st: int, steps: nat)
  {
    exists k: nat :: Erase(Trace(m, g, at, st, k), added) == Trace(m, f, at, st, steps)
  }

  ghost predicate ComesFrom(m: Machine, f: Func, g: Func, added: set<nat>, at: Option<nat>, st: int, steps: nat)
  {
    exists k: nat :: Erase(Trace(m, g, at, st, steps), added) == Trace(m, f, at, st, k)
  }

  /** From any block of `f`, the runs of `g` with the blocks `added` erased are the runs of `f`. */
  ghost predicate SameRuns(f: Func, g: Func, added: set<nat>)
  {
    && (forall m, at, st, steps: nat :: Old(f, at) ==> ShowsIn(m, f, g, added, at, st, steps))
    && (forall m, at, st, steps: nat :: Old(f, at) ==> ComesFrom(m, f, g, added, at, st, steps))
  }

  // ----- one hop over an added block -----

  /** Added blocks do nothing and go to an old block; every old block goes where it went,
      or to an added block that goes there. */
  ghost predicate HopsAt(m: Machine, f: Func, g: Func, b: nat, st: int)
    requires b < |f.code| <= |g.code|
  {
    var t := Next(m, g, b, st);
    Next(m, f, b, st) == if t.Some? && |f.code| <= t.value < |g.code| then Next(m, g, t.value, st) else t
  }

  ghost predicate ReturnsAt(m: Machine, f: Func, g: Func, n: nat, st: int)
    requires n < |g.code|
  {
    Next(m, g, n, st).Some? && f.Real(Next(m, g, n, st).value)
  }

  ghost predicate Added(f: Func, g: Func): (r: bool)
  {
    && |f.code| <= |g.code|
    && (forall b: nat :: f.Real(b) ==> g.code[b].body == f.code[b].body)
    && (forall n: nat :: |f.code| <= n < |g.code| ==> forall k: nat :: k < |g.code[n].body| ==> g.code[n].body[k].Anchor?)
  }

  ghost predicate Hops(f: Func, g: Func)
  {
    && Added(f, g)
    && (forall m: Machine, b: nat, st: int :: f.Real(b) ==> HopsAt(m, f, g, b, st))
    && (forall m, n: nat, st :: |f.code| <= n < |g.code| ==> ReturnsAt(m, f, g, n, st))
  }

  function Names(low: nat, high: nat): (r: set<nat>)
    ensures forall n: nat :: n in r <==> low <= n < high
    decreases high - low
  {
    if low >= high then {} else {low} + Names(low + 1, high)
  }

  lemma {:induction false} AnchorsDoNothing(m: Machine, body: seq<Op>, st: int)
    requires forall k: nat :: k < |body| ==> body[k].Anchor?
    ensures Effect(m, body, st) == st
    decreases |body|
  {
    if body != [] {
      AnchorsDoNothing(m, body[1..], st);
    }
  }

  lemma NextOld(m: Machine, f: Func, b: nat, st: int)
    requires f.Well() && f.Real(b)
    ensures Old(f, Next(m, f, b, st))
  {
    FollowIn(f.order, b);
    var k := Choice(m, f.Tail(b), st);
    assert k.Some? ==> f.Labels(b, k.value);
  }

  /** One step to an old block. */
  lemma StraightStep(m: Machine, g: Func, b: nat, st: int, k: nat, added: set<nat>)
    requires b < |g.code| && b !in added
    ensures var after := Effect(m, g.code[b].body, st);
            Erase(Trace(m, g, Some(b), st, 1 + k), added) == [(b, st)] + Erase(Trace(m, g, Next(m, g, b, after), after, k), added)
  {
    hide Next, Effect;
    var after := Effect(m, g.code[b].body, st);
    assert Trace(m, g, Some(b), st, 1 + k)[1..] == Trace(m, g, Next(m, g, b, after), after, k);
  }

  /** One step over an added block, which is erased. */
  lemma ErasedStep(m: Machine, g: Func, n: nat, st: int, k: nat, added: set<nat>)
    requires n < |g.code| && n in added && Effect(m, g.code[n].body, st) == st
    ensures Erase(Trace(m, g, Some(n), st, 1 + k), added) == Erase(Trace(m, g, Next(m, g, n, st), st, k), added)
  {
    hide Next, Effect;
    var rest := Trace(m, g, Next(m, g, n, st), st, k);
    assert Trace(m, g, Some(n), st, 1 + k)[1..] == rest;
    assert [] + Erase(rest, added) == Erase(rest, added);
  }

  /** A step of `f` is one or two steps of `g`. */
  lemma StepHops(m: Machine, f: Func, g: Func, b: nat, st: int, k: nat) returns (hop: nat)
    requires f.Well() && Hops(f, g) && f.Real(b)
    ensures var after := Effect(m, f.code[b].body, st);
            var added := Names(|f.code|, |g.code|);
            && hop <= 1
            && Erase(Trace(m, g, Some(b), st, 1 + hop + k), added) == [(b, st)] + Erase(Trace(m, g, Next(m, f, b, after), after, k), added)
    ensures hop == 1 <==> (var after := Effect(m, f.code[b].body, st);
                           Next(m, g, b, after).Some? && |f.code| <= Next(m, g, b, after).value < |g.code|)
  {
    hide Trace, Erase, Next, Effect, Func.Well;
    var added := Names(|f.code|, |g.code|);
    var after := Effect(m, f.code[b].body, st);
    assert HopsAt(m, f, g, b, after);
    var t := Next(m, g, b, after);
    hop := if t.Some? && |f.code| <= t.value < |g.code| then 1 else 0;
    StraightStep(m, g, b, st, hop + k, added);
    if hop == 1 {
      AnchorsDoNothing(m, g.code[t.value].body, after);
      ErasedStep(m, g, t.value, after, k, added);
    }
  }

  lemma {:induction false} ForwardRuns(m: Machine, f: Func, g: Func, at: Option<nat>, st: int, steps: nat) returns (k: nat)
    requires f.Well() && Hops(f, g) && Old(f, at)
    ensures Erase(Trace(m, g, at, st, k), Names(|f.code|, |g.code|)) == Trace(m, f, at, st, steps)
    decreases steps
  {
    hide Hops, Next, Names, Func.Well;
    if steps == 0 || at.None? {
      k := 0;
    } else {
      var b := at.value;
      var after := Effect(m, f.code[b].body, st);
      NextOld(m, f, b, after);
      var j := ForwardRuns(m, f, g, Next(m, f, b, after), after, steps - 1);
      var hop := StepHops(m, f, g, b, st, j);
      k := 1 + hop + j;
    }
  }

  lemma {:induction false} BackwardRuns(m: Machine, f: Func, g: Func, at: Option<nat>, st: int, steps: nat) returns (k: nat)
    requires f.Well() && Hops(f, g) && Old(f, at)
    ensures Erase(Trace(m, g, at, st, steps), Names(|f.code|, |g.code|)) == Trace(m, f, at, st, k)
    decreases steps
  {
    hide Hops, Next, Func.Well, Effect, Erase, Names;
    if steps == 0 || at.None? {
      k := 0;
      EraseEmpty(Names(|f.code|, |g.code|));
    } else {
      var b := at.value;
      var after := Effect(m, f.code[b].body, st);
      NextOld(m, f, b, after);
      var hop := StepHops(m, f, g, b, st, if steps >= 2 then steps - 2 else 0);
      if steps < 1 + hop {
        LoneStep(m, f, g, b, st);
        k := 1;
        assert Trace(m, f, at, st, 1) == [(b, st)];
      } else {
        var again := StepHops(m, f, g, b, st, steps - 1 - hop);
        var j := BackwardRuns(m, f, g, Next(m, f, b, after), after, steps - 1 - hop);
        k := 1 + j;
      }
    }
  }

  lemma EraseEmpty(added: set<nat>)
    ensures Erase([], added) == []
  {
  }

  lemma LoneStep(m: Machine, f: Func, g: Func, b: nat, st: int)
    requires f.Real(b) && |f.code| <= |g.code|
    ensures Erase(Trace(m, g, Some(b), st, 1), Names(|f.code|, |g.code|)) == [(b, st)]
  {
    hide Next;
    var t := Trace(m, g, Some(b), st, 1);
    assert t == [(b, st)] && t[1..] == [];
  }

  /** Hops over added blocks change no run. */
  lemma HopsKeepRuns(f: Func, g: Func)
    requires f.Well() && Hops(f, g)
    ensures SameRuns(f, g, Names(|f.code|, |g.code|))
  {
    hide Hops, Trace, Func.Well, Erase, Names;
    var added := Names(|f.code|, |g.code|);
    forall m, at, st, steps: nat | Old(f, at)
      ensures ShowsIn(m, f, g, added, at, st, steps) && ComesFrom(m, f, g, added, at, st, steps)
    {
      var k := ForwardRuns(m, f, g, at, st, steps);
      var j := BackwardRuns(m, f, g, at, st, steps);
    }
  }

  lemma {:induction false} EraseTwice(t: seq<(nat, int)>, a: set<nat>, b: set<nat>)
    ensures Erase(Erase(t, b), a) == Erase(t, a + b)
    decreases |t|
  {
    if t != [] {
      EraseTwice(t[1..], a, b);
      if t[0].0 in b {
        assert Erase(t, b) == Erase(t[1..], b);
      } else {
        assert ([t[0]] + Erase(t[1..], b))[1..] == Erase(t[1..], b);
      }
    }
  }

  /** Edits compose. */
  lemma RunsCompose(f: Func, g: Func, h: Func, a: set<nat>, b: set<nat>)
    requires SameRuns(f, g, a) && SameRuns(g, h, b) && |f.code| <= |g.code|
    ensures SameRuns(f, h, a + b)
  {
    hide Trace, Erase;
    forall m, at, st, steps: nat | Old(f, at)
      ensures ShowsIn(m, f, h, a + b, at, st, steps) && ComesFrom(m, f, h, a + b, at, st, steps)
    {
      assert Old(g, at);
      assert ShowsIn(m, f, g, a, at, st, steps);
      var k: nat :| Erase(Trace(m, g, at, st, k), a) == Trace(m, f, at, st, steps);
      assert ShowsIn(m, g, h, b, at, st, k);
      var j: nat :| Erase(Trace(m, h, at, st, j), b) == Trace(m, g, at, st, k);
      EraseTwice(Trace(m, h, at, st, j), a, b);
      assert ComesFrom(m, g, h, b, at, st, steps);
      var p: nat :| Erase(Trace(m, h, at, st, steps), b) == Trace(m, g, at, st, p);
      assert ComesFrom(m, f, g, a, at, st, p);
      var q: nat :| Erase(Trace(m, g, at, st, p), a) == Trace(m, f, at, st, q);
      EraseTwice(Trace(m, h, at, st, steps), a, b);
    }
  }
}
