/** Begin and end times of a depth-first walk over a tree of parents. A block is an
    ancestor of another exactly when its interval encloses the other's. */
module Intervals {
  import opened Ancestry

  datatype Visit = Visit(block: nat, next: nat)

  // ----- children lists -----

  ghost predicate ListsChildren(parent: seq<int>, children: seq<seq<nat>>)
  {
    && |children| == |parent|
    && (forall p, k :: 0 <= p < |children| && 0 <= k < |children[p]| ==>
          0 < children[p][k] < |parent| && parent[children[p][k]] == p)
    && (forall p, j, k :: 0 <= p < |children| && 0 <= j < k < |children[p]| ==> children[p][j] < children[p][k])
    && (forall b: nat :: 0 < b < |parent| && 0 <= parent[b] < |children| ==> b in children[parent[b]])
  }

  method ChildrenOf(parent: seq<int>) returns (children: seq<seq<nat>>)
    requires forall b :: 0 <= b < |parent| ==> parent[b] == NONE || 0 <= parent[b] < |parent|
    ensures ListsChildren(parent, children)
  {
    children := seq(|parent|, _ => []);
    var b := 1;
    while b < |parent|
      invariant 1 <= b
      invariant |children| == |parent|
      invariant forall p, k :: 0 <= p < |children| && 0 <= k < |children[p]| ==>
                  0 < children[p][k] < b && children[p][k] < |parent| && parent[children[p][k]] == p
      invariant forall p, j, k :: 0 <= p < |children| && 0 <= j < k < |children[p]| ==> children[p][j] < children[p][k]
      invariant forall c: nat :: 0 < c < b && c < |parent| && 0 <= parent[c] ==> c in children[parent[c]]
    {
      if parent[b] != NONE {
        children := children[parent[b] := children[parent[b]] + [b]];
      }
      b := b + 1;
    }
  }

  // ----- the walk -----

  datatype Times = Times(begin: seq<nat>, end: seq<nat>)

  ghost predicate Open(stack: seq<Visit>, b: nat)
  {
    exists i :: 0 <= i < |stack| && stack[i].block == b
  }

  /** Enclosure, with 0 for "not yet": an open interval encloses what began later. */
  predicate Encloses(t: Times, a: nat, b: nat)
    requires a < |t.begin| == |t.end| && b < |t.begin|
  {
    t.begin[a] <= t.begin[b] && (t.end[a] == 0 || (t.end[b] != 0 && t.end[b] <= t.end[a]))
  }

  ghost predicate StackOk(parent: seq<int>, children: seq<seq<nat>>, stack: seq<Visit>, t: Times)
    requires ListsChildren(parent, children) && |t.begin| == |t.end| == |parent|
  {
    && (forall i :: 0 <= i < |stack| ==>
          && stack[i].block < |parent|
          && stack[i].next <= |children[stack[i].block]|
          && t.begin[stack[i].block] != 0
          && t.end[stack[i].block] == 0)
    && (forall i, j :: 0 <= i < j < |stack| ==> t.begin[stack[i].block] < t.begin[stack[j].block])
    && (forall i :: 0 < i < |stack| ==> stack[i].block != 0 && parent[stack[i].block] == stack[i - 1].block)
    && (stack != [] ==> stack[0].block == 0)
  }

  /** Children of an open block begin in list order; others have begun only if
      their parent has ended. */
  ghost predicate ChildrenOk(parent: seq<int>, children: seq<seq<nat>>, stack: seq<Visit>, t: Times)
    requires ListsChildren(parent, children) && |t.begin| == |t.end| == |parent|
  {
    && (forall i, k :: 0 <= i < |stack| && stack[i].block < |children| && 0 <= k < |children[stack[i].block]| ==>
          (t.begin[children[stack[i].block][k]] != 0 <==> k < stack[i].next))
    && (forall b: nat :: 0 < b < |parent| && t.begin[b] != 0 ==> 0 <= parent[b] < |parent| && t.begin[parent[b]] != 0)
    && (forall b: nat :: 0 < b < |parent| && parent[b] != NONE && 0 <= parent[b] < |parent| && t.end[parent[b]] != 0 ==>
          t.begin[b] != 0)
  }

  ghost predicate TimesOk(parent: seq<int>, stack: seq<Visit>, t: Times, time: nat)
    requires |t.begin| == |t.end| == |parent|
  {
    && (forall b: nat :: b < |parent| ==> t.begin[b] < time && t.end[b] < time)
    && (forall b: nat :: b < |parent| && t.begin[b] != 0 ==> Present(parent, b))
    && (forall b: nat :: b < |parent| && t.end[b] != 0 ==> t.begin[b] != 0)
    && (forall b: nat :: b < |parent| && t.begin[b] != 0 && t.end[b] == 0 ==> Open(stack, b))
    && (forall a: nat, b: nat :: a < b < |parent| && t.begin[a] != 0 ==> t.begin[a] != t.begin[b])
  }

  ghost predicate AncestryOk(rank: seq<nat>, parent: seq<int>, t: Times)
    requires |t.begin| == |t.end| == |parent| && IsTree(rank, parent)
  {
    forall a: nat, b: nat :: a < |parent| && b < |parent| && t.begin[a] != 0 && t.begin[b] != 0 && Present(parent, b) ==>
      (Anc(rank, parent, a, b) <==> Encloses(t, a, b))
  }

  ghost predicate Walking(rank: seq<nat>, parent: seq<int>, children: seq<seq<nat>>, stack: seq<Visit>, t: Times, time: nat)
  {
    && IsTree(rank, parent)
    && ListsChildren(parent, children)
    && |t.begin| == |t.end| == |parent|
    && StackOk(parent, children, stack, t)
    && ChildrenOk(parent, children, stack, t)
    && TimesOk(parent, stack, t, time)
    && AncestryOk(rank, parent, t)
    && t.begin[0] != 0
    && 0 < time
  }

  // ----- opening a child -----

  lemma OpenTop(rank: seq<nat>, parent: seq<int>, children: seq<seq<nat>>, stack: seq<Visit>, t: Times, time: nat)
    requires Walking(rank, parent, children, stack, t, time) && stack != []
    ensures stack[|stack| - 1].block < |parent| && stack[|stack| - 1].next <= |children[stack[|stack| - 1].block]|
    ensures var top := stack[|stack| - 1];
            top.next < |children[top.block]| ==>
              var c := children[top.block][top.next];
              0 < c < |parent| && parent[c] == top.block && t.begin[c] == 0 && t.end[c] == 0
  {
    hide AncestryOk;
    var top := stack[|stack| - 1];
    if top.next < |children[top.block]| {
      var c := children[top.block][top.next];
      assert t.begin[c] == 0;
    }
  }

  lemma OpenAncestry(rank: seq<nat>, parent: seq<int>, children: seq<seq<nat>>, stack: seq<Visit>, t: Times, time: nat,
                     c: nat, t': Times)
    requires Walking(rank, parent, children, stack, t, time) && stack != []
    requires 0 < c < |parent| && parent[c] == stack[|stack| - 1].block && t.begin[c] == 0 && t.end[c] == 0
    requires t' == t.(begin := t.begin[c := time])
    ensures AncestryOk(rank, parent, t')
  {
    hide ChildrenOk;
    var top := stack[|stack| - 1].block;
    forall a: nat, b: nat | a < |parent| && b < |parent| && t'.begin[a] != 0 && t'.begin[b] != 0 && Present(parent, b)
      ensures Anc(rank, parent, a, b) <==> Encloses(t', a, b)
    {
      if a == c && b != c {
        if Anc(rank, parent, c, b) {
          AncBegan(rank, parent, children, stack, t, time, c, b);
        }
      } else if b == c && a != c {
        if t.end[a] == 0 {
          OpenBefore(rank, parent, children, stack, t, time, a);
        }
        assert Anc(rank, parent, a, c) <==> Anc(rank, parent, a, top);
      }
    }
  }

  lemma OpenBefore(rank: seq<nat>, parent: seq<int>, children: seq<seq<nat>>, stack: seq<Visit>, t: Times, time: nat, a: nat)
    requires Walking(rank, parent, children, stack, t, time) && stack != []
    requires a < |parent| && t.begin[a] != 0 && t.end[a] == 0
    ensures t.begin[a] <= t.begin[stack[|stack| - 1].block]
    ensures t.begin[a] == t.begin[stack[|stack| - 1].block] ==> a == stack[|stack| - 1].block
  {
    hide ChildrenOk, AncestryOk, ListsChildren;
    assert Open(stack, a);
  }

  lemma {:induction false} AncBegan(rank: seq<nat>, parent: seq<int>, children: seq<seq<nat>>, stack: seq<Visit>, t: Times,
                                    time: nat, a: nat, b: nat)
    requires Walking(rank, parent, children, stack, t, time)
    requires b < |parent| && Present(parent, b) && t.begin[b] != 0 && Anc(rank, parent, a, b)
    ensures a < |parent| && t.begin[a] != 0
    decreases rank[b]
  {
    hide AncestryOk, StackOk, TimesOk;
    if a != b {
      AncBegan(rank, parent, children, stack, t, time, a, parent[b]);
    }
  }

  lemma OpenStack(parent: seq<int>, children: seq<seq<nat>>, stack: seq<Visit>, t: Times, time: nat, c: nat)
    requires ListsChildren(parent, children) && |t.begin| == |t.end| == |parent|
    requires StackOk(parent, children, stack, t) && TimesOk(parent, stack, t, time) && 0 < time
    requires stack != [] && stack[|stack| - 1].next < |children[stack[|stack| - 1].block]|
    requires 0 < c < |parent| && parent[c] == stack[|stack| - 1].block && t.begin[c] == 0 && t.end[c] == 0
    ensures var top := stack[|stack| - 1];
            StackOk(parent, children, stack[|stack| - 1 := Visit(top.block, top.next + 1)] + [Visit(c, 0)],
                    t.(begin := t.begin[c := time]))
  {
    hide ListsChildren, Open;
  }

  lemma OpenListed(parent: seq<int>, children: seq<seq<nat>>, stack: seq<Visit>, t: Times, time: nat, i: nat, k: nat)
    requires ListsChildren(parent, children) && |t.begin| == |t.end| == |parent| && 0 < time
    requires StackOk(parent, children, stack, t) && ChildrenOk(parent, children, stack, t)
    requires stack != [] && stack[|stack| - 1].next < |children[stack[|stack| - 1].block]|
    requires i < |stack| && k < |children[stack[i].block]|
    ensures var top := stack[|stack| - 1];
            var c := children[top.block][top.next];
            t.begin[c := time][children[stack[i].block][k]] != 0 <==>
              k < (if i == |stack| - 1 then top.next + 1 else stack[i].next)
  {
    var last := |stack| - 1;
    var top := stack[last];
    var c := children[top.block][top.next];
    var d := children[stack[i].block][k];
    assert t.begin[d] != 0 <==> k < stack[i].next;
    assert parent[d] == stack[i].block && parent[c] == top.block;
    assert i == last && k != top.next ==> d != c;
  }

  lemma OpenChildrenAt(parent: seq<int>, children: seq<seq<nat>>, stack: seq<Visit>, t: Times, time: nat, stack': seq<Visit>, c: nat,
                       i: nat, k: nat)
    requires ListsChildren(parent, children) && |t.begin| == |t.end| == |parent| && 0 < time
    requires StackOk(parent, children, stack, t) && ChildrenOk(parent, children, stack, t)
    requires stack != [] && stack[|stack| - 1].next < |children[stack[|stack| - 1].block]|
    requires c == children[stack[|stack| - 1].block][stack[|stack| - 1].next] && t.begin[c] == 0
    requires stack' == stack[|stack| - 1 := Visit(stack[|stack| - 1].block, stack[|stack| - 1].next + 1)] + [Visit(c, 0)]
    requires i < |stack'| && stack'[i].block < |children| && k < |children[stack'[i].block]|
    ensures t.begin[c := time][children[stack'[i].block][k]] != 0 <==> k < stack'[i].next
  {
    var last := |stack| - 1;
    TopIsBegun(parent, children, stack, t);
    if i <= last {
      hide ChildrenOk, StackOk, ListsChildren;
      OpenListed(parent, children, stack, t, time, i, k);
    } else {
      hide StackOk;
      UnbegunChild(parent, children, stack, t, c, k);
    }
  }

  lemma ChildrenInRange(parent: seq<int>, children: seq<seq<nat>>)
    requires ListsChildren(parent, children)
    ensures forall p, k :: 0 <= p < |children| && 0 <= k < |children[p]| ==> children[p][k] < |parent|
  {
  }

  lemma ChildUnbegun(parent: seq<int>, children: seq<seq<nat>>, stack: seq<Visit>, t: Times)
    requires ListsChildren(parent, children) && |t.begin| == |t.end| == |parent|
    requires StackOk(parent, children, stack, t) && ChildrenOk(parent, children, stack, t)
    requires stack != [] && stack[|stack| - 1].next < |children[stack[|stack| - 1].block]|
    ensures stack[|stack| - 1].block < |children| == |parent|
    ensures children[stack[|stack| - 1].block][stack[|stack| - 1].next] < |t.begin|
    ensures parent[children[stack[|stack| - 1].block][stack[|stack| - 1].next]] == stack[|stack| - 1].block
    ensures t.begin[children[stack[|stack| - 1].block][stack[|stack| - 1].next]] == 0
  {
  }

  lemma OpenChildren(parent: seq<int>, children: seq<seq<nat>>, stack: seq<Visit>, t: Times, time: nat)
    requires ListsChildren(parent, children) && |t.begin| == |t.end| == |parent| && 0 < time
    requires StackOk(parent, children, stack, t) && ChildrenOk(parent, children, stack, t)
    requires forall b :: 0 <= b < |parent| && t.end[b] != 0 ==> t.begin[b] != 0
    requires stack != [] && stack[|stack| - 1].next < |children[stack[|stack| - 1].block]|
    ensures var top := stack[|stack| - 1];
            var c := children[top.block][top.next];
            ChildrenOk(parent, children, stack[|stack| - 1 := Visit(top.block, top.next + 1)] + [Visit(c, 0)],
                       t.(begin := t.begin[c := time]))
  {
    hide StackOk, ListsChildren;
    var last := |stack| - 1;
    var top := stack[last];
    ChildUnbegun(parent, children, stack, t);
    ChildrenInRange(parent, children);
    var c := children[top.block][top.next];
    var stack' := stack[last := Visit(top.block, top.next + 1)] + [Visit(c, 0)];
    var begin' := t.begin[c := time];
    forall i, k | 0 <= i < |stack'| && stack'[i].block < |children| && 0 <= k < |children[stack'[i].block]|
      ensures begin'[children[stack'[i].block][k]] != 0 <==> k < stack'[i].next
    {
      OpenChildrenAt(parent, children, stack, t, time, stack', c, i, k);
    }
    OpenChildrenRest(parent, children, stack, t, time, c, top.block);
  }

  lemma OpenChildrenRest(parent: seq<int>, children: seq<seq<nat>>, stack: seq<Visit>, t: Times, time: nat, c: nat, p: nat)
    requires ListsChildren(parent, children) && |t.begin| == |t.end| == |parent| && 0 < time
    requires StackOk(parent, children, stack, t) && ChildrenOk(parent, children, stack, t)
    requires stack != [] && p == stack[|stack| - 1].block && c < |parent| && parent[c] == p
    ensures var begin' := t.begin[c := time];
            && (forall b: nat :: 0 < b < |parent| && begin'[b] != 0 ==> 0 <= parent[b] < |parent| && begin'[parent[b]] != 0)
            && (forall b: nat :: 0 < b < |parent| && parent[b] != NONE && 0 <= parent[b] < |parent| && t.end[parent[b]] != 0 ==>
                  begin'[b] != 0)
  {
    TopIsBegun(parent, children, stack, t);
    hide ListsChildren, StackOk;
  }

  lemma TopIsBegun(parent: seq<int>, children: seq<seq<nat>>, stack: seq<Visit>, t: Times)
    requires ListsChildren(parent, children) && |t.begin| == |t.end| == |parent|
    requires stack != [] && StackOk(parent, children, stack, t)
    ensures stack[|stack| - 1].block < |parent| && t.begin[stack[|stack| - 1].block] != 0
  {
  }

  lemma UnbegunChild(parent: seq<int>, children: seq<seq<nat>>, stack: seq<Visit>, t: Times, c: nat, k: nat)
    requires ListsChildren(parent, children) && |t.begin| == |t.end| == |parent|
    requires ChildrenOk(parent, children, stack, t) && 0 < c < |parent| && t.begin[c] == 0 && k < |children[c]|
    requires parent[c] != c
    ensures t.begin[children[c][k]] == 0 && children[c][k] != c
  {
    var d := children[c][k];
    assert parent[d] == c;
  }

  lemma OpenTimes(parent: seq<int>, stack: seq<Visit>, t: Times, time: nat, c: nat, stack': seq<Visit>)
    requires |t.begin| == |t.end| == |parent| && 0 < time && TimesOk(parent, stack, t, time)
    requires c < |parent| && t.begin[c] == 0 && t.end[c] == 0 && Present(parent, c)
    requires forall b :: Open(stack, b) || b == c ==> Open(stack', b)
    ensures TimesOk(parent, stack', t.(begin := t.begin[c := time]), time + 1)
  {
    hide Open;
  }

  lemma OpenKept(stack: seq<Visit>, stack': seq<Visit>)
    requires |stack| <= |stack'| && forall i :: 0 <= i < |stack| ==> stack'[i].block == stack[i].block
    ensures forall b :: Open(stack, b) ==> Open(stack', b)
  {
    forall b | Open(stack, b)
      ensures Open(stack', b)
    {
      var i :| 0 <= i < |stack| && stack[i].block == b;
      assert stack'[i].block == b;
    }
  }

  lemma OpenAt(stack: seq<Visit>, i: nat)
    requires i < |stack|
    ensures Open(stack, stack[i].block)
  {
  }

  lemma OpenKeepsWalking(rank: seq<nat>, parent: seq<int>, children: seq<seq<nat>>, stack: seq<Visit>, t: Times, time: nat)
    requires Walking(rank, parent, children, stack, t, time)
    requires stack != [] && stack[|stack| - 1].block < |children|
    requires stack[|stack| - 1].next < |children[stack[|stack| - 1].block]|
    requires children[stack[|stack| - 1].block][stack[|stack| - 1].next] < |t.begin|
    ensures var top := stack[|stack| - 1];
            var c := children[top.block][top.next];
            Walking(rank, parent, children, stack[|stack| - 1 := Visit(top.block, top.next + 1)] + [Visit(c, 0)],
                    t.(begin := t.begin[c := time]), time + 1)
  {
    hide StackOk, ChildrenOk, TimesOk, AncestryOk, ListsChildren, Open, Anc, IsTree;
    OpenTop(rank, parent, children, stack, t, time);
    OpenFacts(rank, parent, children, stack, t, time);
    var last := |stack| - 1;
    var top := stack[last];
    var c := children[top.block][top.next];
    var stack' := stack[last := Visit(top.block, top.next + 1)] + [Visit(c, 0)];
    OpenKept(stack, stack');
    OpenAt(stack', last + 1);
    OpenStack(parent, children, stack, t, time, c);
    OpenChildren(parent, children, stack, t, time);
    OpenTimes(parent, stack, t, time, c, stack');
    OpenAncestry(rank, parent, children, stack, t, time, c, t.(begin := t.begin[c := time]));
  }

  lemma OpenFacts(rank: seq<nat>, parent: seq<int>, children: seq<seq<nat>>, stack: seq<Visit>, t: Times, time: nat)
    requires Walking(rank, parent, children, stack, t, time)
    ensures forall b :: 0 <= b < |parent| && t.end[b] != 0 ==> t.begin[b] != 0
  {
    hide StackOk, ChildrenOk, AncestryOk, ListsChildren;
  }

  // ----- closing the top -----

  lemma CloseAncestry(rank: seq<nat>, parent: seq<int>, children: seq<seq<nat>>, stack: seq<Visit>, t: Times, time: nat)
    requires Walking(rank, parent, children, stack, t, time) && stack != []
    requires stack[|stack| - 1].block < |t.end|
    ensures AncestryOk(rank, parent, t.(end := t.end[stack[|stack| - 1].block := time]))
  {
    hide ChildrenOk, ListsChildren;
    var top := stack[|stack| - 1].block;
    var t' := t.(end := t.end[top := time]);
    forall a: nat, b: nat | a < |parent| && b < |parent| && t'.begin[a] != 0 && t'.begin[b] != 0 && Present(parent, b)
      ensures Anc(rank, parent, a, b) <==> Encloses(t', a, b)
    {
      assert Anc(rank, parent, a, b) <==> Encloses(t, a, b);
      if a == top && b != top && t.end[b] == 0 {
        OpenBefore(rank, parent, children, stack, t, time, b);
      }
    }
  }

  lemma CloseTimes(parent: seq<int>, stack: seq<Visit>, t: Times, time: nat)
    requires |t.begin| == |t.end| == |parent| && 0 < time && TimesOk(parent, stack, t, time) && stack != []
    requires stack[|stack| - 1].block < |parent| && t.begin[stack[|stack| - 1].block] != 0
    ensures TimesOk(parent, stack[..|stack| - 1], t.(end := t.end[stack[|stack| - 1].block := time]), time + 1)
  {
    var stack' := stack[..|stack| - 1];
    var t' := t.(end := t.end[stack[|stack| - 1].block := time]);
    forall b: nat | b < |parent| && t'.begin[b] != 0 && t'.end[b] == 0
      ensures Open(stack', b)
    {
      var i :| 0 <= i < |stack| && stack[i].block == b;
      assert stack'[i].block == b;
    }
  }

  lemma CloseStack(parent: seq<int>, children: seq<seq<nat>>, stack: seq<Visit>, t: Times, time: nat)
    requires ListsChildren(parent, children) && |t.begin| == |t.end| == |parent| && 0 < time
    requires stack != [] && StackOk(parent, children, stack, t)
    ensures StackOk(parent, children, stack[..|stack| - 1], t.(end := t.end[stack[|stack| - 1].block := time]))
  {
    hide ListsChildren;
  }

  lemma CloseChildren(parent: seq<int>, children: seq<seq<nat>>, stack: seq<Visit>, t: Times, time: nat)
    requires ListsChildren(parent, children) && |t.begin| == |t.end| == |parent| && 0 < time
    requires stack != [] && StackOk(parent, children, stack, t) && ChildrenOk(parent, children, stack, t)
    requires stack[|stack| - 1].next == |children[stack[|stack| - 1].block]|
    ensures ChildrenOk(parent, children, stack[..|stack| - 1], t.(end := t.end[stack[|stack| - 1].block := time]))
  {
    var last := |stack| - 1;
    var top := stack[last];
    forall b: nat | 0 < b < |parent| && parent[b] == top.block
      ensures t.begin[b] != 0
    {
      assert b in children[top.block];
      var k :| 0 <= k < |children[top.block]| && children[top.block][k] == b;
      assert stack[last].block == top.block;
    }
  }

  lemma CloseKeepsWalking(rank: seq<nat>, parent: seq<int>, children: seq<seq<nat>>, stack: seq<Visit>, t: Times, time: nat)
    requires Walking(rank, parent, children, stack, t, time)
    requires stack != [] && stack[|stack| - 1].block < |children| == |parent|
    requires stack[|stack| - 1].next == |children[stack[|stack| - 1].block]|
    requires t.begin[stack[|stack| - 1].block] != 0
    ensures Walking(rank, parent, children, stack[..|stack| - 1],
                    t.(end := t.end[stack[|stack| - 1].block := time]), time + 1)
  {
    hide StackOk, ChildrenOk, TimesOk, AncestryOk, ListsChildren, Open, Anc;
    CloseStack(parent, children, stack, t, time);
    CloseChildren(parent, children, stack, t, time);
    CloseTimes(parent, stack, t, time);
    CloseAncestry(rank, parent, children, stack, t, time);
  }

  // ----- the finished numbering -----

  lemma {:induction false} AllBegan(rank: seq<nat>, parent: seq<int>, children: seq<seq<nat>>, t: Times, time: nat, b: nat)
    requires Walking(rank, parent, children, [], t, time) && Present(parent, b)
    ensures t.begin[b] != 0 && t.end[b] != 0
    decreases rank[b]
  {
    hide AncestryOk, StackOk;
    if b != 0 {
      AllBegan(rank, parent, children, t, time, parent[b]);
    }
    assert !Open([], b);
  }

  lemma StartWalking(rank: seq<nat>, parent: seq<int>, children: seq<seq<nat>>, none: seq<nat>)
    requires IsTree(rank, parent) && ListsChildren(parent, children)
    requires none == seq(|parent|, _ => 0)
    ensures Walking(rank, parent, children, [Visit(0, 0)], Times(none[0 := 1], none), 2)
  {
    hide Anc, Open, ListsChildren;
    var t := Times(none[0 := 1], none);
    StartLists(rank, parent, children, none);
    assert TimesOk(parent, [Visit(0, 0)], t, 2) by {
      OpenAt([Visit(0, 0)], 0);
    }
    forall b: nat | b < |parent| && t.begin[b] != 0
      ensures b == 0 && Anc(rank, parent, 0, 0)
    {
      AncRoot(rank, parent, 0);
    }
  }

  lemma StartLists(rank: seq<nat>, parent: seq<int>, children: seq<seq<nat>>, none: seq<nat>)
    requires IsTree(rank, parent) && ListsChildren(parent, children)
    requires none == seq(|parent|, _ => 0)
    ensures StackOk(parent, children, [Visit(0, 0)], Times(none[0 := 1], none))
    ensures ChildrenOk(parent, children, [Visit(0, 0)], Times(none[0 := 1], none))
  {
    forall k | 0 <= k < |children[0]|
      ensures none[0 := 1][children[0][k]] == 0
    {
      assert 0 < children[0][k];
    }
  }

  ghost function Waiting(begin: seq<nat>): set<nat>
  {
    set b: nat | b < |begin| && begin[b] == 0
  }

  lemma OpenShrinks(begin: seq<nat>, b: nat, time: nat)
    requires b < |begin| && begin[b] == 0 && 0 < time
    ensures Waiting(begin[b := time]) < Waiting(begin)
  {
    assert b in Waiting(begin) && b !in Waiting(begin[b := time]);
  }

  method Number(ghost rank: seq<nat>, parent: seq<int>) returns (t: Times)
    requires IsTree(rank, parent)
    ensures |t.begin| == |t.end| == |parent|
    ensures forall a: nat, b: nat :: Present(parent, a) && Present(parent, b) ==>
              (Anc(rank, parent, a, b) <==> t.begin[a] <= t.begin[b] && t.end[b] <= t.end[a])
  {
    hide StackOk, ChildrenOk, TimesOk, AncestryOk, ListsChildren, Open, Anc, Waiting;
    var children := ChildrenOf(parent);
    var none := seq<nat>(|parent|, _ => 0);
    t := Times(none[0 := 1], none);
    var stack := [Visit(0, 0)];
    var time := 2;
    StartWalking(rank, parent, children, none);
    while stack != []
      invariant Walking(rank, parent, children, stack, t, time)
      invariant stack != [] ==> stack[|stack| - 1].block < |children|
      invariant |children| == |t.begin| == |parent|
      decreases Waiting(t.begin), |stack|,
                if stack == [] then 0 else |children[stack[|stack| - 1].block]| - stack[|stack| - 1].next
    {
      OpenTop(rank, parent, children, stack, t, time);
      var last := |stack| - 1;
      var top := stack[last];
      if top.next == |children[top.block]| {
        TopBegan(rank, parent, children, stack, t, time);
        CloseKeepsWalking(rank, parent, children, stack, t, time);
        t := t.(end := t.end[top.block := time]);
        stack := stack[..last];
      } else {
        var child := children[top.block][top.next];
        OpenKeepsWalking(rank, parent, children, stack, t, time);
        OpenShrinks(t.begin, child, time);
        stack := stack[last := Visit(top.block, top.next + 1)] + [Visit(child, 0)];
        t := t.(begin := t.begin[child := time]);
      }
      time := time + 1;
      if stack != [] {
        OpenTop(rank, parent, children, stack, t, time);
      }
    }
    EndWalking(rank, parent, children, t, time);
  }

  lemma TopBegan(rank: seq<nat>, parent: seq<int>, children: seq<seq<nat>>, stack: seq<Visit>, t: Times, time: nat)
    requires Walking(rank, parent, children, stack, t, time) && stack != []
    ensures stack[|stack| - 1].block < |t.begin| && t.begin[stack[|stack| - 1].block] != 0
  {
    hide ChildrenOk, TimesOk, AncestryOk, ListsChildren;
  }

  lemma EndWalking(rank: seq<nat>, parent: seq<int>, children: seq<seq<nat>>, t: Times, time: nat)
    requires Walking(rank, parent, children, [], t, time)
    ensures forall a: nat, b: nat :: Present(parent, a) && Present(parent, b) ==>
              (Anc(rank, parent, a, b) <==> t.begin[a] <= t.begin[b] && t.end[b] <= t.end[a])
  {
    hide ChildrenOk, StackOk, TimesOk, ListsChildren, Anc;
    forall a: nat, b: nat | Present(parent, a) && Present(parent, b)
      ensures Anc(rank, parent, a, b) <==> t.begin[a] <= t.begin[b] && t.end[b] <= t.end[a]
    {
      AllBegan(rank, parent, children, t, time, a);
      AllBegan(rank, parent, children, t, time, b);
      assert Encloses(t, a, b) <==> t.begin[a] <= t.begin[b] && t.end[b] <= t.end[a];
    }
  }
}
