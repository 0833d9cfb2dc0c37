/** Depth-first numbering of a graph with an explicit stack. */
module Traversal {
  import opened Finite
  import opened Graphs

  datatype Frame = Frame(block: nat, next: nat)

  datatype Numbering = Numbering(preorder: seq<nat>, rpost: seq<nat>, back: seq<bool>)

  /** What the numbering promises to every analysis that reads it. */
  ghost predicate Numbers(g: Graph, n: Numbering)
    requires g.Valid()
  {
    && |n.preorder| == |n.rpost| == g.Count()
    && |n.back| == |g.edges|
    && (forall b: nat :: b < g.Count() ==> (n.preorder[b] != 0 <==> g.Reachable(b)))
    && (forall b: nat :: b < g.Count() ==> (n.rpost[b] != 0 <==> g.Reachable(b)))
    && (forall a, b :: 0 <= a < b < g.Count() && n.rpost[a] != 0 ==> n.rpost[a] != n.rpost[b])
    && (forall b :: 0 <= b < g.Count() ==> n.rpost[b] <= g.Count())
    && (forall b :: 0 < b < g.Count() && n.rpost[b] != 0 ==> n.rpost[ENTRY] < n.rpost[b])
    && (forall b: nat :: 0 < b < g.Count() && n.rpost[b] != 0 ==> HasForwardEdge(g, n.rpost, b))
    && (forall e :: 0 <= e < |g.edges| ==>
          (n.back[e] <==> n.rpost[g.edges[e].source] != 0
                          && n.rpost[g.edges[e].destination] <= n.rpost[g.edges[e].source]))
  }

  ghost predicate HasForwardEdge(g: Graph, rpost: seq<nat>, b: nat)
    requires g.Valid() && |rpost| == g.Count()
  {
    exists e :: 0 <= e < |g.edges| && g.edges[e].destination == b && 0 < rpost[g.edges[e].source] < rpost[b]
  }

  ghost predicate OnStack(stack: seq<Frame>, b: nat)
  {
    exists i :: 0 <= i < |stack| && stack[i].block == b
  }

  ghost function Unvisited(pre: seq<nat>): set<nat>
  {
    set b: nat | b < |pre| && pre[b] == 0
  }

  lemma VisitShrinks(pre: seq<nat>, b: nat, number: nat)
    requires b < |pre| && pre[b] == 0 && 0 < number
    ensures Unvisited(pre[b := number]) < Unvisited(pre)
  {
    assert b in Unvisited(pre) && b !in Unvisited(pre[b := number]);
  }

  /** Frames are distinct, visited, unfinished and linked by edges. */
  ghost predicate StackOk(g: Graph, stack: seq<Frame>, pre: seq<nat>, rpost: seq<nat>)
    requires g.Valid() && |pre| == |rpost| == g.Count()
  {
    && (forall i :: 0 <= i < |stack| ==>
          && stack[i].block < g.Count()
          && stack[i].next <= |g.outgoing[stack[i].block]|
          && pre[stack[i].block] != 0
          && rpost[stack[i].block] == 0)
    && (forall i, j :: 0 <= i < j < |stack| ==> stack[i].block != stack[j].block)
    && (forall i :: 0 < i < |stack| ==> stack[i].block != ENTRY && g.Step(stack[i - 1].block, stack[i].block))
    && (stack != [] ==> stack[0].block == ENTRY)
  }

  /** Numbers handed out so far: distinct, above `post`, and complete off the stack. */
  ghost predicate NumbersOk(g: Graph, stack: seq<Frame>, pre: seq<nat>, rpost: seq<nat>, post: nat)
    requires g.Valid() && |pre| == |rpost| == g.Count()
  {
    && (forall b :: 0 <= b < g.Count() && rpost[b] != 0 ==> post < rpost[b] <= g.Count() && pre[b] != 0)
    && (forall a, b :: 0 <= a < b < g.Count() && rpost[a] != 0 ==> rpost[a] != rpost[b])
    && (forall b: nat :: b < g.Count() && pre[b] != 0 && rpost[b] == 0 ==> OnStack(stack, b))
    && (forall b: nat :: b < g.Count() && pre[b] != 0 ==> g.Reachable(b))
    && (forall b :: 0 < b < g.Count() && rpost[b] != 0 && rpost[ENTRY] != 0 ==> rpost[ENTRY] < rpost[b])
  }

  ghost predicate ParentsOk(g: Graph, stack: seq<Frame>, rpost: seq<nat>, parent: seq<nat>)
    requires g.Valid() && |rpost| == |parent| == g.Count()
  {
    forall b: nat :: 0 < b < g.Count() && rpost[b] != 0 ==>
      && parent[b] < g.Count()
      && g.Step(parent[b], b)
      && (if rpost[parent[b]] == 0 then OnStack(stack, parent[b]) else rpost[parent[b]] < rpost[b])
  }

  /** Edges scanned so far lead to visited blocks and carry their final flag: a
      target that was unfinished when scanned is a back edge. Read with 0 for
      "unfinished", the flag of a finished block's edge compares numbers. */
  ghost predicate EdgesOk(g: Graph, stack: seq<Frame>, pre: seq<nat>, rpost: seq<nat>, back: seq<bool>)
    requires g.Valid() && |pre| == |rpost| == g.Count() && |back| == |g.edges|
  {
    && (forall b, k :: 0 <= b < g.Count() && 0 <= k < |g.outgoing[b]| && rpost[b] != 0 ==>
          && pre[Target(g, b, k)] != 0
          && (back[g.outgoing[b][k]] <==> rpost[Target(g, b, k)] <= rpost[b]))
    && (forall b, k :: 0 <= b < g.Count() && 0 <= k < |g.outgoing[b]| && pre[b] == 0 ==>
          !back[g.outgoing[b][k]])
    && (forall i :: 0 <= i < |stack| ==> stack[i].block < g.Count() && FrameEdgesOk(g, stack, pre, rpost, back, i))
  }

  ghost predicate FrameEdgesOk(g: Graph, stack: seq<Frame>, pre: seq<nat>, rpost: seq<nat>, back: seq<bool>, i: nat)
    requires g.Valid() && |pre| == |rpost| == g.Count() && |back| == |g.edges|
    requires i < |stack| && stack[i].block < g.Count()
  {
    var b := stack[i].block;
    forall k :: 0 <= k < |g.outgoing[b]| ==>
      if k < stack[i].next then
        && pre[Target(g, b, k)] != 0
        && (if back[g.outgoing[b][k]] then exists j :: 0 <= j <= i && stack[j].block == Target(g, b, k)
            else rpost[Target(g, b, k)] != 0 || (i + 1 < |stack| && stack[i + 1].block == Target(g, b, k)))
      else !back[g.outgoing[b][k]]
  }

  ghost function Target(g: Graph, b: nat, k: nat): nat
    requires g.Valid() && b < g.Count() && k < |g.outgoing[b]|
  {
    g.edges[g.outgoing[b][k]].destination
  }

  ghost predicate Traversing(g: Graph, stack: seq<Frame>, n: Numbering, post: nat, parent: seq<nat>)
  {
    && g.Valid()
    && |n.preorder| == |n.rpost| == |parent| == g.Count()
    && |n.back| == |g.edges|
    && StackOk(g, stack, n.preorder, n.rpost)
    && NumbersOk(g, stack, n.preorder, n.rpost, post)
    && ParentsOk(g, stack, n.rpost, parent)
    && EdgesOk(g, stack, n.preorder, n.rpost, n.back)
    && post == |Unfinished(n.rpost)|
  }

  // ----- finishing the top frame -----

  lemma PopNumbers(g: Graph, stack: seq<Frame>, pre: seq<nat>, rpost: seq<nat>, post: nat)
    requires g.Valid() && |pre| == |rpost| == g.Count()
    requires stack != [] && StackOk(g, stack, pre, rpost) && NumbersOk(g, stack, pre, rpost, post)
    requires 0 < post <= g.Count()
    ensures var rpost' := rpost[stack[|stack| - 1].block := post];
            NumbersOk(g, stack[..|stack| - 1], pre, rpost', post - 1)
  {
    hide Graph.Valid, Graph.Reachable, Graph.Step;
    var top := stack[|stack| - 1];
    var stack' := stack[..|stack| - 1];
    var rpost' := rpost[top.block := post];
    forall b: nat | b < g.Count() && pre[b] != 0 && rpost'[b] == 0
      ensures OnStack(stack', b)
    {
      var i :| 0 <= i < |stack| && stack[i].block == b;
      assert stack'[i].block == b;
    }
    if rpost'[ENTRY] != 0 {
      forall b: nat | 0 < b < g.Count() && rpost'[b] != 0
        ensures rpost'[ENTRY] < rpost'[b]
      {
        if rpost[ENTRY] == 0 {
          assert |stack| == 1;
        }
      }
    }
  }

  lemma PopParents(g: Graph, stack: seq<Frame>, pre: seq<nat>, rpost: seq<nat>, post: nat, parent: seq<nat>, before: nat)
    requires g.Valid() && |pre| == |rpost| == |parent| == g.Count()
    requires stack != [] && StackOk(g, stack, pre, rpost) && ParentsOk(g, stack, rpost, parent)
    requires forall b :: 0 <= b < g.Count() && rpost[b] != 0 ==> post < rpost[b]
    requires 0 < post
    requires before == if |stack| == 1 then 0 else stack[|stack| - 2].block
    ensures var top := stack[|stack| - 1].block;
            ParentsOk(g, stack[..|stack| - 1], rpost[top := post], parent[top := before])
  {
    hide Graph.Valid, Graph.Step;
    var top := stack[|stack| - 1].block;
    var stack' := stack[..|stack| - 1];
    var rpost' := rpost[top := post];
    var parent' := parent[top := before];
    forall b: nat | 0 < b < g.Count() && rpost'[b] != 0
      ensures && parent'[b] < g.Count()
              && g.Step(parent'[b], b)
              && (if rpost'[parent'[b]] == 0 then OnStack(stack', parent'[b]) else rpost'[parent'[b]] < rpost'[b])
    {
      if b == top {
        assert stack'[|stack| - 2].block == before;
      } else if rpost[parent[b]] == 0 && parent[b] != top {
        var i :| 0 <= i < |stack| && stack[i].block == parent[b];
        assert stack'[i].block == parent[b];
      }
    }
  }

  lemma PopEdges(g: Graph, stack: seq<Frame>, pre: seq<nat>, rpost: seq<nat>, back: seq<bool>, post: nat)
    requires g.Valid() && |pre| == |rpost| == g.Count() && |back| == |g.edges|
    requires stack != [] && StackOk(g, stack, pre, rpost) && EdgesOk(g, stack, pre, rpost, back)
    requires stack[|stack| - 1].next == |g.outgoing[stack[|stack| - 1].block]|
    requires forall b :: 0 <= b < g.Count() && rpost[b] != 0 ==> post < rpost[b]
    requires 0 < post
    ensures EdgesOk(g, stack[..|stack| - 1], pre, rpost[stack[|stack| - 1].block := post], back)
  {
    var last := |stack| - 1;
    var top := stack[last].block;
    var stack' := stack[..last];
    var rpost' := rpost[top := post];
    assert FrameEdgesOk(g, stack, pre, rpost, back, last);
    forall b, k | 0 <= b < g.Count() && 0 <= k < |g.outgoing[b]| && rpost'[b] != 0
      ensures pre[Target(g, b, k)] != 0
      ensures back[g.outgoing[b][k]] <==> rpost'[Target(g, b, k)] <= rpost'[b]
    {
      var t := Target(g, b, k);
      if b == top && back[g.outgoing[b][k]] {
        var j :| 0 <= j <= last && stack[j].block == t;
      }
    }
    forall i | 0 <= i < last
      ensures FrameEdgesOk(g, stack', pre, rpost', back, i)
    {
      PopFrameEdges(g, stack, pre, rpost, back, post, i);
    }
  }

  lemma PopFrameEdges(g: Graph, stack: seq<Frame>, pre: seq<nat>, rpost: seq<nat>, back: seq<bool>, post: nat, i: nat)
    requires g.Valid() && |pre| == |rpost| == g.Count() && |back| == |g.edges|
    requires i < |stack| - 1 && 0 < post
    requires forall j :: 0 <= j < |stack| ==> stack[j].block < g.Count()
    requires FrameEdgesOk(g, stack, pre, rpost, back, i)
    ensures FrameEdgesOk(g, stack[..|stack| - 1], pre, rpost[stack[|stack| - 1].block := post], back, i)
  {
    var stack' := stack[..|stack| - 1];
    var b := stack[i].block;
    forall k | 0 <= k < |g.outgoing[b]| && k < stack[i].next && back[g.outgoing[b][k]]
      ensures exists j :: 0 <= j <= i && stack'[j].block == Target(g, b, k)
    {
      var j :| 0 <= j <= i && stack[j].block == Target(g, b, k);
      assert stack'[j] == stack[j];
    }
  }

  ghost function Unfinished(rpost: seq<nat>): set<nat>
  {
    set b: nat | b < |rpost| && rpost[b] == 0
  }

  lemma PopFacts(g: Graph, stack: seq<Frame>, n: Numbering, post: nat, parent: seq<nat>)
    requires Traversing(g, stack, n, post, parent) && stack != []
    ensures var top := stack[|stack| - 1].block;
            top < g.Count() == |n.rpost| == |parent| && n.rpost[top] == 0
    ensures forall b :: 0 <= b < g.Count() && n.rpost[b] != 0 ==> post < n.rpost[b]
  {
    hide ParentsOk, EdgesOk;
  }

  lemma FinishOne(rpost: seq<nat>, top: nat, post: nat)
    requires top < |rpost| && rpost[top] == 0 && post == |Unfinished(rpost)|
    ensures 0 < post <= |rpost| && |Unfinished(rpost[top := post])| == post - 1
  {
    assert top in Unfinished(rpost);
    assert Unfinished(rpost) - {top} == Unfinished(rpost[top := post]) by {
      assert 0 < post;
    }
    AtMost(Unfinished(rpost), |rpost|);
  }

  lemma PopKeepsTraversing(g: Graph, stack: seq<Frame>, n: Numbering, post: nat, parent: seq<nat>, before: nat)
    requires Traversing(g, stack, n, post, parent)
    requires stack != [] && stack[|stack| - 1].next == |g.outgoing[stack[|stack| - 1].block]|
    requires before == if |stack| == 1 then 0 else stack[|stack| - 2].block
    ensures 0 < post
    ensures Traversing(g, stack[..|stack| - 1], n.(rpost := n.rpost[stack[|stack| - 1].block := post]), post - 1,
                parent[stack[|stack| - 1].block := before])
  {
    hide StackOk, NumbersOk, ParentsOk, EdgesOk, Unfinished, Graph.Valid;
    PopFacts(g, stack, n, post, parent);
    FinishOne(n.rpost, stack[|stack| - 1].block, post);
    PopStack(g, stack, n.preorder, n.rpost, post);
    PopNumbers(g, stack, n.preorder, n.rpost, post);
    PopParents(g, stack, n.preorder, n.rpost, post, parent, before);
    PopEdges(g, stack, n.preorder, n.rpost, n.back, post);
  }

  lemma PopStack(g: Graph, stack: seq<Frame>, pre: seq<nat>, rpost: seq<nat>, post: nat)
    requires g.Valid() && |pre| == |rpost| == g.Count()
    requires stack != [] && StackOk(g, stack, pre, rpost)
    ensures StackOk(g, stack[..|stack| - 1], pre, rpost[stack[|stack| - 1].block := post])
  {
    var stack' := stack[..|stack| - 1];
    forall i | 0 < i < |stack'|
      ensures g.Step(stack'[i - 1].block, stack'[i].block)
    {
      assert g.Step(stack[i - 1].block, stack[i].block);
    }
  }

  // ----- stepping over an edge -----

  lemma OnStackKept(stack: seq<Frame>, stack': seq<Frame>)
    requires |stack| <= |stack'| && forall i :: 0 <= i < |stack| ==> stack'[i].block == stack[i].block
    ensures forall b :: OnStack(stack, b) ==> OnStack(stack', b)
  {
    forall b | OnStack(stack, b)
      ensures OnStack(stack', b)
    {
      var i :| 0 <= i < |stack| && stack[i].block == b;
      assert stack'[i].block == b;
    }
  }

  lemma FrameEdgesKept(g: Graph, stack: seq<Frame>, stack': seq<Frame>, pre: seq<nat>, pre': seq<nat>,
                       rpost: seq<nat>, back: seq<bool>, back': seq<bool>, i: nat)
    requires g.Valid() && |pre| == |pre'| == |rpost| == g.Count() && |back| == |back'| == |g.edges|
    requires i < |stack| <= |stack'| && forall j :: 0 <= j < |stack| ==> stack'[j].block == stack[j].block
    requires stack[i].block < g.Count() && stack'[i].next == stack[i].next
    requires forall b :: 0 <= b < g.Count() && pre[b] != 0 ==> pre'[b] != 0
    requires forall k :: 0 <= k < |g.outgoing[stack[i].block]| ==>
               back'[g.outgoing[stack[i].block][k]] == back[g.outgoing[stack[i].block][k]]
    requires FrameEdgesOk(g, stack, pre, rpost, back, i)
    ensures FrameEdgesOk(g, stack', pre', rpost, back', i)
  {
    var b := stack[i].block;
    forall k | 0 <= k < |g.outgoing[b]| && k < stack[i].next && back[g.outgoing[b][k]]
      ensures exists j :: 0 <= j <= i && stack'[j].block == Target(g, b, k)
    {
      var j :| 0 <= j <= i && stack[j].block == Target(g, b, k);
      assert stack'[j].block == stack[j].block;
    }
  }

  lemma OtherListsUntouched(g: Graph, b: nat, k: nat, back: seq<bool>, flag: bool)
    requires g.Valid() && b < g.Count() && k < |g.outgoing[b]| && |back| == |g.edges|
    ensures forall c, j :: 0 <= c < g.Count() && 0 <= j < |g.outgoing[c]| && !(c == b && j == k) ==>
              back[g.outgoing[b][k] := flag][g.outgoing[c][j]] == back[g.outgoing[c][j]]
  {
    forall c, j | 0 <= c < g.Count() && 0 <= j < |g.outgoing[c]| && !(c == b && j == k)
      ensures g.outgoing[c][j] != g.outgoing[b][k]
    {
      assert g.edges[g.outgoing[c][j]].source == c;
      assert g.edges[g.outgoing[b][k]].source == b;
      if c == b {
        assert j < k || k < j;
      }
    }
  }

  /** Advance the top frame over an edge whose target is already visited. */
  lemma SkipTopEdges(g: Graph, stack: seq<Frame>, pre: seq<nat>, rpost: seq<nat>, back: seq<bool>)
    requires g.Valid() && |pre| == |rpost| == g.Count() && |back| == |g.edges|
    requires stack != [] && stack[|stack| - 1].block < g.Count()
    requires FrameEdgesOk(g, stack, pre, rpost, back, |stack| - 1)
    requires stack[|stack| - 1].next < |g.outgoing[stack[|stack| - 1].block]|
    requires pre[Target(g, stack[|stack| - 1].block, stack[|stack| - 1].next)] != 0
    requires var t := Target(g, stack[|stack| - 1].block, stack[|stack| - 1].next);
             rpost[t] == 0 ==> OnStack(stack, t)
    ensures var top := stack[|stack| - 1];
            FrameEdgesOk(g, stack[|stack| - 1 := Frame(top.block, top.next + 1)], pre, rpost,
                back[g.outgoing[top.block][top.next] := rpost[Target(g, top.block, top.next)] == 0], |stack| - 1)
  {
    var last := |stack| - 1;
    var top := stack[last];
    var b := top.block;
    var id := g.outgoing[b][top.next];
    var target := Target(g, b, top.next);
    var stack' := stack[last := Frame(b, top.next + 1)];
    var back' := back[id := rpost[target] == 0];
    OtherListsUntouched(g, b, top.next, back, rpost[target] == 0);
    forall k | 0 <= k <= top.next && back'[g.outgoing[b][k]]
      ensures exists j :: 0 <= j <= last && stack'[j].block == Target(g, b, k)
    {
      if k == top.next {
        var j :| 0 <= j < |stack| && stack[j].block == target;
        assert stack'[j].block == target;
      } else {
        var j :| 0 <= j <= last && stack[j].block == Target(g, b, k);
        assert stack'[j].block == stack[j].block;
      }
    }
  }

  /** Flipping one edge of an open block leaves finished and unvisited blocks alone. */
  lemma SkipClosedEdges(g: Graph, stack: seq<Frame>, pre: seq<nat>, rpost: seq<nat>, back: seq<bool>, b: nat, k: nat, flag: bool)
    requires g.Valid() && |pre| == |rpost| == g.Count() && |back| == |g.edges|
    requires EdgesOk(g, stack, pre, rpost, back) && b < g.Count() && k < |g.outgoing[b]| && rpost[b] == 0 && pre[b] != 0
    ensures var back' := back[g.outgoing[b][k] := flag];
            forall c, j :: 0 <= c < g.Count() && 0 <= j < |g.outgoing[c]| ==>
              && (rpost[c] != 0 ==> pre[Target(g, c, j)] != 0 && (back'[g.outgoing[c][j]] <==> rpost[Target(g, c, j)] <= rpost[c]))
              && (pre[c] == 0 ==> !back'[g.outgoing[c][j]])
  {
    hide FrameEdgesOk;
    OtherListsUntouched(g, b, k, back, flag);
  }

  lemma SkipLowerEdges(g: Graph, stack: seq<Frame>, pre: seq<nat>, rpost: seq<nat>, back: seq<bool>, i: nat, k: nat, flag: bool)
    requires g.Valid() && |pre| == |rpost| == g.Count() && |back| == |g.edges|
    requires stack != [] && StackOk(g, stack, pre, rpost) && EdgesOk(g, stack, pre, rpost, back)
    requires i < |stack| - 1 && k < |g.outgoing[stack[|stack| - 1].block]|
    ensures var top := stack[|stack| - 1];
            FrameEdgesOk(g, stack[|stack| - 1 := Frame(top.block, top.next + 1)], pre, rpost, back[g.outgoing[top.block][k] := flag], i)
  {
    hide FrameEdgesOk;
    var top := stack[|stack| - 1];
    OtherListsUntouched(g, top.block, k, back, flag);
    var stack' := stack[|stack| - 1 := Frame(top.block, top.next + 1)];
    FrameEdgesKept(g, stack, stack', pre, pre, rpost, back, back[g.outgoing[top.block][k] := flag], i);
  }

  lemma SkipEdges(g: Graph, stack: seq<Frame>, pre: seq<nat>, rpost: seq<nat>, back: seq<bool>)
    requires g.Valid() && |pre| == |rpost| == g.Count() && |back| == |g.edges|
    requires stack != [] && StackOk(g, stack, pre, rpost) && EdgesOk(g, stack, pre, rpost, back)
    requires stack[|stack| - 1].next < |g.outgoing[stack[|stack| - 1].block]|
    requires pre[Target(g, stack[|stack| - 1].block, stack[|stack| - 1].next)] != 0
    requires var t := Target(g, stack[|stack| - 1].block, stack[|stack| - 1].next);
             rpost[t] == 0 ==> OnStack(stack, t)
    ensures !back[g.outgoing[stack[|stack| - 1].block][stack[|stack| - 1].next]]
    ensures var top := stack[|stack| - 1];
            EdgesOk(g, stack[|stack| - 1 := Frame(top.block, top.next + 1)], pre, rpost,
                    back[g.outgoing[top.block][top.next] := rpost[Target(g, top.block, top.next)] == 0])
  {
    hide FrameEdgesOk;
    var last := |stack| - 1;
    var top := stack[last];
    var flag := rpost[Target(g, top.block, top.next)] == 0;
    NotYetBack(g, stack, pre, rpost, back, last);
    SkipClosedEdges(g, stack, pre, rpost, back, top.block, top.next, flag);
    SkipTopEdges(g, stack, pre, rpost, back);
    var stack' := stack[last := Frame(top.block, top.next + 1)];
    var back' := back[g.outgoing[top.block][top.next] := flag];
    forall i | 0 <= i < last
      ensures FrameEdgesOk(g, stack', pre, rpost, back', i)
    {
      SkipLowerEdges(g, stack, pre, rpost, back, i, top.next, flag);
    }
  }

  lemma NotYetBack(g: Graph, stack: seq<Frame>, pre: seq<nat>, rpost: seq<nat>, back: seq<bool>, i: nat)
    requires g.Valid() && |pre| == |rpost| == g.Count() && |back| == |g.edges|
    requires i < |stack| && stack[i].block < g.Count() && FrameEdgesOk(g, stack, pre, rpost, back, i)
    ensures stack[i].next < |g.outgoing[stack[i].block]| ==> !back[g.outgoing[stack[i].block][stack[i].next]]
  {
  }

  lemma NumbersKept(g: Graph, stack: seq<Frame>, stack': seq<Frame>, pre: seq<nat>, rpost: seq<nat>, post: nat)
    requires g.Valid() && |pre| == |rpost| == g.Count()
    requires NumbersOk(g, stack, pre, rpost, post)
    requires forall b :: OnStack(stack, b) ==> OnStack(stack', b)
    ensures NumbersOk(g, stack', pre, rpost, post)
  {
    hide OnStack, Graph.Valid;
  }

  lemma ParentsKept(g: Graph, stack: seq<Frame>, stack': seq<Frame>, rpost: seq<nat>, parent: seq<nat>)
    requires g.Valid() && |rpost| == |parent| == g.Count()
    requires ParentsOk(g, stack, rpost, parent)
    requires forall b :: OnStack(stack, b) ==> OnStack(stack', b)
    ensures ParentsOk(g, stack', rpost, parent)
  {
    hide OnStack, Graph.Valid, Graph.Step;
  }

  lemma SkipStack(g: Graph, stack: seq<Frame>, pre: seq<nat>, rpost: seq<nat>)
    requires g.Valid() && |pre| == |rpost| == g.Count()
    requires stack != [] && StackOk(g, stack, pre, rpost)
    requires stack[|stack| - 1].next < |g.outgoing[stack[|stack| - 1].block]|
    ensures var top := stack[|stack| - 1];
            StackOk(g, stack[|stack| - 1 := Frame(top.block, top.next + 1)], pre, rpost)
  {
    hide Graph.Valid, Graph.Step;
  }

  lemma SkipKeepsTraversing(g: Graph, stack: seq<Frame>, n: Numbering, post: nat, parent: seq<nat>)
    requires Traversing(g, stack, n, post, parent)
    requires stack != [] && stack[|stack| - 1].block < g.Count()
    requires stack[|stack| - 1].next < |g.outgoing[stack[|stack| - 1].block]|
    requires n.preorder[Target(g, stack[|stack| - 1].block, stack[|stack| - 1].next)] != 0
    requires var t := Target(g, stack[|stack| - 1].block, stack[|stack| - 1].next);
             n.rpost[t] == 0 ==> OnStack(stack, t)
    ensures !n.back[g.outgoing[stack[|stack| - 1].block][stack[|stack| - 1].next]]
    ensures var top := stack[|stack| - 1];
            var target := Target(g, top.block, top.next);
            Traversing(g, stack[|stack| - 1 := Frame(top.block, top.next + 1)],
                n.(back := n.back[g.outgoing[top.block][top.next] := n.rpost[target] == 0]), post, parent)
  {
    hide EdgesOk, OnStack, StackOk, NumbersOk, ParentsOk;
    var last := |stack| - 1;
    var top := stack[last];
    var stack' := stack[last := Frame(top.block, top.next + 1)];
    OnStackKept(stack, stack');
    SkipEdges(g, stack, n.preorder, n.rpost, n.back);
    SkipStack(g, stack, n.preorder, n.rpost);
    NumbersKept(g, stack, stack', n.preorder, n.rpost, post);
    ParentsKept(g, stack, stack', n.rpost, parent);
  }

  lemma PushFrameEdges(g: Graph, stack: seq<Frame>, pre: seq<nat>, rpost: seq<nat>, back: seq<bool>, number: nat,
                       target: nat, i: nat)
    requires g.Valid() && |pre| == |rpost| == g.Count() && |back| == |g.edges| && 0 < number
    requires stack != [] && StackOk(g, stack, pre, rpost) && EdgesOk(g, stack, pre, rpost, back)
    requires stack[|stack| - 1].next < |g.outgoing[stack[|stack| - 1].block]|
    requires target == Target(g, stack[|stack| - 1].block, stack[|stack| - 1].next) && target < g.Count() && pre[target] == 0
    requires i <= |stack|
    ensures var top := stack[|stack| - 1];
            var stack' := stack[|stack| - 1 := Frame(top.block, top.next + 1)] + [Frame(target, 0)];
            stack'[i].block < g.Count() && FrameEdgesOk(g, stack', pre[target := number], rpost, back, i)
  {
    var last := |stack| - 1;
    var top := stack[last];
    var stack' := stack[last := Frame(top.block, top.next + 1)] + [Frame(target, 0)];
    if i < last {
      hide FrameEdgesOk;
      FrameEdgesKept(g, stack, stack', pre, pre[target := number], rpost, back, back, i);
    } else if i == last {
      hide FrameEdgesOk;
      PushTopEdges(g, stack, pre, rpost, back, number);
    }
  }

  lemma TargetInRange(g: Graph, b: nat, k: nat)
    requires g.Valid() && b < g.Count() && k < |g.outgoing[b]|
    ensures Target(g, b, k) < g.Count()
  {
  }

  /** Visit an unvisited target: number it and open a frame. */
  lemma PushEdges(g: Graph, stack: seq<Frame>, pre: seq<nat>, rpost: seq<nat>, back: seq<bool>, number: nat)
    requires g.Valid() && |pre| == |rpost| == g.Count() && |back| == |g.edges| && 0 < number
    requires stack != [] && StackOk(g, stack, pre, rpost) && EdgesOk(g, stack, pre, rpost, back)
    requires stack[|stack| - 1].next < |g.outgoing[stack[|stack| - 1].block]|
    requires pre[Target(g, stack[|stack| - 1].block, stack[|stack| - 1].next)] == 0
    ensures var top := stack[|stack| - 1];
            var target := Target(g, top.block, top.next);
            EdgesOk(g, stack[|stack| - 1 := Frame(top.block, top.next + 1)] + [Frame(target, 0)],
                    pre[target := number], rpost, back)
  {
    hide StackOk, FrameEdgesOk;
    var last := |stack| - 1;
    var top := stack[last];
    var target := Target(g, top.block, top.next);
    TargetInRange(g, top.block, top.next);
    var stack' := stack[last := Frame(top.block, top.next + 1)] + [Frame(target, 0)];
    forall i | 0 <= i < |stack'|
      ensures stack'[i].block < g.Count() && FrameEdgesOk(g, stack', pre[target := number], rpost, back, i)
    {
      PushFrameEdges(g, stack, pre, rpost, back, number, target, i);
    }
  }

  lemma PushTopEdges(g: Graph, stack: seq<Frame>, pre: seq<nat>, rpost: seq<nat>, back: seq<bool>, number: nat)
    requires g.Valid() && |pre| == |rpost| == g.Count() && |back| == |g.edges| && 0 < number
    requires stack != [] && stack[|stack| - 1].block < g.Count()
    requires FrameEdgesOk(g, stack, pre, rpost, back, |stack| - 1)
    requires stack[|stack| - 1].next < |g.outgoing[stack[|stack| - 1].block]|
    requires pre[Target(g, stack[|stack| - 1].block, stack[|stack| - 1].next)] == 0
    ensures var top := stack[|stack| - 1];
            var target := Target(g, top.block, top.next);
            FrameEdgesOk(g, stack[|stack| - 1 := Frame(top.block, top.next + 1)] + [Frame(target, 0)],
                         pre[target := number], rpost, back, |stack| - 1)
  {
    var last := |stack| - 1;
    var top := stack[last];
    var target := Target(g, top.block, top.next);
    var stack' := stack[last := Frame(top.block, top.next + 1)] + [Frame(target, 0)];
    forall k | 0 <= k <= top.next && back[g.outgoing[top.block][k]]
      ensures exists j :: 0 <= j <= last && stack'[j].block == Target(g, top.block, k)
    {
      assert k < top.next;
      var j :| 0 <= j <= last && stack[j].block == Target(g, top.block, k);
      assert stack'[j].block == stack[j].block;
    }
  }

  lemma PushNumbers(g: Graph, stack: seq<Frame>, stack': seq<Frame>, pre: seq<nat>, rpost: seq<nat>, post: nat,
                    target: nat, number: nat)
    requires g.Valid() && |pre| == |rpost| == g.Count() && target < g.Count() && 0 < number
    requires NumbersOk(g, stack, pre, rpost, post)
    requires forall b :: OnStack(stack, b) ==> OnStack(stack', b)
    requires OnStack(stack', target) && g.Reachable(target)
    ensures NumbersOk(g, stack', pre[target := number], rpost, post)
  {
    hide OnStack, Graph.Valid, Graph.Reachable;
  }

  lemma TopTarget(g: Graph, stack: seq<Frame>, n: Numbering, post: nat, parent: seq<nat>)
    requires Traversing(g, stack, n, post, parent) && stack != []
    ensures stack[|stack| - 1].block < g.Count()
    ensures stack[|stack| - 1].next <= |g.outgoing[stack[|stack| - 1].block]|
    ensures var top := stack[|stack| - 1];
            top.next < |g.outgoing[top.block]| ==>
              var target := Target(g, top.block, top.next);
              && target < g.Count()
              && g.outgoing[top.block][top.next] < |g.edges|
              && g.Step(top.block, target)
              && g.Reachable(target)
              && (n.preorder[target] == 0 ==> n.rpost[target] == 0)
              && (n.preorder[target] != 0 && n.rpost[target] == 0 ==> OnStack(stack, target))
  {
    hide EdgesOk, ParentsOk;
    var top := stack[|stack| - 1];
    if top.next < |g.outgoing[top.block]| {
      var target := Target(g, top.block, top.next);
      assert g.edges[g.outgoing[top.block][top.next]] == Edge(top.block, target);
      ReachableStep(g, top.block, target);
    }
  }

  lemma PushKeepsTraversing(g: Graph, stack: seq<Frame>, n: Numbering, post: nat, parent: seq<nat>, number: nat)
    requires Traversing(g, stack, n, post, parent) && 0 < number
    requires stack != [] && stack[|stack| - 1].block < g.Count()
    requires stack[|stack| - 1].next < |g.outgoing[stack[|stack| - 1].block]|
    requires n.preorder[Target(g, stack[|stack| - 1].block, stack[|stack| - 1].next)] == 0
    ensures var top := stack[|stack| - 1];
            var target := Target(g, top.block, top.next);
            Traversing(g, stack[|stack| - 1 := Frame(top.block, top.next + 1)] + [Frame(target, 0)],
                n.(preorder := n.preorder[target := number]), post, parent)
  {
    hide EdgesOk, OnStack, StackOk, NumbersOk, ParentsOk, Target, Graph.Step, Graph.Reachable, Graph.Valid;
    var last := |stack| - 1;
    var top := stack[last];
    TopTarget(g, stack, n, post, parent);
    var target := Target(g, top.block, top.next);
    var stack' := stack[last := Frame(top.block, top.next + 1)] + [Frame(target, 0)];
    OnStackKept(stack, stack');
    IsOnStack(stack', |stack|);
    PushEdges(g, stack, n.preorder, n.rpost, n.back, number);
    PushStack(g, stack, n.preorder, n.rpost, target, number);
    ParentsKept(g, stack, stack', n.rpost, parent);
    PushNumbers(g, stack, stack', n.preorder, n.rpost, post, target, number);
  }

  lemma IsOnStack(stack: seq<Frame>, i: nat)
    requires i < |stack|
    ensures OnStack(stack, stack[i].block)
  {
  }

  lemma PushStack(g: Graph, stack: seq<Frame>, pre: seq<nat>, rpost: seq<nat>, target: nat, number: nat)
    requires g.Valid() && |pre| == |rpost| == g.Count() && 0 < number
    requires stack != [] && StackOk(g, stack, pre, rpost)
    requires stack[|stack| - 1].next < |g.outgoing[stack[|stack| - 1].block]|
    requires target < g.Count() && pre[target] == 0 && rpost[target] == 0
    requires g.Step(stack[|stack| - 1].block, target)
    ensures var top := stack[|stack| - 1];
            StackOk(g, stack[|stack| - 1 := Frame(top.block, top.next + 1)] + [Frame(target, 0)],
                    pre[target := number], rpost)
  {
    var top := stack[|stack| - 1];
    var stack' := stack[|stack| - 1 := Frame(top.block, top.next + 1)] + [Frame(target, 0)];
    forall i | 0 < i < |stack'|
      ensures stack'[i].block != ENTRY && g.Step(stack'[i - 1].block, stack'[i].block)
    {
      if i < |stack| {
        assert stack'[i - 1].block == stack[i - 1].block && stack'[i].block == stack[i].block;
      }
    }
  }

  // ----- the finished numbering -----

  lemma ReachableVisited(g: Graph, n: Numbering, post: nat, parent: seq<nat>, b: nat)
    requires Traversing(g, [], n, post, parent) && n.preorder[ENTRY] != 0
    requires b < g.Count() && g.Reachable(b)
    ensures n.preorder[b] != 0
  {
    hide ParentsOk, StackOk;
    var visited := set v: nat | v < g.Count() && n.preorder[v] != 0;
    forall u: nat, v: nat | u in visited && g.Step(u, v) && v < g.Count()
      ensures v in visited
    {
      var e :| 0 <= e < |g.edges| && g.edges[e] == Edge(u, v);
      var k :| 0 <= k < |g.outgoing[u]| && g.outgoing[u][k] == e;
      assert !OnStack([], u);
      assert Target(g, u, k) == v;
    }
    var p :| g.PathFromTo(p, ENTRY, b);
    ClosedHoldsReachable(g, visited, p);
  }

  lemma ForwardEdge(g: Graph, rpost: seq<nat>, parent: seq<nat>, b: nat)
    requires g.Valid() && |rpost| == |parent| == g.Count()
    requires ParentsOk(g, [], rpost, parent) && 0 < b < g.Count() && rpost[b] != 0
    ensures HasForwardEdge(g, rpost, b)
  {
    assert !OnStack([], parent[b]);
    var e :| 0 <= e < |g.edges| && g.edges[e] == Edge(parent[b], b);
    assert 0 < rpost[g.edges[e].source] < rpost[b];
  }

  lemma BackFlags(g: Graph, pre: seq<nat>, rpost: seq<nat>, back: seq<bool>, e: nat)
    requires g.Valid() && |pre| == |rpost| == g.Count() && |back| == |g.edges|
    requires EdgesOk(g, [], pre, rpost, back) && e < |g.edges|
    requires forall b :: 0 <= b < g.Count() ==> (pre[b] != 0 <==> rpost[b] != 0)
    ensures back[e] <==> rpost[g.edges[e].source] != 0
                         && rpost[g.edges[e].destination] <= rpost[g.edges[e].source]
  {
    var b := g.edges[e].source;
    var k :| 0 <= k < |g.outgoing[b]| && g.outgoing[b][k] == e;
    assert Target(g, b, k) == g.edges[e].destination;
  }

  lemma VisitedExactly(g: Graph, n: Numbering, post: nat, parent: seq<nat>, b: nat)
    requires Traversing(g, [], n, post, parent) && n.preorder[ENTRY] != 0 && b < g.Count()
    ensures n.preorder[b] != 0 <==> g.Reachable(b)
    ensures n.rpost[b] != 0 <==> g.Reachable(b)
  {
    hide ParentsOk, EdgesOk, Graph.Valid, Graph.Reachable;
    if g.Reachable(b) {
      ReachableVisited(g, n, post, parent, b);
    }
    assert !OnStack([], b);
  }

  lemma FinalNumbers(g: Graph, n: Numbering, post: nat, parent: seq<nat>)
    requires Traversing(g, [], n, post, parent) && n.preorder[ENTRY] != 0
    ensures forall a, b :: 0 <= a < b < g.Count() && n.rpost[a] != 0 ==> n.rpost[a] != n.rpost[b]
    ensures forall b :: 0 <= b < g.Count() ==> n.rpost[b] <= g.Count()
    ensures forall b :: 0 < b < g.Count() && n.rpost[b] != 0 ==> n.rpost[ENTRY] < n.rpost[b]
  {
    hide ParentsOk, EdgesOk, StackOk, Graph.Valid, Graph.Reachable;
    assert !OnStack([], ENTRY);
  }

  lemma TraversedNumbers(g: Graph, n: Numbering, post: nat, parent: seq<nat>)
    requires Traversing(g, [], n, post, parent) && n.preorder[ENTRY] != 0
    ensures Numbers(g, n)
  {
    hide ParentsOk, EdgesOk, StackOk, NumbersOk, Graph.Valid, Graph.Reachable, HasForwardEdge, OnStack;
    TraversingSizes(g, [], n, post, parent);
    FinalNumbers(g, n, post, parent);
    forall b: nat | b < g.Count()
      ensures n.preorder[b] != 0 <==> g.Reachable(b)
      ensures n.rpost[b] != 0 <==> g.Reachable(b)
    {
      VisitedExactly(g, n, post, parent, b);
    }
    forall b: nat | 0 < b < g.Count() && n.rpost[b] != 0
      ensures HasForwardEdge(g, n.rpost, b)
    {
      ForwardEdge(g, n.rpost, parent, b);
    }
    EdgesInRange(g);
    forall e | 0 <= e < |g.edges|
      ensures n.back[e] <==> n.rpost[g.edges[e].source] != 0
                             && n.rpost[g.edges[e].destination] <= n.rpost[g.edges[e].source]
    {
      BackFlags(g, n.preorder, n.rpost, n.back, e);
    }
  }

  lemma EdgesInRange(g: Graph)
    requires g.Valid()
    ensures 0 < g.Count()
    ensures forall e :: 0 <= e < |g.edges| ==> g.edges[e].source < g.Count() && g.edges[e].destination < g.Count()
  {
  }

  lemma StartTraversing(g: Graph)
    requires g.Valid()
    ensures var none := seq<nat>(g.Count(), _ => 0);
            Traversing(g, [Frame(ENTRY, 0)], Numbering(none[ENTRY := 1], none, seq(|g.edges|, _ => false)), g.Count(), none)
  {
    assert g.PathFromTo([ENTRY], ENTRY, ENTRY);
    assert [Frame(ENTRY, 0)][0].block == ENTRY;
    var none := seq<nat>(g.Count(), _ => 0);
    AllUnfinished(none);
  }

  lemma {:induction false} AllUnfinished(none: seq<nat>)
    requires forall b :: 0 <= b < |none| ==> none[b] == 0
    ensures |Unfinished(none)| == |none|
  {
    if none != [] {
      var shorter := none[..|none| - 1];
      AllUnfinished(shorter);
      assert Unfinished(none) == Unfinished(shorter) + {|shorter|};
    } else {
      assert Unfinished(none) == {};
    }
  }

  lemma TraversingSizes(g: Graph, stack: seq<Frame>, n: Numbering, post: nat, parent: seq<nat>)
    requires Traversing(g, stack, n, post, parent)
    ensures |n.preorder| == |n.rpost| == |parent| == g.Count() && |n.back| == |g.edges|
  {
  }

  /** Edges of the top block that are not scanned yet. */
  function Left(g: Graph, stack: seq<Frame>): int
  {
    if stack != [] && stack[|stack| - 1].block < g.Count()
    then |g.outgoing[stack[|stack| - 1].block]| - stack[|stack| - 1].next
    else 0
  }

  /** A step visits a block, finishes one, or scans an edge. */
  ghost predicate Progress(g: Graph, stack: seq<Frame>, pre: seq<nat>, stack': seq<Frame>, pre': seq<nat>)
  {
    || Unvisited(pre') < Unvisited(pre)
    || (pre' == pre && |stack'| < |stack|)
    || (pre' == pre && |stack'| == |stack| && Left(g, stack') < Left(g, stack))
  }

  method Advance(g: Graph, stack: seq<Frame>, n: Numbering, pre: nat, post: nat, ghost parent: seq<nat>)
      returns (stack': seq<Frame>, n': Numbering, pre': nat, post': nat, ghost parent': seq<nat>)
    requires Traversing(g, stack, n, post, parent) && stack != [] && 0 < pre
    requires |n.preorder| == |n.rpost| == |parent| == g.Count() && |n.back| == |g.edges| && n.preorder[ENTRY] != 0
    ensures Traversing(g, stack', n', post', parent') && 0 < pre'
    ensures |n'.preorder| == |n'.rpost| == |parent'| == g.Count() && |n'.back| == |g.edges| && n'.preorder[ENTRY] != 0
    ensures Progress(g, stack, n.preorder, stack', n'.preorder)
  {
    hide Traversing, OnStack, Unvisited, Graph.Valid, Graph.Step, Graph.Reachable;
    stack', n', pre', post', parent' := stack, n, pre, post, parent;
    var last := |stack| - 1;
    var top := stack[last];
    TopTarget(g, stack, n, post, parent);
    if top.next == |g.outgoing[top.block]| {
      PopKeepsTraversing(g, stack, n, post, parent, if last == 0 then 0 else stack[last - 1].block);
      n' := n.(rpost := n.rpost[top.block := post]);
      parent' := parent[top.block := if last == 0 then 0 else stack[last - 1].block];
      post' := post - 1;
      stack' := stack[..last];
      return;
    }
    var id := g.outgoing[top.block][top.next];
    var target := g.edges[id].destination;
    if n.preorder[target] == 0 {
      PushKeepsTraversing(g, stack, n, post, parent, pre);
      VisitShrinks(n.preorder, target, pre);
      stack' := stack[last := Frame(top.block, top.next + 1)] + [Frame(target, 0)];
      n' := n.(preorder := n.preorder[target := pre]);
      pre' := pre + 1;
    } else {
      SkipKeepsTraversing(g, stack, n, post, parent);
      stack' := stack[last := Frame(top.block, top.next + 1)];
      if n.rpost[target] == 0 {
        n' := n.(back := n.back[id := true]);
      } else {
        assert n.back == n.back[id := false];
      }
    }
  }

  method Enumerate(g: Graph) returns (n: Numbering)
    requires g.Valid()
    ensures Numbers(g, n)
  {
    var none := seq<nat>(g.Count(), _ => 0);
    n := Numbering(none[ENTRY := 1], none, seq(|g.edges|, _ => false));
    var stack := [Frame(ENTRY, 0)];
    var pre, post := 2, g.Count();
    ghost var parent: seq<nat> := none;
    StartTraversing(g);
    TraversingSizes(g, stack, n, post, parent);
    hide Traversing, Numbers, OnStack, Unvisited, Graph.Valid, Graph.Step, Graph.Reachable;
    while stack != []
      invariant Traversing(g, stack, n, post, parent) && 0 < pre
      invariant |n.preorder| == |n.rpost| == |parent| == g.Count() && |n.back| == |g.edges| && n.preorder[ENTRY] != 0
      decreases Unvisited(n.preorder), |stack|, Left(g, stack)
    {
      LeftCounts(g, stack, n, post, parent);
      stack, n, pre, post, parent := Advance(g, stack, n, pre, post, parent);
    }
    TraversedNumbers(g, n, post, parent);
  }

  lemma LeftCounts(g: Graph, stack: seq<Frame>, n: Numbering, post: nat, parent: seq<nat>)
    requires Traversing(g, stack, n, post, parent)
    ensures Left(g, stack) >= 0
  {
  }
}
