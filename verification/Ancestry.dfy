/** Trees stored as parent links whose targets have strictly smaller rank: the
    shape of a dominator tree at every moment of the fixpoint iteration. */
module Ancestry {

  /** The mark of a block the traversal never reached. */
  const NONE: int := -1

  ghost predicate IsTree(rank: seq<nat>, parent: seq<int>)
  {
    && 0 < |parent| == |rank|
    && parent[0] == 0
    && (forall b :: 0 <= b < |parent| ==> parent[b] == NONE || 0 <= parent[b] < |parent|)
    && (forall b :: 0 <= b < |parent| && parent[b] != NONE ==> rank[b] != 0 && parent[parent[b]] != NONE)
    && (forall b :: 0 < b < |parent| && parent[b] != NONE ==> rank[parent[b]] < rank[b])
    && (forall a, b :: 0 <= a < b < |rank| && rank[a] != 0 ==> rank[a] != rank[b])
  }

  ghost predicate Present(parent: seq<int>, b: nat)
  {
    b < |parent| && parent[b] != NONE
  }

  /** `x` lies on the chain of parents that starts at `b` and ends at the root. */
  ghost predicate Anc(rank: seq<nat>, parent: seq<int>, x: nat, b: nat)
    requires IsTree(rank, parent) && Present(parent, b)
    decreases rank[b]
  {
    x == b || (b != 0 && Anc(rank, parent, x, parent[b]))
  }

  lemma {:induction false} AncRank(rank: seq<nat>, parent: seq<int>, x: nat, b: nat)
    requires IsTree(rank, parent) && Present(parent, b) && Anc(rank, parent, x, b)
    ensures Present(parent, x)
    ensures rank[x] <= rank[b]
    ensures x != b ==> rank[x] < rank[b]
    decreases rank[b]
  {
    if x != b {
      AncRank(rank, parent, x, parent[b]);
    }
  }

  lemma {:induction false} AncTrans(rank: seq<nat>, parent: seq<int>, x: nat, y: nat, b: nat)
    requires IsTree(rank, parent) && Present(parent, b) && Present(parent, y)
    requires Anc(rank, parent, x, y) && Anc(rank, parent, y, b)
    ensures Anc(rank, parent, x, b)
    decreases rank[b]
  {
    if y != b {
      AncTrans(rank, parent, x, y, parent[b]);
    }
  }

  /** Two ancestors of one block are comparable. */
  lemma {:induction false} AncChain(rank: seq<nat>, parent: seq<int>, x: nat, y: nat, b: nat)
    requires IsTree(rank, parent) && Present(parent, b) && Present(parent, y)
    requires Anc(rank, parent, x, b) && Anc(rank, parent, y, b)
    requires Present(parent, x) && rank[x] <= rank[y]
    ensures Anc(rank, parent, x, y)
    decreases rank[b]
  {
    if x == b {
      AncRank(rank, parent, y, b);
    } else if y != b {
      AncChain(rank, parent, x, y, parent[b]);
    }
  }

  lemma {:induction false} AncRoot(rank: seq<nat>, parent: seq<int>, b: nat)
    requires IsTree(rank, parent) && Present(parent, b)
    ensures Anc(rank, parent, 0, b)
    decreases rank[b]
  {
    if b != 0 {
      AncRoot(rank, parent, parent[b]);
    }
  }

  // ----- one parent link changes -----

  ghost predicate CanLink(rank: seq<nat>, parent: seq<int>, b: nat, z: nat)
  {
    && IsTree(rank, parent)
    && 0 < b < |parent|
    && rank[b] != 0
    && Present(parent, z)
    && rank[z] < rank[b]
  }

  lemma LinkIsTree(rank: seq<nat>, parent: seq<int>, b: nat, z: nat)
    requires CanLink(rank, parent, b, z)
    ensures IsTree(rank, parent[b := z])
    ensures forall c: nat :: Present(parent, c) || c == b <==> Present(parent[b := z], c)
  {
    var parent' := parent[b := z];
    forall c: nat
      ensures Present(parent, c) || c == b <==> Present(parent', c)
    {
    }
    forall c | 0 <= c < |parent'| && parent'[c] != NONE
      ensures rank[c] != 0 && parent'[parent'[c]] != NONE && (0 < c ==> rank[parent'[c]] < rank[c])
    {
      assert c != b ==> parent'[c] == parent[c] && parent[parent[c]] != NONE;
    }
  }

  /** Chains that do not meet `b` are as before. */
  lemma {:induction false} AncAside(rank: seq<nat>, parent: seq<int>, b: nat, z: nat, x: nat, c: nat)
    requires CanLink(rank, parent, b, z) && IsTree(rank, parent[b := z])
    requires Present(parent, c) && !Anc(rank, parent, b, c)
    ensures Present(parent[b := z], c)
    ensures Anc(rank, parent[b := z], x, c) <==> Anc(rank, parent, x, c)
    decreases rank[c]
  {
    if c != 0 {
      AncAside(rank, parent, b, z, x, parent[c]);
    }
  }

  lemma AncLower(rank: seq<nat>, parent: seq<int>, b: nat, z: nat, x: nat, c: nat)
    requires CanLink(rank, parent, b, z) && IsTree(rank, parent[b := z])
    requires Present(parent, c) && rank[c] < rank[b]
    ensures Present(parent[b := z], c)
    ensures Anc(rank, parent[b := z], x, c) <==> Anc(rank, parent, x, c)
  {
    if Anc(rank, parent, b, c) {
      AncRank(rank, parent, b, c);
    }
    AncAside(rank, parent, b, z, x, c);
  }

  /** A chain through `b` keeps its part down from `b` and continues at `z`. */
  lemma {:induction false} AncThrough(rank: seq<nat>, parent: seq<int>, b: nat, z: nat, x: nat, c: nat)
    requires CanLink(rank, parent, b, z) && IsTree(rank, parent[b := z])
    requires Present(parent, c) && Anc(rank, parent, b, c)
    ensures Present(parent[b := z], c)
    ensures x < |rank| && rank[x] >= rank[b] ==> (Anc(rank, parent[b := z], x, c) <==> Anc(rank, parent, x, c))
    ensures x < |rank| && rank[x] < rank[b] ==> (Anc(rank, parent[b := z], x, c) <==> Anc(rank, parent, x, z))
    decreases rank[c]
  {
    if c != b {
      AncThrough(rank, parent, b, z, x, parent[c]);
      if x == c {
        AncRank(rank, parent, b, c);
      }
    } else {
      AncLower(rank, parent, b, z, x, z);
      if Anc(rank, parent, x, z) {
        AncRank(rank, parent, x, z);
      }
      if x < |rank| && rank[x] >= rank[b] && x != b && Anc(rank, parent, x, b) {
        AncRank(rank, parent, x, b);
      }
    }
  }

  lemma AncAt(rank: seq<nat>, parent: seq<int>, b: nat, z: nat, x: nat)
    requires CanLink(rank, parent, b, z) && IsTree(rank, parent[b := z])
    ensures Anc(rank, parent[b := z], x, b) <==> x == b || Anc(rank, parent, x, z)
  {
    AncLower(rank, parent, b, z, x, z);
  }

  /** Moving `b` up its own chain only removes ancestors. */
  lemma AncShrinks(rank: seq<nat>, parent: seq<int>, b: nat, z: nat, x: nat, c: nat)
    requires CanLink(rank, parent, b, z) && IsTree(rank, parent[b := z])
    requires Present(parent, b) ==> Anc(rank, parent, z, parent[b])
    requires Present(parent, c) && Anc(rank, parent[b := z], x, c)
    ensures Anc(rank, parent, x, c)
  {
    if Anc(rank, parent, b, c) {
      AncRank(rank, parent[b := z], x, c);
      AncThrough(rank, parent, b, z, x, c);
      AncRank(rank, parent, b, c);
      if rank[x] < rank[b] {
        AncTrans(rank, parent, x, z, parent[b]);
        AncTrans(rank, parent, x, b, c);
      }
    } else {
      AncAside(rank, parent, b, z, x, c);
    }
  }
}
