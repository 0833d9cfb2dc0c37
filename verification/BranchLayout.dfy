/** Two-pass x86 layout: conservative offsets first, then emission that picks short
    branches by them, then displacement fixups. */
module BranchLayout {
  import opened Optional

  /** One encoding of a branch: the recipe's conservative size, the bytes emitted, and
      where the field's displacement counts from. */
  datatype Encoding = Encoding(maximum: nat, size: nat, next: nat)
  {
    ghost predicate Valid()
    {
      2 <= next <= size <= maximum
    }
  }


  datatype Item =
    | Label(name: nat, aligned: bool)
    | Code(maximum: nat, size: nat)
    | Branch(target: nat, short: Option<Encoding>, long: Encoding)
    | Switch(maximum: nat, size: nat, targets: nat)

  type Body = seq<Item>

  const INT32_MAX: nat := 0x7fff_ffff

  /** Encodings keep within their recipes, short recipes within the long ones, and
      every branch has its label. */
  ghost predicate Encodable(body: Body)
  {
    && (forall k :: 0 <= k < |body| ==> ItemOk(body[k]))
    && (forall j, k :: 0 <= j < k < |body| && body[j].Label? && body[k].Label? ==> body[j].name != body[k].name)
    && (forall k :: 0 <= k < |body| && body[k].Branch? ==> Defined(body, body[k].target))
  }

  ghost predicate ItemOk(item: Item)
  {
    match item
    case Label(_, _) => true
    case Code(maximum, size) => size <= maximum
    case Branch(_, short, long) =>
      long.Valid() && (short.Some? ==> short.value.Valid() && short.value.maximum <= long.maximum && short.value.maximum <= 128)
    case Switch(maximum, size, _) => size <= maximum
  }

  ghost predicate Defined(body: Body, name: nat)
  {
    exists k :: 0 <= k < |body| && body[k].Label? && body[k].name == name
  }

  /** The first pass has no room of its own for the bytes that align a switch table;
      the recipe's conservative size must leave it. No body with a switch of this encoder
      has that room, so it holds of the bodies without switches. */
  ghost predicate RoomForTables(body: Body)
  {
    forall k :: 0 <= k < |body| && body[k].Switch? ==> body[k].size + 7 <= body[k].maximum
  }

  // ----- conservative offsets -----

  function ItemEstimate(item: Item): nat
  {
    match item
    case Label(_, aligned) => if aligned then 8 else 0
    case Code(maximum, _) => maximum
    case Branch(_, _, long) => long.maximum
    case Switch(maximum, _, targets) => maximum + 8 * targets
  }

  function EstimateAt(body: Body, k: nat): nat
    requires k <= |body|
  {
    if k == 0 then 0 else EstimateAt(body, k - 1) + ItemEstimate(body[k - 1])
  }

  function EstimatedOffsets(body: Body, k: nat): map<nat, nat>
    requires k <= |body|
  {
    if k == 0 then map[]
    else if body[k - 1].Label? then EstimatedOffsets(body, k - 1)[body[k - 1].name := EstimateAt(body, k)]
    else EstimatedOffsets(body, k - 1)
  }

  // ----- emission -----

  /** Whether a branch may be short: `distance` is from the branch's first byte to the
      known or estimated label. */
  predicate ShortBranch(distance: int, maximum: nat)
  {
    if distance < 0 then maximum <= 123 && distance >= -124 + maximum else distance <= 129
  }

  function Selected(item: Item, distance: int): (Encoding, bool)
    requires item.Branch?
  {
    if item.short.Some? && ShortBranch(distance, item.short.value.maximum) then (item.short.value, true)
    else (item.long, false)
  }

  datatype Fixup = Fixup(target: nat, next: nat, short: bool)

  datatype Emission = Emission(position: nat, offsets: map<nat, nat>, fixups: seq<Fixup>)

  function AlignUp(n: nat): (r: nat)
    ensures n <= r <= n + 7 && r % 8 == 0
  {
    n + (8 - n % 8) % 8
  }

  function Step(e: Emission, item: Item): Emission
  {
    match item
    case Label(name, aligned) =>
      var at := if aligned then AlignUp(e.position) else e.position;
      Emission(at, e.offsets[name := at], e.fixups)
    case Code(_, size) => e.(position := e.position + size)
    case Branch(target, _, _) =>
      var known := if target in e.offsets then e.offsets[target] else 0;
      var (encoding, short) := Selected(item, known - e.position);
      Emission(e.position + encoding.size, e.offsets, e.fixups + [Fixup(target, e.position + encoding.next, short)])
    case Switch(_, size, targets) => e.(position := AlignUp(e.position + size) + 8 * targets)
  }

  function Emit(body: Body, k: nat): Emission
    requires k <= |body|
  {
    if k == 0 then Emission(0, EstimatedOffsets(body, |body|), []) else Step(Emit(body, k - 1), body[k - 1])
  }

  function Displacement(e: Emission, f: Fixup): int
  {
    (if f.target in e.offsets then e.offsets[f.target] else 0) - f.next
  }

  predicate Fits(e: Emission, f: Fixup)
  {
    var d := Displacement(e, f);
    if f.short then -128 <= d <= 127 else 0 <= d + INT32_MAX + 1 && d <= INT32_MAX
  }

  // ----- a layout, said without emission -----

  ghost function BranchesBefore(body: Body, k: nat): nat
    requires k <= |body|
  {
    if k == 0 then 0 else BranchesBefore(body, k - 1) + if body[k - 1].Branch? then 1 else 0
  }

  /** Each item ends where its bytes and padding end, the next one starts there, and each
      branch has the fixup of its own number, inside its bytes. */
  ghost predicate ItemLaid(body: Body, k: nat, starts: seq<nat>, fixups: seq<Fixup>)
    requires k < |body| && |starts| == |body| + 1
  {
    match body[k]
    case Label(_, aligned) =>
      if aligned then starts[k] <= starts[k + 1] < starts[k] + 8 && starts[k + 1] % 8 == 0 else starts[k + 1] == starts[k]
    case Code(_, size) => starts[k + 1] == starts[k] + size
    case Branch(target, short, long) =>
      var n := BranchesBefore(body, k);
      && n < |fixups| && fixups[n].target == target && (fixups[n].short ==> short.Some?)
      && var e := if fixups[n].short then short.value else long;
         starts[k] + e.size == starts[k + 1] && fixups[n].next == starts[k] + e.next <= starts[k + 1]
    case Switch(_, size, targets) =>
      var table := starts[k + 1] - 8 * targets;
      starts[k] + size <= table < starts[k] + size + 8 && table % 8 == 0
  }

  /** Branch `k` is short exactly when its label, at place `t`, is near: behind it where
      the label is, with room for the branch, or ahead by the estimate. */
  ghost predicate ShortWhenNear(body: Body, k: nat, t: nat, starts: seq<nat>, fixups: seq<Fixup>)
    requires k < |body| && t < |body| && |starts| == |body| + 1 && LabelOf(body, k, t)
  {
    var place := if t < k then starts[t + 1] else EstimateAt(body, t + 1);
    && BranchesBefore(body, k) < |fixups|
    && (fixups[BranchesBefore(body, k)].short <==>
        && body[k].short.Some?
        && (if place < starts[k] then starts[k] - place + body[k].short.value.maximum <= 124 else place - starts[k] <= 129))
  }

  ghost predicate LabelOf(body: Body, k: nat, t: nat)
    requires k < |body| && t < |body|
  {
    body[k].Branch? && body[t].Label? && body[t].name == body[k].target
  }

  /** The whole layout: every item follows the one before it, the fixups are those of the
      branches in order, and each branch is short exactly when its label is near. */
  ghost predicate Laid(body: Body, starts: seq<nat>, fixups: seq<Fixup>)
  {
    && |starts| == |body| + 1 && starts[0] == 0 && |fixups| == BranchesBefore(body, |body|)
    && (forall k: nat :: k < |body| ==> ItemLaid(body, k, starts, fixups))
    && (forall k: nat, t: nat :: k < |body| && t < |body| && LabelOf(body, k, t) ==> ShortWhenNear(body, k, t, starts, fixups))
  }

  /** Every branch's displacement leads from the end of its field to its label, and fits a
      signed byte or double word. */
  ghost predicate Resolved(body: Body, starts: seq<nat>, fixups: seq<Fixup>, displacements: seq<int>)
    requires Laid(body, starts, fixups)
  {
    && |displacements| == |fixups|
    && (forall n: nat :: n < |fixups| ==>
          if fixups[n].short then -0x80 <= displacements[n] < 0x80 else -0x8000_0000 <= displacements[n] < 0x8000_0000)
    && forall k: nat, t: nat :: k < |body| && t < |body| && LabelOf(body, k, t) ==>
         var n := BranchesBefore(body, k);
         n < |fixups| && fixups[n].next + displacements[n] == starts[t + 1]
  }

  ghost function Starts(body: Body): seq<nat>
  {
    seq(|body| + 1, k requires 0 <= k <= |body| => Emit(body, k).position)
  }

  lemma {:induction false} FixupsInOrder(body: Body, j: nat, k: nat)
    requires j <= k <= |body|
    ensures |Emit(body, j).fixups| == BranchesBefore(body, j)
    ensures Emit(body, j).fixups <= Emit(body, k).fixups
    decreases k
  {
    if j < k {
      FixupsInOrder(body, j, k - 1);
    } else if k > 0 {
      FixupsInOrder(body, k - 1, k - 1);
    }
  }

  lemma FixupOfBranch(body: Body, k: nat)
    requires k < |body| && body[k].Branch?
    ensures var fixups := Emit(body, |body|).fixups;
            var e := Emit(body, k);
            var known := if body[k].target in e.offsets then e.offsets[body[k].target] else 0;
            var (encoding, short) := Selected(body[k], known - e.position);
            && BranchesBefore(body, k) < |fixups|
            && fixups[BranchesBefore(body, k)] == Fixup(body[k].target, e.position + encoding.next, short)
            && Emit(body, k + 1).position == e.position + encoding.size
  {
    FixupsInOrder(body, k, k);
    FixupsInOrder(body, k + 1, |body|);
    hide BranchesBefore, EstimatedOffsets, Selected;
    var after := Emit(body, k + 1);
    assert after == Step(Emit(body, k), body[k]);
    assert Emit(body, |body|).fixups[|Emit(body, k).fixups|] == after.fixups[|Emit(body, k).fixups|];
  }

  lemma OtherIsLaid(body: Body, k: nat, starts: seq<nat>, fixups: seq<Fixup>, e: Emission)
    requires k < |body| && |starts| == |body| + 1 && !body[k].Branch?
    requires starts[k] == e.position && starts[k + 1] == Step(e, body[k]).position
    ensures ItemLaid(body, k, starts, fixups)
  {
    hide AlignUp;
  }

  lemma BranchIsLaid(body: Body, k: nat, starts: seq<nat>, fixups: seq<Fixup>, distance: int)
    requires k < |body| && |starts| == |body| + 1 && body[k].Branch? && ItemOk(body[k]) && BranchesBefore(body, k) < |fixups|
    requires var (encoding, short) := Selected(body[k], distance);
             && fixups[BranchesBefore(body, k)] == Fixup(body[k].target, starts[k] + encoding.next, short)
             && starts[k + 1] == starts[k] + encoding.size
    ensures ItemLaid(body, k, starts, fixups)
  {
    hide BranchesBefore, ShortBranch;
  }

  lemma ItemIsLaid(body: Body, k: nat)
    requires k < |body| && ItemOk(body[k])
    ensures ItemLaid(body, k, Starts(body), Emit(body, |body|).fixups)
  {
    hide BranchesBefore, Emit, Step, Selected, ItemLaid, ItemOk;
    var starts, e := Starts(body), Emit(body, k);
    EmitStep(body, k);
    assert starts[k] == e.position && starts[k + 1] == Emit(body, k + 1).position;
    if body[k].Branch? {
      FixupOfBranch(body, k);
      var known := if body[k].target in e.offsets then e.offsets[body[k].target] else 0;
      BranchIsLaid(body, k, starts, Emit(body, |body|).fixups, known - e.position);
    } else {
      OtherIsLaid(body, k, starts, Emit(body, |body|).fixups, e);
    }
  }

  lemma EmitStep(body: Body, k: nat)
    requires k < |body|
    ensures Emit(body, k + 1) == Step(Emit(body, k), body[k])
  {
    hide Step, EstimatedOffsets;
  }

  lemma ShortIsNear(body: Body, k: nat, t: nat)
    requires Encodable(body) && k < |body| && t < |body| && LabelOf(body, k, t)
    ensures ShortWhenNear(body, k, t, Starts(body), Emit(body, |body|).fixups)
  {
    hide Encodable, Emit, Step, EstimateAt, EstimatedOffsets, BranchesBefore;
    LabelOffset(body, k, t);
    FixupOfBranch(body, k);
  }

  /** Emission lays every body out as described. */
  lemma LaidOut(body: Body)
    requires Encodable(body)
    ensures Laid(body, Starts(body), Emit(body, |body|).fixups)
  {
    hide ShortWhenNear, LabelOf;
    FixupsInOrder(body, |body|, |body|);
    forall k: nat | k < |body| ensures ItemLaid(body, k, Starts(body), Emit(body, |body|).fixups) {
      ItemIsLaid(body, k);
    }
    hide ItemLaid, Emit;
    forall k: nat, t: nat | k < |body| && t < |body| && LabelOf(body, k, t)
      ensures ShortWhenNear(body, k, t, Starts(body), Emit(body, |body|).fixups)
    {
      ShortIsNear(body, k, t);
    }
  }

  lemma IsResolved(body: Body, displacements: seq<int>)
    requires Encodable(body) && Laid(body, Starts(body), Emit(body, |body|).fixups)
    requires var e := Emit(body, |body|);
             |displacements| == |e.fixups| &&
             forall n :: 0 <= n < |e.fixups| ==> displacements[n] == Displacement(e, e.fixups[n]) && Fits(e, e.fixups[n])
    ensures Resolved(body, Starts(body), Emit(body, |body|).fixups, displacements)
  {
    hide Emit, Encodable, ShortWhenNear;
    var e := Emit(body, |body|);
    forall k: nat, t: nat | k < |body| && t < |body| && LabelOf(body, k, t)
      ensures var n := BranchesBefore(body, k);
              n < |e.fixups| && e.fixups[n].next + displacements[n] == Starts(body)[t + 1]
    {
      var n := BranchesBefore(body, k);
      assert ItemLaid(body, k, Starts(body), e.fixups);
      assert e.fixups[n] in e.fixups;
      BranchesLand(body, e.fixups[n], t);
    }
  }

  // ----- the engine -----

  class Engine {
    var position: nat
    var offsets: map<nat, nat>
    var fixups: seq<Fixup>

    function State(): Emission
      reads this
    {
      Emission(position, offsets, fixups)
    }

    constructor ()
      ensures State() == Emission(0, map[], [])
    {
      position, offsets, fixups := 0, map[], [];
    }

    /** First pass; the total is an error when it exceeds what a displacement spans. */
    method Estimate(body: Body) returns (ok: bool)
      modifies this
      requires State() == Emission(0, map[], [])
      ensures ok <==> forall k :: 0 <= k <= |body| ==> EstimateAt(body, k) <= INT32_MAX
      ensures ok ==> State() == Emit(body, 0)
    {
      var estimate := 0;
      for k := 0 to |body|
        invariant estimate == EstimateAt(body, k) <= INT32_MAX
        invariant forall j :: 0 <= j <= k ==> EstimateAt(body, j) <= INT32_MAX
        invariant State() == Emission(0, EstimatedOffsets(body, k), [])
      {
        estimate := estimate + ItemEstimate(body[k]);
        assert estimate == EstimateAt(body, k + 1);
        if estimate > INT32_MAX {
          return false;
        }
        if body[k].Label? {
          offsets := offsets[body[k].name := estimate];
        }
      }
      ok := true;
    }

    method Align()
      modifies this`position
      ensures position == AlignUp(old(position))
    {
      while position % 8 != 0
        invariant old(position) <= position <= AlignUp(old(position))
        decreases AlignUp(old(position)) - position
      {
        position := position + 1;
      }
    }

    method EmitItem(item: Item)
      modifies this
      requires item.Branch? ==> item.target in offsets
      ensures State() == Step(old(State()), item)
    {
      match item
      case Label(name, aligned) =>
        if aligned {
          Align();
        }
        offsets := offsets[name := position];
      case Code(_, size) =>
        position := position + size;
      case Branch(target, _, _) =>
        var (encoding, short) := Selected(item, offsets[target] - position);
        fixups := fixups + [Fixup(target, position + encoding.next, short)];
        position := position + encoding.size;
      case Switch(_, size, targets) =>
        position := position + size;
        Align();
        position := position + 8 * targets;
    }

    /** Lay the body out and resolve its branches, one fixup for each of them; fails only
        when a displacement does not fit its field. */
    method Run(body: Body) returns (ok: bool, displacements: seq<int>, ghost starts: seq<nat>)
      modifies this
      requires Encodable(body) && State() == Emission(0, map[], [])
      ensures ok ==> State() == Emit(body, |body|) && |displacements| == |fixups|
      ensures ok ==> forall n :: 0 <= n < |fixups| ==> displacements[n] == Displacement(State(), fixups[n]) && Fits(State(), fixups[n])
      ensures ok ==> Laid(body, starts, fixups) && Resolved(body, starts, fixups, displacements)
      ensures RoomForTables(body) ==> (ok <==> EstimateAt(body, |body|) <= INT32_MAX)
      ensures !ok ==> EstimateAt(body, |body|) > INT32_MAX || exists f :: f in Emit(body, |body|).fixups && !Fits(Emit(body, |body|), f)
    {
      displacements, starts := [], Starts(body);
      ok := Estimate(body);
      if !ok {
        EstimateGrows(body);
        return;
      }
      for k := 0 to |body|
        invariant State() == Emit(body, k)
      {
        OffsetsKnown(body, k);
        EmitItem(body[k]);
      }
      for n := 0 to |fixups|
        invariant State() == Emit(body, |body|) && |displacements| == n
        invariant forall m :: 0 <= m < n ==> displacements[m] == Displacement(State(), fixups[m]) && Fits(State(), fixups[m])
      {
        OffsetsKnown(body, |body|);
        var d := Displacement(State(), fixups[n]);
        if !Fits(State(), fixups[n]) {
          if RoomForTables(body) && EstimateAt(body, |body|) <= INT32_MAX {
            AllFit(body, fixups[n]);
          }
          return false, [], starts;
        }
        displacements := displacements + [d];
      }
      LaidOut(body);
      IsResolved(body, displacements);
    }
  }

  lemma {:induction false} EstimateBelow(body: Body, j: nat, k: nat)
    requires j <= k <= |body|
    ensures EstimateAt(body, j) <= EstimateAt(body, k)
    decreases k
  {
    if j < k {
      EstimateBelow(body, j, k - 1);
    }
  }

  lemma EstimateGrows(body: Body)
    requires exists k :: 0 <= k <= |body| && EstimateAt(body, k) > INT32_MAX
    ensures EstimateAt(body, |body|) > INT32_MAX
  {
    var k :| 0 <= k <= |body| && EstimateAt(body, k) > INT32_MAX;
    EstimateBelow(body, k, |body|);
  }

  lemma {:induction false} EstimatedLabels(body: Body, k: nat, j: nat)
    requires Encodable(body) && j < k <= |body| && body[j].Label?
    ensures body[j].name in EstimatedOffsets(body, k) && EstimatedOffsets(body, k)[body[j].name] == EstimateAt(body, j + 1)
    decreases k
  {
    if j < k - 1 {
      EstimatedLabels(body, k - 1, j);
    }
  }

  /** A label's offset is estimated until the label is emitted, and exact then. */
  lemma {:induction false} LabelOffset(body: Body, k: nat, j: nat)
    requires Encodable(body) && k <= |body| && j < |body| && body[j].Label?
    ensures body[j].name in Emit(body, k).offsets
    ensures Emit(body, k).offsets[body[j].name] == if j < k then Emit(body, j + 1).position else EstimateAt(body, j + 1)
    decreases k
  {
    if k == 0 {
      EstimatedLabels(body, |body|, j);
    } else {
      LabelOffset(body, k - 1, j);
    }
  }

  lemma OffsetsKnown(body: Body, k: nat)
    requires Encodable(body) && k <= |body|
    ensures forall j :: 0 <= j < |body| && body[j].Branch? ==> body[j].target in Emit(body, k).offsets
  {
    forall j | 0 <= j < |body| && body[j].Branch?
      ensures body[j].target in Emit(body, k).offsets
    {
      var t :| 0 <= t < |body| && body[t].Label? && body[t].name == body[j].target;
      LabelOffset(body, k, t);
    }
  }

  // ----- soundness -----

  /** Nothing is emitted beyond its estimate. */
  lemma {:induction false} WithinEstimate(body: Body, k: nat)
    requires Encodable(body) && RoomForTables(body) && k <= |body|
    ensures Emit(body, k).position <= EstimateAt(body, k)
    decreases k
  {
    if k > 0 {
      WithinEstimate(body, k - 1);
      assert ItemOk(body[k - 1]);
    }
  }

  lemma {:induction false} PositionsGrow(body: Body, j: nat, k: nat)
    requires j <= k <= |body|
    ensures Emit(body, j).position <= Emit(body, k).position
    decreases k
  {
    if j < k {
      PositionsGrow(body, j, k - 1);
    }
  }

  /** Each fixup comes from a branch. */
  ghost predicate FromBranch(body: Body, k: nat, f: Fixup)
    requires k < |body|
  {
    && body[k].Branch? && f.target == body[k].target
    && f in Step(Emit(body, k), body[k]).fixups
    && var known := if f.target in Emit(body, k).offsets then Emit(body, k).offsets[f.target] else 0;
       var (encoding, short) := Selected(body[k], known - Emit(body, k).position);
       f.next == Emit(body, k).position + encoding.next && f.short == short
  }

  lemma {:induction false} FixupOrigin(body: Body, k: nat, f: Fixup) returns (b: nat)
    requires k <= |body| && f in Emit(body, k).fixups
    ensures b < k && FromBranch(body, b, f)
    decreases k
  {
    if k > 0 && f in Emit(body, k - 1).fixups {
      b := FixupOrigin(body, k - 1, f);
    } else {
      b := k - 1;
    }
  }

  /** What a chosen short branch was chosen by. */
  lemma ShortChoice(body: Body, b: nat, f: Fixup)
    requires Encodable(body) && b < |body| && FromBranch(body, b, f) && f.short
    ensures body[b].Branch? && body[b].short.Some?
    ensures var e := body[b].short.value;
            && 2 <= e.next <= e.size <= e.maximum <= 128
            && f.next == Emit(body, b).position + e.next
            && Emit(body, b + 1).position == Emit(body, b).position + e.size
            && (f.target in Emit(body, b).offsets ==>
                  ShortBranch(Emit(body, b).offsets[f.target] - Emit(body, b).position, e.maximum))
  {
    assert ItemOk(body[b]);
  }

  /** A chosen short branch reaches its label. */
  lemma ShortReaches(body: Body, b: nat, t: nat, f: Fixup)
    requires Encodable(body) && RoomForTables(body) && b < |body| && FromBranch(body, b, f)
    requires t < |body| && body[t].Label? && body[t].name == f.target
    ensures f.short ==> -128 <= Emit(body, t + 1).position - f.next <= 127
  {
    hide Emit, EstimateAt, Encodable, RoomForTables, ShortBranch;
    if f.short {
      ShortChoice(body, b, f);
      LabelOffset(body, b, t);
      assert b != t;
      if t < b {
        PositionsGrow(body, t + 1, b);
        BackwardReaches(Emit(body, t + 1).position, Emit(body, b).position, body[b].short.value);
      } else {
        WithinEstimate(body, t + 1);
        PositionsGrow(body, b + 1, t + 1);
        ForwardReaches(EstimateAt(body, t + 1), Emit(body, b).position, body[b].short.value);
      }
    }
  }

  lemma BackwardReaches(target: nat, position: nat, e: Encoding)
    requires e.Valid() && e.maximum <= 128 && target <= position && ShortBranch(target - position, e.maximum)
    ensures -128 <= target - (position + e.next) <= 127
  {
  }

  lemma ForwardReaches(estimate: nat, position: nat, e: Encoding)
    requires e.Valid() && position <= estimate && ShortBranch(estimate - position, e.maximum)
    ensures estimate - (position + e.next) <= 127
  {
  }

  /** With room for the tables' padding every displacement fits its field, so laying a body out
      fails only when its estimate is too large. */
  lemma AllFit(body: Body, f: Fixup)
    requires Encodable(body) && RoomForTables(body) && EstimateAt(body, |body|) <= INT32_MAX
    requires f in Emit(body, |body|).fixups
    ensures Fits(Emit(body, |body|), f)
  {
    var b := FixupOrigin(body, |body|, f);
    assert ItemOk(body[b]);
    var t :| 0 <= t < |body| && body[t].Label? && body[t].name == f.target;
    FixupEnds(body, b, f);
    hide Emit, EstimateAt, Encodable, RoomForTables, FromBranch;
    LabelOffset(body, |body|, t);
    ShortReaches(body, b, t, f);
    WithinEstimate(body, t + 1);
    EstimateBelow(body, t + 1, |body|);
    WithinEstimate(body, b + 1);
    EstimateBelow(body, b + 1, |body|);
  }

  lemma FixupEnds(body: Body, b: nat, f: Fixup)
    requires b < |body| && FromBranch(body, b, f) && ItemOk(body[b])
    ensures f.next <= Emit(body, b + 1).position
  {
  }

  /** A fitting displacement leads from the end of the field to the label's place. */
  lemma BranchesLand(body: Body, f: Fixup, t: nat)
    requires Encodable(body) && f in Emit(body, |body|).fixups
    requires t < |body| && body[t].Label? && body[t].name == f.target
    ensures f.next + Displacement(Emit(body, |body|), f) == Emit(body, t + 1).position
  {
    LabelOffset(body, |body|, t);
  }

  // ----- switch tables -----

  /** The one switch recipe (`X86Patterns.def`): the address of the table and the jump
      through it take 11 bytes, planned as 12. */
  const SWITCH_MAXIMUM: nat := 12
  const SWITCH_SIZE: nat := 11

  /** A short branch over that switch. */
  const TABLE_BODY: Body :=
    [Code(4, 4), Branch(0, Some(Encoding(2, 2, 2)), Encoding(6, 6, 6)), Switch(SWITCH_MAXIMUM, SWITCH_SIZE, 10), Code(31, 31),
     Label(0, false)]

  /** Without room for its padding a table carries the label past the estimate, and the
      branch chosen as short misses its field. */
  lemma TablePaddingOverflows()
    ensures Encodable(TABLE_BODY) && EstimateAt(TABLE_BODY, |TABLE_BODY|) <= INT32_MAX
    ensures exists f :: f in Emit(TABLE_BODY, |TABLE_BODY|).fixups && f.short && !Fits(Emit(TABLE_BODY, |TABLE_BODY|), f)
  {
    var body := TABLE_BODY;
    assert body[4] == Label(0, false);
    assert EstimateAt(body, 1) == 4;
    assert EstimateAt(body, 2) == 10;
    assert EstimateAt(body, 3) == 102;
    assert EstimateAt(body, 4) == 133;
    assert EstimateAt(body, 5) == 133;
    LabelOffset(body, 1, 4);
    var e1 := Emit(body, 1);
    assert e1.position == 4 && e1.offsets[0] == 133 && e1.fixups == [];
    var e2 := Emit(body, 2);
    var f := Fixup(0, 6, true);
    assert e2.position == 6 && e2.fixups == [f];
    var e3 := Emit(body, 3);
    assert e3.position == 104 && e3.fixups == [f];
    var e4 := Emit(body, 4);
    assert e4.position == 135 && e4.fixups == [f];
    var e5 := Emit(body, 5);
    assert e5.offsets[0] == 135 && f in e5.fixups;
    assert Displacement(e5, f) == 129;
  }

  ghost predicate AllReach(body: Body)
  {
    forall f :: f in Emit(body, |body|).fixups ==> Fits(Emit(body, |body|), f)
  }

  /** One switch recipe and one pair of branch encodings throughout. */
  ghost predicate Uses(body: Body, maximum: nat, size: nat, short: Encoding, long: Encoding)
  {
    forall k :: 0 <= k < |body| ==>
      && (body[k].Switch? ==> body[k].maximum == maximum && body[k].size == size)
      && (body[k].Branch? ==> body[k].short == Some(short) && body[k].long == long)
  }

  /** A switch recipe is safe in every body just when its conservative size leaves room
      for the longest padding, however large the branches are planned. */
  lemma TableRoomExact(maximum: nat, size: nat, short: Encoding, long: Encoding)
    requires ItemOk(Switch(maximum, size, 1)) && ItemOk(Branch(0, Some(short), long)) && maximum <= 255 && long.maximum <= 255
    ensures size + 7 <= maximum <==>
            forall body :: Encodable(body) && Uses(body, maximum, size, short, long) && EstimateAt(body, |body|) <= INT32_MAX ==>
              AllReach(body)
  {
    hide Encodable, EstimateAt, Fits;
    if size + 7 <= maximum {
      forall body | Encodable(body) && Uses(body, maximum, size, short, long) && EstimateAt(body, |body|) <= INT32_MAX
        ensures AllReach(body)
      {
        forall f | f in Emit(body, |body|).fixups
          ensures Fits(Emit(body, |body|), f)
        {
          AllFit(body, f);
        }
      }
    } else {
      var body := ManyTablesMiss(maximum, size, short, long);
    }
  }

  /** The switches of this encoder are not safe. */
  lemma SwitchesUnsafe(short: Encoding, long: Encoding)
    requires ItemOk(Branch(0, Some(short), long)) && long.maximum <= 255
    ensures exists body :: Encodable(body) && Uses(body, SWITCH_MAXIMUM, SWITCH_SIZE, short, long)
              && EstimateAt(body, |body|) <= INT32_MAX && !AllReach(body)
  {
    TableRoomExact(SWITCH_MAXIMUM, SWITCH_SIZE, short, long);
  }

  /** Code in front of each switch that makes its padding the longest. */
  function Lead(size: nat): (c: nat)
    ensures c < 8 && (c + size) % 8 == 1
  {
    (9 - size % 8) % 8
  }

  function Table(maximum: nat, size: nat, k: nat): Item
  {
    if k % 2 == 0 then Code(Lead(size), Lead(size)) else Switch(maximum, size, 1)
  }

  /** As many switches as a branch is planned bytes, then a branch over `distance` bytes,
      planned with what the deficit of the tables leaves over. */
  function ManyTables(maximum: nat, size: nat, short: Encoding, long: Encoding, spare: nat, distance: nat): Body
  {
    seq(2 * long.maximum, k requires 0 <= k => Table(maximum, size, k))
    + [Branch(0, Some(short), long), Code(distance + spare, distance), Label(0, false)]
  }

  ghost predicate StartsWithTables(body: Body, maximum: nat, size: nat, tables: nat)
  {
    2 * tables <= |body| && forall k :: 0 <= k < 2 * tables ==> body[k] == Table(maximum, size, k)
  }

  function Product(n: nat, m: nat): (p: nat)
    ensures m % 8 == 0 ==> p % 8 == 0
    decreases n
  {
    if n == 0 then 0 else Product(n - 1, m) + m
  }

  lemma {:induction false} AfterTables(body: Body, maximum: nat, size: nat, tables: nat)
    requires StartsWithTables(body, maximum, size, tables)
    ensures Emit(body, 2 * tables).position == Product(tables, Lead(size) + size + 15) && Emit(body, 2 * tables).fixups == []
    ensures EstimateAt(body, 2 * tables) == Product(tables, Lead(size) + maximum + 8)
    decreases tables
  {
    hide Step, Lead, Table, Product, Emit, EstimateAt, ItemEstimate;
    if tables == 0 {
      NoItems(body, Lead(size) + size + 15);
      NoItems(body, Lead(size) + maximum + 8);
    } else {
      AfterTables(body, maximum, size, tables - 1);
      var at := 2 * (tables - 1);
      TwoItems(body, at);
      TableItems(maximum, size, at);
      OneTable(Emit(body, at), Lead(size), maximum, size);
      ProductStep(tables, Lead(size) + size + 15);
      ProductStep(tables, Lead(size) + maximum + 8);
    }
  }

  lemma NoItems(body: Body, m: nat)
    ensures Emit(body, 0).position == EstimateAt(body, 0) == Product(0, m) == 0 && Emit(body, 0).fixups == []
  {
  }

  lemma TableItems(maximum: nat, size: nat, at: nat)
    requires at % 2 == 0
    ensures Table(maximum, size, at) == Code(Lead(size), Lead(size)) && Table(maximum, size, at + 1) == Switch(maximum, size, 1)
    ensures ItemEstimate(Table(maximum, size, at)) + ItemEstimate(Table(maximum, size, at + 1)) == Lead(size) + maximum + 8
  {
  }

  lemma TwoItems(body: Body, k: nat)
    requires k + 2 <= |body|
    ensures Emit(body, k + 2) == Step(Step(Emit(body, k), body[k]), body[k + 1])
    ensures EstimateAt(body, k + 2) == EstimateAt(body, k) + ItemEstimate(body[k]) + ItemEstimate(body[k + 1])
  {
    hide Step;
    assert Emit(body, k + 1) == Step(Emit(body, k), body[k]);
    assert EstimateAt(body, k + 1) == EstimateAt(body, k) + ItemEstimate(body[k]);
  }

  lemma ProductStep(n: nat, m: nat)
    requires n > 0
    ensures Product(n, m) == Product(n - 1, m) + m
  {
  }

  lemma OneTable(e: Emission, lead: nat, maximum: nat, size: nat)
    requires e.position % 8 == 0 && (lead + size) % 8 == 1
    ensures Step(Step(e, Code(lead, lead)), Switch(maximum, size, 1)) == e.(position := e.position + lead + size + 15)
  {
  }

  /** Planned and emitted sizes drift apart by the deficit of each table. */
  lemma {:induction false} Deficit(n: nat, planned: nat, emitted: nat)
    requires planned < emitted
    ensures Product(n, planned) + Product(n, emitted - planned - 1) + n == Product(n, emitted) <= n * emitted
    decreases n
  {
    if n > 0 {
      Deficit(n - 1, planned, emitted);
      ProductStep(n, planned);
      ProductStep(n, emitted - planned - 1);
      ProductStep(n, emitted);
      hide Product;
      assert n * emitted == (n - 1) * emitted + emitted;
    }
  }

  lemma ManyTablesMiss(maximum: nat, size: nat, short: Encoding, long: Encoding) returns (body: Body)
    requires ItemOk(Switch(maximum, size, 1)) && ItemOk(Branch(0, Some(short), long)) && maximum <= 255 && long.maximum <= 255
    requires maximum < size + 7
    ensures Encodable(body) && Uses(body, maximum, size, short, long) && EstimateAt(body, |body|) <= INT32_MAX && !AllReach(body)
  {
    var planned, emitted := Lead(size) + maximum + 8, Lead(size) + size + 15;
    var spare, distance := Product(long.maximum, emitted - planned - 1), 128 + short.next - short.size;
    body := ManyTables(maximum, size, short, long, spare, distance);
    var at := 2 * long.maximum;
    TablesEncodable(body, maximum, size, short, long, spare, distance);
    hide Encodable, Uses, Table, Lead, Product, ManyTables, Emit, EstimateAt;
    AfterTables(body, maximum, size, long.maximum);
    Deficit(long.maximum, planned, emitted);
    var position := Product(long.maximum, emitted);
    Times(long.maximum, emitted, 255, 277);
    MissingTail(body, at, short, long, spare, distance, position);
  }

  lemma Times(a: nat, b: nat, x: nat, y: nat)
    requires a <= x && b <= y
    ensures a * b <= x * y
  {
    assert a * b <= x * b <= x * y;
  }

  lemma TablesEncodable(body: Body, maximum: nat, size: nat, short: Encoding, long: Encoding, spare: nat, distance: nat)
    requires ItemOk(Switch(maximum, size, 1)) && ItemOk(Branch(0, Some(short), long))
    requires body == ManyTables(maximum, size, short, long, spare, distance)
    ensures Encodable(body) && Uses(body, maximum, size, short, long) && StartsWithTables(body, maximum, size, long.maximum)
    ensures var at := 2 * long.maximum;
            && |body| == at + 3 && body[at] == Branch(0, Some(short), long) && body[at + 1] == Code(distance + spare, distance)
            && body[at + 2] == Label(0, false)
  {
    var at := 2 * long.maximum;
    assert body[at + 2] == Label(0, false);
    assert forall k :: 0 <= k < at ==> body[k] == Table(maximum, size, k);
  }

  /** The branch is chosen as short by the estimate, and its label ends up 128 bytes off. */
  lemma MissingTail(body: Body, at: nat, short: Encoding, long: Encoding, spare: nat, distance: nat, position: nat)
    requires Encodable(body) && |body| == at + 3 && short.Valid() && short.maximum <= 128 && distance == 128 + short.next - short.size
    requires body[at] == Branch(0, Some(short), long) && body[at + 1] == Code(distance + spare, distance) && body[at + 2] == Label(0, false)
    requires Emit(body, at).position == position && Emit(body, at).fixups == []
    requires EstimateAt(body, at) + spare + long.maximum == position
    ensures EstimateAt(body, |body|) == position + distance && !AllReach(body)
  {
    assert EstimateAt(body, at + 1) == EstimateAt(body, at) + long.maximum;
    assert EstimateAt(body, at + 2) == EstimateAt(body, at + 1) + distance + spare;
    assert EstimateAt(body, at + 3) == EstimateAt(body, at + 2);
    LabelOffset(body, at, at + 2);
    LabelOffset(body, at + 3, at + 2);
    hide EstimateAt, Encodable;
    var f := Fixup(0, position + short.next, true);
    var e1 := Emit(body, at + 1);
    assert e1 == Step(Emit(body, at), body[at]);
    assert e1.fixups == [f] && e1.position == position + short.size;
    var e2 := Emit(body, at + 2);
    assert e2 == Step(e1, body[at + 1]);
    assert e2.fixups == [f] && e2.position == position + short.size + distance;
    var e3 := Emit(body, at + 3);
    assert e3 == Step(e2, body[at + 2]);
    assert e3.fixups == [f] && e3.position == e2.position;
    assert Displacement(e3, f) == 128;
    assert f in e3.fixups;
  }
}
