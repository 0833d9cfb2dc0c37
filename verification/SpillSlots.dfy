/** Slots for the registers that spill code stores: chosen like any other slot, among the
    units that nothing holds at a point of the register. */
module SpillSlots {
  import opened LiveRange
  import opened AllocationState
  import opened GapEviction
  import opened Reservation
  import opened StackSlots

  /** The allocation as the stack sees it: registers in hardware have no place there. */
  function StackView(s: State): State
  {
    s.(location := seq(|s.location|, r requires 0 <= r < |s.location| =>
      if s.location[r].OnStack? then s.location[r] else Unassigned))
  }

  lemma ViewKeepsSlots(i: Input, s: State)
    requires i.Valid() && Sized(i, s) && SlotsOk(i, s)
    ensures Sized(i, StackView(s)) && SlotsOk(i, StackView(s))
  {
    hide Input.Valid, SharePoint;
    var v := StackView(s);
    forall r: nat | r < i.Count()
      ensures Aligned(i, v, r) && UnitsMarked(i, v, r)
    {
      assert Aligned(i, s, r) && UnitsMarked(i, s, r);
    }
    forall a: nat, b: nat | a < i.Count() && b < i.Count() && a != b && MayClash(i, a, b)
      ensures Apart(v.location[a], v.location[b])
    {
      assert Apart(s.location[a], s.location[b]);
    }
  }

  /** Locations on the stack stay, and exactly the registers of `regs` have slots besides. */
  ghost predicate Slotted(i: Input, s: State, v: State, regs: set<nat>)
    requires i.Valid() && Sized(i, s)
  {
    && Sized(i, v) && SlotsOk(i, v)
    && forall r: nat :: r < i.Count() ==>
         if s.location[r].OnStack? then v.location[r] == s.location[r] else v.location[r].OnStack? <==> r in regs
  }

  /** A slot for every register that is to be preserved, in the order in which they come up;
      a register that has one keeps it. */
  method PreserveAll(i: Input, s: State, regs: seq<nat>) returns (v: State)
    requires i.Valid() && Sized(i, s) && SlotsOk(i, s)
    requires forall k :: 0 <= k < |regs| ==> i.Virtual(regs[k]) && regs[k] !in i.addressable && s.location[regs[k]].InRegister?
    ensures Slotted(i, s, v, set r | r in regs)
  {
    hide Input.Valid, SlotsOk, SlotFree;
    ViewKeepsSlots(i, s);
    v := StackView(s);
    for k := 0 to |regs|
      invariant Slotted(i, s, v, set r | r in regs[..k])
      invariant forall r: nat :: r < i.Count() ==> v.location[r].OnStack? || v.location[r] == Unassigned
    {
      var r := regs[k];
      assert regs[..k + 1] == regs[..k] + [r];
      assert forall x :: x in regs[..k + 1] <==> x in regs[..k] || x == r;
      if !v.location[r].OnStack? {
        var registers, units := Conflicts(i, v, r);
        v := GiveSlot(i, v, r, units);
      }
    }
    assert regs[..|regs|] == regs;
  }
}
