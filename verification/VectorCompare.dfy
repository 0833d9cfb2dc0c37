/** Integer comparisons of 32-bit and 64-bit lanes on SSE2, which compares signed 32-bit
    lanes only. */
module VectorCompare {
  import VectorShuffle
  import opened Words

  const TWO31: nat := 0x8000_0000
  const TWO32: nat := 0x1_0000_0000
  const TWO64: nat := 0x1_0000_0000_0000_0000

  type Dword = x: nat | x < 0x1_0000_0000

  /** A vector as four double words, lowest first. */
  datatype Quad = Quad(d0: Dword, d1: Dword, d2: Dword, d3: Dword)
  {
    function At(k: nat): Dword
      requires k < 4
    {
      if k == 0 then d0 else if k == 1 then d1 else if k == 2 then d2 else d3
    }
  }

  // ----- instructions -----

  /** The two's complement value of `x` below `2 * half`. */
  function Value(x: nat, half: nat): int
  {
    if x < half then x else x - 2 * half
  }

  function Mask(p: bool): Dword { if p then 0xFFFF_FFFF else 0 }

  function Equals(x: Quad, y: Quad): Quad
  {
    Quad(Mask(x.d0 == y.d0), Mask(x.d1 == y.d1), Mask(x.d2 == y.d2), Mask(x.d3 == y.d3))
  }

  predicate SignedAbove(x: Dword, y: Dword) { Value(x, TWO31) > Value(y, TWO31) }

  function Greaters(x: Quad, y: Quad): Quad
  {
    Quad(Mask(SignedAbove(x.d0, y.d0)), Mask(SignedAbove(x.d1, y.d1)), Mask(SignedAbove(x.d2, y.d2)), Mask(SignedAbove(x.d3, y.d3)))
  }

  function Shuffle32(x: Quad, imm: nat): Quad
  {
    Quad(x.At(VectorShuffle.Field(imm, 0)), x.At(VectorShuffle.Field(imm, 1)), x.At(VectorShuffle.Field(imm, 2)), x.At(VectorShuffle.Field(imm, 3)))
  }

  /** Bitwise operations stay within double words. */
  function DAnd(x: Dword, y: Dword): Dword { AndBound(x, y); And(x, y) }

  function DOr(x: Dword, y: Dword): Dword { DwordPower(); OrBound(x, y, 32); Or(x, y) }

  function DXor(x: Dword, y: Dword): Dword { DwordPower(); XorBound(x, y, 32); Xor(x, y) }

  lemma DwordPower()
    ensures Pow2(32) == TWO32 && Pow2(31) == TWO31
  {
    assert Pow2(8) == 256;
    Pow2Add(8, 8);
    Pow2Add(16, 16);
    Pow2Half(32);
  }

  // ----- terms -----

  datatype Term =
    | A
    | B
    | Constant(q: Quad)
    | Equal32(x: Term, y: Term)
    | Greater32(x: Term, y: Term)
    | Dwords(x: Term, imm: nat)
    | VXor(x: Term, y: Term)
    | VAnd(x: Term, y: Term)
    | VOr(x: Term, y: Term)

  function Eval(t: Term, a: Quad, b: Quad): Quad
  {
    match t
    case A => a
    case B => b
    case Constant(q) => q
    case Equal32(x, y) => Equals(Eval(x, a, b), Eval(y, a, b))
    case Greater32(x, y) => Greaters(Eval(x, a, b), Eval(y, a, b))
    case Dwords(x, imm) => Shuffle32(Eval(x, a, b), imm)
    case VXor(x, y) => var u, v := Eval(x, a, b), Eval(y, a, b); Quad(DXor(u.d0, v.d0), DXor(u.d1, v.d1), DXor(u.d2, v.d2), DXor(u.d3, v.d3))
    case VAnd(x, y) => var u, v := Eval(x, a, b), Eval(y, a, b); Quad(DAnd(u.d0, v.d0), DAnd(u.d1, v.d1), DAnd(u.d2, v.d2), DAnd(u.d3, v.d3))
    case VOr(x, y) => var u, v := Eval(x, a, b), Eval(y, a, b); Quad(DOr(u.d0, v.d0), DOr(u.d1, v.d1), DOr(u.d2, v.d2), DOr(u.d3, v.d3))
  }

  // ----- what comparisons mean -----

  datatype Code = Eq | Ne | Lt | Le | Gt | Ge

  predicate Holds(code: Code, x: int, y: int)
  {
    match code
    case Eq => x == y
    case Ne => x != y
    case Lt => x < y
    case Le => x <= y
    case Gt => x > y
    case Ge => x >= y
  }

  /** The number a lane of 32 or 64 bits stands for. */
  function Number(q: Quad, width: nat, unsigned: bool, k: nat): int
    requires (width == 4 || width == 8) && k < 16 / width
  {
    if width == 4 then (if unsigned then q.At(k) else Value(q.At(k), TWO31))
    else (if unsigned then Join(q.At(2 * k + 1), q.At(2 * k)) else Value(Join(q.At(2 * k + 1), q.At(2 * k)), TWO31 * TWO32))
  }

  function Join(high: Dword, low: Dword): nat { high * TWO32 + low }

  /** Lane `k` of the result is all ones or all zeros. */
  predicate LaneIs(q: Quad, width: nat, k: nat, p: bool)
    requires (width == 4 || width == 8) && k < 16 / width
  {
    if width == 4 then q.At(k) == Mask(p) else q.At(2 * k) == Mask(p) && q.At(2 * k + 1) == Mask(p)
  }

  // ----- lowering -----

  const ALL_ONES := Constant(Quad(0xFFFF_FFFF, 0xFFFF_FFFF, 0xFFFF_FFFF, 0xFFFF_FFFF))
  const LOW_SIGNS := Constant(Quad(0x8000_0000, 0, 0x8000_0000, 0))

  predicate IsEquality(code: Code) { code.Eq? || code.Ne? }

  predicate Negates(code: Code) { code.Ne? || code.Le? || code.Ge? }

  predicate Swaps(code: Code) { code.Lt? || code.Ge? }

  /** Flipping sign bits turns unsigned order into signed order. */
  function Signs(width: nat): Term
  {
    Constant(if width == 4 then Quad(0x8000_0000, 0x8000_0000, 0x8000_0000, 0x8000_0000) else Quad(0, 0x8000_0000, 0, 0x8000_0000))
  }

  /** Equality or greater-than of two operands, before negation. */
  function Core(width: nat, equality: bool, x: Term, y: Term): Term
  {
    if width == 4 then (if equality then Equal32(x, y) else Greater32(x, y))
    else
      var equal := Equal32(x, y);
      if equality then VAnd(equal, Dwords(equal, 0xB1))
      else
        var high := Dwords(Greater32(x, y), 0xF5);
        var low := Dwords(Greater32(VXor(x, LOW_SIGNS), VXor(y, LOW_SIGNS)), 0xA0);
        VOr(high, VAnd(Dwords(equal, 0xF5), low))
  }

  function Biased(width: nat, code: Code, unsigned: bool, x: Term): Term
  {
    if !IsEquality(code) && unsigned then VXor(x, Signs(width)) else x
  }

  function Compare(width: nat, code: Code, unsigned: bool): Term
  {
    var x, y := if Swaps(code) then B else A, if Swaps(code) then A else B;
    var core := Core(width, IsEquality(code), Biased(width, code, unsigned, x), Biased(width, code, unsigned, y));
    if Negates(code) then VXor(core, ALL_ONES) else core
  }

  // ----- bits -----

  /** Flipping the sign bit. */
  lemma Flip(x: Dword)
    ensures DXor(x, 0x8000_0000) == if x < TWO31 then x + TWO31 else x - TWO31
  {
    hide Pow2, Xor;
    DwordPower();
    XorBit(x, 31);
  }

  lemma FlipNothing(x: Dword)
    ensures DXor(x, 0) == x
  {
  }

  /** Masks are truth values. */
  lemma MaskAnd(p: bool, q: bool)
    ensures DAnd(Mask(p), Mask(q)) == Mask(p && q)
  {
    hide Pow2, And;
    DwordPower();
    AndMask(Mask(p), 32);
    AndZero(Mask(p));
  }

  lemma MaskOr(p: bool, q: bool)
    ensures DOr(Mask(p), Mask(q)) == Mask(p || q)
  {
    if p && q {
      OrSame(Mask(true));
    }
  }

  lemma {:induction false} OrSame(a: nat)
    ensures Or(a, a) == a
  {
    if a != 0 {
      OrSame(a / 2);
    }
  }

  lemma MaskNot(p: bool)
    ensures DXor(Mask(p), 0xFFFF_FFFF) == Mask(!p)
  {
    if p {
      XorSame(Mask(true));
    }
  }

  lemma {:induction false} XorSame(a: nat)
    ensures Xor(a, a) == 0
  {
    if a != 0 {
      XorSame(a / 2);
    }
  }

  // ----- one lane -----

  /** With sign bits flipped, signed order is unsigned order. */
  lemma FlippedOrder(x: Dword, y: Dword)
    ensures SignedAbove(DXor(x, 0x8000_0000), DXor(y, 0x8000_0000)) <==> x > y
  {
    hide DXor;
    Flip(x);
    Flip(y);
  }

  /** A 64-bit order from 32-bit parts. */
  lemma FromParts(ah: Dword, al: Dword, bh: Dword, bl: Dword)
    ensures Join(ah, al) == Join(bh, bl) <==> ah == bh && al == bl
    ensures Value(Join(ah, al), TWO31 * TWO32) > Value(Join(bh, bl), TWO31 * TWO32) <==> SignedAbove(ah, bh) || (ah == bh && al > bl)
  {
  }

  /** Flipping the top sign bit of a 64-bit lane. */
  lemma FlippedJoin(h: Dword, l: Dword)
    ensures Value(Join(DXor(h, 0x8000_0000), l), TWO31 * TWO32) == Join(h, l) - TWO31 * TWO32
  {
    hide DXor;
    Flip(h);
  }

  lemma Shuffles(x: Quad)
    ensures Shuffle32(x, 0xB1) == Quad(x.d1, x.d0, x.d3, x.d2)
    ensures Shuffle32(x, 0xF5) == Quad(x.d1, x.d1, x.d3, x.d3)
    ensures Shuffle32(x, 0xA0) == Quad(x.d0, x.d0, x.d2, x.d2)
  {
  }

  lemma BitwiseAt(x: Term, y: Term, a: Quad, b: Quad, j: nat)
    requires j < 4
    ensures Eval(VAnd(x, y), a, b).At(j) == DAnd(Eval(x, a, b).At(j), Eval(y, a, b).At(j))
    ensures Eval(VOr(x, y), a, b).At(j) == DOr(Eval(x, a, b).At(j), Eval(y, a, b).At(j))
    ensures Eval(VXor(x, y), a, b).At(j) == DXor(Eval(x, a, b).At(j), Eval(y, a, b).At(j))
  {
    hide DAnd, DOr, DXor;
  }

  lemma ComparesAt(x: Term, y: Term, a: Quad, b: Quad, j: nat)
    requires j < 4
    ensures Eval(Equal32(x, y), a, b).At(j) == Mask(Eval(x, a, b).At(j) == Eval(y, a, b).At(j))
    ensures Eval(Greater32(x, y), a, b).At(j) == Mask(SignedAbove(Eval(x, a, b).At(j), Eval(y, a, b).At(j)))
  {
    hide Mask, SignedAbove;
  }

  /** Shuffles that swap the halves of lanes, or spread the high or the low half. */
  lemma HalvesAt(x: Term, a: Quad, b: Quad, k: nat)
    requires k < 2
    ensures var u := Eval(x, a, b);
            && Eval(Dwords(x, 0xB1), a, b).At(2 * k) == u.At(2 * k + 1) && Eval(Dwords(x, 0xB1), a, b).At(2 * k + 1) == u.At(2 * k)
            && Eval(Dwords(x, 0xF5), a, b).At(2 * k) == u.At(2 * k + 1) && Eval(Dwords(x, 0xF5), a, b).At(2 * k + 1) == u.At(2 * k + 1)
            && Eval(Dwords(x, 0xA0), a, b).At(2 * k) == u.At(2 * k) && Eval(Dwords(x, 0xA0), a, b).At(2 * k + 1) == u.At(2 * k)
  {
    Shuffles(Eval(x, a, b));
    hide Shuffle32;
  }

  /** Both halves of a lane equal: each half's mask and its neighbour's. */
  lemma EqualLane(x: Term, y: Term, a: Quad, b: Quad, k: nat)
    requires k < 2
    ensures LaneIs(Eval(Core(8, true, x, y), a, b), 8, k, Number(Eval(x, a, b), 8, true, k) == Number(Eval(y, a, b), 8, true, k))
  {
    hide DAnd, Mask, Eval, Quad.At;
    var u, v := Eval(x, a, b), Eval(y, a, b);
    var equal, low, high := Equal32(x, y), 2 * k, 2 * k + 1;
    ComparesAt(x, y, a, b, low);
    ComparesAt(x, y, a, b, high);
    HalvesAt(equal, a, b, k);
    BitwiseAt(equal, Dwords(equal, 0xB1), a, b, low);
    BitwiseAt(equal, Dwords(equal, 0xB1), a, b, high);
    FromParts(u.At(high), u.At(low), v.At(high), v.At(low));
    MaskAnd(u.At(low) == v.At(low), u.At(high) == v.At(high));
    MaskAnd(u.At(high) == v.At(high), u.At(low) == v.At(low));
  }

  /** The comparison of low halves with flipped sign bits is unsigned. */
  lemma FlippedAt(x: Term, y: Term, a: Quad, b: Quad, k: nat)
    requires k < 2
    ensures Eval(Greater32(VXor(x, LOW_SIGNS), VXor(y, LOW_SIGNS)), a, b).At(2 * k) == Mask(Eval(x, a, b).At(2 * k) > Eval(y, a, b).At(2 * k))
  {
    hide Mask, SignedAbove, DXor, Eval;
    ComparesAt(VXor(x, LOW_SIGNS), VXor(y, LOW_SIGNS), a, b, 2 * k);
    BitwiseAt(x, LOW_SIGNS, a, b, 2 * k);
    BitwiseAt(y, LOW_SIGNS, a, b, 2 * k);
    LowSigns(a, b);
    FlippedOrder(Eval(x, a, b).At(2 * k), Eval(y, a, b).At(2 * k));
  }

  lemma LowSigns(a: Quad, b: Quad)
    ensures Eval(LOW_SIGNS, a, b).d0 == 0x8000_0000 && Eval(LOW_SIGNS, a, b).d2 == 0x8000_0000
  {
  }

  /** High halves decide, and equal high halves leave it to the low ones. */
  lemma GreaterLane(x: Term, y: Term, a: Quad, b: Quad, k: nat)
    requires k < 2
    ensures LaneIs(Eval(Core(8, false, x, y), a, b), 8, k, Number(Eval(x, a, b), 8, false, k) > Number(Eval(y, a, b), 8, false, k))
  {
    hide Mask, SignedAbove, DAnd, DOr, DXor, Eval, Quad.At;
    var u, v := Eval(x, a, b), Eval(y, a, b);
    var equal, greater := Equal32(x, y), Greater32(x, y);
    var flipped := Greater32(VXor(x, LOW_SIGNS), VXor(y, LOW_SIGNS));
    var high, same, low := Dwords(greater, 0xF5), Dwords(equal, 0xF5), Dwords(flipped, 0xA0);
    ComparesAt(x, y, a, b, 2 * k + 1);
    FlippedAt(x, y, a, b, k);
    HalvesAt(greater, a, b, k);
    HalvesAt(equal, a, b, k);
    HalvesAt(flipped, a, b, k);
    var ah, al, bh, bl := u.At(2 * k + 1), u.At(2 * k), v.At(2 * k + 1), v.At(2 * k);
    FromParts(ah, al, bh, bl);
    MaskAnd(ah == bh, al > bl);
    MaskOr(SignedAbove(ah, bh), ah == bh && al > bl);
    BitwiseAt(same, low, a, b, 2 * k);
    BitwiseAt(same, low, a, b, 2 * k + 1);
    BitwiseAt(high, VAnd(same, low), a, b, 2 * k);
    BitwiseAt(high, VAnd(same, low), a, b, 2 * k + 1);
  }

  lemma NarrowLane(equality: bool, x: Term, y: Term, a: Quad, b: Quad, k: nat)
    requires k < 4
    ensures var p, q := Number(Eval(x, a, b), 4, false, k), Number(Eval(y, a, b), 4, false, k);
            LaneIs(Eval(Core(4, equality, x, y), a, b), 4, k, if equality then p == q else p > q)
  {
    hide Mask, Eval, Quad.At;
    ComparesAt(x, y, a, b, k);
  }

  /** The core of every comparison, on signed numbers. */
  lemma CoreLane(width: nat, equality: bool, x: Term, y: Term, a: Quad, b: Quad, k: nat)
    requires (width == 4 || width == 8) && k < 16 / width
    ensures var p, q := Number(Eval(x, a, b), width, false, k), Number(Eval(y, a, b), width, false, k);
            LaneIs(Eval(Core(width, equality, x, y), a, b), width, k, if equality then p == q else p > q)
  {
    hide Eval, Core, LaneIs, Number;
    if width == 4 {
      NarrowLane(equality, x, y, a, b, k);
    } else if equality {
      EqualLane(x, y, a, b, k);
      SameNumbers(Eval(x, a, b), Eval(y, a, b), 8, k);
    } else {
      GreaterLane(x, y, a, b, k);
    }
  }

  /** With flipped signs, signed numbers differ from unsigned ones by a constant. */
  lemma BiasedLane(width: nat, x: Term, a: Quad, b: Quad, k: nat)
    requires (width == 4 || width == 8) && k < 16 / width
    ensures Number(Eval(VXor(x, Signs(width)), a, b), width, false, k)
            == Number(Eval(x, a, b), width, true, k) - if width == 4 then TWO31 else TWO31 * TWO32
  {
    hide DXor, Eval;
    var u := Eval(x, a, b);
    SignsEval(width, a, b);
    if width == 4 {
      BitwiseAt(x, Signs(4), a, b, k);
      Flip(u.At(k));
    } else {
      BitwiseAt(x, Signs(8), a, b, 2 * k);
      BitwiseAt(x, Signs(8), a, b, 2 * k + 1);
      FlipNothing(u.At(2 * k));
      FlippedJoin(u.At(2 * k + 1), u.At(2 * k));
    }
  }

  lemma SignsEval(width: nat, a: Quad, b: Quad)
    ensures Eval(Signs(width), a, b) == Signs(width).q
  {
  }

  lemma NegatedLane(width: nat, t: Term, a: Quad, b: Quad, k: nat, p: bool)
    requires (width == 4 || width == 8) && k < 16 / width && LaneIs(Eval(t, a, b), width, k, p)
    ensures LaneIs(Eval(VXor(t, ALL_ONES), a, b), width, k, !p)
  {
    hide DXor, Mask, Eval;
    MaskNot(p);
    OnesEval(a, b);
    var low := if width == 4 then k else 2 * k;
    BitwiseAt(t, ALL_ONES, a, b, low);
    BitwiseAt(t, ALL_ONES, a, b, if width == 4 then k else 2 * k + 1);
  }

  lemma OnesEval(a: Quad, b: Quad)
    ensures forall j: nat :: j < 4 ==> Eval(ALL_ONES, a, b).At(j) == 0xFFFF_FFFF
  {
  }

  /** The same lane of equal bits, signed or not. */
  lemma SameNumbers(u: Quad, v: Quad, width: nat, k: nat)
    requires (width == 4 || width == 8) && k < 16 / width
    ensures Number(u, width, false, k) == Number(v, width, false, k) <==> Number(u, width, true, k) == Number(v, width, true, k)
  {
  }

  /** Every comparison of 32-bit and 64-bit lanes is exact, for all inputs: the lane of the
      result is all ones when the numbers compare so, and all zeros otherwise. */
  lemma CompareExact(width: nat, code: Code, unsigned: bool, a: Quad, b: Quad, k: nat)
    requires (width == 4 || width == 8) && k < 16 / width
    ensures LaneIs(Eval(Compare(width, code, unsigned), a, b), width, k,
                   Holds(code, Number(a, width, unsigned, k), Number(b, width, unsigned, k)))
  {
    hide Eval, Core, Number, LaneIs, Signs;
    var x, y := if Swaps(code) then B else A, if Swaps(code) then A else B;
    var left, right := Biased(width, code, unsigned, x), Biased(width, code, unsigned, y);
    InputsEval(a, b);
    CoreLane(width, IsEquality(code), left, right, a, b, k);
    BiasedLane(width, x, a, b, k);
    BiasedLane(width, y, a, b, k);
    SameNumbers(a, b, width, k);
    var core := Core(width, IsEquality(code), left, right);
    var p := if IsEquality(code) then Number(Eval(left, a, b), width, false, k) == Number(Eval(right, a, b), width, false, k)
             else Number(Eval(left, a, b), width, false, k) > Number(Eval(right, a, b), width, false, k);
    NegatedLane(width, core, a, b, k, p);
  }

  lemma InputsEval(a: Quad, b: Quad)
    ensures Eval(A, a, b) == a && Eval(B, a, b) == b
  {
  }
}
