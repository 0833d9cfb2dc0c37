/** Shuffles of 128-bit vectors by constant masks, built from SSE2 and NEON instructions:
    every shortcut and both general forms select the lanes the mask names. */
module VectorShuffle {

  type Vec = v: seq<bv8> | |v| == 16 witness seq(16, _ => 0)

  /** Lane widths in bytes. */
  predicate Width(w: nat) { w == 1 || w == 2 || w == 4 || w == 8 }

  function Lanes(w: nat): (n: nat)
    requires Width(w)
    ensures n * w == 16
  {
    if w == 1 then 16 else if w == 2 then 8 else if w == 4 then 4 else 2
  }

  /** Byte offset of a lane. */
  function Scaled(w: nat, lane: nat): (k: nat)
    requires Width(w)
    ensures k == lane * w
  {
    if w == 1 then lane else if w == 2 then 2 * lane else if w == 4 then 4 * lane else 8 * lane
  }

  /** A mask names, for every lane, a lane of the two inputs in a row. */
  ghost predicate Mask(w: nat, mask: seq<nat>)
  {
    Width(w) && |mask| == Lanes(w) && forall n: nat :: n < |mask| ==> mask[n] < 2 * Lanes(w)
  }

  /** Byte `k` of the two inputs in a row. */
  function Pick(a: Vec, b: Vec, k: nat): bv8
    requires k < 32
  {
    if k < 16 then a[k] else b[k - 16]
  }

  /** The meaning of a shuffle, byte by byte. */
  ghost predicate Selects(w: nat, a: Vec, b: Vec, mask: seq<nat>, r: Vec)
    requires Mask(w, mask)
  {
    forall i: nat :: i < 16 ==> SelectedAt(w, a, b, mask, r, i)
  }

  function LaneOf(w: nat, i: nat): (n: nat)
    requires Width(w) && i < 16
    ensures n < Lanes(w)
  {
    if w == 1 then i else if w == 2 then i / 2 else if w == 4 then i / 4 else i / 8
  }

  function ByteOf(w: nat, i: nat): (k: nat)
    requires Width(w) && i < 16
    ensures k < w && i == Scaled(w, LaneOf(w, i)) + k
  {
    if w == 1 then 0 else if w == 2 then i % 2 else if w == 4 then i % 4 else i % 8
  }

  /** The byte of the inputs that byte `i` of the result comes from. */
  function From(w: nat, mask: seq<nat>, i: nat): (k: nat)
    requires Width(w) && |mask| == Lanes(w) && i < 16
    ensures mask[LaneOf(w, i)] < 2 * Lanes(w) ==> k < 32
  {
    Scaled(w, mask[LaneOf(w, i)]) + ByteOf(w, i)
  }

  ghost predicate SelectedAt(w: nat, a: Vec, b: Vec, mask: seq<nat>, r: Vec, i: nat)
    requires Mask(w, mask) && i < 16
  {
    r[i] == Pick(a, b, From(w, mask, i))
  }

  // ----- instructions -----

  function ShiftLeft(v: Vec, n: nat): Vec
  {
    seq(16, i requires 0 <= i < 16 => if i < n then 0 else v[i - n])
  }

  function ShiftRight(v: Vec, n: nat): Vec
  {
    seq(16, i requires 0 <= i < 16 => if i + n < 16 then v[i + n] else 0)
  }

  function Or(x: Vec, y: Vec): Vec
  {
    seq(16, i requires 0 <= i < 16 => x[i] | y[i])
  }

  /** Two-bit field `k` of an immediate. */
  function Field(imm: nat, k: nat): (f: nat)
    ensures f < 4
  {
    if k == 0 then imm % 4 else if k == 1 then imm / 4 % 4 else if k == 2 then imm / 16 % 4 else imm / 64 % 4
  }

  function Shuffle32(v: Vec, imm: nat): Vec
  {
    seq(16, i requires 0 <= i < 16 => v[4 * Field(imm, i / 4) + i % 4])
  }

  /** The lanes of two inputs in turn, from byte `base` of each. */
  function Interleaved(w: nat, base: nat, i: nat): (k: nat)
    requires Width(w) && i < 16 && (base == 0 || base == 8)
    ensures k < 16
  {
    base + Scaled(w, LaneOf(w, i) / 2) + ByteOf(w, i)
  }

  function Zip(w: nat, high: bool, x: Vec, y: Vec): Vec
    requires Width(w)
  {
    seq(16, i requires 0 <= i < 16 => (if LaneOf(w, i) % 2 == 1 then y else x)[Interleaved(w, if high then 8 else 0, i)])
  }

  function DupLane(w: nat, v: Vec, lane: nat): Vec
    requires Width(w) && lane < Lanes(w)
  {
    seq(16, i requires 0 <= i < 16 => v[LaneByte(w, lane, i)])
  }

  function LaneByte(w: nat, lane: nat, i: nat): (k: nat)
    requires Width(w) && lane < Lanes(w) && i < 16
    ensures k < 16
  {
    Scaled(w, lane) + ByteOf(w, i)
  }

  function Ext(x: Vec, y: Vec, n: nat): Vec
    requires n <= 16
  {
    seq(16, i requires 0 <= i < 16 => Pick(x, y, n + i))
  }

  /** Reverses the lanes of each half. */
  function Reversed(w: nat, i: nat): (k: nat)
    requires Width(w) && w < 8 && i < 16
    ensures k < 16
  {
    var half := Lanes(w) / 2;
    var lane := LaneOf(w, i);
    Scaled(w, if lane < half then half - 1 - lane else Lanes(w) + half - 1 - lane) + ByteOf(w, i)
  }

  function Rev64(w: nat, v: Vec): Vec
    requires Width(w) && w < 8
  {
    seq(16, i requires 0 <= i < 16 => v[Reversed(w, i)])
  }

  /** Table lookup: indices outside the table give zero. */
  function Table(v: Vec, index: seq<nat>): Vec
    requires |index| == 16
  {
    seq(16, i requires 0 <= i < 16 => if index[i] < 16 then v[index[i]] else 0)
  }

  /** A scalar in a general register: the low `w` bytes and an extension. */
  function Extend(w: nat, v: Vec, fill: bv8): Vec
  {
    seq(16, i requires 0 <= i < 16 => if i < w then v[i] else if i < 8 then fill else 0)
  }

  /** A scalar in a vector register: the rest is left over from before. */
  function CopyBits(w: nat, v: Vec, junk: Vec): Vec
  {
    seq(16, i requires 0 <= i < 16 => if i < w then v[i] else junk[i])
  }

  // ----- terms -----

  /** What the lowering builds. */
  datatype Term =
    | A
    | B
    | Zero
    | Left(t: Term, n: nat)
    | Right(t: Term, n: nat)
    | VOr(x: Term, y: Term)
    | Dwords(t: Term, imm: nat)
    | Unpack(w: nat, high: bool, x: Term, y: Term)
    | Dup(w: nat, t: Term, lane: nat)
    | Extract(x: Term, y: Term, n: nat)
    | Rev(w: nat, t: Term)
    | Lookup(t: Term, index: seq<nat>)
    | Scalar(w: nat, signed: bool, t: Term)
    | Copy(w: nat, t: Term)

  /** Immediates and lanes in range. */
  predicate Built(t: Term)
  {
    match t
    case A => true
    case B => true
    case Zero => true
    case Left(x, _) => Built(x)
    case Right(x, _) => Built(x)
    case VOr(x, y) => Built(x) && Built(y)
    case Dwords(x, _) => Built(x)
    case Unpack(w, _, x, y) => Width(w) && Built(x) && Built(y)
    case Dup(w, x, lane) => Width(w) && lane < Lanes(w) && Built(x)
    case Extract(x, y, n) => n <= 16 && Built(x) && Built(y)
    case Rev(w, x) => Width(w) && w < 8 && Built(x)
    case Lookup(x, index) => |index| == 16 && Built(x)
    case Scalar(_, _, x) => Built(x)
    case Copy(_, x) => Built(x)
  }

  /** `junk` is what partial writes leave in a register. */
  function Eval(t: Term, a: Vec, b: Vec, junk: Vec): Vec
    requires Built(t)
  {
    match t
    case A => a
    case B => b
    case Zero => seq(16, _ => 0)
    case Left(x, n) => ShiftLeft(Eval(x, a, b, junk), n)
    case Right(x, n) => ShiftRight(Eval(x, a, b, junk), n)
    case VOr(x, y) => Or(Eval(x, a, b, junk), Eval(y, a, b, junk))
    case Dwords(x, imm) => Shuffle32(Eval(x, a, b, junk), imm)
    case Unpack(w, high, x, y) => Zip(w, high, Eval(x, a, b, junk), Eval(y, a, b, junk))
    case Dup(w, x, lane) => DupLane(w, Eval(x, a, b, junk), lane)
    case Extract(x, y, n) => Ext(Eval(x, a, b, junk), Eval(y, a, b, junk), n)
    case Rev(w, x) => Rev64(w, Eval(x, a, b, junk))
    case Lookup(x, index) => Table(Eval(x, a, b, junk), index)
    case Scalar(w, signed, x) =>
      var v := Eval(x, a, b, junk);
      Extend(w, v, if signed && 0 < w <= 16 && v[w - 1] >= 128 then 255 else 0)
    case Copy(w, x) => CopyBits(w, Eval(x, a, b, junk), junk)
  }

  /** The term computes the shuffle for all inputs. */
  ghost predicate Shuffles(t: Term, w: nat, mask: seq<nat>)
    requires Mask(w, mask)
  {
    Built(t) && forall a: Vec, b: Vec, junk: Vec :: Selects(w, a, b, mask, Eval(t, a, b, junk))
  }

  // ----- recognised masks -----

  ghost predicate FromA(mask: seq<nat>) { forall n: nat :: n < |mask| ==> mask[n] == n }

  ghost predicate FromB(mask: seq<nat>) { forall n: nat :: n < |mask| ==> mask[n] == n + |mask| }

  ghost predicate Broadcasts(mask: seq<nat>) { forall n: nat :: n < |mask| ==> mask[n] == mask[0] }

  ghost predicate Contiguous(mask: seq<nat>) { forall n: nat :: n < |mask| ==> mask[n] == (mask[0] + n) % (2 * |mask|) }

  ghost predicate Reverses(mask: seq<nat>) { forall n: nat :: n < |mask| ==> mask[n] == |mask| - 1 - n }

  function ZipLane(lanes: nat, high: bool, n: nat): nat
  {
    n / 2 + (if high then lanes / 2 else 0) + (if n % 2 == 1 then lanes else 0)
  }

  ghost predicate Zips(mask: seq<nat>, high: bool) { forall n: nat :: n < |mask| ==> mask[n] == ZipLane(|mask|, high, n) }

  /** The first look at a mask. */
  method Recognise(mask: seq<nat>) returns (fromA: bool, fromB: bool, broadcast: bool)
    requires mask != []
    ensures (fromA <==> FromA(mask)) && (fromB <==> FromB(mask)) && (broadcast <==> Broadcasts(mask))
  {
    fromA, fromB, broadcast := true, true, true;
    for n := 0 to |mask|
      invariant fromA <==> forall k: nat :: k < n ==> mask[k] == k
      invariant fromB <==> forall k: nat :: k < n ==> mask[k] == k + |mask|
      invariant broadcast <==> forall k: nat :: k < n ==> mask[k] == mask[0]
    {
      fromA := fromA && mask[n] == n;
      fromB := fromB && mask[n] == n + |mask|;
      broadcast := broadcast && mask[n] == mask[0];
    }
  }

  /** Which lanes come in a row, backwards, or in turn. */
  method RecogniseOrder(mask: seq<nat>) returns (contiguous: bool, reverse: bool)
    requires mask != []
    ensures (contiguous <==> Contiguous(mask)) && (reverse <==> Reverses(mask))
  {
    contiguous, reverse := true, true;
    for n := 0 to |mask|
      invariant contiguous <==> forall k: nat :: k < n ==> mask[k] == (mask[0] + k) % (2 * |mask|)
      invariant reverse <==> forall k: nat :: k < n ==> mask[k] == |mask| - 1 - k
    {
      contiguous := contiguous && mask[n] == (mask[0] + n) % (2 * |mask|);
      reverse := reverse && mask[n] == |mask| - 1 - n;
    }
  }

  method RecogniseZips(mask: seq<nat>) returns (low: bool, high: bool)
    ensures (low <==> Zips(mask, false)) && (high <==> Zips(mask, true))
  {
    hide ZipLane;
    low, high := true, true;
    for n := 0 to |mask|
      invariant low <==> forall k: nat :: k < n ==> mask[k] == ZipLane(|mask|, false, k)
      invariant high <==> forall k: nat :: k < n ==> mask[k] == ZipLane(|mask|, true, k)
    {
      low := low && mask[n] == ZipLane(|mask|, false, n);
      high := high && mask[n] == ZipLane(|mask|, true, n);
    }
  }

  /** Lane numbers wrap at the number of lanes. */
  function Wrapped(m: nat, lanes: nat): (r: nat)
    requires m < 2 * lanes
    ensures r == m % lanes && r < lanes
  {
    WrapLemma(m, lanes);
    if m < lanes then m else m - lanes
  }

  lemma WrapLemma(m: nat, lanes: nat)
    requires m < 2 * lanes
    ensures m % lanes == if m < lanes then m else m - lanes
  {
  }

  // ----- shortcuts are right, byte by byte -----

  lemma IdentityByte(w: nat, mask: seq<nat>, a: Vec, b: Vec, i: nat)
    requires Mask(w, mask) && i < 16
    ensures FromA(mask) ==> SelectedAt(w, a, b, mask, a, i)
    ensures FromB(mask) ==> SelectedAt(w, a, b, mask, b, i)
  {
  }

  lemma BroadcastByte(w: nat, mask: seq<nat>, a: Vec, b: Vec, i: nat)
    requires Mask(w, mask) && Broadcasts(mask) && i < 16
    ensures SelectedAt(w, a, b, mask, DupLane(w, if mask[0] < Lanes(w) then a else b, Wrapped(mask[0], Lanes(w))), i)
  {
  }

  lemma ScaledSum(w: nat, x: nat, y: nat)
    requires Width(w)
    ensures Scaled(w, x + y) == Scaled(w, x) + Scaled(w, y)
    ensures x >= y ==> Scaled(w, x - y) == Scaled(w, x) - Scaled(w, y)
    ensures x < Lanes(w) ==> Scaled(w, x) + w <= 16
    ensures Scaled(w, Lanes(w)) == 16 && Scaled(w, Lanes(w) / 2) == 8 && Scaled(w, 2 * Lanes(w)) == 32
  {
  }

  lemma LanesEven(w: nat)
    requires Width(w)
    ensures 2 <= Lanes(w) && Lanes(w) % 2 == 0
  {
  }

  lemma ContiguousByte(w: nat, mask: seq<nat>, a: Vec, b: Vec, i: nat)
    requires Mask(w, mask) && Contiguous(mask) && i < 16
    ensures var first, second := if mask[0] < Lanes(w) then a else b, if mask[0] < Lanes(w) then b else a;
            var n := Scaled(w, Wrapped(mask[0], Lanes(w)));
            n <= 16 && SelectedAt(w, a, b, mask, Ext(first, second, n), i)
  {
    hide Scaled, LaneOf, ByteOf, Lanes, Width;
    var lane, m := LaneOf(w, i), mask[0];
    LanesEven(w);
    WrapLemma(m + lane, 2 * Lanes(w));
    assert mask[lane] == (m + lane) % (2 * Lanes(w));
    ScaledSum(w, m, lane);
    ScaledSum(w, m + lane, 2 * Lanes(w));
    ScaledSum(w, m, Lanes(w));
    ScaledSum(w, Wrapped(m, Lanes(w)), 0);
    assert Scaled(w, lane) + ByteOf(w, i) == i;
    var first, second := if m < Lanes(w) then a else b, if m < Lanes(w) then b else a;
    var n := Scaled(w, Wrapped(m, Lanes(w)));
    assert n <= 16;
    assert Ext(first, second, n)[i] == Pick(first, second, n + i);
    assert From(w, mask, i) == Scaled(w, mask[lane]) + ByteOf(w, i);
    if m < Lanes(w) {
      assert n == Scaled(w, m);
      assert m + lane < 2 * Lanes(w);
      assert From(w, mask, i) == n + i;
    } else {
      assert n + 16 == Scaled(w, m);
      if m + lane < 2 * Lanes(w) {
      assert From(w, mask, i) == n + 16 + i;
      } else {
      assert From(w, mask, i) == n + i - 16;
      }
    }
  }

  lemma ZipByte(w: nat, mask: seq<nat>, high: bool, a: Vec, b: Vec, i: nat)
    requires Mask(w, mask) && Zips(mask, high) && i < 16
    ensures SelectedAt(w, a, b, mask, Zip(w, high, a, b), i)
  {
    hide Scaled, LaneOf, ByteOf, Lanes, Width;
    var lane := LaneOf(w, i);
    LanesEven(w);
    assert mask[lane] == ZipLane(Lanes(w), high, lane);
    ScaledSum(w, lane / 2, Lanes(w) / 2);
    ScaledSum(w, lane / 2, Lanes(w));
    ScaledSum(w, lane / 2 + Lanes(w) / 2, Lanes(w));
  }

  lemma ReverseByte(w: nat, mask: seq<nat>, a: Vec, b: Vec, i: nat)
    requires Mask(w, mask) && Reverses(mask) && i < 16
    ensures var r := if w < 8 then Rev64(w, a) else a; SelectedAt(w, a, b, mask, Ext(r, r, 8), i)
  {
    hide Scaled, LaneOf, ByteOf, Lanes, Width, Reversed;
    assert mask[LaneOf(w, i)] == Lanes(w) - 1 - LaneOf(w, i);
    ReverseIndex(w, i);
    var r := if w < 8 then Rev64(w, a) else a;
    var k := if i < 8 then i + 8 else i - 8;
    assert Ext(r, r, 8)[i] == Pick(r, r, 8 + i);
    assert Pick(r, r, 8 + i) == r[k];
    assert From(w, mask, i) == Scaled(w, mask[LaneOf(w, i)]) + ByteOf(w, i);
    assert w < 8 ==> r[k] == a[Reversed(w, k)];
    assert w < 8 ==> From(w, mask, i) == Reversed(w, k);
    assert w >= 8 ==> From(w, mask, i) == k;
  }

  lemma OtherHalf(w: nat, i: nat)
    requires Width(w) && i < 16
    ensures var k := if i < 8 then i + 8 else i - 8;
            ByteOf(w, k) == ByteOf(w, i) && (LaneOf(w, k) < Lanes(w) / 2 <==> k < 8)
  {
  }

  /** Reversing halves and swapping them reverses the whole. */
  lemma ReverseIndex(w: nat, i: nat)
    requires Width(w) && i < 16
    ensures var k := if i < 8 then i + 8 else i - 8;
            Scaled(w, Lanes(w) - 1 - LaneOf(w, i)) + ByteOf(w, i) == if w < 8 then Reversed(w, k) else k
  {
    hide Scaled, LaneOf, ByteOf, Lanes;
    var k := if i < 8 then i + 8 else i - 8;
    var half := Lanes(w) / 2;
    LanesEven(w);
    OtherHalf(w, i);
    UnitLane(w);
    ScaledSum(w, Lanes(w), LaneOf(w, i) + 1);
    ScaledSum(w, LaneOf(w, i), 1);
    ScaledSum(w, LaneOf(w, k), 1);
    ScaledSum(w, half, LaneOf(w, k) + 1);
    ScaledSum(w, Lanes(w) + half, LaneOf(w, k) + 1);
    ScaledSum(w, Lanes(w), half);
    assert Scaled(w, LaneOf(w, i)) + ByteOf(w, i) == i && Scaled(w, LaneOf(w, k)) + ByteOf(w, k) == k;
    assert w == 8 ==> ByteOf(w, i) < 8;
    WholeHalf(w, i);
  }

  lemma UnitLane(w: nat)
    requires Width(w)
    ensures Scaled(w, 1) == w
  {
  }

  /** With two lanes, each half is a lane. */
  lemma WholeHalf(w: nat, i: nat)
    requires Width(w) && i < 16
    ensures w == 8 ==> ByteOf(w, i) == if i < 8 then i else i - 8
  {
  }

  // ----- NEON -----

  lemma ByBytes(t: Term, w: nat, mask: seq<nat>)
    requires Mask(w, mask) && Built(t)
    requires forall a: Vec, b: Vec, junk: Vec, i: nat :: i < 16 ==> SelectedAt(w, a, b, mask, Eval(t, a, b, junk), i)
    ensures Shuffles(t, w, mask)
  {
    hide Mask, SelectedAt, Eval, Built;
  }

  function Picked(w: nat, m: nat): Term
    requires Width(w)
  {
    if m < Lanes(w) then A else B
  }

  /** Byte tables of the two inputs; 255 is outside both. */
  function FirstIndex(k: nat): nat { if k < 16 then k else 255 }

  function SecondIndex(k: nat): nat { if k >= 16 then k - 16 else 255 }

  lemma TableByte(w: nat, mask: seq<nat>, a: Vec, b: Vec, first: seq<nat>, second: seq<nat>, i: nat)
    requires Mask(w, mask) && i < 16 && |first| == |second| == 16
    requires first[i] == FirstIndex(From(w, mask, i)) && second[i] == SecondIndex(From(w, mask, i))
    ensures SelectedAt(w, a, b, mask, Or(Table(a, first), Table(b, second)), i)
  {
    hide Scaled, LaneOf, ByteOf, Lanes, Width, From;
    var k := From(w, mask, i);
    var x: bv8 := if k < 16 then a[k] else 0;
    assert x | 0 == x && 0 | x == x;
  }

  lemma TablesEval(first: seq<nat>, second: seq<nat>, a: Vec, b: Vec, junk: Vec)
    requires |first| == |second| == 16
    ensures Built(VOr(Lookup(A, first), Lookup(B, second)))
    ensures Eval(VOr(Lookup(A, first), Lookup(B, second)), a, b, junk) == Or(Table(a, first), Table(b, second))
  {
    hide Table, Or;
    assert Eval(A, a, b, junk) == a && Eval(B, a, b, junk) == b;
    assert Built(Lookup(A, first)) && Built(Lookup(B, second));
  }

  method TableTerm(w: nat, mask: seq<nat>) returns (t: Term)
    requires Mask(w, mask)
    ensures Shuffles(t, w, mask)
  {
    hide Scaled, LaneOf, ByteOf, From, FirstIndex, SecondIndex, Lanes, Width, SelectedAt, Selects, Or, Table;
    var first: seq<nat>, second: seq<nat> := [], [];
    for i := 0 to 16
      invariant |first| == |second| == i
      invariant forall k: nat :: k < i ==> first[k] == FirstIndex(From(w, mask, k)) && second[k] == SecondIndex(From(w, mask, k))
    {
      first, second := first + [FirstIndex(From(w, mask, i))], second + [SecondIndex(From(w, mask, i))];
    }
    t := VOr(Lookup(A, first), Lookup(B, second));
    assert |first| == 16 && |second| == 16;
    assert Built(Lookup(A, first)) && Built(Lookup(B, second));
    forall a: Vec, b: Vec, junk: Vec, i: nat | i < 16 ensures SelectedAt(w, a, b, mask, Eval(t, a, b, junk), i) {
      TablesEval(first, second, a, b, junk);
      TableByte(w, mask, a, b, first, second, i);
    }
    ByBytes(t, w, mask);
  }

  lemma IdentityTerm(w: nat, mask: seq<nat>)
    requires Mask(w, mask)
    ensures FromA(mask) ==> Shuffles(A, w, mask)
    ensures FromB(mask) ==> Shuffles(B, w, mask)
  {
    hide SelectedAt, FromA, FromB, Mask;
    forall a: Vec, b: Vec, i: nat | i < 16
      ensures FromA(mask) ==> SelectedAt(w, a, b, mask, a, i)
      ensures FromB(mask) ==> SelectedAt(w, a, b, mask, b, i)
    {
      IdentityByte(w, mask, a, b, i);
    }
  }

  lemma BroadcastTerm(w: nat, mask: seq<nat>)
    requires Mask(w, mask) && Broadcasts(mask)
    ensures Shuffles(Dup(w, Picked(w, mask[0]), mask[0] % Lanes(w)), w, mask)
  {
    hide SelectedAt, DupLane, Broadcasts;
    var t := Dup(w, Picked(w, mask[0]), Wrapped(mask[0], Lanes(w)));
    forall a: Vec, b: Vec, junk: Vec, i: nat | i < 16 ensures SelectedAt(w, a, b, mask, Eval(t, a, b, junk), i) {
      BroadcastByte(w, mask, a, b, i);
    }
    ByBytes(t, w, mask);
  }

  lemma ContiguousTerm(w: nat, mask: seq<nat>)
    requires Mask(w, mask) && Contiguous(mask)
    ensures Shuffles(Extract(Picked(w, mask[0]), if mask[0] < Lanes(w) then B else A, mask[0] % Lanes(w) * w), w, mask)
  {
    hide SelectedAt, Ext, Contiguous;
    var n := Scaled(w, Wrapped(mask[0], Lanes(w)));
    assert n == mask[0] % Lanes(w) * w;
    var t := Extract(Picked(w, mask[0]), if mask[0] < Lanes(w) then B else A, n);
    ContiguousByte(w, mask, seq(16, _ => 0), seq(16, _ => 0), 0);
    forall a: Vec, b: Vec, junk: Vec, i: nat | i < 16 ensures SelectedAt(w, a, b, mask, Eval(t, a, b, junk), i) {
      ContiguousByte(w, mask, a, b, i);
    }
    ByBytes(t, w, mask);
  }

  lemma ZipTerm(w: nat, mask: seq<nat>, high: bool)
    requires Mask(w, mask) && Zips(mask, high)
    ensures Shuffles(Unpack(w, high, A, B), w, mask)
  {
    hide SelectedAt, Zip, Zips, Mask;
    var t := Unpack(w, high, A, B);
    assert Width(w) by { NotEmpty(w, mask); }
    forall a: Vec, b: Vec, junk: Vec, i: nat | i < 16 ensures SelectedAt(w, a, b, mask, Eval(t, a, b, junk), i) {
      ZipByte(w, mask, high, a, b, i);
    }
    ByBytes(t, w, mask);
  }

  lemma ReverseTerm(w: nat, mask: seq<nat>)
    requires Mask(w, mask) && Reverses(mask)
    ensures var r := if w < 8 then Rev(w, A) else A; Shuffles(Extract(r, r, 8), w, mask)
  {
    hide SelectedAt, Ext, Rev64, Reverses, Mask;
    assert Width(w) by { NotEmpty(w, mask); }
    var r := if w < 8 then Rev(w, A) else A;
    var t := Extract(r, r, 8);
    forall a: Vec, b: Vec, junk: Vec, i: nat | i < 16 ensures SelectedAt(w, a, b, mask, Eval(t, a, b, junk), i) {
      assert Eval(r, a, b, junk) == if w < 8 then Rev64(w, a) else a;
      ReverseByte(w, mask, a, b, i);
    }
    ByBytes(t, w, mask);
  }

  /** The NEON shuffle. */
  method ShuffleNeon(w: nat, mask: seq<nat>) returns (t: Term)
    requires Mask(w, mask)
    ensures Shuffles(t, w, mask)
  {
    hide Lanes, Shuffles, FromA, FromB, Broadcasts, Contiguous, Reverses, Zips, Mask;
    NotEmpty(w, mask);
    IdentityTerm(w, mask);
    var fromA, fromB, broadcast := Recognise(mask);
    if fromA {
      return A;
    }
    if fromB {
      return B;
    }
    if broadcast {
      BroadcastTerm(w, mask);
      return Dup(w, Picked(w, mask[0]), mask[0] % Lanes(w));
    }
    var contiguous, reverse := RecogniseOrder(mask);
    var zip1, zip2 := RecogniseZips(mask);
    if contiguous {
      ContiguousTerm(w, mask);
      return Extract(Picked(w, mask[0]), if mask[0] < Lanes(w) then B else A, mask[0] % Lanes(w) * w);
    }
    if zip1 || zip2 {
      ZipTerm(w, mask, !zip1);
      return Unpack(w, !zip1, A, B);
    }
    if reverse {
      ReverseTerm(w, mask);
      var reversed := if w < 8 then Rev(w, A) else A;
      return Extract(reversed, reversed, 8);
    }
    t := TableTerm(w, mask);
  }

  lemma NotEmpty(w: nat, mask: seq<nat>)
    requires Mask(w, mask)
    ensures |mask| == Lanes(w) >= 2 && Width(w) && mask[0] < 2 * Lanes(w)
  {
  }

  // ----- SSE2 -----

  /** A shift by no bytes is left out. */
  function Shifted(t: Term, n: nat, left: bool): Term
  {
    if n == 0 then t else if left then Left(t, n) else Right(t, n)
  }

  lemma ShiftedIs(t: Term, n: nat, left: bool, a: Vec, b: Vec, junk: Vec)
    requires Built(t)
    ensures Built(Shifted(t, n, left))
    ensures var v := Eval(t, a, b, junk);
            Eval(Shifted(t, n, left), a, b, junk) == if left then ShiftLeft(v, n) else ShiftRight(v, n)
  {
    if n == 0 {
      assert ShiftLeft(Eval(t, a, b, junk), 0) == Eval(t, a, b, junk);
      assert ShiftRight(Eval(t, a, b, junk), 0) == Eval(t, a, b, junk);
    }
  }

  /** The kinds of lanes: how a scalar travels through a register. */
  datatype Lane = Floating | Signed | Unsigned

  /** A lane in the low bytes of a register. */
  function ExtractTerm(w: nat, kind: Lane, t: Term, lane: nat): Term
    requires Width(w)
  {
    var low := Shifted(t, Scaled(w, lane), false);
    if kind.Floating? then Copy(w, low) else Scalar(w, kind.Signed?, low)
  }

  function SplatTerm(w: nat, kind: Lane, scalar: Term): Term
    requires Width(w)
  {
    var start := if kind.Floating? then Copy(w, scalar) else Scalar(8, false, scalar);
    var one := if w == 1 then Unpack(1, false, start, start) else start;
    var two := if w <= 2 then Unpack(2, false, one, one) else one;
    if w <= 4 then Dwords(two, 0) else Unpack(8, false, two, two)
  }

  /** The low `w` bytes of a register are lane `lane` of an input. */
  ghost predicate Holds(w: nat, x: Vec, v: Vec, lane: nat)
    requires Width(w) && lane < Lanes(w)
  {
    forall k: nat :: k < w ==> x[k] == v[LaneStart(w, lane) + k]
  }

  function LaneStart(w: nat, lane: nat): (k: nat)
    requires Width(w) && lane < Lanes(w)
    ensures k + w <= 16
  {
    Scaled(w, lane)
  }

  lemma ShiftHolds(w: nat, v: Vec, lane: nat)
    requires Width(w) && lane < Lanes(w)
    ensures Holds(w, ShiftRight(v, Scaled(w, lane)), v, lane)
  {
    hide Scaled, Lanes;
  }

  lemma ScalarHolds(w: nat, kind: Lane, low: Term, a: Vec, b: Vec, junk: Vec)
    requires Width(w) && Built(low)
    ensures var t := if kind.Floating? then Copy(w, low) else Scalar(w, kind.Signed?, low);
            Built(t) && forall k: nat :: k < w ==> Eval(t, a, b, junk)[k] == Eval(low, a, b, junk)[k]
  {
  }

  lemma SameLow(w: nat, x: Vec, y: Vec, v: Vec, lane: nat)
    requires Width(w) && lane < Lanes(w) && Holds(w, x, v, lane) && forall k: nat :: k < w ==> y[k] == x[k]
    ensures Holds(w, y, v, lane)
  {
  }

  lemma ExtractHolds(w: nat, kind: Lane, t: Term, lane: nat, a: Vec, b: Vec, junk: Vec)
    requires Width(w) && lane < Lanes(w) && Built(t)
    ensures Built(ExtractTerm(w, kind, t, lane))
    ensures Holds(w, Eval(ExtractTerm(w, kind, t, lane), a, b, junk), Eval(t, a, b, junk), lane)
  {
    hide Eval, Built, Shifted, Scaled, Lanes, ShiftRight;
    ShiftedIs(t, Scaled(w, lane), false, a, b, junk);
    ShiftHolds(w, Eval(t, a, b, junk), lane);
    var low := Shifted(t, Scaled(w, lane), false);
    ScalarHolds(w, kind, low, a, b, junk);
    SameLow(w, Eval(low, a, b, junk), Eval(ExtractTerm(w, kind, t, lane), a, b, junk), Eval(t, a, b, junk), lane);
  }

  /** Unpacking a register with itself doubles its low lanes. */
  lemma Doubled(w: nat, x: Vec, i: nat)
    requires Width(w) && i < 16
    ensures Zip(w, false, x, x)[i] == x[Interleaved(w, 0, i)]
  {
  }

  lemma Doubled1(x: Vec, i: nat)
    requires i < 2
    ensures Zip(1, false, x, x)[i] == x[0]
  {
    var w := 1;
    Doubled(w, x, i);
    assert Interleaved(w, 0, i) == 0;
  }

  lemma Doubled2(x: Vec, i: nat)
    requires i < 4
    ensures Zip(2, false, x, x)[i] == x[i % 2]
  {
    var w := 2;
    Doubled(w, x, i);
    assert LaneOf(w, i) / 2 == 0;
    assert Interleaved(w, 0, i) == i % 2;
  }

  lemma Doubled8(x: Vec, i: nat)
    requires i < 16
    ensures Zip(8, false, x, x)[i] == x[i % 8]
  {
    var w := 8;
    Doubled(w, x, i);
    assert LaneOf(w, i) / 2 == 0;
    assert Interleaved(w, 0, i) == i % 8;
  }

  function Spread(w: nat, x: Vec): Vec
    requires Width(w)
  {
    var one := if w == 1 then Zip(1, false, x, x) else x;
    var two := if w <= 2 then Zip(2, false, one, one) else one;
    if w <= 4 then Shuffle32(two, 0) else Zip(8, false, two, two)
  }

  lemma SpreadByte(w: nat, x: Vec, i: nat)
    requires Width(w) && i < 16
    ensures Spread(w, x)[i] == x[ByteOf(w, i)]
  {
    hide Zip;
    if w == 1 {
      var one := Zip(1, false, x, x);
      Doubled1(x, i % 4 % 2);
      Doubled2(one, i % 4);
    } else if w == 2 {
      Doubled2(x, i % 4);
      assert i % 4 % 2 == i % 2;
    } else if w == 8 {
      Doubled8(x, i);
    }
  }

  lemma SplatEval(w: nat, kind: Lane, scalar: Term, a: Vec, b: Vec, junk: Vec)
    requires Width(w) && Built(scalar)
    ensures Built(SplatTerm(w, kind, scalar))
    ensures exists x: Vec :: Eval(SplatTerm(w, kind, scalar), a, b, junk) == Spread(w, x) && forall k: nat :: k < w ==> x[k] == Eval(scalar, a, b, junk)[k]
  {
    hide Zip, Shuffle32;
    var start := if kind.Floating? then Copy(w, scalar) else Scalar(8, false, scalar);
    assert Built(start);
    var x := Eval(start, a, b, junk);
    assert forall k: nat :: k < w ==> x[k] == Eval(scalar, a, b, junk)[k];
    var one := if w == 1 then Unpack(1, false, start, start) else start;
    var two := if w <= 2 then Unpack(2, false, one, one) else one;
    assert Built(one);
    assert Built(two);
    assert Eval(one, a, b, junk) == if w == 1 then Zip(1, false, x, x) else x;
    assert Eval(two, a, b, junk) == if w <= 2 then Zip(2, false, Eval(one, a, b, junk), Eval(one, a, b, junk)) else Eval(one, a, b, junk);
    assert Eval(SplatTerm(w, kind, scalar), a, b, junk) == Spread(w, x);
  }

  /** A broadcast on SSE2: take the lane out, put it back everywhere. */
  lemma SplatShuffles(w: nat, kind: Lane, mask: seq<nat>)
    requires Mask(w, mask) && Broadcasts(mask)
    ensures Shuffles(SplatTerm(w, kind, ExtractTerm(w, kind, Picked(w, mask[0]), mask[0] % Lanes(w))), w, mask)
  {
    hide SelectedAt, Broadcasts, Spread, SplatTerm, ExtractTerm, Holds;
    var lane := Wrapped(mask[0], Lanes(w));
    var scalar := ExtractTerm(w, kind, Picked(w, mask[0]), lane);
    var zero: Vec := seq(16, _ => 0);
    ExtractHolds(w, kind, Picked(w, mask[0]), lane, zero, zero, zero);
    var t := SplatTerm(w, kind, scalar);
    SplatEval(w, kind, scalar, zero, zero, zero);
    forall a: Vec, b: Vec, junk: Vec, i: nat | i < 16 ensures SelectedAt(w, a, b, mask, Eval(t, a, b, junk), i) {
      ExtractHolds(w, kind, Picked(w, mask[0]), lane, a, b, junk);
      SplatEval(w, kind, scalar, a, b, junk);
      var x: Vec :| Eval(t, a, b, junk) == Spread(w, x) && forall k: nat :: k < w ==> x[k] == Eval(scalar, a, b, junk)[k];
      SpreadByte(w, x, i);
      HeldByte(w, Eval(scalar, a, b, junk), if mask[0] < Lanes(w) then a else b, lane, i);
      SameByte(w, mask, a, b, Eval(t, a, b, junk), i);
    }
    ByBytes(t, w, mask);
  }

  lemma HeldByte(w: nat, x: Vec, v: Vec, lane: nat, i: nat)
    requires Width(w) && lane < Lanes(w) && i < 16 && Holds(w, x, v, lane)
    ensures x[ByteOf(w, i)] == v[LaneByte(w, lane, i)]
  {
    hide Lanes;
  }

  lemma SameByte(w: nat, mask: seq<nat>, a: Vec, b: Vec, r: Vec, i: nat)
    requires Mask(w, mask) && Broadcasts(mask) && i < 16
    requires r[i] == (if mask[0] < Lanes(w) then a else b)[LaneByte(w, Wrapped(mask[0], Lanes(w)), i)]
    ensures SelectedAt(w, a, b, mask, r, i)
  {
    hide SelectedAt, LaneByte;
    BroadcastByte(w, mask, a, b, i);
    CopyByte(w, mask, a, b, DupLane(w, if mask[0] < Lanes(w) then a else b, Wrapped(mask[0], Lanes(w))), r, i);
  }

  lemma CopyByte(w: nat, mask: seq<nat>, a: Vec, b: Vec, r: Vec, s: Vec, i: nat)
    requires Mask(w, mask) && i < 16 && r[i] == s[i] && SelectedAt(w, a, b, mask, r, i)
    ensures SelectedAt(w, a, b, mask, s, i)
  {
  }

  // ----- whole double words -----

  lemma Digits(d: nat, e: nat, f: nat, g: nat)
    requires d < 4 && e < 4 && f < 4 && g < 4
    ensures var imm := d + 4 * e + 16 * f + 64 * g;
            Field(imm, 0) == d && Field(imm, 1) == e && Field(imm, 2) == f && Field(imm, 3) == g
  {
    var imm := d + 4 * e + 16 * f + 64 * g;
    assert imm % 4 == d && imm / 4 == e + 4 * f + 16 * g;
    assert imm / 16 == f + 4 * g;
    assert imm / 64 == g;
  }

  /** The double word of an input that double word `n` of the result is. */
  function Dword(w: nat, mask: seq<nat>, n: nat): (d: nat)
    requires (w == 4 || w == 8) && |mask| == Lanes(w) && n < 4
    requires forall k: nat :: k < |mask| ==> mask[k] < 2 * Lanes(w)
    ensures d < 4
  {
    if w == 4 then Wrapped(mask[n], 4) else 2 * Wrapped(mask[n / 2], 2) + n % 2
  }

  ghost predicate OnlyA(w: nat, mask: seq<nat>)
    requires Width(w)
  {
    forall n: nat :: n < |mask| ==> mask[n] < Lanes(w)
  }

  ghost predicate OnlyB(w: nat, mask: seq<nat>)
    requires Width(w)
  {
    forall n: nat :: n < |mask| ==> mask[n] >= Lanes(w)
  }

  function Weighted(n: nat, f: nat): nat
  {
    if n == 0 then f else if n == 1 then 4 * f else if n == 2 then 16 * f else 64 * f
  }

  /** The first fields of an immediate; fields do not overlap, so that they add up. */
  function Fields(w: nat, mask: seq<nat>, n: nat): nat
    requires Mask(w, mask) && (w == 4 || w == 8) && n <= 4
  {
    if n == 0 then 0 else Fields(w, mask, n - 1) + Weighted(n - 1, Dword(w, mask, n - 1))
  }

  lemma AllFields(w: nat, mask: seq<nat>)
    requires Mask(w, mask) && (w == 4 || w == 8)
    ensures forall k: nat :: k < 4 ==> Field(Fields(w, mask, 4), k) == Dword(w, mask, k)
  {
    hide Dword, Field;
    var d, e, f, g := Dword(w, mask, 0), Dword(w, mask, 1), Dword(w, mask, 2), Dword(w, mask, 3);
    assert Fields(w, mask, 1) == d;
    assert Fields(w, mask, 2) == d + 4 * e;
    assert Fields(w, mask, 3) == d + 4 * e + 16 * f;
    assert Fields(w, mask, 4) == d + 4 * e + 16 * f + 64 * g;
    Digits(d, e, f, g);
  }

  /** One look at a mask of wide lanes: a field for each lane, or two. */
  method Immediate(w: nat, mask: seq<nat>) returns (onlyA: bool, onlyB: bool, imm: nat)
    requires Mask(w, mask) && (w == 4 || w == 8)
    ensures (onlyA <==> OnlyA(w, mask)) && (onlyB <==> OnlyB(w, mask))
    ensures forall k: nat :: k < 4 ==> Field(imm, k) == Dword(w, mask, k)
  {
    hide Field, Mask, Dword, Fields, Weighted, OnlyA, OnlyB, Lanes;
    NotEmpty(w, mask);
    onlyA, onlyB := Sides(w, mask);
    imm := 0;
    FieldsStep(w, mask, 0);
    for n := 0 to Lanes(w)
      invariant imm == Fields(w, mask, if w == 4 then n else 2 * n)
    {
      WideLanes(w, mask, n);
      var lane := mask[n] % Lanes(w);
      if w == 4 {
        FieldsStep(w, mask, n);
        imm := imm + Weighted(n, lane);
      } else {
        FieldsStep(w, mask, 2 * n);
        FieldsStep(w, mask, 2 * n + 1);
        imm := imm + Weighted(2 * n, 2 * lane) + Weighted(2 * n + 1, 2 * lane + 1);
      }
    }
    WideLanes(w, mask, 0);
    AllFields(w, mask);
  }

  lemma FieldsStep(w: nat, mask: seq<nat>, n: nat)
    requires Mask(w, mask) && (w == 4 || w == 8)
    ensures Fields(w, mask, 0) == 0
    ensures n < 4 ==> Fields(w, mask, n + 1) == Fields(w, mask, n) + Weighted(n, Dword(w, mask, n))
  {
  }

  lemma WideLanes(w: nat, mask: seq<nat>, n: nat)
    requires Mask(w, mask) && (w == 4 || w == 8) && n < Lanes(w)
    ensures Lanes(w) == if w == 4 then 4 else 2
    ensures w == 4 ==> Dword(w, mask, n) == mask[n] % Lanes(w)
    ensures w == 8 ==> Dword(w, mask, 2 * n) == 2 * (mask[n] % Lanes(w)) && Dword(w, mask, 2 * n + 1) == 2 * (mask[n] % Lanes(w)) + 1
  {
    WrapLemma(mask[n], Lanes(w));
  }

  method Sides(w: nat, mask: seq<nat>) returns (onlyA: bool, onlyB: bool)
    requires Width(w)
    ensures (onlyA <==> OnlyA(w, mask)) && (onlyB <==> OnlyB(w, mask))
  {
    hide Lanes;
    onlyA, onlyB := true, true;
    for n := 0 to |mask|
      invariant onlyA <==> forall k: nat :: k < n ==> mask[k] < Lanes(w)
      invariant onlyB <==> forall k: nat :: k < n ==> mask[k] >= Lanes(w)
    {
      onlyA, onlyB := onlyA && mask[n] < Lanes(w), onlyB && mask[n] >= Lanes(w);
    }
  }

  lemma DwordByte(w: nat, mask: seq<nat>, imm: nat, a: Vec, b: Vec, i: nat)
    requires Mask(w, mask) && (w == 4 || w == 8) && i < 16 && forall k: nat :: k < 4 ==> Field(imm, k) == Dword(w, mask, k)
    ensures OnlyA(w, mask) ==> SelectedAt(w, a, b, mask, Shuffle32(a, imm), i)
    ensures OnlyB(w, mask) ==> SelectedAt(w, a, b, mask, Shuffle32(b, imm), i)
  {
    hide Field;
    assert Field(imm, i / 4) == Dword(w, mask, i / 4);
    if w == 4 {
      assert LaneOf(w, i) == i / 4;
    } else {
      assert LaneOf(w, i) == i / 8;
    }
  }

  // ----- any mask -----

  /** One lane alone: shifted to the top, to the bottom, and to its place. */
  function LaneAlone(w: nat, mask: seq<nat>, n: nat): Term
    requires Mask(w, mask) && n < Lanes(w)
  {
    var at := mask[n] % Lanes(w);
    Shifted(Shifted(Shifted(Picked(w, mask[n]), 16 - LaneEnd(w, at), true), 16 - w, false), Scaled(w, n), true)
  }

  function LaneEnd(w: nat, lane: nat): (k: nat)
    requires Width(w) && lane < Lanes(w)
    ensures k == Scaled(w, lane) + w <= 16
  {
    Scaled(w, lane + 1)
  }

  lemma Isolated(v: Vec, from: nat, to: nat, w: nat, i: nat)
    requires from + w <= 16 && to + w <= 16 && i < 16
    ensures ShiftLeft(ShiftRight(ShiftLeft(v, 16 - (from + w)), 16 - w), to)[i] == if to <= i < to + w then v[from + (i - to)] else 0
  {
  }

  lemma AloneByte(w: nat, mask: seq<nat>, n: nat, a: Vec, b: Vec, junk: Vec, i: nat)
    requires Mask(w, mask) && n < Lanes(w) && i < 16
    ensures Built(LaneAlone(w, mask, n))
    ensures Eval(LaneAlone(w, mask, n), a, b, junk)[i] == if LaneOf(w, i) == n then Pick(a, b, From(w, mask, i)) else 0
  {
    hide Eval, Lanes, Shifted, ShiftLeft, ShiftRight, LaneEnd;
    var at := Wrapped(mask[n], Lanes(w));
    var v := if mask[n] < Lanes(w) then a else b;
    PickedIs(w, mask[n], a, b, junk);
    var one := Shifted(Picked(w, mask[n]), 16 - LaneEnd(w, at), true);
    ShiftedIs(Picked(w, mask[n]), 16 - LaneEnd(w, at), true, a, b, junk);
    ShiftedIs(one, 16 - w, false, a, b, junk);
    ShiftedIs(Shifted(one, 16 - w, false), Scaled(w, n), true, a, b, junk);
    LaneEndFits(w, n);
    Isolated(v, Scaled(w, at), Scaled(w, n), w, i);
    SameLane(w, n, i);
    SourceByte(w, mask, n, a, b, i);
  }

  lemma PickedIs(w: nat, m: nat, a: Vec, b: Vec, junk: Vec)
    requires Width(w)
    ensures Built(Picked(w, m)) && Eval(Picked(w, m), a, b, junk) == if m < Lanes(w) then a else b
  {
  }

  lemma LaneEndFits(w: nat, n: nat)
    requires Width(w) && n < Lanes(w)
    ensures Scaled(w, n) + w <= 16
  {
  }

  lemma SameLane(w: nat, n: nat, i: nat)
    requires Width(w) && i < 16
    ensures LaneOf(w, i) == n <==> Scaled(w, n) <= i < Scaled(w, n) + w
  {
  }

  lemma SourceByte(w: nat, mask: seq<nat>, n: nat, a: Vec, b: Vec, i: nat)
    requires Mask(w, mask) && n < Lanes(w) && i < 16
    ensures LaneOf(w, i) == n ==>
              var at := Wrapped(mask[n], Lanes(w));
              var k := Scaled(w, at) + (i - Scaled(w, n));
              0 <= k < 16 && Pick(a, b, From(w, mask, i)) == (if mask[n] < Lanes(w) then a else b)[k]
  {
  }

  ghost predicate DoneBelow(t: Term, w: nat, mask: seq<nat>, n: nat)
    requires Mask(w, mask)
  {
    Built(t) && forall a: Vec, b: Vec, junk: Vec, i: nat :: i < 16 ==>
      DoneAt(t, w, mask, n, a, b, junk, i)
  }

  ghost predicate DoneAt(t: Term, w: nat, mask: seq<nat>, n: nat, a: Vec, b: Vec, junk: Vec, i: nat)
    requires Mask(w, mask) && Built(t) && i < 16
  {
    Eval(t, a, b, junk)[i] == if LaneOf(w, i) < n then Pick(a, b, From(w, mask, i)) else 0
  }

  lemma OrByte(x: Term, y: Term, a: Vec, b: Vec, junk: Vec, i: nat)
    requires Built(x) && Built(y) && i < 16
    ensures Built(VOr(x, y)) && Eval(VOr(x, y), a, b, junk)[i] == Eval(x, a, b, junk)[i] | Eval(y, a, b, junk)[i]
  {
  }

  lemma OneMoreLane(t: Term, w: nat, mask: seq<nat>, n: nat)
    requires Mask(w, mask) && n < Lanes(w) && DoneBelow(t, w, mask, n)
    ensures DoneBelow(VOr(t, LaneAlone(w, mask, n)), w, mask, n + 1)
  {
    hide Lanes, LaneAlone, Eval, Built;
    var next := n + 1;
    var more := VOr(t, LaneAlone(w, mask, n));
    var zero: Vec := seq(16, _ => 0);
    AloneByte(w, mask, n, zero, zero, zero, 0);
    OrByte(t, LaneAlone(w, mask, n), zero, zero, zero, 0);
    forall a: Vec, b: Vec, junk: Vec, i: nat | i < 16 ensures DoneAt(more, w, mask, next, a, b, junk, i) {
      AloneByte(w, mask, n, a, b, junk, i);
      assert DoneAt(t, w, mask, n, a, b, junk, i);
      OrByte(t, LaneAlone(w, mask, n), a, b, junk, i);
      var x := Pick(a, b, From(w, mask, i));
      assert x | 0 == x && 0 | x == x && 0 | 0 == (0 as bv8);
    }
  }

  /** Each lane alone, then all of them together. */
  method GeneralTerm(w: nat, mask: seq<nat>) returns (t: Term)
    requires Mask(w, mask)
    ensures Shuffles(t, w, mask)
  {
    hide Eval, DoneBelow, LaneAlone, Mask;
    t := Zero;
    NothingDone(w, mask);
    NotEmpty(w, mask);
    for n := 0 to Lanes(w)
      invariant DoneBelow(t, w, mask, n)
    {
      OneMoreLane(t, w, mask, n);
      t := VOr(t, LaneAlone(w, mask, n));
    }
    AllDone(t, w, mask);
  }

  lemma NothingDone(w: nat, mask: seq<nat>)
    requires Mask(w, mask)
    ensures DoneBelow(Zero, w, mask, 0)
  {
  }

  lemma AllDone(t: Term, w: nat, mask: seq<nat>)
    requires Mask(w, mask) && DoneBelow(t, w, mask, Lanes(w))
    ensures Shuffles(t, w, mask)
  {
    hide Eval, Built, From;
    forall a: Vec, b: Vec, junk: Vec, i: nat | i < 16 ensures SelectedAt(w, a, b, mask, Eval(t, a, b, junk), i) {
      assert DoneAt(t, w, mask, Lanes(w), a, b, junk, i);
    }
    ByBytes(t, w, mask);
  }

  // ----- the SSE2 shuffle -----

  lemma DwordTerm(w: nat, mask: seq<nat>, imm: nat)
    requires Mask(w, mask) && (w == 4 || w == 8) && forall k: nat :: k < 4 ==> Field(imm, k) == Dword(w, mask, k)
    requires OnlyA(w, mask) || OnlyB(w, mask)
    ensures Shuffles(Dwords(if OnlyA(w, mask) then A else B, imm), w, mask)
  {
    hide SelectedAt, Shuffle32, Lanes, Mask, Field, OnlyA, OnlyB;
    var t := Dwords(if OnlyA(w, mask) then A else B, imm);
    forall a: Vec, b: Vec, junk: Vec, i: nat | i < 16 ensures SelectedAt(w, a, b, mask, Eval(t, a, b, junk), i) {
      DwordByte(w, mask, imm, a, b, i);
      assert Eval(t, a, b, junk) == Shuffle32(if OnlyA(w, mask) then a else b, imm);
    }
    ByBytes(t, w, mask);
  }

  /** Unpacking the low halves of inputs shifted down by 8 unpacks the high halves. */
  lemma ShiftedZip(w: nat, x: Vec, y: Vec)
    requires Width(w)
    ensures Zip(w, false, ShiftRight(x, 8), ShiftRight(y, 8)) == Zip(w, true, x, y)
  {
    forall i: nat | i < 16 ensures Zip(w, false, ShiftRight(x, 8), ShiftRight(y, 8))[i] == Zip(w, true, x, y)[i] {
      assert Interleaved(w, 8, i) == Interleaved(w, 0, i) + 8;
    }
  }

  lemma UnpackTerm(w: nat, mask: seq<nat>)
    requires Mask(w, mask) && Zips(mask, true)
    ensures Shuffles(Unpack(w, false, Right(A, 8), Right(B, 8)), w, mask)
  {
    hide SelectedAt, Zips, Zip, ShiftRight;
    ZipTerm(w, mask, true);
    var t := Unpack(w, false, Right(A, 8), Right(B, 8));
    assert Built(Right(A, 8)) && Built(Right(B, 8));
    forall a: Vec, b: Vec, junk: Vec ensures Eval(t, a, b, junk) == Eval(Unpack(w, true, A, B), a, b, junk) {
      assert Eval(Right(A, 8), a, b, junk) == ShiftRight(a, 8) && Eval(Right(B, 8), a, b, junk) == ShiftRight(b, 8);
      ShiftedZip(w, a, b);
    }
  }

  lemma WideWidth(w: nat)
    requires Width(w) && w >= 4
    ensures w == 4 || w == 8
  {
  }

  /** The SSE2 shuffle. */
  method ShuffleSse2(w: nat, kind: Lane, mask: seq<nat>) returns (t: Term)
    requires Mask(w, mask)
    ensures Shuffles(t, w, mask)
  {
    hide Lanes, Shuffles, FromA, FromB, Broadcasts, Zips, Mask, SplatTerm, ExtractTerm, Field, Dword, OnlyA, OnlyB, Width;
    NotEmpty(w, mask);
    IdentityTerm(w, mask);
    var fromA, fromB, broadcast := Recognise(mask);
    if fromA {
      return A;
    }
    if fromB {
      return B;
    }
    if broadcast {
      SplatShuffles(w, kind, mask);
      return SplatTerm(w, kind, ExtractTerm(w, kind, Picked(w, mask[0]), mask[0] % Lanes(w)));
    }
    if w >= 4 {
      WideWidth(w);
      var onlyA, onlyB, imm := Immediate(w, mask);
      if onlyA || onlyB {
        DwordTerm(w, mask, imm);
        return Dwords(if onlyA then A else B, imm);
      }
    }
    var low, high := RecogniseZips(mask);
    if low || high {
      if high {
        UnpackTerm(w, mask);
        return Unpack(w, false, Right(A, 8), Right(B, 8));
      }
      ZipTerm(w, mask, false);
      return Unpack(w, false, A, B);
    }
    t := GeneralTerm(w, mask);
  }
}
