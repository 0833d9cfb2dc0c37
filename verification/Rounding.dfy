/** Rounding of floating-point lanes to integral values by integer code on their bit
    patterns, against the rounding operations of IEEE 754-2019 section 5.9. */
module Rounding {
  import opened Words
  import opened WordCode

  datatype Mode = Ceil | Floor | Trunc | Nearest

  datatype Format = F32 | F64
  {
    function Precision(): nat { if F32? then 23 else 52 }
    function Bias(): nat { if F32? then 127 else 1023 }
    function Sign(): Word { if F32? then 0x8000_0000 else 0x8000_0000_0000_0000 }
    function Infinity(): Word { if F32? then 0x7f80_0000 else 0x7ff0_0000_0000_0000 }
    function One(): Word { if F32? then 0x3f80_0000 else 0x3ff0_0000_0000_0000 }
    function Quiet(): Word { if F32? then 0x40_0000 else 0x8_0000_0000_0000 }
    function Implicit(): Word { if F32? then 0x80_0000 else 0x10_0000_0000_0000 }
    function SignBit(): nat { if F32? then 31 else 63 }
  }

  // ----- what a pattern means -----

  ghost predicate IsPattern(f: Format, x: nat)
  {
    x < 2 * f.Sign()
  }

  predicate Negative(f: Format, x: nat)
  {
    x >= f.Sign()
  }

  /** The pattern without its sign. */
  function Magnitude(f: Format, x: nat): nat
  {
    x % f.Sign()
  }

  predicate IsNaN(f: Format, x: nat)
  {
    Magnitude(f, x) > f.Infinity()
  }

  predicate IsFinite(f: Format, x: nat)
  {
    Magnitude(f, x) < f.Infinity()
  }

  function ExponentOf(f: Format, a: nat): nat
  {
    a / f.Implicit()
  }

  function FractionOf(f: Format, a: nat): nat
  {
    a % f.Implicit()
  }

  /** The absolute value of a finite pattern in units of the least subnormal: a
      subnormal's fraction, or a fraction with its leading one scaled by the exponent. */
  function Units(f: Format, a: nat): nat
  {
    if ExponentOf(f, a) == 0 then a
    else Times(f.Implicit() + FractionOf(f, a), Pow2(ExponentOf(f, a) - 1))
  }

  function Times(a: nat, b: nat): nat
  {
    Products(a, b);
    a * b
  }

  /** The number one in the same units. */
  function OneUnits(f: Format): (one: nat)
    ensures one > 0
  {
    Pow2(f.Bias() + f.Precision() - 1)
  }

  function Value(f: Format, x: nat): int
  {
    Signed(Negative(f, x), Units(f, Magnitude(f, x)))
  }

  function Signed(negative: bool, n: int): int
  {
    if negative then -n else n
  }

  function Abs(x: int): nat
  {
    if x < 0 then -x else x
  }

  /** `v` is the integral value that rounding `x` chooses, both in units `one`. */
  ghost predicate RoundsTo(mode: Mode, x: int, v: int, one: nat)
    requires one > 0
  {
    && v % one == 0
    && match mode
       case Floor => v <= x < v + one
       case Ceil => v - one < x <= v
       case Trunc => if x < 0 then v - one < x <= v <= 0 else 0 <= v <= x < v + one
       case Nearest => 2 * Abs(v - x) <= one && (2 * Abs(v - x) == one ==> v / one % 2 == 0)
  }

  /** The rounding of every pattern: integral values keep the sign, infinities are
      unchanged and NaNs are quieted. */
  ghost predicate Rounds(mode: Mode, f: Format, x: nat, y: nat)
  {
    && IsPattern(f, y)
    && (Negative(f, y) <==> Negative(f, x))
    && (IsNaN(f, x) ==> y == Words.Or(x, f.Quiet()))
    && (Magnitude(f, x) == f.Infinity() ==> y == x)
    && (IsFinite(f, x) ==> IsFinite(f, y) && RoundsTo(mode, Value(f, x), Value(f, y), OneUnits(f)))
  }

  // ----- the emitted code -----

  function IsNegative(f: Format): Expr
  {
    Gp(Ne, Gp(And, Lane, Number(f.Sign())), Number(0))
  }

  function Absolute(f: Format): Expr
  {
    Gp(And, Lane, Number(f.Sign() - 1))
  }

  function Exponent(f: Format): Expr
  {
    Gp(URsh, Absolute(f), Number(f.Precision()))
  }

  function Small(f: Format): Expr
  {
    Gp(ULt, Exponent(f), Number(f.Bias()))
  }

  function Large(f: Format): Expr
  {
    Gp(UGe, Exponent(f), Number(f.Bias() + f.Precision()))
  }

  function Shift(f: Format): Expr
  {
    Choose(Large(f), Number(0),
           Choose(Small(f), Number(f.Precision()), Gp(Sub, Number(f.Bias() + f.Precision()), Exponent(f))))
  }

  function Unit(f: Format): Expr
  {
    Gp(Lsh, Number(1), Shift(f))
  }

  function Mask(f: Format): Expr
  {
    Gp(Sub, Unit(f), Number(1))
  }

  function Fraction(f: Format): Expr
  {
    Gp(And, Absolute(f), Mask(f))
  }

  function Integral(f: Format): Expr
  {
    Gp(And, Absolute(f), Gp(Xor, Mask(f), Number(TWO_64 - 1)))
  }

  function Nonzero(f: Format): Expr
  {
    Gp(Ne, Absolute(f), Number(0))
  }

  /** Whether rounding goes away from zero when anything is dropped. */
  function Direction(mode: Mode, f: Format): Expr
  {
    if mode == Floor then IsNegative(f) else Gp(Eq, IsNegative(f), Number(0))
  }

  function Half(f: Format): Expr
  {
    Gp(URsh, Unit(f), Number(1))
  }

  function IsOdd(f: Format): Expr
  {
    Gp(Ne, Gp(And, Integral(f), Unit(f)), Number(0))
  }

  /** One more unit, for values of at least one. */
  function Increment(mode: Mode, f: Format): Expr
  {
    match mode
    case Trunc => Number(0)
    case Nearest => Gp(Or, Gp(UGt, Fraction(f), Half(f)), Gp(And, Gp(Eq, Fraction(f), Half(f)), IsOdd(f)))
    case _ => Gp(And, Direction(mode, f), Gp(Ne, Fraction(f), Number(0)))
  }

  /** One instead of zero, for values below one. */
  function SmallIncrement(mode: Mode, f: Format): Expr
  {
    match mode
    case Trunc => Number(0)
    case Nearest => Gp(UGt, Absolute(f), Number(f.One() - f.Implicit()))
    case _ => Gp(And, Direction(mode, f), Nonzero(f))
  }

  function Incremented(mode: Mode, f: Format): Expr
  {
    Gp(Add, Integral(f), Gp(Mul, Increment(mode, f), Unit(f)))
  }

  function Finite(mode: Mode, f: Format): Expr
  {
    Choose(Large(f), Absolute(f),
           Choose(Small(f), Choose(SmallIncrement(mode, f), Number(f.One()), Number(0)), Incremented(mode, f)))
  }

  function RoundedBits(mode: Mode, f: Format): Expr
  {
    Gp(Or, Gp(Or, Finite(mode, f), Gp(And, Lane, Number(f.Sign()))),
       Choose(Gp(UGt, Absolute(f), Number(f.Infinity())), Number(f.Quiet()), Number(0)))
  }

  // ----- constants of the formats -----

  lemma SmallPowers()
    ensures Pow2(0) == 1 && Pow2(3) == 8 && Pow2(4) == 16 && Pow2(6) == 64 && Pow2(7) == 128
  {
  }

  lemma Powers(f: Format)
    ensures Pow2(f.Precision()) == f.Implicit() && Pow2(f.SignBit()) == f.Sign() && Pow2(f.Precision() - 1) == f.Quiet()
  {
    hide Pow2;
    SmallPowers();
    Pow2Add(4, 4);
    Pow2Add(8, 8);
    if f.F32? {
      Pow2Add(16, 6);
      Pow2Add(16, 7);
      Pow2Add(8, 7);
      Pow2Add(16, 15);
    } else {
      Pow2Add(16, 16);
      Pow2Add(16, 3);
      Pow2Add(32, 19);
      Pow2Add(16, 4);
      Pow2Add(32, 20);
      Pow2Add(8, 7);
      Pow2Add(16, 15);
      Pow2Add(32, 31);
    }
  }

  // ----- what each operand holds -----

  function ShiftOf(f: Format, a: nat): (s: nat)
    ensures s <= f.Precision()
  {
    var e := ExponentOf(f, a);
    if e >= f.Bias() + f.Precision() then 0
    else if e < f.Bias() then f.Precision()
    else f.Bias() + f.Precision() - e
  }

  lemma ShiftSmall(s: nat)
    requires s <= 52
    ensures Pow2(s) < TWO_64
  {
    hide Pow2;
    WordSize();
    Pow2Grows(s, 64);
  }

  lemma SignParts(f: Format, x: Word)
    requires IsPattern(f, x)
    ensures Eval(IsNegative(f), x) == Flag(Negative(f, x))
    ensures Eval(Absolute(f), x) == Magnitude(f, x)
    ensures Words.And(x, f.Sign()) == if Negative(f, x) then f.Sign() else 0
    ensures x == Magnitude(f, x) + if Negative(f, x) then f.Sign() else 0
  {
    hide Pow2, Words.And;
    Powers(f);
    AndBit(x, f.SignBit());
    AndMask(x, f.SignBit());
    if Negative(f, x) {
      DivideUnique(x, f.Sign(), 1, x - f.Sign());
    } else {
      SmallRemainder(x, f.Sign());
    }
    assert Bit(x, f.SignBit()) == Negative(f, x);
    assert Eval(Gp(And, Lane, Number(f.Sign())), x) == Words.And(x, f.Sign());
  }

  lemma ExponentParts(f: Format, x: Word)
    requires IsPattern(f, x)
    ensures Eval(Exponent(f), x) == ExponentOf(f, Magnitude(f, x))
    ensures Eval(Small(f), x) == Flag(ExponentOf(f, Magnitude(f, x)) < f.Bias())
    ensures Eval(Large(f), x) == Flag(ExponentOf(f, Magnitude(f, x)) >= f.Bias() + f.Precision())
  {
    hide Pow2, HighPart, LowPart, Words.And, Absolute, Magnitude;
    Powers(f);
    SignParts(f, x);
    PartsAre(Magnitude(f, x), f.Precision());
    assert Eval(Exponent(f), x) == Apply(URsh, Magnitude(f, x), f.Precision());
  }

  lemma ShiftIs(f: Format, x: Word)
    requires IsPattern(f, x)
    ensures Eval(Shift(f), x) == ShiftOf(f, Magnitude(f, x))
  {
    hide Pow2, Choose, Exponent, Small, Large, Magnitude, ExponentOf;
    ExponentParts(f, x);
    var rest := Gp(Sub, Number(f.Bias() + f.Precision()), Exponent(f));
    var inner := Choose(Small(f), Number(f.Precision()), rest);
    ChooseSelects(Small(f), Number(f.Precision()), rest, x);
    ChooseSelects(Large(f), Number(0), inner, x);
  }

  lemma ShiftParts(f: Format, x: Word)
    requires IsPattern(f, x)
    ensures var s := ShiftOf(f, Magnitude(f, x));
            && Pow2(s) < TWO_64
            && Eval(Shift(f), x) == s && Eval(Unit(f), x) == Pow2(s) && Eval(Mask(f), x) == Pow2(s) - 1
  {
    hide Pow2, Shift, Magnitude, ShiftOf;
    ShiftIs(f, x);
    var s := ShiftOf(f, Magnitude(f, x));
    assert s <= f.Precision() <= 52;
    UnitOf(Shift(f), x, s);
    assert Eval(Mask(f), x) == Apply(Sub, Pow2(s), 1);
    SmallRemainder(Pow2(s) - 1, TWO_64);
  }

  lemma UnitOf(shift: Expr, x: Word, s: nat)
    requires Eval(shift, x) == s <= 52
    ensures Pow2(s) < TWO_64 && Eval(Gp(Lsh, Number(1), shift), x) == Pow2(s)
  {
    hide Pow2;
    ShiftSmall(s);
    SmallRemainder(s, 64);
    SmallRemainder(Pow2(s), TWO_64);
    ShiftedIs(1, s);
    assert Eval(Gp(Lsh, Number(1), shift), x) == Apply(Lsh, 1, s);
  }

  lemma MaskLow(value: Expr, mask: Expr, x: Word, s: nat)
    requires s <= 52 && Pow2(s) < TWO_64 && Eval(mask, x) == Pow2(s) - 1
    ensures Eval(Gp(And, value, mask), x) == Eval(value, x) % Pow2(s)
  {
    hide Pow2, Words.And;
    AndMask(Eval(value, x), s);
  }

  lemma MaskHigh(value: Expr, mask: Expr, x: Word, s: nat)
    requires s <= 52 && Pow2(s) < TWO_64 && Eval(mask, x) == Pow2(s) - 1
    ensures Eval(value, x) % Pow2(s) <= Eval(value, x)
    ensures Eval(Gp(And, value, Gp(Xor, mask, Number(TWO_64 - 1))), x) == Eval(value, x) - Eval(value, x) % Pow2(s)
  {
    hide Pow2, Words.And, Words.Xor, LowPart;
    WordSize();
    XorMask(s, 64);
    AndHigh(Eval(value, x), s, 64);
    assert Eval(Gp(Xor, mask, Number(TWO_64 - 1)), x) == TWO_64 - Pow2(s);
  }

  lemma FractionParts(f: Format, x: Word)
    requires IsPattern(f, x)
    ensures var a := Magnitude(f, x);
            var unit := Pow2(ShiftOf(f, a));
            && a % unit <= a
            && Eval(Fraction(f), x) == a % unit
            && Eval(Integral(f), x) == a - a % unit
  {
    hide Pow2, Words.And, Words.Xor, Absolute, Mask, Magnitude, ShiftOf, Eval;
    SignParts(f, x);
    ShiftParts(f, x);
    MaskLow(Absolute(f), Mask(f), x, ShiftOf(f, Magnitude(f, x)));
    MaskHigh(Absolute(f), Mask(f), x, ShiftOf(f, Magnitude(f, x)));
  }

  /** Whether the magnitude grows, for values of at least one. */
  predicate Grows(mode: Mode, negative: bool, a: nat, s: nat)
  {
    var r := a % Pow2(s);
    match mode
    case Trunc => false
    case Ceil => !negative && r != 0
    case Floor => negative && r != 0
    case Nearest => r > Pow2(s) / 2 || (r == Pow2(s) / 2 && Bit(a, s))
  }

  /** The same for values below one. */
  predicate GrowsToOne(mode: Mode, f: Format, negative: bool, a: nat)
  {
    match mode
    case Trunc => false
    case Ceil => !negative && a != 0
    case Floor => negative && a != 0
    case Nearest => a > f.One() - f.Implicit()
  }

  lemma DirectionIs(mode: Mode, f: Format, x: Word)
    requires IsPattern(f, x) && (mode == Floor || mode == Ceil)
    ensures Eval(Direction(mode, f), x) == Flag(if mode == Floor then Negative(f, x) else !Negative(f, x))
  {
    hide Pow2, IsNegative, Negative, Magnitude, Words.And;
    SignParts(f, x);
  }

  lemma WholePart(a: nat, s: nat)
    ensures a % Pow2(s) <= a && Bit(a - a % Pow2(s), s) == Bit(a, s)
  {
    hide Pow2;
    var d := Pow2(s);
    Products(a / d, d);
    DivideUnique(a - a % d, d, a / d, 0);
  }

  lemma NearestParts(f: Format, x: Word)
    requires IsPattern(f, x)
    ensures var a := Magnitude(f, x);
            var unit := Pow2(ShiftOf(f, a));
            && Eval(Half(f), x) == unit / 2
            && Eval(IsOdd(f), x) == Flag(Bit(a, ShiftOf(f, a)))
  {
    HalfUnit(f, x);
    hide Pow2, Words.And, Integral, Unit, Magnitude, ShiftOf, Bit, Half;
    ShiftParts(f, x);
    FractionParts(f, x);
    var a := Magnitude(f, x);
    var s := ShiftOf(f, a);
    WholePart(a, s);
    AndBit(a - a % Pow2(s), s);
    assert Eval(Gp(And, Integral(f), Unit(f)), x) == Words.And(a - a % Pow2(s), Pow2(s));
  }

  lemma HalfUnit(f: Format, x: Word)
    requires IsPattern(f, x)
    ensures Eval(Half(f), x) == Pow2(ShiftOf(f, Magnitude(f, x))) / 2
  {
    hide Pow2, Words.And, Integral, Unit, Magnitude, ShiftOf, Bit;
    ShiftParts(f, x);
    FractionParts(f, x);
    var s := ShiftOf(f, Magnitude(f, x));
    SmallPowers();
    assert Pow2(1) == 2 by { PowerOne(); }
    PartsAre(Pow2(s), 1);
    assert Eval(Half(f), x) == Apply(URsh, Pow2(s), 1);
  }

  lemma PowerOne()
    ensures Pow2(1) == 2
  {
  }

  lemma IncrementIs(mode: Mode, f: Format, x: Word)
    requires IsPattern(f, x)
    ensures var a := Magnitude(f, x);
            && Eval(Increment(mode, f), x) == Flag(Grows(mode, Negative(f, x), a, ShiftOf(f, a)))
  {
    hide Pow2, Words.And, Words.Or, Fraction, Half, IsOdd, Direction, Negative, Magnitude, ShiftOf, Bit, Integral;
    FractionParts(f, x);
    var a := Magnitude(f, x);
    var s := ShiftOf(f, a);
    var r := a % Pow2(s);
    if mode == Nearest {
      NearestParts(f, x);
      var tie := r == Pow2(s) / 2;
      FlagsCombine(tie, Bit(a, s));
      FlagsCombine(r > Pow2(s) / 2, tie && Bit(a, s));
      assert Eval(Gp(Eq, Fraction(f), Half(f)), x) == Flag(tie);
      assert Eval(Gp(And, Gp(Eq, Fraction(f), Half(f)), IsOdd(f)), x) == Flag(tie && Bit(a, s));
      assert Eval(Gp(UGt, Fraction(f), Half(f)), x) == Flag(r > Pow2(s) / 2);
    } else if mode != Trunc {
      DirectionIs(mode, f, x);
      FlagsCombine(if mode == Floor then Negative(f, x) else !Negative(f, x), r != 0);
      assert Eval(Gp(Ne, Fraction(f), Number(0)), x) == Flag(r != 0);
    }
  }

  lemma SmallIncrementIs(mode: Mode, f: Format, x: Word)
    requires IsPattern(f, x)
    ensures Eval(SmallIncrement(mode, f), x) == Flag(GrowsToOne(mode, f, Negative(f, x), Magnitude(f, x)))
  {
    hide Pow2, Words.And, Absolute, Direction, Negative, Magnitude;
    SignParts(f, x);
    if mode == Floor || mode == Ceil {
      DirectionIs(mode, f, x);
      FlagsCombine(if mode == Floor then Negative(f, x) else !Negative(f, x), Magnitude(f, x) != 0);
      assert Eval(Nonzero(f), x) == Flag(Magnitude(f, x) != 0);
    }
  }

  /** The magnitude of the result for anything but a NaN. */
  function RoundedMagnitude(mode: Mode, f: Format, negative: bool, a: nat): nat
  {
    var s := ShiftOf(f, a);
    if ExponentOf(f, a) >= f.Bias() + f.Precision() then a
    else if ExponentOf(f, a) < f.Bias() then (if GrowsToOne(mode, f, negative, a) then f.One() else 0)
    else WholePart(a, s); a - a % Pow2(s) + if Grows(mode, negative, a, s) then Pow2(s) else 0
  }

  lemma IncrementedIs(mode: Mode, f: Format, x: Word)
    requires IsPattern(f, x)
    ensures var a := Magnitude(f, x);
            var s := ShiftOf(f, a);
            && a % Pow2(s) <= a
            && Eval(Incremented(mode, f), x) == a - a % Pow2(s) + if Grows(mode, Negative(f, x), a, s) then Pow2(s) else 0
  {
    hide Pow2, Increment, Integral, Unit, Grows, Negative, ShiftOf;
    var a := Magnitude(f, x);
    var s := ShiftOf(f, a);
    assert s <= f.Precision();
    FractionParts(f, x);
    ShiftParts(f, x);
    IncrementIs(mode, f, x);
    WholePart(a, s);
    Pow2Grows(s, f.Precision());
    Powers(f);
    var grows := Grows(mode, Negative(f, x), a, s);
    assert Eval(Gp(Mul, Increment(mode, f), Unit(f)), x) == Apply(Mul, Flag(grows), Pow2(s));
    IncrementedValue(a - a % Pow2(s), Pow2(s), grows);
  }

  lemma IncrementedValue(whole: Word, unit: Word, grows: bool)
    requires whole + unit < TWO_64
    ensures Apply(Add, whole, Apply(Mul, Flag(grows), unit)) == whole + if grows then unit else 0
  {
    SmallRemainder(unit, TWO_64);
    SmallRemainder(0, TWO_64);
    SmallRemainder(whole + unit, TWO_64);
    SmallRemainder(whole, TWO_64);
  }

  lemma FiniteIs(mode: Mode, f: Format, x: Word)
    requires IsPattern(f, x)
    ensures Eval(Finite(mode, f), x) == RoundedMagnitude(mode, f, Negative(f, x), Magnitude(f, x))
  {
    hide Pow2, Choose, Large, Small, Absolute, SmallIncrement, Incremented, Magnitude, Negative, ExponentOf, ShiftOf, Grows, GrowsToOne;
    SignParts(f, x);
    ExponentParts(f, x);
    SmallIncrementIs(mode, f, x);
    IncrementedIs(mode, f, x);
    var one := Choose(SmallIncrement(mode, f), Number(f.One()), Number(0));
    ChooseSelects(SmallIncrement(mode, f), Number(f.One()), Number(0), x);
    ChooseSelects(Small(f), one, Incremented(mode, f), x);
    ChooseSelects(Large(f), Absolute(f), Choose(Small(f), one, Incremented(mode, f)), x);
  }

  lemma RoundedMagnitudeFits(mode: Mode, f: Format, negative: bool, a: nat)
    requires a < f.Sign()
    ensures RoundedMagnitude(mode, f, negative, a) < f.Sign()
    ensures a < f.Infinity() ==> RoundedMagnitude(mode, f, negative, a) < f.Infinity()
    ensures a >= f.Infinity() ==> RoundedMagnitude(mode, f, negative, a) == a
  {
    hide Pow2, Grows, GrowsToOne;
    var s := ShiftOf(f, a);
    Pow2Grows(s, f.Precision());
    Powers(f);
    WholePart(a, s);
  }

  lemma JoinSign(f: Format, a: nat, negative: bool)
    requires a < f.Sign()
    ensures Words.Or(a, if negative then f.Sign() else 0) == a + if negative then f.Sign() else 0
  {
    hide Pow2, Words.Or;
    Powers(f);
    SmallRemainder(a, f.Sign());
    OrBit(a, f.SignBit());
    OrZero(a);
  }

  /** The code computes the rounded magnitude below the sign, and a quiet NaN from a
      NaN. */
  lemma CodeValue(mode: Mode, f: Format, x: Word)
    requires IsPattern(f, x)
    ensures var y := RoundedMagnitude(mode, f, Negative(f, x), Magnitude(f, x)) + if Negative(f, x) then f.Sign() else 0;
            Eval(RoundedBits(mode, f), x) == if IsNaN(f, x) then Words.Or(x, f.Quiet()) else y
  {
    hide Pow2, Choose, Words.And, Words.Or, Absolute, Finite, RoundedMagnitude, Negative;
    SignParts(f, x);
    FiniteIs(mode, f, x);
    var a := Magnitude(f, x);
    var r := RoundedMagnitude(mode, f, Negative(f, x), a);
    RoundedMagnitudeFits(mode, f, Negative(f, x), a);
    JoinSign(f, r, Negative(f, x));
    var sign := Gp(And, Lane, Number(f.Sign()));
    var joined := Gp(Or, Finite(mode, f), sign);
    assert Eval(sign, x) == Words.And(x, f.Sign());
    assert Eval(joined, x) == r + if Negative(f, x) then f.Sign() else 0;
    var nan := Gp(UGt, Absolute(f), Number(f.Infinity()));
    ChooseSelects(nan, Number(f.Quiet()), Number(0), x);
    assert Eval(nan, x) == Flag(IsNaN(f, x));
    OrZero(Eval(joined, x));
  }

  // ----- the rounded magnitude is the rounded value -----

  lemma SignedMultiple(n: nat, one: nat, negative: bool)
    requires one > 0
    ensures Signed(negative, n * one) % one == 0 && Signed(negative, n * one) / one == Signed(negative, n)
  {
    DivideUnique(Signed(negative, n * one), one, Signed(negative, n), 0);
  }

  /** When rounding by `mode` moves away from zero: `r` of `u` parts are dropped and
      the whole number left is `q`. */
  predicate GrowsRule(mode: Mode, negative: bool, q: nat, r: nat, u: nat)
  {
    match mode
    case Trunc => false
    case Ceil => !negative && r != 0
    case Floor => negative && r != 0
    case Nearest => 2 * r > u || (2 * r == u && q % 2 == 1)
  }

  /** Dropping `r` of `u` parts, with or without one more, is a rounding step. */
  lemma StepRounds(mode: Mode, negative: bool, q: nat, r: nat, u: nat, k: nat)
    requires r < u && k > 0
    ensures u * k > 0
    ensures var x, v := q * (u * k) + r * k, (q + Flag(GrowsRule(mode, negative, q, r, u))) * (u * k);
            RoundsTo(mode, Signed(negative, x), Signed(negative, v), u * k)
  {
    var one, rest := u * k, r * k;
    Scaled(r, u, k);
    var n := q + Flag(GrowsRule(mode, negative, q, r, u));
    SignedMultiple(n, one, negative);
    Products(q, one);
    assert n * one == q * one + if GrowsRule(mode, negative, q, r, u) then one else 0;
  }

  lemma Scaled(r: nat, u: nat, k: nat)
    requires r < u && k > 0
    ensures 0 <= r * k < u * k && (r == 0 <==> r * k == 0)
    ensures 2 * r > u <==> 2 * (r * k) > u * k
    ensures 2 * r == u <==> 2 * (r * k) == u * k
  {
    Stretch(r, u, k);
    Stretch(2 * r, u, k);
    Stretch(u, 2 * r, k);
    Associate(2, r, k);
  }

  lemma Stretch(a: nat, b: nat, k: nat)
    requires k > 0
    ensures a * k >= 0 && (a < b ==> a * k < b * k) && (a != 0 ==> a * k != 0)
  {
    if a < b {
      assert (b - a) * k == b * k - a * k;
      Outgrows(b - a, k);
      Products(b - a, k);
    }
    if a != 0 {
      Outgrows(a, k);
    }
  }

  lemma OneParts(f: Format, e: nat)
    requires 1 <= e <= f.Bias() + f.Precision()
    ensures OneUnits(f) == Times(Pow2(f.Bias() + f.Precision() - e), Pow2(e - 1))
  {
    Pow2Add(f.Bias() + f.Precision() - e, e - 1);
  }

  /** A pattern of exponent `e` counts quanta of two to the `e - 1`. */
  lemma NormalUnits(f: Format, e: nat, m: nat)
    requires e >= 1 && m < f.Implicit()
    ensures Units(f, e * f.Implicit() + m) == Times(f.Implicit() + m, Pow2(e - 1))
  {
    hide Pow2;
    DivideUnique(e * f.Implicit() + m, f.Implicit(), e, m);
  }

  /** Adding quanta to a pattern adds them to the value, also across the carry into
      the exponent. */
  lemma CarryUnits(f: Format, e: nat, m: nat)
    requires e >= 1 && m <= f.Implicit()
    ensures Units(f, e * f.Implicit() + m) == Times(f.Implicit() + m, Pow2(e - 1))
  {
    hide Pow2, Units;
    if m < f.Implicit() {
      NormalUnits(f, e, m);
    } else {
      NormalUnits(f, e + 1, 0);
      assert (e + 1) * f.Implicit() + 0 == e * f.Implicit() + m;
      Pow2Half(e);
      Associate(f.Implicit(), 2, Pow2(e - 1));
    }
  }

  lemma ExponentShape(f: Format, a: nat)
    ensures a == ExponentOf(f, a) * f.Implicit() + FractionOf(f, a) && FractionOf(f, a) < f.Implicit()
  {
  }

  /** A whole number of units does not disturb a remainder. */
  lemma SplitQuotient(c: nat, m: nat, u: nat)
    requires u > 0
    ensures (c * u + m) % u == m % u && (c * u + m) / u == c + m / u
  {
    assert c * u + m == (c + m / u) * u + m % u;
    DivideUnique(c * u + m, u, c + m / u, m % u);
  }

  lemma MultipleParts(e: nat, p: nat, c: nat, u: nat, m: nat)
    requires u > 0 && p == c * u
    requires c % 2 == 0 || (c == 1 && e % 2 == 1 && m < u)
    ensures (p + m) % u == (e * p + m) % u == m % u
    ensures (p + m) / u % 2 == (e * p + m) / u % 2
  {
    Associate(e, c, u);
    SplitQuotient(c, m, u);
    SplitQuotient(e * c, m, u);
    if c == 1 {
      SmallRemainder(m, u);
    } else {
      EvenParts(e, c, m / u);
    }
  }

  /** For exponents of values from one on, the bit above the fraction tells the parity
      of the whole number that is left. */
  lemma WholeNumber(f: Format, a: nat)
    requires f.Bias() <= ExponentOf(f, a) < f.Bias() + f.Precision()
    ensures var u := Pow2(ShiftOf(f, a));
            && (f.Implicit() + FractionOf(f, a)) % u == a % u == FractionOf(f, a) % u
            && ((f.Implicit() + FractionOf(f, a)) / u) % 2 == (a / u) % 2
  {
    hide Pow2, ExponentOf, FractionOf, Format.Implicit, ShiftOf;
    MiddleShift(f, a);
    var e, m := ExponentOf(f, a), FractionOf(f, a);
    var s := ShiftOf(f, a);
    ExponentShape(f, a);
    Powers(f);
    Pow2Add(f.Precision() - s, s);
    if s < f.Precision() {
      Pow2Half(f.Precision() - s);
    } else {
      SmallPowers();
    }
    MultipleParts(e, f.Implicit(), Pow2(f.Precision() - s), Pow2(s), m);
  }

  lemma ShiftIsEven(f: Format, a: nat)
    requires f.Bias() <= ExponentOf(f, a) < f.Bias() + f.Precision()
    ensures Pow2(ShiftOf(f, a)) >= 2 && Pow2(ShiftOf(f, a)) % 2 == 0
  {
    hide Pow2, ExponentOf, Format.Implicit, ShiftOf;
    MiddleShift(f, a);
    Pow2Half(ShiftOf(f, a));
  }

  lemma EvenParts(e: nat, c: nat, n: nat)
    requires c % 2 == 0
    ensures (e * c + n) % 2 == n % 2 == (c + n) % 2
  {
    var h := c / 2;
    assert e * c + n == (e * h) * 2 + n by {
      Associate(e, h, 2);
    }
    DivideUnique(e * c + n, 2, e * h + n / 2, n % 2);
  }

  /** The middle range in numbers: fraction `m` under the leading one `p`, quanta of
      `k`, dropping `r` of `u` quanta. */
  lemma MiddleArithmetic(mode: Mode, negative: bool, p: nat, m: nat, q: nat, r: nat, u: nat, k: nat, up: nat)
    requires p + m == Times(q, u) + r && r < u && k > 0
    requires up + r == m + if GrowsRule(mode, negative, q, r, u) then u else 0
    ensures Times(u, k) > 0
    ensures RoundsTo(mode, Signed(negative, Times(p + m, k)), Signed(negative, Times(p + up, k)), Times(u, k))
  {
    hide RoundsTo, Signed, GrowsRule;
    var grows := GrowsRule(mode, negative, q, r, u);
    Distribute(q, u, r, k);
    Distribute1(q, u, grows);
    Associate(q + Flag(grows), u, k);
    StepRounds(mode, negative, q, r, u, k);
  }

  /** The pattern after rounding: the same exponent over a fraction of `up`, which may
      carry. */
  lemma MiddleResult(mode: Mode, f: Format, negative: bool, a: nat) returns (up: nat)
    requires f.Bias() <= ExponentOf(f, a) < f.Bias() + f.Precision()
    ensures var m, u := FractionOf(f, a), Pow2(ShiftOf(f, a));
            up + m % u == m + if Grows(mode, negative, a, ShiftOf(f, a)) then u else 0
    ensures up <= f.Implicit() && RoundedMagnitude(mode, f, negative, a) == ExponentOf(f, a) * f.Implicit() + up
  {
    hide Pow2, ExponentOf, FractionOf, ShiftOf, Grows, Format.Implicit;
    var m, u := FractionOf(f, a), Pow2(ShiftOf(f, a));
    ExponentShape(f, a);
    MiddleShift(f, a);
    WholeNumber(f, a);
    StepFits(f, m, u, ShiftOf(f, a));
    up := m - m % u + if Grows(mode, negative, a, ShiftOf(f, a)) then u else 0;
  }

  lemma Quotients(n: nat, u: nat) returns (q: nat, r: nat)
    requires u > 0
    ensures n == Times(q, u) + r && r < u && r == n % u && q == n / u
  {
    q, r := n / u, n % u;
  }

  /** What the code drops and what it leaves, in quanta. */
  lemma MiddleParts(mode: Mode, f: Format, negative: bool, a: nat) returns (q: nat, r: nat, up: nat)
    requires f.Bias() <= ExponentOf(f, a) < f.Bias() + f.Precision()
    ensures var m, u := FractionOf(f, a), Pow2(ShiftOf(f, a));
            && f.Implicit() + m == Times(q, u) + r && r < u
            && up + r == m + (if GrowsRule(mode, negative, q, r, u) then u else 0)
    ensures Units(f, RoundedMagnitude(mode, f, negative, a)) == Times(f.Implicit() + up, Pow2(ExponentOf(f, a) - 1))
  {
    hide *;
    MiddleShift(f, a);
    WholeNumber(f, a);
    ShiftIsEven(f, a);
    q, r := Quotients(f.Implicit() + FractionOf(f, a), Pow2(ShiftOf(f, a)));
    GrowsAlike(mode, negative, a, ShiftOf(f, a), q);
    up := MiddleResult(mode, f, negative, a);
    CarryUnits(f, ExponentOf(f, a), up);
  }

  /** Values from one to where every value is integral. */
  lemma MiddleRounds(mode: Mode, f: Format, negative: bool, a: nat)
    requires f.Bias() <= ExponentOf(f, a) < f.Bias() + f.Precision()
    ensures RoundsTo(mode, Signed(negative, Units(f, a)),
                     Signed(negative, Units(f, RoundedMagnitude(mode, f, negative, a))), OneUnits(f))
  {
    hide *;
    var e, m := ExponentOf(f, a), FractionOf(f, a);
    MiddleShift(f, a);
    OneParts(f, e);
    FractionFits(f, a);
    var q, r, up := MiddleParts(mode, f, negative, a);
    MiddleArithmetic(mode, negative, f.Implicit(), m, q, r, Pow2(ShiftOf(f, a)), Pow2(e - 1), up);
  }

  lemma FractionFits(f: Format, a: nat)
    ensures FractionOf(f, a) < f.Implicit()
    ensures ExponentOf(f, a) >= 1 ==> Units(f, a) == Times(f.Implicit() + FractionOf(f, a), Pow2(ExponentOf(f, a) - 1))
  {
  }

  lemma MiddleShift(f: Format, a: nat)
    requires f.Bias() <= ExponentOf(f, a) < f.Bias() + f.Precision()
    ensures ShiftOf(f, a) == f.Bias() + f.Precision() - ExponentOf(f, a) && ExponentOf(f, a) >= 1
  {
  }

  lemma Distribute(q: nat, u: nat, r: nat, k: nat)
    ensures (q * u + r) * k == q * (u * k) + r * k
  {
    Associate(q, u, k);
  }

  lemma Distribute1(q: nat, u: nat, grows: bool)
    ensures (q + Flag(grows)) * u == q * u + if grows then u else 0
  {
  }

  lemma RoomForUnit(m: nat, u: nat, c: nat)
    requires u > 0 && m < c * u
    ensures m % u <= m && m - m % u + u <= c * u
  {
    var n := m / u;
    Products(n, u);
    if n >= c {
      LargerProduct(c, n, u);
    } else {
      LargerProduct(n + 1, c, u);
    }
  }

  lemma LargerProduct(a: nat, b: nat, u: nat)
    requires a <= b
    ensures a * u <= b * u
  {
    Products(b - a, u);
    assert (b - a) * u == b * u - a * u;
  }

  /** The fraction without its dropped part has room for one more unit. */
  lemma StepFits(f: Format, m: nat, u: nat, s: nat)
    requires m < f.Implicit() && s <= f.Precision() && u == Pow2(s)
    ensures m % u <= m && m - m % u + u <= f.Implicit()
  {
    hide Pow2, Format.Implicit;
    Powers(f);
    Pow2Add(f.Precision() - s, s);
    RoomForUnit(m, u, Pow2(f.Precision() - s));
  }

  lemma GrowsAlike(mode: Mode, negative: bool, a: nat, s: nat, q: nat)
    requires Pow2(s) % 2 == 0 && a / Pow2(s) % 2 == q % 2
    ensures Grows(mode, negative, a, s) == GrowsRule(mode, negative, q, a % Pow2(s), Pow2(s))
  {
    hide Pow2;
  }

  lemma ExactRounds(mode: Mode, x: int, one: nat)
    requires one > 0 && x % one == 0
    ensures RoundsTo(mode, x, x, one)
  {
  }

  /** Beyond the precision every value is integral already. */
  lemma LargeRounds(mode: Mode, f: Format, negative: bool, a: nat)
    requires ExponentOf(f, a) >= f.Bias() + f.Precision()
    ensures RoundedMagnitude(mode, f, negative, a) == a
    ensures RoundsTo(mode, Signed(negative, Units(f, a)), Signed(negative, Units(f, a)), OneUnits(f))
  {
    hide Pow2, ExponentOf, FractionOf, Units, RoundsTo, Signed, Format.Implicit;
    var e := ExponentOf(f, a);
    var n := f.Implicit() + FractionOf(f, a);
    var c := Pow2(e - f.Bias() - f.Precision());
    FractionFits(f, a);
    Pow2Add(e - f.Bias() - f.Precision(), f.Bias() + f.Precision() - 1);
    Associate(n, c, OneUnits(f));
    Products(n, c);
    SignedMultiple(n * c, OneUnits(f), negative);
    ExactRounds(mode, Signed(negative, Units(f, a)), OneUnits(f));
  }

  lemma OnePattern(f: Format)
    ensures Units(f, f.One()) == OneUnits(f) && Units(f, 0) == 0
  {
    hide Pow2, Units, OneUnits;
    CarryUnits(f, f.Bias(), 0);
    Powers(f);
    OneParts(f, f.Bias());
    ZeroUnits(f);
  }

  lemma ZeroUnits(f: Format)
    ensures Units(f, 0) == 0
  {
  }

  /** Below one, the pattern of one half separates the halves. */
  lemma SmallUnits(f: Format, a: nat)
    requires ExponentOf(f, a) < f.Bias()
    ensures Units(f, a) < OneUnits(f)
    ensures 2 * Units(f, a) > OneUnits(f) <==> a > f.One() - f.Implicit()
    ensures Units(f, a) == 0 <==> a == 0
  {
    var e, m := ExponentOf(f, a), FractionOf(f, a);
    if e == 0 {
      SubnormalUnits(f, a);
    } else if e <= f.Bias() - 2 {
      QuarterUnits(f, a);
    } else {
      HalfUnits(f, a);
    }
  }

  lemma SubnormalUnits(f: Format, a: nat)
    requires ExponentOf(f, a) == 0
    ensures Units(f, a) == a && 2 * a < OneUnits(f) && a <= f.One() - f.Implicit()
  {
    hide Pow2;
    Powers(f);
    Pow2Half(f.Precision() + 1);
    Pow2Grows(f.Precision() + 1, f.Bias() + f.Precision() - 1);
  }

  lemma QuarterUnits(f: Format, a: nat)
    requires 1 <= ExponentOf(f, a) <= f.Bias() - 2
    ensures 0 < Units(f, a) && 2 * Units(f, a) < OneUnits(f) && a <= f.One() - f.Implicit()
  {
    hide Pow2, ExponentOf, FractionOf, Units;
    var e := ExponentOf(f, a);
    ExponentShape(f, a);
    FractionFits(f, a);
    Powers(f);
    Stretch(f.Implicit() + FractionOf(f, a), 2 * f.Implicit(), Pow2(e - 1));
    Associate(2, f.Implicit(), Pow2(e - 1));
    Pow2Add(f.Precision(), e - 1);
    Pow2Half(f.Precision() + e);
    Pow2Half(f.Precision() + e + 1);
    Pow2Grows(f.Precision() + e + 1, f.Bias() + f.Precision() - 1);
  }

  lemma HalfUnits(f: Format, a: nat)
    requires ExponentOf(f, a) == f.Bias() - 1
    ensures 0 < Units(f, a) < OneUnits(f)
    ensures 2 * Units(f, a) > OneUnits(f) <==> a > f.One() - f.Implicit()
  {
    hide Pow2, ExponentOf, FractionOf, Units, OneUnits;
    var m, k := FractionOf(f, a), Pow2(f.Bias() - 2);
    ExponentShape(f, a);
    FractionFits(f, a);
    Powers(f);
    OneParts(f, f.Bias());
    Pow2Half(f.Bias() - 1);
    HalfArithmetic(f.Implicit(), m, k);
  }

  lemma HalfArithmetic(p: nat, m: nat, k: nat)
    requires m < p && k > 0
    ensures 0 < (p + m) * k < p * (2 * k)
    ensures 2 * ((p + m) * k) > p * (2 * k) <==> m > 0
  {
    Stretch(p + m, 2 * p, k);
    Associate(2, p, k);
    Associate(p, 2, k);
    assert (p + m) * k == p * k + m * k;
    Stretch(0, m, k);
  }

  /** Values below one become zero or one. */
  lemma SmallRounds(mode: Mode, f: Format, negative: bool, a: nat)
    requires ExponentOf(f, a) < f.Bias()
    ensures RoundsTo(mode, Signed(negative, Units(f, a)),
                     Signed(negative, Units(f, RoundedMagnitude(mode, f, negative, a))), OneUnits(f))
  {
    hide Pow2, ExponentOf, FractionOf, Units, OneUnits;
    var one := OneUnits(f);
    SmallUnits(f, a);
    OnePattern(f);
    SignedMultiple(0, one, negative);
    SignedMultiple(1, one, negative);
    SmallRemainder(0, one);
  }

  // ----- main results -----

  /** For every mode, format and pattern, the emitted code rounds. */
  lemma CodeRounds(mode: Mode, f: Format, x: Word)
    requires IsPattern(f, x)
    ensures Rounds(mode, f, x, Eval(RoundedBits(mode, f), x))
  {
    hide Pow2, RoundedBits, RoundedMagnitude, Units, OneUnits, RoundsTo, Words.Or;
    var a, negative := Magnitude(f, x), Negative(f, x);
    var r := RoundedMagnitude(mode, f, negative, a);
    var y := Eval(RoundedBits(mode, f), x);
    CodeValue(mode, f, x);
    RoundedMagnitudeFits(mode, f, negative, a);
    SignParts(f, x);
    if IsNaN(f, x) {
      QuietKeepsSign(f, x);
    } else {
      PatternParts(f, r, negative);
      if a < f.Infinity() {
        FiniteRounds(mode, f, negative, a);
      }
    }
  }

  lemma PatternParts(f: Format, r: nat, negative: bool)
    requires r < f.Sign()
    ensures var y := r + if negative then f.Sign() else 0;
            IsPattern(f, y) && Negative(f, y) == negative && Magnitude(f, y) == r
  {
    DivideUnique(r + if negative then f.Sign() else 0, f.Sign(), if negative then 1 else 0, r);
  }

  lemma FiniteRounds(mode: Mode, f: Format, negative: bool, a: nat)
    ensures RoundsTo(mode, Signed(negative, Units(f, a)),
                     Signed(negative, Units(f, RoundedMagnitude(mode, f, negative, a))), OneUnits(f))
  {
    hide *;
    if ExponentOf(f, a) >= f.Bias() + f.Precision() {
      LargeRounds(mode, f, negative, a);
    } else if ExponentOf(f, a) < f.Bias() {
      SmallRounds(mode, f, negative, a);
    } else {
      MiddleRounds(mode, f, negative, a);
    }
  }

  lemma QuietKeepsSign(f: Format, x: Word)
    requires IsPattern(f, x) && IsNaN(f, x)
    ensures var y := Words.Or(x, f.Quiet());
            IsPattern(f, y) && Negative(f, y) == Negative(f, x) && IsNaN(f, y)
  {
    hide Pow2, Words.Or;
    Powers(f);
    OrBit(x, f.Precision() - 1);
  }

  lemma UnitsStep(f: Format, a: nat)
    ensures Units(f, a) < Units(f, a + 1)
  {
    hide Pow2, ExponentOf, FractionOf, Format.Implicit;
    var e, m := ExponentOf(f, a), FractionOf(f, a);
    ExponentShape(f, a);
    FractionFits(f, a);
    if e >= 1 {
      CarryUnits(f, e, m + 1);
      Stretch(f.Implicit() + m, f.Implicit() + m + 1, Pow2(e - 1));
    } else if m + 1 < f.Implicit() {
      SmallRemainder(a + 1, f.Implicit());
      SubnormalStep(f, a + 1);
    } else {
      CarryUnits(f, 1, 0);
      SmallPowers();
    }
  }

  lemma SubnormalStep(f: Format, a: nat)
    requires a < f.Implicit()
    ensures ExponentOf(f, a) == 0
  {
  }

  /** Patterns are ordered as their values are. */
  lemma {:induction false} UnitsMonotone(f: Format, a: nat, b: nat)
    requires a < b
    ensures Units(f, a) < Units(f, b)
    decreases b
  {
    hide *;
    UnitsStep(f, b - 1);
    if a < b - 1 {
      UnitsMonotone(f, a, b - 1);
    }
  }

  lemma MultiplesApart(v: int, w: int, one: nat)
    requires one > 0 && v % one == 0 && w % one == 0 && v < w
    ensures w - v >= one && (w - v == one ==> w / one == v / one + 1)
  {
    var p, q := v / one, w / one;
    assert v == p * one && w == q * one;
    assert (q - p) * one == w - v;
    Outgrows(q - p, one);
    if w - v == one {
      assert (q - p - 1) * one == 0;
      if q - p - 1 != 0 {
        Outgrows(q - p - 1, one);
      }
    }
  }

  lemma RoundsToUnique(mode: Mode, x: int, v: int, w: int, one: nat)
    requires one > 0 && RoundsTo(mode, x, v, one) && RoundsTo(mode, x, w, one)
    ensures v == w
  {
    if v < w {
      MultiplesApart(v, w, one);
    } else if w < v {
      MultiplesApart(w, v, one);
    }
  }

  /** The rounding of a pattern is one pattern, so the code and the standard's
      operation agree bit for bit. */
  lemma RoundingUnique(mode: Mode, f: Format, x: nat, y: nat, z: nat)
    requires IsPattern(f, x) && Rounds(mode, f, x, y) && Rounds(mode, f, x, z)
    ensures y == z
  {
    hide Pow2, Units, OneUnits, RoundsTo, Words.Or;
    if IsFinite(f, x) {
      RoundsToUnique(mode, Value(f, x), Value(f, y), Value(f, z), OneUnits(f));
      var a, b := Magnitude(f, y), Magnitude(f, z);
      if a < b {
        UnitsMonotone(f, a, b);
      } else if b < a {
        UnitsMonotone(f, b, a);
      }
      SamePattern(f, y, z);
    }
  }

  lemma SamePattern(f: Format, y: nat, z: nat)
    requires IsPattern(f, y) && IsPattern(f, z) && (Negative(f, y) <==> Negative(f, z)) && Magnitude(f, y) == Magnitude(f, z)
    ensures y == z
  {
    PatternOf(f, y);
    PatternOf(f, z);
  }

  lemma PatternOf(f: Format, x: nat)
    requires IsPattern(f, x)
    ensures x == Magnitude(f, x) + if Negative(f, x) then f.Sign() else 0
  {
    if Negative(f, x) {
      DivideUnique(x, f.Sign(), 1, x - f.Sign());
    } else {
      SmallRemainder(x, f.Sign());
    }
  }
}
