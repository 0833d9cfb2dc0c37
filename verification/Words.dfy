/** Machine words as naturals: powers of two and the bitwise operations, with what
    masks, single bits and disjoint unions mean arithmetically. */
module Words {

  function Pow2(n: nat): (r: nat)
    ensures r > 0
  {
    if n == 0 then 1 else 2 * Pow2(n - 1)
  }

  lemma {:induction false} Pow2Add(a: nat, b: nat)
    ensures Pow2(a + b) == Pow2(a) * Pow2(b)
    decreases a
  {
    if a > 0 {
      Pow2Add(a - 1, b);
      Associate(2, Pow2(a - 1), Pow2(b));
    }
  }

  lemma Products(a: nat, b: nat)
    ensures a * b >= 0
  {
  }

  /** A word moved up by `s` bits, the bits of a word from `s` up, and those below. */
  function Shifted(a: nat, s: nat): nat
  {
    if s == 0 then a else 2 * Shifted(a, s - 1)
  }

  function HighPart(a: nat, s: nat): nat
    decreases s
  {
    if s == 0 then a else HighPart(a / 2, s - 1)
  }

  function LowPart(a: nat, s: nat): nat
    decreases s
  {
    if s == 0 then 0 else 2 * LowPart(a / 2, s - 1) + a % 2
  }

  lemma {:induction false} ShiftedIs(a: nat, s: nat)
    ensures Shifted(a, s) == a * Pow2(s)
  {
    if s > 0 {
      ShiftedIs(a, s - 1);
      Swap(a, Pow2(s - 1));
    }
  }

  lemma Swap(m: nat, p: nat)
    ensures m * (2 * p) == 2 * (m * p)
  {
  }

  lemma {:induction false} PartsAre(a: nat, s: nat)
    ensures HighPart(a, s) == a / Pow2(s) && LowPart(a, s) == a % Pow2(s)
    decreases s
  {
    hide Pow2;
    if s == 0 {
      Pow2Zero();
    } else {
      PartsAre(a / 2, s - 1);
      HalveBy(a, s);
    }
  }

  lemma Associate(x: int, y: int, z: int)
    ensures x * y * z == x * (y * z)
  {
  }

  lemma {:induction false} Pow2Grows(a: nat, b: nat)
    requires a <= b
    ensures Pow2(a) <= Pow2(b)
    ensures a < b ==> 2 * Pow2(a) <= Pow2(b)
    decreases b
  {
    if a < b {
      Pow2Grows(a, b - 1);
    }
  }

  // ----- bitwise operations -----

  function And(a: nat, b: nat): nat
  {
    if a == 0 || b == 0 then 0 else 2 * And(a / 2, b / 2) + (if a % 2 == 1 && b % 2 == 1 then 1 else 0)
  }

  function Or(a: nat, b: nat): nat
  {
    if a == 0 then b else if b == 0 then a
    else 2 * Or(a / 2, b / 2) + (if a % 2 == 1 || b % 2 == 1 then 1 else 0)
  }

  function Xor(a: nat, b: nat): nat
  {
    if a == 0 then b else if b == 0 then a
    else 2 * Xor(a / 2, b / 2) + (if a % 2 != b % 2 then 1 else 0)
  }

  lemma DivideUnique(a: int, d: int, q: int, r: int)
    requires d > 0 && a == q * d + r && 0 <= r < d
    ensures a / d == q && a % d == r
  {
    var q', r' := a / d, a % d;
    assert (q - q') * d == r' - r;
    if q != q' {
      Outgrows(q - q', d);
    }
  }

  lemma Outgrows(x: int, d: int)
    requires x != 0 && d > 0
    ensures x * d >= d || x * d <= -d
  {
  }

  /** Halving both sides of a division by a power. */
  lemma HalveBy(a: nat, s: nat)
    requires s > 0
    ensures a / Pow2(s) == (a / 2) / Pow2(s - 1)
    ensures a % Pow2(s) == 2 * ((a / 2) % Pow2(s - 1)) + a % 2
  {
    var d := Pow2(s - 1);
    var q, r := (a / 2) / d, (a / 2) % d;
    assert a / 2 == q * d + r;
    Associate(q, 2, d);
    Associate(2, q, d);
    DivideUnique(a, 2 * d, q, 2 * r + a % 2);
  }

  lemma Pow2Zero()
    ensures Pow2(0) == 1
  {
  }

  lemma Pow2Half(n: nat)
    requires n > 0
    ensures Pow2(n) == 2 * Pow2(n - 1)
  {
  }

  lemma AndOdd(a: nat, m: nat)
    ensures And(a, 2 * m + 1) == 2 * And(a / 2, m) + a % 2
  {
    assert (2 * m + 1) / 2 == m && (2 * m + 1) % 2 == 1;
  }

  lemma AndEven(a: nat, m: nat)
    ensures And(a, 2 * m) == 2 * And(a / 2, m)
  {
    assert 2 * m / 2 == m && 2 * m % 2 == 0;
  }

  lemma XorOdd(x: nat, y: nat)
    ensures Xor(2 * x + 1, 2 * y + 1) == 2 * Xor(x, y)
  {
    assert (2 * x + 1) / 2 == x && (2 * y + 1) / 2 == y;
  }

  lemma AndZero(a: nat)
    ensures And(a, 0) == 0
  {
  }

  lemma {:induction false} AndMaskLow(a: nat, s: nat)
    ensures And(a, Pow2(s) - 1) == LowPart(a, s)
    decreases s
  {
    hide And, Pow2;
    if s == 0 {
      Pow2Zero();
      AndZero(a);
    } else {
      Pow2Half(s);
      AndMaskLow(a / 2, s - 1);
      AndOdd(a, Pow2(s - 1) - 1);
    }
  }

  /** A low mask takes the remainder. */
  lemma AndMask(a: nat, s: nat)
    ensures And(a, Pow2(s) - 1) == a % Pow2(s)
  {
    hide And, Pow2;
    AndMaskLow(a, s);
    PartsAre(a, s);
  }

  lemma {:induction false} LowFits(a: nat, s: nat)
    ensures LowPart(a, s) <= a && (a < Pow2(s) ==> LowPart(a, s) == a)
    decreases s
  {
    if s > 0 {
      LowFits(a / 2, s - 1);
    }
  }

  lemma {:induction false} AndHighLow(a: nat, s: nat, w: nat)
    requires s <= w && a < Pow2(w)
    ensures Pow2(s) <= Pow2(w) && And(a, Pow2(w) - Pow2(s)) == a - LowPart(a, s)
    decreases s
  {
    hide And, Pow2;
    Pow2Grows(s, w);
    if s == 0 {
      Pow2Zero();
      AndMaskLow(a, w);
      LowFits(a, w);
    } else {
      Pow2Half(s);
      Pow2Half(w);
      AndHighLow(a / 2, s - 1, w - 1);
      AndEven(a, Pow2(w - 1) - Pow2(s - 1));
    }
  }

  /** The complement of a low mask takes the rest. */
  lemma AndHigh(a: nat, s: nat, w: nat)
    requires s <= w && a < Pow2(w)
    ensures Pow2(s) <= Pow2(w) && a % Pow2(s) <= a && And(a, Pow2(w) - Pow2(s)) == a - a % Pow2(s)
  {
    hide And, Pow2;
    AndHighLow(a, s, w);
    LowFits(a, s);
    PartsAre(a, s);
  }

  lemma SmallRemainder(a: nat, d: nat)
    requires a < d
    ensures a % d == a && a / d == 0
  {
    DivideUnique(a, d, 0, a);
  }

  lemma {:induction false} XorMask(s: nat, w: nat)
    requires s <= w
    ensures Pow2(s) <= Pow2(w) && Xor(Pow2(s) - 1, Pow2(w) - 1) == Pow2(w) - Pow2(s)
    decreases s
  {
    hide Xor, Pow2;
    Pow2Grows(s, w);
    if s == 0 {
      Pow2Zero();
      XorZero(Pow2(w) - 1);
    } else {
      Pow2Half(s);
      Pow2Half(w);
      XorMask(s - 1, w - 1);
      XorOdd(Pow2(s - 1) - 1, Pow2(w - 1) - 1);
    }
  }

  lemma XorZero(b: nat)
    ensures Xor(0, b) == b
  {
  }

  predicate Bit(a: nat, s: nat)
  {
    a / Pow2(s) % 2 == 1
  }

  lemma {:induction false} AndBit(a: nat, s: nat)
    ensures And(a, Pow2(s)) == if Bit(a, s) then Pow2(s) else 0
    decreases s
  {
    if a == 0 {
      SmallRemainder(0, Pow2(s));
    } else if s == 0 {
      assert And(a / 2, 0) == 0;
    } else {
      HalveBy(a, s);
      AndBit(a / 2, s - 1);
    }
  }

  lemma {:induction false} OrBit(a: nat, s: nat)
    ensures Or(a, Pow2(s)) == if Bit(a, s) then a else a + Pow2(s)
    decreases s
  {
    if a == 0 {
      SmallRemainder(0, Pow2(s));
    } else if s == 0 {
      assert Or(a / 2, 0) == a / 2;
    } else {
      HalveBy(a, s);
      OrBit(a / 2, s - 1);
    }
  }

  lemma XorStep(a: nat, m: nat)
    ensures Xor(a, 2 * m) == 2 * Xor(a / 2, m) + a % 2
  {
  }

  lemma {:induction false} XorBit(a: nat, s: nat)
    ensures Xor(a, Pow2(s)) == if Bit(a, s) then a - Pow2(s) else a + Pow2(s)
    decreases s
  {
    hide Xor;
    if a == 0 {
      SmallRemainder(0, Pow2(s));
      XorZero(Pow2(s));
    } else if s == 0 {
      XorOne(a);
    } else {
      HalveBy(a, s);
      XorBit(a / 2, s - 1);
      XorStep(a, Pow2(s - 1));
    }
  }

  lemma XorOne(a: nat)
    ensures Xor(a, 1) == if a % 2 == 1 then a - 1 else a + 1
  {
    assert Xor(a / 2, 0) == a / 2;
  }

  lemma {:induction false} AndBound(a: nat, b: nat)
    ensures And(a, b) <= a && And(a, b) <= b
  {
    if a != 0 && b != 0 {
      AndBound(a / 2, b / 2);
    }
  }

  lemma {:induction false} OrBound(a: nat, b: nat, w: nat)
    requires a < Pow2(w) && b < Pow2(w)
    ensures Or(a, b) < Pow2(w)
    decreases w
  {
    if a != 0 && b != 0 {
      OrBound(a / 2, b / 2, w - 1);
    }
  }

  lemma {:induction false} XorBound(a: nat, b: nat, w: nat)
    requires a < Pow2(w) && b < Pow2(w)
    ensures Xor(a, b) < Pow2(w)
    decreases w
  {
    if a != 0 && b != 0 {
      XorBound(a / 2, b / 2, w - 1);
    }
  }

  // ----- fields -----

  lemma OrStep(a: nat, b: nat)
    ensures Or(a, 2 * b) == 2 * Or(a / 2, b) + a % 2
  {
    assert 2 * b / 2 == b && 2 * b % 2 == 0;
  }

  /** Shifting the mask shifts what it selects. */
  lemma {:induction false} AndShift(a: nat, m: nat, s: nat)
    ensures And(a, Shifted(m, s)) == Shifted(And(HighPart(a, s), m), s)
    decreases s
  {
    hide And;
    if s > 0 {
      AndShift(a / 2, m, s - 1);
      AndEven(a, Shifted(m, s - 1));
    }
  }

  lemma {:induction false} OrShift(a: nat, b: nat, s: nat)
    ensures Or(a, Shifted(b, s)) == Shifted(Or(HighPart(a, s), b), s) + LowPart(a, s)
    decreases s
  {
    hide Or;
    if s > 0 {
      OrShift(a / 2, b, s - 1);
      OrStep(a, Shifted(b, s - 1));
    }
  }

  lemma {:induction false} PartsSum(a: nat, b: nat, s: nat)
    ensures Shifted(HighPart(a, s) + b, s) + LowPart(a, s) == a + Shifted(b, s)
    decreases s
  {
    if s > 0 {
      PartsSum(a / 2, b, s - 1);
    }
  }

  lemma OrHalf(a: nat, b: nat)
    requires a % 2 == 0
    ensures Or(a, b) == 2 * Or(a / 2, b / 2) + b % 2
  {
  }

  /** Bits that fill low zeros add up. */
  lemma {:induction false} OrLow(a: nat, b: nat, n: nat)
    requires LowPart(a, n) == 0 && b < Pow2(n)
    ensures Or(a, b) == a + b
    decreases n
  {
    hide Or;
    if n == 0 {
      OrZero(a);
    } else {
      OrHalf(a, b);
      OrLow(a / 2, b / 2, n - 1);
    }
  }

  lemma OrZero(a: nat)
    ensures Or(a, 0) == a && Or(0, a) == a
  {
  }

  /** Filling a field that is zero adds the value in place. */
  lemma OrField(a: nat, v: nat, s: nat, n: nat)
    requires v < Pow2(n) && LowPart(HighPart(a, s), n) == 0
    ensures Or(a, Shifted(v, s)) == a + Shifted(v, s)
  {
    hide Or, Pow2;
    OrShift(a, v, s);
    OrLow(HighPart(a, s), v, n);
    PartsSum(a, v, s);
  }
}
