/** Straight-line 64-bit integer code, as the vector lowering emits it for one lane,
    and the value it computes. */
module WordCode {
  import opened Words

  const TWO_64: nat := 0x1_0000_0000_0000_0000

  type Word = w: nat | w < TWO_64

  lemma WordSize()
    ensures Pow2(64) == TWO_64
  {
    hide Pow2;
    Sixteen();
    Doubled(4, 16);
    Doubled(8, 0x100);
    Doubled(16, 0x1_0000);
    Doubled(32, 0x1_0000_0000);
  }

  lemma Sixteen()
    ensures Pow2(4) == 16
  {
  }

  lemma Doubled(n: nat, v: nat)
    requires Pow2(n) == v
    ensures Pow2(2 * n) == v * v
  {
    Pow2Add(n, n);
  }

  datatype Opcode = And | Or | Xor | Add | Sub | Mul | Lsh | URsh | Eq | Ne | ULt | UGe | UGt

  datatype Expr = Lane | Number(value: Word) | Gp(op: Opcode, a: Expr, b: Expr)

  function Flag(b: bool): Word
  {
    if b then 1 else 0
  }

  lemma WordOr(a: Word, b: Word)
    ensures Words.Or(a, b) < TWO_64 && Words.Xor(a, b) < TWO_64
  {
    hide Pow2, Words.Or, Words.Xor;
    WordSize();
    OrBound(a, b, 64);
    XorBound(a, b, 64);
  }

  function Apply(op: Opcode, a: Word, b: Word): (r: Word)
  {
    match op
    case And => AndBound(a, b); Words.And(a, b)
    case Or => WordOr(a, b); Words.Or(a, b)
    case Xor => WordOr(a, b); Words.Xor(a, b)
    case Add => (a + b) % TWO_64
    case Sub => (a - b) % TWO_64
    case Mul => a * b % TWO_64
    case Lsh => Shifted(a, b % 64) % TWO_64
    case URsh => Shrinks(a, b % 64); HighPart(a, b % 64)
    case Eq => Flag(a == b)
    case Ne => Flag(a != b)
    case ULt => Flag(a < b)
    case UGe => Flag(a >= b)
    case UGt => Flag(a > b)
  }

  lemma {:induction false} Shrinks(a: nat, s: nat)
    ensures HighPart(a, s) <= a
    decreases s
  {
    if s > 0 {
      Shrinks(a / 2, s - 1);
    }
  }

  /** The value of code for a lane that holds `x`. */
  function Eval(e: Expr, x: Word): Word
  {
    match e
    case Lane => x
    case Number(n) => n
    case Gp(op, a, b) => Apply(op, Eval(a, x), Eval(b, x))
  }

  /** Branch-free selection by a flag. */
  function Choose(condition: Expr, a: Expr, b: Expr): Expr
  {
    var mask := Gp(Sub, Number(0), condition);
    Gp(Or, Gp(And, a, mask), Gp(And, b, Gp(Xor, mask, Number(TWO_64 - 1))))
  }

  lemma AllOnes(a: Word)
    ensures Words.And(a, TWO_64 - 1) == a && Words.And(a, 0) == 0
    ensures Words.Or(a, 0) == a && Words.Or(0, a) == a
  {
    hide Words.And, Words.Or, Pow2;
    WordSize();
    AndMask(a, 64);
    SmallRemainder(a, TWO_64);
    AndZero(a);
    OrZero(a);
  }

  lemma MaskFlips()
    ensures Words.Xor(0, TWO_64 - 1) == TWO_64 - 1 && Words.Xor(TWO_64 - 1, TWO_64 - 1) == 0
  {
    hide Words.Xor, Pow2;
    WordSize();
    XorZero(TWO_64 - 1);
    XorMask(64, 64);
  }

  /** `Choose` selects, for every flag and all words. */
  lemma ChooseSelects(condition: Expr, a: Expr, b: Expr, x: Word)
    requires Eval(condition, x) <= 1
    ensures Eval(Choose(condition, a, b), x) == if Eval(condition, x) == 1 then Eval(a, x) else Eval(b, x)
  {
    hide Words.And, Words.Or, Words.Xor, Pow2;
    AllOnes(Eval(a, x));
    AllOnes(Eval(b, x));
    MaskFlips();
    var c, u, v := Eval(condition, x), Eval(a, x), Eval(b, x);
    var mask := Gp(Sub, Number(0), condition);
    var flipped := Gp(Xor, mask, Number(TWO_64 - 1));
    assert Eval(mask, x) == Apply(Sub, 0, c) == if c == 1 then TWO_64 - 1 else 0;
    assert Eval(flipped, x) == if c == 1 then 0 else TWO_64 - 1;
    assert Eval(Gp(And, a, mask), x) == if c == 1 then u else 0;
    assert Eval(Gp(And, b, flipped), x) == if c == 1 then 0 else v;
  }

  lemma FlagsCombine(p: bool, q: bool)
    ensures Words.And(Flag(p), Flag(q)) == Flag(p && q) && Words.Or(Flag(p), Flag(q)) == Flag(p || q)
  {
  }
}
