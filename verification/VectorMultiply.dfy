/** Lane-wise multiplication of 32-bit and 64-bit lanes from instructions that multiply only
    32-bit halves. */
module VectorMultiply {
  import Words
  import opened VectorCompare

  // ----- instructions -----

  function Lane(q: Quad, k: nat): nat
    requires k < 2
  {
    if k == 0 then Join(q.d1, q.d0) else Join(q.d3, q.d2)
  }

  /** A vector of two 64-bit lanes. */
  function Lanes(x: nat, y: nat): (q: Quad)
    requires x < TWO64 && y < TWO64
    ensures Lane(q, 0) == x && Lane(q, 1) == y
  {
    Quad(x % TWO32, x / TWO32, y % TWO32, y / TWO32)
  }

  /** The full product of the low halves of each lane. */
  function MultiplyWide(x: Quad, y: Quad): Quad
  {
    Lanes(Product(x.d0, y.d0), Product(x.d2, y.d2))
  }

  function Product(x: Dword, y: Dword): (p: nat)
    ensures p == x * y < TWO64
  {
    ProductFits(x, y);
    x * y
  }

  lemma ProductFits(x: Dword, y: Dword)
    ensures 0 <= x * y < TWO64
  {
    Bounded(x, y, 0xFFFF_FFFF);
  }

  lemma Bounded(x: nat, y: nat, m: nat)
    requires x <= m && y <= m
    ensures 0 <= x * y <= m * m
  {
    assert m * m - x * y == m * (m - y) + (m - x) * y;
  }

  function ShiftRight32(x: Quad): Quad { Quad(x.d1, 0, x.d3, 0) }

  function ShiftLeft32(x: Quad): Quad { Quad(0, x.d0, 0, x.d2) }

  function Add64(x: Quad, y: Quad): Quad
  {
    Lanes((Lane(x, 0) + Lane(y, 0)) % TWO64, (Lane(x, 1) + Lane(y, 1)) % TWO64)
  }

  /** Bytes down by one double word. */
  function DropDword(x: Quad): Quad { Quad(x.d1, x.d2, x.d3, 0) }

  function Unpack32(x: Quad, y: Quad): Quad { Quad(x.d0, y.d0, x.d1, y.d1) }

  function SwapHalves(x: Quad): Quad { Quad(x.d1, x.d0, x.d3, x.d2) }

  function Low(n: nat): Dword { n % TWO32 }

  function Multiply32(x: Quad, y: Quad): Quad
  {
    Quad(Low(Product(x.d0, y.d0)), Low(Product(x.d1, y.d1)), Low(Product(x.d2, y.d2)), Low(Product(x.d3, y.d3)))
  }

  function PairAdd32(x: Quad, y: Quad): Quad
  {
    Quad(Low(x.d0 + x.d1), Low(x.d2 + x.d3), Low(y.d0 + y.d1), Low(y.d2 + y.d3))
  }

  /** The low double words, each shifted up into a lane of its own. */
  function WidenShift32(x: Quad): Quad { Quad(0, x.d0, 0, x.d1) }

  /** The low halves of the lanes, side by side. */
  function Narrow(x: Quad): Quad { Quad(x.d0, x.d2, 0, 0) }

  function MultiplyLow(x: Quad, y: Quad): Quad
  {
    Lanes(Product(x.d0, y.d0), Product(x.d1, y.d1))
  }

  // ----- lowering -----

  function Multiply64Sse2(a: Quad, b: Quad): Quad
  {
    var first := MultiplyWide(a, b);
    var cross := Add64(MultiplyWide(ShiftRight32(a), b), MultiplyWide(a, ShiftRight32(b)));
    Add64(first, ShiftLeft32(cross))
  }

  function Multiply32Sse2(a: Quad, b: Quad): Quad
  {
    var even := Shuffle32(MultiplyWide(a, b), 0x88);
    var odd := Shuffle32(MultiplyWide(DropDword(a), DropDword(b)), 0x88);
    Unpack32(even, odd)
  }

  function Multiply64Neon(a: Quad, b: Quad): Quad
  {
    var products := Multiply32(a, SwapHalves(b));
    var cross := PairAdd32(products, products);
    Add64(MultiplyLow(Narrow(a), Narrow(b)), WidenShift32(cross))
  }

  // ----- arithmetic of halves -----

  lemma DropMultiples(n: nat, x: nat, m: nat)
    requires m > 0
    ensures (n * m + x) % m == x % m
  {
    Words.DivideUnique(n * m + x, m, n + x / m, x % m);
  }

  lemma Expand(ah: nat, al: nat, bh: nat, bl: nat, t: nat)
    ensures (ah * t + al) * (bh * t + bl) == (ah * bh) * (t * t) + (ah * bl + al * bh) * t + al * bl
  {
  }

  /** Modulo 2^64, the product of two lanes is the product of the low halves and the low half
      of the cross products, shifted up. */
  lemma HalvesProduct(ah: Dword, al: Dword, bh: Dword, bl: Dword)
    ensures (al * bl + Low(ah * bl + al * bh) * TWO32) % TWO64 == (Join(ah, al) * Join(bh, bl)) % TWO64
  {
    Expand(ah, al, bh, bl, TWO32);
    var p, q, c: nat := al * bl, ah * bh, ah * bl + al * bh;
    Carry(p, q, c);
  }

  lemma Carry(p: nat, q: nat, c: nat)
    ensures (p + Low(c) * TWO32) % TWO64 == (q * (TWO32 * TWO32) + c * TWO32 + p) % TWO64
  {
    var n, r := c / TWO32, c % TWO32;
    assert c * TWO32 == n * TWO64 + r * TWO32;
    DropMultiples(q + n, p + r * TWO32, TWO64);
    assert q * (TWO32 * TWO32) + c * TWO32 + p == (q + n) * TWO64 + (p + r * TWO32);
  }

  /** A sum of cross products kept to 64 bits has the low half it needs. */
  lemma LowOfSum(c: nat)
    ensures Low(c % TWO64) == Low(c)
  {
    var n := c / TWO64;
    assert c == (n * TWO32) * TWO32 + c % TWO64;
    DropMultiples(n * TWO32, c % TWO64, TWO32);
  }

  // ----- lane by lane -----

  lemma WideLane(x: Quad, y: Quad, k: nat)
    requires k < 2
    ensures Lane(MultiplyWide(x, y), k) == Product(x.At(2 * k), y.At(2 * k))
  {
    hide Product, Lanes, Lane;
  }

  lemma SumLane(x: Quad, y: Quad, k: nat)
    requires k < 2
    ensures Lane(Add64(x, y), k) == (Lane(x, k) + Lane(y, k)) % TWO64
  {
    hide Lanes, Lane;
  }

  lemma LeftLane(x: Quad, k: nat)
    requires k < 2
    ensures Lane(ShiftLeft32(x), k) == Low(Lane(x, k)) * TWO32
  {
    assert x.At(2 * k) == Low(Lane(x, k)) by {
      DropMultiples(x.At(2 * k + 1), x.At(2 * k), TWO32);
    }
  }

  lemma HighLane(x: Quad, k: nat)
    requires k < 2
    ensures ShiftRight32(x).At(2 * k) == x.At(2 * k + 1) && Lane(x, k) == Join(x.At(2 * k + 1), x.At(2 * k))
  {
  }

  // ----- exactness -----

  /** 64-bit lanes multiply exactly modulo 2^64 on SSE2, for all inputs. */
  lemma Multiply64Sse2Exact(a: Quad, b: Quad, k: nat)
    requires k < 2
    ensures Lane(Multiply64Sse2(a, b), k) == (Lane(a, k) * Lane(b, k)) % TWO64
  {
    hide Lane, Lanes, Join, Low, Quad.At, ShiftLeft32, ShiftRight32, MultiplyWide, Add64, Product;
    var al, ah, bl, bh := a.At(2 * k), a.At(2 * k + 1), b.At(2 * k), b.At(2 * k + 1);
    var first := MultiplyWide(a, b);
    var left, right := MultiplyWide(ShiftRight32(a), b), MultiplyWide(a, ShiftRight32(b));
    var cross := Add64(left, right);
    HighLane(a, k);
    HighLane(b, k);
    WideLane(a, b, k);
    WideLane(ShiftRight32(a), b, k);
    WideLane(a, ShiftRight32(b), k);
    SumLane(left, right, k);
    LeftLane(cross, k);
    SumLane(first, ShiftLeft32(cross), k);
    LowOfSum(Product(ah, bl) + Product(al, bh));
    HalvesProduct(ah, al, bh, bl);
  }

  /** Twice the lanes, each with its own cross products kept to 32 bits. */
  lemma CrossDword(a: Quad, b: Quad, k: nat)
    requires k < 2
    ensures var products := Multiply32(a, SwapHalves(b));
            PairAdd32(products, products).At(k) == Low(Low(Product(a.At(2 * k), b.At(2 * k + 1))) + Low(Product(a.At(2 * k + 1), b.At(2 * k))))
  {
    hide Product, Low;
  }

  lemma LowSum(x: nat, y: nat)
    ensures Low(Low(x) + Low(y)) == Low(x + y)
  {
    var n := x / TWO32 + y / TWO32;
    assert x + y == n * TWO32 + (Low(x) + Low(y));
    DropMultiples(n, Low(x) + Low(y), TWO32);
  }

  lemma WidenLane(x: Quad, y: Quad, c: Quad, k: nat)
    requires k < 2
    ensures Lane(WidenShift32(c), k) == c.At(k) * TWO32
    ensures Lane(MultiplyLow(Narrow(x), Narrow(y)), k) == Product(x.At(2 * k), y.At(2 * k))
  {
    hide Product;
  }

  /** And on NEON. */
  lemma Multiply64NeonExact(a: Quad, b: Quad, k: nat)
    requires k < 2
    ensures Lane(Multiply64Neon(a, b), k) == (Lane(a, k) * Lane(b, k)) % TWO64
  {
    hide Lane, Lanes, Join, Low, Quad.At, Narrow, WidenShift32, MultiplyLow, PairAdd32, Multiply32, SwapHalves, Add64, Product;
    var al, ah, bl, bh := a.At(2 * k), a.At(2 * k + 1), b.At(2 * k), b.At(2 * k + 1);
    var products := Multiply32(a, SwapHalves(b));
    var cross := PairAdd32(products, products);
    HighLane(a, k);
    HighLane(b, k);
    CrossDword(a, b, k);
    LowSum(Product(al, bh), Product(ah, bl));
    WidenLane(a, b, cross, k);
    SumLane(MultiplyLow(Narrow(a), Narrow(b)), WidenShift32(cross), k);
    HalvesProduct(ah, al, bh, bl);
  }

  /** 32-bit lanes multiply exactly modulo 2^32 on SSE2, even lanes and odd lanes apart. */
  lemma Multiply32Sse2Exact(a: Quad, b: Quad, k: nat)
    requires k < 4
    ensures Multiply32Sse2(a, b).At(k) == (a.At(k) * b.At(k)) % TWO32
  {
    Evens(MultiplyWide(a, b));
    Evens(MultiplyWide(DropDword(a), DropDword(b)));
  }

  lemma Evens(q: Quad)
    ensures Shuffle32(q, 0x88) == Quad(q.d0, q.d2, q.d0, q.d2)
  {
  }
}
