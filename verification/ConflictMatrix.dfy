/** Symmetric conflicts between scanned registers, kept as the upper triangle of a
    square matrix in one vector of bits. */
module ConflictMatrix {

  /** The cell of an unordered pair; the diagonal has cells of its own. */
  function ConflictBit(a: nat, b: nat, dimension: nat): int
    requires a < dimension && b < dimension
  {
    var low, high := if a > b then b else a, if a > b then a else b;
    low * dimension - low * (low + 1) / 2 + high
  }

  /** Cells are counted without overflow by halving the even factor first. */
  function BitCount(dimension: nat): nat
  {
    if dimension % 2 != 0 then dimension * ((dimension + 1) / 2) else (dimension / 2) * (dimension + 1)
  }

  /** Where row `a` of the triangle starts. */
  ghost function RowStart(a: nat, dimension: nat): nat
    requires a <= dimension
    decreases a
  {
    if a == 0 then 0 else RowStart(a - 1, dimension) + (dimension - (a - 1))
  }

  lemma {:induction false} RowFormula(a: nat, dimension: nat)
    requires a <= dimension
    ensures a * (a + 1) % 2 == 0
    ensures RowStart(a, dimension) == a * dimension - a * (a + 1) / 2 + a
    decreases a
  {
    if a > 0 {
      RowFormula(a - 1, dimension);
      Expand(a, dimension);
    }
  }

  lemma Expand(a: int, d: int)
    ensures a * (a + 1) == (a - 1) * (a - 1 + 1) + 2 * a && a * d == (a - 1) * d + d
  {
  }

  lemma {:induction false} RowsIncrease(a: nat, b: nat, dimension: nat)
    requires a < b <= dimension
    ensures RowStart(a, dimension) + (dimension - a) <= RowStart(b, dimension)
    decreases b
  {
    if a < b - 1 {
      RowsIncrease(a, b - 1, dimension);
    }
  }

  lemma BitCountIsRows(dimension: nat)
    ensures BitCount(dimension) == RowStart(dimension, dimension)
  {
    RowFormula(dimension, dimension);
    var half := dimension * (dimension + 1) / 2;
    if dimension % 2 != 0 {
      var k := (dimension + 1) / 2;
      assert dimension * (dimension + 1) == dimension * (2 * k) == 2 * (dimension * k);
    } else {
      var k := dimension / 2;
      assert dimension * (dimension + 1) == (2 * k) * (dimension + 1) == 2 * (k * (dimension + 1));
    }
    assert dimension * dimension + dimension == 2 * half;
  }

  lemma BitInRow(low: nat, high: nat, dimension: nat)
    requires low <= high < dimension
    ensures ConflictBit(low, high, dimension) == RowStart(low, dimension) + (high - low)
    ensures 0 <= ConflictBit(low, high, dimension) < BitCount(dimension)
  {
    RowFormula(low, dimension);
    RowsIncrease(low, dimension, dimension);
    BitCountIsRows(dimension);
  }

  lemma BitInRange(a: nat, b: nat, dimension: nat)
    requires a < dimension && b < dimension
    ensures 0 <= ConflictBit(a, b, dimension) < BitCount(dimension)
  {
    if a <= b { BitInRow(a, b, dimension); } else { BitInRow(b, a, dimension); }
  }

  /** Different unordered pairs have different cells. */
  lemma BitDeterminesPair(a: nat, b: nat, c: nat, d: nat, dimension: nat)
    requires a < dimension && b < dimension && c < dimension && d < dimension
    requires ConflictBit(a, b, dimension) == ConflictBit(c, d, dimension)
    ensures (a == c && b == d) || (a == d && b == c)
  {
    var l1, h1 := if a > b then b else a, if a > b then a else b;
    var l2, h2 := if c > d then d else c, if c > d then c else d;
    BitInRow(l1, h1, dimension);
    BitInRow(l2, h2, dimension);
    if l1 < l2 {
      RowsIncrease(l1, l2, dimension);
    } else if l2 < l1 {
      RowsIncrease(l2, l1, dimension);
    }
  }

  // ----- the matrix over scanned registers -----

  /** Scanned registers are numbered from 0 without gaps or repeats. */
  ghost predicate Numbered(compact: map<nat, nat>, dimension: nat)
  {
    && (forall r :: r in compact ==> compact[r] < dimension)
    && (forall r, s :: r in compact && s in compact && r != s ==> compact[r] != compact[s])
  }

  predicate Has(bits: seq<bool>, compact: map<nat, nat>, dimension: nat, x: nat, y: nat)
  {
    && x in compact && compact[x] < dimension && y in compact && compact[y] < dimension
    && 0 <= ConflictBit(compact[x], compact[y], dimension) < |bits|
    && bits[ConflictBit(compact[x], compact[y], dimension)]
  }

  lemma MarkOne(bits: seq<bool>, compact: map<nat, nat>, dimension: nat, d: nat, other: nat, bits': seq<bool>)
    requires Numbered(compact, dimension) && |bits| == BitCount(dimension) && d in compact && other in compact
    requires 0 <= ConflictBit(compact[d], compact[other], dimension) < |bits|
    requires bits' == bits[ConflictBit(compact[d], compact[other], dimension) := true]
    ensures forall x, y :: x in compact && y in compact ==>
              (Has(bits', compact, dimension, x, y) <==>
               Has(bits, compact, dimension, x, y) || (x == d && y == other) || (x == other && y == d))
  {
    forall x, y | x in compact && y in compact
      ensures Has(bits', compact, dimension, x, y) <==>
              Has(bits, compact, dimension, x, y) || (x == d && y == other) || (x == other && y == d)
    {
      var cell := ConflictBit(compact[x], compact[y], dimension);
      BitInRange(compact[x], compact[y], dimension);
      if cell == ConflictBit(compact[d], compact[other], dimension) {
        BitDeterminesPair(compact[x], compact[y], compact[d], compact[other], dimension);
      }
    }
  }

  /** Record that `d` conflicts with each register of `others`. */
  method Mark(bits: seq<bool>, compact: map<nat, nat>, dimension: nat, d: nat, others: set<nat>) returns (bits': seq<bool>)
    requires Numbered(compact, dimension) && |bits| == BitCount(dimension)
    requires d in compact && forall y :: y in others ==> y in compact
    ensures |bits'| == |bits|
    ensures forall x, y :: x in compact && y in compact ==>
              (Has(bits', compact, dimension, x, y) <==>
               Has(bits, compact, dimension, x, y) || (x == d && y in others) || (x in others && y == d))
  {
    hide ConflictBit, BitCount;
    bits' := bits;
    var todo := others;
    while todo != {}
      invariant todo <= others && |bits'| == |bits|
      invariant forall x, y :: x in compact && y in compact ==>
                  (Has(bits', compact, dimension, x, y) <==>
                   Has(bits, compact, dimension, x, y)
                   || (x == d && y in others - todo) || (x in others - todo && y == d))
      decreases todo
    {
      var other :| other in todo;
      BitInRange(compact[d], compact[other], dimension);
      ghost var before := bits';
      bits' := bits'[ConflictBit(compact[d], compact[other], dimension) := true];
      MarkOne(before, compact, dimension, d, other, bits');
      todo := todo - {other};
    }
  }
}
