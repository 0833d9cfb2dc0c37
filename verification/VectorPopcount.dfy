/** Population count of bytes by sideways addition on SSE2, which shifts 16-bit lanes only. */
module VectorPopcount {
  import opened VectorShuffle

  // ----- instructions -----

  /** The low byte of a 16-bit number shifted down, from its low and high byte. */
  function Down(low: bv8, high: bv8, n: nat): bv8
    requires n == 1 || n == 2 || n == 4
  {
    if n == 1 then (low >> 1) | (high << 7) else if n == 2 then (low >> 2) | (high << 6) else (low >> 4) | (high << 4)
  }

  /** Bits shifted down within 16-bit lanes: the low byte of a lane takes bits of the high one. */
  function BitsRight16(v: Vec, n: nat): Vec
    requires n == 1 || n == 2 || n == 4
  {
    seq(16, i requires 0 <= i < 16 => Down(v[i], if i % 2 == 0 then v[i + 1] else 0, n))
  }

  function AndAll(v: Vec, m: bv8): Vec
  {
    seq(16, i requires 0 <= i < 16 => v[i] & m)
  }

  function AddBytes(x: Vec, y: Vec): Vec
  {
    seq(16, i requires 0 <= i < 16 => x[i] + y[i])
  }

  function SubBytes(x: Vec, y: Vec): Vec
  {
    seq(16, i requires 0 <= i < 16 => x[i] - y[i])
  }

  // ----- lowering -----

  function PairCounts(a: Vec): Vec { SubBytes(a, AndAll(BitsRight16(a, 1), 0x55)) }

  function NibbleCounts(a: Vec): Vec { AddBytes(AndAll(a, 0x33), AndAll(BitsRight16(a, 2), 0x33)) }

  function ByteCounts(a: Vec): Vec { AndAll(AddBytes(a, BitsRight16(a, 4)), 0x0F) }

  function Popcount(a: Vec): Vec { ByteCounts(NibbleCounts(PairCounts(a))) }

  // ----- what it counts -----

  /** The sum of the bits of a byte. */
  function Ones(x: bv8): bv8
  {
    (x & 1) + ((x >> 1) & 1) + ((x >> 2) & 1) + ((x >> 3) & 1) + ((x >> 4) & 1) + ((x >> 5) & 1) + ((x >> 6) & 1) + ((x >> 7) & 1)
  }

  /** Bits that come from the neighbouring byte are masked away. */
  lemma NoLeak(x: bv8, y: bv8)
    ensures Down(x, y, 1) & 0x55 == (x >> 1) & 0x55
    ensures Down(x, y, 2) & 0x33 == (x >> 2) & 0x33
  {
  }

  lemma NoLeakSum(x: bv8, y: bv8)
    ensures (x + Down(x, y, 4)) & 0x0F == (x + (x >> 4)) & 0x0F
  {
  }

  /** Counts of pairs, of nibbles, of the byte. */
  lemma Sideways(x: bv8)
    ensures var p := x - ((x >> 1) & 0x55);
            var n := (p & 0x33) + ((p >> 2) & 0x33);
            (n + (n >> 4)) & 0x0F == Ones(x)
  {
  }

  /** The other byte of a 16-bit lane, for its low byte. */
  function Above(v: Vec, i: nat): bv8
    requires i < 16
  {
    if i % 2 == 0 then v[i + 1] else 0
  }

  lemma StagesAt(a: Vec, i: nat)
    requires i < 16
    ensures PairCounts(a)[i] == a[i] - (Down(a[i], Above(a, i), 1) & 0x55)
    ensures NibbleCounts(a)[i] == (a[i] & 0x33) + (Down(a[i], Above(a, i), 2) & 0x33)
    ensures ByteCounts(a)[i] == (a[i] + Down(a[i], Above(a, i), 4)) & 0x0F
  {
    hide Down;
  }

  /** Every byte of the result is the number of ones of its own byte of the input. */
  lemma PopcountExact(a: Vec, i: nat)
    requires i < 16
    ensures Popcount(a)[i] == Ones(a[i])
  {
    hide Ones, Down, PairCounts, NibbleCounts, ByteCounts, Above;
    var p := PairCounts(a);
    var n := NibbleCounts(p);
    StagesAt(a, i);
    StagesAt(p, i);
    StagesAt(n, i);
    NoLeak(a[i], Above(a, i));
    NoLeak(p[i], Above(p, i));
    NoLeakSum(n[i], Above(n, i));
    Sideways(a[i]);
  }
}
