/** Little-endian fields in byte buffers: reading, patching in place, and sign
    extension. */
module ByteOrder {
  import opened Words

  ghost predicate IsBytes(s: seq<nat>)
  {
    forall k :: 0 <= k < |s| ==> s[k] < 256
  }

  /** The number stored in `size` bytes from `at`, least significant first. */
  function Read(s: seq<nat>, at: nat, size: nat): nat
    requires at + size <= |s|
    decreases size
  {
    if size == 0 then 0 else s[at] + 256 * Read(s, at + 1, size - 1)
  }

  /** The buffer with those bytes replaced by the low bytes of `v`. */
  function Patched(s: seq<nat>, at: nat, v: nat, size: nat): (r: seq<nat>)
    requires at + size <= |s|
    ensures |r| == |s|
    decreases size
  {
    if size == 0 then s else Patched(s[at := v % 256], at + 1, v / 256, size - 1)
  }

  function Span(size: nat): (r: nat)
    ensures r > 0
  {
    if size == 0 then 1 else 256 * Span(size - 1)
  }

  lemma {:induction false} PatchedElsewhere(s: seq<nat>, at: nat, v: nat, size: nat, k: nat)
    requires at + size <= |s| && k < |s| && (k < at || at + size <= k)
    ensures Patched(s, at, v, size)[k] == s[k]
    decreases size
  {
    if size > 0 {
      PatchedElsewhere(s[at := v % 256], at + 1, v / 256, size - 1, k);
    }
  }

  lemma {:induction false} PatchedBytes(s: seq<nat>, at: nat, v: nat, size: nat)
    requires at + size <= |s| && IsBytes(s)
    ensures IsBytes(Patched(s, at, v, size))
    decreases size
  {
    if size > 0 {
      PatchedBytes(s[at := v % 256], at + 1, v / 256, size - 1);
    }
  }

  /** Reading back gives the low bytes of what was written. */
  lemma {:induction false} ReadPatched(s: seq<nat>, at: nat, v: nat, size: nat)
    requires at + size <= |s|
    ensures Read(Patched(s, at, v, size), at, size) == v % Span(size)
    decreases size
  {
    if size > 0 {
      var t := s[at := v % 256];
      ReadPatched(t, at + 1, v / 256, size - 1);
      PatchedElsewhere(t, at + 1, v / 256, size - 1, at);
      LowByte(v, Span(size - 1));
    }
  }

  lemma LowByte(v: nat, m: nat)
    requires m > 0
    ensures v % (256 * m) == v % 256 + 256 * ((v / 256) % m)
  {
    var h := v / 256;
    var q, r := h / m, h % m;
    assert h == q * m + r;
    Associate(q, 256, m);
    Associate(256, q, m);
    DivideUnique(v, 256 * m, q, 256 * r + v % 256);
  }

  lemma {:induction false} ReadSame(s: seq<nat>, t: seq<nat>, at: nat, size: nat)
    requires at + size <= |s| == |t|
    requires forall k :: at <= k < at + size ==> s[k] == t[k]
    ensures Read(s, at, size) == Read(t, at, size)
    decreases size
  {
    if size > 0 {
      ReadSame(s, t, at + 1, size - 1);
    }
  }

  lemma {:induction false} ReadBound(s: seq<nat>, at: nat, size: nat)
    requires at + size <= |s| && IsBytes(s)
    ensures Read(s, at, size) < Span(size)
    decreases size
  {
    if size > 0 {
      ReadBound(s, at + 1, size - 1);
    }
  }

  /** The read loop of the code, a byte at a time from the low end. */
  method ReadBytes(s: seq<nat>, at: nat, size: nat) returns (v: nat)
    requires at + size <= |s| && IsBytes(s)
    ensures v == Read(s, at, size)
  {
    hide Or, Pow2;
    v := 0;
    Pow2Zero();
    for n := 0 to size
      invariant v == Read(s[at..at + n], 0, n) && v < Pow2(8 * n)
    {
      ReadLonger(s, at, n);
      Pow2Add(8, 8 * n);
      ByteAbove(v, s[at + n], 8 * n);
      v := Or(v, Shifted(s[at + n], 8 * n));
    }
    ReadSlice(s, at, size);
  }

  lemma ByteAbove(v: nat, b: nat, s: nat)
    requires v < Pow2(s) && b < 256
    ensures Or(v, Shifted(b, s)) == v + Shifted(b, s) == v + b * Pow2(s) < Pow2(s + 8)
  {
    hide Or, Pow2;
    OrShift(v, b, s);
    LowFits(v, s);
    PartsAre(v, s);
    SmallRemainder(v, Pow2(s));
    OrZero(b);
    ShiftedIs(b, s);
    Eight();
    Pow2Add(8, s);
    Room(v, b, Pow2(s));
  }

  lemma Room(v: nat, b: nat, p: nat)
    requires v < p && b < 256
    ensures v + b * p < 256 * p
  {
    Products(255 - b, p);
    assert (255 - b) * p == 255 * p - b * p;
  }

  lemma Eight()
    ensures Pow2(8) == 256
  {
  }

  lemma {:induction false} ReadAppend(s: seq<nat>, b: nat)
    ensures Read(s + [b], 0, |s| + 1) == Read(s, 0, |s|) + b * Pow2(8 * |s|)
    decreases |s|
  {
    if s == [] {
      Pow2Zero();
    } else {
      ReadTail(s, |s|);
      ReadTail(s + [b], |s| + 1);
      assert (s + [b])[1..] == s[1..] + [b];
      ReadAppend(s[1..], b);
      Eight();
      Pow2Add(8, 8 * |s| - 8);
      Associate(b, 256, Pow2(8 * |s| - 8));
      Associate(256, b, Pow2(8 * |s| - 8));
    }
  }

  lemma {:induction false} ReadFrom(s: seq<nat>, at: nat, from: nat, size: nat)
    requires from <= at && at + size <= |s|
    ensures Read(s, at, size) == Read(s[from..], at - from, size)
    decreases size
  {
    if size > 0 {
      ReadFrom(s, at + 1, from, size - 1);
    }
  }

  lemma ReadTail(s: seq<nat>, size: nat)
    requires 0 < size <= |s|
    ensures Read(s, 0, size) == s[0] + 256 * Read(s[1..], 0, size - 1)
  {
    ReadFrom(s, 1, 1, size - 1);
  }

  lemma ReadSlice(s: seq<nat>, at: nat, size: nat)
    requires at + size <= |s|
    ensures Read(s[at..at + size], 0, size) == Read(s, at, size)
  {
    ReadFrom(s, at, at, size);
    var t := s[at..];
    assert s[at..at + size] == t[..size];
    ReadPrefix(t, 0, size, size);
  }

  lemma {:induction false} ReadPrefix(t: seq<nat>, at: nat, size: nat, n: nat)
    requires at + size <= n <= |t|
    ensures Read(t[..n], at, size) == Read(t, at, size)
    decreases size
  {
    if size > 0 {
      ReadPrefix(t, at + 1, size - 1, n);
    }
  }

  lemma ReadLonger(s: seq<nat>, at: nat, n: nat)
    requires at + n < |s|
    ensures Read(s[at..at + (n + 1)], 0, n + 1) == Read(s[at..at + n], 0, n) + s[at + n] * Pow2(8 * n)
  {
    assert s[at..at + (n + 1)] == s[at..at + n] + [s[at + n]];
    ReadAppend(s[at..at + n], s[at + n]);
  }

  /** Write the low bytes of `v` in place. */
  method WriteBytes(b: array<nat>, at: nat, v: nat, size: nat)
    requires at + size <= b.Length
    modifies b
    ensures b[..] == old(Patched(b[..], at, v, size))
  {
    var rest := v;
    for n := 0 to size
      invariant Patched(b[..], at + n, rest, size - n) == old(Patched(b[..], at, v, size))
    {
      ghost var before := b[..];
      b[at + n] := rest % 256;
      assert b[..] == before[at + n := rest % 256];
      rest := rest / 256;
    }
  }

  // ----- two's complement -----

  /** The integer that an `n`-bit field stands for. */
  function Signed(v: nat, n: nat): int
    requires n > 0
  {
    if v < Pow2(n - 1) then v else v - Pow2(n)
  }

  /** An integer in range survives truncation to `n` bits. */
  lemma SignedRound(d: int, n: nat)
    requires n > 0 && 0 <= d + Pow2(n - 1) && d < Pow2(n - 1)
    ensures 0 <= d % Pow2(n) < Pow2(n) && Signed(d % Pow2(n), n) == d
  {
    hide Pow2;
    Pow2Half(n);
    DivideUnique(d, Pow2(n), if d >= 0 then 0 else -1, if d >= 0 then d else d + Pow2(n));
  }
}
