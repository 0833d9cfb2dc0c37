/** AArch64 branch and address instructions as words: the displacement fields and the
    patches that fill them. */
module BranchFields {
  import opened Optional
  import opened Words
  import opened ByteOrder


  const WORD: nat := 0x1_0000_0000

  // ----- fields -----

  function Imm26(word: nat): nat
  {
    word % 0x400_0000
  }

  function Imm19(word: nat): nat
  {
    word / 32 % 0x8_0000
  }

  /** The low two bits of an address are kept apart from the others. */
  function ImmAddress(word: nat): nat
  {
    Imm19(word) * 4 + word / 0x2000_0000 % 4
  }

  /** The bits of a displacement in words, shifted to its field, or nothing when it is
      unaligned or out of range. */
  function BranchField(difference: int, short: bool): (field: Option<nat>)
  {
    var limit := if short then 0x10_0000 else 0x800_0000;
    if difference % 4 != 0 || difference < -limit || difference >= limit then None
    else
      var value := And(difference / 4 % WORD, if short then 0x7_ffff else 0x3ff_ffff);
      Some(if short then Shifted(value, 5) else value)
  }

  lemma FieldPowers()
    ensures Pow2(2) == 4 && Pow2(5) == 32 && Pow2(18) == 0x4_0000 && Pow2(19) == 0x8_0000
    ensures Pow2(20) == 0x10_0000 && Pow2(21) == 0x20_0000 && Pow2(24) == 0x100_0000
    ensures Pow2(25) == 0x200_0000 && Pow2(26) == 0x400_0000 && Pow2(29) == 0x2000_0000
    ensures Pow2(31) == 0x8000_0000 && Pow2(32) == WORD
  {
    hide Pow2;
    Tiny();
    Pow2Add(8, 8);
    Pow2Add(16, 2);
    Pow2Add(16, 3);
    Pow2Add(16, 4);
    Pow2Add(16, 5);
    Pow2Add(16, 8);
    Pow2Add(24, 1);
    Pow2Add(24, 2);
    Pow2Add(24, 5);
    Pow2Add(16, 7);
    Pow2Add(16, 16);
    Pow2Add(29, 2);
  }

  lemma Tiny()
    ensures Pow2(1) == 2 && Pow2(2) == 4 && Pow2(3) == 8 && Pow2(4) == 16 && Pow2(5) == 32 && Pow2(7) == 128 && Pow2(8) == 256
  {
  }

  /** A field exists exactly for aligned displacements in range, and holds their words. */
  lemma FieldExact(difference: int, short: bool)
    ensures var limit := if short then 0x10_0000 else 0x800_0000;
            var f := BranchField(difference, short);
            && (f.Some? <==> difference % 4 == 0 && -limit <= difference < limit)
            && (f.Some? ==> f.value == if short then Shifted(difference / 4 % 0x8_0000, 5) else difference / 4 % 0x400_0000)
  {
    hide And, Pow2, Shifted;
    FieldPowers();
    AndMask(difference / 4 % WORD, 19);
    AndMask(difference / 4 % WORD, 26);
  }

  lemma SignedWords(d: int, n: nat)
    requires 2 <= n && d % 4 == 0 && 0 <= d / 4 + Pow2(n - 1) && d / 4 < Pow2(n - 1)
    ensures 0 <= d / 4 % Pow2(n) < Pow2(n) && 4 * Signed(d / 4 % Pow2(n), n) == d
  {
    hide Pow2;
    SignedRound(d / 4, n);
  }

  // ----- zero fields -----

  lemma {:induction false} AndSplit(a: nat, hi: nat, lo: nat, n: nat)
    requires lo < Pow2(n)
    ensures And(a, Shifted(hi, n) + lo) == Shifted(And(HighPart(a, n), hi), n) + And(a, lo)
    decreases n
  {
    hide And;
    if n == 0 {
      AndZero(a);
    } else {
      AndSplit(a / 2, hi, lo / 2, n - 1);
      if lo % 2 == 0 {
        AndEven(a, Shifted(hi, n - 1) + lo / 2);
        AndEven(a, lo / 2);
      } else {
        AndOdd(a, Shifted(hi, n - 1) + lo / 2);
        AndOdd(a, lo / 2);
      }
    }
  }

  lemma {:induction false} ShiftedZero(a: nat, s: nat)
    requires Shifted(a, s) == 0
    ensures a == 0
  {
    if s > 0 {
      ShiftedZero(a, s - 1);
    }
  }

  lemma Low26Zero(word: nat)
    requires And(word, 0x3ff_ffff) == 0
    ensures LowPart(word, 26) == 0 && Imm26(word) == 0
  {
    hide And, Pow2, LowPart;
    FieldPowers();
    AndMaskLow(word, 26);
    PartsAre(word, 26);
  }

  lemma FieldMask19()
    ensures Shifted(0x7_ffff, 5) == 0xff_ffe0 && Shifted(0x307_ffff, 5) == 0x60ff_ffe0
    ensures Shifted(0x60, 19) + 0x7_ffff == 0x307_ffff && Shifted(3, 5) == 0x60
  {
    hide Pow2, Shifted;
    FieldPowers();
    ShiftedIs(0x7_ffff, 5);
    ShiftedIs(0x307_ffff, 5);
    ShiftedIs(0x60, 19);
    ShiftedIs(3, 5);
  }

  lemma Middle19Zero(word: nat)
    requires And(word, 0xff_ffe0) == 0
    ensures LowPart(HighPart(word, 5), 19) == 0 && Imm19(word) == 0
  {
    hide And, Pow2, LowPart, HighPart, Shifted;
    FieldPowers();
    FieldMask19();
    AndShift(word, 0x7_ffff, 5);
    ShiftedZero(And(HighPart(word, 5), 0x7_ffff), 5);
    AndMaskLow(HighPart(word, 5), 19);
    PartsAre(word, 5);
    PartsAre(HighPart(word, 5), 19);
  }

  lemma AddressFieldsZero(word: nat)
    requires And(word, 0x60ff_ffe0) == 0
    ensures LowPart(HighPart(word, 5), 19) == 0 && Imm19(word) == 0
    ensures LowPart(HighPart(word, 29), 2) == 0 && word / 0x2000_0000 % 4 == 0
  {
    hide And, Pow2, LowPart, HighPart, Shifted;
    FieldPowers();
    FieldMask19();
    AndShift(word, 0x307_ffff, 5);
    var high := HighPart(word, 5);
    ShiftedZero(And(high, 0x307_ffff), 5);
    AndSplit(high, 0x60, 0x7_ffff, 19);
    AndMaskLow(high, 19);
    ShiftedZero(And(HighPart(high, 19), 0x60), 19);
    AndShift(HighPart(high, 19), 3, 5);
    ShiftedZero(And(HighPart(HighPart(high, 19), 5), 3), 5);
    AndMaskLow(HighPart(HighPart(high, 19), 5), 2);
    PartsAre(word, 5);
    PartsAre(high, 19);
    PartsAre(HighPart(high, 19), 5);
    PartsAre(word, 29);
    PartsAre(HighPart(word, 29), 2);
    PartsAre(HighPart(HighPart(high, 19), 5), 2);
  }

  // ----- instruction forms -----

  /** A mask of `n` ones from bit `s` up takes those digits. */
  lemma AndBits(word: nat, n: nat, s: nat, mask: nat)
    requires mask == Shifted(Pow2(n) - 1, s)
    ensures And(word, mask) == Shifted(word / Pow2(s) % Pow2(n), s)
  {
    hide And, Pow2, Shifted, HighPart, LowPart;
    AndShift(word, Pow2(n) - 1, s);
    AndMask(HighPart(word, s), n);
    PartsAre(word, s);
  }

  lemma SixBits()
    ensures Pow2(6) == 64
  {
  }

  lemma OpcodeMasks(word: nat)
    ensures And(word, 0x7c00_0000) == word / 0x400_0000 % 32 * 0x400_0000
    ensures And(word, 0x3ff_ffff) == word % 0x400_0000
    ensures And(word, 0x7e00_0000) == word / 0x200_0000 % 64 * 0x200_0000
    ensures And(word, 0xff_ffe0) == word / 32 % 0x8_0000 * 32
  {
    hide And, Pow2, Shifted;
    FieldPowers();
    SixBits();
    ShiftedIs(31, 26);
    AndBits(word, 5, 26, 0x7c00_0000);
    ShiftedIs(word / 0x400_0000 % 32, 26);
    AndMask(word, 26);
    ShiftedIs(63, 25);
    AndBits(word, 6, 25, 0x7e00_0000);
    ShiftedIs(word / 0x200_0000 % 64, 25);
    ShiftedIs(0x7_ffff, 5);
    AndBits(word, 19, 5, 0xff_ffe0);
    ShiftedIs(word / 32 % 0x8_0000, 5);
  }

  lemma AddressMask(word: nat)
    ensures And(word, 0x60ff_ffe0) == word / 0x2000_0000 % 4 * 0x2000_0000 + word / 32 % 0x8_0000 * 32
  {
    hide And, Pow2, Shifted, HighPart, LowPart;
    FieldPowers();
    var high := word / 0x100_0000;
    ShiftedIs(0x60, 24);
    AndSplit(word, 0x60, 0xff_ffe0, 24);
    PartsAre(word, 24);
    ShiftedIs(3, 5);
    AndBits(high, 2, 5, 0x60);
    ShiftedIs(high / 32 % 4, 5);
    assert high / 32 == word / 0x2000_0000;
    ShiftedIs(And(high, 0x60), 24);
    OpcodeMasks(word);
  }

  lemma AddressOpcode(word: nat)
    ensures And(word, 0x9f00_0000) == (word / 0x100_0000 / 128 % 2 * 128 + word / 0x100_0000 % 32) * 0x100_0000
  {
    hide And, Pow2, Shifted, HighPart, LowPart;
    FieldPowers();
    Tiny();
    var high := word / 0x100_0000;
    ShiftedIs(0x9f, 24);
    AndSplit(word, 0x9f, 0, 24);
    PartsAre(word, 24);
    AndZero(word);
    ShiftedIs(And(high, 0x9f), 24);
    ShiftedIs(1, 7);
    AndSplit(high, 1, 0x1f, 7);
    PartsAre(high, 7);
    AndMask(high / 128, 1);
    AndMask(high, 5);
    ShiftedIs(high / 128 % 2, 7);
  }

  lemma ConditionMask(word: nat)
    ensures And(word, 0xff00_0010) == word / 0x100_0000 % 256 * 0x100_0000 + word / 16 % 2 * 16
  {
    hide And, Pow2, Shifted, HighPart, LowPart;
    FieldPowers();
    Tiny();
    var high := word / 0x100_0000;
    ShiftedIs(0xff, 24);
    AndSplit(word, 0xff, 0x10, 24);
    PartsAre(word, 24);
    AndMask(high, 8);
    ShiftedIs(high % 256, 24);
    ShiftedIs(1, 4);
    AndBits(word, 1, 4, 0x10);
    ShiftedIs(word / 16 % 2, 4);
  }

  /** A long branch, or a branch with link, with a clear field. */
  lemma LongForm(word: nat)
    requires word < WORD
    ensures And(word, 0x7c00_0000) == 0x1400_0000 && And(word, 0x3ff_ffff) == 0 <==> word == 0x1400_0000 || word == 0x9400_0000
  {
    hide And;
    OpcodeMasks(word);
  }

  /** The address of a nearby byte into some register, with a clear field. */
  lemma AddressForm(word: nat)
    requires word < WORD
    ensures And(word, 0x9f00_0000) == 0x1000_0000 && And(word, 0x60ff_ffe0) == 0 <==> 0x1000_0000 <= word < 0x1000_0020
  {
    hide And;
    AddressMask(word);
    AddressOpcode(word);
    AddressDigits(word);
  }

  lemma AddressDigits(word: nat)
    requires word < WORD
    ensures 0x1000_0000 <= word < 0x1000_0020 <==>
            && word / 0x100_0000 / 128 % 2 * 128 + word / 0x100_0000 % 32 == 0x10
            && word / 0x2000_0000 % 4 == 0 && word / 32 % 0x8_0000 == 0
  {
    var high := word / 0x100_0000;
    assert high == high % 32 + 32 * (high / 32) && high / 32 == word / 0x2000_0000 && high < 256;
    assert high / 32 == high / 32 % 4 + 4 * (high / 128);
    assert word == 0x100_0000 * high + 32 * (word / 32 % 0x8_0000) + word % 32;
  }

  /** A branch on a condition, or on a register of either width being zero or not, with a
      clear field. */
  predicate Conditional(word: nat)
  {
    || 0x5400_0000 <= word < 0x5400_0010
    || 0x3400_0000 <= word < 0x3400_0020 || 0x3500_0000 <= word < 0x3500_0020
    || 0xb400_0000 <= word < 0xb400_0020 || 0xb500_0000 <= word < 0xb500_0020
  }

  lemma ConditionalForm(word: nat)
    requires word < WORD
    ensures Conditional(word) <==>
            (And(word, 0xff00_0010) == 0x5400_0000 || And(word, 0x7e00_0000) == 0x3400_0000) && And(word, 0xff_ffe0) == 0
  {
    hide And, Conditional;
    OpcodeMasks(word);
    ConditionMask(word);
    ConditionalDigits(word);
  }

  lemma ConditionalDigits(word: nat)
    requires word < WORD
    ensures Conditional(word) <==>
            && (word / 0x100_0000 % 256 * 0x100_0000 + word / 16 % 2 * 16 == 0x5400_0000
                || word / 0x200_0000 % 64 * 0x200_0000 == 0x3400_0000)
            && word / 32 % 0x8_0000 == 0
  {
    var high := word / 0x100_0000;
    assert high < 256 && word / 0x200_0000 == high / 2;
    assert word == 0x100_0000 * high + 32 * (word / 32 % 0x8_0000) + word % 32;
    assert word % 32 == word / 16 % 2 * 16 + word % 16;
    hide Conditional;
    ConditionalParts(high, word / 32 % 0x8_0000, word / 16 % 2, word % 16, word);
  }

  lemma ConditionalParts(high: nat, middle: nat, bit: nat, low: nat, word: nat)
    requires high < 256 && middle < 0x8_0000 && bit < 2 && low < 16
    requires word == 0x100_0000 * high + 32 * middle + 16 * bit + low
    ensures Conditional(word) <==>
            (high * 0x100_0000 + bit * 16 == 0x5400_0000 || high / 2 % 64 * 0x200_0000 == 0x3400_0000) && middle == 0
  {
    assert high / 2 % 64 == 0x1a <==> high == 0x34 || high == 0x35 || high == 0xb4 || high == 0xb5;
  }

  // ----- patches -----

  /** A branch of the long form. */
  lemma Patch26(word: nat, d: int)
    requires word < WORD && And(word, 0x3ff_ffff) == 0 && BranchField(d, false).Some?
    ensures var patched := Or(word, BranchField(d, false).value);
            && patched < WORD && 4 * Signed(Imm26(patched), 26) == d
            && patched - Imm26(patched) == word
  {
    hide And, Or, Pow2, Shifted, Signed, BranchField, LowPart;
    FieldPowers();
    FieldExact(d, false);
    Low26Zero(word);
    SignedWords(d, 26);
    OrLow(word, d / 4 % 0x400_0000, 26);
  }

  /** A conditional branch. */
  lemma Patch19(word: nat, d: int)
    requires word < WORD && And(word, 0xff_ffe0) == 0 && BranchField(d, true).Some?
    ensures var patched := Or(word, BranchField(d, true).value);
            && patched < WORD && 4 * Signed(Imm19(patched), 19) == d
            && patched - 32 * Imm19(patched) == word
  {
    hide And, Or, Pow2, Shifted, Signed, BranchField, LowPart, HighPart;
    FieldPowers();
    FieldExact(d, true);
    Middle19Zero(word);
    SignedWords(d, 19);
    OrField(word, d / 4 % 0x8_0000, 5, 19);
    ShiftedIs(d / 4 % 0x8_0000, 5);
  }

  /** Skipping one instruction: a displacement of two words. */
  lemma PatchSkip(word: nat)
    requires word < WORD && And(word, 0xff_ffe0) == 0
    ensures var patched := Or(word, Shifted(2, 5));
            patched < WORD && 4 * Signed(Imm19(patched), 19) == 8 && Imm19(patched) == 2 && patched - 64 == word
  {
    hide And, Or, Pow2, Shifted, LowPart, HighPart;
    FieldPowers();
    Middle19Zero(word);
    OrField(word, 2, 5, 19);
    ShiftedIs(2, 5);
  }

  /** The unconditional branch that replaces a NOP. */
  lemma PatchSlot(d: int)
    requires BranchField(d, false).Some?
    ensures var patched := Or(0x1400_0000, BranchField(d, false).value);
            && patched < WORD && 4 * Signed(Imm26(patched), 26) == d && patched - Imm26(patched) == 0x1400_0000
  {
    hide And, Or, Pow2, Shifted, Signed, BranchField, LowPart;
    FieldPowers();
    FieldExact(d, false);
    PartsAre(0x1400_0000, 26);
    SignedWords(d, 26);
    OrLow(0x1400_0000, d / 4 % 0x400_0000, 26);
  }

  function AddressBits(word: nat, delta: int): nat
  {
    var value := And(delta % WORD, 0x1f_ffff);
    Or(Or(word, Shifted(And(value, 3), 29)), Shifted(HighPart(value, 2), 5))
  }

  /** The two low bits go to bit 29, the others to bit 5, where the word is clear. */
  lemma AddressBitsAre(word: nat, delta: int)
    requires word < WORD && And(word, 0x60ff_ffe0) == 0 && -0x10_0000 <= delta < 0x10_0000
    ensures var value := delta % 0x20_0000;
            AddressBits(word, delta) == word + value % 4 * 0x2000_0000 + value / 4 * 32
  {
    hide And, Or, Pow2, Shifted, LowPart, HighPart;
    FieldPowers();
    var value := delta % 0x20_0000;
    AndMask(delta % WORD, 21);
    AndMask(value, 2);
    PartsAre(value, 2);
    AddressFieldsZero(word);
    var low, high := value % 4, value / 4;
    OrField(word, low, 29, 2);
    ShiftedIs(low, 29);
    var first := word + low * 0x2000_0000;
    PartsAre(first, 5);
    PartsAre(HighPart(first, 5), 19);
    AddressArithmetic(word, low, high);
    OrField(first, high, 5, 19);
    ShiftedIs(high, 5);
  }

  /** An address of a byte within a megabyte. */
  lemma PatchAddress(word: nat, delta: int)
    requires word < WORD && And(word, 0x60ff_ffe0) == 0 && -0x10_0000 <= delta < 0x10_0000
    ensures var patched := AddressBits(word, delta);
            && patched < WORD && Signed(ImmAddress(patched), 21) == delta
            && patched - 32 * Imm19(patched) - 0x2000_0000 * (patched / 0x2000_0000 % 4) == word
  {
    hide And, Pow2, Signed, LowPart, HighPart, AddressBits;
    AddressBitsAre(word, delta);
    AddressFieldsZero(word);
    FieldPowers();
    SignedRound(delta, 21);
    var value := delta % 0x20_0000;
    AddressArithmetic(word, value % 4, value / 4);
    assert value == value / 4 * 4 + value % 4;
  }

  lemma AddressArithmetic(word: nat, low: nat, high: nat)
    requires word < WORD && word / 32 % 0x8_0000 == 0 && word / 0x2000_0000 % 4 == 0 && low < 4 && high < 0x8_0000
    ensures (word + low * 0x2000_0000) / 32 % 0x8_0000 == 0
    ensures var patched := word + low * 0x2000_0000 + high * 32;
            patched < WORD && Imm19(patched) == high && patched / 0x2000_0000 % 4 == low
  {
    var bottom, middle, top := word % 32, word / 0x100_0000 % 32, word / 0x8000_0000;
    FieldsOf(word);
    var first := word + low * 0x2000_0000;
    Whole32(bottom, 0x8_0000 * (middle + 32 * low + 128 * top), first);
    Whole19(0, middle + 32 * low + 128 * top, first / 32);
    var patched := first + high * 32;
    Whole32(bottom, high + 0x8_0000 * (middle + 32 * low + 128 * top), patched);
    Whole19(high, middle + 32 * low + 128 * top, patched / 32);
    Whole29(bottom + 32 * high + 0x100_0000 * middle, low, top, patched);
  }

  /** A word whose two address fields are clear. */
  lemma FieldsOf(word: nat)
    requires word / 32 % 0x8_0000 == 0 && word / 0x2000_0000 % 4 == 0
    ensures word == word % 32 + 0x100_0000 * (word / 0x100_0000 % 32) + 0x8000_0000 * (word / 0x8000_0000)
  {
    assert word == word % 32 + 32 * (word / 32);
    assert word / 32 == 0x8_0000 * (word / 0x100_0000);
    assert word / 0x100_0000 == word / 0x100_0000 % 32 + 32 * (word / 0x2000_0000);
    assert word / 0x2000_0000 == 4 * (word / 0x8000_0000);
  }

  lemma Whole32(rest: nat, q: nat, n: nat)
    requires n == rest + 32 * q && rest < 32
    ensures n / 32 == q
  {
  }

  lemma Whole19(rest: nat, q: nat, n: nat)
    requires n == rest + 0x8_0000 * q && rest < 0x8_0000
    ensures n % 0x8_0000 == rest
  {
  }

  lemma Whole29(rest: nat, low: nat, top: nat, n: nat)
    requires n == rest + 0x2000_0000 * (low + 4 * top) && rest < 0x2000_0000 && low < 4
    ensures n / 0x2000_0000 % 4 == low
  {
    assert n / 0x2000_0000 == low + 4 * top;
  }
}
