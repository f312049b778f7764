/** The version information of a symbol (section 7.10 of ISO/IEC 18004:2015). */
module VersionInfo {
  import opened Grids
  import opened FormatInfo
  import opened Arithmetic

  /** One step of the division by the generator polynomial 0x1F25. */
  function VersionStep(rem: bv32): bv32 { (rem << 1) ^ ((rem >> 11) * 0x1F25) }

  function VersionRem(rem: bv32, n: nat): bv32
  {
    if n == 0 then rem else VersionStep(VersionRem(rem, n - 1))
  }

  function DataAndRemainder(data: bv32, rem: bv32): bv32 { (data << 12) | rem }

  function VersionWord(version: nat): bv32
  {
    DataAndRemainder(Word(version), VersionRem(Word(version), 12))
  }

  lemma {:induction false} VersionStepBelow(rem: bv32)
    requires rem < 4096
    ensures VersionStep(rem) < 4096
  {
    assert rem >> 11 == 0 || rem >> 11 == 1;
  }

  lemma {:induction false} VersionRemBelow(rem: bv32, n: nat)
    requires rem < 4096
    ensures VersionRem(rem, n) < 4096
  {
    hide VersionStep;
    if n > 0 {
      VersionRemBelow(rem, n - 1);
      VersionStepBelow(VersionRem(rem, n - 1));
    }
  }

  lemma {:induction false} TopSix(data: bv32, rem: bv32)
    requires data < 64 && rem < 4096
    ensures DataAndRemainder(data, rem) >> 18 == 0
    ensures DataAndRemainder(data, rem) >> 12 == data
  {}

  lemma {:induction false} VersionWordTop(version: nat)
    requires version < 64
    ensures VersionWord(version) >> 18 == 0 && VersionWord(version) >> 12 == Word(version)
  {
    hide VersionRem, Word, DataAndRemainder;
    WordBelow(version, 6);
    var data := Word(version);
    VersionRemBelow(data, 12);
    TopSix(data, VersionRem(data, 12));
  }

  lemma {:induction false} BelowTop(w: bv32)
    requires w >> 18 == 0
    ensures w < 0x4_0000
  {}

  lemma {:induction false} VersionWordBelow(version: nat)
    requires version < 64
    ensures VersionWord(version) < 0x4_0000
  {
    hide VersionWord;
    VersionWordTop(version);
    BelowTop(VersionWord(version));
  }

  method ComputeVersionWord(version: nat) returns (bits: bv32)
    requires version < 64
    ensures bits == VersionWord(version) && bits >> 18 == 0
  {
    hide VersionStep, Word, DataAndRemainder;
    var data := Word(version);
    var rem := data;
    for i := 0 to 12
      invariant rem == VersionRem(data, i)
    {
      rem := VersionStep(rem);
    }
    bits := DataAndRemainder(data, rem);
    VersionWordTop(version);
  }

  predicate Top11(rem: bv32) { rem >= 2048 }

  lemma {:induction false} VersionStepForm(rem: bv32)
    requires rem < 4096
    ensures VersionStep(rem) == Xor32(Twice(rem), Choose(Top11(rem), 0x1F25))
  {
    if rem >= 2048 { assert rem >> 11 == 1; } else { assert rem >> 11 == 0; }
  }

  function VersionQuotient(data: bv32, n: nat): (q: seq<bool>)
    ensures |q| == n
  {
    if n == 0 then [] else VersionQuotient(data, n - 1) + [Top11(VersionRem(data, n - 1))]
  }

  lemma {:induction false} VersionDivides(data: bv32, n: nat)
    requires data < 4096
    ensures Times2(data, n) == Xor32(Product2(VersionQuotient(data, n), 0x1F25), VersionRem(data, n))
  {
    hide VersionStep, Xor32, Twice, Choose, Top11;
    if n == 0 {
      Xor32Laws(data, 0, 0);
      Xor32Laws(0, data, 0);
    } else {
      VersionDivides(data, n - 1);
      VersionRemBelow(data, n - 1);
      var rem, q := VersionRem(data, n - 1), VersionQuotient(data, n - 1);
      VersionStepForm(rem);
      assert VersionQuotient(data, n)[..n - 1] == q;
      DivisionStep(Times2(data, n - 1), Product2(q, 0x1F25), rem, VersionStep(rem), Choose(Top11(rem), 0x1F25));
    }
  }

  function Shift12(data: bv32): bv32 { data << 12 }

  lemma {:induction false} TwiceMore(data: bv32)
    ensures Twice(Twice(Shift10(data))) == Shift12(data)
  {}

  lemma {:induction false} TwelveTimes(data: bv32)
    ensures Times2(data, 12) == Shift12(data)
  {
    hide Twice, Shift10, Shift12;
    TenTimes(data);
    assert Times2(data, 11) == Twice(Times2(data, 10));
    assert Times2(data, 12) == Twice(Times2(data, 11));
    TwiceMore(data);
  }

  lemma {:induction false} JoinedIsXor(data: bv32, rem: bv32)
    requires data < 64 && rem < 4096
    ensures DataAndRemainder(data, rem) == Xor32(Shift12(data), rem)
  {}

  lemma {:induction false} VersionWordIs(version: nat)
    ensures VersionWord(version) == DataAndRemainder(Word(version), VersionRem(Word(version), 12))
  {
    hide VersionRem, Word, DataAndRemainder;
  }

  /** The version word is a multiple of the generator polynomial 0x1F25. */
  lemma {:induction false} VersionWordDivisible(version: nat)
    requires version < 64
    ensures VersionWord(version) == Product2(VersionQuotient(Word(version), 12), 0x1F25)
  {
    hide *;
    WordBelow(version, 6);
    var data := Word(version);
    VersionWordIs(version);
    VersionRemBelow(data, 12);
    VersionDivides(data, 12);
    TwelveTimes(data);
    JoinedIsXor(data, VersionRem(data, 12));
    XorTwice(Shift12(data), Product2(VersionQuotient(data, 12), 0x1F25), VersionRem(data, 12));
  }

  // ---------- The modules that show it ----------

  /** The bit a module of either copy shows: the copies are transposes of each other. */
  function VersionIndex(c: Cell, size: nat): int
  {
    if c.y <= 5 then 3 * c.y + (c.x - (size - 11)) else 3 * c.x + (c.y - (size - 11))
  }

  /** `GetBit` where there is such a bit. */
  predicate BitOf(w: bv32, i: int) { 0 <= i < 18 && GetBit(w, i) }

  // ---------- Reading it ----------

  function Digit(b: bool, weight: nat): nat { if b then weight else 0 }

  /** The version from bits 12 to 17 of the copy at the top right. */
  function ReadVersion(g: Grid, size: nat): nat
    requires Square(g, size) && size >= 45
  {
    Digit(Get(g, size, Cell(size - 11, 4)), 1) + Digit(Get(g, size, Cell(size - 10, 4)), 2)
    + Digit(Get(g, size, Cell(size - 9, 4)), 4) + Digit(Get(g, size, Cell(size - 11, 5)), 8)
    + Digit(Get(g, size, Cell(size - 10, 5)), 16) + Digit(Get(g, size, Cell(size - 9, 5)), 32)
  }

  lemma {:induction false} ShiftsFromTwelve(w: bv32)
    ensures (w >> 12) >> 1 == w >> 13 && (w >> 13) >> 1 == w >> 14 && (w >> 14) >> 1 == w >> 15
    ensures (w >> 15) >> 1 == w >> 16 && (w >> 16) >> 1 == w >> 17
  {}

  /** Bits 12 to 17 are the version in binary. */
  lemma {:induction false} VersionBits(version: nat)
    requires version < 64
    ensures var w := VersionWord(version);
            && (GetBit(w, 12) <==> version % 2 == 1) && (GetBit(w, 13) <==> version / 2 % 2 == 1)
            && (GetBit(w, 14) <==> version / 4 % 2 == 1) && (GetBit(w, 15) <==> version / 8 % 2 == 1)
            && (GetBit(w, 16) <==> version / 16 % 2 == 1) && (GetBit(w, 17) <==> version / 32 % 2 == 1)
  {
    hide VersionWord, Word;
    var w := VersionWord(version);
    VersionWordTop(version);
    ShiftsFromTwelve(w);
    WordHalves(version);
    WordHalves(version / 2);
    WordHalves(version / 4);
    WordHalves(version / 8);
    WordHalves(version / 16);
    WordHalves(version / 32);
    Halves(version);
  }

  lemma {:induction false} Digits(v: nat)
    requires v < 64
    ensures v == v % 2 + 2 * (v / 2 % 2) + 4 * (v / 4 % 2) + 8 * (v / 8 % 2) + 16 * (v / 16 % 2) + 32 * (v / 32 % 2)
  {
    hide *;
    Halves(v);
    HalfAndDigit(v);
    HalfAndDigit(v / 2);
    HalfAndDigit(v / 4);
    HalfAndDigit(v / 8);
    HalfAndDigit(v / 16);
    OneDigit(v);
  }

  lemma {:induction false} HalfAndDigit(v: nat)
    ensures v == 2 * (v / 2) + v % 2
  {}

  lemma {:induction false} OneDigit(v: nat)
    requires v < 64
    ensures v / 32 == v / 32 % 2
  {}

  lemma {:induction false} FromDigits(v: nat)
    requires v < 64
    ensures v == Digit(v % 2 == 1, 1) + Digit(v / 2 % 2 == 1, 2) + Digit(v / 4 % 2 == 1, 4) + Digit(v / 8 % 2 == 1, 8)
      + Digit(v / 16 % 2 == 1, 16) + Digit(v / 32 % 2 == 1, 32)
  {
    Digits(v);
  }
}
