/** Arithmetic of GF(2^8/0x11D), the field of the Reed-Solomon code.

    `Multiply` is the Russian-peasant loop of the encoder. It is proved against `Mul`, and `Mul`
    is proved to make the bytes a field: commutative, associative, distributive over exclusive or,
    with unit 1 and no zero divisors. The powers of 2 run through every nonzero byte before they
    return to 1 after 255 steps.

    Only the lemmas under "Bit-level facts" look inside bytes. Every other proof hides `Add`,
    `Double` and `Mul` and works with their laws alone. */
module GaloisField {

  type Byte = bv8

  /** Addition, and also subtraction. */
  function Add(x: Byte, y: Byte): Byte { x ^ y }

  /** Multiplication by the element 2, reduced by the field polynomial 0x11D. */
  function Double(z: Byte): Byte { (z << 1) ^ (if z & 0x80 != 0 then 0x1D else 0) }

  function ShiftRight(y: Byte, i: nat): Byte
    requires i < 8
  {
    match i
    case 0 => y
    case 1 => y >> 1
    case 2 => y >> 2
    case 3 => y >> 3
    case 4 => y >> 4
    case 5 => y >> 5
    case 6 => y >> 6
    case 7 => y >> 7
  }

  predicate Bit(y: Byte, i: nat)
    requires i < 8
  {
    ShiftRight(y, i) & 1 == 1
  }

  function Pick(b: bool, x: Byte): Byte { if b then x else 0 }

  function Step(z: Byte, x: Byte, bit: bool): Byte { Add(Double(z), Pick(bit, x)) }

  /** The product of `x` with the top `n` bits of `y`, by Horner's rule. */
  function MulPrefix(x: Byte, y: Byte, n: nat): Byte
    requires n <= 8
  {
    if n == 0 then 0 else Step(MulPrefix(x, y, n - 1), x, Bit(y, 8 - n))
  }

  function Mul(x: Byte, y: Byte): Byte { MulPrefix(x, y, 8) }

  /** The accumulator of the multiplication loop is a 32-bit int that stays below 256. */
  function Wide(b: Byte): bv32 { b as bv32 }

  function WideDouble(z: bv32): bv32 { (z << 1) ^ ((z >> 7) * 0x11D) }

  function WideAdd(z: bv32, bit: Byte, x: Byte): bv32 { z ^ (Wide(bit) * Wide(x)) }

  method Multiply(x: Byte, y: Byte) returns (r: Byte)
    ensures r == Mul(x, y)
  {
    hide Double, Bit, Step, ShiftRight, Wide, WideDouble, WideAdd;
    var z: bv32 := 0;
    var i := 7;
    WideZero();
    while i >= 0
      invariant -1 <= i <= 7
      invariant z == Wide(MulPrefix(x, y, 7 - i))
    {
      PeasantStep(MulPrefix(x, y, 7 - i), x, y, i);
      z := WideDouble(z);
      z := WideAdd(z, ShiftRight(y, i) & 1, x);
      i := i - 1;
    }
    Narrow(z, Mul(x, y));
    assert z >> 8 == 0;
    r := z as Byte;
  }

  // ---------- Bit-level facts ----------

  lemma {:induction false} WideZero()
    ensures Wide(0) == 0
  {}

  lemma {:induction false} Narrow(z: bv32, p: Byte)
    requires z == Wide(p)
    ensures z >> 8 == 0 && z < 256 && z as Byte == p
  {}

  lemma {:induction false} PeasantStep(p: Byte, x: Byte, y: Byte, i: nat)
    requires i < 8
    ensures WideAdd(WideDouble(Wide(p)), ShiftRight(y, i) & 1, x) == Wide(Step(p, x, Bit(y, i)))
  {
    hide ShiftRight, Double, Pick, Add, Wide, WideDouble, WideAdd;
    var b := ShiftRight(y, i) & 1;
    LowBitCases(ShiftRight(y, i));
    PeasantDouble(p);
    PeasantAdd(Double(p), b, x);
  }

  lemma {:induction false} LowBitCases(a: Byte)
    ensures a & 1 == 0 || a & 1 == 1
  {}

  lemma {:induction false} PeasantDouble(p: Byte)
    ensures WideDouble(Wide(p)) == Wide(Double(p))
  {}

  lemma {:induction false} PeasantAdd(p: Byte, b: Byte, x: Byte)
    requires b == 0 || b == 1
    ensures WideAdd(Wide(p), b, x) == Wide(Add(p, Pick(b == 1, x)))
  {
    hide Wide, WideAdd, Add;
    PeasantAddOne(p, x);
    PeasantAddZero(p, x);
  }

  lemma {:induction false} PeasantAddOne(p: Byte, x: Byte)
    ensures WideAdd(Wide(p), 1, x) == Wide(Add(p, x))
  {}

  lemma {:induction false} PeasantAddZero(p: Byte, x: Byte)
    ensures WideAdd(Wide(p), 0, x) == Wide(p) && Add(p, 0) == p
  {}

  lemma {:induction false} AddLaws(x: Byte, y: Byte, z: Byte)
    ensures Add(x, y) == Add(y, x)
    ensures Add(Add(x, y), z) == Add(x, Add(y, z))
    ensures Add(x, 0) == x
    ensures Add(x, x) == 0
  {}

  lemma {:induction false} DoubleForm(z: Byte)
    ensures Double(z) == (z << 1) ^ ((z >> 7) * 0x1D)
  {}

  lemma {:induction false} DoubleAdd(x: Byte, y: Byte)
    ensures Double(Add(x, y)) == Add(Double(x), Double(y))
  {
    DoubleForm(x);
    DoubleForm(y);
    DoubleForm(x ^ y);
    hide Double;
  }

  lemma {:induction false} DoubleZero()
    ensures Double(0) == 0
  {}

  lemma {:induction false} DoubleNonzero(x: Byte)
    requires x != 0
    ensures Double(x) != 0
  {}

  lemma {:induction false} ShiftStep(y: Byte, k: nat)
    requires k < 8
    ensures Step(if k == 7 then 0 else ShiftRight(y, k + 1), 1, Bit(y, k)) == ShiftRight(y, k)
  {}

  lemma {:induction false} PickAdd(b: bool, x: Byte, x': Byte)
    ensures Pick(b, Add(x, x')) == Add(Pick(b, x), Pick(b, x'))
  {}

  // ---------- Field laws ----------

  lemma {:induction false} AddSwap(a: Byte, b: Byte, c: Byte, d: Byte)
    ensures Add(Add(a, b), Add(c, d)) == Add(Add(a, c), Add(b, d))
  {
    hide Add;
    AddLaws(a, b, Add(c, d));
    AddLaws(b, c, d);
    AddLaws(c, b, d);
    AddLaws(a, c, Add(b, d));
  }

  /** Two elements are equal when their difference is zero. */
  lemma {:induction false} AddCancel(x: Byte, y: Byte)
    requires Add(x, y) == 0
    ensures x == y
  {
    hide Add;
    AddLaws(x, y, y);
    AddLaws(y, 0, 0);
    AddLaws(0, y, 0);
    AddLaws(x, 0, 0);
  }

  lemma {:induction false} StepAdd(z: Byte, z': Byte, x: Byte, x': Byte, b: bool)
    ensures Step(Add(z, z'), Add(x, x'), b) == Add(Step(z, x, b), Step(z', x', b))
  {
    hide Double, Add, Pick;
    DoubleAdd(z, z');
    PickAdd(b, x, x');
    AddSwap(Double(z), Double(z'), Pick(b, x), Pick(b, x'));
  }

  lemma {:induction false} StepDouble(z: Byte, x: Byte, b: bool)
    ensures Step(Double(z), Double(x), b) == Double(Step(z, x, b))
  {
    assert Pick(b, Double(x)) == Double(Pick(b, x)) by { DoubleZero(); hide Double; }
    hide Double, Add, Pick;
    DoubleAdd(Double(z), Pick(b, x));
  }

  lemma {:induction false} MulPrefixAdd(x: Byte, x': Byte, y: Byte, n: nat)
    requires n <= 8
    ensures MulPrefix(Add(x, x'), y, n) == Add(MulPrefix(x, y, n), MulPrefix(x', y, n))
  {
    if n == 0 {
    } else {
      hide Step, Bit, Add;
      MulPrefixAdd(x, x', y, n - 1);
      StepAdd(MulPrefix(x, y, n - 1), MulPrefix(x', y, n - 1), x, x', Bit(y, 8 - n));
    }
  }

  lemma {:induction false} MulPrefixDouble(x: Byte, y: Byte, n: nat)
    requires n <= 8
    ensures MulPrefix(Double(x), y, n) == Double(MulPrefix(x, y, n))
  {
    if n == 0 {
      DoubleZero();
    } else {
      hide Step, Bit, Double;
      MulPrefixDouble(x, y, n - 1);
      StepDouble(MulPrefix(x, y, n - 1), x, Bit(y, 8 - n));
    }
  }

  lemma {:induction false} MulPrefixOne(y: Byte, n: nat)
    requires n <= 8
    ensures MulPrefix(1, y, n) == if n == 0 then 0 else ShiftRight(y, 8 - n)
  {
    if n == 0 {
    } else {
      hide Step, Bit, ShiftRight;
      MulPrefixOne(y, n - 1);
      ShiftStep(y, 8 - n);
    }
  }

  lemma {:induction false} MulAddLeft(x: Byte, x': Byte, y: Byte)
    ensures Mul(Add(x, x'), y) == Add(Mul(x, y), Mul(x', y))
  {
    hide MulPrefix, Add;
    MulPrefixAdd(x, x', y, 8);
  }

  lemma {:induction false} MulDoubleLeft(x: Byte, y: Byte)
    ensures Mul(Double(x), y) == Double(Mul(x, y))
  {
    hide MulPrefix, Double;
    MulPrefixDouble(x, y, 8);
  }

  lemma {:induction false} MulOneLeft(y: Byte)
    ensures Mul(1, y) == y
  {
    hide MulPrefix;
    MulPrefixOne(y, 8);
  }

  lemma {:induction false} MulZeroLeft(x: Byte)
    ensures Mul(0, x) == 0
  {
    hide Mul;
    MulAddLeft(0, 0, x);
    AddLaws(0, 0, 0);
    AddLaws(Mul(0, x), 0, 0);
    hide Add;
  }

  lemma {:induction false} MulStepLeft(z: Byte, x: Byte, b: bool, y: Byte)
    ensures Mul(Step(z, x, b), y) == Step(Mul(z, y), Mul(x, y), b)
  {
    assert Mul(Pick(b, x), y) == Pick(b, Mul(x, y)) by { hide Mul; MulZeroLeft(y); }
    hide Double, Mul, Add, Pick;
    MulAddLeft(Double(z), Pick(b, x), y);
    MulDoubleLeft(z, y);
  }

  /** Multiplying by a prefix of `y` from the right is multiplying by it from the left. */
  lemma {:induction false} MulPrefixComm(x: Byte, y: Byte, n: nat)
    requires n <= 8
    ensures MulPrefix(x, y, n) == Mul(MulPrefix(1, y, n), x)
  {
    hide Step, Bit, Mul;
    if n == 0 {
      MulZeroLeft(x);
    } else {
      MulPrefixComm(x, y, n - 1);
      MulStepLeft(MulPrefix(1, y, n - 1), 1, Bit(y, 8 - n), x);
      MulOneLeft(x);
    }
  }

  lemma {:induction false} MulComm(x: Byte, y: Byte)
    ensures Mul(x, y) == Mul(y, x)
  {
    hide MulPrefix;
    MulPrefixComm(x, y, 8);
    MulPrefixOne(y, 8);
  }

  lemma {:induction false} MulPrefixAssoc(x: Byte, y: Byte, z: Byte, n: nat)
    requires n <= 8
    ensures MulPrefix(Mul(x, y), z, n) == Mul(x, MulPrefix(y, z, n))
  {
    hide Step, Bit, Mul;
    if n == 0 {
      MulComm(x, 0);
      MulZeroLeft(x);
    } else {
      var p := MulPrefix(y, z, n - 1);
      var b := Bit(z, 8 - n);
      MulPrefixAssoc(x, y, z, n - 1);
      MulStepLeft(p, y, b, x);
      MulComm(x, Step(p, y, b));
      MulComm(x, p);
      MulComm(x, y);
    }
  }

  lemma {:induction false} MulAssoc(x: Byte, y: Byte, z: Byte)
    ensures Mul(Mul(x, y), z) == Mul(x, Mul(y, z))
  {
    hide MulPrefix;
    MulPrefixAssoc(x, y, z, 8);
  }

  lemma {:induction false} MulAddRight(x: Byte, y: Byte, y': Byte)
    ensures Mul(x, Add(y, y')) == Add(Mul(x, y), Mul(x, y'))
  {
    hide Mul, Add;
    MulAddLeft(y, y', x);
    MulComm(x, Add(y, y'));
    MulComm(x, y);
    MulComm(x, y');
  }

  // ---------- Powers of 2 ----------

  function Pow2(k: nat): Byte { if k == 0 then 1 else Double(Pow2(k - 1)) }

  lemma {:induction false} Pow2Add(i: nat, j: nat)
    ensures Mul(Pow2(i), Pow2(j)) == Pow2(i + j)
  {
    hide Mul, Double;
    if i == 0 {
      MulOneLeft(Pow2(j));
    } else {
      Pow2Add(i - 1, j);
      MulDoubleLeft(Pow2(i - 1), Pow2(j));
    }
  }

  lemma {:induction false} Pow2Nonzero(k: nat)
    ensures Pow2(k) != 0
  {
    if k == 0 {
    } else {
      hide Double;
      Pow2Nonzero(k - 1);
      DoubleNonzero(Pow2(k - 1));
    }
  }

  /** Sixteen successive powers of 2; the sixteen rows below are the powers from 2^0 to 2^255. */
  datatype Row = Row(a0: Byte, a1: Byte, a2: Byte, a3: Byte, a4: Byte, a5: Byte, a6: Byte, a7: Byte,
                     a8: Byte, a9: Byte, a10: Byte, a11: Byte, a12: Byte, a13: Byte, a14: Byte, a15: Byte)

  const R0 := Row(0x01, 0x02, 0x04, 0x08, 0x10, 0x20, 0x40, 0x80, 0x1D, 0x3A, 0x74, 0xE8, 0xCD, 0x87, 0x13, 0x26)
  const R1 := Row(0x4C, 0x98, 0x2D, 0x5A, 0xB4, 0x75, 0xEA, 0xC9, 0x8F, 0x03, 0x06, 0x0C, 0x18, 0x30, 0x60, 0xC0)
  const R2 := Row(0x9D, 0x27, 0x4E, 0x9C, 0x25, 0x4A, 0x94, 0x35, 0x6A, 0xD4, 0xB5, 0x77, 0xEE, 0xC1, 0x9F, 0x23)
  const R3 := Row(0x46, 0x8C, 0x05, 0x0A, 0x14, 0x28, 0x50, 0xA0, 0x5D, 0xBA, 0x69, 0xD2, 0xB9, 0x6F, 0xDE, 0xA1)
  const R4 := Row(0x5F, 0xBE, 0x61, 0xC2, 0x99, 0x2F, 0x5E, 0xBC, 0x65, 0xCA, 0x89, 0x0F, 0x1E, 0x3C, 0x78, 0xF0)
  const R5 := Row(0xFD, 0xE7, 0xD3, 0xBB, 0x6B, 0xD6, 0xB1, 0x7F, 0xFE, 0xE1, 0xDF, 0xA3, 0x5B, 0xB6, 0x71, 0xE2)
  const R6 := Row(0xD9, 0xAF, 0x43, 0x86, 0x11, 0x22, 0x44, 0x88, 0x0D, 0x1A, 0x34, 0x68, 0xD0, 0xBD, 0x67, 0xCE)
  const R7 := Row(0x81, 0x1F, 0x3E, 0x7C, 0xF8, 0xED, 0xC7, 0x93, 0x3B, 0x76, 0xEC, 0xC5, 0x97, 0x33, 0x66, 0xCC)
  const R8 := Row(0x85, 0x17, 0x2E, 0x5C, 0xB8, 0x6D, 0xDA, 0xA9, 0x4F, 0x9E, 0x21, 0x42, 0x84, 0x15, 0x2A, 0x54)
  const R9 := Row(0xA8, 0x4D, 0x9A, 0x29, 0x52, 0xA4, 0x55, 0xAA, 0x49, 0x92, 0x39, 0x72, 0xE4, 0xD5, 0xB7, 0x73)
  const R10 := Row(0xE6, 0xD1, 0xBF, 0x63, 0xC6, 0x91, 0x3F, 0x7E, 0xFC, 0xE5, 0xD7, 0xB3, 0x7B, 0xF6, 0xF1, 0xFF)
  const R11 := Row(0xE3, 0xDB, 0xAB, 0x4B, 0x96, 0x31, 0x62, 0xC4, 0x95, 0x37, 0x6E, 0xDC, 0xA5, 0x57, 0xAE, 0x41)
  const R12 := Row(0x82, 0x19, 0x32, 0x64, 0xC8, 0x8D, 0x07, 0x0E, 0x1C, 0x38, 0x70, 0xE0, 0xDD, 0xA7, 0x53, 0xA6)
  const R13 := Row(0x51, 0xA2, 0x59, 0xB2, 0x79, 0xF2, 0xF9, 0xEF, 0xC3, 0x9B, 0x2B, 0x56, 0xAC, 0x45, 0x8A, 0x09)
  const R14 := Row(0x12, 0x24, 0x48, 0x90, 0x3D, 0x7A, 0xF4, 0xF5, 0xF7, 0xF3, 0xFB, 0xEB, 0xCB, 0x8B, 0x0B, 0x16)
  const R15 := Row(0x2C, 0x58, 0xB0, 0x7D, 0xFA, 0xE9, 0xCF, 0x83, 0x1B, 0x36, 0x6C, 0xD8, 0xAD, 0x47, 0x8E, 0x01)

  predicate Chained(r: Row)
  {
    && Double(r.a0) == r.a1 && Double(r.a1) == r.a2 && Double(r.a2) == r.a3 && Double(r.a3) == r.a4
    && Double(r.a4) == r.a5 && Double(r.a5) == r.a6 && Double(r.a6) == r.a7 && Double(r.a7) == r.a8
    && Double(r.a8) == r.a9 && Double(r.a9) == r.a10 && Double(r.a10) == r.a11 && Double(r.a11) == r.a12
    && Double(r.a12) == r.a13 && Double(r.a13) == r.a14 && Double(r.a14) == r.a15
  }

  predicate InRow(x: Byte, r: Row)
  {
    x == r.a0 || x == r.a1 || x == r.a2 || x == r.a3 || x == r.a4 || x == r.a5 || x == r.a6 || x == r.a7
    || x == r.a8 || x == r.a9 || x == r.a10 || x == r.a11 || x == r.a12 || x == r.a13 || x == r.a14 || x == r.a15
  }

  predicate NoInnerOne(r: Row)
  {
    && r.a1 != 1 && r.a2 != 1 && r.a3 != 1 && r.a4 != 1 && r.a5 != 1 && r.a6 != 1 && r.a7 != 1
    && r.a8 != 1 && r.a9 != 1 && r.a10 != 1 && r.a11 != 1 && r.a12 != 1 && r.a13 != 1 && r.a14 != 1
  }

  lemma {:induction false} RowIsPowers(k: nat, r: Row)
    requires Pow2(k) == r.a0 && Chained(r)
    ensures Pow2(k + 1) == r.a1 && Pow2(k + 2) == r.a2 && Pow2(k + 3) == r.a3 && Pow2(k + 4) == r.a4
    ensures Pow2(k + 5) == r.a5 && Pow2(k + 6) == r.a6 && Pow2(k + 7) == r.a7 && Pow2(k + 8) == r.a8
    ensures Pow2(k + 9) == r.a9 && Pow2(k + 10) == r.a10 && Pow2(k + 11) == r.a11 && Pow2(k + 12) == r.a12
    ensures Pow2(k + 13) == r.a13 && Pow2(k + 14) == r.a14 && Pow2(k + 15) == r.a15
    ensures Pow2(k + 16) == Double(r.a15)
  {
    hide Double;
  }

  /** What one row says about a byte `x` and an exponent `d`. */
  lemma {:induction false} ScanRow(k: nat, r: Row, x: Byte, d: nat)
    requires Pow2(k) == r.a0 && Chained(r) && NoInnerOne(r)
    ensures Pow2(k + 16) == Double(r.a15)
    ensures Pow2(k + 15) == r.a15
    ensures InRow(x, r) ==> exists i :: k <= i < k + 16 && Pow2(i) == x
    ensures k <= d < k + 16 && Pow2(d) == 1 ==> (d == k && r.a0 == 1) || (d == k + 15 && r.a15 == 1)
  {
    RowIsPowers(k, r);
    hide Pow2, Double, Chained;
  }

  lemma {:induction false} RowsChained()
    ensures Chained(R0) && Chained(R1) && Chained(R2) && Chained(R3)
    ensures Chained(R4) && Chained(R5) && Chained(R6) && Chained(R7)
    ensures Chained(R8) && Chained(R9) && Chained(R10) && Chained(R11)
    ensures Chained(R12) && Chained(R13) && Chained(R14) && Chained(R15)
  {}

  lemma {:induction false} RowsNoInnerOne()
    ensures NoInnerOne(R0) && NoInnerOne(R1) && NoInnerOne(R2) && NoInnerOne(R3)
    ensures NoInnerOne(R4) && NoInnerOne(R5) && NoInnerOne(R6) && NoInnerOne(R7)
    ensures NoInnerOne(R8) && NoInnerOne(R9) && NoInnerOne(R10) && NoInnerOne(R11)
    ensures NoInnerOne(R12) && NoInnerOne(R13) && NoInnerOne(R14) && NoInnerOne(R15)
  {}

  lemma {:induction false} RowsLinked()
    ensures R0.a0 == 1 && R15.a15 == 1
    ensures Double(R0.a15) == R1.a0 && Double(R1.a15) == R2.a0 && Double(R2.a15) == R3.a0 && Double(R3.a15) == R4.a0
    ensures Double(R4.a15) == R5.a0 && Double(R5.a15) == R6.a0 && Double(R6.a15) == R7.a0 && Double(R7.a15) == R8.a0
    ensures Double(R8.a15) == R9.a0 && Double(R9.a15) == R10.a0 && Double(R10.a15) == R11.a0 && Double(R11.a15) == R12.a0
    ensures Double(R12.a15) == R13.a0 && Double(R13.a15) == R14.a0 && Double(R14.a15) == R15.a0
  {}

  lemma {:induction false} RowsEnds()
    ensures R0.a15 != 1 && R1.a15 != 1 && R2.a15 != 1 && R3.a15 != 1 && R4.a15 != 1 && R5.a15 != 1 && R6.a15 != 1 && R7.a15 != 1
    ensures R8.a15 != 1 && R9.a15 != 1 && R10.a15 != 1 && R11.a15 != 1 && R12.a15 != 1 && R13.a15 != 1 && R14.a15 != 1
    ensures R1.a0 != 1 && R2.a0 != 1 && R3.a0 != 1 && R4.a0 != 1 && R5.a0 != 1 && R6.a0 != 1 && R7.a0 != 1 && R8.a0 != 1
    ensures R9.a0 != 1 && R10.a0 != 1 && R11.a0 != 1 && R12.a0 != 1 && R13.a0 != 1 && R14.a0 != 1 && R15.a0 != 1
  {}

  lemma {:induction false} RowsCover(x: Byte)
    requires x != 0
    ensures InRow(x, R0) || InRow(x, R1) || InRow(x, R2) || InRow(x, R3)
         || InRow(x, R4) || InRow(x, R5) || InRow(x, R6) || InRow(x, R7)
         || InRow(x, R8) || InRow(x, R9) || InRow(x, R10) || InRow(x, R11)
         || InRow(x, R12) || InRow(x, R13) || InRow(x, R14) || InRow(x, R15)
  {}

  /** 2 generates the multiplicative group: its powers reach every nonzero byte, and the first
      positive power equal to 1 is the 255th. */
  lemma {:induction false} PowersOfTwo(x: Byte, d: nat)
    ensures x != 0 ==> exists i :: 0 <= i < 256 && Pow2(i) == x
    ensures 0 < d < 255 ==> Pow2(d) != 1
    ensures Pow2(255) == 1
  {
    RowsChained();
    RowsNoInnerOne();
    RowsLinked();
    RowsEnds();
    if x != 0 { RowsCover(x); }
    var k := 0;
    assert Pow2(k) == 1;
    hide *;
    ScanRow(k, R0, x, d);
    k := k + 16;
    ScanRow(k, R1, x, d);
    k := k + 16;
    ScanRow(k, R2, x, d);
    k := k + 16;
    ScanRow(k, R3, x, d);
    k := k + 16;
    ScanRow(k, R4, x, d);
    k := k + 16;
    ScanRow(k, R5, x, d);
    k := k + 16;
    ScanRow(k, R6, x, d);
    k := k + 16;
    ScanRow(k, R7, x, d);
    k := k + 16;
    ScanRow(k, R8, x, d);
    k := k + 16;
    ScanRow(k, R9, x, d);
    k := k + 16;
    ScanRow(k, R10, x, d);
    k := k + 16;
    ScanRow(k, R11, x, d);
    k := k + 16;
    ScanRow(k, R12, x, d);
    k := k + 16;
    ScanRow(k, R13, x, d);
    k := k + 16;
    ScanRow(k, R14, x, d);
    k := k + 16;
    ScanRow(k, R15, x, d);
  }

  lemma {:induction false} Inverse(x: Byte) returns (y: Byte)
    requires x != 0
    ensures Mul(x, y) == 1
  {
    PowersOfTwo(x, 1);
    hide *;
    var i :| 0 <= i < 256 && Pow2(i) == x;
    var j := if i == 0 then 0 else 255 - i;
    y := Pow2(j);
    Pow2Add(i, j);
    PowersOfTwo(1, 1);
    assert i + j == 0 ==> Pow2(i + j) == 1;
  }

  lemma {:induction false} NoZeroDivisors(x: Byte, y: Byte)
    requires Mul(x, y) == 0
    ensures x == 0 || y == 0
  {
    hide *;
    if x != 0 {
      var z := Inverse(x);
      MulComm(x, z);
      MulAssoc(z, x, y);
      MulOneLeft(y);
      MulComm(z, 0);
      MulZeroLeft(z);
    }
  }

  lemma {:induction false} Pow2Distinct(i: nat, j: nat)
    requires i < j < 255
    ensures Pow2(i) != Pow2(j)
  {
    hide *;
    var d := j - i;
    if Pow2(i) == Pow2(j) {
      Pow2Add(i, d);
      Pow2Nonzero(i);
      var z := Inverse(Pow2(i));
      MulComm(Pow2(i), z);
      MulAssoc(z, Pow2(i), Pow2(d));
      MulOneLeft(Pow2(d));
      PowersOfTwo(1, d);
      assert false;
    }
  }
}
