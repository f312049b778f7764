/** The format information of a symbol (section 7.9 of ISO/IEC 18004:2015): its 15 bits, the modules
    that show them, and reading the level and the mask back. */
module FormatInfo {
  import opened Grids
  import opened QrTables
  import opened Arithmetic

  // ---------- Bits of a word ----------

  /** A small number as a 32-bit word. */
  function Word(v: nat): bv32
  {
    if v == 0 then 0 else (Word(v / 2) << 1) | (if v % 2 == 1 then 1 else 0)
  }

  /** `((w >> i) & 1) != 0`. */
  predicate GetBit(w: bv32, i: nat)
    requires i < 18
  {
    match i
    case 0 => w & 1 == 1
    case 1 => (w >> 1) & 1 == 1
    case 2 => (w >> 2) & 1 == 1
    case 3 => (w >> 3) & 1 == 1
    case 4 => (w >> 4) & 1 == 1
    case 5 => (w >> 5) & 1 == 1
    case 6 => (w >> 6) & 1 == 1
    case 7 => (w >> 7) & 1 == 1
    case 8 => (w >> 8) & 1 == 1
    case 9 => (w >> 9) & 1 == 1
    case 10 => (w >> 10) & 1 == 1
    case 11 => (w >> 11) & 1 == 1
    case 12 => (w >> 12) & 1 == 1
    case 13 => (w >> 13) & 1 == 1
    case 14 => (w >> 14) & 1 == 1
    case 15 => (w >> 15) & 1 == 1
    case 16 => (w >> 16) & 1 == 1
    case _ => (w >> 17) & 1 == 1
  }

  lemma {:induction false} WordBelow(v: nat, k: nat)
    requires k <= 6 && v < [1, 2, 4, 8, 16, 32, 64][k]
    ensures Word(v) < [1, 2, 4, 8, 16, 32, 64][k]
  {
    if v == 0 {
    } else {
      WordBelow(v / 2, k - 1);
      DoubleBelow(Word(v / 2), if v % 2 == 1 then 1 else 0, k - 1);
    }
  }

  lemma {:induction false} DoubleBelow(w: bv32, b: bv32, k: nat)
    requires k <= 5 && w < [1, 2, 4, 8, 16, 32][k] && (b == 0 || b == 1)
    ensures (w << 1) | b < [2, 4, 8, 16, 32, 64][k]
  {
    match k
    case 0 => case 1 => case 2 => case 3 => case 4 => case _ =>
  }

  lemma {:induction false} HalfWord(w: bv32, b: bv32)
    requires w < 64 && (b == 0 || b == 1)
    ensures ((w << 1) | b) >> 1 == w
    ensures ((w << 1) | b) & 1 == b
  {}

  /** The lowest bit and the rest of a word. */
  lemma {:induction false} WordHalves(v: nat)
    requires v < 64
    ensures GetBit(Word(v), 0) <==> v % 2 == 1
    ensures Word(v) >> 1 == Word(v / 2)
  {
    if v == 0 {
    } else {
      WordBelow(v / 2, 5);
      HalfWord(Word(v / 2), if v % 2 == 1 then 1 else 0);
    }
  }

  /** `w >> i`. */
  function Shifted(w: bv32, i: nat): bv32
    requires i <= 18
  {
    match i
    case 0 => w
    case 1 => w >> 1
    case 2 => w >> 2
    case 3 => w >> 3
    case 4 => w >> 4
    case 5 => w >> 5
    case 6 => w >> 6
    case 7 => w >> 7
    case 8 => w >> 8
    case 9 => w >> 9
    case 10 => w >> 10
    case 11 => w >> 11
    case 12 => w >> 12
    case 13 => w >> 13
    case 14 => w >> 14
    case 15 => w >> 15
    case 16 => w >> 16
    case 17 => w >> 17
    case _ => w >> 18
  }

  /** The word with the given bits, highest first. */
  function Collect(bits: seq<bool>): bv32
  {
    if bits == [] then 0 else Appended(Collect(bits[..|bits| - 1]), bits[|bits| - 1])
  }

  function Appended(w: bv32, b: bool): bv32 { (w << 1) | (if b then 1 else 0) }

  function HalfOf(v: bv32): bv32 { v >> 1 }

  predicate IsOdd(v: bv32) { v & 1 == 1 }

  lemma {:induction false} LastBitBack(v: bv32)
    ensures Appended(HalfOf(v), IsOdd(v)) == v
  {}

  lemma {:induction false} HalvesTo6(w: bv32)
    ensures HalfOf(w) == w >> 1 && HalfOf(w >> 1) == w >> 2
    ensures HalfOf(w >> 2) == w >> 3 && HalfOf(w >> 3) == w >> 4
    ensures HalfOf(w >> 4) == w >> 5 && HalfOf(w >> 5) == w >> 6
  {}

  lemma {:induction false} HalvesTo12(w: bv32)
    ensures HalfOf(w >> 6) == w >> 7 && HalfOf(w >> 7) == w >> 8
    ensures HalfOf(w >> 8) == w >> 9 && HalfOf(w >> 9) == w >> 10
    ensures HalfOf(w >> 10) == w >> 11 && HalfOf(w >> 11) == w >> 12
  {}

  lemma {:induction false} HalvesTo18(w: bv32)
    ensures HalfOf(w >> 12) == w >> 13 && HalfOf(w >> 13) == w >> 14
    ensures HalfOf(w >> 14) == w >> 15 && HalfOf(w >> 15) == w >> 16
    ensures HalfOf(w >> 16) == w >> 17 && HalfOf(w >> 17) == w >> 18
  {}

  lemma {:induction false} ShiftedOnce(w: bv32, i: nat)
    requires i < 18
    ensures Shifted(w, i + 1) == HalfOf(Shifted(w, i))
  {
    hide HalfOf;
    if i < 6 { HalvesTo6(w); } else if i < 12 { HalvesTo12(w); } else { HalvesTo18(w); }
  }

  lemma {:induction false} BitIsLast(w: bv32, i: nat)
    requires i < 18
    ensures GetBit(w, i) <==> IsOdd(Shifted(w, i))
  {
    match i
    case 0 => case 1 => case 2 => case 3 => case 4 => case 5 => case 6 => case 7 => case 8 =>
    case 9 => case 10 => case 11 => case 12 => case 13 => case 14 => case 15 => case 16 => case 17 =>
  }

  lemma {:induction false} ShiftedStep(w: bv32, i: nat)
    requires i < 18
    ensures Appended(Shifted(w, i + 1), GetBit(w, i)) == Shifted(w, i)
  {
    hide GetBit, Shifted, HalfOf, IsOdd, Appended;
    ShiftedOnce(w, i);
    BitIsLast(w, i);
    LastBitBack(Shifted(w, i));
  }

  /** The bits `n - 1` down to `n - k`. */
  function LeadingBits(w: bv32, n: nat, k: nat): (bits: seq<bool>)
    requires k <= n <= 18
    ensures |bits| == k
  {
    seq(k, i requires 0 <= i < k => GetBit(w, n - 1 - i))
  }

  lemma {:induction false} LeadingCollect(w: bv32, n: nat, k: nat)
    requires k <= n <= 18 && Shifted(w, n) == 0
    ensures Collect(LeadingBits(w, n, k)) == Shifted(w, n - k)
  {
    hide GetBit, Shifted, Appended;
    if k > 0 {
      LeadingCollect(w, n, k - 1);
      ShiftedStep(w, n - k);
      assert LeadingBits(w, n, k)[..k - 1] == LeadingBits(w, n, k - 1);
    }
  }

  lemma {:induction false} ShiftedOut(w: bv32)
    requires w < 0x4_0000
    ensures Shifted(w, 0) == w && Shifted(w, 18) == 0
    ensures w < 0x8000 ==> Shifted(w, 15) == 0
  {}

  /** A word of 15 or 18 bits is made of its bits. */
  lemma {:induction false} BitsMakeWord(w: bv32, n: nat)
    requires (n == 15 && w < 0x8000) || (n == 18 && w < 0x4_0000)
    ensures Collect(LeadingBits(w, n, n)) == w
  {
    hide Shifted, Collect;
    ShiftedOut(w);
    LeadingCollect(w, n, n);
  }

  // ---------- Format bits ----------

  function LevelBits(ecl: Ecc): nat
  {
    match ecl
    case Low => 1
    case Medium => 0
    case Quartile => 3
    case High => 2
  }

  /** One step of the division by the generator polynomial 0x537. */
  function BchStep(rem: bv32): bv32 { (rem << 1) ^ ((rem >> 9) * 0x537) }

  function Bch(rem: bv32, n: nat): bv32
  {
    if n == 0 then rem else BchStep(Bch(rem, n - 1))
  }

  lemma {:induction false} BchStepBelow(rem: bv32)
    requires rem < 1024
    ensures BchStep(rem) < 1024
  {
    assert rem >> 9 == 0 || rem >> 9 == 1;
  }

  lemma {:induction false} BchBelow(rem: bv32, n: nat)
    requires rem < 1024
    ensures Bch(rem, n) < 1024
  {
    hide BchStep;
    if n > 0 {
      BchBelow(rem, n - 1);
      BchStepBelow(Bch(rem, n - 1));
    }
  }

  function FormatWord(ecl: Ecc, msk: nat): bv32
  {
    var data := Word(8 * LevelBits(ecl) + msk);
    ((data << 10) | Bch(data, 10)) ^ 0x5412
  }

  method ComputeFormatWord(ecl: Ecc, msk: nat) returns (bits: bv32)
    requires msk < 8
    ensures bits == FormatWord(ecl, msk) && bits >> 15 == 0
  {
    hide BchStep, Word;
    var data := Word(8 * LevelBits(ecl) + msk);
    var rem := data;
    for i := 0 to 10
      invariant rem == Bch(data, i)
    {
      rem := BchStep(rem);
    }
    bits := ((data << 10) | rem) ^ 0x5412;
    FormatWordTop(ecl, msk);
  }

  lemma {:induction false} TopBits(data: bv32, rem: bv32)
    requires data < 32 && rem < 1024
    ensures (((data << 10) | rem) ^ 0x5412) >> 15 == 0
    ensures ((((data << 10) | rem) ^ 0x5412) >> 10) == data ^ 0x15
  {}

  lemma {:induction false} FormatWordTop(ecl: Ecc, msk: nat)
    requires msk < 8
    ensures FormatWord(ecl, msk) >> 15 == 0
    ensures FormatWord(ecl, msk) >> 10 == Word(8 * LevelBits(ecl) + msk) ^ 0x15
  {
    hide Bch, Word;
    var data := Word(8 * LevelBits(ecl) + msk);
    WordBelow(8 * LevelBits(ecl) + msk, 5);
    BchBelow(data, 10);
    TopBits(data, Bch(data, 10));
  }

  lemma {:induction false} ShiftsCompose(w: bv32)
    ensures (w >> 1) >> 1 == w >> 2 && (w >> 2) >> 1 == w >> 3 && (w >> 3) >> 1 == w >> 4
  {}

  /** The five low bits as booleans: the lowest first. */
  predicate LowBits(w: bv32, b0: bool, b1: bool, b2: bool, b3: bool, b4: bool)
  {
    && (w & 1 == 1) == b0 && ((w >> 1) & 1 == 1) == b1 && ((w >> 2) & 1 == 1) == b2
    && ((w >> 3) & 1 == 1) == b3 && ((w >> 4) & 1 == 1) == b4
  }

  lemma {:induction false} XorMask(w: bv32, b0: bool, b1: bool, b2: bool, b3: bool, b4: bool)
    requires LowBits(w, b0, b1, b2, b3, b4)
    ensures LowBits(w ^ 0x15, !b0, b1, !b2, b3, !b4)
  {}

  lemma {:induction false} WordLowBits(v: nat)
    requires v < 32
    ensures LowBits(Word(v), v % 2 == 1, v / 2 % 2 == 1, v / 4 % 2 == 1, v / 8 % 2 == 1, v / 16 % 2 == 1)
  {
    var w := Word(v);
    WordHalves(v);
    WordHalves(v / 2);
    WordHalves(v / 4);
    WordHalves(v / 8);
    WordHalves(v / 16);
    hide Word;
    ShiftsCompose(w);
    assert v / 2 / 2 == v / 4 && v / 4 / 2 == v / 8 && v / 8 / 2 == v / 16;
  }

  /** Bits 10 to 14 of a word whose top is `d`. */
  lemma {:induction false} TopFive(w: bv32, d: bv32, b0: bool, b1: bool, b2: bool, b3: bool, b4: bool)
    requires w >> 10 == d && LowBits(d, b0, b1, b2, b3, b4)
    ensures GetBit(w, 10) == b0 && GetBit(w, 11) == b1 && GetBit(w, 12) == b2 && GetBit(w, 13) == b3 && GetBit(w, 14) == b4
  {
    ShiftsFromTen(w);
  }

  lemma {:induction false} ShiftsFromTen(w: bv32)
    ensures (w >> 10) >> 1 == w >> 11 && (w >> 10) >> 2 == w >> 12 && (w >> 10) >> 3 == w >> 13 && (w >> 10) >> 4 == w >> 14
  {}

  /** Bits 10 to 14 carry the mask and the level, under the mask pattern 10101. */
  lemma {:induction false} FormatBitsReadBack(ecl: Ecc, msk: nat)
    requires msk < 8
    ensures var w := FormatWord(ecl, msk);
            && (GetBit(w, 10) <==> msk % 2 == 0) && (GetBit(w, 11) <==> msk / 2 % 2 == 1) && (GetBit(w, 12) <==> msk / 4 % 2 == 0)
            && (GetBit(w, 13) <==> LevelBits(ecl) % 2 == 1) && (GetBit(w, 14) <==> LevelBits(ecl) / 2 % 2 == 0)
  {
    hide *;
    var l := LevelBits(ecl);
    var v := 8 * l + msk;
    DigitsOf(l, msk);
    LevelBelow(ecl);
    WordLowBits(v);
    var b0, b1, b2, b3, b4 := v % 2 == 1, v / 2 % 2 == 1, v / 4 % 2 == 1, v / 8 % 2 == 1, v / 16 % 2 == 1;
    XorMask(Word(v), b0, b1, b2, b3, b4);
    FormatWordTop(ecl, msk);
    TopFive(FormatWord(ecl, msk), Word(v) ^ 0x15, !b0, b1, !b2, b3, !b4);
  }

  lemma {:induction false} LevelBelow(ecl: Ecc)
    ensures LevelBits(ecl) < 4
  {}

  lemma {:induction false} DigitsOf(l: nat, msk: nat)
    requires msk < 8
    ensures var v := 8 * l + msk;
            && v % 2 == msk % 2 && v / 2 % 2 == msk / 2 % 2 && v / 4 % 2 == msk / 4 % 2
            && v / 8 % 2 == l % 2 && v / 16 % 2 == l / 2 % 2
  {
    hide *;
    var v := 8 * l + msk;
    HalfOfSum(4 * l, msk);
    HalfOfSum(2 * l, msk / 2);
    HalfOfSum(l, msk / 4);
    Halves(v);
    Halves(msk);
    assert msk / 8 == 0;
  }

  lemma {:induction false} HalfOfSum(k: nat, r: nat)
    ensures (2 * k + r) / 2 == k + r / 2 && (2 * k + r) % 2 == r % 2
  {}

  // ---------- Multiples of a generator polynomial ----------

  function Xor32(a: bv32, b: bv32): bv32 { a ^ b }

  function Twice(w: bv32): bv32 { w << 1 }

  function Times2(w: bv32, n: nat): bv32 { if n == 0 then w else Twice(Times2(w, n - 1)) }

  function Choose(b: bool, g: bv32): bv32 { if b then g else 0 }

  /** The product of the polynomials `q`, highest coefficient first, and `g` over two elements. */
  function Product2(q: seq<bool>, g: bv32): bv32
  {
    if q == [] then 0 else Xor32(Twice(Product2(q[..|q| - 1], g)), Choose(q[|q| - 1], g))
  }

  lemma {:induction false} Xor32Laws(a: bv32, b: bv32, c: bv32)
    ensures Xor32(Xor32(a, b), c) == Xor32(a, Xor32(b, c)) && Xor32(a, b) == Xor32(b, a) && Xor32(a, a) == 0 && Xor32(a, 0) == a
  {
    hide Xor32;
    Xor32Associative(a, b, c);
    Xor32Commutative(a, b);
    Xor32Self(a);
  }

  lemma {:induction false} Xor32Associative(a: bv32, b: bv32, c: bv32)
    ensures Xor32(Xor32(a, b), c) == Xor32(a, Xor32(b, c))
  {}

  lemma {:induction false} Xor32Commutative(a: bv32, b: bv32)
    ensures Xor32(a, b) == Xor32(b, a)
  {}

  lemma {:induction false} Xor32Self(a: bv32)
    ensures Xor32(a, a) == 0 && Xor32(a, 0) == a
  {}

  lemma {:induction false} TwiceXor(a: bv32, b: bv32)
    ensures Twice(Xor32(a, b)) == Xor32(Twice(a), Twice(b))
  {}

  /** One step of a division: the remainder changes by a multiple of the divisor. */
  lemma {:induction false} DivisionStep(lhs: bv32, product: bv32, rem: bv32, next: bv32, c: bv32)
    requires lhs == Xor32(product, rem) && next == Xor32(Twice(rem), c)
    ensures Twice(lhs) == Xor32(Xor32(Twice(product), c), next)
  {
    hide Xor32, Twice;
    TwiceXor(product, rem);
    var p, t := Twice(product), Twice(rem);
    Xor32Laws(p, c, Xor32(t, c));
    Xor32Laws(c, t, c);
    Xor32Laws(t, c, c);
    Xor32Laws(c, Xor32(t, c), t);
    Xor32Laws(t, 0, 0);
    Xor32Laws(c, c, c);
  }

  /** The top coefficient of a remainder of degree below ten. */
  predicate Top9(rem: bv32) { rem >= 512 }

  lemma {:induction false} BchStepForm(rem: bv32)
    requires rem < 1024
    ensures BchStep(rem) == Xor32(Twice(rem), Choose(Top9(rem), 0x537))
  {
    if rem >= 512 { assert rem >> 9 == 1; } else { assert rem >> 9 == 0; }
  }

  function BchQuotient(data: bv32, n: nat): (q: seq<bool>)
    ensures |q| == n
  {
    if n == 0 then [] else BchQuotient(data, n - 1) + [Top9(Bch(data, n - 1))]
  }

  lemma {:induction false} BchDivides(data: bv32, n: nat)
    requires data < 1024
    ensures Times2(data, n) == Xor32(Product2(BchQuotient(data, n), 0x537), Bch(data, n))
  {
    hide BchStep, Xor32, Twice, Choose, Top9;
    if n == 0 {
      Xor32Laws(data, 0, 0);
      Xor32Laws(0, data, 0);
    } else {
      BchDivides(data, n - 1);
      BchBelow(data, n - 1);
      var rem, q := Bch(data, n - 1), BchQuotient(data, n - 1);
      BchStepForm(rem);
      assert BchQuotient(data, n)[..n - 1] == q;
      DivisionStep(Times2(data, n - 1), Product2(q, 0x537), rem, BchStep(rem), Choose(Top9(rem), 0x537));
    }
  }

  function Shift10(data: bv32): bv32 { data << 10 }

  lemma {:induction false} TwiceTenTimes(data: bv32)
    ensures Twice(Twice(Twice(Twice(Twice(Twice(Twice(Twice(Twice(Twice(data)))))))))) == Shift10(data)
  {}

  lemma {:induction false} TenTimes(data: bv32)
    ensures Times2(data, 10) == Shift10(data)
  {
    hide Twice, Shift10;
    assert Times2(data, 1) == Twice(Times2(data, 0));
    assert Times2(data, 2) == Twice(Times2(data, 1));
    assert Times2(data, 3) == Twice(Times2(data, 2));
    assert Times2(data, 4) == Twice(Times2(data, 3));
    assert Times2(data, 5) == Twice(Times2(data, 4));
    assert Times2(data, 6) == Twice(Times2(data, 5));
    assert Times2(data, 7) == Twice(Times2(data, 6));
    assert Times2(data, 8) == Twice(Times2(data, 7));
    assert Times2(data, 9) == Twice(Times2(data, 8));
    assert Times2(data, 10) == Twice(Times2(data, 9));
    TwiceTenTimes(data);
  }

  function Assembled(data: bv32, rem: bv32): bv32 { ((data << 10) | rem) ^ 0x5412 }

  lemma {:induction false} AssembledIsXor(data: bv32, rem: bv32)
    requires rem < 1024
    ensures Assembled(data, rem) == Xor32(Xor32(Shift10(data), rem), 0x5412)
  {}

  lemma {:induction false} FormatWordIs(ecl: Ecc, msk: nat)
    ensures var data := Word(8 * LevelBits(ecl) + msk); FormatWord(ecl, msk) == Assembled(data, Bch(data, 10))
  {
    hide Bch, Word;
  }

  /** Without its mask pattern, the format word is a multiple of the generator polynomial 0x537. */
  lemma {:induction false} FormatWordDivisible(ecl: Ecc, msk: nat)
    requires msk < 8
    ensures FormatWord(ecl, msk) == Xor32(Product2(BchQuotient(Word(8 * LevelBits(ecl) + msk), 10), 0x537), 0x5412)
  {
    hide *;
    var v := 8 * LevelBits(ecl) + msk;
    LevelBelow(ecl);
    WordBelow(v, 5);
    var data := Word(v);
    FormatWordIs(ecl, msk);
    BchBelow(data, 10);
    BchDivides(data, 10);
    TenTimes(data);
    AssembledIsXor(data, Bch(data, 10));
    XorTwice(Shift10(data), Product2(BchQuotient(data, 10), 0x537), Bch(data, 10));
  }

  lemma {:induction false} XorTwice(a: bv32, p: bv32, r: bv32)
    requires a == Xor32(p, r)
    ensures Xor32(a, r) == p
  {
    hide Xor32;
    Xor32Laws(p, r, r);
    Xor32Laws(p, 0, 0);
    Xor32Laws(r, r, r);
  }

  // ---------- The modules that show them ----------

  /** The bit of the first copy a module shows, or -1. */
  function FirstCopy(c: Cell): int
  {
    if c.x == 8 && 0 <= c.y <= 5 then c.y
    else if c == Cell(8, 7) then 6
    else if c == Cell(8, 8) then 7
    else if c == Cell(7, 8) then 8
    else if c.y == 8 && 0 <= c.x <= 5 then 14 - c.x
    else -1
  }

  /** The bit of the second copy a module shows, or -1. */
  function SecondCopy(c: Cell, size: nat): int
  {
    if c.y == 8 && size - 8 <= c.x < size then size - 1 - c.x
    else if c.x == 8 && size - 7 <= c.y < size then c.y + 15 - size
    else -1
  }

  predicate FormatCell(c: Cell, size: nat)
  {
    FirstCopy(c) != -1 || SecondCopy(c, size) != -1 || c == Cell(8, size - 8)
  }

  predicate FormatDark(c: Cell, size: nat, bits: bv32)
  {
    if FirstCopy(c) != -1 then GetBit(bits, FirstCopy(c))
    else if SecondCopy(c, size) != -1 then GetBit(bits, SecondCopy(c, size))
    else true
  }

  // ---------- Reading the format ----------

  function ReadMask(g: Grid, size: nat): (m: nat)
    requires Square(g, size) && size >= 21
    ensures m < 8
  {
    (if Get(g, size, Cell(4, 8)) then 0 else 1) +
    (if Get(g, size, Cell(3, 8)) then 2 else 0) +
    (if Get(g, size, Cell(2, 8)) then 0 else 4)
  }

  function ReadLevel(g: Grid, size: nat): Ecc
    requires Square(g, size) && size >= 21
  {
    match (Get(g, size, Cell(0, 8)), Get(g, size, Cell(1, 8)))
    case (true, true) => Low
    case (true, false) => Medium
    case (false, true) => Quartile
    case (false, false) => High
  }

  ghost predicate ShowsFormat(g: Grid, size: nat, ecl: Ecc, msk: nat)
    requires Square(g, size)
  {
    forall c :: InGrid(c, size) && FormatCell(c, size) ==> Get(g, size, c) == FormatDark(c, size, FormatWord(ecl, msk))
  }

  /** A symbol that shows format information yields its mask and level to a reader. */
  lemma {:induction false} FormatRoundTrip(g: Grid, size: nat, ecl: Ecc, msk: nat)
    requires Square(g, size) && size >= 21 && msk < 8 && ShowsFormat(g, size, ecl, msk)
    ensures ReadMask(g, size) == msk && ReadLevel(g, size) == ecl
  {
    hide GetBit, FormatWord;
    FormatBitsReadBack(ecl, msk);
    assert Get(g, size, Cell(4, 8)) == GetBit(FormatWord(ecl, msk), 10);
    assert Get(g, size, Cell(3, 8)) == GetBit(FormatWord(ecl, msk), 11);
    assert Get(g, size, Cell(2, 8)) == GetBit(FormatWord(ecl, msk), 12);
    assert Get(g, size, Cell(1, 8)) == GetBit(FormatWord(ecl, msk), 13);
    assert Get(g, size, Cell(0, 8)) == GetBit(FormatWord(ecl, msk), 14);
  }

  // ---------- Both copies ----------

  function ReadAt(g: Grid, size: nat, cells: seq<Cell>): (bits: seq<bool>)
    requires Square(g, size) && forall i :: 0 <= i < |cells| ==> InGrid(cells[i], size)
    ensures |bits| == |cells|
  {
    seq(|cells|, i requires 0 <= i < |cells| => Get(g, size, cells[i]))
  }

  /** The modules of the copy around the upper left finder pattern, highest bit first. */
  const FIRST_COPY: seq<Cell> := [
    Cell(0, 8), Cell(1, 8), Cell(2, 8), Cell(3, 8), Cell(4, 8), Cell(5, 8), Cell(7, 8), Cell(8, 8),
    Cell(8, 7), Cell(8, 5), Cell(8, 4), Cell(8, 3), Cell(8, 2), Cell(8, 1), Cell(8, 0)
  ]

  /** The modules of the copy that is divided between the two other finder patterns. */
  function SecondCopyCells(size: nat): (cells: seq<Cell>)
    ensures |cells| == 15
  {
    seq(15, i requires 0 <= i < 15 => if i < 7 then Cell(8, size - 1 - i) else Cell(size - 15 + i, 8))
  }

  lemma {:induction false} FirstCopyBit(i: nat)
    requires i < 15
    ensures |FIRST_COPY| == 15 && FirstCopy(FIRST_COPY[i]) == 14 - i && InGrid(FIRST_COPY[i], 21)
  {
    match i
    case 0 => case 1 => case 2 => case 3 => case 4 => case 5 => case 6 => case 7 => case 8 =>
    case 9 => case 10 => case 11 => case 12 => case 13 => case 14 =>
  }

  lemma {:induction false} SecondCopyBit(i: nat, size: nat)
    requires i < 15 && size >= 21
    ensures var c := SecondCopyCells(size)[i]; SecondCopy(c, size) == 14 - i && FirstCopy(c) == -1 && InGrid(c, size)
  {}

  lemma {:induction false} FormatWordBelow(ecl: Ecc, msk: nat)
    requires msk < 8
    ensures FormatWord(ecl, msk) < 0x8000
  {
    hide Bch, Word;
    var v := 8 * LevelBits(ecl) + msk;
    LevelBelow(ecl);
    WordBelow(v, 5);
    BchBelow(Word(v), 10);
    WordParts(Word(v), Bch(Word(v), 10));
  }

  lemma {:induction false} WordParts(data: bv32, rem: bv32)
    requires data < 32 && rem < 1024
    ensures ((data << 10) | rem) ^ 0x5412 < 0x8000
  {}

  /** Each of the two copies shows all fifteen bits of the format word. */
  lemma {:induction false} BothCopiesRead(g: Grid, size: nat, ecl: Ecc, msk: nat)
    requires Square(g, size) && size >= 21 && msk < 8 && ShowsFormat(g, size, ecl, msk)
    ensures |FIRST_COPY| == 15 && forall i :: 0 <= i < 15 ==> InGrid(FIRST_COPY[i], size) && InGrid(SecondCopyCells(size)[i], size)
    ensures Collect(ReadAt(g, size, FIRST_COPY)) == FormatWord(ecl, msk)
    ensures Collect(ReadAt(g, size, SecondCopyCells(size))) == FormatWord(ecl, msk)
  {
    hide Get, GetBit, FormatWord, FirstCopy, SecondCopy, Collect, SecondCopyCells;
    FirstCopyBit(0);
    forall i | 0 <= i < 15 ensures InGrid(FIRST_COPY[i], size) && InGrid(SecondCopyCells(size)[i], size) {
      FirstCopyBit(i);
      SecondCopyBit(i, size);
    }
    var w := FormatWord(ecl, msk);
    FormatWordBelow(ecl, msk);
    BitsMakeWord(w, 15);
    var first, second, bits := ReadAt(g, size, FIRST_COPY), ReadAt(g, size, SecondCopyCells(size)), LeadingBits(w, 15, 15);
    forall i | 0 <= i < 15 ensures first[i] == bits[i] && second[i] == bits[i] {
      FirstCopyBit(i);
      SecondCopyBit(i, size);
    }
    assert first == bits && second == bits;
  }
}
