/** Two wrong bits: the checksum catches them unless their distance is a multiple of 32767. */
module CrcOrder {
  import opened Arithmetic
  import opened Crc16
  import GaloisField

  // ---------- Powers of x ----------

  /** The register for x^n modulo the checksum polynomial. */
  function Power(n: nat): bv16 { Steps(1, n) }

  lemma {:induction false} StepsAdd(c: bv16, m: nat, n: nat)
    ensures Steps(Steps(c, m), n) == Steps(c, m + n)
  {
    hide Step;
    if n > 0 { StepsAdd(c, m, n - 1); }
  }

  lemma {:induction false} StepsXor(a: bv16, b: bv16, n: nat)
    ensures Steps(Xor(a, b), n) == Xor(Steps(a, n), Steps(b, n))
  {
    hide Step, Xor;
    if n > 0 {
      StepsXor(a, b, n - 1);
      StepXor(Steps(a, n - 1), Steps(b, n - 1));
    }
  }

  lemma {:induction false} PowerNext(n: nat)
    ensures Power(n + 1) == Step(Power(n))
  {
    hide Step;
  }

  // ---------- Squaring ----------

  /** x^(2k) for k below 16. */
  function EvenPower(k: nat): bv16
    requires k < 16
  {
    match k
    case 0 => 0x0001
    case 1 => 0x0004
    case 2 => 0x0010
    case 3 => 0x0040
    case 4 => 0x0100
    case 5 => 0x0400
    case 6 => 0x1000
    case 7 => 0x4000
    case 8 => 0x8005
    case 9 => 0x801B
    case 10 => 0x8063
    case 11 => 0x8183
    case 12 => 0x8603
    case 13 => 0x9803
    case 14 => 0xE003
    case 15 => 0x8006
  }

  lemma {:induction false} TwoSteps(n: nat, c: bv16, d: bv16, e: bv16)
    requires Power(n) == c && Step(c) == d && Step(d) == e
    ensures Power(n + 2) == e
  {
    hide Power, Step;
    PowerNext(n);
    PowerNext(n + 1);
  }

  lemma {:induction false} EvenPowers()
    ensures Power(0) == 1
    ensures Power(2) == 0x0004
    ensures Power(4) == 0x0010
    ensures Power(6) == 0x0040
    ensures Power(8) == 0x0100
    ensures Power(10) == 0x0400
    ensures Power(12) == 0x1000
    ensures Power(14) == 0x4000
    ensures Power(16) == 0x8005
    ensures Power(18) == 0x801B
    ensures Power(20) == 0x8063
    ensures Power(22) == 0x8183
    ensures Power(24) == 0x8603
    ensures Power(26) == 0x9803
    ensures Power(28) == 0xE003
    ensures Power(30) == 0x8006
  {
    hide Power;
    PowerOf0();
    TwoSteps(0, 0x0001, 0x0002, 0x0004);
    TwoSteps(2, 0x0004, 0x0008, 0x0010);
    TwoSteps(4, 0x0010, 0x0020, 0x0040);
    TwoSteps(6, 0x0040, 0x0080, 0x0100);
    TwoSteps(8, 0x0100, 0x0200, 0x0400);
    TwoSteps(10, 0x0400, 0x0800, 0x1000);
    TwoSteps(12, 0x1000, 0x2000, 0x4000);
    TwoSteps(14, 0x4000, 0x8000, 0x8005);
    TwoSteps(16, 0x8005, 0x800F, 0x801B);
    TwoSteps(18, 0x801B, 0x8033, 0x8063);
    TwoSteps(20, 0x8063, 0x80C3, 0x8183);
    TwoSteps(22, 0x8183, 0x8303, 0x8603);
    TwoSteps(24, 0x8603, 0x8C03, 0x9803);
    TwoSteps(26, 0x9803, 0xB003, 0xE003);
    TwoSteps(28, 0xE003, 0x4003, 0x8006);
  }

  lemma {:induction false} PowerOf0()
    ensures Power(0) == 1
  {}

  lemma {:induction false} EvenPowerIs(k: nat)
    requires k < 16
    ensures EvenPower(k) == Power(2 * k)
  {
    hide Power, Step;
    EvenPowers();
  }

  function Chosen(b: bool, c: bv16): bv16 { if b then c else 0 }

  /** The sum of x^(2k) over the set bits k < n. */
  function SquareUpTo(a: bv16, n: nat): bv16
    requires n <= 16
  {
    if n == 0 then 0 else Xor(SquareUpTo(a, n - 1), Chosen(HasBit(a, n - 1), EvenPower(n - 1)))
  }

  function Square(a: bv16): bv16 { SquareUpTo(a, 16) }

  function StepTwice(c: bv16): bv16 { Step(Step(c)) }

  lemma {:induction false} StepTwiceXor(a: bv16, b: bv16)
    ensures StepTwice(Xor(a, b)) == Xor(StepTwice(a), StepTwice(b))
  {
    hide Step, Xor;
    StepXor(a, b);
    StepXor(Step(a), Step(b));
  }

  lemma {:induction false} StepTwiceZero()
    ensures StepTwice(0) == 0
  {}

  lemma {:induction false} ChosenXor(p: bool, q: bool, c: bv16)
    ensures Chosen(p != q, c) == Xor(Chosen(p, c), Chosen(q, c))
  {
    hide Xor;
    XorLaws(c, 0, 0);
    XorLaws(0, c, 0);
    XorLaws(0, 0, 0);
  }

  lemma {:induction false} HasBitXor(a: bv16, b: bv16, i: nat)
    requires i < 16
    ensures HasBit(Xor(a, b), i) == (HasBit(a, i) != HasBit(b, i))
  {
    hide BitValue16, Xor;
    XorOfBits();
    BitValueXor(a, b, i);
    BitValueCases(a, i);
    BitValueCases(b, i);
  }

  lemma {:induction false} SquareXor(a: bv16, b: bv16, n: nat)
    requires n <= 16
    ensures SquareUpTo(Xor(a, b), n) == Xor(SquareUpTo(a, n), SquareUpTo(b, n))
  {
    hide Xor, HasBit, EvenPower, Chosen;
    if n == 0 {
      XorLaws(0, 0, 0);
    } else {
      SquareXor(a, b, n - 1);
      HasBitXor(a, b, n - 1);
      var c := EvenPower(n - 1);
      ChosenXor(HasBit(a, n - 1), HasBit(b, n - 1), c);
      XorSwap(SquareUpTo(a, n - 1), SquareUpTo(b, n - 1), Chosen(HasBit(a, n - 1), c), Chosen(HasBit(b, n - 1), c));
    }
  }

  lemma {:induction false} EvenPowerNext(k: nat)
    requires k < 15
    ensures EvenPower(k + 1) == StepTwice(EvenPower(k))
  {
    hide Power, Step, EvenPower;
    EvenPowerIs(k);
    EvenPowerIs(k + 1);
    PowerNext(2 * k);
    PowerNext(2 * k + 1);
  }

  lemma {:induction false} ChosenStep(b: bool, c: bv16)
    ensures StepTwice(Chosen(b, c)) == Chosen(b, StepTwice(c))
  {
    hide StepTwice;
    StepTwiceZero();
  }

  /** Shifting the bits multiplies the square by x^2. */
  lemma {:induction false} SquareShifted(a: bv16, n: nat)
    requires n <= 15
    ensures SquareUpTo(Shifted(a), n + 1) == StepTwice(SquareUpTo(a, n))
  {
    hide Xor, HasBit, EvenPower, Chosen, StepTwice, Shifted;
    if n == 0 {
      HasBitShift(a, 0);
      StepTwiceZero();
      NothingChosen();
    } else {
      SquareShifted(a, n - 1);
      HasBitShift(a, n);
      EvenPowerNext(n - 1);
      ChosenStep(HasBit(a, n - 1), EvenPower(n - 1));
      StepTwiceXor(SquareUpTo(a, n - 1), Chosen(HasBit(a, n - 1), EvenPower(n - 1)));
    }
  }

  lemma {:induction false} NothingChosen()
    ensures Xor(0, Chosen(false, EvenPower(0))) == 0
  {}

  lemma {:induction false} SquareOfPolynomial()
    ensures Square(0x8005) == StepTwice(EvenPower(15))
  {
    assert SquareUpTo(0x8005, 1) == 0x0001;
    assert SquareUpTo(0x8005, 2) == 0x0001;
    assert SquareUpTo(0x8005, 3) == 0x0011;
    assert SquareUpTo(0x8005, 9) == 0x0011;
    assert SquareUpTo(0x8005, 15) == 0x0011;
  }

  lemma {:induction false} SquareStep(a: bv16)
    ensures Square(Step(a)) == StepTwice(Square(a))
  {
    hide Xor, Step, Shifted, HasBit, SquareUpTo, Chosen, EvenPower, StepTwice;
    StepCases(a);
    SquareShifted(a, 15);
    LastTerm(a);
    StepTwiceXor(SquareUpTo(a, 15), Chosen(HasBit(a, 15), EvenPower(15)));
    ChosenStep(HasBit(a, 15), EvenPower(15));
    SquareOfPolynomial();
    SquareXor(Shifted(a), 0x8005, 16);
    ChosenCases(StepTwice(EvenPower(15)));
    XorLaws(StepTwice(SquareUpTo(a, 15)), 0, 0);
  }

  lemma {:induction false} LastTerm(a: bv16)
    ensures Square(a) == Xor(SquareUpTo(a, 15), Chosen(HasBit(a, 15), EvenPower(15)))
  {
    hide Xor, HasBit, EvenPower, Chosen;
  }

  lemma {:induction false} ChosenCases(c: bv16)
    ensures Chosen(true, c) == c && Chosen(false, c) == 0
  {}

  /** Squaring doubles the exponent. */
  lemma {:induction false} SquareOfPower(n: nat)
    ensures Square(Power(n)) == Power(2 * n)
  {
    if n == 0 {
      SquareOfOne();
    } else {
      hide Square, Step, Power;
      SquareOfPower(n - 1);
      PowerNext(n - 1);
      SquareStep(Power(n - 1));
      PowerNext(2 * n - 2);
      PowerNext(2 * n - 1);
    }
  }

  lemma {:induction false} SquareOfOne()
    ensures Square(1) == 1
  {
    assert SquareUpTo(1, 1) == 1;
    assert SquareUpTo(1, 8) == 1;
    assert SquareUpTo(1, 15) == 1;
  }

  // ---------- Some powers ----------

  lemma {:induction false} Doubled(n: nat, c: bv16, d: bv16)
    requires Power(n) == c && Squared(c) == d
    ensures Power(2 * n) == d
  {
    hide Power, Square, Squared;
    SquareOfPower(n);
    SquareIs(c);
  }

  lemma {:induction false} NextPower(n: nat, c: bv16, d: bv16)
    requires Power(n) == c && Step(c) == d
    ensures Power(n + 1) == d
  {
    hide Power, Step;
    PowerNext(n);
  }

  /** Bit k of the register times x^(2k). */
  function Term(a: bv16, k: nat): bv16
    requires k < 16
  {
    BitValue16(a, k) * EvenPower(k)
  }

  lemma {:induction false} TimesBit(c: bv16)
    ensures 0 * c == 0 && 1 * c == c
  {}

  lemma {:induction false} TermIs(a: bv16, k: nat)
    requires k < 16
    ensures Chosen(HasBit(a, k), EvenPower(k)) == Term(a, k)
  {
    hide BitValue16, EvenPower;
    BitValueCases(a, k);
    TimesBit(EvenPower(k));
  }

  lemma {:induction false} SquareNext(a: bv16, n: nat)
    requires n < 16
    ensures SquareUpTo(a, n + 1) == Xor(SquareUpTo(a, n), Term(a, n))
  {
    hide Xor, HasBit, Chosen, EvenPower, Term;
    TermIs(a, n);
  }

  lemma {:induction false} NoTerms(a: bv16)
    ensures SquareUpTo(a, 0) == 0
  {}

  lemma {:induction false} FirstTerms(a: bv16)
    ensures Term(a, 0) == (a & 1) * 0x0001
    ensures Term(a, 1) == ((a >> 1) & 1) * 0x0004
    ensures Term(a, 2) == ((a >> 2) & 1) * 0x0010
    ensures Term(a, 3) == ((a >> 3) & 1) * 0x0040
  {}

  lemma {:induction false} SecondTerms(a: bv16)
    ensures Term(a, 4) == ((a >> 4) & 1) * 0x0100
    ensures Term(a, 5) == ((a >> 5) & 1) * 0x0400
    ensures Term(a, 6) == ((a >> 6) & 1) * 0x1000
    ensures Term(a, 7) == ((a >> 7) & 1) * 0x4000
  {}

  lemma {:induction false} ThirdTerms(a: bv16)
    ensures Term(a, 8) == ((a >> 8) & 1) * 0x8005
    ensures Term(a, 9) == ((a >> 9) & 1) * 0x801B
    ensures Term(a, 10) == ((a >> 10) & 1) * 0x8063
    ensures Term(a, 11) == ((a >> 11) & 1) * 0x8183
  {}

  lemma {:induction false} FourthTerms(a: bv16)
    ensures Term(a, 12) == ((a >> 12) & 1) * 0x8603
    ensures Term(a, 13) == ((a >> 13) & 1) * 0x9803
    ensures Term(a, 14) == ((a >> 14) & 1) * 0xE003
    ensures Term(a, 15) == ((a >> 15) & 1) * 0x8006
  {}

  /** The square in plain bit operations, for evaluation. */
  function Squared(a: bv16): bv16
  {
    var s4 := Xor(Xor(Xor(Xor(0, (a & 1) * 0x0001), ((a >> 1) & 1) * 0x0004), ((a >> 2) & 1) * 0x0010), ((a >> 3) & 1) * 0x0040);
    var s8 := Xor(Xor(Xor(Xor(s4, ((a >> 4) & 1) * 0x0100), ((a >> 5) & 1) * 0x0400), ((a >> 6) & 1) * 0x1000), ((a >> 7) & 1) * 0x4000);
    var s12 := Xor(Xor(Xor(Xor(s8, ((a >> 8) & 1) * 0x8005), ((a >> 9) & 1) * 0x801B), ((a >> 10) & 1) * 0x8063), ((a >> 11) & 1) * 0x8183);
    Xor(Xor(Xor(Xor(s12, ((a >> 12) & 1) * 0x8603), ((a >> 13) & 1) * 0x9803), ((a >> 14) & 1) * 0xE003), ((a >> 15) & 1) * 0x8006)
  }

  lemma {:induction false} SquareIs(a: bv16)
    ensures Square(a) == Squared(a)
  {
    NoTerms(a);
    hide Xor, Term, SquareUpTo;
    FirstTerms(a);
    SecondTerms(a);
    ThirdTerms(a);
    FourthTerms(a);
    SquareNext(a, 0);
    SquareNext(a, 1);
    SquareNext(a, 2);
    SquareNext(a, 3);
    SquareNext(a, 4);
    SquareNext(a, 5);
    SquareNext(a, 6);
    SquareNext(a, 7);
    SquareNext(a, 8);
    SquareNext(a, 9);
    SquareNext(a, 10);
    SquareNext(a, 11);
    SquareNext(a, 12);
    SquareNext(a, 13);
    SquareNext(a, 14);
    SquareNext(a, 15);
  }

  lemma {:induction false} PowerOf8()
    ensures Power(8) == 0x0100
  {
    hide Power;
    PowerOf0();
    NextPower(0, 0x0001, 0x0002);
    Doubled(1, 0x0002, 0x0004);
    Doubled(2, 0x0004, 0x0010);
    Doubled(4, 0x0010, 0x0100);
  }

  lemma {:induction false} PowerOf32()
    ensures Power(32) == 0x8017
  {
    hide Power;
    PowerOf8();
    Doubled(8, 0x0100, 0x8005);
    Doubled(16, 0x8005, 0x8017);
  }

  lemma {:induction false} PowerOf31()
    ensures Power(31) == 0x8009
  {
    hide Power;
    PowerOf0();
    NextPower(0, 0x0001, 0x0002);
    Doubled(1, 0x0002, 0x0004);
    NextPower(2, 0x0004, 0x0008);
    Doubled(3, 0x0008, 0x0040);
    NextPower(6, 0x0040, 0x0080);
    Doubled(7, 0x0080, 0x4000);
    NextPower(14, 0x4000, 0x8000);
    Doubled(15, 0x8000, 0x8006);
    NextPower(30, 0x8006, 0x8009);
  }

  lemma {:induction false} PowerOf151()
    ensures Power(151) == 0x8A09
  {
    hide Power;
    PowerOf8();
    NextPower(8, 0x0100, 0x0200);
    Doubled(9, 0x0200, 0x801B);
    Doubled(18, 0x801B, 0x8143);
    NextPower(36, 0x8143, 0x8283);
    Doubled(37, 0x8283, 0x4018);
    NextPower(74, 0x4018, 0x8030);
    Doubled(75, 0x8030, 0x8506);
    NextPower(150, 0x8506, 0x8A09);
  }

  lemma {:induction false} PowerOf217()
    ensures Power(217) == 0xAA7C
  {
    hide Power;
    PowerOf0();
    NextPower(0, 0x0001, 0x0002);
    Doubled(1, 0x0002, 0x0004);
    NextPower(2, 0x0004, 0x0008);
    Doubled(3, 0x0008, 0x0040);
    Doubled(6, 0x0040, 0x1000);
    NextPower(12, 0x1000, 0x2000);
    Doubled(13, 0x2000, 0x9803);
    NextPower(26, 0x9803, 0xB003);
    Doubled(27, 0xB003, 0x9E03);
    Doubled(54, 0x9E03, 0x87FB);
    Doubled(108, 0x87FB, 0x553E);
    NextPower(216, 0x553E, 0xAA7C);
  }

  lemma {:induction false} PowerOf1057()
    ensures Power(1057) == 0x8273
  {
    hide Power;
    PowerOf32();
    NextPower(32, 0x8017, 0x802B);
    Doubled(33, 0x802B, 0x8443);
    Doubled(66, 0x8443, 0x1060);
    Doubled(132, 0x1060, 0x9203);
    Doubled(264, 0x9203, 0x861B);
    Doubled(528, 0x861B, 0x813B);
    NextPower(1056, 0x813B, 0x8273);
  }

  lemma {:induction false} PowerOf4681()
    ensures Power(4681) == 0x9631
  {
    hide Power;
    PowerOf8();
    NextPower(8, 0x0100, 0x0200);
    Doubled(9, 0x0200, 0x801B);
    Doubled(18, 0x801B, 0x8143);
    Doubled(36, 0x8143, 0x1006);
    NextPower(72, 0x1006, 0x200C);
    Doubled(73, 0x200C, 0x9853);
    Doubled(146, 0x9853, 0x9683);
    Doubled(292, 0x9683, 0x4678);
    NextPower(584, 0x4678, 0x8CF0);
    Doubled(585, 0x8CF0, 0xD4E6);
    Doubled(1170, 0xD4E6, 0x3271);
    Doubled(2340, 0x3271, 0x8B1A);
    NextPower(4680, 0x8B1A, 0x9631);
  }

  lemma {:induction false} PowerOf1024()
    ensures Power(1024) == 0x0016
  {
    hide Power;
    PowerOf32();
    Doubled(32, 0x8017, 0x8113);
    Doubled(64, 0x8113, 0x0106);
    Doubled(128, 0x0106, 0x8011);
    Doubled(256, 0x8011, 0x8107);
    Doubled(512, 0x8107, 0x0016);
  }

  lemma {:induction false} PowerOf32768()
    ensures Power(32768) == 0x0002
  {
    hide Power;
    PowerOf1024();
    Doubled(1024, 0x0016, 0x0114);
    Doubled(2048, 0x0114, 0x8115);
    Doubled(4096, 0x8115, 0x0112);
    Doubled(8192, 0x0112, 0x8101);
    Doubled(16384, 0x8101, 0x0002);
  }

  // ---------- The period ----------

  /** The period of x: 7 * 31 * 151. */
  const PERIOD: nat := 32767

  lemma {:induction false} PeriodIs()
    ensures Power(PERIOD) == 1
  {
    hide Power, Step;
    PowerOf32768();
    PowerNext(32767);
    PowerNext(0);
    PowerOf0();
    StepOfOne();
    StepInjective(Power(32767), 1);
  }

  lemma {:induction false} StepOfOne()
    ensures Step(1) == 2
  {}

  lemma {:induction false} PowerAdd(m: nat, n: nat)
    requires Power(m) == 1
    ensures Power(m + n) == Power(n)
  {
    StepsAdd(1, m, n);
  }

  lemma {:induction false} PowerMultiple(m: nat, k: nat)
    requires Power(m) == 1
    ensures Power(k * m) == 1
  {
    hide Power;
    if k == 0 {
      PowerOf0();
    } else {
      PowerMultiple(m, k - 1);
      PowerAdd(m, (k - 1) * m);
      NextMultiple(k - 1, m);
    }
  }

  /** Whatever two exponents give 1, a common divisor of them does. */
  lemma {:induction false} CommonDivisor(a: nat, b: nat) returns (g: nat, p: nat, q: nat)
    requires a > 0 && Power(a) == 1 && Power(b) == 1
    ensures g > 0 && a == p * g && b == q * g && Power(g) == 1
    decreases a + b
  {
    hide Power;
    if b == 0 {
      g, p, q := a, 1, 0;
    } else if a <= b {
      PowerAdd(a, b - a);
      g, p, q := CommonDivisor(a, b - a);
      Distribute(p, q, g);
      q := p + q;
    } else {
      PowerAdd(b, a - b);
      g, p, q := CommonDivisor(a - b, b);
      Distribute(p, q, g);
      p := p + q;
    }
  }

  // ---------- The divisors of the period ----------

  lemma {:induction false} DivisorsTo46(g: int, c: int)
    requires 1 <= g <= 46
    ensures g * c == PERIOD ==> g == 1 || g == 7 || g == 31 || g == 151
  {
    match g
    case 1 => case 2 => case 3 => case 4 => case 5 => case 6 => case 7 => case 8 => case 9 => case 10 =>
    case 11 => case 12 => case 13 => case 14 => case 15 => case 16 => case 17 => case 18 => case 19 => case 20 =>
    case 21 => case 22 => case 23 => case 24 => case 25 => case 26 => case 27 => case 28 => case 29 => case 30 =>
    case 31 => case 32 => case 33 => case 34 => case 35 => case 36 => case 37 => case 38 => case 39 => case 40 =>
    case 41 => case 42 => case 43 => case 44 => case 45 => case 46 =>
  }

  lemma {:induction false} DivisorsTo92(g: int, c: int)
    requires 47 <= g <= 92
    ensures g * c == PERIOD ==> g == 1 || g == 7 || g == 31 || g == 151
  {
    match g
    case 47 => case 48 => case 49 => case 50 => case 51 => case 52 => case 53 => case 54 => case 55 => case 56 =>
    case 57 => case 58 => case 59 => case 60 => case 61 => case 62 => case 63 => case 64 => case 65 => case 66 =>
    case 67 => case 68 => case 69 => case 70 => case 71 => case 72 => case 73 => case 74 => case 75 => case 76 =>
    case 77 => case 78 => case 79 => case 80 => case 81 => case 82 => case 83 => case 84 => case 85 => case 86 =>
    case 87 => case 88 => case 89 => case 90 => case 91 => case 92 =>
  }

  lemma {:induction false} DivisorsTo138(g: int, c: int)
    requires 93 <= g <= 138
    ensures g * c == PERIOD ==> g == 1 || g == 7 || g == 31 || g == 151
  {
    match g
    case 93 => case 94 => case 95 => case 96 => case 97 => case 98 => case 99 => case 100 => case 101 => case 102 =>
    case 103 => case 104 => case 105 => case 106 => case 107 => case 108 => case 109 => case 110 => case 111 => case 112 =>
    case 113 => case 114 => case 115 => case 116 => case 117 => case 118 => case 119 => case 120 => case 121 => case 122 =>
    case 123 => case 124 => case 125 => case 126 => case 127 => case 128 => case 129 => case 130 => case 131 => case 132 =>
    case 133 => case 134 => case 135 => case 136 => case 137 => case 138 =>
  }

  lemma {:induction false} DivisorsTo181(g: int, c: int)
    requires 139 <= g <= 181
    ensures g * c == PERIOD ==> g == 1 || g == 7 || g == 31 || g == 151
  {
    match g
    case 139 => case 140 => case 141 => case 142 => case 143 => case 144 => case 145 => case 146 => case 147 => case 148 =>
    case 149 => case 150 => case 151 => case 152 => case 153 => case 154 => case 155 => case 156 => case 157 => case 158 =>
    case 159 => case 160 => case 161 => case 162 => case 163 => case 164 => case 165 => case 166 => case 167 => case 168 =>
    case 169 => case 170 => case 171 => case 172 => case 173 => case 174 => case 175 => case 176 => case 177 => case 178 =>
    case 179 => case 180 => case 181 =>
  }

  lemma {:induction false} SmallDivisors(g: nat, c: nat)
    requires 1 <= g <= 181 && g * c == PERIOD
    ensures g == 1 || g == 7 || g == 31 || g == 151
  {
    if g <= 46 {
      DivisorsTo46(g, c);
    } else if g <= 92 {
      DivisorsTo92(g, c);
    } else if g <= 138 {
      DivisorsTo138(g, c);
    } else {
      DivisorsTo181(g, c);
    }
  }

  lemma {:induction false} ProductAtLeast(g: nat, c: nat)
    requires g >= 182 && c >= 182
    ensures g * c >= 33124
  {
    assert g * c >= 182 * c;
  }

  /** The proper divisors of the period are 1, 7, 31, 151, 217, 1057 and 4681. */
  lemma {:induction false} ProperDivisors(g: nat, c: nat)
    requires g * c == PERIOD && g < PERIOD
    ensures g == 1 || g == 7 || g == 31 || g == 151 || g == 217 || g == 1057 || g == 4681
  {
    if g >= 182 && c >= 182 { ProductAtLeast(g, c); }
    if g <= 181 {
      NoZeroFactor(g, c);
      SmallDivisors(g, c);
    } else {
      NoZeroFactor(c, g);
      SmallDivisors(c, g);
    }
  }

  lemma {:induction false} NoZeroFactor(g: nat, c: nat)
    requires g * c == PERIOD
    ensures g >= 1
  {
  }

  lemma {:induction false} NotOneAtDivisors(g: nat)
    requires g == 1 || g == 7 || g == 31 || g == 151 || g == 217 || g == 1057 || g == 4681
    ensures Power(g) != 1
  {
    hide Power;
    PowerOf31();
    PowerOf151();
    PowerOf217();
    PowerOf1057();
    PowerOf4681();
    if g == 7 { PowerMultiple7(); }
    if g == 1 {
      PowerNext(0);
      PowerOf0();
      StepOfOne();
    }
  }

  lemma {:induction false} PowerMultiple7()
    ensures Power(7) != 1
  {
    hide Power;
    PowerOf217();
    if Power(7) == 1 { PowerMultiple(7, 31); }
  }

  /** x^d is 1 if and only if the period divides d. */
  lemma {:induction false} OrderOfX(d: nat)
    ensures Power(d) == 1 <==> d % PERIOD == 0
  {
    hide Power;
    PeriodIs();
    var k, r := d / PERIOD, d % PERIOD;
    PowerMultiple(PERIOD, k);
    PowerAdd(k * PERIOD, r);
    if r == 0 {
      PowerOf0();
    } else if Power(r) == 1 {
      var g, p, q := CommonDivisor(r, PERIOD);
      DividesSmaller(g, p, r);
      ProperDivisors(g, q);
      NotOneAtDivisors(g);
    }
  }

  lemma {:induction false} DividesSmaller(g: nat, p: nat, r: nat)
    requires g > 0 && r == p * g && 0 < r < PERIOD
    ensures g < PERIOD
  {
    assert p >= 1;
    assert p * g >= 1 * g;
  }

  // ---------- Two wrong bits ----------

  /** The bits differ at `i` and at `j`, and nowhere else. */
  ghost predicate DifferAt(a: seq<bool>, b: seq<bool>, i: nat, j: nat)
  {
    && |a| == |b| && i < j < |a|
    && forall k :: 0 <= k < |a| ==> (a[k] != b[k] <==> k == i || k == j)
  }

  function Quiet(n: nat): (z: seq<bool>)
    ensures |z| == n
  {
    seq(n, _ => false)
  }

  lemma {:induction false} RunQuiet(c: bv16, n: nat)
    ensures Run(c, Quiet(n)) == Steps(c, n)
    decreases n
  {
    hide Step, Xor;
    if n > 0 {
      XorLaws(c, 0, 0);
      RunQuiet(Step(c), n - 1);
      assert Quiet(n)[1..] == Quiet(n - 1);
      StepsStep(c, n - 1);
    }
  }

  lemma {:induction false} RunOne(c: bv16)
    ensures Run(c, [true]) == Step(Xor(c, 0x8000))
  {
    hide Step, Xor;
    assert [true][1..] == [];
  }

  lemma {:induction false} StepsOfZero(n: nat)
    ensures Steps(0, n) == 0
  {
    if n > 0 { StepsOfZero(n - 1); }
  }

  lemma {:induction false} TopIsPower()
    ensures Power(15) == 0x8000
  {
    hide Power;
    EvenPowers();
    PowerNext(14);
    LastShift();
  }

  lemma {:induction false} LastShift()
    ensures Step(0x4000) == 0x8000
  {}

  /** The register of two set bits, `d` apart, is empty if and only if x^d is 1. */
  lemma {:induction false} TwoBits(i: nat, d: nat, rest: nat)
    requires d > 0
    ensures Run(0, Quiet(i) + [true] + Quiet(d - 1) + [true] + Quiet(rest)) == 0 <==> Power(d) == 1
  {
    hide Step, Xor, Run, Quiet, Power, Steps;
    var c := Steps(0x8000, d);
    RunConcat(0, Quiet(i) + [true] + Quiet(d - 1) + [true], Quiet(rest));
    RunConcat(0, Quiet(i) + [true] + Quiet(d - 1), [true]);
    RunConcat(0, Quiet(i) + [true], Quiet(d - 1));
    RunConcat(0, Quiet(i), [true]);
    RunQuiet(0, i);
    StepsOfZero(i);
    RunOne(0);
    XorLaws(0x8000, 0, 0);
    XorLaws(0, 0x8000, 0);
    RunQuiet(Step(0x8000), d - 1);
    StepsStep(0x8000, d - 1);
    RunOne(c);
    RunQuiet(Step(Xor(c, 0x8000)), rest);
    StepsOfZero(rest);
    StepsOfZero(1);
    if Steps(Step(Xor(c, 0x8000)), rest) == 0 {
      StepsInjective(Step(Xor(c, 0x8000)), 0, rest);
      StepKernel(Xor(c, 0x8000));
      XorZero(c, 0x8000);
    } else {
      EqualXor(c, 0x8000, rest);
    }
    TopPeriod(d);
  }

  lemma {:induction false} XorZero(a: bv16, b: bv16)
    requires Xor(a, b) == 0
    ensures a == b
  {
    hide Xor;
    XorLaws(b, b, b);
    XorCancel(a, b, b);
  }

  lemma {:induction false} EqualXor(a: bv16, b: bv16, n: nat)
    requires Steps(Step(Xor(a, b)), n) != 0
    ensures a != b
  {
    if a == b {
      XorLaws(a, a, a);
      StepsOfZero(1);
      StepsOfZero(n);
    }
  }

  lemma {:induction false} TopPeriod(d: nat)
    ensures Steps(0x8000, d) == 0x8000 <==> Power(d) == 1
  {
    hide Step;
    TopIsPower();
    StepsAdd(1, 15, d);
    StepsAdd(1, d, 15);
    if Steps(0x8000, d) == 0x8000 { StepsInjective(Power(d), 1, 15); }
  }

  lemma {:induction false} DifferenceShape(a: seq<bool>, b: seq<bool>, i: nat, j: nat)
    requires DifferAt(a, b, i, j)
    ensures XorBits(a, b) == Quiet(i) + [true] + Quiet(j - i - 1) + [true] + Quiet(|a| - j - 1)
  {}

  /** Two messages that differ in exactly two bits have the same checksum if and only if the distance of
      the bits is a multiple of 32767. */
  lemma {:induction false} TwoBitErrors(a: seq<GaloisField.Byte>, b: seq<GaloisField.Byte>, i: nat, j: nat)
    requires |a| == |b| && DifferAt(MessageBits(a), MessageBits(b), i, j)
    ensures Crc(a) == Crc(b) <==> (j - i) % PERIOD == 0
  {
    hide Run, Mirror, MessageBits, Crc, Xor, XorBits, DifferAt, Power, Quiet;
    var x, y := MessageBits(a), MessageBits(b);
    CrcIsRun(a);
    CrcIsRun(b);
    XorLaws(0, 0, 0);
    RunLinear(0, 0, x, y);
    PositionsWithin(x, y, i, j);
    DifferenceShape(x, y, i, j);
    TwoBits(i, j - i, |x| - j - 1);
    OrderOfX(j - i);
    MirrorTwice(Run(0, x));
    MirrorTwice(Run(0, y));
    XorLaws(Run(0, x), Run(0, x), 0);
    if Xor(Run(0, x), Run(0, y)) == 0 { XorZero(Run(0, x), Run(0, y)); }
  }

  lemma {:induction false} PositionsWithin(a: seq<bool>, b: seq<bool>, i: nat, j: nat)
    requires DifferAt(a, b, i, j)
    ensures |a| == |b| && i < j < |a|
  {}

  // ---------- Two wrong bits that are not noticed ----------

  function Blank(n: nat): (z: seq<GaloisField.Byte>)
    ensures |z| == n
  {
    seq(n, _ => 0)
  }

  lemma {:induction false} ByteBits()
    ensures BitsOf(0) == Quiet(8) && BitsOf(1) == [true] + Quiet(7) && BitsOf(0x80) == Quiet(7) + [true]
  {}

  lemma {:induction false} BlankBits(n: nat)
    ensures MessageBits(Blank(n)) == Quiet(8 * n)
  {
    hide BitsOf;
    if n > 0 {
      BlankBits(n - 1);
      ByteBits();
      assert Blank(n)[..n - 1] == Blank(n - 1);
    }
  }

  lemma {:induction false} OneByte(b: GaloisField.Byte)
    ensures MessageBits([b]) == BitsOf(b)
  {
    hide BitsOf;
    assert [b][..0] == [];
  }

  /** 4096 zero bytes, and the same with the first and the last bit set: the bits are 32767 apart. */
  lemma {:induction false} FarBitsCollide()
    ensures Crc(Blank(4096)) == Crc([1] + Blank(4094) + [0x80])
  {
    hide Crc, BitsOf, MessageBits;
    var far: seq<GaloisField.Byte> := [1] + Blank(4094) + [0x80];
    BlankBits(4096);
    BlankBits(4094);
    ByteBits();
    OneByte(1);
    OneByte(0x80);
    MessageBitsConcat([1] + Blank(4094), [0x80]);
    MessageBitsConcat([1], Blank(4094));
    TwoBitErrors(Blank(4096), far, 0, 32767);
  }
}
