/** The checksum of the display boards: `crc16` with polynomial 0x8005, bits of each byte taken from
    the lowest up, the register reversed at the end. */
module Crc16 {
  import opened GaloisField
  import opened Codewords

  // ---------- Bit-level operations ----------

  function Xor(a: bv16, b: bv16): bv16 { a ^ b }

  /** One shift of the register. */
  function Step(c: bv16): bv16 { if c & 0x8000 != 0 then (c << 1) ^ 0x8005 else c << 1 }

  function Steps(c: bv16, n: nat): bv16 { if n == 0 then c else Step(Steps(c, n - 1)) }

  /** `(val >> i) & 1`. */
  function BitValue(b: Byte, i: nat): Byte
    requires i < 8
  {
    match i
    case 0 => b & 1
    case 1 => (b >> 1) & 1
    case 2 => (b >> 2) & 1
    case 3 => (b >> 3) & 1
    case 4 => (b >> 4) & 1
    case 5 => (b >> 5) & 1
    case 6 => (b >> 6) & 1
    case 7 => (b >> 7) & 1
  }

  function BitValue16(w: bv16, i: nat): bv16
    requires i < 16
  {
    match i
    case 0 => w & 1
    case 1 => (w >> 1) & 1
    case 2 => (w >> 2) & 1
    case 3 => (w >> 3) & 1
    case 4 => (w >> 4) & 1
    case 5 => (w >> 5) & 1
    case 6 => (w >> 6) & 1
    case 7 => (w >> 7) & 1
    case 8 => (w >> 8) & 1
    case 9 => (w >> 9) & 1
    case 10 => (w >> 10) & 1
    case 11 => (w >> 11) & 1
    case 12 => (w >> 12) & 1
    case 13 => (w >> 13) & 1
    case 14 => (w >> 14) & 1
    case 15 => (w >> 15) & 1
  }

  function Joined(r: Byte, v: Byte): Byte { (r << 1) | v }

  /** The lowest `n` bits in reverse order. */
  function Reversed(b: Byte, n: nat): Byte
    requires n <= 8
  {
    if n == 0 then 0 else Joined(Reversed(b, n - 1), BitValue(b, n - 1))
  }

  function Joined16(r: bv16, v: bv16): bv16 { (r << 1) | v }

  function Reversed16(w: bv16, n: nat): bv16
    requires n <= 16
  {
    if n == 0 then 0 else Joined16(Reversed16(w, n - 1), BitValue16(w, n - 1))
  }

  /** A byte in the upper half of a register. */
  function Upper(b: Byte): bv16 { (b as bv16) << 8 }

  // ---------- The checksum ----------

  /** The register after all bytes. */
  function Register(data: seq<Byte>): bv16
  {
    if data == [] then 0
    else Steps(Xor(Register(data[..|data| - 1]), Upper(Reversed(data[|data| - 1], 8))), 8)
  }

  function Crc(data: seq<Byte>): bv16 { Reversed16(Register(data), 16) }

  method Reverse(val: Byte) returns (res: Byte)
    ensures res == Reversed(val, 8)
  {
    hide BitValue, Joined;
    res := 0;
    for i := 0 to 8
      invariant res == Reversed(val, i)
    {
      res := Joined(res, BitValue(val, i));
    }
  }

  method Reverse16(val: bv16) returns (res: bv16)
    ensures res == Reversed16(val, 16)
  {
    hide BitValue16, Joined16;
    res := 0;
    for i := 0 to 16
      invariant res == Reversed16(val, i)
    {
      res := Joined16(res, BitValue16(val, i));
    }
  }

  method ComputeCrc(data: seq<Byte>) returns (r: bv16)
    ensures r == Crc(data)
  {
    hide Reversed, Reversed16, Upper, Step, Xor;
    var crc: bv16 := 0;
    for k := 0 to |data|
      invariant crc == Register(data[..k])
    {
      assert data[..k + 1][..k] == data[..k];
      var rev := Reverse(data[k]);
      crc := Xor(crc, Upper(rev));
      ghost var start := crc;
      for i := 0 to 8
        invariant crc == Steps(start, i)
      {
        crc := Step(crc);
      }
    }
    assert data[..|data|] == data;
    r := Reverse16(crc);
  }

  // ---------- Bit-level facts ----------

  lemma {:induction false} XorLaws(a: bv16, b: bv16, c: bv16)
    ensures Xor(Xor(a, b), c) == Xor(a, Xor(b, c)) && Xor(a, b) == Xor(b, a) && Xor(a, a) == 0 && Xor(a, 0) == a
  {
    hide Xor;
    XorAssociative(a, b, c);
    XorCommutative(a, b);
    XorSelf(a);
  }

  lemma {:induction false} XorAssociative(a: bv16, b: bv16, c: bv16)
    ensures Xor(Xor(a, b), c) == Xor(a, Xor(b, c))
  {}

  lemma {:induction false} XorCommutative(a: bv16, b: bv16)
    ensures Xor(a, b) == Xor(b, a)
  {}

  lemma {:induction false} XorSelf(a: bv16)
    ensures Xor(a, a) == 0 && Xor(a, 0) == a
  {}

  lemma {:induction false} StepXor(a: bv16, b: bv16)
    ensures Step(Xor(a, b)) == Xor(Step(a), Step(b))
  {
    TopBitCases(a);
    TopBitCases(b);
  }

  lemma {:induction false} TopBitCases(c: bv16)
    ensures c & 0x8000 == 0 || c & 0x8000 == 0x8000
  {}

  /** The step loses nothing. */
  lemma {:induction false} StepInjective(a: bv16, b: bv16)
    requires Step(a) == Step(b)
    ensures a == b
  {
    hide Step, Xor;
    StepXor(a, b);
    XorSelf(Step(a));
    StepKernel(Xor(a, b));
    XorLaws(a, b, b);
    XorSelf(b);
    XorLaws(0, b, 0);
    XorSelf(a);
  }

  /** Only the empty register steps to the empty register: the polynomial has a constant term. */
  lemma {:induction false} StepKernel(c: bv16)
    requires Step(c) == 0
    ensures c == 0
  {
    if c & 0x8000 != 0 { LowBitStays(c); } else { NothingLost(c); }
  }

  lemma {:induction false} LowBitStays(c: bv16)
    ensures (c << 1) ^ 0x8005 != 0
  {}

  lemma {:induction false} NothingLost(c: bv16)
    requires c & 0x8000 == 0 && c << 1 == 0
    ensures c == 0
  {}

  lemma {:induction false} StepShift(c: bv16)
    requires c & 1 == 0
    ensures Step(c >> 1) == c
  {}

  // ---------- Bit by bit ----------

  /** A message bit enters at the top. */
  function TopBit(bit: bool): bv16 { if bit then 0x8000 else 0 }

  /** The register after some message bits, fed one by one. */
  function Run(c: bv16, bits: seq<bool>): bv16
    decreases |bits|
  {
    if bits == [] then c else Run(Step(Xor(c, TopBit(bits[0]))), bits[1..])
  }

  /** The bits of a byte in the order they enter: the lowest first. */
  function BitsOf(b: Byte): (bits: seq<bool>)
    ensures |bits| == 8
  {
    seq(8, i requires 0 <= i < 8 => Bit(b, i))
  }

  function MessageBits(data: seq<Byte>): (bits: seq<bool>)
    ensures |bits| == 8 * |data|
  {
    if data == [] then [] else MessageBits(data[..|data| - 1]) + BitsOf(data[|data| - 1])
  }

  /** Up to 16 bits at the top of a register, the first one topmost. */
  function AtTop(bits: seq<bool>): bv16
  {
    if bits == [] then 0 else Pushed(bits[0], AtTop(bits[1..]))
  }

  function Pushed(bit: bool, x: bv16): bv16 { TopBit(bit) | (x >> 1) }

  predicate LowBitClear(x: bv16) { x & 1 == 0 }

  predicate Clear(x: bv16, n: nat)
    requires n <= 16
  {
    Apart(x, LowMask(n))
  }

  predicate Apart(x: bv16, m: bv16) { x & m == 0 }

  predicate Halved(m: bv16, half: bv16) { half == m >> 1 && m & 1 == 1 }

  /** `0xFFFF >> n`. */
  function LowMask(n: nat): bv16
    requires n <= 16
  {
    match n
    case 0 => 0xFFFF
    case 1 => 0x7FFF
    case 2 => 0x3FFF
    case 3 => 0x1FFF
    case 4 => 0x0FFF
    case 5 => 0x07FF
    case 6 => 0x03FF
    case 7 => 0x01FF
    case 8 => 0x00FF
    case 9 => 0x007F
    case 10 => 0x003F
    case 11 => 0x001F
    case 12 => 0x000F
    case 13 => 0x0007
    case 14 => 0x0003
    case 15 => 0x0001
    case 16 => 0x0000
  }

  lemma {:induction false} MaskStep(x: bv16, bit: bool, n: nat)
    requires n < 16 && Clear(x, n)
    ensures Clear(Pushed(bit, x), n + 1)
    ensures LowBitClear(x)
  {
    hide LowMask, Pushed, LowBitClear, Apart, Halved;
    MaskHalves(n);
    Lowered(bit, x, LowMask(n), LowMask(n + 1));
  }

  lemma {:induction false} MaskHalves(n: nat)
    requires n < 16
    ensures Halved(LowMask(n), LowMask(n + 1))
  {}

  lemma {:induction false} Lowered(bit: bool, x: bv16, m: bv16, half: bv16)
    requires Apart(x, m) && Halved(m, half)
    ensures Apart(Pushed(bit, x), half) && LowBitClear(x)
  {
    if bit { LoweredOne(x, m); } else { LoweredZero(x, m); }
  }

  lemma {:induction false} LoweredOne(x: bv16, m: bv16)
    requires x & m == 0 && m & 1 == 1
    ensures (0x8000 | (x >> 1)) & (m >> 1) == 0 && x & 1 == 0
  {}

  lemma {:induction false} LoweredZero(x: bv16, m: bv16)
    requires x & m == 0 && m & 1 == 1
    ensures (0 | (x >> 1)) & (m >> 1) == 0 && x & 1 == 0
  {}

  /** Below the bits the register is empty. */
  lemma {:induction false} AtTopLow(bits: seq<bool>)
    requires |bits| <= 16
    ensures Clear(AtTop(bits), |bits|)
    ensures |bits| < 16 ==> LowBitClear(AtTop(bits))
  {
    hide Clear, LowBitClear, Pushed;
    if bits == [] {
      EmptyLow();
    } else {
      AtTopLow(bits[1..]);
      MaskStep(AtTop(bits[1..]), bits[0], |bits| - 1);
    }
    if |bits| < 16 { MaskStep(AtTop(bits), false, |bits|); }
  }

  lemma {:induction false} EmptyLow()
    ensures Clear(0, 0)
  {}

  lemma {:induction false} TopAndRest(bit: bool, x: bv16, other: bool, y: bv16)
    requires LowBitClear(x) && LowBitClear(y) && Pushed(bit, x) == Pushed(other, y)
    ensures bit == other && x == y
  {}

  /** Different bits give different registers. */
  lemma {:induction false} AtTopInjective(a: seq<bool>, b: seq<bool>)
    requires |a| == |b| <= 16 && AtTop(a) == AtTop(b)
    ensures a == b
  {
    hide Pushed, LowBitClear;
    if a == [] {
    } else {
      AtTopLow(a[1..]);
      AtTopLow(b[1..]);
      TopAndRest(a[0], AtTop(a[1..]), b[0], AtTop(b[1..]));
      AtTopInjective(a[1..], b[1..]);
      assert a == [a[0]] + a[1..] && b == [b[0]] + b[1..];
    }
  }

  lemma {:induction false} StepsStep(c: bv16, n: nat)
    ensures Steps(Step(c), n) == Steps(c, n + 1)
  {
    hide Step;
    if n > 0 { StepsStep(c, n - 1); }
  }

  lemma {:induction false} StepsInjective(a: bv16, b: bv16, n: nat)
    requires Steps(a, n) == Steps(b, n)
    ensures a == b
  {
    hide Step;
    if n > 0 {
      StepInjective(Steps(a, n - 1), Steps(b, n - 1));
      StepsInjective(a, b, n - 1);
    }
  }

  lemma {:induction false} FeedTop(c: bv16, bit: bool, x: bv16)
    requires LowBitClear(x)
    ensures Step(Xor(c, Pushed(bit, x))) == Xor(Step(Xor(c, TopBit(bit))), x)
  {
    hide Step, Xor, Pushed, TopBit;
    StepXor(Xor(c, TopBit(bit)), x >> 1);
    StepShift(x);
    JoinTop(c, bit, x);
  }

  lemma {:induction false} JoinTop(c: bv16, bit: bool, x: bv16)
    ensures Xor(c, Pushed(bit, x)) == Xor(Xor(c, TopBit(bit)), x >> 1)
  {
    hide Xor, Pushed, TopBit;
    if bit { JoinOne(c, x); } else { JoinZero(c, x); }
  }

  lemma {:induction false} JoinOne(c: bv16, x: bv16)
    ensures Xor(c, Pushed(true, x)) == Xor(Xor(c, TopBit(true)), x >> 1)
  {}

  lemma {:induction false} JoinZero(c: bv16, x: bv16)
    ensures Xor(c, Pushed(false, x)) == Xor(Xor(c, TopBit(false)), x >> 1)
  {
    hide Xor;
    OrZero(x >> 1);
    XorLaws(c, 0, 0);
  }

  lemma {:induction false} OrZero(x: bv16)
    ensures 0 | x == x
  {}

  /** Feeding up to 16 bits one by one is the same as adding them at the top and then shifting. */
  lemma {:induction false} RunIsSteps(c: bv16, bits: seq<bool>)
    requires |bits| <= 16
    ensures Run(c, bits) == Steps(Xor(c, AtTop(bits)), |bits|)
    decreases |bits|
  {
    hide Step, Xor, TopBit, Pushed, LowBitClear;
    if bits == [] {
      XorLaws(c, 0, 0);
    } else {
      var bit, rest := bits[0], bits[1..];
      RunIsSteps(Step(Xor(c, TopBit(bit))), rest);
      AtTopLow(rest);
      FeedTop(c, bit, AtTop(rest));
      StepsStep(Xor(c, AtTop(bits)), |rest|);
    }
  }

  lemma {:induction false} RunConcat(c: bv16, a: seq<bool>, b: seq<bool>)
    ensures Run(c, a + b) == Run(Run(c, a), b)
    decreases |a|
  {
    hide Step, Xor, TopBit;
    if a == [] {
      assert a + b == b;
    } else {
      RunConcat(Step(Xor(c, TopBit(a[0]))), a[1..], b);
      assert (a + b)[1..] == a[1..] + b;
    }
  }

  // ---------- A byte at a time ----------

  function PushedValue(v: Byte, x: bv16): bv16 { ((v as bv16) << 15) | (x >> 1) }

  lemma {:induction false} PushedIs(b: Byte, i: nat, x: bv16)
    requires i < 8
    ensures Pushed(Bit(b, i), x) == PushedValue(BitValue(b, i), x)
  {
    hide ShiftRight;
    BitValueIs(b, i);
    hide BitValue;
    LowBitCases(ShiftRight(b, i));
    PushedValueIs(x);
  }

  lemma {:induction false} BitValueIs(b: Byte, i: nat)
    requires i < 8
    ensures BitValue(b, i) == ShiftRight(b, i) & 1
  {}

  lemma {:induction false} PushedValueIs(x: bv16)
    ensures Pushed(true, x) == PushedValue(1, x) && Pushed(false, x) == PushedValue(0, x)
  {}

  lemma {:induction false} AtTopEight(bits: seq<bool>)
    requires |bits| == 8
    ensures AtTop(bits) == Pushed(bits[0], Pushed(bits[1], Pushed(bits[2], Pushed(bits[3], Pushed(bits[4], Pushed(bits[5], Pushed(bits[6], Pushed(bits[7], 0))))))))
  {
    hide Pushed, AtTop;
    assert bits == bits[0..];
    AtTopFrom(bits, 0);
    AtTopFrom(bits, 1);
    AtTopFrom(bits, 2);
    AtTopFrom(bits, 3);
    AtTopFrom(bits, 4);
    AtTopFrom(bits, 5);
    AtTopFrom(bits, 6);
    AtTopFrom(bits, 7);
    AtTopFrom(bits, 8);
  }

  lemma {:induction false} AtTopFrom(bits: seq<bool>, i: nat)
    requires i <= |bits|
    ensures AtTop(bits[i..]) == if i < |bits| then Pushed(bits[i], AtTop(bits[i + 1..])) else 0
  {
    hide Pushed;
    if i < |bits| { assert bits[i..][1..] == bits[i + 1..]; }
  }

  /** The byte's bits at the top of the register: the lowest bit topmost. */
  function Spread(b: Byte): bv16
  {
    var p4 := PushedValue(BitValue(b, 4), PushedValue(BitValue(b, 5), PushedValue(BitValue(b, 6), PushedValue(BitValue(b, 7), 0))));
    PushedValue(BitValue(b, 0), PushedValue(BitValue(b, 1), PushedValue(BitValue(b, 2), PushedValue(BitValue(b, 3), p4))))
  }

  function Folded(b: Byte): Byte
  {
    var j4 := Joined(Joined(Joined(Joined(0, BitValue(b, 0)), BitValue(b, 1)), BitValue(b, 2)), BitValue(b, 3));
    Joined(Joined(Joined(Joined(j4, BitValue(b, 4)), BitValue(b, 5)), BitValue(b, 6)), BitValue(b, 7))
  }

  lemma {:induction false} ReversedIsFolded(b: Byte)
    ensures Reversed(b, 8) == Folded(b)
  {
    hide BitValue, Joined;
    assert Reversed(b, 1) == Joined(Reversed(b, 0), BitValue(b, 0));
    assert Reversed(b, 2) == Joined(Reversed(b, 1), BitValue(b, 1));
    assert Reversed(b, 3) == Joined(Reversed(b, 2), BitValue(b, 2));
    assert Reversed(b, 4) == Joined(Reversed(b, 3), BitValue(b, 3));
    assert Reversed(b, 5) == Joined(Reversed(b, 4), BitValue(b, 4));
    assert Reversed(b, 6) == Joined(Reversed(b, 5), BitValue(b, 5));
    assert Reversed(b, 7) == Joined(Reversed(b, 6), BitValue(b, 6));
    assert Reversed(b, 8) == Joined(Reversed(b, 7), BitValue(b, 7));
  }

  lemma {:induction false} FoldedBit(b: Byte, i: nat)
    requires i < 8
    ensures BitValue(Folded(b), i) == BitValue(b, 7 - i)
  {
    match i
    case 0 => case 1 => case 2 => case 3 => case 4 => case 5 => case 6 => case 7 =>
  }

  /** Reversal takes bit `i` to bit 7 - `i`. */
  lemma {:induction false} ReversedBit(b: Byte, i: nat)
    requires i < 8
    ensures BitValue(Reversed(b, 8), i) == BitValue(b, 7 - i)
  {
    hide BitValue, Folded, Reversed;
    ReversedIsFolded(b);
    FoldedBit(b, i);
  }

  lemma {:induction false} SpreadIsFolded(b: Byte)
    ensures Spread(b) == Upper(Folded(b))
  {}

  lemma {:induction false} ByteAtTop(b: Byte)
    ensures AtTop(BitsOf(b)) == Upper(Reversed(b, 8))
  {
    hide Pushed, PushedValue, BitValue, Bit, Upper, Reversed, Folded;
    AtTopEight(BitsOf(b));
    var p7 := PushedValue(BitValue(b, 7), 0);
    PushedIs(b, 7, 0);
    var p6 := PushedValue(BitValue(b, 6), p7);
    PushedIs(b, 6, p7);
    var p5 := PushedValue(BitValue(b, 5), p6);
    PushedIs(b, 5, p6);
    var p4 := PushedValue(BitValue(b, 4), p5);
    PushedIs(b, 4, p5);
    var p3 := PushedValue(BitValue(b, 3), p4);
    PushedIs(b, 3, p4);
    var p2 := PushedValue(BitValue(b, 2), p3);
    PushedIs(b, 2, p3);
    var p1 := PushedValue(BitValue(b, 1), p2);
    PushedIs(b, 1, p2);
    PushedIs(b, 0, p1);
    SpreadIsFolded(b);
    ReversedIsFolded(b);
  }

  /** The register holds the message fed bit by bit. */
  lemma {:induction false} RegisterIsRun(data: seq<Byte>)
    ensures Register(data) == Run(0, MessageBits(data))
  {
    hide Xor, Upper, Reversed, AtTop, Step, BitsOf, Steps;
    if data == [] {
    } else {
      var front, b := data[..|data| - 1], data[|data| - 1];
      RegisterIsRun(front);
      RunConcat(0, MessageBits(front), BitsOf(b));
      RunIsSteps(Register(front), BitsOf(b));
      ByteAtTop(b);
    }
  }

  // ---------- Linearity ----------

  function XorBits(a: seq<bool>, b: seq<bool>): (c: seq<bool>)
    requires |a| == |b|
    ensures |c| == |a|
  {
    seq(|a|, i requires 0 <= i < |a| => a[i] != b[i])
  }

  function XorBytes(a: seq<Byte>, b: seq<Byte>): (c: seq<Byte>)
    requires |a| == |b|
    ensures |c| == |a|
  {
    seq(|a|, i requires 0 <= i < |a| => Add(a[i], b[i]))
  }

  lemma {:induction false} XorSwap(a: bv16, b: bv16, c: bv16, d: bv16)
    ensures Xor(Xor(a, b), Xor(c, d)) == Xor(Xor(a, c), Xor(b, d))
  {
    XorLaws(a, b, Xor(c, d));
    XorLaws(b, c, d);
    XorLaws(c, b, d);
    XorLaws(a, c, Xor(b, d));
    hide Xor;
  }

  lemma {:induction false} TopBitXor(a: bool, b: bool)
    ensures TopBit(a != b) == Xor(TopBit(a), TopBit(b))
  {}

  lemma {:induction false} RunLinear(c: bv16, d: bv16, a: seq<bool>, b: seq<bool>)
    requires |a| == |b|
    ensures Run(Xor(c, d), XorBits(a, b)) == Xor(Run(c, a), Run(d, b))
    decreases |a|
  {
    hide Xor, Step, TopBit;
    if a == [] {
    } else {
      TopBitXor(a[0], b[0]);
      XorSwap(c, d, TopBit(a[0]), TopBit(b[0]));
      StepXor(Xor(c, TopBit(a[0])), Xor(d, TopBit(b[0])));
      RunLinear(Step(Xor(c, TopBit(a[0]))), Step(Xor(d, TopBit(b[0]))), a[1..], b[1..]);
      assert XorBits(a, b)[1..] == XorBits(a[1..], b[1..]);
    }
  }

  lemma {:induction false} ShiftAdd(a: Byte, b: Byte, i: nat)
    requires i < 8
    ensures ShiftRight(Add(a, b), i) == Add(ShiftRight(a, i), ShiftRight(b, i))
  {
    match i
    case 0 => case 1 => case 2 => case 3 => case 4 => case 5 => case 6 => case 7 =>
  }

  predicate Odd(x: Byte) { x & 1 == 1 }

  lemma {:induction false} OddAdd(x: Byte, y: Byte)
    ensures Odd(Add(x, y)) <==> Odd(x) != Odd(y)
  {
    LowBitCases(x);
    LowBitCases(y);
  }

  lemma {:induction false} BitIsOdd(x: Byte, i: nat)
    requires i < 8
    ensures Bit(x, i) == Odd(ShiftRight(x, i))
  {
    hide ShiftRight;
  }

  lemma {:induction false} BitOfXor(a: Byte, b: Byte, i: nat)
    requires i < 8
    ensures Bit(Add(a, b), i) <==> Bit(a, i) != Bit(b, i)
  {
    hide Bit, ShiftRight, Add, Odd;
    BitIsOdd(a, i);
    BitIsOdd(b, i);
    BitIsOdd(Add(a, b), i);
    ShiftAdd(a, b, i);
    OddAdd(ShiftRight(a, i), ShiftRight(b, i));
  }

  lemma {:induction false} BitsOfXor(a: Byte, b: Byte)
    ensures BitsOf(Add(a, b)) == XorBits(BitsOf(a), BitsOf(b))
  {
    hide Bit, Add;
    forall i | 0 <= i < 8 ensures BitsOf(Add(a, b))[i] == (BitsOf(a)[i] != BitsOf(b)[i]) { BitOfXor(a, b, i); }
  }

  lemma {:induction false} XorBitsConcat(a: seq<bool>, b: seq<bool>, c: seq<bool>, d: seq<bool>)
    requires |a| == |b| && |c| == |d|
    ensures XorBits(a + c, b + d) == XorBits(a, b) + XorBits(c, d)
  {}

  lemma {:induction false} MessageBitsXor(a: seq<Byte>, b: seq<Byte>)
    requires |a| == |b|
    ensures MessageBits(XorBytes(a, b)) == XorBits(MessageBits(a), MessageBits(b))
  {
    hide BitsOf, Add, XorBits;
    if a == [] {
      NoBits();
    } else {
      var n := |a| - 1;
      MessageBitsXor(a[..n], b[..n]);
      BitsOfXor(a[n], b[n]);
      XorBitsConcat(MessageBits(a[..n]), MessageBits(b[..n]), BitsOf(a[n]), BitsOf(b[n]));
      assert XorBytes(a, b)[..n] == XorBytes(a[..n], b[..n]);
    }
  }

  lemma {:induction false} NoBits()
    ensures XorBits([], []) == []
  {}

  // ---------- Reversing the register ----------

  /** The register with its bits in reverse order. */
  function Mirror(w: bv16): bv16
  {
    ((w & 0x0001) << 15) | ((w & 0x0002) << 13) | ((w & 0x0004) << 11) | ((w & 0x0008) << 9)
    | ((w & 0x0010) << 7) | ((w & 0x0020) << 5) | ((w & 0x0040) << 3) | ((w & 0x0080) << 1)
    | ((w & 0x0100) >> 1) | ((w & 0x0200) >> 3) | ((w & 0x0400) >> 5) | ((w & 0x0800) >> 7)
    | ((w & 0x1000) >> 9) | ((w & 0x2000) >> 11) | ((w & 0x4000) >> 13) | ((w & 0x8000) >> 15)
  }

  lemma {:induction false} MirrorXor(a: bv16, b: bv16)
    ensures Mirror(Xor(a, b)) == Xor(Mirror(a), Mirror(b))
  {}

  lemma {:induction false} MirrorTwice(a: bv16)
    ensures Mirror(Mirror(a)) == a
  {}

  function Four(r: bv16, a: bv16, b: bv16, c: bv16, d: bv16): bv16
  {
    Joined16(Joined16(Joined16(Joined16(r, a), b), c), d)
  }

  function Folded16(w: bv16): bv16
  {
    var j4 := Four(0, BitValue16(w, 0), BitValue16(w, 1), BitValue16(w, 2), BitValue16(w, 3));
    var j8 := Four(j4, BitValue16(w, 4), BitValue16(w, 5), BitValue16(w, 6), BitValue16(w, 7));
    var j12 := Four(j8, BitValue16(w, 8), BitValue16(w, 9), BitValue16(w, 10), BitValue16(w, 11));
    Four(j12, BitValue16(w, 12), BitValue16(w, 13), BitValue16(w, 14), BitValue16(w, 15))
  }

  /** The lowest four bits in reverse order. */
  function Nibble(w: bv16): bv16 { ((w & 1) << 3) | ((w & 2) << 1) | ((w >> 1) & 2) | ((w >> 3) & 1) }

  function Append4(r: bv16, x: bv16): bv16 { (r << 4) | x }

  lemma {:induction false} FirstNibble(r: bv16, w: bv16)
    ensures Four(r, BitValue16(w, 0), BitValue16(w, 1), BitValue16(w, 2), BitValue16(w, 3)) == Append4(r, Nibble(w))
  {}

  lemma {:induction false} SecondNibble(r: bv16, w: bv16)
    ensures Four(r, BitValue16(w, 4), BitValue16(w, 5), BitValue16(w, 6), BitValue16(w, 7)) == Append4(r, Nibble(w >> 4))
  {}

  lemma {:induction false} ThirdNibble(r: bv16, w: bv16)
    ensures Four(r, BitValue16(w, 8), BitValue16(w, 9), BitValue16(w, 10), BitValue16(w, 11)) == Append4(r, Nibble(w >> 8))
  {}

  lemma {:induction false} FourthNibble(r: bv16, w: bv16)
    ensures Four(r, BitValue16(w, 12), BitValue16(w, 13), BitValue16(w, 14), BitValue16(w, 15)) == Append4(r, Nibble(w >> 12))
  {}

  lemma {:induction false} NibblesAreMirror(w: bv16)
    ensures Append4(Append4(Append4(Append4(0, Nibble(w)), Nibble(w >> 4)), Nibble(w >> 8)), Nibble(w >> 12)) == Mirror(w)
  {}

  lemma {:induction false} FoldedIsMirror(w: bv16)
    ensures Folded16(w) == Mirror(w)
  {
    hide Four, BitValue16, Nibble, Append4, Mirror;
    var n1 := Append4(0, Nibble(w));
    var n2 := Append4(n1, Nibble(w >> 4));
    var n3 := Append4(n2, Nibble(w >> 8));
    FirstNibble(0, w);
    SecondNibble(n1, w);
    ThirdNibble(n2, w);
    FourthNibble(n3, w);
    NibblesAreMirror(w);
  }

  lemma {:induction false} ReversedIsMirror(w: bv16)
    ensures Reversed16(w, 16) == Mirror(w)
  {
    hide BitValue16, Joined16, Mirror;
    assert Reversed16(w, 1) == Joined16(Reversed16(w, 0), BitValue16(w, 0));
    assert Reversed16(w, 2) == Joined16(Reversed16(w, 1), BitValue16(w, 1));
    assert Reversed16(w, 3) == Joined16(Reversed16(w, 2), BitValue16(w, 2));
    assert Reversed16(w, 4) == Joined16(Reversed16(w, 3), BitValue16(w, 3));
    assert Reversed16(w, 5) == Joined16(Reversed16(w, 4), BitValue16(w, 4));
    assert Reversed16(w, 6) == Joined16(Reversed16(w, 5), BitValue16(w, 5));
    assert Reversed16(w, 7) == Joined16(Reversed16(w, 6), BitValue16(w, 6));
    assert Reversed16(w, 8) == Joined16(Reversed16(w, 7), BitValue16(w, 7));
    assert Reversed16(w, 9) == Joined16(Reversed16(w, 8), BitValue16(w, 8));
    assert Reversed16(w, 10) == Joined16(Reversed16(w, 9), BitValue16(w, 9));
    assert Reversed16(w, 11) == Joined16(Reversed16(w, 10), BitValue16(w, 10));
    assert Reversed16(w, 12) == Joined16(Reversed16(w, 11), BitValue16(w, 11));
    assert Reversed16(w, 13) == Joined16(Reversed16(w, 12), BitValue16(w, 12));
    assert Reversed16(w, 14) == Joined16(Reversed16(w, 13), BitValue16(w, 13));
    assert Reversed16(w, 15) == Joined16(Reversed16(w, 14), BitValue16(w, 14));
    assert Reversed16(w, 16) == Joined16(Reversed16(w, 15), BitValue16(w, 15));
    FoldedIsMirror(w);
  }

  /** The checksum is the mirrored register of the bits. */
  lemma {:induction false} CrcIsRun(data: seq<Byte>)
    ensures Crc(data) == Mirror(Run(0, MessageBits(data)))
  {
    hide Run, Mirror, MessageBits, Register, Reversed16;
    RegisterIsRun(data);
    ReversedIsMirror(Register(data));
  }

  /** The checksum of a byte-wise exclusive or is the exclusive or of the checksums. */
  lemma {:induction false} CrcLinear(a: seq<Byte>, b: seq<Byte>)
    requires |a| == |b|
    ensures Crc(XorBytes(a, b)) == Xor(Crc(a), Crc(b))
  {
    hide Run, Mirror, MessageBits, Crc, Xor, XorBytes, XorBits;
    CrcIsRun(a);
    CrcIsRun(b);
    CrcIsRun(XorBytes(a, b));
    MessageBitsXor(a, b);
    XorLaws(0, 0, 0);
    RunLinear(0, 0, MessageBits(a), MessageBits(b));
    MirrorXor(Run(0, MessageBits(a)), Run(0, MessageBits(b)));
  }

  // ---------- Bursts ----------

  lemma {:induction false} RunInjective(c: bv16, d: bv16, bits: seq<bool>)
    requires Run(c, bits) == Run(d, bits)
    ensures c == d
    decreases |bits|
  {
    hide Step, Xor, TopBit;
    if bits != [] {
      var t := TopBit(bits[0]);
      RunInjective(Step(Xor(c, t)), Step(Xor(d, t)), bits[1..]);
      StepInjective(Xor(c, t), Xor(d, t));
      XorCancel(c, d, t);
    }
  }

  lemma {:induction false} XorCancel(a: bv16, b: bv16, c: bv16)
    requires Xor(a, c) == Xor(b, c)
    ensures a == b
  {
    hide Xor;
    XorLaws(a, c, c);
    XorLaws(b, c, c);
    XorLaws(a, 0, 0);
    XorLaws(c, c, c);
  }

  /** Bits that differ only between positions `i` and `j`. */
  ghost predicate DifferWithin(a: seq<bool>, b: seq<bool>, i: nat, j: nat)
  {
    i <= j <= |a| == |b| && a[..i] == b[..i] && a[j..] == b[j..]
  }

  /** A burst of at most 16 bits always changes the register. */
  lemma {:induction false} BurstChangesRun(a: seq<bool>, b: seq<bool>, i: nat, j: nat)
    requires DifferWithin(a, b, i, j) && j <= i + 16 && a != b
    ensures Run(0, a) != Run(0, b)
  {
    hide Run, Xor, AtTop, Steps;
    var s := Run(0, a[..i]);
    assert a == a[..i] + (a[i..j] + a[j..]) && b == b[..i] + (b[i..j] + b[j..]);
    RunConcat(0, a[..i], a[i..j] + a[j..]);
    RunConcat(0, b[..i], b[i..j] + b[j..]);
    RunConcat(s, a[i..j], a[j..]);
    RunConcat(s, b[i..j], b[j..]);
    if Run(0, a) == Run(0, b) {
      RunInjective(Run(s, a[i..j]), Run(s, b[i..j]), a[j..]);
      RunIsSteps(s, a[i..j]);
      RunIsSteps(s, b[i..j]);
      StepsInjective(Xor(s, AtTop(a[i..j])), Xor(s, AtTop(b[i..j])), j - i);
      XorLaws(s, AtTop(a[i..j]), 0);
      XorLaws(s, AtTop(b[i..j]), 0);
      XorCancel(AtTop(a[i..j]), AtTop(b[i..j]), s);
      AtTopInjective(a[i..j], b[i..j]);
    }
  }

  /** Two messages that differ only within 16 consecutive bits, in the order the bits are sent, have
      different checksums. */
  lemma {:induction false} BurstDetected(a: seq<Byte>, b: seq<Byte>, i: nat, j: nat)
    requires |a| == |b| && a != b
    requires DifferWithin(MessageBits(a), MessageBits(b), i, j) && j <= i + 16
    ensures Crc(a) != Crc(b)
  {
    hide Run, Mirror, MessageBits, Crc, DifferWithin;
    CrcIsRun(a);
    CrcIsRun(b);
    if MessageBits(a) == MessageBits(b) { MessageBitsInjective(a, b); }
    BurstChangesRun(MessageBits(a), MessageBits(b), i, j);
    MirrorTwice(Run(0, MessageBits(a)));
    MirrorTwice(Run(0, MessageBits(b)));
  }

  lemma {:induction false} MessageBitsInjective(a: seq<Byte>, b: seq<Byte>)
    requires |a| == |b| && MessageBits(a) == MessageBits(b)
    ensures a == b
  {
    hide BitsOf;
    if a != [] {
      var n := |a| - 1;
      assert MessageBits(a)[..8 * n] == MessageBits(a[..n]) && MessageBits(a)[8 * n..] == BitsOf(a[n]);
      assert MessageBits(b)[..8 * n] == MessageBits(b[..n]) && MessageBits(b)[8 * n..] == BitsOf(b[n]);
      MessageBitsInjective(a[..n], b[..n]);
      BitsOfInjective(a[n], b[n]);
      assert a == a[..n] + [a[n]] && b == b[..n] + [b[n]];
    }
  }

  lemma {:induction false} BitsOfInjective(a: Byte, b: Byte)
    requires BitsOf(a) == BitsOf(b)
    ensures a == b
  {
    hide Bit;
    forall i | 0 <= i < 8 ensures Bit(a, i) == Bit(b, i) { assert BitsOf(a)[i] == BitsOf(b)[i]; }
    SameBits(a, b);
  }

  lemma {:induction false} MessageBitsConcat(a: seq<Byte>, b: seq<Byte>)
    ensures MessageBits(a + b) == MessageBits(a) + MessageBits(b)
  {
    hide BitsOf;
    if b == [] {
      assert a + b == a;
    } else {
      var n := |b| - 1;
      MessageBitsConcat(a, b[..n]);
      assert (a + b)[..|a| + n] == a + b[..n];
    }
  }

  /** Changing one or two adjacent bytes always changes the checksum. */
  lemma {:induction false} AdjacentBytesDetected(front: seq<Byte>, x: seq<Byte>, y: seq<Byte>, back: seq<Byte>)
    requires |x| == |y| <= 2 && x != y
    ensures Crc(front + x + back) != Crc(front + y + back)
  {
    hide MessageBits, Crc;
    var a, b := front + x + back, front + y + back;
    MessageBitsConcat(front + x, back);
    MessageBitsConcat(front, x);
    MessageBitsConcat(front + y, back);
    MessageBitsConcat(front, y);
    assert a[|front|..|front| + |x|] == x && b[|front|..|front| + |x|] == y;
    BurstDetected(a, b, 8 * |front|, 8 * (|front| + |x|));
  }

  // ---------- Parity ----------

  /** Whether the number of ones is odd. */
  predicate OddOnes(bits: seq<bool>)
  {
    bits != [] && (bits[|bits| - 1] != OddOnes(bits[..|bits| - 1]))
  }

  lemma {:induction false} OddConcat(a: seq<bool>, b: seq<bool>)
    ensures OddOnes(a + b) == (OddOnes(a) != OddOnes(b))
  {
    if b == [] {
      assert a + b == a;
    } else {
      var n := |b| - 1;
      OddConcat(a, b[..n]);
      assert (a + b)[..|a| + n] == a + b[..n];
    }
  }

  lemma {:induction false} OddXorBits(a: seq<bool>, b: seq<bool>)
    requires |a| == |b|
    ensures OddOnes(XorBits(a, b)) == (OddOnes(a) != OddOnes(b))
  {
    if a != [] {
      var n := |a| - 1;
      OddXorBits(a[..n], b[..n]);
      assert XorBits(a, b)[..n] == XorBits(a[..n], b[..n]);
    }
  }

  lemma {:induction false} OddReverse(a: seq<bool>, b: seq<bool>)
    requires |a| == |b| && forall i :: 0 <= i < |a| ==> a[i] == b[|a| - 1 - i]
    ensures OddOnes(a) == OddOnes(b)
  {
    if a != [] {
      var n := |a| - 1;
      OddReverse(a[..n], b[1..]);
      assert b == [b[0]] + b[1..];
      OddConcat([b[0]], b[1..]);
      assert OddOnes([b[0]]) == b[0] by { assert [b[0]][..0] == []; }
    }
  }

  predicate HasBit(w: bv16, i: nat)
    requires i < 16
  {
    BitValue16(w, i) == 1
  }

  /** The bits of a register from the top down. */
  function WordBits(w: bv16): (bits: seq<bool>)
    ensures |bits| == 16
  {
    seq(16, i requires 0 <= i < 16 => HasBit(w, 15 - i))
  }

  lemma {:induction false} BitValueCases(w: bv16, i: nat)
    requires i < 16
    ensures BitValue16(w, i) == 0 || BitValue16(w, i) == 1
  {
    match i
    case 0 => case 1 => case 2 => case 3 => case 4 => case 5 => case 6 => case 7 =>
    case 8 => case 9 => case 10 => case 11 => case 12 => case 13 => case 14 => case 15 =>
  }

  lemma {:induction false} BitValueXor(a: bv16, b: bv16, i: nat)
    requires i < 16
    ensures BitValue16(Xor(a, b), i) == Xor(BitValue16(a, i), BitValue16(b, i))
  {
    match i
    case 0 => case 1 => case 2 => case 3 => case 4 => case 5 => case 6 => case 7 =>
    case 8 => case 9 => case 10 => case 11 => case 12 => case 13 => case 14 => case 15 =>
  }

  lemma {:induction false} XorOfBits()
    ensures Xor(0, 0) == 0 && Xor(0, 1) == 1 && Xor(1, 0) == 1 && Xor(1, 1) == 0
  {}

  lemma {:induction false} WordBitsXor(a: bv16, b: bv16)
    ensures WordBits(Xor(a, b)) == XorBits(WordBits(a), WordBits(b))
  {
    hide BitValue16, Xor;
    XorOfBits();
    forall i | 0 <= i < 16 ensures HasBit(Xor(a, b), i) == (HasBit(a, i) != HasBit(b, i)) {
      BitValueXor(a, b, i);
      BitValueCases(a, i);
      BitValueCases(b, i);
    }
  }

  function Shifted(w: bv16): bv16 { w << 1 }

  lemma {:induction false} BitValueShift(w: bv16, i: nat)
    requires i < 15
    ensures BitValue16(Shifted(w), i + 1) == BitValue16(w, i) && BitValue16(Shifted(w), 0) == 0
  {
    match i
    case 0 => case 1 => case 2 => case 3 => case 4 => case 5 => case 6 => case 7 =>
    case 8 => case 9 => case 10 => case 11 => case 12 => case 13 => case 14 =>
  }

  lemma {:induction false} HasBitShift(w: bv16, i: nat)
    requires i < 16
    ensures HasBit(Shifted(w), i) <==> i > 0 && HasBit(w, i - 1)
  {
    hide BitValue16, Shifted;
    BitValueShift(w, if i > 0 then i - 1 else 0);
  }

  lemma {:induction false} WordBit(w: bv16, j: nat)
    requires j < 16
    ensures WordBits(w)[j] == HasBit(w, 15 - j)
  {
    hide HasBit;
  }

  lemma {:induction false} WordBitsShift(w: bv16)
    ensures WordBits(Shifted(w)) == WordBits(w)[1..] + [false]
  {
    hide HasBit, Shifted, WordBits;
    var bits, shifted := WordBits(w), WordBits(Shifted(w));
    forall j | 0 <= j < 16 ensures shifted[j] == (bits[1..] + [false])[j] {
      WordBit(Shifted(w), j);
      HasBitShift(w, 15 - j);
      if j < 15 { WordBit(w, j + 1); }
    }
  }

  lemma {:induction false} BitValueMirror(w: bv16, i: nat)
    requires i < 16
    ensures BitValue16(Mirror(w), i) == BitValue16(w, 15 - i)
  {
    match i
    case 0 => case 1 => case 2 => case 3 => case 4 => case 5 => case 6 => case 7 =>
    case 8 => case 9 => case 10 => case 11 => case 12 => case 13 => case 14 => case 15 =>
  }

  /** Reversal takes bit `i` to bit 15 - `i`. */
  lemma {:induction false} Reversed16Bit(w: bv16, i: nat)
    requires i < 16
    ensures BitValue16(Reversed16(w, 16), i) == BitValue16(w, 15 - i)
  {
    hide BitValue16, Reversed16, Mirror;
    ReversedIsMirror(w);
    BitValueMirror(w, i);
  }

  predicate OddWord(w: bv16) { OddOnes(WordBits(w)) }

  lemma {:induction false} OddMirror(w: bv16)
    ensures OddWord(Mirror(w)) == OddWord(w)
  {
    hide BitValue16, Mirror, OddOnes;
    forall i | 0 <= i < 16 ensures WordBits(w)[i] == WordBits(Mirror(w))[15 - i] { BitValueMirror(w, i); }
    OddReverse(WordBits(w), WordBits(Mirror(w)));
  }

  lemma {:induction false} OddXor(a: bv16, b: bv16)
    ensures OddWord(Xor(a, b)) == (OddWord(a) != OddWord(b))
  {
    hide Xor, OddOnes, WordBits;
    WordBitsXor(a, b);
    OddXorBits(WordBits(a), WordBits(b));
  }

  lemma {:induction false} OddShift(w: bv16)
    ensures OddWord(Shifted(w)) == (OddWord(w) != HasBit(w, 15))
  {
    hide Shifted, OddOnes, HasBit;
    WordBitsShift(w);
    var bits := WordBits(w);
    assert bits == [bits[0]] + bits[1..];
    OddConcat([bits[0]], bits[1..]);
    OddConcat(bits[1..], [false]);
    OddOne(bits[0]);
    OddOne(false);
  }

  lemma {:induction false} OddOne(b: bool)
    ensures OddOnes([b]) == b
  {
    assert [b][..0] == [];
  }

  lemma {:induction false} OddNone(bits: seq<bool>)
    requires forall i :: 0 <= i < |bits| ==> !bits[i]
    ensures !OddOnes(bits)
  {
    if bits != [] { OddNone(bits[..|bits| - 1]); }
  }

  lemma {:induction false} SingleBits(i: nat)
    requires i < 16
    ensures BitValue16(0, i) == 0
    ensures BitValue16(0x8000, i) == if i == 15 then 1 else 0
    ensures BitValue16(1, i) == if i == 0 then 1 else 0
  {}

  lemma {:induction false} OddSingles()
    ensures !OddWord(0) && OddWord(0x8000) && OddWord(1)
  {
    hide BitValue16;
    forall i | 0 <= i < 16
      ensures !WordBits(0)[i] && WordBits(0x8000)[i] == (i == 0) && WordBits(1)[i] == (i == 15)
    {
      SingleBits(15 - i);
    }
    OddNone(WordBits(0));
    var top, low := WordBits(0x8000), WordBits(1);
    assert top == [true] + top[1..] && low == low[..15] + [true];
    OddNone(top[1..]);
    OddNone(low[..15]);
    OddOne(true);
    OddConcat([true], top[1..]);
    OddConcat(low[..15], [true]);
  }

  lemma {:induction false} PolynomialParts()
    ensures 0x8005 == Xor(Xor(0x8000, Shifted(Shifted(1))), 1)
    ensures !HasBit(1, 15) && !HasBit(Shifted(1), 15)
  {}

  lemma {:induction false} OddPolynomial()
    ensures OddWord(0x8005)
  {
    hide Xor, Shifted, HasBit, OddWord;
    PolynomialParts();
    OddSingles();
    OddShift(1);
    OddShift(Shifted(1));
    OddXor(0x8000, Shifted(Shifted(1)));
    OddXor(Xor(0x8000, Shifted(Shifted(1))), 1);
  }

  lemma {:induction false} StepCases(c: bv16)
    ensures Step(c) == if HasBit(c, 15) then Xor(Shifted(c), 0x8005) else Shifted(c)
  {
    if c & 0x8000 != 0 { TopSet(c); } else { TopClear(c); }
  }

  lemma {:induction false} TopSet(c: bv16)
    requires c & 0x8000 != 0
    ensures (c >> 15) & 1 == 1
  {}

  lemma {:induction false} TopClear(c: bv16)
    requires c & 0x8000 == 0
    ensures (c >> 15) & 1 == 0
  {}

  /** The polynomial has an even number of terms, so a shift keeps the parity. */
  lemma {:induction false} OddStep(c: bv16)
    ensures OddWord(Step(c)) == OddWord(c)
  {
    hide Xor, Shifted, HasBit, OddWord, Step;
    StepCases(c);
    OddShift(c);
    OddPolynomial();
    OddXor(Shifted(c), 0x8005);
  }

  lemma {:induction false} OddRun(c: bv16, bits: seq<bool>)
    ensures OddWord(Run(c, bits)) == (OddWord(c) != OddOnes(bits))
    decreases |bits|
  {
    hide Xor, Step, TopBit, OddWord, OddOnes;
    if bits == [] {
      OddNone(bits);
    } else {
      var t := TopBit(bits[0]);
      OddRun(Step(Xor(c, t)), bits[1..]);
      OddStep(Xor(c, t));
      OddXor(c, t);
      OddTop(bits[0]);
      assert bits == [bits[0]] + bits[1..];
      OddConcat([bits[0]], bits[1..]);
      OddOne(bits[0]);
    }
  }

  lemma {:induction false} OddTop(bit: bool)
    ensures OddWord(TopBit(bit)) == bit
  {
    hide OddWord;
    OddSingles();
  }

  /** The checksum has the parity of the message. */
  lemma {:induction false} CrcParity(data: seq<Byte>)
    ensures OddWord(Crc(data)) == OddOnes(MessageBits(data))
  {
    hide OddWord, OddOnes, Crc, Run, Mirror, MessageBits;
    CrcIsRun(data);
    OddMirror(Run(0, MessageBits(data)));
    OddRun(0, MessageBits(data));
    OddSingles();
  }

  /** Messages that differ in an odd number of bits have different checksums. */
  lemma {:induction false} OddErrorsDetected(a: seq<Byte>, b: seq<Byte>)
    requires |a| == |b| && OddOnes(XorBits(MessageBits(a), MessageBits(b)))
    ensures Crc(a) != Crc(b)
  {
    hide OddWord, OddOnes, Crc, MessageBits, XorBits;
    CrcParity(a);
    CrcParity(b);
    OddXorBits(MessageBits(a), MessageBits(b));
  }

  // ---------- The checksum after the message ----------

  function High(w: bv16): Byte { ((w >> 8) & 0xFF) as Byte }

  function Low(w: bv16): Byte { (w & 0xFF) as Byte }

  function WithCrc(data: seq<Byte>): seq<Byte> { data + [High(Crc(data)), Low(Crc(data))] }

  lemma {:induction false} HighBit(w: bv16, k: nat)
    requires k < 8
    ensures BitValue(High(w), k) as bv16 == BitValue16(w, k + 8)
  {
    match k
    case 0 => case 1 => case 2 => case 3 => case 4 => case 5 => case 6 => case 7 =>
  }

  lemma {:induction false} LowBit(w: bv16, k: nat)
    requires k < 8
    ensures BitValue(Low(w), k) as bv16 == BitValue16(w, k)
  {
    match k
    case 0 => case 1 => case 2 => case 3 => case 4 => case 5 => case 6 => case 7 =>
  }

  lemma {:induction false} BitIsValue(b: Byte, i: nat)
    requires i < 8
    ensures Bit(b, i) <==> BitValue(b, i) == 1
  {
    BitValueIs(b, i);
    hide BitValue, ShiftRight;
  }

  lemma {:induction false} OneWidens(v: Byte)
    ensures v == 1 <==> v as bv16 == 1
  {}

  /** The two checksum bytes carry the bits of the checksum. */
  lemma {:induction false} HighLowBits(w: bv16)
    ensures OddOnes(BitsOf(High(w)) + BitsOf(Low(w))) == OddWord(w)
  {
    hide BitValue, BitValue16, High, Low, Bit, OddOnes;
    forall k | 0 <= k < 8 ensures BitsOf(High(w))[k] == WordBits(w)[7 - k] {
      HighBit(w, k);
      BitIsValue(High(w), k);
      OneWidens(BitValue(High(w), k));
    }
    forall k | 0 <= k < 8 ensures BitsOf(Low(w))[k] == WordBits(w)[15 - k] {
      LowBit(w, k);
      BitIsValue(Low(w), k);
      OneWidens(BitValue(Low(w), k));
    }
    hide BitsOf, WordBits;
    var bits := WordBits(w);
    assert bits == bits[..8] + bits[8..];
    OddReverse(BitsOf(High(w)), bits[..8]);
    OddReverse(BitsOf(Low(w)), bits[8..]);
    OddConcat(bits[..8], bits[8..]);
    OddConcat(BitsOf(High(w)), BitsOf(Low(w)));
  }

  /** A message followed by its checksum has an even number of ones. */
  lemma {:induction false} WithCrcIsEven(data: seq<Byte>)
    ensures !OddOnes(MessageBits(WithCrc(data)))
  {
    hide OddOnes, OddWord, Crc, High, Low, BitsOf;
    var w := Crc(data);
    CrcParity(data);
    HighLowBits(w);
    MessageBitsConcat(data, [High(w), Low(w)]);
    TwoBytes(High(w), Low(w));
    OddConcat(MessageBits(data), BitsOf(High(w)) + BitsOf(Low(w)));
  }

  lemma {:induction false} TwoBytes(x: Byte, y: Byte)
    ensures MessageBits([x, y]) == BitsOf(x) + BitsOf(y)
  {
    hide BitsOf;
    assert [x, y][..1] == [x] && [x][..0] == [];
    assert MessageBits([x]) == MessageBits([]) + BitsOf(x);
  }

  /** No odd number of wrong bits, in the message or in the checksum, turns one message with its
      checksum into another. */
  lemma {:induction false} OddErrorsNeverValid(data: seq<Byte>, other: seq<Byte>)
    requires |data| == |other|
    ensures !OddOnes(XorBits(MessageBits(WithCrc(data)), MessageBits(WithCrc(other))))
  {
    hide OddOnes, MessageBits, High, Low, XorBits, Crc;
    WithCrcIsEven(data);
    WithCrcIsEven(other);
    OddXorBits(MessageBits(WithCrc(data)), MessageBits(WithCrc(other)));
  }

  // ---------- The right-shifting form ----------

  function ArcStep(c: bv16): bv16 { if c & 1 != 0 then (c >> 1) ^ 0xA001 else c >> 1 }

  function ArcSteps(c: bv16, n: nat): bv16 { if n == 0 then c else ArcStep(ArcSteps(c, n - 1)) }

  /** CRC-16/ARC: polynomial 0xA001, bytes added at the low end, shifts to the right, no reversal. */
  function Arc(data: seq<Byte>): bv16
  {
    if data == [] then 0 else ArcSteps(Xor(Arc(data[..|data| - 1]), data[|data| - 1] as bv16), 8)
  }

  lemma {:induction false} MirrorShift(c: bv16)
    ensures Mirror(Shifted(c)) == HalfOf(Mirror(c))
  {
    hide Mirror, Shifted, HalfOf, SameByte;
    MirrorShiftLow(c);
    MirrorShiftHigh(c);
    SameHalves(Mirror(Shifted(c)), HalfOf(Mirror(c)));
  }

  function HalfOf(w: bv16): bv16 { w >> 1 }

  predicate SameByte(x: bv16, y: bv16, m: bv16) { x & m == y & m }

  lemma {:induction false} MirrorShiftLow(c: bv16)
    ensures SameByte(Mirror(Shifted(c)), HalfOf(Mirror(c)), 0x00FF)
  {}

  lemma {:induction false} MirrorShiftHigh(c: bv16)
    ensures SameByte(Mirror(Shifted(c)), HalfOf(Mirror(c)), 0xFF00)
  {}

  lemma {:induction false} SameHalves(x: bv16, y: bv16)
    requires SameByte(x, y, 0x00FF) && SameByte(x, y, 0xFF00)
    ensures x == y
  {}

  lemma {:induction false} MirrorTop(c: bv16)
    ensures c & 0x8000 != 0 <==> Mirror(c) & 1 != 0
    ensures Mirror(0x8005) == 0xA001 && Mirror(0) == 0
  {}

  lemma {:induction false} MirrorStep(c: bv16)
    ensures Mirror(Step(c)) == ArcStep(Mirror(c))
  {
    hide Mirror;
    MirrorTop(c);
    MirrorShift(c);
    MirrorXor(Shifted(c), 0x8005);
  }

  lemma {:induction false} MirrorSteps(c: bv16, n: nat)
    ensures Mirror(Steps(c, n)) == ArcSteps(Mirror(c), n)
  {
    hide Mirror, Step, ArcStep;
    if n > 0 {
      MirrorSteps(c, n - 1);
      MirrorStep(Steps(c, n - 1));
    }
  }

  lemma {:induction false} MirrorFolded(b: Byte)
    ensures Mirror(Upper(Folded(b))) == b as bv16
  {}

  lemma {:induction false} RegisterIsArc(data: seq<Byte>)
    ensures Mirror(Register(data)) == Arc(data)
  {
    hide Mirror, Steps, ArcSteps, Xor, Upper, Reversed, Folded;
    if data == [] {
      MirrorTop(0);
    } else {
      var front, b := data[..|data| - 1], data[|data| - 1];
      RegisterIsArc(front);
      MirrorSteps(Xor(Register(front), Upper(Reversed(b, 8))), 8);
      MirrorXor(Register(front), Upper(Reversed(b, 8)));
      ReversedIsFolded(b);
      MirrorFolded(b);
    }
  }

  /** The loop with its reversals computes CRC-16/ARC. */
  lemma {:induction false} CrcIsArc(data: seq<Byte>)
    ensures Crc(data) == Arc(data)
  {
    hide Mirror, Register, Arc, Reversed16;
    ReversedIsMirror(Register(data));
    RegisterIsArc(data);
  }
}
