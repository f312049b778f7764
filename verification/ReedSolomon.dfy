/** Reed-Solomon error correction codewords (section 7.5.2 of ISO/IEC 18004:2015).

    A polynomial is the sequence of its coefficients from the highest power to the lowest. */
module ReedSolomon {
  import opened GaloisField
  import opened Results

  // ---------- Polynomials ----------

  /** The value of `p` at `x`, by Horner's rule. */
  function Eval(p: seq<Byte>, x: Byte): Byte
  {
    if p == [] then 0
    else Add(Mul(Eval(p[..|p| - 1], x), x), p[|p| - 1])
  }

  function Power(x: Byte, k: nat): Byte
  {
    if k == 0 then 1 else Mul(Power(x, k - 1), x)
  }

  function Zeros(n: nat): seq<Byte> { seq(n, i => 0) }

  function Sum(p: seq<Byte>, q: seq<Byte>): (r: seq<Byte>)
    requires |p| == |q|
    ensures |r| == |p|
  {
    seq(|p|, i requires 0 <= i < |p| => Add(p[i], q[i]))
  }

  function Scale(p: seq<Byte>, c: Byte): (r: seq<Byte>)
    ensures |r| == |p|
  {
    seq(|p|, i requires 0 <= i < |p| => Mul(p[i], c))
  }

  lemma {:induction false} EvalConcat(p: seq<Byte>, q: seq<Byte>, x: Byte)
    ensures Eval(p + q, x) == Add(Mul(Eval(p, x), Power(x, |q|)), Eval(q, x))
  {
    hide Add, Mul;
    if q == [] {
      assert p + q == p;
      MulComm(Eval(p, x), 1);
      MulOneLeft(Eval(p, x));
      AddLaws(Eval(p, x), 0, 0);
    } else {
      var q' := q[..|q| - 1];
      var last := q[|q| - 1];
      assert (p + q)[..|p + q| - 1] == p + q';
      EvalConcat(p, q', x);
      var a := Mul(Eval(p, x), Power(x, |q'|));
      MulAddLeft(a, Eval(q', x), x);
      MulAssoc(Eval(p, x), Power(x, |q'|), x);
      AddLaws(Mul(a, x), Mul(Eval(q', x), x), last);
    }
  }

  lemma {:induction false} EvalSum(p: seq<Byte>, q: seq<Byte>, x: Byte)
    requires |p| == |q|
    ensures Eval(Sum(p, q), x) == Add(Eval(p, x), Eval(q, x))
  {
    hide Add, Mul;
    if p == [] {
      AddLaws(0, 0, 0);
    } else {
      var n := |p| - 1;
      assert Sum(p, q)[..n] == Sum(p[..n], q[..n]);
      EvalSum(p[..n], q[..n], x);
      var a, b := Eval(p[..n], x), Eval(q[..n], x);
      MulAddLeft(a, b, x);
      AddSwap(Mul(a, x), Mul(b, x), p[n], q[n]);
    }
  }

  lemma {:induction false} EvalScale(p: seq<Byte>, c: Byte, x: Byte)
    ensures Eval(Scale(p, c), x) == Mul(Eval(p, x), c)
  {
    hide Add, Mul;
    if p == [] {
      MulZeroLeft(c);
    } else {
      var n := |p| - 1;
      assert Scale(p, c)[..n] == Scale(p[..n], c);
      EvalScale(p[..n], c, x);
      var a := Eval(p[..n], x);
      MulAssoc(a, c, x);
      MulComm(c, x);
      MulAssoc(a, x, c);
      MulAddLeft(Mul(a, x), p[n], c);
    }
  }

  lemma {:induction false} EvalZeros(n: nat, x: Byte)
    ensures Eval(Zeros(n), x) == 0
  {
    hide Add, Mul;
    if n == 0 {
    } else {
      assert Zeros(n)[..n - 1] == Zeros(n - 1);
      EvalZeros(n - 1, x);
      MulZeroLeft(x);
      AddLaws(0, 0, 0);
    }
  }

  // ---------- The generator polynomial ----------

  /** `p` times (X - r). */
  function TimesLinear(p: seq<Byte>, r: Byte): (q: seq<Byte>)
    ensures |q| == |p| + 1
  {
    Sum([0] + Scale(p, r), p + [0])
  }

  /** (X - 2^0)(X - 2^1) ... (X - 2^(d-1)). */
  function Generator(d: nat): (g: seq<Byte>)
    ensures |g| == d + 1
  {
    if d == 0 then [1] else TimesLinear(Generator(d - 1), Pow2(d - 1))
  }

  function Coefficient(p: seq<Byte>, e: int): Byte
  {
    if 0 <= e < |p| then p[|p| - 1 - e] else 0
  }

  lemma {:induction false} TimesLinearCoefficient(p: seq<Byte>, r: Byte, e: int)
    requires 0 <= e
    ensures Coefficient(TimesLinear(p, r), e) == Add(Mul(Coefficient(p, e), r), Coefficient(p, e - 1))
  {
    hide Add, Mul;
    MulZeroLeft(r);
    AddLaws(0, 0, 0);
  }

  lemma {:induction false} GeneratorMonic(d: nat)
    ensures Generator(d)[0] == 1
  {
    hide Add, Mul, Pow2;
    if d == 0 {
    } else {
      GeneratorMonic(d - 1);
      AddLaws(0, 1, 0);
      AddLaws(1, 0, 0);
    }
  }

  /** `v` holds the coefficients of powers |v|-1 down to 0 of `p`. */
  ghost predicate LowPart(v: seq<Byte>, p: seq<Byte>)
  {
    forall j :: 0 <= j < |v| ==> v[j] == Coefficient(p, |v| - 1 - j)
  }

  lemma {:induction false} LowPartStart(v: seq<Byte>)
    requires |v| >= 1 && v == Zeros(|v| - 1) + [1]
    ensures LowPart(v, Generator(0))
  {}

  lemma {:induction false} LowPartEnd(v: seq<Byte>)
    requires LowPart(v, Generator(|v|))
    ensures [1] + v == Generator(|v|)
  {
    hide *;
    hide Generator;
    var g := Generator(|v|);
    GeneratorMonic(|v|);
    forall j | 0 <= j < |v| ensures v[j] == g[1 + j] {
      LowPartAt(v, g, j);
    }
  }

  lemma {:induction false} LowPartAt(v: seq<Byte>, p: seq<Byte>, j: nat)
    requires LowPart(v, p) && j < |v| < |p|
    ensures v[j] == p[|p| - |v| + j]
  {
    assert v[j] == Coefficient(p, |v| - 1 - j);
  }

  lemma {:induction false} FirstRoot()
    ensures Pow2(0) == 1
  {}

  lemma {:induction false} NextRoot(i: nat)
    ensures Mul(Pow2(i), 2) == Pow2(i + 1)
  {
    assert Pow2(1) == 2;
    hide Mul, Pow2;
    MulComm(Pow2(i), 2);
    Pow2Add(1, i);
  }

  /** The product of the linear factors, built in place with the leading 1 dropped. */
  method ComputeDivisor(degree: int) returns (r: Result<seq<Byte>>)
    ensures r.Err? <==> degree < 1 || degree > 255
    ensures r.Err? ==> r.error == DomainError
    ensures r.Ok? ==> [1] + r.value == Generator(degree)
  {
    hide *;
    if degree < 1 || degree > 255 {
      return Err(DomainError);
    }
    var result := InitialProduct(degree);
    var root: Byte := 1;
    var i := 0;
    FirstRoot();
    while i < degree
      invariant 0 <= i <= degree
      invariant LowPart(result[..], Generator(i))
      invariant root == Pow2(i)
    {
      MultiplyInPlace(result, root, Generator(i));
      root := Multiply(root, 2);
      NextRoot(i);
      NextGenerator(i);
      i := i + 1;
    }
    LowPartEnd(result[..]);
    r := Ok(result[..]);
  }

  lemma {:induction false} NextGenerator(i: nat)
    ensures Generator(i + 1) == TimesLinear(Generator(i), Pow2(i))
  {
    hide TimesLinear, Pow2;
  }

  /** The constant polynomial 1 in an array of `degree` coefficients. */
  method InitialProduct(degree: nat) returns (result: array<Byte>)
    requires degree >= 1
    ensures fresh(result) && result.Length == degree
    ensures LowPart(result[..], Generator(0))
  {
    result := new Byte[degree](_ => 0);
    result[result.Length - 1] := 1;
    assert result[..] == Zeros(degree - 1) + [1];
    LowPartStart(result[..]);
  }

  /** The inner loop: multiply by (X - root), keeping as many coefficients as there is room for. */
  method MultiplyInPlace(result: array<Byte>, root: Byte, ghost p: seq<Byte>)
    requires LowPart(result[..], p)
    modifies result
    ensures LowPart(result[..], TimesLinear(p, root))
  {
    hide Add, Mul, TimesLinear;
    ghost var n := result.Length;
    var j := 0;
    while j < result.Length
      invariant 0 <= j <= n
      invariant forall k :: 0 <= k < j ==> result[k] == Coefficient(TimesLinear(p, root), n - 1 - k)
      invariant forall k :: j <= k < n ==> result[k] == Coefficient(p, n - 1 - k)
    {
      TimesLinearCoefficient(p, root, n - 1 - j);
      AddLaws(Mul(result[j], root), 0, 0);
      var product := Multiply(result[j], root);
      result[j] := product;
      if j + 1 < result.Length {
        result[j] := Add(result[j], result[j + 1]);
      }
      j := j + 1;
    }
  }

  /** The product of the linear factors' values at `x`. */
  function FactorProduct(d: nat, x: Byte): Byte
  {
    if d == 0 then 1 else Mul(FactorProduct(d - 1, x), Add(x, Pow2(d - 1)))
  }

  lemma {:induction false} EvalGenerator(d: nat, x: Byte)
    ensures Eval(Generator(d), x) == FactorProduct(d, x)
  {
    hide Add, Mul, Pow2, TimesLinear;
    if d == 0 {
      EvalSnoc([], 1, x);
      assert [] + [1] == Generator(0);
      MulZeroLeft(x);
      AddLaws(0, 1, 0);
      AddLaws(1, 0, 0);
    } else {
      EvalGenerator(d - 1, x);
      EvalTimesLinear(Generator(d - 1), Pow2(d - 1), x);
      hide Eval;
    }
  }

  lemma {:induction false} DifferenceZero(x: Byte, y: Byte)
    ensures Add(x, y) == 0 <==> x == y
  {
    hide Add;
    AddLaws(x, x, 0);
    if Add(x, y) == 0 { AddCancel(x, y); }
  }

  lemma {:induction false} FactorProductZero(d: nat, x: Byte)
    ensures FactorProduct(d, x) == 0 <==> exists i :: 0 <= i < d && x == Pow2(i)
  {
    hide Add, Mul, Pow2;
    if d == 0 {
      assert FactorProduct(0, x) == 1;
    } else {
      FactorProductZero(d - 1, x);
      ProductZero(FactorProduct(d - 1, x), Add(x, Pow2(d - 1)));
      DifferenceZero(x, Pow2(d - 1));
      assert FactorProduct(d, x) == Mul(FactorProduct(d - 1, x), Add(x, Pow2(d - 1)));
      if x == Pow2(d - 1) {
        assert exists i :: 0 <= i < d && x == Pow2(i);
      } else if FactorProduct(d, x) == 0 {
        var i :| 0 <= i < d - 1 && x == Pow2(i);
        assert 0 <= i < d;
      }
    }
  }

  /** The generator vanishes at exactly the first `d` powers of 2. */
  lemma {:induction false} GeneratorRoots(d: nat, x: Byte)
    ensures Eval(Generator(d), x) == 0 <==> exists i :: 0 <= i < d && x == Pow2(i)
  {
    hide *;
    EvalGenerator(d, x);
    FactorProductZero(d, x);
  }

  lemma {:induction false} EvalTimesLinear(p: seq<Byte>, r: Byte, x: Byte)
    ensures Eval(TimesLinear(p, r), x) == Mul(Eval(p, x), Add(x, r))
  {
    var a := Eval(p, x);
    assert Eval([0] + Scale(p, r), x) == Mul(a, r) by {
      hide Add, Mul;
      EvalConcat([0], Scale(p, r), x);
      EvalScale(p, r, x);
      EvalZeros(1, x);
      assert [0] == Zeros(1);
      MulZeroLeft(Power(x, |p|));
      AddLaws(0, Mul(a, r), 0);
      AddLaws(Mul(a, r), 0, 0);
    }
    assert Eval(p + [0], x) == Mul(a, x) by {
      hide Add, Mul;
      assert (p + [0])[..|p|] == p;
      AddLaws(Mul(a, x), 0, 0);
    }
    hide Add, Mul, Eval;
    EvalSum([0] + Scale(p, r), p + [0], x);
    MulAddRight(a, x, r);
    AddLaws(Mul(a, r), Mul(a, x), 0);
  }

  lemma {:induction false} ProductZero(x: Byte, y: Byte)
    ensures Mul(x, y) == 0 <==> x == 0 || y == 0
  {
    hide Mul;
    MulZeroLeft(y);
    MulComm(x, 0);
    MulZeroLeft(x);
    if Mul(x, y) == 0 { NoZeroDivisors(x, y); }
  }

  // ---------- The remainder ----------

  function Factor(rem: seq<Byte>, b: Byte): Byte
    requires rem != []
  {
    Add(b, rem[0])
  }

  function DivisionStep(rem: seq<Byte>, b: Byte, divisor: seq<Byte>): (r: seq<Byte>)
    requires |rem| == |divisor| >= 1
    ensures |r| == |divisor|
  {
    Sum(rem[1..] + [0], Scale(divisor, Factor(rem, b)))
  }

  /** The remainder register after shifting in all of `data`. */
  function Remainder(data: seq<Byte>, divisor: seq<Byte>): (r: seq<Byte>)
    requires divisor != []
    ensures |r| == |divisor|
  {
    if data == [] then Zeros(|divisor|)
    else DivisionStep(Remainder(data[..|data| - 1], divisor), data[|data| - 1], divisor)
  }

  /** The quotient the division produces on the way. */
  ghost function Quotient(data: seq<Byte>, divisor: seq<Byte>): (q: seq<Byte>)
    requires divisor != []
    ensures |q| == |data|
  {
    if data == [] then []
    else
      var rest := data[..|data| - 1];
      Quotient(rest, divisor) + [Factor(Remainder(rest, divisor), data[|data| - 1])]
  }

  method ComputeRemainder(data: seq<Byte>, divisor: seq<Byte>) returns (result: seq<Byte>)
    requires divisor != []
    ensures result == Remainder(data, divisor)
  {
    hide Add, Mul;
    result := Zeros(|divisor|);
    for k := 0 to |data|
      invariant result == Remainder(data[..k], divisor)
    {
      var factor := Add(data[k], result[0]);
      ghost var before := result;
      result := result[1..];
      result := result + [0];
      ghost var shifted := result;
      for i := 0 to |result|
        invariant |result| == |divisor|
        invariant forall m :: 0 <= m < i ==> result[m] == Add(shifted[m], Mul(divisor[m], factor))
        invariant forall m :: i <= m < |result| ==> result[m] == shifted[m]
      {
        var product := Multiply(divisor[i], factor);
        result := result[i := Add(result[i], product)];
      }
      assert result == DivisionStep(before, data[k], divisor);
      assert data[..k + 1][..k] == data[..k];
    }
    assert data[..|data|] == data;
  }

  /** Division with remainder: data followed by the remainder is quotient times divisor,
      as functions of `x`, whatever the divisor. */
  lemma {:induction false} DivisionIdentity(data: seq<Byte>, divisor: seq<Byte>, x: Byte)
    requires divisor != []
    ensures Eval(data + Remainder(data, divisor), x)
         == Mul(Eval(Quotient(data, divisor), x), Eval([1] + divisor, x))
  {
    hide Add, Mul, Eval, DivisionStep, Factor;
    var g := Eval([1] + divisor, x);
    if data == [] {
      assert data + Remainder(data, divisor) == Zeros(|divisor|);
      EvalZeros(|divisor|, x);
      MulZeroLeft(g);
      EvalZeros(0, x);
      assert Quotient(data, divisor) == Zeros(0);
    } else {
      var n := |data| - 1;
      var rest, b := data[..n], data[n];
      var rem := Remainder(rest, divisor);
      var f := Factor(rem, b);
      var q := Quotient(rest, divisor);
      DivisionIdentity(rest, divisor, x);
      DivisionStepEval(rest, rem, b, divisor, x);
      assert data == rest + [b];
      EvalSnoc(q, f, x);
      QuotientStep(Eval(q, x), g, f, x);
    }
  }

  lemma {:induction false} QuotientStep(q: Byte, g: Byte, f: Byte, x: Byte)
    ensures Add(Mul(Mul(q, g), x), Mul(g, f)) == Mul(Add(Mul(q, x), f), g)
  {
    hide *;
    MulAddLeft(Mul(q, x), f, g);
    MulAssoc(q, x, g);
    MulComm(x, g);
    MulAssoc(q, g, x);
    MulComm(f, g);
  }

  lemma {:induction false} EvalSnoc(p: seq<Byte>, c: Byte, x: Byte)
    ensures Eval(p + [c], x) == Add(Mul(Eval(p, x), x), c)
  {
    assert (p + [c])[..|p|] == p;
    hide Add, Mul;
  }

  /** One step of the division multiplies the whole codeword by X and adds a multiple of the divisor. */
  lemma {:induction false} DivisionStepEval(rest: seq<Byte>, rem: seq<Byte>, b: Byte, divisor: seq<Byte>, x: Byte)
    requires |rem| == |divisor| >= 1
    ensures Eval(rest + [b] + DivisionStep(rem, b, divisor), x)
         == Add(Mul(Eval(rest + rem, x), x), Mul(Eval([1] + divisor, x), Factor(rem, b)))
  {
    hide Add, Mul, Factor, DivisionStep, Eval;
    var d := |divisor|;
    var a, t, e := Eval(rest, x), Eval(rem[1..], x), Eval(divisor, x);
    var p', p, f := Power(x, d - 1), Power(x, d), Factor(rem, b);
    assert p == Mul(p', x);
    hide Power;
    RegisterStepEval(rem, b, divisor, x);
    assert rem == [rem[0]] + rem[1..];
    EvalCons(rem[0], rem[1..], x);
    EvalCons(1, divisor, x);
    MulOneLeft(p);
    EvalConcat(rest, rem, x);
    EvalConcat(rest + [b], DivisionStep(rem, b, divisor), x);
    EvalSnoc(rest, b, x);
    RingIdentity(a, b, rem[0], t, e, p', x);
    FactorIs(rem, b);
  }

  lemma {:induction false} RegisterStepEval(rem: seq<Byte>, b: Byte, divisor: seq<Byte>, x: Byte)
    requires |rem| == |divisor| >= 1
    ensures Eval(DivisionStep(rem, b, divisor), x)
         == Add(Mul(Eval(rem[1..], x), x), Mul(Eval(divisor, x), Factor(rem, b)))
  {
    hide Add, Mul, Factor, Eval, Sum, Scale;
    var f := Factor(rem, b);
    EvalSum(rem[1..] + [0], Scale(divisor, f), x);
    EvalScale(divisor, f, x);
    EvalSnoc(rem[1..], 0, x);
    AddLaws(Mul(Eval(rem[1..], x), x), 0, 0);
  }

  lemma {:induction false} FactorIs(rem: seq<Byte>, b: Byte)
    requires rem != []
    ensures Factor(rem, b) == Add(b, rem[0])
  { hide Add; }

  lemma {:induction false} EvalCons(c: Byte, p: seq<Byte>, x: Byte)
    ensures Eval([c] + p, x) == Add(Mul(c, Power(x, |p|)), Eval(p, x))
  {
    hide Add, Mul;
    EvalConcat([c], p, x);
    EvalSnoc([], c, x);
    assert [] + [c] == [c];
    MulZeroLeft(x);
    AddLaws(0, c, 0);
    AddLaws(c, 0, 0);
  }

  /** With p = p' x: (a x + b) p + (t x + e (b + r)) == (a p + (r p' + t)) x + (p + e)(b + r). */
  lemma {:induction false} RingIdentity(a: Byte, b: Byte, r: Byte, t: Byte, e: Byte, p': Byte, x: Byte)
    ensures var p, f := Mul(p', x), Add(b, r);
            Add(Mul(Add(Mul(a, x), b), p), Add(Mul(t, x), Mul(e, f))) ==
            Add(Mul(Add(Mul(a, p), Add(Mul(r, p'), t)), x), Mul(Add(p, e), f))
  {
    hide *;
    var p, f := Mul(p', x), Add(b, r);
    var u, v := Mul(Mul(a, x), p), Mul(b, p);
    var w, y, z := Mul(t, x), Mul(e, f), Mul(r, p);
    MulAddLeft(Mul(a, x), b, p);
    MulAssoc(a, x, p);
    MulComm(x, p);
    MulAssoc(a, p, x);
    MulAddLeft(Mul(a, p), Add(Mul(r, p'), t), x);
    MulAddLeft(Mul(r, p'), t, x);
    MulAssoc(r, p', x);
    MulAddLeft(p, e, f);
    MulComm(p, f);
    MulAddLeft(b, r, p);
    CancelTwice(u, v, w, y, z);
  }

  lemma {:induction false} CancelTwice(u: Byte, v: Byte, w: Byte, y: Byte, z: Byte)
    ensures Add(Add(u, v), Add(w, y)) == Add(Add(u, Add(z, w)), Add(Add(v, z), y))
  {
    hide *;
    AddLaws(v, z, y);
    AddSwap(u, Add(z, w), v, Add(z, y));
    AddSwap(z, w, z, y);
    AddLaws(z, z, z);
    AddLaws(0, Add(w, y), 0);
    AddLaws(Add(w, y), 0, 0);
  }
}
