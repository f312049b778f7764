/** What the Reed-Solomon check bytes are for: two codewords of at most 255 bytes with `d` check
    bytes differ in more than `d` places. */
module CodeDistance {
  import opened GaloisField
  import opened ReedSolomon

  /** `c` vanishes at the first `d` powers of 2. */
  ghost predicate IsCodeword(c: seq<Byte>, d: nat)
  {
    forall i :: 0 <= i < d ==> Eval(c, Pow2(i)) == 0
  }

  function Weight(c: seq<Byte>): (w: nat)
  {
    if c == [] then 0
    else Weight(c[..|c| - 1]) + (if c[|c| - 1] != 0 then 1 else 0)
  }

  /** The number of places in which `a` and `b` differ. */
  function Distance(a: seq<Byte>, b: seq<Byte>): nat
    requires |a| == |b|
  {
    if a == [] then 0
    else Distance(a[..|a| - 1], b[..|b| - 1]) + (if a[|a| - 1] != b[|b| - 1] then 1 else 0)
  }

  /** Entry j multiplied by 2^(n-1-j). */
  function Twist(c: seq<Byte>): (t: seq<Byte>)
    ensures |t| == |c|
  {
    if c == [] then [] else Scale(Twist(c[..|c| - 1]), 2) + [c[|c| - 1]]
  }

  lemma {:induction false} TwistAt(c: seq<Byte>, j: nat)
    requires j < |c|
    ensures Twist(c)[j] == Mul(c[j], Pow2(|c| - 1 - j))
  {
    hide Mul;
    var n := |c| - 1;
    if j == n {
      MulComm(c[n], 1);
      MulOneLeft(c[n]);
    } else {
      TwistAt(c[..n], j);
      MulAssoc(c[j], Pow2(n - 1 - j), 2);
      NextRoot(n - 1 - j);
    }
  }

  /** Evaluating the twisted sequence at 2^i is evaluating the sequence at 2^(i+1). */
  lemma {:induction false} EvalTwist(c: seq<Byte>, i: nat)
    ensures Eval(Twist(c), Pow2(i)) == Eval(c, Pow2(i + 1))
  {
    hide Add, Mul, Pow2;
    if c == [] {
    } else {
      var n := |c| - 1;
      var x, y := Pow2(i), Pow2(i + 1);
      var t := Twist(c[..n]);
      EvalTwist(c[..n], i);
      EvalScale(t, 2, x);
      EvalSnoc(Scale(t, 2), c[n], x);
      MulAssoc(Eval(t, x), 2, x);
      MulComm(2, x);
      NextRoot(i);
    }
  }

  /** Each entry times the difference of its locator and that of place `m`. */
  function Eliminate(c: seq<Byte>, m: nat): (r: seq<Byte>)
    requires m < |c|
    ensures |r| == |c|
  {
    Sum(Twist(c), Scale(c, Pow2(|c| - 1 - m)))
  }

  lemma {:induction false} EliminateEntry(c: seq<Byte>, m: nat, j: nat)
    requires m < |c| && j < |c|
    ensures Eliminate(c, m)[j] == Mul(c[j], Add(Pow2(|c| - 1 - j), Pow2(|c| - 1 - m)))
  {
    hide Add, Mul, Pow2, Twist;
    TwistAt(c, j);
    MulAddRight(c[j], Pow2(|c| - 1 - j), Pow2(|c| - 1 - m));
  }

  lemma {:induction false} EliminateAt(c: seq<Byte>, m: nat, j: nat)
    requires m < |c| <= 255 && j < |c|
    ensures Eliminate(c, m)[j] == 0 <==> c[j] == 0 || j == m
  {
    hide *;
    var n := |c| - 1;
    var x, y := Pow2(n - j), Pow2(n - m);
    EliminateEntry(c, m, j);
    ProductZero(c[j], Add(x, y));
    DifferenceZero(x, y);
    if n - j < n - m { Pow2Distinct(n - j, n - m); }
    if n - m < n - j { Pow2Distinct(n - m, n - j); }
  }

  /** Eliminating costs one root. */
  lemma {:induction false} EliminateIsCodeword(c: seq<Byte>, m: nat, d: nat)
    requires m < |c| && d >= 1 && IsCodeword(c, d)
    ensures IsCodeword(Eliminate(c, m), d - 1)
  {
    var y := Pow2(|c| - 1 - m);
    forall i | 0 <= i < d - 1 ensures Eval(Eliminate(c, m), Pow2(i)) == 0 {
      hide Add, Mul, Pow2, Eval;
      EvalSum(Twist(c), Scale(c, y), Pow2(i));
      EvalScale(c, y, Pow2(i));
      EvalTwist(c, i);
      MulZeroLeft(y);
      AddLaws(0, 0, 0);
    }
  }

  lemma {:induction false} WeightOneFewer(c: seq<Byte>, r: seq<Byte>, m: nat)
    requires |c| == |r| && m < |c| && c[m] != 0
    requires forall j :: 0 <= j < |c| ==> (r[j] == 0 <==> c[j] == 0 || j == m)
    ensures Weight(r) == Weight(c) - 1
  {
    var n := |c| - 1;
    if m == n {
      WeightSame(c[..n], r[..n]);
    } else {
      WeightOneFewer(c[..n], r[..n], m);
    }
  }

  lemma {:induction false} WeightSame(c: seq<Byte>, r: seq<Byte>)
    requires |c| == |r|
    requires forall j :: 0 <= j < |c| ==> (r[j] == 0 <==> c[j] == 0)
    ensures Weight(r) == Weight(c)
  {
    if c == [] {
    } else {
      var n := |c| - 1;
      WeightSame(c[..n], r[..n]);
    }
  }

  lemma {:induction false} WeightZero(c: seq<Byte>)
    ensures Weight(c) == 0 <==> forall j :: 0 <= j < |c| ==> c[j] == 0
  {
    if c == [] {
    } else {
      var n := |c| - 1;
      WeightZero(c[..n]);
      assert forall j :: 0 <= j < n ==> c[..n][j] == c[j];
    }
  }

  lemma {:induction false} EvalLoneEntry(c: seq<Byte>, m: nat)
    requires m < |c|
    requires forall j :: 0 <= j < |c| && j != m ==> c[j] == 0
    ensures Eval(c, Pow2(0)) == c[m]
  {
    hide Add, Mul;
    var n := |c| - 1;
    if m == n {
      assert c[..n] == Zeros(n);
      EvalZeros(n, Pow2(0));
      MulZeroLeft(Pow2(0));
      AddLaws(0, c[n], 0);
      AddLaws(c[n], 0, 0);
    } else {
      EvalLoneEntry(c[..n], m);
      MulComm(c[m], 1);
      MulOneLeft(c[m]);
      AddLaws(c[m], 0, 0);
    }
  }

  /** A codeword with at most `d` nonzero entries is zero. */
  lemma {:induction false} LightCodewordIsZero(c: seq<Byte>, d: nat)
    requires |c| <= 255 && IsCodeword(c, d) && Weight(c) <= d
    ensures Weight(c) == 0
    decreases d
  {
    if Weight(c) != 0 {
      WeightZero(c);
      var m :| 0 <= m < |c| && c[m] != 0;
      var r := Eliminate(c, m);
      forall j | 0 <= j < |c| ensures r[j] == 0 <==> c[j] == 0 || j == m { EliminateAt(c, m, j); }
      WeightOneFewer(c, r, m);
      EliminateIsCodeword(c, m, d);
      LightCodewordIsZero(r, d - 1);
      WeightZero(r);
      EvalLoneEntry(c, m);
      assert false;
    }
  }

  lemma {:induction false} DistanceIsWeight(a: seq<Byte>, b: seq<Byte>)
    requires |a| == |b|
    ensures Distance(a, b) == Weight(Sum(a, b))
  {
    hide Add;
    if a == [] {
    } else {
      var n := |a| - 1;
      DistanceIsWeight(a[..n], b[..n]);
      assert Sum(a, b)[..n] == Sum(a[..n], b[..n]);
      DifferenceZero(a[n], b[n]);
    }
  }

  /** Two different codewords of equal length differ in more than `d` places. */
  lemma {:induction false} MinimumDistance(a: seq<Byte>, b: seq<Byte>, d: nat)
    requires |a| == |b| <= 255 && a != b
    requires IsCodeword(a, d) && IsCodeword(b, d)
    ensures Distance(a, b) > d
  {
    var c := Sum(a, b);
    DistanceIsWeight(a, b);
    forall i | 0 <= i < d ensures Eval(c, Pow2(i)) == 0 {
      EvalSum(a, b, Pow2(i));
      AddLaws(0, 0, 0);
    }
    if Weight(c) <= d {
      LightCodewordIsZero(c, d);
      WeightZero(c);
      forall j | 0 <= j < |a| ensures a[j] == b[j] {
        assert c[j] == 0;
        AddCancel(a[j], b[j]);
      }
    }
  }

  // ---------- The encoder ----------

  /** Data followed by its check bytes is a codeword. */
  lemma {:induction false} EncodedIsCodeword(data: seq<Byte>, divisor: seq<Byte>, d: nat)
    requires d >= 1 && [1] + divisor == Generator(d)
    ensures IsCodeword(data + Remainder(data, divisor), d)
  {
    forall i | 0 <= i < d ensures Eval(data + Remainder(data, divisor), Pow2(i)) == 0 {
      hide *;
      DivisionIdentity(data, divisor, Pow2(i));
      GeneratorRoots(d, Pow2(i));
      ProductZero(Eval(Quotient(data, divisor), Pow2(i)), Eval([1] + divisor, Pow2(i)));
    }
  }

  lemma {:induction false} DistanceBound(a: seq<Byte>, b: seq<Byte>, p: seq<Byte>)
    requires |a| == |b|
    ensures Distance(p + a, p + b) <= |a|
  {
    if a == [] {
      assert p + a == p && p + b == p;
      DistanceSelf(p);
    } else {
      var n := |a| - 1;
      assert (p + a)[..|p| + n] == p + a[..n];
      assert (p + b)[..|p| + n] == p + b[..n];
      DistanceBound(a[..n], b[..n], p);
    }
  }

  lemma {:induction false} DistanceSelf(a: seq<Byte>)
    ensures Distance(a, a) == 0
  {
    if a == [] {
    } else {
      DistanceSelf(a[..|a| - 1]);
    }
  }

  /** The check bytes are the only ones that complete the data to a codeword. */
  lemma {:induction false} CheckBytesUnique(data: seq<Byte>, divisor: seq<Byte>, d: nat, ecc: seq<Byte>)
    requires d >= 1 && [1] + divisor == Generator(d)
    requires |ecc| == d && |data| + d <= 255
    ensures IsCodeword(data + ecc, d) <==> ecc == Remainder(data, divisor)
  {
    hide *;
    var rem := Remainder(data, divisor);
    assert |divisor| == d by { assert |[1] + divisor| == d + 1; }
    EncodedIsCodeword(data, divisor, d);
    DistanceBound(ecc, rem, data);
    if IsCodeword(data + ecc, d) && data + ecc != data + rem {
      MinimumDistance(data + ecc, data + rem, d);
      assert false;
    }
    assert ecc == (data + ecc)[|data|..];
    assert rem == (data + rem)[|data|..];
  }

  lemma {:induction false} Triangle(a: seq<Byte>, r: seq<Byte>, b: seq<Byte>)
    requires |a| == |r| == |b|
    ensures Distance(a, b) <= Distance(a, r) + Distance(r, b)
  {
    if a == [] {
    } else {
      var n := |a| - 1;
      Triangle(a[..n], r[..n], b[..n]);
    }
  }

  /** A received word with at most `t` wrong bytes, 2t <= d, determines the codeword that was sent. */
  lemma {:induction false} UniqueDecoding(sent: seq<Byte>, other: seq<Byte>, received: seq<Byte>, d: nat, t: nat)
    requires |sent| == |other| == |received| <= 255
    requires IsCodeword(sent, d) && IsCodeword(other, d)
    requires Distance(sent, received) <= t && Distance(received, other) <= t && 2 * t <= d
    ensures sent == other
  {
    hide *;
    Triangle(sent, received, other);
    if sent != other { MinimumDistance(sent, other, d); }
  }

  lemma {:induction false} Symmetric(a: seq<Byte>, b: seq<Byte>)
    requires |a| == |b|
    ensures Distance(a, b) == Distance(b, a)
  {
    if a != [] { Symmetric(a[..|a| - 1], b[..|b| - 1]); }
  }
}
