/** The appendable sequence of bits of the encoder, and the big-endian reading of bits. */
module BitBuffers {

  function Exp2(n: nat): (p: nat)
    ensures p >= 1
  {
    if n == 0 then 1 else 2 * Exp2(n - 1)
  }

  /** The lowest `len` bits of `val`, most significant first. */
  function ToBits(val: nat, len: nat): (b: seq<bool>)
    ensures |b| == len
  {
    if len == 0 then [] else ToBits(val / 2, len - 1) + [val % 2 == 1]
  }

  /** The number whose binary digits are `b`, most significant first. */
  function FromBits(b: seq<bool>): nat
  {
    if b == [] then 0 else 2 * FromBits(b[..|b| - 1]) + (if b[|b| - 1] then 1 else 0)
  }

  lemma {:induction false} FromToBits(val: nat, len: nat)
    requires val < Exp2(len)
    ensures FromBits(ToBits(val, len)) == val
  {
    if len == 0 {
    } else {
      FromToBits(val / 2, len - 1);
      assert ToBits(val, len)[..len - 1] == ToBits(val / 2, len - 1);
    }
  }

  lemma {:induction false} ToFromBits(b: seq<bool>)
    ensures FromBits(b) < Exp2(|b|)
    ensures ToBits(FromBits(b), |b|) == b
  {
    if b == [] {
    } else {
      ToFromBits(b[..|b| - 1]);
    }
  }

  /** `val >> i`. */
  function Shift(val: nat, i: nat): nat
  {
    if i == 0 then val else Shift(val, i - 1) / 2
  }

  lemma {:induction false} ShiftBelow(val: nat, i: nat, k: nat)
    ensures Shift(val, i) < Exp2(k) <==> val < Exp2(i + k)
  {
    if i == 0 {
    } else {
      ShiftBelow(val, i - 1, k + 1);
      assert Exp2(k + 1) == 2 * Exp2(k);
    }
  }

  class BitBuffer {
    var bits: seq<bool>

    constructor ()
      ensures bits == []
    {
      bits := [];
    }

    /** Appends the low `len` bits of a 32-bit value, or throws (`ok` false) and appends nothing. */
    method AppendBits(val: nat, len: int) returns (ok: bool)
      requires val < 0x1_0000_0000
      modifies this
      ensures ok <==> 0 <= len <= 31 && val < Exp2(len)
      ensures bits == if ok then old(bits) + ToBits(val, len) else old(bits)
    {
      if 0 <= len { ShiftBelow(val, len, 0); }
      if len < 0 || len > 31 || Shift(val, len) != 0 {
        return false;
      }
      hide Exp2;
      var i := len - 1;
      while i >= 0
        invariant -1 <= i < len
        invariant bits == old(bits) + ToBits(Shift(val, i + 1), len - 1 - i)
      {
        bits := bits + [Shift(val, i) % 2 == 1];
        assert ToBits(Shift(val, i), len - i) == ToBits(Shift(val, i + 1), len - 1 - i) + [Shift(val, i) % 2 == 1];
        i := i - 1;
      }
      ok := true;
    }

    method Append(more: seq<bool>)
      modifies this
      ensures bits == old(bits) + more
    {
      bits := bits + more;
    }
  }
}
