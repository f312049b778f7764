/** Bytes as eight bits, most significant first. */
module Codewords {
  import opened GaloisField

  /** `1 << k`. */
  function Mask(k: nat): Byte
    requires k < 8
  {
    match k
    case 0 => 0x01
    case 1 => 0x02
    case 2 => 0x04
    case 3 => 0x08
    case 4 => 0x10
    case 5 => 0x20
    case 6 => 0x40
    case 7 => 0x80
  }

  lemma {:induction false} BitOfMasked(b: Byte, k: nat, j: nat)
    requires k < 8 && j < 8
    ensures Bit(b | Mask(k), j) <==> Bit(b, j) || j == k
  {
    match k
    case 0 => case 1 => case 2 => case 3 => case 4 => case 5 => case 6 => case 7 =>
  }

  lemma {:induction false} BitOfZero(j: nat)
    requires j < 8
    ensures !Bit(0, j)
  {}

  /** Bit `i` of a byte sequence read in big endian. */
  predicate BitAt(data: seq<Byte>, i: nat)
    requires i < 8 * |data|
  {
    Bit(data[i / 8], 7 - i % 8)
  }

  function ReadBits(data: seq<Byte>): (bits: seq<bool>)
    ensures |bits| == 8 * |data|
  {
    seq(8 * |data|, i requires 0 <= i < 8 * |data| => BitAt(data, i))
  }

  /** Packs bits into bytes; reading the bytes gives the bits back. */
  method Pack(bits: seq<bool>) returns (data: seq<Byte>)
    requires |bits| % 8 == 0
    ensures |data| == |bits| / 8
    ensures ReadBits(data) == bits
  {
    hide Bit, Mask;
    data := seq(|bits| / 8, _ => 0);
    var i := 0;
    forall j | 0 <= j < |bits| ensures !BitAt(data, j) { BitOfZero(7 - j % 8); }
    while i < |bits|
      invariant 0 <= i <= |bits| && |data| == |bits| / 8
      invariant forall j :: 0 <= j < i ==> BitAt(data, j) == bits[j]
      invariant forall j :: i <= j < |bits| ==> !BitAt(data, j)
    {
      var before := data;
      if bits[i] {
        data := data[i / 8 := data[i / 8] | Mask(7 - i % 8)];
        forall j | 0 <= j < |bits| ensures BitAt(data, j) == (BitAt(before, j) || j == i) {
          BitOfMasked(before[i / 8], 7 - i % 8, 7 - j % 8);
        }
      }
      i := i + 1;
    }
    assert ReadBits(data) == bits;
  }

  // ---------- Bytes from bits ----------

  function ByteUpTo(bits: seq<bool>, n: nat): Byte
    requires n <= 8 == |bits|
  {
    if n == 0 then 0
    else if bits[n - 1] then ByteUpTo(bits, n - 1) | Mask(8 - n) else ByteUpTo(bits, n - 1)
  }

  lemma {:induction false} BitOfByte(bits: seq<bool>, n: nat, j: nat)
    requires n <= 8 == |bits| && j < 8
    ensures Bit(ByteUpTo(bits, n), j) <==> 7 - j < n && bits[7 - j]
  {
    hide Bit, Mask;
    if n == 0 {
      BitOfZero(j);
    } else {
      BitOfByte(bits, n - 1, j);
      BitOfMasked(ByteUpTo(bits, n - 1), 8 - n, j);
    }
  }

  /** A reader's bytes: each group of eight bits, most significant first. */
  function BytesOf(bits: seq<bool>): (data: seq<Byte>)
    ensures |data| == |bits| / 8
  {
    seq(|bits| / 8, k requires 0 <= k < |bits| / 8 => ByteUpTo(bits[8 * k..8 * k + 8], 8))
  }

  lemma {:induction false} SameBits(a: Byte, b: Byte)
    requires forall j :: 0 <= j < 8 ==> Bit(a, j) == Bit(b, j)
    ensures a == b
  {
    assert Bit(a, 0) == Bit(b, 0) && Bit(a, 1) == Bit(b, 1) && Bit(a, 2) == Bit(b, 2) && Bit(a, 3) == Bit(b, 3);
    assert Bit(a, 4) == Bit(b, 4) && Bit(a, 5) == Bit(b, 5) && Bit(a, 6) == Bit(b, 6) && Bit(a, 7) == Bit(b, 7);
  }

  /** Bytes are recovered from their bits. */
  lemma {:induction false} BytesRoundTrip(data: seq<Byte>)
    ensures BytesOf(ReadBits(data)) == data
  {
    hide Bit;
    var bits := ReadBits(data);
    forall k | 0 <= k < |data| ensures BytesOf(bits)[k] == data[k] {
      var group := bits[8 * k..8 * k + 8];
      forall j | 0 <= j < 8 ensures Bit(ByteUpTo(group, 8), j) == Bit(data[k], j) {
        BitOfByte(group, 8, j);
        assert group[7 - j] == BitAt(data, 8 * k + (7 - j));
      }
      hide ByteUpTo;
      SameBits(ByteUpTo(group, 8), data[k]);
    }
  }
}
