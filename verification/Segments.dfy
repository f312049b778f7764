/** Segments of the data bit string (sections 7.4.3 to 7.4.5 of ISO/IEC 18004:2015): the encoder's
    loops, and a reference reader that takes a segment's payload apart again. */
module Segments {
  import opened BitBuffers
  import opened Results

  /** A char of a C string, or a byte. */
  type Octet = n: nat | n < 256

  datatype Mode = Numeric | Alphanumeric | Byte

  datatype Segment = Segment(mode: Mode, numChars: nat, data: seq<bool>)

  const INT_MAX: nat := 0x7FFF_FFFF

  const DIGITS: string := "0123456789"
  const LETTERS: string := "ABCDEFGHIJKLMNOPQRSTUVWXYZ"
  const SIGNS: string := " $%*+-./:"
  const ALPHANUMERIC_CHARSET: string := DIGITS + LETTERS + SIGNS

  function ModeBits(m: Mode): (b: nat)
    ensures 0 < b < 16
  {
    match m
    case Numeric => 1
    case Alphanumeric => 2
    case Byte => 4
  }

  /** Width of the character count field in a version. */
  function CharCountBits(m: Mode, version: nat): (w: nat)
    requires 1 <= version <= 40
    ensures 8 <= w <= 16
  {
    var i := (version + 7) / 17;
    match m
    case Numeric => [10, 12, 14][i]
    case Alphanumeric => [9, 11, 13][i]
    case Byte => [8, 16, 16][i]
  }

  // ---------- Characters and symbol values ----------

  /** strchr: the first place of `c` in `s` from `i` on, or -1. */
  function IndexFrom(s: string, c: Octet, i: nat): (r: int)
    requires i <= |s|
    ensures r == -1 || (i <= r < |s| && s[r] as int == c)
    ensures r == -1 <==> forall k :: i <= k < |s| ==> s[k] as int != c
    decreases |s| - i
  {
    if i == |s| then -1 else if s[i] as int == c then i else IndexFrom(s, c, i + 1)
  }

  predicate IsDigit(c: Octet) { 48 <= c <= 57 }

  predicate InCharset(c: Octet) { IndexFrom(ALPHANUMERIC_CHARSET, c, 0) != -1 }

  predicate Encodable(m: Mode, c: Octet)
  {
    match m
    case Numeric => IsDigit(c)
    case Alphanumeric => InCharset(c)
    case Byte => true
  }

  predicate AllEncodable(m: Mode, text: seq<Octet>)
  {
    forall i :: 0 <= i < |text| ==> Encodable(m, text[i])
  }

  function Radix(m: Mode): (r: nat)
    ensures r > 0
  {
    match m
    case Numeric => 10
    case Alphanumeric => 45
    case Byte => 256
  }

  /** The number a character stands for in a mode. */
  function Symbol(m: Mode, c: Octet): (s: nat)
    ensures s < Radix(m)
  {
    match m
    case Numeric => if IsDigit(c) then c - 48 else 0
    case Alphanumeric =>
      CharsetSize();
      if InCharset(c) then IndexFrom(ALPHANUMERIC_CHARSET, c, 0) else 0
    case Byte => c
  }

  lemma {:induction false} CharsetSize()
    ensures |ALPHANUMERIC_CHARSET| == 45
  {}

  /** The character with a given number, as a reader prints it. */
  function Character(m: Mode, s: nat): Octet
    requires s < Radix(m)
  {
    match m
    case Numeric => 48 + s
    case Alphanumeric => if s < 10 then 48 + s else if s < 36 then 65 + (s - 10) else Sign(s)
    case Byte => s
  }

  /** Space, dollar, percent, asterisk, plus, hyphen, full stop, slash and colon (Table 5 of section 7.4.4). */
  function Sign(s: nat): Octet
  {
    match s
    case 36 => 32
    case 37 => 36
    case 38 => 37
    case 39 => 42
    case 40 => 43
    case 41 => 45
    case 42 => 46
    case 43 => 47
    case _ => 58
  }

  lemma {:induction false} CharacterOfSymbol(m: Mode, c: Octet)
    requires Encodable(m, c)
    ensures Character(m, Symbol(m, c)) == c
  {
    CharsetSize();
    if m == Alphanumeric {
      CharsetAt(IndexFrom(ALPHANUMERIC_CHARSET, c, 0));
    }
  }

  /** The encoder's character set is the reader's table. */
  lemma {:induction false} CharsetAt(k: nat)
    requires k < 45 == |ALPHANUMERIC_CHARSET|
    ensures ALPHANUMERIC_CHARSET[k] as int == Character(Alphanumeric, k)
  {
    if k < 10 { DigitsAt(k); } else if k < 36 { LettersAt(k - 10); } else { SignsAt(k - 36); }
  }

  lemma {:induction false} DigitsAt(k: nat)
    requires k < 10
    ensures |DIGITS| == 10 && DIGITS[k] as int == Character(Alphanumeric, k)
  {
    match k
    case 0 => case 1 => case 2 => case 3 => case 4 => case 5 => case 6 => case 7 => case 8 => case 9 =>
  }

  lemma {:induction false} LettersAt(k: nat)
    requires k < 26
    ensures |LETTERS| == 26 && LETTERS[k] as int == Character(Alphanumeric, k + 10)
  {
    match k
    case 0 => case 1 => case 2 => case 3 => case 4 => case 5 => case 6 => case 7 => case 8 =>
    case 9 => case 10 => case 11 => case 12 => case 13 => case 14 => case 15 => case 16 => case 17 =>
    case 18 => case 19 => case 20 => case 21 => case 22 => case 23 => case 24 => case 25 =>
  }

  lemma {:induction false} SignsAt(k: nat)
    requires k < 9
    ensures |SIGNS| == 9 && SIGNS[k] as int == Character(Alphanumeric, k + 36)
  {
    match k
    case 0 => case 1 => case 2 => case 3 => case 4 => case 5 => case 6 => case 7 => case 8 =>
  }

  // ---------- Groups of characters ----------

  function GroupSize(m: Mode): (g: nat)
    ensures g >= 1
  {
    match m
    case Numeric => 3
    case Alphanumeric => 2
    case Byte => 1
  }

  /** Bits taken by a group of `k` characters. */
  function GroupWidth(m: Mode, k: nat): (w: nat)
    requires 1 <= k <= GroupSize(m)
    ensures 4 <= w <= 11
  {
    match m
    case Numeric => 3 * k + 1
    case Alphanumeric => if k == 1 then 6 else 11
    case Byte => 8
  }

  function GroupValue(m: Mode, text: seq<Octet>): nat
  {
    if text == [] then 0
    else GroupValue(m, text[..|text| - 1]) * Radix(m) + Symbol(m, text[|text| - 1])
  }

  lemma {:induction false} GroupFits(m: Mode, text: seq<Octet>)
    requires 1 <= |text| <= GroupSize(m)
    ensures GroupValue(m, text) < Exp2(GroupWidth(m, |text|))
  {
    Exp2Values();
    hide Exp2, Symbol;
    var v := GroupValue(m, text);
    assert GroupValue(m, []) == 0;
    assert GroupValue(m, text[..1]) == Symbol(m, text[0]);
    if |text| >= 2 {
      assert text[..2][..1] == text[..1];
      assert GroupValue(m, text[..2]) == Symbol(m, text[0]) * Radix(m) + Symbol(m, text[1]);
    }
    assert text[..|text|] == text;
    if |text| == 3 {
      assert text[..3][..2] == text[..2];
      assert v == GroupValue(m, text[..2]) * 10 + Symbol(m, text[2]);
    }
  }

  lemma {:induction false} Exp2Values()
    ensures Exp2(4) == 16 && Exp2(6) == 64 && Exp2(7) == 128 && Exp2(8) == 256
    ensures Exp2(10) == 1024 && Exp2(11) == 2048 && Exp2(16) == 0x1_0000
  {
    assert Exp2(12) == 16 * Exp2(8);
    assert Exp2(16) == 16 * Exp2(12);
  }

  lemma {:induction false} Exp2Small(n: nat)
    requires n <= 16
    ensures Exp2(n) <= 0x1_0000
  {
    Exp2Values();
    hide Exp2;
    Exp2Monotone(n, 16);
  }

  lemma {:induction false} Exp2Monotone(m: nat, n: nat)
    requires m <= n
    ensures Exp2(m) <= Exp2(n)
    decreases n
  {
    if m < n { Exp2Monotone(m, n - 1); }
  }

  /** The payload of a segment: whole groups first, then what remains. */
  function Payload(m: Mode, text: seq<Octet>): seq<bool>
  {
    if text == [] then []
    else
      var k := if |text| < GroupSize(m) then |text| else GroupSize(m);
      ToBits(GroupValue(m, text[..k]), GroupWidth(m, k)) + Payload(m, text[k..])
  }

  function MakeSegment(m: Mode, text: seq<Octet>): Segment
  {
    Segment(m, |text|, Payload(m, text))
  }

  // ---------- The encoder ----------

  /** The first `k` characters of `text` are in `bits`. */
  ghost predicate Written(bits: seq<bool>, m: Mode, text: seq<Octet>, k: nat)
    requires k <= |text|
  {
    bits + Payload(m, text[k..]) == Payload(m, text)
  }

  /** A group fits its field and is the next piece of the payload. */
  lemma {:induction false} WriteGroup(bits: seq<bool>, m: Mode, text: seq<Octet>, start: nat, end: nat)
    requires start < end <= |text| && Written(bits, m, text, start)
    requires end - start == GroupSize(m) || (end - start < GroupSize(m) && end == |text|)
    ensures GroupValue(m, text[start..end]) < Exp2(GroupWidth(m, end - start)) <= 0x1_0000
    ensures Written(bits + ToBits(GroupValue(m, text[start..end]), GroupWidth(m, end - start)), m, text, end)
  {
    hide Exp2, GroupValue;
    var k := end - start;
    assert text[start..][..k] == text[start..end];
    assert text[start..][k..] == text[end..];
    GroupFits(m, text[start..end]);
    Exp2Small(GroupWidth(m, k));
  }

  lemma {:induction false} WrittenAll(bits: seq<bool>, m: Mode, text: seq<Octet>)
    ensures Written([], m, text, 0)
    ensures Written(bits, m, text, |text|) <==> bits == Payload(m, text)
  {
    assert text[0..] == text && text[|text|..] == [];
    assert bits + [] == bits;
  }

  lemma {:induction false} GroupEmpty(m: Mode)
    ensures GroupValue(m, []) == 0
  {}

  lemma {:induction false} GroupSnoc(m: Mode, text: seq<Octet>, i: nat, j: nat)
    requires i <= j < |text|
    ensures GroupValue(m, text[i..j + 1]) == GroupValue(m, text[i..j]) * Radix(m) + Symbol(m, text[j])
  {
    hide Symbol;
    assert text[i..j + 1][..j - i] == text[i..j];
  }

  method MakeBytes(data: seq<Octet>) returns (r: Result<Segment>)
    ensures r == if |data| > INT_MAX then Err(LengthError) else Ok(MakeSegment(Byte, data))
  {
    hide Payload, GroupValue, ToBits, Exp2, Written;
    if |data| > INT_MAX {
      return Err(LengthError);
    }
    var bb := new BitBuffer();
    WrittenAll(bb.bits, Byte, data);
    for k := 0 to |data|
      invariant Written(bb.bits, Byte, data, k)
    {
      WriteGroup(bb.bits, Byte, data, k, k + 1);
      GroupEmpty(Byte);
      assert data[k..k] == [];
      GroupSnoc(Byte, data, k, k);
      var ok := bb.AppendBits(data[k], 8);
    }
    WrittenAll(bb.bits, Byte, data);
    r := Ok(Segment(Byte, |data|, bb.bits));
  }

  method MakeNumeric(text: seq<Octet>) returns (r: Result<Segment>)
    ensures r == if AllEncodable(Numeric, text) then Ok(MakeSegment(Numeric, text)) else Err(DomainError)
  {
    hide Payload, GroupValue, ToBits, Exp2, Written;
    var bb := new BitBuffer();
    var accumData: nat, accumCount: nat, charCount: nat := 0, 0, 0;
    WrittenAll(bb.bits, Numeric, text);
    GroupEmpty(Numeric);
    ghost var start := 0;
    while charCount < |text|
      invariant 0 <= start <= charCount <= |text| && accumCount == charCount - start < 3
      invariant forall i :: 0 <= i < charCount ==> IsDigit(text[i])
      invariant accumData == GroupValue(Numeric, text[start..charCount])
      invariant Written(bb.bits, Numeric, text, start)
    {
      var c := text[charCount];
      if c < 48 || c > 57 {
        assert !Encodable(Numeric, text[charCount]);
        return Err(DomainError);
      }
      GroupSnoc(Numeric, text, start, charCount);
      accumData := accumData * 10 + (c - 48);
      accumCount := accumCount + 1;
      if accumCount == 3 {
        WriteGroup(bb.bits, Numeric, text, start, charCount + 1);
        var ok := bb.AppendBits(accumData, 10);
        accumData := 0;
        accumCount := 0;
        start := charCount + 1;
        assert text[start..start] == [];
      }
      charCount := charCount + 1;
    }
    if accumCount > 0 {
      WriteGroup(bb.bits, Numeric, text, start, charCount);
      var ok := bb.AppendBits(accumData, accumCount * 3 + 1);
    }
    WrittenAll(bb.bits, Numeric, text);
    r := Ok(Segment(Numeric, charCount, bb.bits));
  }

  method MakeAlphanumeric(text: seq<Octet>) returns (r: Result<Segment>)
    ensures r == if AllEncodable(Alphanumeric, text) then Ok(MakeSegment(Alphanumeric, text)) else Err(DomainError)
  {
    hide Payload, GroupValue, ToBits, Exp2, Written, IndexFrom;
    var bb := new BitBuffer();
    var accumData: nat, accumCount: nat, charCount: nat := 0, 0, 0;
    WrittenAll(bb.bits, Alphanumeric, text);
    GroupEmpty(Alphanumeric);
    ghost var start := 0;
    while charCount < |text|
      invariant 0 <= start <= charCount <= |text| && accumCount == charCount - start < 2
      invariant forall i :: 0 <= i < charCount ==> InCharset(text[i])
      invariant accumData == GroupValue(Alphanumeric, text[start..charCount])
      invariant Written(bb.bits, Alphanumeric, text, start)
    {
      var temp := IndexFrom(ALPHANUMERIC_CHARSET, text[charCount], 0);
      if temp == -1 {
        assert !Encodable(Alphanumeric, text[charCount]);
        return Err(DomainError);
      }
      GroupSnoc(Alphanumeric, text, start, charCount);
      accumData := accumData * 45 + temp;
      accumCount := accumCount + 1;
      if accumCount == 2 {
        WriteGroup(bb.bits, Alphanumeric, text, start, charCount + 1);
        var ok := bb.AppendBits(accumData, 11);
        accumData := 0;
        accumCount := 0;
        start := charCount + 1;
        assert text[start..start] == [];
      }
      charCount := charCount + 1;
    }
    if accumCount > 0 {
      WriteGroup(bb.bits, Alphanumeric, text, start, charCount);
      var ok := bb.AppendBits(accumData, 6);
    }
    WrittenAll(bb.bits, Alphanumeric, text);
    r := Ok(Segment(Alphanumeric, charCount, bb.bits));
  }

  method IsNumeric(text: seq<Octet>) returns (yes: bool)
    ensures yes <==> AllEncodable(Numeric, text)
  {
    for k := 0 to |text|
      invariant forall i :: 0 <= i < k ==> IsDigit(text[i])
    {
      if text[k] < 48 || text[k] > 57 {
        assert !Encodable(Numeric, text[k]);
        return false;
      }
    }
    return true;
  }

  method IsAlphanumeric(text: seq<Octet>) returns (yes: bool)
    ensures yes <==> AllEncodable(Alphanumeric, text)
  {
    hide IndexFrom;
    for k := 0 to |text|
      invariant forall i :: 0 <= i < k ==> InCharset(text[i])
    {
      if IndexFrom(ALPHANUMERIC_CHARSET, text[k], 0) == -1 {
        assert !Encodable(Alphanumeric, text[k]);
        return false;
      }
    }
    return true;
  }

  /** The densest mode that can hold every character of a text. */
  function BestMode(text: seq<Octet>): Mode
  {
    if AllEncodable(Numeric, text) then Numeric
    else if AllEncodable(Alphanumeric, text) then Alphanumeric
    else Byte
  }

  /** Bits of a payload of `n` characters. */
  function PayloadLength(m: Mode, n: nat): nat
  {
    match m
    case Numeric => 10 * (n / 3) + (if n % 3 == 0 then 0 else if n % 3 == 1 then 4 else 7)
    case Alphanumeric => 11 * (n / 2) + 6 * (n % 2)
    case Byte => 8 * n
  }

  lemma {:induction false} PayloadLengthIs(m: Mode, text: seq<Octet>)
    ensures |Payload(m, text)| == PayloadLength(m, |text|)
    decreases |text|
  {
    hide GroupValue, ToBits;
    if text == [] {
    } else {
      var k := if |text| < GroupSize(m) then |text| else GroupSize(m);
      PayloadLengthIs(m, text[k..]);
    }
  }

  /** Every other mode that can hold a text takes more bits for it. */
  lemma {:induction false} BestModeIsDensest(text: seq<Octet>, m: Mode)
    requires text != [] && AllEncodable(m, text)
    ensures AllEncodable(BestMode(text), text)
    ensures m != BestMode(text) ==> |Payload(BestMode(text), text)| < |Payload(m, text)|
  {
    hide Payload, Encodable;
    PayloadLengthIs(BestMode(text), text);
    PayloadLengthIs(m, text);
    BytesEncodable(text);
  }

  lemma {:induction false} BytesEncodable(text: seq<Octet>)
    ensures AllEncodable(Byte, text)
  {}

  /** The characters of a C string, without its terminating NUL. */
  method MakeSegments(text: seq<Octet>) returns (r: Result<seq<Segment>>)
    requires 0 !in text
    ensures text == [] ==> r == Ok([])
    ensures text != [] ==>
      r == if BestMode(text) == Byte && |text| > INT_MAX then Err(LengthError)
           else Ok([MakeSegment(BestMode(text), text)])
  {
    hide AllEncodable, Payload;
    if text == [] {
      return Ok([]);
    }
    var numeric := IsNumeric(text);
    if numeric {
      var seg := MakeNumeric(text);
      return Ok([seg.value]);
    }
    var alphanumeric := IsAlphanumeric(text);
    if alphanumeric {
      var seg := MakeAlphanumeric(text);
      return Ok([seg.value]);
    }
    var bytes := [];
    for k := 0 to |text|
      invariant bytes == text[..k]
    {
      bytes := bytes + [text[k]];
    }
    assert text[..|text|] == text;
    var seg := MakeBytes(bytes);
    if seg.Err? {
      return Err(seg.error);
    }
    return Ok([seg.value]);
  }

  // ---------- The reference reader ----------

  datatype Reading = Read(chars: seq<Octet>, rest: seq<bool>) | Malformed

  /** The `k` digits of `v` in the mode's radix, as characters. */
  function GroupChars(m: Mode, v: nat, k: nat): (t: seq<Octet>)
    ensures |t| == k
  {
    if k == 0 then []
    else GroupChars(m, v / Radix(m), k - 1) + [Character(m, v % Radix(m))]
  }

  /** Reads `n` characters from the front of `bits`. */
  function ReadPayload(m: Mode, bits: seq<bool>, n: nat): (r: Reading)
    ensures r.Read? ==> |r.rest| <= |bits|
  {
    if n == 0 then Read([], bits)
    else
      var k := if n < GroupSize(m) then n else GroupSize(m);
      var w := GroupWidth(m, k);
      if |bits| < w then Malformed
      else
        match ReadPayload(m, bits[w..], n - k)
        case Malformed => Malformed
        case Read(chars, rest) => Read(GroupChars(m, FromBits(bits[..w]), k) + chars, rest)
  }

  lemma {:induction false} DivMod(m: Mode, v: nat, s: nat)
    requires s < Radix(m)
    ensures (v * Radix(m) + s) / Radix(m) == v && (v * Radix(m) + s) % Radix(m) == s
  {
    match m
    case Numeric =>
    case Alphanumeric =>
    case Byte =>
  }

  lemma {:induction false} GroupCharsStep(m: Mode, v: nat, s: nat, k: nat)
    requires s < Radix(m)
    ensures GroupChars(m, v * Radix(m) + s, k + 1) == GroupChars(m, v, k) + [Character(m, s)]
  {
    DivMod(m, v, s);
    hide Character, Radix;
  }

  lemma {:induction false} EncodableParts(m: Mode, text: seq<Octet>, k: nat)
    requires k <= |text| && AllEncodable(m, text)
    ensures AllEncodable(m, text[..k]) && AllEncodable(m, text[k..])
    ensures k < |text| ==> Encodable(m, text[k])
  {
    hide Encodable;
  }

  lemma {:induction false} GroupRoundTrip(m: Mode, text: seq<Octet>)
    requires AllEncodable(m, text)
    ensures GroupChars(m, GroupValue(m, text), |text|) == text
  {
    hide AllEncodable, Encodable, Symbol, Character, Radix;
    if text == [] {
    } else {
      var n := |text| - 1;
      EncodableParts(m, text, n);
      GroupRoundTrip(m, text[..n]);
      CharacterOfSymbol(m, text[n]);
      var v, s := GroupValue(m, text[..n]), Symbol(m, text[n]);
      hide GroupChars;
      GroupCharsStep(m, v, s, n);
    }
  }

  /** Reading one group, given what the rest reads as. */
  lemma {:induction false} ReadGroup(m: Mode, piece: seq<bool>, bits: seq<bool>, k: nat, n: nat, chars: seq<Octet>, rest: seq<bool>)
    requires 1 <= k <= n && k == if n < GroupSize(m) then n else GroupSize(m)
    requires |piece| == GroupWidth(m, k)
    requires ReadPayload(m, bits, n - k) == Read(chars, rest)
    ensures ReadPayload(m, piece + bits, n) == Read(GroupChars(m, FromBits(piece), k) + chars, rest)
  {
    hide FromBits, GroupChars, GroupWidth, GroupSize;
    var w := GroupWidth(m, k);
    assert (piece + bits)[..w] == piece && (piece + bits)[w..] == bits;
  }

  lemma {:induction false} PayloadStep(m: Mode, text: seq<Octet>, rest: seq<bool>, k: nat)
    requires text != [] && k == if |text| < GroupSize(m) then |text| else GroupSize(m)
    ensures Payload(m, text) + rest
         == ToBits(GroupValue(m, text[..k]), GroupWidth(m, k)) + (Payload(m, text[k..]) + rest)
  {
    hide ToBits, GroupValue, GroupWidth, GroupSize;
  }

  lemma {:induction false} PayloadEmpty(m: Mode, rest: seq<bool>)
    ensures ReadPayload(m, Payload(m, []) + rest, 0) == Read([], rest)
  {
    assert [] + rest == rest;
  }

  /** Reading a payload back gives the characters that were written, and what followed them. */
  lemma {:induction false} PayloadRoundTrip(m: Mode, text: seq<Octet>, rest: seq<bool>)
    requires AllEncodable(m, text)
    ensures ReadPayload(m, Payload(m, text) + rest, |text|) == Read(text, rest)
    decreases |text|
  {
    hide *;
    if text == [] {
      PayloadEmpty(m, rest);
    } else {
      var k := if |text| < GroupSize(m) then |text| else GroupSize(m);
      var group, after := text[..k], Payload(m, text[k..]) + rest;
      var v, w := GroupValue(m, group), GroupWidth(m, k);
      EncodableParts(m, text, k);
      PayloadRoundTrip(m, text[k..], rest);
      PayloadStep(m, text, rest, k);
      GroupFits(m, group);
      FromToBits(v, w);
      ReadGroup(m, ToBits(v, w), after, k, |text|, text[k..], rest);
      GroupRoundTrip(m, group);
      assert group + text[k..] == text;
    }
  }
}
