/** Base64 as section 4 of RFC 4648 defines it, and the encoder with its shifting accumulator. */
module Base64 {

  type Octet = x: int | 0 <= x < 256

  const UPPER: string := "ABCDEFGHIJKLMNOPQRSTUVWXYZ"
  const LOWER: string := "abcdefghijklmnopqrstuvwxyz"
  const OTHERS: string := "0123456789+/"
  const B64_CHARS: string := UPPER + LOWER + OTHERS

  lemma {:induction false} AlphabetSize()
    ensures |UPPER| == 26 && |LOWER| == 26 && |OTHERS| == 12
  {}

  function CharOf(v: int): char
    requires 0 <= v < 64
  {
    AlphabetSize();
    B64_CHARS[v]
  }

  /** The value of a character of the alphabet, or -1. */
  function ValueOf(c: char): int
  {
    if 'A' <= c <= 'Z' then c as int - 'A' as int
    else if 'a' <= c <= 'z' then c as int - 'a' as int + 26
    else if '0' <= c <= '9' then c as int - '0' as int + 52
    else if c == '+' then 62
    else if c == '/' then 63
    else -1
  }

  lemma {:induction false} UpperValues(v: int)
    requires 0 <= v < 26
    ensures |UPPER| == 26 && ValueOf(UPPER[v]) == v
  {
    match v
    case 0 => case 1 => case 2 => case 3 => case 4 => case 5 => case 6 => case 7 => case 8 =>
    case 9 => case 10 => case 11 => case 12 => case 13 => case 14 => case 15 => case 16 => case 17 =>
    case 18 => case 19 => case 20 => case 21 => case 22 => case 23 => case 24 => case 25 =>
  }

  lemma {:induction false} LowerValues(v: int)
    requires 0 <= v < 26
    ensures |LOWER| == 26 && ValueOf(LOWER[v]) == v + 26
  {
    match v
    case 0 => case 1 => case 2 => case 3 => case 4 => case 5 => case 6 => case 7 => case 8 =>
    case 9 => case 10 => case 11 => case 12 => case 13 => case 14 => case 15 => case 16 => case 17 =>
    case 18 => case 19 => case 20 => case 21 => case 22 => case 23 => case 24 => case 25 =>
  }

  lemma {:induction false} OtherValues(v: int)
    requires 0 <= v < 12
    ensures |OTHERS| == 12 && ValueOf(OTHERS[v]) == v + 52
  {
    match v
    case 0 => case 1 => case 2 => case 3 => case 4 => case 5 => case 6 => case 7 => case 8 =>
    case 9 => case 10 => case 11 =>
  }

  lemma {:induction false} AlphabetValues(v: int)
    requires 0 <= v < 64
    ensures ValueOf(CharOf(v)) == v
  {
    hide ValueOf;
    AlphabetSize();
    if v < 26 { UpperValues(v); } else if v < 52 { LowerValues(v - 26); } else { OtherValues(v - 52); }
  }

  // ---------- The definition ----------

  /** Three octets as four characters. */
  function Group(a: Octet, b: Octet, c: Octet): (s: string)
    ensures |s| == 4
  {
    [CharOf(a / 4), CharOf(a % 4 * 16 + b / 16), CharOf(b % 16 * 4 + c / 64), CharOf(c % 64)]
  }

  /** A last group of one or two octets is filled up with zero bits, and marked with '='. */
  function LastGroup(data: seq<Octet>): (s: string)
    requires |data| < 3
    ensures |s| == if data == [] then 0 else 4
  {
    if |data| == 0 then ""
    else if |data| == 1 then [CharOf(data[0] / 4), CharOf(data[0] % 4 * 16), '=', '=']
    else [CharOf(data[0] / 4), CharOf(data[0] % 4 * 16 + data[1] / 16), CharOf(data[1] % 16 * 4), '=']
  }

  /** Groups from the left. */
  function Encoding(data: seq<Octet>): string
  {
    if |data| < 3 then LastGroup(data)
    else Group(data[0], data[1], data[2]) + Encoding(data[3..])
  }

  /** Four characters for every three octets or part of three. */
  lemma {:induction false} EncodingLength(data: seq<Octet>)
    ensures |Encoding(data)| == (|data| + 2) / 3 * 4
  {
    hide Group, LastGroup;
    if |data| >= 3 { EncodingLength(data[3..]); }
  }

  // ---------- A decoder ----------

  datatype Decoded = Decoded(data: seq<Octet>) | Malformed

  function Prepend(front: seq<Octet>, d: Decoded): Decoded
  {
    match d
    case Decoded(data) => Decoded(front + data)
    case Malformed => Malformed
  }

  /** Decodes four characters at a time; only the last four may be marked, and their spare bits are zero. */
  function Decode(s: string): Decoded
  {
    if s == "" then Decoded([])
    else if |s| < 4 then Malformed
    else
      var v0, v1, v2, v3 := ValueOf(s[0]), ValueOf(s[1]), ValueOf(s[2]), ValueOf(s[3]);
      if v0 < 0 || v1 < 0 then Malformed
      else if v2 >= 0 && v3 >= 0 then Prepend([v0 * 4 + v1 / 16, v1 % 16 * 16 + v2 / 4, v2 % 4 * 64 + v3], Decode(s[4..]))
      else if |s| == 4 && v2 >= 0 && s[3] == '=' && v2 % 4 == 0 then Decoded([v0 * 4 + v1 / 16, v1 % 16 * 16 + v2 / 4])
      else if |s| == 4 && s[2] == '=' && s[3] == '=' && v1 % 16 == 0 then Decoded([v0 * 4 + v1 / 16])
      else Malformed
  }

  lemma {:induction false} ValueBelow(c: char)
    ensures -1 <= ValueOf(c) < 64
  {}

  lemma {:induction false} DecodeLast(data: seq<Octet>)
    requires |data| < 3
    ensures Decode(LastGroup(data)) == Decoded(data)
  {
    hide CharOf, ValueOf;
    NotAChar();
    if |data| == 1 {
      AlphabetValues(data[0] / 4);
      AlphabetValues(data[0] % 4 * 16);
    } else if |data| == 2 {
      AlphabetValues(data[0] / 4);
      AlphabetValues(data[0] % 4 * 16 + data[1] / 16);
      AlphabetValues(data[1] % 16 * 4);
    }
  }

  lemma {:induction false} NotAChar()
    ensures ValueOf('=') == -1
  {}

  lemma {:induction false} DecodeGroup(a: Octet, b: Octet, c: Octet, rest: string)
    ensures Decode(Group(a, b, c) + rest) == Prepend([a, b, c], Decode(rest))
  {
    hide CharOf, ValueOf, Prepend;
    var s := Group(a, b, c) + rest;
    assert s[4..] == rest;
    AlphabetValues(a / 4);
    AlphabetValues(a % 4 * 16 + b / 16);
    AlphabetValues(b % 16 * 4 + c / 64);
    AlphabetValues(c % 64);
    Reassemble(a, b, c);
  }

  lemma {:induction false} Reassemble(a: Octet, b: Octet, c: Octet)
    ensures a / 4 * 4 + (a % 4 * 16 + b / 16) / 16 == a
    ensures (a % 4 * 16 + b / 16) % 16 * 16 + (b % 16 * 4 + c / 64) / 4 == b
    ensures (b % 16 * 4 + c / 64) % 4 * 64 + c % 64 == c
  {}

  /** Decoding inverts the encoding. */
  lemma {:induction false} RoundTrip(data: seq<Octet>)
    ensures Decode(Encoding(data)) == Decoded(data)
    decreases |data|
  {
    hide Decode, Group, LastGroup;
    if |data| < 3 {
      DecodeLast(data);
    } else {
      RoundTrip(data[3..]);
      DecodeGroup(data[0], data[1], data[2], Encoding(data[3..]));
      assert data == [data[0], data[1], data[2]] + data[3..];
    }
  }

  lemma {:induction false} ValueInjective(x: char, y: char)
    requires ValueOf(x) == ValueOf(y) >= 0
    ensures x == y
  {}

  lemma {:induction false} CharOfValue(c: char)
    requires ValueOf(c) >= 0
    ensures ValueOf(c) < 64 && CharOf(ValueOf(c)) == c
  {
    ValueBelow(c);
    hide ValueOf, CharOf;
    AlphabetValues(ValueOf(c));
    ValueInjective(c, CharOf(ValueOf(c)));
  }

  lemma {:induction false} FullGroupSound(v0: int, v1: int, v2: int, v3: int, rest: seq<Octet>)
    requires 0 <= v0 < 64 && 0 <= v1 < 64 && 0 <= v2 < 64 && 0 <= v3 < 64
    ensures var a, b, c := v0 * 4 + v1 / 16, v1 % 16 * 16 + v2 / 4, v2 % 4 * 64 + v3;
            && 0 <= a < 256 && 0 <= b < 256 && 0 <= c < 256
            && Encoding([a, b, c] + rest) == [CharOf(v0), CharOf(v1), CharOf(v2), CharOf(v3)] + Encoding(rest)
  {
    hide CharOf;
    Disassemble(v0, v1, v2, v3);
    var a, b, c := v0 * 4 + v1 / 16, v1 % 16 * 16 + v2 / 4, v2 % 4 * 64 + v3;
    assert ([a, b, c] + rest)[3..] == rest;
  }

  lemma {:induction false} LastGroupSound(v0: int, v1: int, v2: int)
    requires 0 <= v0 < 64 && 0 <= v1 < 64 && 0 <= v2 < 64
    ensures var a, b := v0 * 4 + v1 / 16, v1 % 16 * 16 + v2 / 4;
            && 0 <= a < 256 && 0 <= b < 256
            && (v1 % 16 == 0 ==> Encoding([a]) == [CharOf(v0), CharOf(v1), '=', '='])
            && (v2 % 4 == 0 ==> Encoding([a, b]) == [CharOf(v0), CharOf(v1), CharOf(v2), '='])
  {
    hide CharOf;
    Disassemble(v0, v1, v2, 0);
  }

  /** The decoder accepts nothing but encodings: encoding is one to one onto what it accepts. */
  lemma {:induction false} DecodeSound(s: string)
    requires Decode(s).Decoded?
    ensures Encoding(Decode(s).data) == s
    decreases |s|
  {
    hide ValueOf, CharOf, Encoding;
    if s == "" {
      EncodingOfNothing();
    } else {
      var v0, v1, v2, v3 := ValueOf(s[0]), ValueOf(s[1]), ValueOf(s[2]), ValueOf(s[3]);
      CharOfValue(s[0]);
      CharOfValue(s[1]);
      if v2 >= 0 && v3 >= 0 {
        CharOfValue(s[2]);
        CharOfValue(s[3]);
        DecodeSound(s[4..]);
        FullGroupSound(v0, v1, v2, v3, Decode(s[4..]).data);
        assert s == [s[0], s[1], s[2], s[3]] + s[4..];
      } else if v2 >= 0 {
        CharOfValue(s[2]);
        LastGroupSound(v0, v1, v2);
        assert s == [s[0], s[1], s[2], s[3]];
      } else {
        LastGroupSound(v0, v1, 0);
        assert s == [s[0], s[1], s[2], s[3]];
      }
    }
  }

  lemma {:induction false} EncodingOfNothing()
    ensures Encoding([]) == ""
  {}

  lemma {:induction false} Disassemble(v0: int, v1: int, v2: int, v3: int)
    requires 0 <= v0 < 64 && 0 <= v1 < 64 && 0 <= v2 < 64 && 0 <= v3 < 64
    ensures var a, b, c := v0 * 4 + v1 / 16, v1 % 16 * 16 + v2 / 4, v2 % 4 * 64 + v3;
            && 0 <= a < 256 && 0 <= b < 256 && 0 <= c < 256
            && a / 4 == v0 && a % 4 * 16 + b / 16 == v1 && b % 16 * 4 + c / 64 == v2 && c % 64 == v3
  {}

  // ---------- The encoder ----------

  const WORD: int := 0x1_0000_0000

  /** `(val << 8) + c` on 32 bits. */
  function Shifted(val: int, c: Octet): int { (val * 256 + c) % WORD }

  /** `(val >> valb) & 0x3F`. */
  function Sextet(val: int, valb: int): (r: int)
    requires valb == 0 || valb == 2 || valb == 4 || valb == 6
    ensures 0 <= r < 64
  {
    val / (if valb == 0 then 1 else if valb == 2 then 4 else if valb == 4 then 16 else 64) % 64
  }

  lemma {:induction false} LastOctet(val: int, c: Octet)
    ensures 0 <= Shifted(val, c) < WORD && Shifted(val, c) % 256 == c
  {}

  lemma {:induction false} FirstSextet(val: int, c: Octet)
    ensures Sextet(Shifted(val, c), 2) == c / 4
  {
    LastOctet(val, c);
    hide Shifted;
    var w := Shifted(val, c);
    Quotient(w / 256 * 64, c, 4);
    Low6(w / 256, c / 4);
  }

  lemma {:induction false} Quotient(m: int, c: int, d: int)
    requires 0 <= c && (d == 4 || d == 16 || d == 64)
    ensures (d * m + c) / d == m + c / d
  {}

  lemma {:induction false} Low6(k: int, r: int)
    requires 0 <= r < 64
    ensures (64 * k + r) % 64 == r
  {}

  /** After two octets the accumulator is theirs, but for a multiple of 65536. */
  lemma {:induction false} LastTwo(val: int, a: Octet, c: Octet) returns (q: int)
    requires 0 <= val && val % 256 == a
    ensures Shifted(val, c) == 65536 * q + a * 256 + c
  {
    var p := val / 256;
    var n := val * 256 + c;
    var k := n / WORD;
    q := p - 65536 * k;
    assert val == 256 * p + a;
  }

  lemma {:induction false} SecondSextet(val: int, a: Octet, c: Octet)
    requires 0 <= val && val % 256 == a
    ensures Sextet(Shifted(val, c), 4) == a % 4 * 16 + c / 16
  {
    var q := LastTwo(val, a, c);
    hide Shifted;
    Quotient(4096 * q + 16 * a, c, 16);
    Low6(64 * q + a / 4, a % 4 * 16 + c / 16);
  }

  lemma {:induction false} LastSextets(val: int, b: Octet, c: Octet)
    requires 0 <= val && val % 256 == b
    ensures Sextet(Shifted(val, c), 6) == b % 16 * 4 + c / 64
    ensures Sextet(Shifted(val, c), 0) == c % 64
  {
    var q := LastTwo(val, b, c);
    hide Shifted;
    Quotient(1024 * q + 4 * b, c, 64);
    Low6(16 * q + b / 16, b % 16 * 4 + c / 64);
    Low6(1024 * q + 4 * b + c / 64, c % 64);
  }

  /** The characters that are complete after some octets. */
  function Head(data: seq<Octet>): string
  {
    if |data| == 0 then ""
    else if |data| == 1 then [CharOf(data[0] / 4)]
    else if |data| == 2 then [CharOf(data[0] / 4), CharOf(data[0] % 4 * 16 + data[1] / 16)]
    else Group(data[0], data[1], data[2]) + Head(data[3..])
  }

  /** The characters one more octet completes. */
  function NewChars(data: seq<Octet>, c: Octet): string
  {
    if |data| % 3 == 0 then [CharOf(c / 4)]
    else if |data| % 3 == 1 then [CharOf(data[|data| - 1] % 4 * 16 + c / 16)]
    else [CharOf(data[|data| - 1] % 16 * 4 + c / 64), CharOf(c % 64)]
  }

  lemma {:induction false} HeadNext(data: seq<Octet>, c: Octet)
    ensures Head(data + [c]) == Head(data) + NewChars(data, c)
    decreases |data|
  {
    hide CharOf, Group;
    if |data| < 3 {
      HeadStart(data, c);
    } else {
      hide NewChars;
      HeadNext(data[3..], c);
      assert (data + [c])[3..] == data[3..] + [c];
      NewCharsLater(data, c);
    }
  }

  lemma {:induction false} HeadStart(data: seq<Octet>, c: Octet)
    requires |data| < 3
    ensures Head(data + [c]) == Head(data) + NewChars(data, c)
  {
    hide CharOf;
    if |data| == 2 { assert (data + [c])[3..] == []; }
  }

  lemma {:induction false} NewCharsLater(data: seq<Octet>, c: Octet)
    requires |data| >= 3
    ensures NewChars(data, c) == NewChars(data[3..], c)
  {
    hide CharOf;
    SameRemainder(|data|);
  }

  lemma {:induction false} SameRemainder(n: int)
    ensures (n - 3) % 3 == n % 3 && (n - 4) % 4 == n % 4
  {}

  lemma {:induction false} FinishLater(data: seq<Octet>)
    requires |data| >= 3
    ensures Finish(data) == Finish(data[3..])
  {
    hide CharOf;
    SameRemainder(|data|);
  }

  /** What follows the complete characters at the end. */
  function Finish(data: seq<Octet>): string
  {
    if |data| % 3 == 0 then ""
    else if |data| % 3 == 1 then [CharOf(data[|data| - 1] % 4 * 16), '=', '=']
    else [CharOf(data[|data| - 1] % 16 * 4), '=']
  }

  lemma {:induction false} HeadAndFinish(data: seq<Octet>)
    ensures Encoding(data) == Head(data) + Finish(data)
    ensures |Head(data)| % 4 == |data| % 3
    decreases |data|
  {
    hide CharOf, Group, Finish;
    if |data| < 3 {
      HeadAndFinishStart(data);
    } else {
      HeadAndFinish(data[3..]);
      FinishLater(data);
      SameRemainder(|data|);
      SameRemainder(|Head(data)|);
    }
  }

  lemma {:induction false} HeadAndFinishStart(data: seq<Octet>)
    requires |data| < 3
    ensures Encoding(data) == Head(data) + Finish(data) && |Head(data)| == |data|
  {
    hide CharOf;
  }

  method Encode(data: seq<Octet>) returns (out: string)
    ensures out == Encoding(data)
  {
    hide CharOf, Sextet, Shifted, Head, Encoding, NewChars, Finish;
    out := "";
    var val, valb := 0, -6;
    HeadOfNothing();
    for k := 0 to |data|
      invariant out == Head(data[..k])
      invariant valb == if k % 3 == 0 then -6 else if k % 3 == 1 then -4 else -2
      invariant 0 <= val && (k > 0 ==> val % 256 == data[k - 1])
    {
      ghost var before, old' := data[..k], val;
      var c := data[k];
      val := Shifted(val, c);
      valb := valb + 8;
      ghost var start := valb;
      while valb >= 0
        invariant valb == start || valb == start - 6 || (start == 6 && valb == -6)
        invariant valb == start ==> out == Head(before)
        invariant valb == start - 6 ==> out == Head(before) + [CharOf(Sextet(val, start))]
        invariant start == 6 && valb == -6 ==> out == Head(before) + [CharOf(Sextet(val, 6))] + [CharOf(Sextet(val, 0))]
      {
        out := out + [CharOf(Sextet(val, valb))];
        valb := valb - 6;
      }
      LastOctet(old', c);
      NextChars(before, old', c);
      HeadNext(before, c);
      assert data[..k + 1] == before + [c];
    }
    assert data[..|data|] == data;
    HeadAndFinish(data);
    FinishIs(data, val);
    if valb > -6 {
      out := out + [CharOf(Sextet(Shifted(val, 0), valb + 8))];
    }
    while |out| % 4 != 0
      invariant out <= Encoding(data) && |Head(data)| <= |out|
      invariant |data| % 3 != 0 ==> |Head(data)| < |out|
      decreases |Encoding(data)| - |out|
    {
      out := out + ['='];
    }
  }

  lemma {:induction false} HeadOfNothing()
    ensures Head([]) == ""
  {}

  lemma {:induction false} NextChars(data: seq<Octet>, val: int, c: Octet)
    requires 0 <= val && (data != [] ==> val % 256 == data[|data| - 1])
    ensures |data| % 3 == 0 ==> NewChars(data, c) == [CharOf(Sextet(Shifted(val, c), 2))]
    ensures |data| % 3 == 1 ==> NewChars(data, c) == [CharOf(Sextet(Shifted(val, c), 4))]
    ensures |data| % 3 == 2 ==> NewChars(data, c) == [CharOf(Sextet(Shifted(val, c), 6))] + [CharOf(Sextet(Shifted(val, c), 0))]
  {
    hide CharOf, Sextet, Shifted;
    if |data| % 3 == 0 {
      FirstSextet(val, c);
    } else if |data| % 3 == 1 {
      SecondSextet(val, data[|data| - 1], c);
    } else {
      LastSextets(val, data[|data| - 1], c);
    }
  }

  /** The last shift by eight brings in the zero bits. */
  lemma {:induction false} FinishIs(data: seq<Octet>, val: int)
    requires 0 <= val && (data != [] ==> val % 256 == data[|data| - 1])
    ensures |data| % 3 == 1 ==> Finish(data) == [CharOf(Sextet(Shifted(val, 0), 4)), '=', '=']
    ensures |data| % 3 == 2 ==> Finish(data) == [CharOf(Sextet(Shifted(val, 0), 6)), '=']
    ensures |data| % 3 == 0 ==> Finish(data) == ""
  {
    hide CharOf, Sextet, Shifted;
    if |data| % 3 == 1 {
      SecondSextet(val, data[|data| - 1], 0);
    } else if |data| % 3 == 2 {
      LastSextets(val, data[|data| - 1], 0);
    }
  }
}
