/** From a text to the data codewords of a symbol (sections 7.4.3 to 7.4.10 of ISO/IEC 18004:2015),
    and a reference reader that recovers the text from the codewords. */
module DataEncoding {
  import opened GaloisField
  import opened BitBuffers
  import opened Results
  import opened Segments
  import opened QrTables
  import opened Codewords

  // ---------- Sizes ----------

  predicate CountsFit(segs: seq<Segment>, version: nat)
    requires ValidVersion(version)
  {
    forall i :: 0 <= i < |segs| ==> segs[i].numChars < Exp2(CharCountBits(segs[i].mode, version))
  }

  function SegmentSize(seg: Segment, version: nat): nat
    requires ValidVersion(version)
  {
    4 + CharCountBits(seg.mode, version) + |seg.data|
  }

  function BitsNeeded(segs: seq<Segment>, version: nat): nat
    requires ValidVersion(version)
  {
    if segs == [] then 0
    else BitsNeeded(segs[..|segs| - 1], version) + SegmentSize(segs[|segs| - 1], version)
  }

  lemma {:induction false} BitsNeededPrefix(segs: seq<Segment>, k: nat, version: nat)
    requires ValidVersion(version) && k <= |segs|
    ensures BitsNeeded(segs[..k], version) <= BitsNeeded(segs, version)
    decreases |segs|
  {
    hide SegmentSize;
    var n := |segs|;
    if k < n {
      BitsNeededPrefix(segs[..n - 1], k, version);
      assert segs[..n - 1][..k] == segs[..k];
    } else {
      assert segs[..k] == segs;
    }
  }

  /** The size of the bit string, or -1 when a count does not fit its field or an int would overflow. */
  function TotalBits(segs: seq<Segment>, version: nat): int
    requires ValidVersion(version)
  {
    if CountsFit(segs, version) && BitsNeeded(segs, version) <= INT_MAX then BitsNeeded(segs, version) else -1
  }

  method GetTotalBits(segs: seq<Segment>, version: nat) returns (result: int)
    requires ValidVersion(version)
    ensures result == TotalBits(segs, version)
  {
    hide Exp2;
    result := 0;
    for k := 0 to |segs|
      invariant CountsFit(segs[..k], version)
      invariant result == BitsNeeded(segs[..k], version) <= INT_MAX
    {
      BitsNeededPrefix(segs, k + 1, version);
      assert segs[..k + 1][..k] == segs[..k];
      var ccbits := CharCountBits(segs[k].mode, version);
      if segs[k].numChars >= Exp2(ccbits) {
        return -1;
      }
      if 4 + ccbits > INT_MAX - result {
        return -1;
      }
      result := result + 4 + ccbits;
      if |segs[k].data| > INT_MAX - result {
        return -1;
      }
      result := result + |segs[k].data|;
    }
    assert segs[..|segs|] == segs;
  }

  function Capacity(version: nat, ecl: Ecc): (c: nat)
    requires ValidVersion(version)
    ensures c % 8 == 0
  {
    8 * NumDataCodewords(version, ecl)
  }

  predicate Fits(segs: seq<Segment>, version: nat, ecl: Ecc)
    requires ValidVersion(version)
  {
    0 <= TotalBits(segs, version) <= Capacity(version, ecl)
  }

  // ---------- The data bit string ----------

  function SegmentBits(seg: Segment, version: nat): (b: seq<bool>)
    requires ValidVersion(version)
    ensures |b| == SegmentSize(seg, version)
  {
    ToBits(ModeBits(seg.mode), 4) + ToBits(seg.numChars, CharCountBits(seg.mode, version)) + seg.data
  }

  function AllSegmentBits(segs: seq<Segment>, version: nat): (b: seq<bool>)
    requires ValidVersion(version)
    ensures |b| == BitsNeeded(segs, version)
  {
    if segs == [] then []
    else AllSegmentBits(segs[..|segs| - 1], version) + SegmentBits(segs[|segs| - 1], version)
  }

  function ZeroBits(n: nat): (b: seq<bool>)
    ensures |b| == n
  {
    seq(n, _ => false)
  }

  lemma {:induction false} ToBitsZero(n: nat)
    ensures ToBits(0, n) == ZeroBits(n)
  {
    if n == 0 {
    } else {
      ToBitsZero(n - 1);
    }
  }

  function TerminatorLength(used: nat, capacity: nat): nat
    requires used <= capacity
  {
    if capacity - used < 4 then capacity - used else 4
  }

  /** Zero bits that follow the segments: the terminator, then up to a byte boundary. */
  function ZeroLength(used: nat, capacity: nat): (n: nat)
    requires used <= capacity && capacity % 8 == 0
    ensures used + n <= capacity && (used + n) % 8 == 0
    ensures n >= 4 || used + n == capacity
  {
    var t := TerminatorLength(used, capacity);
    t + (8 - (used + t) % 8) % 8
  }

  function PadCount(used: nat, capacity: nat): (n: nat)
    requires used <= capacity && capacity % 8 == 0
    ensures used + ZeroLength(used, capacity) + 8 * n == capacity
  {
    (capacity - used - ZeroLength(used, capacity)) / 8
  }

  /** Alternating pad bytes 0xEC and 0x11. */
  function PadBits(n: nat): (b: seq<bool>)
    ensures |b| == 8 * n
  {
    if n == 0 then [] else PadBits(n - 1) + ToBits(if n % 2 == 1 then 0xEC else 0x11, 8)
  }

  function DataBits(segs: seq<Segment>, version: nat, capacity: nat): (b: seq<bool>)
    requires ValidVersion(version) && capacity % 8 == 0 && BitsNeeded(segs, version) <= capacity
    ensures |b| == capacity
  {
    var used := BitsNeeded(segs, version);
    AllSegmentBits(segs, version) + ZeroBits(ZeroLength(used, capacity)) + PadBits(PadCount(used, capacity))
  }

  // ---------- The encoder ----------

  datatype Encoded = Encoded(version: nat, ecl: Ecc, data: seq<Byte>)

  /** The highest of the levels above low that still holds the data, if boosting is asked for. */
  function BoostedLevel(segs: seq<Segment>, version: nat, ecl: Ecc, boost: bool): Ecc
    requires ValidVersion(version)
  {
    if !boost then ecl
    else if Fits(segs, version, High) then High
    else if Fits(segs, version, Quartile) then Quartile
    else if Fits(segs, version, Medium) then Medium
    else ecl
  }

  /** Boosting never lowers the level, and the data still fits. */
  lemma {:induction false} BoostingIsSafe(segs: seq<Segment>, version: nat, ecl: Ecc, boost: bool)
    requires ValidVersion(version) && Fits(segs, version, ecl)
    ensures Rank(BoostedLevel(segs, version, ecl, boost)) >= Rank(ecl)
    ensures Fits(segs, version, BoostedLevel(segs, version, ecl, boost))
    ensures boost ==> forall higher :: Rank(higher) > Rank(BoostedLevel(segs, version, ecl, boost)) ==> !Fits(segs, version, higher)
  {
    hide Fits;
  }

  /** The version is the smallest one in range that holds the segments. */
  ghost predicate SmallestFit(segs: seq<Segment>, ecl: Ecc, minVersion: int, maxVersion: int, version: nat)
  {
    && 1 <= minVersion <= version <= maxVersion <= 40
    && Fits(segs, version, ecl)
    && forall v :: minVersion <= v < version ==> !Fits(segs, v, ecl)
  }

  /** What the encoder delivers when it succeeds. */
  ghost predicate IsEncoding(e: Encoded, segs: seq<Segment>, ecl: Ecc, minVersion: int, maxVersion: int, boost: bool)
  {
    && SmallestFit(segs, ecl, minVersion, maxVersion, e.version)
    && e.ecl == BoostedLevel(segs, e.version, ecl, boost)
    && HoldsData(e, segs)
  }

  ghost predicate HoldsData(e: Encoded, segs: seq<Segment>)
  {
    && ValidVersion(e.version)
    && BitsNeeded(segs, e.version) <= Capacity(e.version, e.ecl)
    && ReadBits(e.data) == DataBits(segs, e.version, Capacity(e.version, e.ecl))
  }

  predicate ValidArguments(minVersion: int, maxVersion: int, mask: int)
  {
    1 <= minVersion <= maxVersion <= 40 && -1 <= mask <= 7
  }

  method EncodeSegments(segs: seq<Segment>, ecl: Ecc, minVersion: int, maxVersion: int, mask: int, boostEcl: bool)
    returns (r: Result<Encoded>)
    ensures r == Err(InvalidArgument) <==> !ValidArguments(minVersion, maxVersion, mask)
    ensures r == Err(DataTooLong) <==>
      ValidArguments(minVersion, maxVersion, mask) &&
      forall v :: minVersion <= v <= maxVersion ==> !Fits(segs, v, ecl)
    ensures r.Ok? ==> IsEncoding(r.value, segs, ecl, minVersion, maxVersion, boostEcl)
    ensures r.Err? ==> r.error == InvalidArgument || r.error == DataTooLong
  {
    if !(1 <= minVersion <= maxVersion <= 40) || mask < -1 || mask > 7 {
      return Err(InvalidArgument);
    }
    hide Fits, HoldsData;
    var version := FindVersion(segs, ecl, minVersion, maxVersion);
    if version == -1 {
      return Err(DataTooLong);
    }
    var level := BoostLevel(segs, version, ecl, boostEcl);
    BoostingIsSafe(segs, version, ecl, boostEcl);
    hide BoostedLevel;
    var data := BuildCodewords(segs, version, level);
    r := Ok(Encoded(version, level, data));
  }

  /** The first version in range that holds the segments, or -1. */
  method FindVersion(segs: seq<Segment>, ecl: Ecc, minVersion: int, maxVersion: int) returns (version: int)
    requires 1 <= minVersion <= maxVersion <= 40
    ensures version == -1 ==> forall v :: minVersion <= v <= maxVersion ==> !Fits(segs, v, ecl)
    ensures version != -1 ==> version >= 0 && SmallestFit(segs, ecl, minVersion, maxVersion, version)
  {
    hide Capacity, TotalBits;
    version := minVersion;
    while true
      invariant minVersion <= version <= maxVersion
      invariant forall v :: minVersion <= v < version ==> !Fits(segs, v, ecl)
      decreases maxVersion - version
    {
      var used := GetTotalBits(segs, version);
      TotalBitsSign(segs, version);
      assert Fits(segs, version, ecl) <==> used != -1 && used <= Capacity(version, ecl);
      if used != -1 && used <= Capacity(version, ecl) {
        return;
      }
      if version >= maxVersion {
        return -1;
      }
      version := version + 1;
    }
  }

  /** Raises the level while the data still fits in the version. */
  method BoostLevel(segs: seq<Segment>, version: nat, ecl: Ecc, boost: bool) returns (level: Ecc)
    requires ValidVersion(version) && Fits(segs, version, ecl)
    ensures level == BoostedLevel(segs, version, ecl, boost)
  {
    hide Capacity, TotalBits;
    var used := GetTotalBits(segs, version);
    level := ecl;
    if boost && used <= Capacity(version, Medium) { level := Medium; }
    if boost && used <= Capacity(version, Quartile) { level := Quartile; }
    if boost && used <= Capacity(version, High) { level := High; }
  }

  lemma {:induction false} TotalBitsSign(segs: seq<Segment>, version: nat)
    requires ValidVersion(version)
    ensures TotalBits(segs, version) >= -1
  {
    hide BitsNeeded, CountsFit;
  }

  lemma {:induction false} FitsMeans(segs: seq<Segment>, version: nat, ecl: Ecc)
    requires ValidVersion(version) && Fits(segs, version, ecl)
    ensures CountsFit(segs, version) && BitsNeeded(segs, version) <= Capacity(version, ecl)
  {
    hide BitsNeeded, CountsFit, Capacity;
  }

  /** Concatenates the segments, terminates and pads them, and packs the bits into bytes. */
  method BuildCodewords(segs: seq<Segment>, version: nat, ecl: Ecc) returns (data: seq<Byte>)
    requires ValidVersion(version) && Fits(segs, version, ecl)
    ensures HoldsData(Encoded(version, ecl, data), segs)
  {
    hide Fits, CountsFit, BitsNeeded, AllSegmentBits, PadBits, ZeroBits, Capacity, ZeroLength, PadCount, ReadBits;
    FitsMeans(segs, version, ecl);
    var bb := new BitBuffer();
    ConcatenateSegments(bb, segs, version);
    var capacity := Capacity(version, ecl);
    AppendTerminator(bb, capacity);
    FillWithPadBytes(bb, capacity);
    data := Pack(bb.bits);
  }

  /** Adds the terminator and the zero bits up to a whole byte. */
  method AppendTerminator(bb: BitBuffer, capacity: nat)
    requires |bb.bits| <= capacity && capacity % 8 == 0
    modifies bb
    ensures bb.bits == old(bb.bits) + ZeroBits(ZeroLength(|old(bb.bits)|, capacity))
  {
    var terminator := if 4 < capacity - |bb.bits| then 4 else capacity - |bb.bits|;
    AppendZeros(bb, terminator);
    AppendZeros(bb, (8 - |bb.bits| % 8) % 8);
  }

  lemma {:induction false} NextSegmentBits(segs: seq<Segment>, k: nat, version: nat)
    requires ValidVersion(version) && k < |segs|
    ensures AllSegmentBits(segs[..k + 1], version) == AllSegmentBits(segs[..k], version) + SegmentBits(segs[k], version)
  {
    hide SegmentBits, SegmentSize;
    assert segs[..k + 1][..k] == segs[..k];
  }

  method ConcatenateSegments(bb: BitBuffer, segs: seq<Segment>, version: nat)
    requires ValidVersion(version) && CountsFit(segs, version) && bb.bits == []
    modifies bb
    ensures bb.bits == AllSegmentBits(segs, version)
  {
    hide Exp2, CharCountBits, SegmentBits, SegmentSize;
    for k := 0 to |segs|
      invariant bb.bits == AllSegmentBits(segs[..k], version)
    {
      NextSegmentBits(segs, k, version);
      AppendSegment(bb, segs[k], version);
    }
    assert segs[..|segs|] == segs;
  }

  method AppendSegment(bb: BitBuffer, seg: Segment, version: nat)
    requires ValidVersion(version) && seg.numChars < Exp2(CharCountBits(seg.mode, version))
    modifies bb
    ensures bb.bits == old(bb.bits) + SegmentBits(seg, version)
  {
    Exp2Values();
    hide ToBits, Exp2, CharCountBits;
    var ccbits := CharCountBits(seg.mode, version);
    Exp2Small(ccbits);
    var okMode := bb.AppendBits(ModeBits(seg.mode), 4);
    var okCount := bb.AppendBits(seg.numChars, ccbits);
    bb.Append(seg.data);
  }

  method AppendZeros(bb: BitBuffer, n: nat)
    requires n < 8
    modifies bb
    ensures bb.bits == old(bb.bits) + ZeroBits(n)
  {
    ToBitsZero(n);
    hide ToBits, Exp2;
    var ok := bb.AppendBits(0, n);
  }

  method FillWithPadBytes(bb: BitBuffer, capacity: nat)
    requires |bb.bits| <= capacity && capacity % 8 == 0 && |bb.bits| % 8 == 0
    modifies bb
    ensures bb.bits == old(bb.bits) + PadBits((capacity - |old(bb.bits)|) / 8)
  {
    hide ToBits, Exp2, PadBits;
    ghost var start, total := bb.bits, (capacity - |bb.bits|) / 8;
    assert |start| + 8 * total == capacity;
    var padByte := 0xEC;
    ghost var n := 0;
    assert PadBits(0) == [];
    while |bb.bits| < capacity
      invariant n <= total
      invariant bb.bits == start + PadBits(n)
      invariant padByte == if n % 2 == 0 then 0xEC else 0x11
      decreases total - n
    {
      Exp2Values();
      var ok := bb.AppendBits(padByte, 8);
      PadBitsNext(n);
      n := n + 1;
      padByte := if padByte == 0xEC then 0x11 else 0xEC;
    }
  }

  lemma {:induction false} PadBitsNext(n: nat)
    ensures PadBits(n + 1) == PadBits(n) + ToBits(if n % 2 == 0 then 0xEC else 0x11, 8)
  {
    hide ToBits;
  }

  // ---------- The reference reader ----------

  datatype TextReading = Text(chars: seq<Octet>) | Unreadable

  function ModeOf(indicator: nat): (m: Mode)
    requires indicator == 1 || indicator == 2 || indicator == 4
    ensures ModeBits(m) == indicator
  {
    if indicator == 1 then Numeric else if indicator == 2 then Alphanumeric else Byte
  }

  /** Reads segments up to the terminator or the end of the bits. */
  function ReadText(bits: seq<bool>, version: nat): TextReading
    requires ValidVersion(version)
    decreases |bits|
  {
    if |bits| < 4 || FromBits(bits[..4]) == 0 then Text([])
    else
      var indicator := FromBits(bits[..4]);
      if !(indicator == 1 || indicator == 2 || indicator == 4) then Unreadable
      else ReadSegment(ModeOf(indicator), bits[4..], version)
  }

  /** The width a reader expects of the character count (Table 3 of section 7.4.1). */
  function FieldWidth(m: Mode, version: nat): nat
  {
    if version <= 9 then
      match m
      case Numeric => 10
      case Alphanumeric => 9
      case Byte => 8
    else if version <= 26 then
      match m
      case Numeric => 12
      case Alphanumeric => 11
      case Byte => 16
    else
      match m
      case Numeric => 14
      case Alphanumeric => 13
      case Byte => 16
  }

  /** The encoder's fields are as wide as a reader expects. */
  lemma {:induction false} WidthsAgree(m: Mode, version: nat)
    requires ValidVersion(version)
    ensures CharCountBits(m, version) == FieldWidth(m, version)
  {}

  function ReadSegment(m: Mode, bits: seq<bool>, version: nat): TextReading
    requires ValidVersion(version)
    decreases |bits|
  {
    var w := FieldWidth(m, version);
    if |bits| < w then Unreadable
    else
      match ReadPayload(m, bits[w..], FromBits(bits[..w]))
      case Malformed => Unreadable
      case Read(chars, rest) =>
        match ReadText(rest, version)
        case Unreadable => Unreadable
        case Text(more) => Text(chars + more)
  }

  /** Characters in a mode, from which a segment is made. */
  datatype Part = Part(mode: Mode, text: seq<Octet>)

  predicate Makes(seg: Segment, part: Part)
  {
    AllEncodable(part.mode, part.text) && seg == MakeSegment(part.mode, part.text)
  }

  predicate AllMake(segs: seq<Segment>, parts: seq<Part>)
  {
    |segs| == |parts| && forall i :: 0 <= i < |segs| ==> Makes(segs[i], parts[i])
  }

  function WholeText(parts: seq<Part>): seq<Octet>
  {
    if parts == [] then [] else parts[0].text + WholeText(parts[1..])
  }

  ghost predicate Terminated(bits: seq<bool>)
  {
    |bits| < 4 || bits[..4] == ZeroBits(4)
  }

  lemma {:induction false} TerminatedReadsEmpty(bits: seq<bool>, version: nat)
    requires ValidVersion(version) && Terminated(bits)
    ensures ReadText(bits, version) == Text([])
  {
    if |bits| >= 4 {
      ToBitsZero(4);
      Exp2Values();
      FromToBits(0, 4);
    }
  }

  lemma {:induction false} ReadCounted(m: Mode, text: seq<Octet>, rest: seq<bool>, more: seq<Octet>, version: nat)
    requires ValidVersion(version) && AllEncodable(m, text)
    requires |text| < Exp2(CharCountBits(m, version))
    requires ReadText(rest, version) == Text(more)
    ensures ReadSegment(m, ToBits(|text|, CharCountBits(m, version)) + (Payload(m, text) + rest), version)
         == Text(text + more)
  {
    hide ReadText, ReadPayload, Payload, ToBits, FromBits, Exp2, CharCountBits, FieldWidth, AllEncodable;
    var w := CharCountBits(m, version);
    WidthsAgree(m, version);
    var count, after := ToBits(|text|, w), Payload(m, text) + rest;
    FromToBits(|text|, w);
    PayloadRoundTrip(m, text, rest);
    assert (count + after)[..w] == count && (count + after)[w..] == after;
  }

  lemma {:induction false} ReadHeaded(m: Mode, tail: seq<bool>, version: nat)
    requires ValidVersion(version)
    ensures ReadText(ToBits(ModeBits(m), 4) + tail, version) == ReadSegment(m, tail, version)
  {
    Exp2Values();
    hide ReadSegment, ToBits, FromBits, Exp2;
    var head := ToBits(ModeBits(m), 4);
    FromToBits(ModeBits(m), 4);
    assert (head + tail)[..4] == head && (head + tail)[4..] == tail;
  }

  lemma {:induction false} ReadOneSegment(seg: Segment, part: Part, rest: seq<bool>, more: seq<Octet>, version: nat)
    requires ValidVersion(version) && Makes(seg, part)
    requires seg.numChars < Exp2(CharCountBits(seg.mode, version))
    requires ReadText(rest, version) == Text(more)
    ensures ReadText(SegmentBits(seg, version) + rest, version) == Text(part.text + more)
  {
    hide ReadText, ReadSegment, Payload, ToBits, Exp2, CharCountBits, AllEncodable, ModeBits;
    var m, w := seg.mode, CharCountBits(seg.mode, version);
    var head, count := ToBits(ModeBits(m), 4), ToBits(seg.numChars, w);
    ReadCounted(m, part.text, rest, more, version);
    ReadHeaded(m, count + (seg.data + rest), version);
    assert SegmentBits(seg, version) + rest == head + (count + (seg.data + rest));
  }

  lemma {:induction false} LastSegmentBits(segs: seq<Segment>, version: nat)
    requires ValidVersion(version) && segs != []
    ensures AllSegmentBits(segs, version) == AllSegmentBits(segs[..|segs| - 1], version) + SegmentBits(segs[|segs| - 1], version)
  {
    hide SegmentBits, SegmentSize;
  }

  lemma {:induction false} NoSegmentBits(version: nat)
    requires ValidVersion(version)
    ensures AllSegmentBits([], version) == []
  {}

  lemma {:induction false} FirstSegmentBits(segs: seq<Segment>, version: nat)
    requires ValidVersion(version) && segs != []
    ensures AllSegmentBits(segs, version) == SegmentBits(segs[0], version) + AllSegmentBits(segs[1..], version)
  {
    hide *;
    NoSegmentBits(version);
    LastSegmentBits(segs, version);
    var n := |segs| - 1;
    if n == 0 {
      assert segs[..n] == [] && segs[1..] == [];
    } else {
      FirstSegmentBits(segs[..n], version);
      LastSegmentBits(segs[1..], version);
      assert segs[..n][1..] == segs[1..][..n - 1];
      assert segs[1..][n - 1] == segs[n];
    }
  }

  /** A list of segments reads back as the concatenation of their texts, whatever follows the terminator. */
  lemma {:induction false} SegmentsRoundTrip(segs: seq<Segment>, parts: seq<Part>, tail: seq<bool>, version: nat)
    requires ValidVersion(version) && AllMake(segs, parts) && CountsFit(segs, version) && Terminated(tail)
    ensures ReadText(AllSegmentBits(segs, version) + tail, version) == Text(WholeText(parts))
    decreases |segs|
  {
    hide ReadText, SegmentBits, SegmentSize, Makes, Terminated, Exp2, CharCountBits;
    if segs == [] {
      assert [] + tail == tail;
      TerminatedReadsEmpty(tail, version);
    } else {
      SegmentsRoundTrip(segs[1..], parts[1..], tail, version);
      FirstSegmentBits(segs, version);
      var first, others := SegmentBits(segs[0], version), AllSegmentBits(segs[1..], version);
      ReadOneSegment(segs[0], parts[0], others + tail, WholeText(parts[1..]), version);
      hide AllSegmentBits;
      assert AllSegmentBits(segs, version) + tail == first + (others + tail);
    }
  }

  /** Reading the data codewords recovers the text the segments were made from. */
  lemma {:induction false} DataRoundTrip(e: Encoded, segs: seq<Segment>, parts: seq<Part>)
    requires HoldsData(e, segs) && AllMake(segs, parts) && CountsFit(segs, e.version)
    ensures ReadText(ReadBits(e.data), e.version) == Text(WholeText(parts))
  {
    hide ReadText, AllMake, CountsFit, ReadBits, AllSegmentBits, BitsNeeded, Capacity, PadBits, ZeroLength, PadCount;
    var used, capacity := BitsNeeded(segs, e.version), Capacity(e.version, e.ecl);
    var tail := ZeroBits(ZeroLength(used, capacity)) + PadBits(PadCount(used, capacity));
    assert Terminated(tail);
    SegmentsRoundTrip(segs, parts, tail, e.version);
    assert DataBits(segs, e.version, capacity) == AllSegmentBits(segs, e.version) + tail;
  }

  /** The parts of a text: none if it is empty, else one in its best mode. */
  function PartsOf(text: seq<Octet>): seq<Part>
  {
    if text == [] then [] else [Part(BestMode(text), text)]
  }

  lemma {:induction false} PartsMakeText(text: seq<Octet>)
    ensures WholeText(PartsOf(text)) == text
  {
    if text != [] {
      assert PartsOf(text)[1..] == [];
      assert text + [] == text;
    }
  }

  lemma {:induction false} BestModeEncodes(text: seq<Octet>)
    ensures AllEncodable(BestMode(text), text)
  {}

  function SegmentsOf(text: seq<Octet>): seq<Segment>
  {
    if text == [] then [] else [MakeSegment(BestMode(text), text)]
  }

  /** The data part of encoding a text, with the default version range and boosting. */
  method EncodeText(text: seq<Octet>, ecl: Ecc) returns (r: Result<Encoded>)
    requires 0 !in text
    ensures r.Ok? ==> IsEncoding(r.value, SegmentsOf(text), ecl, 1, 40, true)
    ensures r.Ok? ==> ReadText(ReadBits(r.value.data), r.value.version) == Text(text)
    ensures r.Err? <==> (BestMode(text) == Byte && |text| > INT_MAX) || forall v :: 1 <= v <= 40 ==> !Fits(SegmentsOf(text), v, ecl)
  {
    hide Fits, HoldsData, BestMode, MakeSegment, BoostedLevel, ReadText, ReadBits;
    var segs := MakeSegments(text);
    if segs.Err? {
      return Err(segs.error);
    }
    r := EncodeSegments(segs.value, ecl, 1, 40, -1, true);
    if r.Ok? {
      BestModeEncodes(text);
      PartsMakeText(text);
      FitsMeans(segs.value, r.value.version, ecl);
      DataRoundTrip(r.value, segs.value, PartsOf(text));
    }
  }
}
