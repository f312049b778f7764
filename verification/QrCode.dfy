/** Making a whole symbol from data codewords, and from a text. */
module QrCode {
  import opened GaloisField
  import opened Results
  import opened Segments
  import opened Grids
  import opened QrTables
  import opened FormatInfo
  import opened Codewords
  import opened FunctionPatterns
  import opened Painting
  import opened Symbol
  import opened Interleaving
  import opened DataEncoding
  import opened Reader

  /** The mask is the best for the message on the function patterns. */
  ghost predicate IsBestFor(version: nat, ecl: Ecc, data: seq<Byte>, mask: nat)
    requires ValidVersion(version)
  {
    mask < 8 && exists base, message :: (
      && IsBase(base, version, ecl) && IsFinalMessage(message, data, version, ecl)
      && IsBestMask(Filled(base, message, version), FunctionGrid(version), SizeOf(version), ecl, mask))
  }

  lemma {:induction false} FilledShowsFormat(base: Grid, message: seq<Byte>, version: nat, ecl: Ecc)
    requires ValidVersion(version) && IsBase(base, version, ecl)
    ensures var g := Filled(base, message, version); g == WithFormat(g, SizeOf(version), FormatWord(ecl, 0))
  {
    hide Get, FunctionCell, Filled, FunctionGrid, FormatCell, FormatDark, FormatWord, WithFormat, PatternsShown, LightElsewhere;
    var size, g := SizeOf(version), Filled(base, message, version);
    forall c | InGrid(c, size) && FormatCell(c, size) ensures Get(g, size, c) == FormatDark(c, size, FormatWord(ecl, 0)) {
      FormatIsMarked(version);
      assert FunctionCell(c, version);
      FilledKeeps(base, message, version, c);
    }
    SameGrid(g, WithFormat(g, size, FormatWord(ecl, 0)), size);
  }

  /** Draws the function patterns and the codewords on a blank symbol. */
  method DrawModules(q: QrSymbol, data: seq<Byte>) returns (r: Result<bool>, ghost base: Grid, ghost message: seq<Byte>)
    requires q.Valid() && Blank(q.modules, q.isFunction, q.size)
    modifies q
    ensures q.Valid()
    ensures r == Err(InvalidArgument) <==> |data| != NumDataCodewords(q.version, q.ecl)
    ensures r == Ok(true) <==> |data| == NumDataCodewords(q.version, q.ecl)
    ensures r.Ok? ==> IsBase(base, q.version, q.ecl) && IsFinalMessage(message, data, q.version, q.ecl)
    ensures r.Ok? ==> q.modules == Filled(base, message, q.version) && q.isFunction == FunctionGrid(q.version)
  {
    var version, size := q.version, q.size;
    hide *;
    q.DrawFunctionPatterns();
    base := q.modules;
    ValidParts(q);
    MarkedIsFunctionGrid(q.isFunction, version);
    BaseParts(base, version, q.ecl);
    var all := AddEccAndInterleave(data, version, q.ecl);
    if all.Err? {
      message := [];
      return Err(all.error), base, message;
    }
    message := all.value;
    MessageLength(message, data, version, q.ecl);
    r := q.DrawCodewords(all.value);
    ScanRoom(version);
    RoomForMessage(version);
    FilledIs(base, message, version);
  }

  lemma {:induction false} ValidParts(q: QrSymbol)
    requires q.Valid()
    ensures ValidVersion(q.version) && q.size == SizeOf(q.version) && Square(q.modules, q.size) && Square(q.isFunction, q.size)
  {}

  lemma {:induction false} BaseParts(base: Grid, version: nat, ecl: Ecc)
    requires ValidVersion(version) && Square(base, SizeOf(version))
    requires PatternsShown(base, SizeOf(version), version) && ShowsFormat(base, SizeOf(version), ecl, 0)
    requires LightElsewhere(base, SizeOf(version), version)
    ensures IsBase(base, version, ecl)
  {
    hide PatternsShown, ShowsFormat, LightElsewhere;
  }

  lemma {:induction false} SymbolMade(g: Grid, base: Grid, message: seq<Byte>, version: nat, ecl: Ecc, data: seq<Byte>, mask: nat)
    requires ValidVersion(version) && IsBase(base, version, ecl) && IsFinalMessage(message, data, version, ecl) && mask < 8
    requires g == Candidate(Filled(base, message, version), FunctionGrid(version), SizeOf(version), ecl, mask)
    ensures IsSymbol(g, version, ecl, data, mask)
    ensures IsBestMask(Filled(base, message, version), FunctionGrid(version), SizeOf(version), ecl, mask) ==>
            IsBestFor(version, ecl, data, mask)
  {
    hide IsBase, IsFinalMessage, Candidate, Filled, FunctionGrid, IsBestMask;
    assert IsSymbolFrom(g, base, message, version, ecl, data, mask);
  }

  method MakeValidSymbol(version: nat, ecl: Ecc, data: seq<Byte>, msk: int) returns (r: Result<QrSymbol>)
    requires ValidVersion(version) && -1 <= msk <= 7
    ensures r == Err(InvalidArgument) <==> |data| != NumDataCodewords(version, ecl)
    ensures r.Err? ==> r.error == InvalidArgument
    ensures r.Ok? ==> fresh(r.value) && r.value.version == version && r.value.size == SizeOf(version) && r.value.ecl == ecl
    ensures r.Ok? ==> 0 <= r.value.mask < 8 && IsSymbol(r.value.modules, version, ecl, data, r.value.mask)
    ensures r.Ok? && msk != -1 ==> r.value.mask == msk
    ensures r.Ok? && msk == -1 ==> IsBestFor(version, ecl, data, r.value.mask)
    ensures r.Ok? ==> r.value.isFunction == []
  {
    hide *;
    var q := new QrSymbol(version, ecl);
    var drawn;
    ghost var base, message;
    drawn, base, message := DrawModules(q, data);
    if drawn.Err? {
      return Err(drawn.error);
    }
    FormatIsMarked(version);
    FilledShowsFormat(base, message, version, ecl);
    ValidParts(q);
    var mask := q.FinishMask(msk);
    SymbolMade(q.modules, base, message, version, ecl, data, mask);
    q.mask := mask;
    q.isFunction := [];
    r := Ok(q);
  }

  /** Makes the symbol of data codewords; a mask of -1 asks for the best one. */
  method MakeSymbol(version: int, ecl: Ecc, data: seq<Byte>, msk: int) returns (r: Result<QrSymbol>)
    ensures r == Err(DomainError) <==> !(1 <= version <= 40) || !(-1 <= msk <= 7)
    ensures r == Err(InvalidArgument) <==> 1 <= version <= 40 && -1 <= msk <= 7 && |data| != NumDataCodewords(version, ecl)
    ensures r.Err? ==> r.error == DomainError || r.error == InvalidArgument
    ensures r.Ok? ==> fresh(r.value) && r.value.version == version && r.value.size == SizeOf(version) && r.value.ecl == ecl
    ensures r.Ok? ==> 0 <= r.value.mask < 8 && IsSymbol(r.value.modules, version, ecl, data, r.value.mask)
    ensures r.Ok? && msk != -1 ==> r.value.mask == msk
    ensures r.Ok? && msk == -1 ==> IsBestFor(version, ecl, data, r.value.mask)
    ensures r.Ok? ==> r.value.isFunction == []
  {
    hide IsSymbol, IsBestFor, NumDataCodewords;
    if version < 1 || version > 40 {
      return Err(DomainError);
    }
    if msk < -1 || msk > 7 {
      return Err(DomainError);
    }
    r := MakeValidSymbol(version, ecl, data, msk);
  }

  /** A text is encoded in the smallest version that holds it, and every symbol made from it reads
      back as the text. */
  method EncodeTextSymbol(text: seq<Octet>, ecl: Ecc) returns (r: Result<QrSymbol>)
    requires 0 !in text
    ensures r.Err? <==> (BestMode(text) == Byte && |text| > INT_MAX) || forall v :: 1 <= v <= 40 ==> !Fits(SegmentsOf(text), v, ecl)
    ensures r.Ok? ==> SmallestFit(SegmentsOf(text), ecl, 1, 40, r.value.version)
    ensures r.Ok? ==> r.value.ecl == BoostedLevel(SegmentsOf(text), r.value.version, ecl, true)
    ensures r.Ok? ==> ReadSymbol(r.value.modules) == Text(text)
    ensures r.Ok? ==> PatternsShownBy(r.value.modules, r.value.version)
    ensures r.Ok? ==> BestSymbolOf(text, ecl, r.value.modules, r.value.version, r.value.ecl, r.value.mask)
  {
    hide *;
    var e := EncodeText(text, ecl);
    if e.Err? {
      return Err(e.error);
    }
    EncodingParts(e.value, text, ecl);
    r := MakeSymbol(e.value.version, e.value.ecl, e.value.data, -1);
    assert r.Ok?;
    ghost var q := r.value;
    SymbolRoundTrip(q.modules, q.version, q.ecl, e.value.data, q.mask);
    SymbolShowsPatterns(q.modules, q.version, q.ecl, e.value.data, q.mask);
    PatternsBy(q.modules, q.version);
    BestBy(text, ecl, q.modules, e.value, q.mask);
  }

  /** The symbol of the data codewords that encode the text, under the mask of least penalty. */
  ghost predicate BestSymbolOf(text: seq<Octet>, ecl: Ecc, g: Grid, version: nat, boosted: Ecc, mask: int)
  {
    ValidVersion(version) && 0 <= mask && exists data :: (
      && IsEncoding(Encoded(version, boosted, data), SegmentsOf(text), ecl, 1, 40, true)
      && IsSymbol(g, version, boosted, data, mask) && IsBestFor(version, boosted, data, mask))
  }

  lemma {:induction false} BestBy(text: seq<Octet>, ecl: Ecc, g: Grid, e: Encoded, mask: nat)
    requires ValidVersion(e.version) && IsEncoding(e, SegmentsOf(text), ecl, 1, 40, true)
    requires IsSymbol(g, e.version, e.ecl, e.data, mask) && IsBestFor(e.version, e.ecl, e.data, mask)
    ensures BestSymbolOf(text, ecl, g, e.version, e.ecl, mask)
  {
    hide IsEncoding, SegmentsOf, IsSymbol, IsBestFor;
    assert IsEncoding(Encoded(e.version, e.ecl, e.data), SegmentsOf(text), ecl, 1, 40, true);
  }

  ghost predicate PatternsShownBy(g: Grid, version: nat)
  {
    ValidVersion(version) && Square(g, SizeOf(version)) && PatternsShown(g, SizeOf(version), version)
  }

  lemma {:induction false} PatternsBy(g: Grid, version: nat)
    requires ValidVersion(version) && Square(g, SizeOf(version)) && PatternsShown(g, SizeOf(version), version)
    ensures PatternsShownBy(g, version)
  {
    hide PatternsShown;
  }

  lemma {:induction false} EncodingParts(e: Encoded, text: seq<Octet>, ecl: Ecc)
    requires IsEncoding(e, SegmentsOf(text), ecl, 1, 40, true)
    ensures SmallestFit(SegmentsOf(text), ecl, 1, 40, e.version)
    ensures ValidVersion(e.version) && 1 <= e.version <= 40
    ensures e.ecl == BoostedLevel(SegmentsOf(text), e.version, ecl, true)
    ensures |e.data| == NumDataCodewords(e.version, e.ecl)
  {
    hide SegmentsOf, BoostedLevel, Fits, ReadBits, NumDataCodewords, AllSegmentBits;
    assert |ReadBits(e.data)| == Capacity(e.version, e.ecl);
  }
}
