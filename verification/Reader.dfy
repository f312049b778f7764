/** A reader of finished symbols, written from the standard's side: it is given only the grid of
    modules. The theorems say that it gets the text back from every symbol the encoder makes, and that
    damage up to the limits of the error correction does not matter. */
module Reader {
  import opened GaloisField
  import opened Grids
  import opened QrTables
  import opened FormatInfo
  import opened Zigzag
  import opened Codewords
  import opened FunctionPatterns
  import opened Painting
  import opened Symbol
  import opened Masks
  import opened Interleaving
  import opened DataEncoding
  import CodeDistance

  // ---------- The function modules as a grid ----------

  ghost function FunctionGrid(version: nat): (fun: Grid)
    requires ValidVersion(version)
    ensures Square(fun, SizeOf(version)) && FunctionsMarked(fun, SizeOf(version), version)
  {
    var size := SizeOf(version);
    seq(size, y requires 0 <= y < size => seq(size, x requires 0 <= x < size => FunctionCell(Cell(x, y), version)))
  }

  lemma {:induction false} MarkedIsFunctionGrid(f: Grid, version: nat)
    requires ValidVersion(version) && Square(f, SizeOf(version)) && FunctionsMarked(f, SizeOf(version), version)
    ensures f == FunctionGrid(version)
  {
    hide FunctionGrid, Get, FunctionCell;
    SameGrid(f, FunctionGrid(version), SizeOf(version));
  }

  // ---------- Room for the codewords ----------

  ghost function FreeCells(fun: Grid, size: nat, cells: seq<Cell>): set<Cell>
    requires Square(fun, size) && AllIn(cells, size)
  {
    set c | c in cells && !Get(fun, size, c)
  }

  lemma {:induction false} FreeCountIsSize(fun: Grid, size: nat, cells: seq<Cell>)
    requires Square(fun, size) && AllIn(cells, size) && Distinct(cells)
    ensures FreeCount(fun, size, cells) == |FreeCells(fun, size, cells)|
  {
    hide Get;
    if cells == [] {
      assert FreeCells(fun, size, cells) == {};
    } else {
      var first, rest := cells[0], cells[1..];
      FreeCountIsSize(fun, size, rest);
      assert first !in rest;
      assert cells == [first] + rest;
      if Get(fun, size, first) {
        assert FreeCells(fun, size, cells) == FreeCells(fun, size, rest);
      } else {
        assert FreeCells(fun, size, cells) == FreeCells(fun, size, rest) + {first};
      }
    }
  }

  lemma {:induction false} ScanInGrid(size: nat)
    requires size >= 9 && size % 2 == 1
    ensures AllIn(Scan(size), size) && Distinct(Scan(size))
  {
    hide Scan;
    ScanVisits(size);
    forall i | 0 <= i < |Scan(size)| ensures InGrid(Scan(size)[i], size) { assert Scan(size)[i] in Scan(size); }
  }

  /** The modules the scan may write are exactly those the capacity formula counts. */
  lemma {:induction false} ScanRoom(version: nat)
    requires ValidVersion(version)
    ensures AllIn(Scan(SizeOf(version)), SizeOf(version))
    ensures FreeCount(FunctionGrid(version), SizeOf(version), Scan(SizeOf(version))) == NumRawDataModules(version)
  {
    hide Scan, FreeCount, FunctionGrid, FunctionCell, FunctionSet, AllCells, NumRawDataModules, Get;
    var size := SizeOf(version);
    ScanInGrid(size);
    ScanVisits(size);
    var fun, cells := FunctionGrid(version), Scan(size);
    FreeCountIsSize(fun, size, cells);
    AllCellsSize(size);
    forall c ensures c in FreeCells(fun, size, cells) <==> c in AllCells(size) - FunctionSet(version) {
      if InGrid(c, size) {
        FunctionSetMembers(version, c);
        ColumnSix(version, c);
      }
    }
    assert FreeCells(fun, size, cells) == AllCells(size) - FunctionSet(version);
    FreeModules(version);
  }

  lemma {:induction false} ColumnSix(version: nat, c: Cell)
    requires ValidVersion(version)
    ensures c.x == 6 ==> FunctionCell(c, version)
  {}

  lemma {:induction false} RoomForMessage(version: nat)
    requires ValidVersion(version)
    ensures 8 * RawCodewords(version) <= NumRawDataModules(version)
  {}

  // ---------- What a finished symbol is ----------

  /** Function patterns on a blank symbol. */
  ghost predicate IsBase(base: Grid, version: nat, ecl: Ecc)
    requires ValidVersion(version)
  {
    var size := SizeOf(version);
    && Square(base, size) && PatternsShown(base, size, version) && ShowsFormat(base, size, ecl, 0)
    && LightElsewhere(base, size, version)
  }

  /** The message placed along the scan. */
  ghost function Filled(base: Grid, message: seq<Byte>, version: nat): (g: Grid)
    requires ValidVersion(version) && Square(base, SizeOf(version))
    ensures Square(g, SizeOf(version))
  {
    var size := SizeOf(version);
    ScanInGrid(size);
    Place(base, FunctionGrid(version), size, Scan(size), ReadBits(message))
  }

  /** The symbol of data codewords under a mask. */
  ghost predicate IsSymbolFrom(g: Grid, base: Grid, message: seq<Byte>, version: nat, ecl: Ecc, data: seq<Byte>, mask: nat)
    requires ValidVersion(version)
  {
    && IsBase(base, version, ecl) && IsFinalMessage(message, data, version, ecl) && mask < 8
    && g == Candidate(Filled(base, message, version), FunctionGrid(version), SizeOf(version), ecl, mask)
  }

  ghost predicate IsSymbol(g: Grid, version: nat, ecl: Ecc, data: seq<Byte>, mask: nat)
    requires ValidVersion(version)
  {
    exists base, message :: IsSymbolFrom(g, base, message, version, ecl, data, mask)
  }

  /** The function patterns leave nothing open. */
  lemma {:induction false} BaseUnique(a: Grid, b: Grid, version: nat, ecl: Ecc)
    requires ValidVersion(version) && IsBase(a, version, ecl) && IsBase(b, version, ecl)
    ensures a == b
  {
    hide Get, PatternShownAt, FunctionCell, FormatCell, FormatDark, FormatWord;
    var size := SizeOf(version);
    forall c | InGrid(c, size) ensures Get(a, size, c) == Get(b, size, c) {
      if FunctionCell(c, version) && !FormatCell(c, size) { PatternColour(a, b, size, version, c); }
    }
    SameGrid(a, b, size);
  }

  lemma {:induction false} PatternColour(a: Grid, b: Grid, size: nat, version: nat, c: Cell)
    requires ValidVersion(version) && size == SizeOf(version) && Square(a, size) && Square(b, size) && InGrid(c, size)
    requires FunctionCell(c, version) && !FormatCell(c, size)
    requires PatternShownAt(a, size, version, c) && PatternShownAt(b, size, version, c)
    ensures Get(a, size, c) == Get(b, size, c)
  {
    hide Get, FinderDark, TimingInk, VersionInk, NumAlign, AlignNear, AlignColour, FormatCell;
    if !FinderCell(c, size) && AlignCell(c, version) {
      var i: nat, j: nat :| AlignIndices(NumAlign(version), i, j) && AlignNear(version, c, i, j);
    }
  }

  /** Version, level, data and mask determine every module of the symbol. */
  lemma {:induction false} SymbolUnique(g: Grid, h: Grid, version: nat, ecl: Ecc, data: seq<Byte>, mask: nat)
    requires ValidVersion(version) && IsSymbol(g, version, ecl, data, mask) && IsSymbol(h, version, ecl, data, mask)
    ensures g == h
  {
    hide IsBase, SymbolLayout, Emit, Blocks, Divisor, DataFrom, Rectangular, Filled, FunctionGrid, Candidate;
    var base, message :| IsSymbolFrom(g, base, message, version, ecl, data, mask);
    var base', message' :| IsSymbolFrom(h, base', message', version, ecl, data, mask);
    BaseUnique(base, base', version, ecl);
  }

  lemma {:induction false} FormatIsMarked(version: nat)
    requires ValidVersion(version)
    ensures FormatIsFunction(FunctionGrid(version), SizeOf(version))
  {
    hide FunctionGrid, FormatCell, AlignCell;
  }

  /** Placing codewords does not disturb the function modules. */
  lemma {:induction false} FilledKeeps(base: Grid, message: seq<Byte>, version: nat, c: Cell)
    requires ValidVersion(version) && Square(base, SizeOf(version)) && InGrid(c, SizeOf(version)) && FunctionCell(c, version)
    ensures Get(Filled(base, message, version), SizeOf(version), c) == Get(base, SizeOf(version), c)
  {
    hide Get, FunctionGrid, FunctionCell, Place, Scan, ReadBits;
    var size := SizeOf(version);
    ScanInGrid(size);
    PlaceKeeps(base, FunctionGrid(version), size, Scan(size), ReadBits(message), c);
  }

  /** Format information over function patterns: only the format modules differ from the base. */
  lemma {:induction false} SymbolKeeps(base: Grid, message: seq<Byte>, version: nat, ecl: Ecc, mask: nat, c: Cell)
    requires ValidVersion(version) && Square(base, SizeOf(version)) && mask < 8 && InGrid(c, SizeOf(version)) && FunctionCell(c, version)
    ensures var size, g := SizeOf(version), Candidate(Filled(base, message, version), FunctionGrid(version), SizeOf(version), ecl, mask);
            Get(g, size, c) == if FormatCell(c, size) then FormatDark(c, size, FormatWord(ecl, mask)) else Get(base, size, c)
  {
    hide Get, FunctionGrid, FunctionCell, Filled, Masked, WithFormat, FormatCell, FormatDark, FormatWord, Inverts;
    FilledKeeps(base, message, version, c);
  }

  /** A finished symbol shows the format of its level and mask. */
  lemma {:induction false} SymbolShowsFormat(g: Grid, version: nat, ecl: Ecc, data: seq<Byte>, mask: nat)
    requires ValidVersion(version) && IsSymbol(g, version, ecl, data, mask)
    ensures Square(g, SizeOf(version)) && mask < 8 && ShowsFormat(g, SizeOf(version), ecl, mask)
    ensures ReadMask(g, SizeOf(version)) == mask && ReadLevel(g, SizeOf(version)) == ecl
  {
    hide Get, FunctionGrid, Filled, Masked, FormatCell, FormatDark, FormatWord, IsBase, IsFinalMessage, ReadMask, ReadLevel, WithFormat;
    var base, message :| IsSymbolFrom(g, base, message, version, ecl, data, mask);
    FormatRoundTrip(g, SizeOf(version), ecl, mask);
  }

  /** Neither placing codewords nor masking nor the format disturbs the function patterns. */
  lemma {:induction false} SymbolShowsPatterns(g: Grid, version: nat, ecl: Ecc, data: seq<Byte>, mask: nat)
    requires ValidVersion(version) && IsSymbol(g, version, ecl, data, mask)
    ensures Square(g, SizeOf(version)) && PatternsShown(g, SizeOf(version), version)
  {
    hide Get, FunctionGrid, Filled, FormatCell, FormatDark, FormatWord, IsFinalMessage, FunctionCell, PatternShownAt, ShowsFormat, Candidate;
    var base, message :| IsSymbolFrom(g, base, message, version, ecl, data, mask);
    var size := SizeOf(version);
    forall c | InGrid(c, size) ensures PatternShownAt(g, size, version, c) {
      if FunctionCell(c, version) { SymbolKeeps(base, message, version, ecl, mask, c); }
      PatternCarries(base, g, size, version, c);
    }
  }

  lemma {:induction false} PatternCarries(base: Grid, g: Grid, size: nat, version: nat, c: Cell)
    requires ValidVersion(version) && size == SizeOf(version) && Square(base, size) && Square(g, size) && InGrid(c, size)
    requires PatternShownAt(base, size, version, c)
    requires FunctionCell(c, version) && !FormatCell(c, size) ==> Get(g, size, c) == Get(base, size, c)
    ensures PatternShownAt(g, size, version, c)
  {
    hide Get, AlignCell, FinderDark, TimingInk, VersionInk, AlignShown, FormatCell;
    if AlignCell(c, version) {
      AlignCellApart(version, c);
      AlignShownSame(base, g, size, version, c);
    } else if FinderCell(c, size) {
      FinderNotFormat(c, size);
    }
  }

  lemma {:induction false} FinderNotFormat(c: Cell, size: nat)
    requires size >= 21 && InGrid(c, size) && FinderCell(c, size)
    ensures !FormatCell(c, size)
  {}

  // ---------- The reader ----------

  predicate UnmaskedAt(g: Grid, fun: Grid, size: nat, msk: nat, c: Cell)
    requires Square(g, size) && Square(fun, size) && msk < 8 && InGrid(c, size)
  {
    Get(g, size, c) != (!Get(fun, size, c) && Flipped(msk, c.y, c.x))
  }

  /** The grid without its mask. */
  ghost function Unmasked(g: Grid, fun: Grid, size: nat, msk: nat): (h: Grid)
    requires Square(g, size) && Square(fun, size) && msk < 8
    ensures Square(h, size)
  {
    seq(size, y requires 0 <= y < size => seq(size, x requires 0 <= x < size => UnmaskedAt(g, fun, size, msk, Cell(x, y))))
  }

  /** The reader's conditions undo the encoder's masks. */
  lemma {:induction false} UnmaskedIsMasked(g: Grid, fun: Grid, size: nat, msk: nat)
    requires Square(g, size) && Square(fun, size) && msk < 8
    ensures Unmasked(g, fun, size, msk) == Masked(g, fun, size, msk)
  {
    var h := Unmasked(g, fun, size, msk);
    forall c | InGrid(c, size) ensures Get(h, size, c) == MaskedAt(g, fun, size, msk, c) {
      hide Inverts, Flipped;
      FlippedIsInverts(msk, c.x, c.y);
    }
    hide Masked, Unmasked, MaskedAt;
    SameGrid(h, Masked(g, fun, size, msk), size);
  }

  lemma {:induction false} OrderInGrid(size: nat)
    requires size >= 9 && size % 4 == 1
    ensures AllIn(ReadingOrder(size), size)
  {
    hide Scan, ReadingOrder, AllIn;
    ScanInGrid(size);
    ScanIsReadingOrder(size);
  }

  /** The data modules of a grid, unmasked, in the reader's order. */
  ghost function SymbolBits(g: Grid, version: nat): seq<bool>
    requires ValidVersion(version) && Square(g, SizeOf(version))
  {
    var size, fun := SizeOf(version), FunctionGrid(version);
    OrderInGrid(size);
    ReadAlong(Unmasked(g, fun, size, ReadMask(g, size)), fun, size, ReadingOrder(size))
  }

  ghost function SymbolMessage(g: Grid, version: nat): seq<Byte>
    requires ValidVersion(version) && Square(g, SizeOf(version))
  {
    var bits, n := SymbolBits(g, version), 8 * RawCodewords(version);
    BytesOf(if |bits| < n then bits else bits[..n])
  }

  /** The text of a grid: its size tells the version, its format modules the mask and the level. */
  ghost function ReadSymbol(g: Grid): TextReading
  {
    var version := (|g| - 17) / 4;
    if !(1 <= version <= 40 && Square(g, SizeOf(version))) then Unreadable
    else
      var ecl := ReadLevel(g, SizeOf(version));
      RowsText(SymbolRows(SymbolMessage(g, version), version, ecl), version, ecl)
  }

  ghost function RowsText(rows: seq<seq<Byte>>, version: nat, ecl: Ecc): TextReading
    requires ValidVersion(version) && |rows| == SymbolLayout(version, ecl).numBlocks
  {
    ReadText(ReadBits(RowData(SymbolLayout(version, ecl), rows, 0)), version)
  }

  /** Reading sees only the modules that are not function modules. */
  lemma {:induction false} ReadSame(g: Grid, h: Grid, fun: Grid, size: nat, cells: seq<Cell>)
    requires Square(g, size) && Square(h, size) && Square(fun, size) && AllIn(cells, size)
    requires forall c :: InGrid(c, size) && !Get(fun, size, c) ==> Get(g, size, c) == Get(h, size, c)
    ensures ReadAlong(g, fun, size, cells) == ReadAlong(h, fun, size, cells)
  {
    hide Get;
    if cells == [] {
    } else {
      ReadSame(g, h, fun, size, cells[1..]);
    }
  }

  lemma {:induction false} ScanSkipsFormat(g: Grid, version: nat, bits: bv32)
    requires ValidVersion(version) && Square(g, SizeOf(version)) && AllIn(Scan(SizeOf(version)), SizeOf(version))
    ensures var size, fun := SizeOf(version), FunctionGrid(version);
            ReadAlong(WithFormat(g, size, bits), fun, size, Scan(size)) == ReadAlong(g, fun, size, Scan(size))
  {
    hide Get, FunctionGrid, WithFormat, Scan, ReadAlong, FormatCell, FormatDark;
    FormatIsMarked(version);
    ReadSame(WithFormat(g, SizeOf(version), bits), g, FunctionGrid(version), SizeOf(version), Scan(SizeOf(version)));
  }

  lemma {:induction false} FilledIs(base: Grid, message: seq<Byte>, version: nat)
    requires ValidVersion(version) && Square(base, SizeOf(version)) && AllIn(Scan(SizeOf(version)), SizeOf(version))
    ensures Filled(base, message, version) == Place(base, FunctionGrid(version), SizeOf(version), Scan(SizeOf(version)), ReadBits(message))
  {
    hide FunctionGrid, Scan, Place, ReadBits;
  }

  lemma {:induction false} SymbolBitsUnfold(g: Grid, version: nat)
    requires ValidVersion(version) && Square(g, SizeOf(version)) && AllIn(Scan(SizeOf(version)), SizeOf(version))
    ensures var size, fun := SizeOf(version), FunctionGrid(version);
            SymbolBits(g, version) == ReadAlong(Masked(g, fun, size, ReadMask(g, size)), fun, size, Scan(size))
  {
    hide FunctionGrid, Scan, ReadingOrder, ReadAlong, Masked, Unmasked, ReadMask;
    var size := SizeOf(version);
    ScanIsReadingOrder(size);
    UnmaskedIsMasked(g, FunctionGrid(version), size, ReadMask(g, size));
  }

  lemma {:induction false} SizeIs(version: nat)
    requires ValidVersion(version)
    ensures 21 <= SizeOf(version) == 4 * version + 17 && SizeOf(version) % 2 == 1
  {}

  lemma {:induction false} SymbolParts(g: Grid, base: Grid, message: seq<Byte>, version: nat, ecl: Ecc, data: seq<Byte>, mask: nat)
    requires ValidVersion(version) && IsSymbolFrom(g, base, message, version, ecl, data, mask)
    ensures Square(base, SizeOf(version)) && IsFinalMessage(message, data, version, ecl) && mask < 8
    ensures g == Candidate(Filled(base, message, version), FunctionGrid(version), SizeOf(version), ecl, mask)
    ensures IsSymbol(g, version, ecl, data, mask)
  {
    hide FunctionGrid, Filled, Candidate, IsFinalMessage, PatternsShown, ShowsFormat, LightElsewhere;
  }

  /** Unmasking and scanning a symbol gives back its bits. */
  lemma {:induction false} SymbolBitsAre(g: Grid, base: Grid, message: seq<Byte>, version: nat, ecl: Ecc, data: seq<Byte>, mask: nat)
    requires ValidVersion(version) && IsSymbolFrom(g, base, message, version, ecl, data, mask)
    ensures Square(g, SizeOf(version)) && |SymbolBits(g, version)| >= |ReadBits(message)|
    ensures SymbolBits(g, version)[..|ReadBits(message)|] == ReadBits(message)
  {
    hide *;
    SizeIs(version);
    var size, fun := SizeOf(version), FunctionGrid(version);
    SymbolParts(g, base, message, version, ecl, data, mask);
    SymbolShowsFormat(g, version, ecl, data, mask);
    var filled := Filled(base, message, version);
    FormatIsMarked(version);
    CandidateUnmasked(filled, fun, size, ecl, mask);
    ScanInGrid(size);
    ScanSkipsFormat(filled, version, FormatWord(ecl, mask));
    FilledIs(base, message, version);
    ScanRoom(version);
    RoomForMessage(version);
    MessageLength(message, data, version, ecl);
    var bits := ReadBits(message);
    assert |bits| == 8 * |message|;
    PlaceRead(base, fun, size, Scan(size), bits);
    SymbolBitsUnfold(g, version);
    var rest := ReadAlong(base, fun, size, Scan(size))[|bits|..];
    assert (bits + rest)[..|bits|] == bits;
  }

  /** The reader gets the message back from every symbol. */
  lemma {:induction false} SymbolMessageIs(g: Grid, base: Grid, message: seq<Byte>, version: nat, ecl: Ecc, data: seq<Byte>, mask: nat)
    requires ValidVersion(version) && IsSymbolFrom(g, base, message, version, ecl, data, mask)
    ensures Square(g, SizeOf(version)) && SymbolMessage(g, version) == message
  {
    hide IsSymbolFrom, SymbolBits, RawCodewords, BytesOf, ReadBits, IsFinalMessage;
    SymbolParts(g, base, message, version, ecl, data, mask);
    SymbolBitsAre(g, base, message, version, ecl, data, mask);
    MessageLength(message, data, version, ecl);
    BytesRoundTrip(message);
  }

  lemma {:induction false} ReadSymbolUnfold(g: Grid, version: nat)
    requires ValidVersion(version) && Square(g, SizeOf(version))
    ensures var ecl := ReadLevel(g, SizeOf(version));
            && |SymbolRows(SymbolMessage(g, version), version, ecl)| == SymbolLayout(version, ecl).numBlocks
            && ReadSymbol(g) == RowsText(SymbolRows(SymbolMessage(g, version), version, ecl), version, ecl)
  {
    hide SymbolMessage, RowsText, SymbolLayout, SymbolRows, ReadLevel;
    assert |g| == 4 * version + 17;
    RowCount(SymbolMessage(g, version), version, ReadLevel(g, SizeOf(version)));
  }

  /** The reader gets the text back from every symbol: all versions, levels, masks and data. */
  lemma {:induction false} SymbolRoundTrip(g: Grid, version: nat, ecl: Ecc, data: seq<Byte>, mask: nat)
    requires ValidVersion(version) && IsSymbol(g, version, ecl, data, mask)
    ensures ReadSymbol(g) == ReadText(ReadBits(data), version)
  {
    hide IsSymbolFrom, SymbolMessage, ReadBits, ReadText, RowData, SymbolLayout, SymbolRows, IsFinalMessage, ReadLevel, ReadMask, ReadSymbol;
    var base, message :| IsSymbolFrom(g, base, message, version, ecl, data, mask);
    SymbolParts(g, base, message, version, ecl, data, mask);
    SymbolShowsFormat(g, version, ecl, data, mask);
    SymbolMessageIs(g, base, message, version, ecl, data, mask);
    ReadSymbolUnfold(g, version);
    MessageRoundTrip(message, data, version, ecl);
  }

  // ---------- Damage ----------

  /** Received rows differ from those of the symbol in at most half as many bytes as there are check bytes. */
  ghost predicate Tolerable(received: seq<seq<Byte>>, rows: seq<seq<Byte>>, eccLen: nat)
  {
    && |received| == |rows|
    && forall j :: 0 <= j < |rows| ==> |received[j]| == |rows[j]| && 2 * CodeDistance.Distance(received[j], rows[j]) <= eccLen
  }

  ghost predicate AllCodewords(rows: seq<seq<Byte>>, eccLen: nat)
  {
    forall j :: 0 <= j < |rows| ==> CodeDistance.IsCodeword(rows[j], eccLen)
  }

  /** Whatever codewords a decoder finds within the tolerance of the received rows, they are the rows
      of the symbol: the text is recovered from any tolerable damage. */
  lemma {:induction false} DamageTolerated(
      message: seq<Byte>, data: seq<Byte>, version: nat, ecl: Ecc, received: seq<seq<Byte>>, decoded: seq<seq<Byte>>)
    requires ValidVersion(version) && IsFinalMessage(message, data, version, ecl)
    requires Tolerable(received, SymbolRows(message, version, ecl), BlockEccLen(version, ecl))
    requires Tolerable(received, decoded, BlockEccLen(version, ecl)) && AllCodewords(decoded, BlockEccLen(version, ecl))
    ensures decoded == SymbolRows(message, version, ecl)
    ensures RowsText(decoded, version, ecl) == ReadText(ReadBits(data), version)
  {
    hide IsFinalMessage, SymbolRows, SymbolLayout, BlockEccLen, CodeDistance.IsCodeword, CodeDistance.Distance, RowData, ReadText, ReadBits;
    var rows, d := SymbolRows(message, version, ecl), BlockEccLen(version, ecl);
    RowCount(message, version, ecl);
    forall j | 0 <= j < |rows| ensures decoded[j] == rows[j] {
      RowsAreCodewords(message, data, version, ecl, j);
      CodeDistance.Symmetric(rows[j], received[j]);
      CodeDistance.UniqueDecoding(rows[j], decoded[j], received[j], d, d / 2);
    }
    assert decoded == rows;
    MessageRoundTrip(message, data, version, ecl);
  }

  lemma {:induction false} RowCount(message: seq<Byte>, version: nat, ecl: Ecc)
    requires ValidVersion(version)
    ensures |SymbolRows(message, version, ecl)| == SymbolLayout(version, ecl).numBlocks
  {
    hide SymbolLayout;
  }
}
