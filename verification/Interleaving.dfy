/** Splitting data into blocks, appending check bytes, and interleaving the blocks (section 7.6 of
    ISO/IEC 18004:2015), with a reference de-interleaver. */
module Interleaving {
  import opened GaloisField
  import opened Arithmetic
  import opened Results
  import opened QrTables
  import RS = ReedSolomon
  import CodeDistance

  // ---------- Block layout ----------

  /** How `raw` codewords split into `numBlocks` blocks with `eccLen` check bytes each. The first
      `numShort` blocks hold `shortData` data bytes, the others one more. */
  datatype Layout = Layout(numBlocks: nat, eccLen: nat, numShort: nat, shortData: nat)

  predicate ValidLayout(l: Layout)
  {
    1 <= l.eccLen <= 255 && 1 <= l.numShort <= l.numBlocks
  }

  function LayoutFor(raw: nat, numBlocks: nat, eccLen: nat): (l: Layout)
    requires numBlocks >= 1 && 1 <= eccLen <= 255 && eccLen <= raw / numBlocks
    ensures ValidLayout(l)
  {
    Layout(numBlocks, eccLen, numBlocks - raw % numBlocks, raw / numBlocks - eccLen)
  }

  function DataLen(l: Layout, j: nat): nat
  {
    l.shortData + (if j < l.numShort then 0 else 1)
  }

  /** Total data length of blocks `j` and later. */
  function DataFrom(l: Layout, j: nat): nat
    requires j <= l.numBlocks
    decreases l.numBlocks - j
  {
    if j == l.numBlocks then 0 else DataLen(l, j) + DataFrom(l, j + 1)
  }

  lemma {:induction false} DataFromSum(l: Layout, j: nat)
    requires j <= l.numBlocks && l.numShort <= l.numBlocks
    ensures DataFrom(l, j) == (l.numBlocks - j) * l.shortData + l.numBlocks - (if j < l.numShort then l.numShort else j)
    decreases l.numBlocks - j
  {
    if j == l.numBlocks {
    } else {
      DataFromSum(l, j + 1);
      assert (l.numBlocks - j) * l.shortData == l.shortData + (l.numBlocks - j - 1) * l.shortData;
    }
  }

  /** Splitting consumes exactly the data codewords of the symbol. */
  lemma {:induction false} DataFills(raw: nat, numBlocks: nat, eccLen: nat)
    requires numBlocks >= 1 && 1 <= eccLen <= 255 && eccLen <= raw / numBlocks
    ensures DataFrom(LayoutFor(raw, numBlocks, eccLen), 0) == raw - eccLen * numBlocks
  {
    var l := LayoutFor(raw, numBlocks, eccLen);
    DataFromSum(l, 0);
    assert raw == numBlocks * (raw / numBlocks) + raw % numBlocks;
    assert numBlocks * (raw / numBlocks - eccLen) == numBlocks * (raw / numBlocks) - numBlocks * eccLen;
  }

  // ---------- Blocks ----------

  /** The data of blocks `j` and later. */
  function SplitData(l: Layout, data: seq<Byte>, j: nat): (d: seq<seq<Byte>>)
    requires j <= l.numBlocks && |data| == DataFrom(l, j)
    ensures |d| == l.numBlocks - j
    decreases l.numBlocks - j
  {
    if j == l.numBlocks then []
    else [data[..DataLen(l, j)]] + SplitData(l, data[DataLen(l, j)..], j + 1)
  }

  function Concat(rows: seq<seq<Byte>>): seq<Byte>
  {
    if rows == [] then [] else rows[0] + Concat(rows[1..])
  }

  lemma {:induction false} SplitLosesNothing(l: Layout, data: seq<Byte>, j: nat)
    requires j <= l.numBlocks && |data| == DataFrom(l, j)
    ensures Concat(SplitData(l, data, j)) == data
    ensures forall k :: 0 <= k < l.numBlocks - j ==> |SplitData(l, data, j)[k]| == DataLen(l, j + k)
    decreases l.numBlocks - j
  {
    hide DataLen, Concat, SplitData;
    if j == l.numBlocks {
      SplitNone(l, data);
    } else {
      var n := DataLen(l, j);
      SplitOne(l, data, j);
      var first, rest := data[..n], SplitData(l, data[n..], j + 1);
      SplitLosesNothing(l, data[n..], j + 1);
      ConcatOne(first, rest);
      assert data == first + data[n..];
    }
  }

  lemma {:induction false} SplitNone(l: Layout, data: seq<Byte>)
    requires |data| == DataFrom(l, l.numBlocks)
    ensures data == [] && SplitData(l, data, l.numBlocks) == [] && Concat([]) == []
  {}

  lemma {:induction false} SplitOne(l: Layout, data: seq<Byte>, j: nat)
    requires j < l.numBlocks && |data| == DataFrom(l, j)
    ensures var n := DataLen(l, j);
            && n <= |data| && |data[n..]| == DataFrom(l, j + 1)
            && SplitData(l, data, j) == [data[..n]] + SplitData(l, data[n..], j + 1)
  {
    hide DataLen;
  }

  lemma {:induction false} ConcatOne(first: seq<Byte>, rest: seq<seq<Byte>>)
    ensures Concat([first] + rest) == first + Concat(rest)
  {
    assert ([first] + rest)[1..] == rest;
  }

  /** A block as stored: data, a padding byte in short blocks, check bytes. */
  function StoredBlock(l: Layout, dat: seq<Byte>, j: nat, divisor: seq<Byte>): seq<Byte>
    requires divisor != []
  {
    (if j < l.numShort then dat + [0] else dat) + RS.Remainder(dat, divisor)
  }

  ghost predicate Rectangular(l: Layout, blocks: seq<seq<Byte>>)
  {
    |blocks| == l.numBlocks && forall j :: 0 <= j < |blocks| ==> |blocks[j]| == Width(l)
  }

  /** The common length of the stored blocks. */
  function Width(l: Layout): nat { l.shortData + 1 + l.eccLen }

  /** The place of a padding byte, which is not emitted. */
  predicate Skipped(l: Layout, i: nat, j: nat) { i == l.shortData && j < l.numShort }

  /** The bytes emitted from column `i`, row `j` on. */
  function Emit(l: Layout, blocks: seq<seq<Byte>>, i: nat, j: nat): seq<Byte>
    requires Rectangular(l, blocks) && i <= Width(l) && j <= l.numBlocks
    decreases Width(l) - i, l.numBlocks - j
  {
    if i == Width(l) then []
    else if j == l.numBlocks then Emit(l, blocks, i + 1, 0)
    else if Skipped(l, i, j) then Emit(l, blocks, i, j + 1)
    else [blocks[j][i]] + Emit(l, blocks, i, j + 1)
  }

  lemma {:induction false} EmitRowLength(l: Layout, blocks: seq<seq<Byte>>, i: nat, j: nat)
    requires Rectangular(l, blocks) && i < Width(l) && j <= l.numBlocks && l.numShort <= l.numBlocks
    ensures |Emit(l, blocks, i, j)| == |Emit(l, blocks, i + 1, 0)| + l.numBlocks
         - (if Skipped(l, i, j) then l.numShort else j)
    decreases l.numBlocks - j
  {
    if j == l.numBlocks {
    } else {
      EmitRowLength(l, blocks, i, j + 1);
    }
  }

  lemma {:induction false} EmitLength(l: Layout, blocks: seq<seq<Byte>>, i: nat)
    requires Rectangular(l, blocks) && i <= Width(l) && l.numShort <= l.numBlocks
    ensures |Emit(l, blocks, i, 0)| == (Width(l) - i) * l.numBlocks - (if i <= l.shortData then l.numShort else 0)
    decreases Width(l) - i
  {
    if i == Width(l) {
    } else {
      EmitLength(l, blocks, i + 1);
      EmitRowLength(l, blocks, i, 0);
      hide Emit;
      NextMultiple(Width(l) - i - 1, l.numBlocks);
    }
  }

  /** The bytes emitted are as many as were asked for, in every layout. */
  lemma {:induction false} EmitFills(raw: nat, numBlocks: nat, eccLen: nat, blocks: seq<seq<Byte>>)
    requires numBlocks >= 1 && 1 <= eccLen <= 255 && eccLen <= raw / numBlocks
    requires Rectangular(LayoutFor(raw, numBlocks, eccLen), blocks)
    ensures |Emit(LayoutFor(raw, numBlocks, eccLen), blocks, 0, 0)| == raw
  {
    hide Emit, Rectangular;
    EmitLength(LayoutFor(raw, numBlocks, eccLen), blocks, 0);
    NextMultiple(raw / numBlocks, numBlocks);
    assert raw == raw / numBlocks * numBlocks + raw % numBlocks;
  }

  // ---------- The reference de-interleaver ----------

  /** Deals a stream out over the rows, column by column, in the order of emission. */
  function Deal(l: Layout, stream: seq<Byte>, rows: seq<seq<Byte>>, i: nat, j: nat): (r: seq<seq<Byte>>)
    requires |rows| == l.numBlocks && i <= Width(l) && j <= l.numBlocks
    ensures |r| == l.numBlocks
    decreases Width(l) - i, l.numBlocks - j
  {
    if i == Width(l) then rows
    else if j == l.numBlocks then Deal(l, stream, rows, i + 1, 0)
    else if Skipped(l, i, j) || stream == [] then Deal(l, stream, rows, i, j + 1)
    else Deal(l, stream[1..], rows[j := rows[j] + [stream[0]]], i, j + 1)
  }

  /** The first `c` columns of a stored block, without its padding byte. */
  function Trim(l: Layout, block: seq<Byte>, j: nat, c: nat): seq<Byte>
    requires c <= |block|
  {
    if j < l.numShort && c > l.shortData then block[..l.shortData] + block[l.shortData + 1..c] else block[..c]
  }

  function TrimAll(l: Layout, blocks: seq<seq<Byte>>, i: nat, j: nat): (r: seq<seq<Byte>>)
    requires Rectangular(l, blocks) && i <= Width(l) && j <= l.numBlocks && (i == Width(l) ==> j == 0)
    ensures |r| == l.numBlocks
  {
    seq(l.numBlocks, k requires 0 <= k < l.numBlocks => Trim(l, blocks[k], k, if k < j then i + 1 else i))
  }

  lemma {:induction false} TrimNext(l: Layout, block: seq<Byte>, j: nat, i: nat)
    requires i < |block|
    ensures Trim(l, block, j, i + 1) == if Skipped(l, i, j) then Trim(l, block, j, i) else Trim(l, block, j, i) + [block[i]]
  {}

  lemma {:induction false} DealInvertsEmit(l: Layout, blocks: seq<seq<Byte>>, i: nat, j: nat)
    requires Rectangular(l, blocks) && i <= Width(l) && j <= l.numBlocks && (i == Width(l) ==> j == 0)
    ensures Deal(l, Emit(l, blocks, i, j), TrimAll(l, blocks, i, j), i, j) == TrimAll(l, blocks, Width(l), 0)
    decreases Width(l) - i, l.numBlocks - j
  {
    hide Emit, Deal, TrimAll, Rectangular, Skipped;
    if i == Width(l) {
      DealEnds(l, blocks, TrimAll(l, blocks, i, j), i);
    } else if j == l.numBlocks {
      DealEnds(l, blocks, TrimAll(l, blocks, i, j), i);
      TrimAllTurn(l, blocks, i);
      DealInvertsEmit(l, blocks, i + 1, 0);
    } else {
      TrimAllNext(l, blocks, i, j);
      DealNext(l, blocks, TrimAll(l, blocks, i, j), i, j);
      DealInvertsEmit(l, blocks, i, j + 1);
    }
  }

  /** The steps of emission and dealing that move no byte. */
  lemma {:induction false} DealEnds(l: Layout, blocks: seq<seq<Byte>>, rows: seq<seq<Byte>>, i: nat)
    requires Rectangular(l, blocks) && |rows| == l.numBlocks && i <= Width(l)
    ensures i == Width(l) ==> Deal(l, Emit(l, blocks, i, 0), rows, i, 0) == rows
    ensures i < Width(l) ==>
      Deal(l, Emit(l, blocks, i, l.numBlocks), rows, i, l.numBlocks) == Deal(l, Emit(l, blocks, i + 1, 0), rows, i + 1, 0)
  {
    hide Rectangular;
  }

  /** The step that moves one byte, or skips the padding byte. */
  lemma {:induction false} DealNext(l: Layout, blocks: seq<seq<Byte>>, rows: seq<seq<Byte>>, i: nat, j: nat)
    requires Rectangular(l, blocks) && |rows| == l.numBlocks && i < Width(l) && j < l.numBlocks
    ensures i < |blocks[j]|
    ensures Deal(l, Emit(l, blocks, i, j), rows, i, j)
         == Deal(l, Emit(l, blocks, i, j + 1), if Skipped(l, i, j) then rows else rows[j := rows[j] + [blocks[j][i]]], i, j + 1)
  {
    hide Skipped;
    if !Skipped(l, i, j) {
      assert Emit(l, blocks, i, j)[1..] == Emit(l, blocks, i, j + 1);
    }
  }

  lemma {:induction false} TrimAllTurn(l: Layout, blocks: seq<seq<Byte>>, i: nat)
    requires Rectangular(l, blocks) && i < Width(l)
    ensures TrimAll(l, blocks, i, l.numBlocks) == TrimAll(l, blocks, i + 1, 0)
  {
    hide Trim;
  }

  lemma {:induction false} TrimAllNext(l: Layout, blocks: seq<seq<Byte>>, i: nat, j: nat)
    requires Rectangular(l, blocks) && i < Width(l) && j < l.numBlocks
    ensures i < |blocks[j]|
    ensures var rows := TrimAll(l, blocks, i, j);
            TrimAll(l, blocks, i, j + 1) == if Skipped(l, i, j) then rows else rows[j := rows[j] + [blocks[j][i]]]
  {
    hide Trim, Skipped;
    TrimNext(l, blocks[j], j, i);
  }

  // ---------- The encoder ----------

  function Blocks(l: Layout, data: seq<Byte>, divisor: seq<Byte>): (b: seq<seq<Byte>>)
    requires |data| == DataFrom(l, 0) && divisor != []
    ensures |b| == l.numBlocks
  {
    var parts := SplitData(l, data, 0);
    seq(l.numBlocks, j requires 0 <= j < l.numBlocks => StoredBlock(l, parts[j], j, divisor))
  }

  lemma {:induction false} BlocksRectangular(l: Layout, data: seq<Byte>, divisor: seq<Byte>)
    requires |data| == DataFrom(l, 0) && |divisor| == l.eccLen >= 1
    ensures Rectangular(l, Blocks(l, data, divisor))
  {
    hide SplitData;
    SplitLosesNothing(l, data, 0);
  }

  /** `offset` is where the data of block `i` starts. */
  ghost predicate SplitAt(l: Layout, data: seq<Byte>, i: nat, offset: nat)
    requires |data| == DataFrom(l, 0) && i <= l.numBlocks
  {
    && offset + DataFrom(l, i) == |data|
    && SplitData(l, data, 0)[i..] == SplitData(l, data[offset..], i)
  }

  lemma {:induction false} SplitStart(l: Layout, data: seq<Byte>)
    requires |data| == DataFrom(l, 0)
    ensures SplitAt(l, data, 0, 0)
  {
    assert data[0..] == data;
  }

  lemma {:induction false} SplitNext(l: Layout, data: seq<Byte>, i: nat, offset: nat)
    requires |data| == DataFrom(l, 0) && i < l.numBlocks && SplitAt(l, data, i, offset)
    ensures offset + DataLen(l, i) <= |data|
    ensures SplitData(l, data, 0)[i] == data[offset..offset + DataLen(l, i)]
    ensures SplitAt(l, data, i + 1, offset + DataLen(l, i))
  {
    var n := DataLen(l, i);
    var parts, rest := SplitData(l, data, 0), SplitData(l, data[offset..], i);
    assert data[offset..][..n] == data[offset..offset + n];
    assert data[offset..][n..] == data[offset + n..];
    assert rest[0] == data[offset..offset + n] && rest[1..] == SplitData(l, data[offset + n..], i + 1);
    hide SplitData;
    assert parts[i..][0] == parts[i] && parts[i..][1..] == parts[i + 1..];
  }

  /** Splits the data and appends the check bytes of every block. */
  method MakeBlocks(l: Layout, data: seq<Byte>, divisor: seq<Byte>) returns (blocks: seq<seq<Byte>>)
    requires |data| == DataFrom(l, 0) && divisor != []
    ensures blocks == Blocks(l, data, divisor)
  {
    hide SplitData, DataFrom, SplitAt, StoredBlock;
    SplitStart(l, data);
    blocks := [];
    var k: nat := 0;
    for i := 0 to l.numBlocks
      invariant SplitAt(l, data, i, k)
      invariant blocks == Blocks(l, data, divisor)[..i]
    {
      SplitNext(l, data, i, k);
      var dat := data[k..k + l.shortData + (if i < l.numShort then 0 else 1)];
      k := k + |dat|;
      var block := MakeBlock(l, dat, i, divisor);
      blocks := blocks + [block];
    }
  }

  method MakeBlock(l: Layout, data: seq<Byte>, i: nat, divisor: seq<Byte>) returns (dat: seq<Byte>)
    requires divisor != []
    ensures dat == StoredBlock(l, data, i, divisor)
  {
    dat := data;
    var ecc := RS.ComputeRemainder(dat, divisor);
    if i < l.numShort {
      dat := dat + [0];
    }
    dat := dat + ecc;
  }

  /** What is emitted before column `i`, row `j`. */
  ghost predicate Emitted(l: Layout, blocks: seq<seq<Byte>>, result: seq<Byte>, i: nat, j: nat)
  {
    && Rectangular(l, blocks) && i <= Width(l) && j <= l.numBlocks
    && result + Emit(l, blocks, i, j) == Emit(l, blocks, 0, 0)
  }

  lemma {:induction false} EmittedNext(l: Layout, blocks: seq<seq<Byte>>, result: seq<Byte>, i: nat, j: nat)
    requires Emitted(l, blocks, result, i, j) && i < Width(l) && j < l.numBlocks
    ensures if Skipped(l, i, j) then Emitted(l, blocks, result, i, j + 1)
            else Emitted(l, blocks, result + [blocks[j][i]], i, j + 1)
  {
    if !Skipped(l, i, j) {
      var rest := Emit(l, blocks, i, j + 1);
      assert Emit(l, blocks, i, j) == [blocks[j][i]] + rest;
      hide Emit;
      assert result + [blocks[j][i]] + rest == result + ([blocks[j][i]] + rest);
    }
  }

  lemma {:induction false} EmittedEnds(l: Layout, blocks: seq<seq<Byte>>, result: seq<Byte>, i: nat)
    requires Rectangular(l, blocks) && i <= Width(l)
    ensures Emitted(l, blocks, [], 0, 0)
    ensures i < Width(l) && Emitted(l, blocks, result, i, l.numBlocks) ==> Emitted(l, blocks, result, i + 1, 0)
    ensures Emitted(l, blocks, result, Width(l), 0) ==> result == Emit(l, blocks, 0, 0)
  {
    assert result + [] == result;
  }

  /** Takes the bytes of the blocks column by column. */
  method InterleaveBlocks(l: Layout, blocks: seq<seq<Byte>>) returns (result: seq<Byte>)
    requires Rectangular(l, blocks)
    ensures result == Emit(l, blocks, 0, 0)
  {
    hide Emit, Emitted;
    result := [];
    EmittedEnds(l, blocks, result, 0);
    var i := 0;
    while i < Width(l)
      invariant 0 <= i <= Width(l)
      invariant Emitted(l, blocks, result, i, 0)
    {
      var j := 0;
      while j < |blocks|
        invariant 0 <= j <= |blocks|
        invariant Emitted(l, blocks, result, i, j)
      {
        EmittedNext(l, blocks, result, i, j);
        if i != l.shortData || j >= l.numShort {
          result := result + [blocks[j][i]];
        }
        j := j + 1;
      }
      EmittedEnds(l, blocks, result, i);
      i := i + 1;
    }
    EmittedEnds(l, blocks, result, i);
  }

  /** The divisor polynomial without its leading 1. */
  function Divisor(d: nat): (r: seq<Byte>)
    ensures |r| == d
  {
    RS.Generator(d)[1..]
  }

  lemma {:induction false} DivisorIsGenerator(d: nat)
    ensures [1] + Divisor(d) == RS.Generator(d)
  {
    RS.GeneratorMonic(d);
    hide RS.Generator;
  }

  method AddEccAndInterleave(data: seq<Byte>, version: nat, ecl: Ecc) returns (r: Result<seq<Byte>>)
    requires ValidVersion(version)
    ensures r.Err? <==> |data| != NumDataCodewords(version, ecl)
    ensures r.Err? ==> r.error == InvalidArgument
    ensures r.Ok? ==> IsFinalMessage(r.value, data, version, ecl)
  {
    hide *;
    if |data| != NumDataCodewords(version, ecl) {
      return Err(InvalidArgument);
    }
    var l := SymbolLayout(version, ecl);
    SymbolDataFills(version, ecl);
    LayoutIsValid(l);
    var divisor := RS.ComputeDivisor(l.eccLen);
    DivisorIsGenerator(l.eccLen);
    assert divisor.value == ([1] + divisor.value)[1..] == ([1] + Divisor(l.eccLen))[1..] == Divisor(l.eccLen);
    BlocksRectangular(l, data, divisor.value);
    var blocks := MakeBlocks(l, data, divisor.value);
    var result := InterleaveBlocks(l, blocks);
    FinalMessageIs(result, data, version, ecl);
    return Ok(result);
  }

  lemma {:induction false} LayoutIsValid(l: Layout)
    ensures ValidLayout(l) <==> 1 <= l.eccLen <= 255 && 1 <= l.numShort <= l.numBlocks
  {}

  lemma {:induction false} FinalMessageIs(message: seq<Byte>, data: seq<Byte>, version: nat, ecl: Ecc)
    requires ValidVersion(version) && |data| == DataFrom(SymbolLayout(version, ecl), 0)
    requires SymbolLayout(version, ecl).eccLen >= 1
    requires Rectangular(SymbolLayout(version, ecl), Blocks(SymbolLayout(version, ecl), data, Divisor(SymbolLayout(version, ecl).eccLen)))
    ensures IsFinalMessage(message, data, version, ecl) <==>
      message == Emit(SymbolLayout(version, ecl), Blocks(SymbolLayout(version, ecl), data, Divisor(SymbolLayout(version, ecl).eccLen)), 0, 0)
  {
    hide SymbolLayout, Blocks, Divisor, Emit, Rectangular, DataFrom;
  }

  lemma {:induction false} LayoutConditions(version: nat, ecl: Ecc)
    requires ValidVersion(version)
    ensures var b, e := NumBlocks(version, ecl), BlockEccLen(version, ecl);
            b >= 1 && 1 <= e <= 255 && e < RawCodewords(version) / b < 254
  {
    hide NumBlocks, BlockEccLen, RawCodewords;
    BlockSizes(version, ecl);
    var b, e, raw := NumBlocks(version, ecl), BlockEccLen(version, ecl), RawCodewords(version);
    QuotientBounds(raw, b, e + 1, 254);
  }

  lemma {:induction false} QuotientBounds(n: nat, d: nat, lo: nat, hi: nat)
    requires d >= 1 && lo * d <= n < hi * d
    ensures lo <= n / d < hi
  {
    var q, r := n / d, n % d;
    assert n == q * d + r && r < d;
    NextMultiple(q, d);
    if q < lo { MultipleMonotone(q + 1, lo, d); }
    if q >= hi { MultipleMonotone(hi, q, d); }
  }

  function SymbolLayout(version: nat, ecl: Ecc): (l: Layout)
    requires ValidVersion(version)
    ensures ValidLayout(l)
  {
    LayoutConditions(version, ecl);
    LayoutFor(RawCodewords(version), NumBlocks(version, ecl), BlockEccLen(version, ecl))
  }

  lemma {:induction false} SymbolDataFills(version: nat, ecl: Ecc)
    requires ValidVersion(version)
    ensures DataFrom(SymbolLayout(version, ecl), 0) == NumDataCodewords(version, ecl)
  {
    hide NumBlocks, BlockEccLen, RawCodewords, DataFrom, LayoutFor;
    LayoutConditions(version, ecl);
    DataFills(RawCodewords(version), NumBlocks(version, ecl), BlockEccLen(version, ecl));
  }

  ghost predicate IsFinalMessage(message: seq<Byte>, data: seq<Byte>, version: nat, ecl: Ecc)
    requires ValidVersion(version)
  {
    var l := SymbolLayout(version, ecl);
    && |data| == DataFrom(l, 0)
    && Rectangular(l, Blocks(l, data, Divisor(l.eccLen)))
    && message == Emit(l, Blocks(l, data, Divisor(l.eccLen)), 0, 0)
  }

  // ---------- What a reader recovers ----------

  /** The rows a reader deals the message out to: data and check bytes of each block. */
  function Rows(l: Layout, message: seq<Byte>): (r: seq<seq<Byte>>)
    ensures |r| == l.numBlocks
  {
    Deal(l, message, seq(l.numBlocks, _ => []), 0, 0)
  }

  /** Row `j` is the block's data and check bytes; the padding byte never appears. */
  lemma {:induction false} RowIsBlock(l: Layout, data: seq<Byte>, divisor: seq<Byte>, j: nat)
    requires |data| == DataFrom(l, 0) && |divisor| == l.eccLen >= 1 && j < l.numBlocks
    requires Rectangular(l, Blocks(l, data, divisor))
    ensures var dat := SplitData(l, data, 0)[j];
            && |dat| == DataLen(l, j)
            && Rows(l, Emit(l, Blocks(l, data, divisor), 0, 0))[j] == dat + RS.Remainder(dat, divisor)
  {
    hide Deal, Emit, SplitData, DataFrom, RS.Remainder;
    var blocks := Blocks(l, data, divisor);
    DealInvertsEmit(l, blocks, 0, 0);
    assert TrimAll(l, blocks, 0, 0) == seq(l.numBlocks, _ => []);
    SplitLosesNothing(l, data, 0);
    var dat := SplitData(l, data, 0)[j];
    var ecc := RS.Remainder(dat, divisor);
    assert blocks[j] == StoredBlock(l, dat, j, divisor);
    assert Trim(l, blocks[j], j, Width(l)) == dat + ecc;
  }

  /** The data a reader takes from the rows. */
  function RowData(l: Layout, rows: seq<seq<Byte>>, j: nat): seq<Byte>
    requires |rows| == l.numBlocks && j <= l.numBlocks
    decreases l.numBlocks - j
  {
    if j == l.numBlocks then []
    else (if |rows[j]| < DataLen(l, j) then rows[j] else rows[j][..DataLen(l, j)]) + RowData(l, rows, j + 1)
  }

  lemma {:induction false} RowDataConcat(l: Layout, rows: seq<seq<Byte>>, parts: seq<seq<Byte>>, j: nat)
    requires |rows| == |parts| == l.numBlocks && j <= l.numBlocks
    requires forall k :: 0 <= k < l.numBlocks ==> |parts[k]| == DataLen(l, k) && parts[k] <= rows[k]
    ensures RowData(l, rows, j) == Concat(parts[j..])
    decreases l.numBlocks - j
  {
    if j == l.numBlocks {
    } else {
      RowDataConcat(l, rows, parts, j + 1);
      assert parts[j..][1..] == parts[j + 1..];
      assert parts[j] <= rows[j];
    }
  }

  function SymbolRows(message: seq<Byte>, version: nat, ecl: Ecc): seq<seq<Byte>>
    requires ValidVersion(version)
  {
    Rows(SymbolLayout(version, ecl), message)
  }

  /** De-interleaving the final message recovers the data codewords. */
  lemma {:induction false} MessageRoundTrip(message: seq<Byte>, data: seq<Byte>, version: nat, ecl: Ecc)
    requires ValidVersion(version) && IsFinalMessage(message, data, version, ecl)
    ensures RowData(SymbolLayout(version, ecl), SymbolRows(message, version, ecl), 0) == data
  {
    hide SymbolLayout, Emit, Rows, Blocks, SplitData, RowData, Divisor, DataFrom, Rectangular;
    var l := SymbolLayout(version, ecl);
    var rows, parts := Rows(l, message), SplitData(l, data, 0);
    forall k | 0 <= k < l.numBlocks ensures |parts[k]| == DataLen(l, k) && parts[k] <= rows[k] {
      RowIsBlock(l, data, Divisor(l.eccLen), k);
    }
    RowDataConcat(l, rows, parts, 0);
    assert parts[0..] == parts;
    SplitLosesNothing(l, data, 0);
  }

  /** Every row a reader deals out is a Reed-Solomon codeword of fewer than 256 bytes, so that wrong
      bytes in up to half as many places as it has check bytes can be put right. */
  lemma {:induction false} RowsAreCodewords(message: seq<Byte>, data: seq<Byte>, version: nat, ecl: Ecc, j: nat)
    requires ValidVersion(version) && IsFinalMessage(message, data, version, ecl)
    requires j < SymbolLayout(version, ecl).numBlocks
    ensures var row := SymbolRows(message, version, ecl)[j];
            |row| <= 255 && CodeDistance.IsCodeword(row, BlockEccLen(version, ecl))
  {
    LayoutConditions(version, ecl);
    assert SymbolLayout(version, ecl).eccLen == BlockEccLen(version, ecl) && Width(SymbolLayout(version, ecl)) <= 255 by {
      hide RawCodewords, NumBlocks, BlockEccLen;
    }
    hide SymbolLayout, Emit, Rows, Blocks, SplitData, Divisor, DataFrom, Rectangular, BlockEccLen, RawCodewords, NumBlocks;
    var l := SymbolLayout(version, ecl);
    RowIsBlock(l, data, Divisor(l.eccLen), j);
    DivisorIsGenerator(l.eccLen);
    hide CodeDistance.IsCodeword, RS.Generator, RS.Remainder;
    CodeDistance.EncodedIsCodeword(SplitData(l, data, 0)[j], Divisor(l.eccLen), l.eccLen);
  }

  /** The final message fills the symbol: one byte for each codeword of the version. */
  lemma {:induction false} MessageLength(message: seq<Byte>, data: seq<Byte>, version: nat, ecl: Ecc)
    requires ValidVersion(version) && IsFinalMessage(message, data, version, ecl)
    ensures |message| == RawCodewords(version)
  {
    hide Rectangular, Emit, Blocks, Divisor, DataFrom, LayoutFor, RawCodewords, NumBlocks, BlockEccLen;
    LayoutConditions(version, ecl);
    var l := SymbolLayout(version, ecl);
    EmitFills(RawCodewords(version), NumBlocks(version, ecl), BlockEccLen(version, ecl), Blocks(l, data, Divisor(l.eccLen)));
  }
}
