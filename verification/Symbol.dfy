/** The symbol under construction: its modules, which of them are function modules, and the methods
    that draw on it. */
module Symbol {
  import opened GaloisField
  import opened Grids
  import opened QrTables
  import opened FormatInfo
  import opened Zigzag
  import opened Masks
  import opened Codewords
  import opened Results
  import opened Penalty
  import opened FunctionPatterns
  import opened Painting
  import opened VersionInfo

  // ---------- Masks ----------

  predicate MaskedAt(g: Grid, fun: Grid, size: nat, msk: nat, c: Cell)
    requires Square(g, size) && Square(fun, size) && msk < 8 && InGrid(c, size)
  {
    Get(g, size, c) != (Inverts(msk, c.x, c.y) && !Get(fun, size, c))
  }

  /** The grid with the mask applied to all modules that are not function modules. */
  function Masked(g: Grid, fun: Grid, size: nat, msk: nat): (h: Grid)
    requires Square(g, size) && Square(fun, size) && msk < 8
    ensures Square(h, size)
    ensures forall c :: InGrid(c, size) ==> Get(h, size, c) == MaskedAt(g, fun, size, msk, c)
  {
    seq(size, y requires 0 <= y < size => seq(size, x requires 0 <= x < size => MaskedAt(g, fun, size, msk, Cell(x, y))))
  }

  /** Applying a mask twice restores the grid. */
  lemma {:induction false} MaskInvolution(g: Grid, fun: Grid, size: nat, msk: nat)
    requires Square(g, size) && Square(fun, size) && msk < 8
    ensures Masked(Masked(g, fun, size, msk), fun, size, msk) == g
  {
    hide Masked, Inverts;
    SameGrid(Masked(Masked(g, fun, size, msk), fun, size, msk), g, size);
  }

  /** The grid with the format information of a level and mask drawn over it. */
  function WithFormat(g: Grid, size: nat, bits: bv32): (h: Grid)
    requires Square(g, size)
    ensures Square(h, size)
    ensures forall c :: InGrid(c, size) ==> Get(h, size, c) == if FormatCell(c, size) then FormatDark(c, size, bits) else Get(g, size, c)
  {
    seq(size, y requires 0 <= y < size => seq(size, x requires 0 <= x < size =>
      if FormatCell(Cell(x, y), size) then FormatDark(Cell(x, y), size, bits) else Get(g, size, Cell(x, y))))
  }

  ghost predicate FormatIsFunction(fun: Grid, size: nat)
    requires Square(fun, size)
  {
    forall c :: InGrid(c, size) && FormatCell(c, size) ==> Get(fun, size, c)
  }

  /** Format information hides whatever format information was there. */
  lemma {:induction false} FormatOverwrites(g: Grid, size: nat, b1: bv32, b2: bv32)
    requires Square(g, size)
    ensures WithFormat(WithFormat(g, size, b1), size, b2) == WithFormat(g, size, b2)
  {
    hide WithFormat, FormatCell, FormatDark;
    SameGrid(WithFormat(WithFormat(g, size, b1), size, b2), WithFormat(g, size, b2), size);
  }

  /** Masking does not touch format information, since it is shown by function modules. */
  lemma {:induction false} MaskKeepsFormat(g: Grid, fun: Grid, size: nat, msk: nat, bits: bv32)
    requires Square(g, size) && Square(fun, size) && msk < 8 && FormatIsFunction(fun, size)
    ensures Masked(WithFormat(g, size, bits), fun, size, msk) == WithFormat(Masked(g, fun, size, msk), size, bits)
  {
    hide Masked, WithFormat, FormatCell, FormatDark, Inverts;
    SameGrid(Masked(WithFormat(g, size, bits), fun, size, msk), WithFormat(Masked(g, fun, size, msk), size, bits), size);
  }

  /** The format modules counted as function modules. */
  function WithFormatCells(fun: Grid, size: nat): (h: Grid)
    requires Square(fun, size)
    ensures Square(h, size)
    ensures forall c :: InGrid(c, size) ==> Get(h, size, c) == (FormatCell(c, size) || Get(fun, size, c))
  {
    seq(size, y requires 0 <= y < size => seq(size, x requires 0 <= x < size =>
      FormatCell(Cell(x, y), size) || Get(fun, size, Cell(x, y))))
  }

  // ---------- Drawing the format, module by module ----------

  /** The first `a` bits of the first copy and the first `b` of the second are drawn. */
  ghost predicate Drawn(m: Grid, f: Grid, m0: Grid, f0: Grid, size: nat, bits: bv32, a: nat, b: nat)
    requires Square(m, size) && Square(f, size) && Square(m0, size) && Square(f0, size)
  {
    forall c :: InGrid(c, size) ==>
      var done := 0 <= FirstCopy(c) < a || 0 <= SecondCopy(c, size) < b;
      && Get(m, size, c) == (if done then FormatDark(c, size, bits) else Get(m0, size, c))
      && Get(f, size, c) == (done || Get(f0, size, c))
  }

  lemma {:induction false} DrawnStart(m0: Grid, f0: Grid, size: nat, bits: bv32)
    requires Square(m0, size) && Square(f0, size)
    ensures Drawn(m0, f0, m0, f0, size, bits, 0, 0)
  {}

  function FirstPlace(i: nat): Cell
    requires i < 15
  {
    if i <= 5 then Cell(8, i) else if i == 6 then Cell(8, 7) else if i == 7 then Cell(8, 8)
    else if i == 8 then Cell(7, 8) else Cell(14 - i, 8)
  }

  function SecondPlace(i: nat, size: nat): Cell
    requires i < 15
  {
    if i < 8 then Cell(size - 1 - i, 8) else Cell(8, size - 15 + i)
  }

  lemma {:induction false} FirstStep(m: Grid, f: Grid, m0: Grid, f0: Grid, size: nat, bits: bv32, i: nat, c: Cell)
    requires Square(m, size) && Square(f, size) && Square(m0, size) && Square(f0, size) && size >= 21
    requires i < 15 && c == FirstPlace(i) && Drawn(m, f, m0, f0, size, bits, i, 0)
    ensures InGrid(c, size)
    ensures Drawn(Set(m, size, c, GetBit(bits, i)), Set(f, size, c, true), m0, f0, size, bits, i + 1, 0)
  {
    hide Get, Set, GetBit;
    assert forall d :: FirstCopy(d) == i <==> d == c;
  }

  lemma {:induction false} SecondStep(m: Grid, f: Grid, m0: Grid, f0: Grid, size: nat, bits: bv32, i: nat, c: Cell)
    requires Square(m, size) && Square(f, size) && Square(m0, size) && Square(f0, size) && size >= 21
    requires i < 15 && c == SecondPlace(i, size) && Drawn(m, f, m0, f0, size, bits, 15, i)
    ensures InGrid(c, size)
    ensures Drawn(Set(m, size, c, GetBit(bits, i)), Set(f, size, c, true), m0, f0, size, bits, 15, i + 1)
  {
    hide Get, Set, GetBit;
    assert forall d :: SecondCopy(d, size) == i <==> d == c;
    assert FirstCopy(c) == -1;
  }

  lemma {:induction false} LastStep(m: Grid, f: Grid, m0: Grid, f0: Grid, size: nat, bits: bv32)
    requires Square(m, size) && Square(f, size) && Square(m0, size) && Square(f0, size) && size >= 21
    requires Drawn(m, f, m0, f0, size, bits, 15, 15)
    ensures InGrid(Cell(8, size - 8), size)
    ensures Set(m, size, Cell(8, size - 8), true) == WithFormat(m0, size, bits)
    ensures Set(f, size, Cell(8, size - 8), true) == WithFormatCells(f0, size)
  {
    hide Get, Set, GetBit, WithFormat, WithFormatCells;
    var c := Cell(8, size - 8);
    SameGrid(Set(m, size, c, true), WithFormat(m0, size, bits), size);
    SameGrid(Set(f, size, c, true), WithFormatCells(f0, size), size);
  }

  const LONG_MAX: int := 0x7FFF_FFFF_FFFF_FFFF

  /** No mask scores lower, and no mask of smaller number scores as low. */
  ghost predicate IsBestMask(g: Grid, fun: Grid, size: nat, ecl: Ecc, mask: nat)
    requires Square(g, size) && Square(fun, size) && size > 0 && mask < 8
  {
    forall k :: 0 <= k < 8 ==>
      var p, best := PenaltyScore(Candidate(g, fun, size, ecl, k), size), PenaltyScore(Candidate(g, fun, size, ecl, mask), size);
      best <= p && (k < mask ==> best < p)
  }

  lemma {:induction false} FormatCellsIdle(fun: Grid, size: nat)
    requires Square(fun, size) && FormatIsFunction(fun, size)
    ensures WithFormatCells(fun, size) == fun
  {
    hide FormatCell;
    SameGrid(WithFormatCells(fun, size), fun, size);
  }

  lemma {:induction false} FormatIsDrawn(m0: Grid, f0: Grid, m: Grid, f: Grid, size: nat, bits: bv32)
    requires Square(m0, size) && Square(f0, size) && m == WithFormat(m0, size, bits) && f == WithFormatCells(f0, size)
    ensures FormatDrawn(m0, f0, m, f, size)
    ensures forall c :: InGrid(c, size) && FormatCell(c, size) ==> Get(m, size, c) == FormatDark(c, size, bits)
  {
    hide Get, WithFormat, WithFormatCells, FormatCell, FormatDark;
  }

  // ---------- The object ----------

  class QrSymbol {
    const version: nat
    const size: nat
    const ecl: Ecc
    var mask: int
    var modules: Grid
    var isFunction: Grid

    ghost predicate Valid()
      reads this
    {
      && ValidVersion(version) && size == 4 * version + 17
      && Square(modules, size) && Square(isFunction, size)
    }

    constructor (version: nat, ecl: Ecc)
      requires ValidVersion(version)
      ensures Valid() && this.version == version && this.ecl == ecl
      ensures Blank(modules, isFunction, size)
    {
      this.version := version;
      this.ecl := ecl;
      mask := 0;
      var sz := version * 4 + 17;
      size := sz;
      modules := seq(sz, _ => seq(sz, _ => false));
      isFunction := seq(sz, _ => seq(sz, _ => false));
    }

    method SetFunctionModule(x: int, y: int, isDark: bool)
      requires Valid() && InGrid(Cell(x, y), size)
      modifies this
      ensures Valid()
      ensures modules == Set(old(modules), size, Cell(x, y), isDark)
      ensures isFunction == Set(old(isFunction), size, Cell(x, y), true)
    {
      modules := Set(modules, size, Cell(x, y), isDark);
      isFunction := Set(isFunction, size, Cell(x, y), true);
    }

    /** Draws the part of a finder pattern and its separator that is inside the symbol. */
    method DrawFinderPattern(x: int, y: int)
      requires Valid()
      modifies this
      ensures Valid()
      ensures Painted(old(modules), old(isFunction), modules, isFunction, size, Around(size, x, y, 4), FinderInk(x, y))
    {
      hide Painted, SquareDone, Around, Get, Set, Square;
      ghost var m0, f0, ink := modules, isFunction, FinderInk(x, y);
      SquareStart(m0, f0, size, x, y, 4, ink);
      for dy := -4 to 5
        invariant Valid() && SquareDone(m0, f0, modules, isFunction, size, x, y, 4, ink, x - 4, y + dy)
      {
        for dx := -4 to 5
          invariant Valid() && SquareDone(m0, f0, modules, isFunction, size, x, y, 4, ink, x + dx, y + dy)
        {
          var dist := Max(Abs(dx), Abs(dy));
          var xx, yy := x + dx, y + dy;
          SquareStep(m0, f0, modules, isFunction, size, x, y, 4, ink, Cell(xx, yy), dist != 2 && dist != 4);
          if 0 <= xx && xx < size && 0 <= yy && yy < size {
            SetFunctionModule(xx, yy, dist != 2 && dist != 4);
          }
        }
        SquareTurn(m0, f0, modules, isFunction, size, x, y, 4, ink, y + dy);
      }
      SquareEnd(m0, f0, modules, isFunction, size, x, y, 4, ink);
    }

    /** Draws an alignment pattern; its modules must all be inside the symbol. */
    method DrawAlignmentPattern(x: int, y: int)
      requires Valid() && 2 <= x < size - 2 && 2 <= y < size - 2
      modifies this
      ensures Valid()
      ensures Painted(old(modules), old(isFunction), modules, isFunction, size, Around(size, x, y, 2), AlignInk(x, y))
    {
      hide Painted, SquareDone, Around, Get, Set, Square;
      ghost var m0, f0, ink := modules, isFunction, AlignInk(x, y);
      SquareStart(m0, f0, size, x, y, 2, ink);
      for dy := -2 to 3
        invariant Valid() && SquareDone(m0, f0, modules, isFunction, size, x, y, 2, ink, x - 2, y + dy)
      {
        for dx := -2 to 3
          invariant Valid() && SquareDone(m0, f0, modules, isFunction, size, x, y, 2, ink, x + dx, y + dy)
        {
          var dark := Max(Abs(dx), Abs(dy)) != 1;
          SquareStep(m0, f0, modules, isFunction, size, x, y, 2, ink, Cell(x + dx, y + dy), dark);
          SetFunctionModule(x + dx, y + dy, dark);
        }
        SquareTurn(m0, f0, modules, isFunction, size, x, y, 2, ink, y + dy);
      }
      SquareEnd(m0, f0, modules, isFunction, size, x, y, 2, ink);
    }

    /** The centres of the alignment patterns on each axis, in ascending order. */
    method GetAlignmentPatternPositions() returns (r: seq<int>)
      requires Valid()
      ensures |r| == NumAlign(version)
      ensures forall i :: 0 <= i < |r| ==> r[i] == AlignPos(version, i)
    {
      if version == 1 {
        return [];
      }
      var numAlign := version / 7 + 2;
      var step := if version == 32 then 26 else (version * 4 + numAlign * 2 + 1) / (numAlign * 2 - 2) * 2;
      LastAlignPos(version);
      hide AlignStep, AlignPos;
      r := [];
      var pos := size - 7;
      for i := 0 to numAlign - 1
        invariant |r| == i && (i < numAlign - 1 ==> pos == AlignPos(version, numAlign - 1 - i))
        invariant forall k :: 0 <= k < i ==> r[k] == AlignPos(version, numAlign - i + k)
      {
        r := [pos] + r;
        AlignPosStep(version, numAlign - 1 - i);
        pos := pos - step;
      }
      AlignPosStep(version, 0);
      r := [6] + r;
    }

    /** Draws the alignment patterns, except at the three finder corners. */
    method DrawAlignmentPatterns()
      requires Valid()
      modifies this
      ensures Valid()
      ensures AlignPainted(old(modules), old(isFunction), modules, isFunction, size, version)
    {
      hide AlignPainted, AlignDone, Painted, Get, Set, Square, NumAlign, AlignPos, AlignIndices, Around, AlignInk;
      ghost var m0, f0 := modules, isFunction;
      var alignPatPos := GetAlignmentPatternPositions();
      var numAlign := |alignPatPos|;
      if version == 1 {
        NoAlignmentPainted(m0, f0, size);
        NoCentres();
        return;
      }
      AlignStart(m0, f0, size, version);
      for i := 0 to numAlign
        invariant Valid() && AlignDone(m0, f0, modules, isFunction, size, version, i, 0)
      {
        for j := 0 to numAlign
          invariant Valid() && AlignDone(m0, f0, modules, isFunction, size, version, i, j)
        {
          ghost var m, f := modules, isFunction;
          IndicesMeaning(numAlign, i, j);
          if !((i == 0 && j == 0) || (i == 0 && j == numAlign - 1) || (i == numAlign - 1 && j == 0)) {
            CentreInside(version, i);
            CentreInside(version, j);
            DrawAlignmentPattern(alignPatPos[i], alignPatPos[j]);
            AlignPattern(m0, f0, m, f, modules, isFunction, size, version, i, j);
          } else {
            AlignSkip(m0, f0, m, f, size, version, i, j);
          }
        }
        AlignTurn(m0, f0, modules, isFunction, size, version, i, numAlign);
      }
      AlignEnd(m0, f0, modules, isFunction, size, version);
    }

    method DrawTimingPatterns()
      requires Valid()
      modifies this
      ensures Valid()
      ensures Painted(old(modules), old(isFunction), modules, isFunction, size, Lines(size, size), TimingInk())
    {
      hide Painted, Lines, TimingInk, Get, Set, Square;
      ghost var m0, f0 := modules, isFunction;
      NoLines(m0, f0, size);
      for i := 0 to size
        invariant Valid() && Painted(m0, f0, modules, isFunction, size, Lines(size, i), TimingInk())
      {
        LinesStep(m0, f0, modules, isFunction, size, i);
        SetFunctionModule(6, i, i % 2 == 0);
        SetFunctionModule(i, 6, i % 2 == 0);
      }
    }

    /** Draws all function patterns on the blank symbol. */
    method DrawFunctionPatterns()
      requires Valid() && Blank(modules, isFunction, size)
      modifies this
      ensures Valid()
      ensures PatternsShown(modules, size, version) && FunctionsMarked(isFunction, size, version)
      ensures LightElsewhere(modules, size, version)
      ensures ShowsFormat(modules, size, ecl, 0)
    {
      hide Painted, Lines, TimingInk, Get, Square, Blank, Around, FinderInk, CornersShown, AlignPainted, VersionSet, VersionInk;
      hide FormatDrawn, LightElsewhere, PatternsShown, FunctionsMarked, WithFormat, WithFormatCells, FormatWord, FormatCell, FormatDark;
      ghost var m0, f0 := modules, isFunction;
      DrawTimingPatterns();
      ghost var m1, f1 := modules, isFunction;
      DrawFinderPattern(3, 3);
      ghost var m2, f2 := modules, isFunction;
      DrawFinderPattern(size - 4, 3);
      ghost var m3, f3 := modules, isFunction;
      DrawFinderPattern(3, size - 4);
      ghost var m4, f4 := modules, isFunction;
      Corners(m0, f0, m1, f1, m2, f2, m3, f3, m4, f4, size);
      DrawAlignmentPatterns();
      ghost var m5, f5 := modules, isFunction;
      DrawFormatBits(0);
      ghost var m6, f6 := modules, isFunction;
      FormatIsDrawn(m5, f5, m6, f6, size, FormatWord(ecl, 0));
      DrawVersion();
      Picture(m4, f4, m5, f5, m6, f6, modules, isFunction, size, version);
    }

    /** Draws two copies of the version information, from version 7 on. */
    method DrawVersion()
      requires Valid()
      modifies this
      ensures Valid()
      ensures Painted(old(modules), old(isFunction), modules, isFunction, size, VersionSet(version), VersionInk(version))
    {
      hide Painted, VersionDone, VersionSet, VersionInk, VersionWord, GetBit, Get, Set, Square;
      ghost var m0, f0 := modules, isFunction;
      if version < 7 {
        NoVersionModules(m0, f0, size, version);
        return;
      }
      var bits := ComputeVersionWord(version);
      VersionStart(m0, f0, size, version);
      for i := 0 to 18
        invariant Valid() && VersionDone(m0, f0, modules, isFunction, size, version, i)
      {
        var bit := GetBit(bits, i);
        var a, b := size - 11 + i % 3, i / 3;
        VersionBitDrawn(m0, f0, modules, isFunction, size, version, i, a, b, bit);
        SetFunctionModule(a, b, bit);
        SetFunctionModule(b, a, bit);
      }
      VersionFinished(m0, f0, modules, isFunction, size, version);
    }

    /** Inverts the modules of the mask that are not function modules, row by row. */
    method ApplyMask(msk: int) returns (r: Result<()>)
      requires Valid()
      modifies `modules
      ensures Valid()
      ensures r.Err? <==> msk < 0 || msk > 7
      ensures r.Err? ==> r.error == DomainError && modules == old(modules)
      ensures r.Ok? ==> modules == Masked(old(modules), isFunction, size, msk)
    {
      if msk < 0 || msk > 7 {
        return Err(DomainError);
      }
      hide Inverts, Get;
      ghost var before := modules;
      for y := 0 to size
        invariant Square(modules, size)
        invariant forall c :: InGrid(c, size) ==>
          Get(modules, size, c) == if c.y < y then MaskedAt(before, isFunction, size, msk, c) else Get(before, size, c)
      {
        for x := 0 to size
          invariant Square(modules, size)
          invariant forall c :: InGrid(c, size) ==>
            Get(modules, size, c) ==
            if c.y < y || (c.y == y && c.x < x) then MaskedAt(before, isFunction, size, msk, c) else Get(before, size, c)
        {
          var c := Cell(x, y);
          var invert := Inverts(msk, x, y);
          modules := Set(modules, size, c, Get(modules, size, c) != (invert && !Get(isFunction, size, c)));
        }
      }
      SameGrid(modules, Masked(before, isFunction, size, msk), size);
      r := Ok(());
    }

    /** Masks the data and draws the format information. */
    method ShowCandidate(msk: nat, ghost g: Grid)
      requires Valid() && msk < 8 && Square(g, size) && FormatIsFunction(isFunction, size)
      requires exists bits :: modules == WithFormat(g, size, bits)
      modifies this
      ensures Valid() && isFunction == old(isFunction)
      ensures modules == Candidate(g, isFunction, size, ecl, msk)
    {
      hide Masked, WithFormat, WithFormatCells, FormatWord, FormatIsFunction;
      ghost var bits :| modules == WithFormat(g, size, bits);
      CandidateIgnoresFormat(g, isFunction, size, ecl, msk, bits);
      FormatCellsIdle(isFunction, size);
      var _ := ApplyMask(msk);
      DrawFormatBits(msk);
    }

    /** Tries all eight masks and ends with the one of least penalty, the first on ties. A mask of -1
        asks for the choice; another is taken as it is. */
    method FinishMask(msk: int) returns (mask: nat)
      requires Valid() && -1 <= msk < 8 && FormatIsFunction(isFunction, size)
      requires exists bits :: modules == WithFormat(modules, size, bits)
      modifies this
      ensures Valid() && isFunction == old(isFunction) && mask < 8
      ensures modules == Candidate(old(modules), isFunction, size, ecl, mask)
      ensures msk != -1 ==> mask == msk
      ensures msk == -1 ==> IsBestMask(old(modules), isFunction, size, ecl, mask)
    {
      hide Masked, WithFormat, FormatWord, Candidate, FormatIsFunction, PenaltyScore;
      ghost var g := modules;
      var best := msk;
      if msk == -1 {
        var minPenalty := LONG_MAX;
        for i := 0 to 8
          invariant Valid() && isFunction == old(isFunction)
          invariant exists bits :: modules == WithFormat(g, size, bits)
          invariant i > 0 ==> 0 <= best < i && minPenalty == PenaltyScore(Candidate(g, isFunction, size, ecl, best), size)
          invariant i > 0 ==> forall k :: 0 <= k < i ==>
            var p := PenaltyScore(Candidate(g, isFunction, size, ecl, k), size);
            minPenalty <= p && (k < best ==> minPenalty < p)
          invariant i == 0 ==> minPenalty == LONG_MAX
        {
          ShowCandidate(i, g);
          var penalty := GetPenaltyScore(modules, size);
          PenaltyScoreBounds(modules, size);
          if penalty < minPenalty {
            best := i;
            minPenalty := penalty;
          }
          CandidateUnmasked(g, isFunction, size, ecl, i);
          var _ := ApplyMask(i);
        }
      }
      mask := best;
      ShowCandidate(mask, g);
    }

    /** Draws both copies of the format information of a mask. */
    method DrawFormatBits(msk: nat)
      requires Valid() && msk < 8
      modifies this
      ensures Valid()
      ensures modules == WithFormat(old(modules), size, FormatWord(ecl, msk))
      ensures isFunction == WithFormatCells(old(isFunction), size)
    {
      hide GetBit, FormatWord, Drawn, WithFormat, WithFormatCells;
      ghost var m0, f0 := modules, isFunction;
      var bits := ComputeFormatWord(ecl, msk);
      DrawnStart(m0, f0, size, bits);
      DrawFirstCopy(bits, m0, f0);
      DrawSecondCopy(bits, m0, f0);
      LastStep(modules, isFunction, m0, f0, size, bits);
      SetFunctionModule(8, size - 8, true);
    }

    method DrawFirstCopy(bits: bv32, ghost m0: Grid, ghost f0: Grid)
      requires Valid() && Square(m0, size) && Square(f0, size)
      requires Drawn(modules, isFunction, m0, f0, size, bits, 0, 0)
      modifies this
      ensures Valid() && Drawn(modules, isFunction, m0, f0, size, bits, 15, 0)
    {
      hide GetBit, Get, Drawn;
      for i := 0 to 6
        invariant Valid() && Drawn(modules, isFunction, m0, f0, size, bits, i, 0)
      {
        FirstStep(modules, isFunction, m0, f0, size, bits, i, Cell(8, i));
        SetFunctionModule(8, i, GetBit(bits, i));
      }
      FirstStep(modules, isFunction, m0, f0, size, bits, 6, Cell(8, 7));
      SetFunctionModule(8, 7, GetBit(bits, 6));
      FirstStep(modules, isFunction, m0, f0, size, bits, 7, Cell(8, 8));
      SetFunctionModule(8, 8, GetBit(bits, 7));
      FirstStep(modules, isFunction, m0, f0, size, bits, 8, Cell(7, 8));
      SetFunctionModule(7, 8, GetBit(bits, 8));
      for i := 9 to 15
        invariant Valid() && Drawn(modules, isFunction, m0, f0, size, bits, i, 0)
      {
        FirstStep(modules, isFunction, m0, f0, size, bits, i, Cell(14 - i, 8));
        SetFunctionModule(14 - i, 8, GetBit(bits, i));
      }
    }

    method DrawSecondCopy(bits: bv32, ghost m0: Grid, ghost f0: Grid)
      requires Valid() && Square(m0, size) && Square(f0, size)
      requires Drawn(modules, isFunction, m0, f0, size, bits, 15, 0)
      modifies this
      ensures Valid() && Drawn(modules, isFunction, m0, f0, size, bits, 15, 15)
    {
      hide GetBit, Get, Drawn;
      for i := 0 to 8
        invariant Valid() && Drawn(modules, isFunction, m0, f0, size, bits, 15, i)
      {
        SecondStep(modules, isFunction, m0, f0, size, bits, i, Cell(size - 1 - i, 8));
        SetFunctionModule(size - 1 - i, 8, GetBit(bits, i));
      }
      for i := 8 to 15
        invariant Valid() && Drawn(modules, isFunction, m0, f0, size, bits, 15, i)
      {
        SecondStep(modules, isFunction, m0, f0, size, bits, i, Cell(8, size - 15 + i));
        SetFunctionModule(8, size - 15 + i, GetBit(bits, i));
      }
    }

    /** The zigzag scan; true if all bits found a place. */
    method DrawCodewords(data: seq<Byte>) returns (r: Result<bool>)
      requires Valid()
      modifies `modules
      ensures Valid()
      ensures r.Err? <==> |data| != RawCodewords(version)
      ensures r.Err? ==> r.error == InvalidArgument && modules == old(modules)
      ensures r.Ok? ==> AllIn(Scan(size), size) && modules == Place(old(modules), isFunction, size, Scan(size), ReadBits(data))
      ensures r.Ok? ==> (r.value <==> FreeCount(isFunction, size, Scan(size)) >= 8 * |data|)
    {
      hide RawCodewords, Placing, Place, Scan, FreeCount, ReadBits, Get, Set, BitAt, Upward;
      if |data| != RawCodewords(version) {
        return Err(InvalidArgument);
      }
      ghost var before, bits := modules, ReadBits(data);
      var i := 0;
      var right := size - 1;
      PlacingStart(isFunction, size, before, bits);
      while right >= 1
        invariant Square(modules, size) && 0 <= i && -1 <= right
        invariant ScanPoint(size, Skip6(right), 0, 0)
        invariant Placing(modules, isFunction, size, before, bits, i, Skip6(right), 0, 0)
      {
        if right == 6 {
          right := 5;
        }
        for vert := 0 to size
          invariant Square(modules, size) && 0 <= i
          invariant Placing(modules, isFunction, size, before, bits, i, right, vert, 0)
        {
          for j := 0 to 2
            invariant Square(modules, size) && 0 <= i
            invariant Placing(modules, isFunction, size, before, bits, i, right, vert, j)
          {
            PlacingVisit(modules, isFunction, size, before, bits, i, right, vert, j);
            var c := Cell(right - j, if Upward(right) then size - 1 - vert else vert);
            if !Get(isFunction, size, c) && i < |data| * 8 {
              BitIsRead(data, i);
              modules := Set(modules, size, c, BitAt(data, i));
              i := i + 1;
            }
          }
          PlacingTurn(modules, isFunction, size, before, bits, i, right, vert);
        }
        PlacingTurn(modules, isFunction, size, before, bits, i, right, 0);
        right := right - 2;
      }
      PlacingEnd(modules, isFunction, size, before, bits, i, Skip6(right));
      r := Ok(i == |data| * 8);
    }
  }

  // ---------- Choosing the mask ----------

  /** The finished symbol for a mask: data masked, format information of that mask. */
  function Candidate(g: Grid, fun: Grid, size: nat, ecl: Ecc, msk: nat): (h: Grid)
    requires Square(g, size) && Square(fun, size) && msk < 8
    ensures Square(h, size)
  {
    WithFormat(Masked(g, fun, size, msk), size, FormatWord(ecl, msk))
  }

  /** The candidate does not depend on the format information that was there before. */
  lemma {:induction false} CandidateIgnoresFormat(g: Grid, fun: Grid, size: nat, ecl: Ecc, msk: nat, bits: bv32)
    requires Square(g, size) && Square(fun, size) && msk < 8 && FormatIsFunction(fun, size)
    ensures Candidate(WithFormat(g, size, bits), fun, size, ecl, msk) == Candidate(g, fun, size, ecl, msk)
  {
    hide Masked, WithFormat, FormatWord;
    MaskKeepsFormat(g, fun, size, msk, bits);
    FormatOverwrites(Masked(g, fun, size, msk), size, bits, FormatWord(ecl, msk));
  }

  /** Undoing the mask of a candidate leaves the unmasked data with the candidate's format. */
  lemma {:induction false} CandidateUnmasked(g: Grid, fun: Grid, size: nat, ecl: Ecc, msk: nat)
    requires Square(g, size) && Square(fun, size) && msk < 8 && FormatIsFunction(fun, size)
    ensures Masked(Candidate(g, fun, size, ecl, msk), fun, size, msk) == WithFormat(g, size, FormatWord(ecl, msk))
  {
    hide Masked, WithFormat, FormatWord;
    MaskKeepsFormat(Masked(g, fun, size, msk), fun, size, msk, FormatWord(ecl, msk));
    MaskInvolution(g, fun, size, msk);
  }

  lemma {:induction false} BitIsRead(data: seq<Byte>, i: nat)
    requires i < 8 * |data|
    ensures ReadBits(data)[i] == BitAt(data, i)
  {
    hide BitAt;
  }
}
