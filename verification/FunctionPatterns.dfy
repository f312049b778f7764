/** Which modules are function modules, and how many are left for the codewords.

    The encoder computes the number of remaining modules by a formula. Here the function modules of
    every version are taken apart into rectangles that do not overlap, and the formula is proved. */
module FunctionPatterns {
  import opened Grids
  import opened QrTables
  import opened FormatInfo
  import opened Arithmetic

  function SizeOf(version: nat): nat { 4 * version + 17 }

  // ---------- Alignment pattern positions ----------

  function NumAlign(version: nat): nat { if version == 1 then 0 else version / 7 + 2 }

  function AlignStep(version: nat): int
    requires 2 <= version <= 40
  {
    if version == 32 then 26
    else (version * 4 + NumAlign(version) * 2 + 1) / (NumAlign(version) * 2 - 2) * 2
  }

  /** The centre with index `i`, on either axis. */
  function AlignPos(version: nat, i: nat): int
    requires 2 <= version <= 40
  {
    if i == 0 then 6 else SizeOf(version) - 7 - (NumAlign(version) - 1 - i) * AlignStep(version)
  }

  /** The centres after the first are at least 16 apart when there are three or more, the second is at
      least at 18, and the last is 7 from the edge. */
  lemma {:induction false} AlignStepFacts(version: nat)
    requires 2 <= version <= 40
    ensures 2 <= NumAlign(version) <= 7
    ensures NumAlign(version) >= 3 ==> AlignStep(version) >= 16
    ensures AlignPos(version, 1) >= 18
  {
    var n := NumAlign(version);
    if n == 2 {
    } else if n == 3 {
    } else if n == 4 {
    } else if n == 5 {
    } else if n == 6 {
    } else {
    }
  }

  lemma {:induction false} AlignPosOrder(version: nat, i: nat, j: nat)
    requires 2 <= version <= 40 && i < j < NumAlign(version)
    ensures AlignPos(version, i) + 12 <= AlignPos(version, j)
    ensures i >= 1 ==> AlignPos(version, i) + 16 <= AlignPos(version, j)
    ensures AlignPos(version, NumAlign(version) - 1) == SizeOf(version) - 7
  {
    AlignStepFacts(version);
    hide AlignStep, NumAlign;
    var n, step := NumAlign(version), AlignStep(version);
    if i >= 1 {
      StepsBetween(n - 1 - j, n - 1 - i, step);
    } else if j >= 2 {
      StepsBetween(n - 1 - j, n - 2, step);
    }
  }

  /** The step is even, and the least even one with which the centres reach from the last one back to
      the first; version 32 takes the next smaller. */
  lemma {:induction false} AlignStepIsLeast(version: nat)
    requires 2 <= version <= 40
    ensures var n, step, span := NumAlign(version), AlignStep(version), SizeOf(version) - 13;
            && step % 2 == 0
            && (version != 32 ==> (n - 1) * (step - 2) < span <= (n - 1) * step)
            && (version == 32 ==> step == 26 && (n - 1) * 26 < span <= (n - 1) * 28)
  {
    var n := NumAlign(version);
    if n == 2 {
    } else if n == 3 {
    } else if n == 4 {
    } else if n == 5 {
    } else if n == 6 {
    } else {
    }
  }

  /** Three of the rows of Table E.1. */
  lemma {:induction false} AlignPositionRows()
    ensures NumAlign(7) == 3 && AlignPos(7, 0) == 6 && AlignPos(7, 1) == 22 && AlignPos(7, 2) == 38
    ensures NumAlign(32) == 6 && AlignPos(32, 1) == 34 && AlignPos(32, 2) == 60 && AlignPos(32, 5) == 138
    ensures NumAlign(40) == 7 && AlignPos(40, 1) == 30 && AlignPos(40, 2) == 58 && AlignPos(40, 6) == 170
  {}

  lemma {:induction false} StepsBetween(a: int, b: int, step: int)
    requires a < b && step >= 16
    ensures b * step >= a * step + 16
    decreases b - a
  {
    NextMultiple(b - 1, step);
    if a < b - 1 { StepsBetween(a, b - 1, step); }
  }

  lemma {:induction false} AlignPosStep(version: nat, i: nat)
    requires 2 <= version <= 40
    ensures i >= 2 ==> AlignPos(version, i) - AlignStep(version) == AlignPos(version, i - 1)
    ensures AlignPos(version, 0) == 6
  {
    hide AlignStep;
    var n, step := NumAlign(version), AlignStep(version);
    assert (n - 1 - i) * step + step == (n - i) * step;
  }

  // ---------- Function modules ----------

  predicate TimingCell(c: Cell) { c.x == 6 || c.y == 6 }

  /** The finder patterns with their separators, in three corners. */
  predicate FinderCell(c: Cell, size: nat)
  {
    (c.x <= 7 && c.y <= 7) || (c.x >= size - 8 && c.y <= 7) || (c.x <= 7 && c.y >= size - 8)
  }

  predicate VersionCell(c: Cell, version: nat)
  {
    var size := SizeOf(version);
    version >= 7 && ((size - 11 <= c.x <= size - 9 && c.y <= 5) || (c.x <= 5 && size - 11 <= c.y <= size - 9))
  }

  /** Alignment patterns leave out the three finder corners. */
  predicate AlignIndices(n: nat, i: nat, j: nat)
  {
    i < n && j < n && !(i == 0 && j == 0) && !(i == 0 && j == n - 1) && !(i == n - 1 && j == 0)
  }

  predicate Near(a: int, b: int) { b - 2 <= a <= b + 2 }

  predicate AlignNear(version: nat, c: Cell, i: nat, j: nat)
    requires 2 <= version <= 40
  {
    Near(c.x, AlignPos(version, i)) && Near(c.y, AlignPos(version, j))
  }

  ghost predicate AlignCell(c: Cell, version: nat)
    requires ValidVersion(version)
  {
    version >= 2 && exists i: nat, j: nat :: AlignIndices(NumAlign(version), i, j) && AlignNear(version, c, i, j)
  }

  ghost predicate FunctionCell(c: Cell, version: nat)
    requires ValidVersion(version)
  {
    TimingCell(c) || FinderCell(c, SizeOf(version)) || AlignCell(c, version)
    || FormatCell(c, SizeOf(version)) || VersionCell(c, version)
  }

  // ---------- Bands around the alignment centres ----------

  /** Coordinates within 2 of the centres 1 to k. */
  function Bands(version: nat, k: nat): set<int>
    requires 2 <= version <= 40
  {
    if k == 0 then {}
    else Bands(version, k - 1) + Interval(AlignPos(version, k) - 2, AlignPos(version, k) + 3)
  }

  lemma {:induction false} InBands(version: nat, k: nat, x: int)
    requires 2 <= version <= 40
    ensures x in Bands(version, k) <==> exists i: nat :: 1 <= i <= k && Near(x, AlignPos(version, i))
  {
    hide AlignPos;
    if k == 0 {
    } else {
      InBands(version, k - 1, x);
      if Near(x, AlignPos(version, k)) {
      } else if x in Bands(version, k) {
        var i: nat :| 1 <= i <= k - 1 && Near(x, AlignPos(version, i));
        assert 1 <= i <= k;
      }
    }
  }

  lemma {:induction false} BandsBelow(version: nat, k: nat, x: int)
    requires 2 <= version <= 40 && 1 <= k < NumAlign(version) && x in Bands(version, k - 1)
    ensures x < AlignPos(version, k) - 2
  {
    hide Bands, AlignPos, NumAlign;
    InBands(version, k - 1, x);
    var i: nat :| 1 <= i <= k - 1 && Near(x, AlignPos(version, i));
    AlignPosOrder(version, i, k);
  }

  lemma {:induction false} NextBand(version: nat, k: nat)
    requires 2 <= version <= 40 && 1 <= k < NumAlign(version)
    ensures var lower, band := Bands(version, k - 1), Interval(AlignPos(version, k) - 2, AlignPos(version, k) + 3);
            Bands(version, k) == lower + band && lower !! band
  {
    hide AlignPos, NumAlign, Interval;
    var a := AlignPos(version, k);
    var lower, band := Bands(version, k - 1), Interval(a - 2, a + 3);
    forall x | x in lower ensures x !in band { BandsBelow(version, k, x); }
  }

  lemma {:induction false} BandsSize(version: nat, k: nat)
    requires 2 <= version <= 40 && k < NumAlign(version)
    ensures |Bands(version, k)| == 5 * k
  {
    hide AlignPos, NumAlign, Interval, Bands;
    if k == 0 {
      NoBands(version);
    } else {
      BandsSize(version, k - 1);
      NextBand(version, k);
      var a := AlignPos(version, k);
      IntervalSize(a - 2, a + 3);
      UnionSize(Bands(version, k - 1), Interval(a - 2, a + 3));
    }
  }

  lemma {:induction false} NoBands(version: nat)
    requires 2 <= version <= 40
    ensures Bands(version, 0) == {}
  {}

  // ---------- Five groups that do not overlap ----------

  function FinderSet(size: nat): set<Cell>
  {
    Rect(0, 8, 0, 8) + Rect(size - 8, size, 0, 8) + Rect(0, 8, size - 8, size)
  }

  /** The timing patterns between the finders. */
  function TimingSet(size: nat): set<Cell>
  {
    Rect(6, 7, 8, size - 8) + Rect(8, size - 8, 6, 7)
  }

  function FormatSet(size: nat): set<Cell>
  {
    Rect(8, 9, 0, 6) + Rect(8, 9, 7, 9) + Rect(0, 6, 8, 9) + Rect(7, 8, 8, 9)
    + Rect(8, 9, size - 8, size) + Rect(size - 8, size, 8, 9)
  }

  function VersionSet(version: nat): set<Cell>
  {
    var size := SizeOf(version);
    if version < 7 then {} else Rect(size - 11, size - 8, 0, 6) + Rect(0, 6, size - 11, size - 8)
  }

  function BesideTiming(): set<int> { Interval(4, 6) + Interval(7, 9) }

  /** The alignment patterns without the timing modules they cross. */
  function AlignSet(version: nat): set<Cell>
    requires ValidVersion(version)
  {
    if version == 1 then {}
    else
      var n := NumAlign(version);
      var inner, outer := Bands(version, n - 1), Bands(version, n - 2);
      Product(inner, inner) + Product(BesideTiming(), outer) + Product(outer, BesideTiming())
  }

  lemma {:induction false} FinderSetSize(size: nat)
    requires size >= 21
    ensures |FinderSet(size)| == 192
    ensures forall c :: c in FinderSet(size) <==> InGrid(c, size) && FinderCell(c, size)
  {
    hide Rect;
    InRect(0, 8, 0, 8);
    InRect(size - 8, size, 0, 8);
    InRect(0, 8, size - 8, size);
    RectSize(0, 8, 0, 8);
    RectSize(size - 8, size, 0, 8);
    RectSize(0, 8, size - 8, size);
    var a, b, d := Rect(0, 8, 0, 8), Rect(size - 8, size, 0, 8), Rect(0, 8, size - 8, size);
    UnionSize(a, b);
    UnionSize(a + b, d);
  }

  lemma {:induction false} TimingSetSize(size: nat)
    requires size >= 21
    ensures |TimingSet(size)| == 2 * (size - 16)
    ensures forall c :: c in TimingSet(size) <==> InGrid(c, size) && TimingCell(c) && !FinderCell(c, size)
  {
    hide Rect;
    InRect(6, 7, 8, size - 8);
    InRect(8, size - 8, 6, 7);
    RectSize(6, 7, 8, size - 8);
    RectSize(8, size - 8, 6, 7);
    UnionSize(Rect(6, 7, 8, size - 8), Rect(8, size - 8, 6, 7));
  }

  lemma {:induction false} FormatSetMembers(size: nat)
    requires size >= 21
    ensures forall c :: c in FormatSet(size) <==> InGrid(c, size) && FormatCell(c, size)
  {
    hide Rect;
    InRect(8, 9, 0, 6);
    InRect(8, 9, 7, 9);
    InRect(0, 6, 8, 9);
    InRect(7, 8, 8, 9);
    InRect(8, 9, size - 8, size);
    InRect(size - 8, size, 8, 9);
  }

  lemma {:induction false} FormatSetSize(size: nat)
    requires size >= 21
    ensures |FormatSet(size)| == 31
  {
    hide Rect;
    var a, b, d, e := Rect(8, 9, 0, 6), Rect(8, 9, 7, 9), Rect(0, 6, 8, 9), Rect(7, 8, 8, 9);
    var f, g := Rect(8, 9, size - 8, size), Rect(size - 8, size, 8, 9);
    RectSize(8, 9, 0, 6);
    RectSize(8, 9, 7, 9);
    RectSize(0, 6, 8, 9);
    RectSize(7, 8, 8, 9);
    RectSize(8, 9, size - 8, size);
    RectSize(size - 8, size, 8, 9);
    assert a !! b by { RectsApart(8, 9, 0, 6, 8, 9, 7, 9); }
    UnionSize(a, b);
    assert a + b !! d by { RectsApart(8, 9, 0, 6, 0, 6, 8, 9); RectsApart(8, 9, 7, 9, 0, 6, 8, 9); }
    UnionSize(a + b, d);
    assert a + b + d !! e by {
      RectsApart(8, 9, 0, 6, 7, 8, 8, 9);
      RectsApart(8, 9, 7, 9, 7, 8, 8, 9);
      RectsApart(0, 6, 8, 9, 7, 8, 8, 9);
    }
    UnionSize(a + b + d, e);
    assert a + b + d + e !! f by {
      RectsApart(8, 9, 0, 6, 8, 9, size - 8, size);
      RectsApart(8, 9, 7, 9, 8, 9, size - 8, size);
      RectsApart(0, 6, 8, 9, 8, 9, size - 8, size);
      RectsApart(7, 8, 8, 9, 8, 9, size - 8, size);
    }
    UnionSize(a + b + d + e, f);
    assert a + b + d + e + f !! g by {
      RectsApart(8, 9, 0, 6, size - 8, size, 8, 9);
      RectsApart(8, 9, 7, 9, size - 8, size, 8, 9);
      RectsApart(0, 6, 8, 9, size - 8, size, 8, 9);
      RectsApart(7, 8, 8, 9, size - 8, size, 8, 9);
      RectsApart(8, 9, size - 8, size, size - 8, size, 8, 9);
    }
    UnionSize(a + b + d + e + f, g);
  }

  lemma {:induction false} VersionSetSize(version: nat)
    requires ValidVersion(version)
    ensures |VersionSet(version)| == if version < 7 then 0 else 36
    ensures forall c :: c in VersionSet(version) <==> InGrid(c, SizeOf(version)) && VersionCell(c, version)
  {
    hide Rect;
    if version >= 7 {
      var size := SizeOf(version);
      var a, b := Rect(size - 11, size - 8, 0, 6), Rect(0, 6, size - 11, size - 8);
      InRect(size - 11, size - 8, 0, 6);
      InRect(0, 6, size - 11, size - 8);
      RectSize(size - 11, size - 8, 0, 6);
      RectSize(0, 6, size - 11, size - 8);
      assert VersionSet(version) == a + b;
      hide VersionSet;
      UnionSize(a, b);
    }
  }

  lemma {:induction false} BesideTimingSize()
    ensures |BesideTiming()| == 4
    ensures forall x :: x in BesideTiming() <==> Near(x, 6) && x != 6
  {
    IntervalSize(4, 6);
    IntervalSize(7, 9);
    UnionSize(Interval(4, 6), Interval(7, 9));
  }

  lemma {:induction false} BandsAbove(version: nat, k: nat, x: int)
    requires 2 <= version <= 40 && k < NumAlign(version) && x in Bands(version, k)
    ensures 16 <= x < SizeOf(version) - 4
    ensures k < NumAlign(version) - 1 ==> x < SizeOf(version) - 20
  {
    hide Bands, AlignPos, NumAlign;
    InBands(version, k, x);
    AlignStepFacts(version);
    var i: nat :| 1 <= i <= k && Near(x, AlignPos(version, i));
    if i > 1 { AlignPosOrder(version, 1, i); }
    LastAlignPos(version);
    if i < NumAlign(version) - 1 { AlignPosOrder(version, i, NumAlign(version) - 1); }
  }

  lemma {:induction false} LastAlignPos(version: nat)
    requires 2 <= version <= 40
    ensures NumAlign(version) >= 2 && AlignPos(version, NumAlign(version) - 1) == SizeOf(version) - 7
  {}

  /** The three products of an alignment set do not overlap. */
  lemma {:induction false} ThreeProducts(inner: set<int>, outer: set<int>, beside: set<int>, p: nat, q: nat)
    requires inner !! beside && outer !! beside && |inner| == p && |outer| == q && |beside| == 4
    ensures |Product(inner, inner) + Product(beside, outer) + Product(outer, beside)| == p * p + 8 * q
  {
    hide Product;
    ProductSize(inner, inner);
    ProductSize(beside, outer);
    ProductSize(outer, beside);
    InProduct(inner, inner);
    InProduct(beside, outer);
    InProduct(outer, beside);
    UnionSize(Product(inner, inner), Product(beside, outer));
    UnionSize(Product(inner, inner) + Product(beside, outer), Product(outer, beside));
  }

  lemma {:induction false} BandsApart(version: nat, k: nat)
    requires 2 <= version <= 40 && k < NumAlign(version)
    ensures Bands(version, k) !! BesideTiming()
  {
    hide Bands, NumAlign, BesideTiming;
    BesideTimingSize();
    forall x | x in Bands(version, k) ensures x !in BesideTiming() { BandsAbove(version, k, x); }
  }

  lemma {:induction false} AlignSetIs(version: nat, n: nat)
    requires 2 <= version <= 40 && n == NumAlign(version)
    ensures n >= 2 && AlignSet(version) == Product(Bands(version, n - 1), Bands(version, n - 1))
      + Product(BesideTiming(), Bands(version, n - 2)) + Product(Bands(version, n - 2), BesideTiming())
  {
    hide Bands, BesideTiming, Product;
  }

  lemma {:induction false} AlignSetSize(version: nat, n: nat)
    requires 2 <= version <= 40 && n == NumAlign(version)
    ensures |AlignSet(version)| == (25 * n - 10) * n - 55
  {
    hide *;
    AlignSetIs(version, n);
    BandsSize(version, n - 1);
    BandsSize(version, n - 2);
    BesideTimingSize();
    BandsApart(version, n - 1);
    BandsApart(version, n - 2);
    ThreeProducts(Bands(version, n - 1), Bands(version, n - 2), BesideTiming(), 5 * (n - 1), 5 * (n - 2));
    AlignArea(n);
  }

  lemma {:induction false} AlignArea(n: nat)
    requires n >= 2
    ensures (5 * (n - 1)) * (5 * (n - 1)) + 8 * (5 * (n - 2)) == (25 * n - 10) * n - 55
  {}

  lemma {:induction false} AlignSetCases(version: nat, c: Cell, n: nat)
    requires 2 <= version <= 40 && n == NumAlign(version)
    ensures n >= 2 && (c in AlignSet(version) <==>
      || (c.x in Bands(version, n - 1) && c.y in Bands(version, n - 1))
      || (Near(c.x, 6) && c.x != 6 && c.y in Bands(version, n - 2))
      || (c.x in Bands(version, n - 2) && Near(c.y, 6) && c.y != 6))
  {
    hide Bands, BesideTiming, Product, NumAlign, AlignSet;
    AlignSetIs(version, n);
    InProduct(Bands(version, n - 1), Bands(version, n - 1));
    InProduct(BesideTiming(), Bands(version, n - 2));
    InProduct(Bands(version, n - 2), BesideTiming());
    BesideTimingSize();
  }

  lemma {:induction false} BandsNear(version: nat, k: nat, x: int)
    requires 2 <= version <= 40
    ensures x in Bands(version, k) <==> NearOneOf(version, x, k)
  {
    hide Bands, AlignPos;
    InBands(version, k, x);
  }

  /** The alignment set holds the alignment modules outside the timing patterns. */
  lemma {:induction false} InAlignSet(version: nat, c: Cell)
    requires ValidVersion(version)
    ensures c in AlignSet(version) <==> AlignCell(c, version) && !TimingCell(c)
  {
    if version >= 2 { InAlignSetFrom2(version, c, NumAlign(version)); }
  }

  lemma {:induction false} InAlignSetFrom2(version: nat, c: Cell, n: nat)
    requires 2 <= version <= 40 && n == NumAlign(version)
    ensures c in AlignSet(version) <==> AlignCell(c, version) && !TimingCell(c)
  {
    hide Bands, AlignSet, AlignCell, NearOneOf, NumAlign, Near;
    AlignSetCases(version, c, n);
    BandsNear(version, n - 1, c.x);
    BandsNear(version, n - 1, c.y);
    BandsNear(version, n - 2, c.x);
    BandsNear(version, n - 2, c.y);
    if AlignCell(c, version) { AlignCellIsNear(version, c, n); }
    if c in AlignSet(version) {
      NearIsAlignCell(version, c, n);
      AlignSetApart(version, c);
    }
  }

  ghost predicate NearOneOf(version: nat, x: int, k: nat)
    requires 2 <= version <= 40
  {
    exists i: nat :: 1 <= i <= k && Near(x, AlignPos(version, i))
  }

  lemma {:induction false} AlignCellIsNear(version: nat, c: Cell, n: nat)
    requires 2 <= version <= 40 && n == NumAlign(version) >= 2 && AlignCell(c, version)
    ensures (NearOneOf(version, c.x, n - 1) && NearOneOf(version, c.y, n - 1)) || (Near(c.x, 6) && NearOneOf(version, c.y, n - 2))
         || (NearOneOf(version, c.x, n - 2) && Near(c.y, 6))
  {
    var i: nat, j: nat :| AlignIndices(n, i, j) && AlignNear(version, c, i, j);
    hide NumAlign;
    assert AlignPos(version, 0) == 6;
    hide AlignPos;
  }

  lemma {:induction false} NearIsAlignCell(version: nat, c: Cell, n: nat)
    requires 2 <= version <= 40 && n == NumAlign(version) >= 2
    requires (NearOneOf(version, c.x, n - 1) && NearOneOf(version, c.y, n - 1)) || (Near(c.x, 6) && NearOneOf(version, c.y, n - 2))
          || (NearOneOf(version, c.x, n - 2) && Near(c.y, 6))
    ensures AlignCell(c, version)
  {
    hide NumAlign;
    assert AlignPos(version, 0) == 6;
    hide AlignPos;
    if NearOneOf(version, c.x, n - 1) && NearOneOf(version, c.y, n - 1) {
      var i: nat :| 1 <= i <= n - 1 && Near(c.x, AlignPos(version, i));
      var j: nat :| 1 <= j <= n - 1 && Near(c.y, AlignPos(version, j));
      assert AlignIndices(n, i, j) && AlignNear(version, c, i, j);
    } else if Near(c.x, 6) && NearOneOf(version, c.y, n - 2) {
      var j: nat :| 1 <= j <= n - 2 && Near(c.y, AlignPos(version, j));
      assert AlignIndices(n, 0, j) && AlignNear(version, c, 0, j);
    } else {
      var i: nat :| 1 <= i <= n - 2 && Near(c.x, AlignPos(version, i));
      assert AlignIndices(n, i, 0) && AlignNear(version, c, i, 0);
    }
  }

  /** Alignment modules lie inside the grid and away from the other function patterns. */
  lemma {:induction false} AlignSetApart(version: nat, c: Cell)
    requires 2 <= version <= 40 && c in AlignSet(version)
    ensures var size := SizeOf(version);
            InGrid(c, size) && !FinderCell(c, size) && !FormatCell(c, size) && !VersionCell(c, version) && !TimingCell(c)
  {
    hide Bands, AlignSet, NumAlign;
    var n := NumAlign(version);
    AlignSetCases(version, c, n);
    if c.x in Bands(version, n - 1) { BandsAbove(version, n - 1, c.x); }
    if c.y in Bands(version, n - 1) { BandsAbove(version, n - 1, c.y); }
    if c.x in Bands(version, n - 2) { BandsAbove(version, n - 2, c.x); }
    if c.y in Bands(version, n - 2) { BandsAbove(version, n - 2, c.y); }
  }

  // ---------- The count ----------

  function FunctionSet(version: nat): set<Cell>
    requires ValidVersion(version)
  {
    var size := SizeOf(version);
    FinderSet(size) + TimingSet(size) + FormatSet(size) + VersionSet(version) + AlignSet(version)
  }

  lemma {:induction false} FunctionSetMembers(version: nat, c: Cell)
    requires ValidVersion(version) && InGrid(c, SizeOf(version))
    ensures c in FunctionSet(version) <==> FunctionCell(c, version)
  {
    hide FinderSet, TimingSet, FormatSet, VersionSet, AlignSet, AlignCell;
    var size := SizeOf(version);
    FinderSetSize(size);
    TimingSetSize(size);
    FormatSetMembers(size);
    VersionSetSize(version);
    InAlignSet(version, c);
  }

  lemma {:induction false} GroupsApart(version: nat, c: Cell)
    requires ValidVersion(version) && InGrid(c, SizeOf(version))
    ensures var size := SizeOf(version);
            && (c in FinderSet(size) ==> c !in TimingSet(size) && c !in FormatSet(size) && c !in VersionSet(version) && c !in AlignSet(version))
            && (c in TimingSet(size) ==> c !in FormatSet(size) && c !in VersionSet(version) && c !in AlignSet(version))
            && (c in FormatSet(size) ==> c !in VersionSet(version) && c !in AlignSet(version))
            && (c in VersionSet(version) ==> c !in AlignSet(version))
  {
    hide FinderSet, TimingSet, FormatSet, VersionSet, AlignSet, AlignCell;
    var size := SizeOf(version);
    FinderSetSize(size);
    TimingSetSize(size);
    FormatSetMembers(size);
    VersionSetSize(version);
    InAlignSet(version, c);
    if version == 1 { NoAlignment(); } else if c in AlignSet(version) { AlignSetApart(version, c); }
  }

  lemma {:induction false} NoAlignment()
    ensures AlignSet(1) == {}
  {}

  lemma {:induction false} FunctionSetInGrid(version: nat, c: Cell)
    requires ValidVersion(version) && c in FunctionSet(version)
    ensures InGrid(c, SizeOf(version))
  {
    hide FinderSet, TimingSet, FormatSet, VersionSet, AlignSet;
    var size := SizeOf(version);
    FinderSetSize(size);
    TimingSetSize(size);
    FormatSetMembers(size);
    VersionSetSize(version);
    if version == 1 { NoAlignment(); } else if c in AlignSet(version) { AlignSetApart(version, c); }
  }

  lemma {:induction false} FunctionSetSize(version: nat)
    requires ValidVersion(version)
    ensures |FunctionSet(version)| == 192 + 2 * (SizeOf(version) - 16) + 31 + (if version < 7 then 0 else 36) + |AlignSet(version)|
  {
    hide FinderSet, TimingSet, FormatSet, VersionSet, AlignSet, SizeOf;
    var size := SizeOf(version);
    var a, b, d, e, f := FinderSet(size), TimingSet(size), FormatSet(size), VersionSet(version), AlignSet(version);
    forall c | c in FunctionSet(version)
      ensures (c in a ==> c !in b && c !in d && c !in e && c !in f) && (c in b ==> c !in d && c !in e && c !in f)
           && (c in d ==> c !in e && c !in f) && (c in e ==> c !in f)
    {
      FunctionSetInGrid(version, c);
      GroupsApart(version, c);
    }
    UnionSize(a, b);
    UnionSize(a + b, d);
    UnionSize(a + b + d, e);
    UnionSize(a + b + d + e, f);
    GroupSizes(version);
  }

  lemma {:induction false} GroupSizes(version: nat)
    requires ValidVersion(version)
    ensures var size := SizeOf(version);
            && |FinderSet(size)| == 192 && |TimingSet(size)| == 2 * (size - 16) && |FormatSet(size)| == 31
            && |VersionSet(version)| == if version < 7 then 0 else 36
  {
    hide FinderSet, TimingSet, FormatSet, VersionSet;
    FinderSetSize(SizeOf(version));
    TimingSetSize(SizeOf(version));
    FormatSetSize(SizeOf(version));
    VersionSetSize(version);
  }

  lemma {:induction false} AlignCount(version: nat)
    requires ValidVersion(version)
    ensures |AlignSet(version)| == if version == 1 then 0 else (25 * NumAlign(version) - 10) * NumAlign(version) - 55
  {
    hide AlignSet, NumAlign;
    if version == 1 { NoAlignment(); } else { AlignSetSize(version, NumAlign(version)); }
  }

  /** All modules but the function modules are as many as the formula says. */
  lemma {:induction false} FreeModules(version: nat)
    requires ValidVersion(version)
    ensures |AllCells(SizeOf(version)) - FunctionSet(version)| == NumRawDataModules(version)
  {
    hide FunctionSet, AllCells, AlignSet;
    var size := SizeOf(version);
    AllCellsSize(size);
    FunctionSetSize(version);
    AlignCount(version);
    forall c | c in FunctionSet(version) ensures c in AllCells(size) { FunctionSetInGrid(version, c); }
    SubsetComplement(FunctionSet(version), AllCells(size));
    CountArithmetic(version, |AlignSet(version)|);
  }

  lemma {:induction false} SubsetComplement(a: set<Cell>, b: set<Cell>)
    requires a <= b
    ensures |b - a| == |b| - |a|
  {}

  lemma {:induction false} CountArithmetic(version: nat, align: int)
    requires ValidVersion(version)
    requires align == if version == 1 then 0 else (25 * NumAlign(version) - 10) * NumAlign(version) - 55
    ensures var size := SizeOf(version);
            size * size - (192 + 2 * (size - 16) + 31 + (if version < 7 then 0 else 36) + align) == NumRawDataModules(version)
  {
    var size := SizeOf(version);
    assert size * size == (16 * version + 136) * version + 289;
  }
}
