/** Placement of the codewords in the symbol (section 7.7.3 of ISO/IEC 18004:2015): the order of the
    scan, what placing bits along it does, and reading them back. */
module Zigzag {
  import opened Arithmetic
  import opened Grids

  // ---------- The scan ----------

  /** Whether the column pair with right column `right` is scanned from the bottom up. */
  predicate Upward(right: int) { (right + 1) / 2 % 2 == 0 }

  function CellAt(size: nat, right: int, vert: nat, j: nat): Cell
  {
    Cell(right - j, if Upward(right) then size - 1 - vert else vert)
  }

  /** The right column after the step of two, passing over the vertical timing pattern. */
  function Skip6(right: int): int { if right == 6 then 5 else right }

  /** The cells visited from column pair `right`, row step `vert`, side `j` on. */
  function ScanFrom(size: nat, right: int, vert: nat, j: nat): seq<Cell>
    requires vert <= size && j <= 2
    decreases if right < 1 then 0 else right, size - vert, 2 - j
  {
    if right < 1 then []
    else if vert == size then ScanFrom(size, Skip6(right - 2), 0, 0)
    else if j == 2 then ScanFrom(size, right, vert + 1, 0)
    else [CellAt(size, right, vert, j)] + ScanFrom(size, right, vert, j + 1)
  }

  function Scan(size: nat): seq<Cell> { ScanFrom(size, Skip6(size - 1), 0, 0) }

  /** The right column of the pair that holds column `x`. */
  function RightOf(x: int): int
  {
    if x > 6 then x + x % 2 else x + 1 - x % 2
  }

  function VertOf(size: nat, c: Cell): int
  {
    if Upward(RightOf(c.x)) then size - 1 - c.y else c.y
  }

  predicate IsRight(size: nat, right: int)
  {
    right < 1 || (1 <= right <= 5 && right % 2 == 1) || (8 <= right < size && right % 2 == 0)
  }

  /** Cell `c` is visited at or after a point of the scan. */
  predicate AtOrAfter(size: nat, c: Cell, right: int, vert: int, j: int)
  {
    var r := RightOf(c.x);
    r < right || (r == right && (VertOf(size, c) > vert || (VertOf(size, c) == vert && r - c.x >= j)))
  }

  predicate Outside6(size: nat, c: Cell) { InGrid(c, size) && c.x != 6 }

  lemma {:induction false} CellAtInverse(size: nat, right: int, vert: nat, j: nat)
    requires size >= 9 && size % 2 == 1 && IsRight(size, right) && 1 <= right && vert < size && j < 2
    ensures Outside6(size, CellAt(size, right, vert, j))
    ensures RightOf(CellAt(size, right, vert, j).x) == right
    ensures VertOf(size, CellAt(size, right, vert, j)) == vert
  {}

  lemma {:induction false} CellOfPosition(size: nat, c: Cell)
    requires size >= 9 && size % 2 == 1 && Outside6(size, c)
    ensures IsRight(size, RightOf(c.x)) && 1 <= RightOf(c.x) && 0 <= VertOf(size, c) < size && 0 <= RightOf(c.x) - c.x < 2
    ensures CellAt(size, RightOf(c.x), VertOf(size, c), RightOf(c.x) - c.x) == c
  {}

  ghost predicate Distinct(cells: seq<Cell>)
  {
    forall i, k :: 0 <= i < k < |cells| ==> cells[i] != cells[k]
  }

  /** A scan from any point visits exactly the cells at or after it, each once. */
  lemma {:induction false} ScanFromVisits(size: nat, right: int, vert: nat, j: nat)
    requires size >= 9 && size % 2 == 1 && IsRight(size, right) && vert <= size && j <= 2
    ensures forall c :: c in ScanFrom(size, right, vert, j) <==> Outside6(size, c) && AtOrAfter(size, c, right, vert, j)
    ensures Distinct(ScanFrom(size, right, vert, j))
    decreases if right < 1 then 0 else right, size - vert, 2 - j
  {
    if right < 1 {
      assert forall c :: Outside6(size, c) ==> RightOf(c.x) >= 1;
    } else if vert == size {
      ScanFromVisits(size, Skip6(right - 2), 0, 0);
      forall c | Outside6(size, c) ensures AtOrAfter(size, c, right, vert, j) == AtOrAfter(size, c, Skip6(right - 2), 0, 0) {
        CellOfPosition(size, c);
      }
    } else if j == 2 {
      ScanFromVisits(size, right, vert + 1, 0);
      forall c | Outside6(size, c) ensures AtOrAfter(size, c, right, vert, j) == AtOrAfter(size, c, right, vert + 1, 0) {
        CellOfPosition(size, c);
      }
    } else {
      ScanFromVisits(size, right, vert, j + 1);
      var first := CellAt(size, right, vert, j);
      CellAtInverse(size, right, vert, j);
      forall c | Outside6(size, c)
        ensures AtOrAfter(size, c, right, vert, j) <==> c == first || AtOrAfter(size, c, right, vert, j + 1)
      {
        CellOfPosition(size, c);
      }
      assert !AtOrAfter(size, first, right, vert, j + 1);
    }
  }

  /** The zigzag visits every module outside column 6 exactly once, and no other. */
  lemma {:induction false} ScanVisits(size: nat)
    requires size >= 9 && size % 2 == 1
    ensures Distinct(Scan(size))
    ensures forall c :: c in Scan(size) <==> Outside6(size, c)
  {
    hide ScanFrom;
    ScanFromVisits(size, Skip6(size - 1), 0, 0);
    forall c | Outside6(size, c) ensures AtOrAfter(size, c, size - 1, 0, 0) { CellOfPosition(size, c); }
  }

  // ---------- The scan in closed form ----------

  /** The right column of column pair `p`, counted from the right edge; column 6 is in no pair. */
  function PairRight(size: nat, p: nat): int
  {
    var right := size - 1 - 2 * p;
    if right > 6 then right else right - 1
  }

  /** The module at place `k` of column pair `p`: the first pair and every other one run upward. */
  function PairCell(size: nat, p: nat, k: nat): Cell
  {
    Cell(PairRight(size, p) - k % 2, if p % 2 == 0 then size - 1 - k / 2 else k / 2)
  }

  /** The module at place `i`. */
  function ZigzagCell(size: nat, i: nat): Cell
    requires size > 0
  {
    PairCell(size, i / (2 * size), i % (2 * size))
  }

  /** The order in which a reader takes the modules. */
  function ReadingOrder(size: nat): (cells: seq<Cell>)
    requires size > 0
    ensures |cells| == (size - 1) / 2 * (2 * size)
  {
    seq((size - 1) / 2 * (2 * size), i requires 0 <= i => ZigzagCell(size, i))
  }

  lemma {:induction false} PairTurns(size: nat, p: nat)
    requires size >= 9 && size % 4 == 1 && p < (size - 1) / 2
    ensures PairRight(size, p) >= 1 && (Upward(PairRight(size, p)) <==> p % 2 == 0)
    ensures p + 1 < (size - 1) / 2 ==> Skip6(PairRight(size, p) - 2) == PairRight(size, p + 1)
    ensures p + 1 == (size - 1) / 2 ==> Skip6(PairRight(size, p) - 2) < 1
    ensures PairRight(size, 0) == Skip6(size - 1)
  {}

  function ColumnPair(size: nat, p: nat, from: nat): (cells: seq<Cell>)
    requires from <= 2 * size
    ensures |cells| == 2 * size - from
  {
    seq(2 * size - from, i requires 0 <= i => PairCell(size, p, from + i))
  }

  lemma {:induction false} ColumnPairFirst(size: nat, p: nat, from: nat)
    requires from < 2 * size
    ensures ColumnPair(size, p, from) == [PairCell(size, p, from)] + ColumnPair(size, p, from + 1)
  {
    hide PairCell;
  }

  /** The scan first finishes its column pair. */
  lemma {:induction false} ScanPair(size: nat, p: nat, vert: nat, j: nat)
    requires size >= 9 && size % 4 == 1 && p < (size - 1) / 2
    requires (vert < size && j <= 2) || (vert == size && j == 0)
    ensures ScanFrom(size, PairRight(size, p), vert, j)
         == ColumnPair(size, p, 2 * vert + j) + ScanFrom(size, Skip6(PairRight(size, p) - 2), 0, 0)
    decreases size - vert, 2 - j
  {
    hide PairRight, Skip6, PairCell, ScanFrom, ColumnPair;
    PairTurns(size, p);
    var right := PairRight(size, p);
    var rest := ScanFrom(size, Skip6(right - 2), 0, 0);
    ScanTurns(size, right, vert);
    if vert == size {
      NoPair(size, p);
      assert [] + rest == rest;
    } else if j == 2 {
      ScanPair(size, p, vert + 1, 0);
    } else {
      ScanPair(size, p, vert, j + 1);
      ScanVisit(size, right, vert, j);
      PairPlace(size, p, vert, j);
      ColumnPairFirst(size, p, 2 * vert + j);
      var first, others := PairCell(size, p, 2 * vert + j), ColumnPair(size, p, 2 * vert + j + 1);
      assert [first] + (others + rest) == ([first] + others) + rest;
    }
  }

  lemma {:induction false} NoPair(size: nat, p: nat)
    ensures ColumnPair(size, p, 2 * size) == []
  {}

  lemma {:induction false} ScanTurns(size: nat, right: int, vert: nat)
    requires right >= 1 && vert <= size
    ensures vert < size ==> ScanFrom(size, right, vert, 2) == ScanFrom(size, right, vert + 1, 0)
    ensures ScanFrom(size, right, size, 0) == ScanFrom(size, Skip6(right - 2), 0, 0)
  {
    hide Skip6, CellAt;
  }

  lemma {:induction false} PairPlace(size: nat, p: nat, vert: nat, j: nat)
    requires size >= 9 && size % 4 == 1 && p < (size - 1) / 2 && vert < size && j < 2
    ensures CellAt(size, PairRight(size, p), vert, j) == PairCell(size, p, 2 * vert + j)
  {
    PairTurns(size, p);
  }

  /** Place `k` of column pair `p` among all places. */
  function PlaceOf(size: nat, p: nat, k: nat): nat { p * (2 * size) + k }

  lemma {:induction false} PlaceSteps(size: nat, p: nat, k: nat, m: nat)
    ensures PlaceOf(size, p, k) + m == PlaceOf(size, p, k + m)
    ensures PlaceOf(size, p, 2 * size + k) == PlaceOf(size, p + 1, k)
    ensures PlaceOf(size, 0, k) == k
  {
    NextMultiple(p, 2 * size);
  }

  lemma {:induction false} PlaceInPair(size: nat, p: nat, k: nat)
    requires k < 2 * size
    ensures ZigzagCell(size, PlaceOf(size, p, k)) == PairCell(size, p, k)
  {
    hide PairCell;
    QuotientOf(p, k, 2 * size);
  }

  lemma {:induction false} EveryPlace(size: nat, i: nat) returns (p: nat, k: nat)
    requires size > 0
    ensures k < 2 * size && i == PlaceOf(size, p, k)
  {
    p, k := i / (2 * size), i % (2 * size);
  }

  lemma {:induction false} ColumnPairPlaces(size: nat, p: nat)
    requires size > 0
    ensures forall k :: 0 <= k < 2 * size ==> ColumnPair(size, p, 0)[k] == ZigzagCell(size, PlaceOf(size, p, k))
  {
    hide ZigzagCell, PairCell, PlaceOf;
    forall k | 0 <= k < 2 * size ensures ColumnPair(size, p, 0)[k] == ZigzagCell(size, PlaceOf(size, p, k)) {
      PlaceInPair(size, p, k);
    }
  }

  /** The cells from column pair `p` on. */
  ghost predicate InOrder(size: nat, p: nat, cells: seq<Cell>)
    requires size > 0
  {
    forall k :: 0 <= k < |cells| ==> cells[k] == ZigzagCell(size, PlaceOf(size, p, k))
  }

  lemma {:induction false} InOrderMore(size: nat, p: nat, rest: seq<Cell>)
    requires size > 0 && InOrder(size, p + 1, rest)
    ensures InOrder(size, p, ColumnPair(size, p, 0) + rest)
  {
    hide ZigzagCell, ColumnPair, PlaceOf;
    ColumnPairPlaces(size, p);
    var cells := ColumnPair(size, p, 0) + rest;
    forall k | 2 * size <= k < |cells| ensures cells[k] == ZigzagCell(size, PlaceOf(size, p, k)) {
      PlaceSteps(size, p, k - 2 * size, 0);
    }
  }

  /** The rest of the scan from column pair `p` on. */
  lemma {:induction false} ScanFromPair(size: nat, p: nat)
    requires size >= 9 && size % 4 == 1 && p < (size - 1) / 2
    ensures var cells := ScanFrom(size, PairRight(size, p), 0, 0);
            |cells| == ((size - 1) / 2 - p) * (2 * size) && InOrder(size, p, cells)
    decreases (size - 1) / 2 - p
  {
    hide ScanFrom, PairRight, Skip6, ColumnPair, InOrder;
    var n, rest := (size - 1) / 2, ScanFrom(size, Skip6(PairRight(size, p) - 2), 0, 0);
    PairTurns(size, p);
    ScanPair(size, p, 0, 0);
    assert |ScanFrom(size, PairRight(size, p), 0, 0)| == 2 * size + |rest|;
    if p + 1 < n {
      ScanFromPair(size, p + 1);
      NextMultiple(n - p - 1, 2 * size);
    } else {
      ScanEnds(size, Skip6(PairRight(size, p) - 2));
      InOrderEmpty(size, p + 1);
      assert n - p == 1;
    }
    InOrderMore(size, p, rest);
  }

  lemma {:induction false} InOrderEmpty(size: nat, p: nat)
    requires size > 0
    ensures InOrder(size, p, [])
  {}

  /** The scan is the closed form, for every size of a symbol. */
  lemma {:induction false} ScanIsReadingOrder(size: nat)
    requires size >= 9 && size % 4 == 1
    ensures Scan(size) == ReadingOrder(size)
  {
    hide ZigzagCell, ScanFrom, PairRight, Skip6, PlaceOf;
    PairTurns(size, 0);
    ScanFromPair(size, 0);
    var cells := Scan(size);
    forall i | 0 <= i < |cells| ensures cells[i] == ReadingOrder(size)[i] { PlaceSteps(size, 0, i, 0); }
  }

  lemma {:induction false} PairContinues(size: nat, p: nat, k: nat)
    requires size > 0 && k < 2 * size
    ensures k + 1 < 2 * size ==> -1 <= PairCell(size, p, k + 1).y - PairCell(size, p, k).y <= 1
    ensures k + 1 == 2 * size ==> PairCell(size, p, k).y == PairCell(size, p + 1, 0).y
  {}

  lemma {:induction false} ZigzagContinues(size: nat, i: nat)
    requires size > 0
    ensures -1 <= ZigzagCell(size, i + 1).y - ZigzagCell(size, i).y <= 1
  {
    hide ZigzagCell, PairCell, PlaceOf;
    var p, k := EveryPlace(size, i);
    PlaceInPair(size, p, k);
    PairContinues(size, p, k);
    PlaceSteps(size, p, k, 1);
    if k + 1 < 2 * size {
      PlaceInPair(size, p, k + 1);
    } else {
      PlaceSteps(size, p, 0, 0);
      PlaceInPair(size, p + 1, 0);
    }
  }

  lemma {:induction false} ZigzagStarts(size: nat)
    requires size >= 9
    ensures ZigzagCell(size, 0) == Cell(size - 1, size - 1) && ZigzagCell(size, 1) == Cell(size - 2, size - 1)
  {
    hide ZigzagCell, PlaceOf;
    PlaceSteps(size, 0, 0, 1);
    PlaceSteps(size, 0, 1, 0);
    PlaceInPair(size, 0, 0);
    PlaceInPair(size, 0, 1);
  }

  lemma {:induction false} AllPlaces(size: nat)
    requires size >= 9 && size % 2 == 1
    ensures (size - 1) / 2 * (2 * size) == size * (size - 1) >= 2
  {
    var n := (size - 1) / 2;
    assert size == 2 * n + 1;
    Distribute(n, n, size);
    assert n * (2 * size) == (n + n) * size;
    MultipleMonotone(1, n + n, size);
  }

  /** The scan starts in the lower right corner, to the left, and never jumps to another row: where a
      column pair ends, the next begins in the same row. */
  lemma {:induction false} ScanContinues(size: nat)
    requires size >= 9 && size % 4 == 1
    ensures |Scan(size)| == size * (size - 1) >= 2
    ensures Scan(size)[0] == Cell(size - 1, size - 1) && Scan(size)[1] == Cell(size - 2, size - 1)
    ensures forall i :: 0 <= i < |Scan(size)| - 1 ==> -1 <= Scan(size)[i + 1].y - Scan(size)[i].y <= 1
  {
    hide Scan, ZigzagCell;
    ScanIsReadingOrder(size);
    AllPlaces(size);
    ZigzagStarts(size);
    var cells := Scan(size);
    forall i | 0 <= i < |cells| - 1 ensures -1 <= cells[i + 1].y - cells[i].y <= 1 {
      ZigzagContinues(size, i);
    }
  }

  // ---------- Placing and reading bits ----------

  predicate AllIn(cells: seq<Cell>, size: nat)
  {
    forall i :: 0 <= i < |cells| ==> InGrid(cells[i], size)
  }

  /** Writes `bits` in order to the cells that are not function modules. */
  function Place(g: Grid, fun: Grid, size: nat, cells: seq<Cell>, bits: seq<bool>): (h: Grid)
    requires Square(g, size) && Square(fun, size) && AllIn(cells, size)
    ensures Square(h, size)
    decreases |cells|
  {
    if cells == [] then g
    else if Get(fun, size, cells[0]) || bits == [] then Place(g, fun, size, cells[1..], bits)
    else Place(Set(g, size, cells[0], bits[0]), fun, size, cells[1..], bits[1..])
  }

  /** The modules along the cells that are not function modules. */
  function ReadAlong(g: Grid, fun: Grid, size: nat, cells: seq<Cell>): seq<bool>
    requires Square(g, size) && Square(fun, size) && AllIn(cells, size)
  {
    if cells == [] then []
    else if Get(fun, size, cells[0]) then ReadAlong(g, fun, size, cells[1..])
    else [Get(g, size, cells[0])] + ReadAlong(g, fun, size, cells[1..])
  }

  /** How many of the cells are not function modules. */
  function FreeCount(fun: Grid, size: nat, cells: seq<Cell>): nat
    requires Square(fun, size) && AllIn(cells, size)
  {
    if cells == [] then 0
    else FreeCount(fun, size, cells[1..]) + (if Get(fun, size, cells[0]) then 0 else 1)
  }

  /** Function modules and cells off the path are untouched. */
  lemma {:induction false} PlaceKeeps(g: Grid, fun: Grid, size: nat, cells: seq<Cell>, bits: seq<bool>, c: Cell)
    requires Square(g, size) && Square(fun, size) && AllIn(cells, size) && InGrid(c, size)
    requires Get(fun, size, c) || c !in cells
    ensures Get(Place(g, fun, size, cells, bits), size, c) == Get(g, size, c)
    decreases |cells|
  {
    hide Get, Set;
    if cells == [] {
    } else if Get(fun, size, cells[0]) || bits == [] {
      PlaceKeeps(g, fun, size, cells[1..], bits, c);
    } else {
      PlaceKeeps(Set(g, size, cells[0], bits[0]), fun, size, cells[1..], bits[1..], c);
      assert c != cells[0];
    }
  }

  lemma {:induction false} ReadLength(g: Grid, fun: Grid, size: nat, cells: seq<Cell>)
    requires Square(g, size) && Square(fun, size) && AllIn(cells, size)
    ensures |ReadAlong(g, fun, size, cells)| == FreeCount(fun, size, cells)
  {
    hide Get;
    if cells == [] {
    } else {
      ReadLength(g, fun, size, cells[1..]);
    }
  }

  /** Placed bits read back in scan order; the free modules beyond them keep what they held. */
  lemma {:induction false} PlaceRead(g: Grid, fun: Grid, size: nat, cells: seq<Cell>, bits: seq<bool>)
    requires Square(g, size) && Square(fun, size) && AllIn(cells, size) && Distinct(cells)
    requires FreeCount(fun, size, cells) >= |bits|
    ensures |ReadAlong(g, fun, size, cells)| == FreeCount(fun, size, cells)
    ensures ReadAlong(Place(g, fun, size, cells, bits), fun, size, cells)
         == bits + ReadAlong(g, fun, size, cells)[|bits|..]
    decreases |cells|
  {
    hide Get, Set;
    ReadLength(g, fun, size, cells);
    if cells == [] {
    } else {
      var c, rest := cells[0], cells[1..];
      assert c !in rest;
      if Get(fun, size, c) {
        PlaceRead(g, fun, size, rest, bits);
      } else if bits == [] {
        PlaceRead(g, fun, size, rest, bits);
        PlaceKeeps(g, fun, size, rest, bits, c);
        assert bits + ReadAlong(g, fun, size, cells)[0..] == ReadAlong(g, fun, size, cells);
        assert bits + ReadAlong(g, fun, size, rest)[0..] == ReadAlong(g, fun, size, rest);
      } else {
        var g' := Set(g, size, c, bits[0]);
        PlaceRead(g', fun, size, rest, bits[1..]);
        PlaceKeeps(g', fun, size, rest, bits[1..], c);
        ReadOff(g, fun, size, rest, c, bits[0]);
        ConsDrop(bits, Get(g, size, c), ReadAlong(g, fun, size, rest));
      }
    }
  }

  lemma {:induction false} ConsDrop(bits: seq<bool>, v: bool, r: seq<bool>)
    requires 1 <= |bits| <= |r| + 1
    ensures [bits[0]] + (bits[1..] + r[|bits| - 1..]) == bits + ([v] + r)[|bits|..]
  {}

  /** Reading does not see cells off the path. */
  lemma {:induction false} ReadOff(g: Grid, fun: Grid, size: nat, cells: seq<Cell>, c: Cell, dark: bool)
    requires Square(g, size) && Square(fun, size) && AllIn(cells, size) && InGrid(c, size) && c !in cells
    ensures ReadAlong(Set(g, size, c, dark), fun, size, cells) == ReadAlong(g, fun, size, cells)
  {
    hide Get, Set;
    if cells == [] {
    } else {
      ReadOff(g, fun, size, cells[1..], c, dark);
      assert cells[0] != c;
    }
  }

  // ---------- Placing bits step by step ----------

  lemma {:induction false} ScanFromInGrid(size: nat, right: int, vert: nat, j: nat)
    requires size >= 9 && size % 2 == 1 && IsRight(size, right) && vert <= size && j <= 2
    ensures AllIn(ScanFrom(size, right, vert, j), size)
  {
    hide ScanFrom;
    ScanFromVisits(size, right, vert, j);
    var cells := ScanFrom(size, right, vert, j);
    forall i | 0 <= i < |cells| ensures InGrid(cells[i], size) {
      assert cells[i] in cells;
    }
  }

  predicate ScanPoint(size: nat, right: int, vert: nat, j: nat)
  {
    size >= 9 && size % 2 == 1 && IsRight(size, right) && vert <= size && j <= 2
  }

  function Least(a: int, b: int): int { if a < b then a else b }

  /** `i` bits are placed, and placing the others from a point of the scan on completes the grid. */
  ghost predicate Placing(g: Grid, fun: Grid, size: nat, before: Grid, bits: seq<bool>, i: nat, right: int, vert: nat, j: nat)
    requires Square(g, size) && Square(fun, size) && Square(before, size) && ScanPoint(size, right, vert, j)
  {
    ScanFromInGrid(size, right, vert, j);
    ScanFromInGrid(size, size - 1, 0, 0);
    var rest, all := ScanFrom(size, right, vert, j), ScanFrom(size, size - 1, 0, 0);
    && i <= |bits|
    && Place(g, fun, size, rest, bits[i..]) == Place(before, fun, size, all, bits)
    && i == Least(FreeCount(fun, size, all) - FreeCount(fun, size, rest), |bits|)
  }

  lemma {:induction false} PlacingStart(fun: Grid, size: nat, before: Grid, bits: seq<bool>)
    requires Square(fun, size) && Square(before, size) && ScanPoint(size, size - 1, 0, 0)
    ensures Placing(before, fun, size, before, bits, 0, size - 1, 0, 0)
  {
    hide Place, ScanFrom, FreeCount;
    assert bits[0..] == bits;
  }

  /** Steps of the scan that visit no cell. */
  lemma {:induction false} PlacingTurn(g: Grid, fun: Grid, size: nat, before: Grid, bits: seq<bool>, i: nat, right: int, vert: nat)
    requires Square(g, size) && Square(fun, size) && Square(before, size) && ScanPoint(size, right, vert, 0) && right >= 1
    ensures vert < size ==>
      (Placing(g, fun, size, before, bits, i, right, vert, 2) <==> Placing(g, fun, size, before, bits, i, right, vert + 1, 0))
    ensures Placing(g, fun, size, before, bits, i, right, size, 0) <==> Placing(g, fun, size, before, bits, i, Skip6(right - 2), 0, 0)
  {
    hide Place, FreeCount;
  }

  /** The visit of a cell. */
  lemma {:induction false} PlacingVisit(g: Grid, fun: Grid, size: nat, before: Grid, bits: seq<bool>, i: nat, right: int, vert: nat, j: nat)
    requires Square(g, size) && Square(fun, size) && Square(before, size) && ScanPoint(size, right, vert, j)
    requires right >= 1 && vert < size && j < 2 && Placing(g, fun, size, before, bits, i, right, vert, j)
    ensures var c := CellAt(size, right, vert, j);
            InGrid(c, size) &&
            if !Get(fun, size, c) && i < |bits|
            then Placing(Set(g, size, c, bits[i]), fun, size, before, bits, i + 1, right, vert, j + 1)
            else Placing(g, fun, size, before, bits, i, right, vert, j + 1)
  {
    var c, rest := CellAt(size, right, vert, j), ScanFrom(size, right, vert, j + 1);
    hide ScanFrom, Get, Set, Place, FreeCount, AllIn;
    CellAtInverse(size, right, vert, j);
    ScanFromInGrid(size, right, vert, j);
    ScanFromInGrid(size, right, vert, j + 1);
    ScanVisit(size, right, vert, j);
    PlaceFirst(g, fun, size, c, rest, bits[i..]);
    if !Get(fun, size, c) && i < |bits| {
      assert bits[i..][1..] == bits[i + 1..];
    }
  }

  lemma {:induction false} ScanVisit(size: nat, right: int, vert: nat, j: nat)
    requires right >= 1 && vert < size && j < 2
    ensures ScanFrom(size, right, vert, j) == [CellAt(size, right, vert, j)] + ScanFrom(size, right, vert, j + 1)
  {
    hide CellAt;
  }

  lemma {:induction false} PlaceFirst(g: Grid, fun: Grid, size: nat, c: Cell, rest: seq<Cell>, bits: seq<bool>)
    requires Square(g, size) && Square(fun, size) && AllIn([c] + rest, size) && AllIn(rest, size) && InGrid(c, size)
    ensures Place(g, fun, size, [c] + rest, bits)
         == if Get(fun, size, c) || bits == [] then Place(g, fun, size, rest, bits)
            else Place(Set(g, size, c, bits[0]), fun, size, rest, bits[1..])
    ensures FreeCount(fun, size, [c] + rest) == FreeCount(fun, size, rest) + (if Get(fun, size, c) then 0 else 1)
  {
    hide Get, Set;
    assert ([c] + rest)[1..] == rest;
  }

  lemma {:induction false} PlacingEnd(g: Grid, fun: Grid, size: nat, before: Grid, bits: seq<bool>, i: nat, right: int)
    requires Square(g, size) && Square(fun, size) && Square(before, size) && ScanPoint(size, right, 0, 0) && right < 1
    requires Placing(g, fun, size, before, bits, i, right, 0, 0)
    ensures AllIn(Scan(size), size) && g == Place(before, fun, size, Scan(size), bits)
    ensures i == |bits| <==> FreeCount(fun, size, Scan(size)) >= |bits|
  {
    hide ScanFrom, Scan, Place, FreeCount, AllIn;
    ScanEnds(size, right);
    ScanFromInGrid(size, size - 1, 0, 0);
    PlaceNothing(g, fun, size, bits[i..]);
  }

  lemma {:induction false} ScanEnds(size: nat, right: int)
    requires size >= 9 && right < 1
    ensures Scan(size) == ScanFrom(size, size - 1, 0, 0) && ScanFrom(size, right, 0, 0) == []
  {}

  lemma {:induction false} PlaceNothing(g: Grid, fun: Grid, size: nat, bits: seq<bool>)
    requires Square(g, size) && Square(fun, size)
    ensures Place(g, fun, size, [], bits) == g && FreeCount(fun, size, []) == 0
  {}
}
