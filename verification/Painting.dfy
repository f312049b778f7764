/** What the drawing methods leave on the grid: patterns as sets of modules with their colours, the
    version information, and the whole picture of the function patterns. */
module Painting {
  import opened Grids
  import opened QrTables
  import opened FormatInfo
  import opened FunctionPatterns
  import opened VersionInfo
  import opened LinePenalty

  type Ink = Cell -> bool

  /** The modules of `s` are function modules with the colours `ink` gives; the others are as before. */
  ghost predicate Painted(m0: Grid, f0: Grid, m: Grid, f: Grid, size: nat, s: set<Cell>, ink: Ink)
    requires Square(m0, size) && Square(f0, size) && Square(m, size) && Square(f, size)
  {
    forall c :: InGrid(c, size) ==>
      if c in s then Get(m, size, c) == ink(c) && Get(f, size, c)
      else Get(m, size, c) == Get(m0, size, c) && Get(f, size, c) == Get(f0, size, c)
  }

  lemma {:induction false} PaintNothing(m: Grid, f: Grid, size: nat, ink: Ink)
    requires Square(m, size) && Square(f, size)
    ensures Painted(m, f, m, f, size, {}, ink)
  {}

  lemma {:induction false} PaintMore(m0: Grid, f0: Grid, m: Grid, f: Grid, size: nat, s: set<Cell>, ink: Ink, c: Cell, dark: bool)
    requires Square(m0, size) && Square(f0, size) && Square(m, size) && Square(f, size) && InGrid(c, size)
    requires Painted(m0, f0, m, f, size, s, ink) && dark == ink(c)
    ensures Painted(m0, f0, Set(m, size, c, dark), Set(f, size, c, true), size, s + {c}, ink)
  {
    hide Get, Set;
  }

  // ---------- Square patterns ----------

  function Abs(a: int): int { if a < 0 then -a else a }

  function Max(a: int, b: int): int { if a < b then b else a }

  /** Chebyshev distance to a centre. */
  function Distance(c: Cell, x: int, y: int): int { Max(Abs(c.x - x), Abs(c.y - y)) }

  function FinderInk(x: int, y: int): Ink
  {
    (c: Cell) => Distance(c, x, y) != 2 && Distance(c, x, y) != 4
  }

  function AlignInk(x: int, y: int): Ink
  {
    (c: Cell) => Distance(c, x, y) != 1
  }

  /** A finder pattern with its separator, dark modules as `#`. */
  const FINDER: seq<string> := [
    ".........",
    ".#######.",
    ".#.....#.",
    ".#.###.#.",
    ".#.###.#.",
    ".#.###.#.",
    ".#.....#.",
    ".#######.",
    "........."
  ]

  const ALIGNMENT: seq<string> := [
    "#####",
    "#...#",
    "#.#.#",
    "#...#",
    "#####"
  ]

  /** The rings are drawn as in the picture of a finder pattern. */
  lemma {:induction false} FinderLooks(x: int, y: int, i: nat, j: nat)
    requires i < 9 && j < 9
    ensures |FINDER| == 9 && |FINDER[j]| == 9
    ensures FinderInk(x, y)(Cell(x - 4 + i, y - 4 + j)) <==> FINDER[j][i] == '#'
  {
    match j
    case 0 => case 1 => case 2 => case 3 => case 4 => case 5 => case 6 => case 7 => case 8 =>
  }

  lemma {:induction false} AlignmentLooks(x: int, y: int, i: nat, j: nat)
    requires i < 5 && j < 5
    ensures |ALIGNMENT| == 5 && |ALIGNMENT[j]| == 5
    ensures AlignInk(x, y)(Cell(x - 2 + i, y - 2 + j)) <==> ALIGNMENT[j][i] == '#'
  {
    match j
    case 0 => case 1 => case 2 => case 3 => case 4 =>
  }

  /** The seven modules through the centre of a finder pattern, from the left. */
  function FinderLine(x: int, y: int): seq<bool>
  {
    seq(7, k => FinderInk(x, y)(Cell(x - 3 + k, y)))
  }

  /** They have the proportion 1:1:3:1:1 that the penalty score looks for, and score on both sides. */
  lemma {:induction false} FinderLineScores(x: int, y: int)
    ensures RunsOf(FinderLine(x, y)) == [0, 1, 1, 3, 1, 1] && LineScore(FinderLine(x, y)) == 80
  {
    var runs: seq<nat> := [0, 1, 1, 3, 1, 1];
    FinderLineIs(x, y);
    FinderRender();
    hide FinderLine;
    RunsOfRender(runs);
    FinderRunsScore();
  }

  lemma {:induction false} FinderLineIs(x: int, y: int)
    ensures FinderLine(x, y) == [true, false, true, true, true, false, true]
  {
    var line, expected := FinderLine(x, y), [true, false, true, true, true, false, true];
    forall k | 0 <= k < 7 ensures line[k] == expected[k] {
      assert line[k] == FinderInk(x, y)(Cell(x - 3 + k, y));
      assert Distance(Cell(x - 3 + k, y), x, y) == Abs(k - 3);
    }
  }

  lemma {:induction false} FinderRender()
    ensures Render([0, 1, 1, 3, 1, 1]) == [true, false, true, true, true, false, true]
  {
    hide Render;
    RenderNothing();
    RenderSnoc([0], 1);
    assert [0] + [1] == [0, 1];
    RenderSnoc([0, 1], 1);
    assert [0, 1] + [1] == [0, 1, 1];
    RenderSnoc([0, 1, 1], 3);
    assert [0, 1, 1] + [3] == [0, 1, 1, 3];
    RenderSnoc([0, 1, 1, 3], 1);
    assert [0, 1, 1, 3] + [1] == [0, 1, 1, 3, 1];
    RenderSnoc([0, 1, 1, 3, 1], 1);
    assert [0, 1, 1, 3, 1] + [1] == [0, 1, 1, 3, 1, 1];
  }

  lemma {:induction false} FinderRunsScore()
    ensures RunPenalty([0, 1, 1, 3, 1, 1]) == 0 && FinderCount(Bordered([0, 1, 1, 3, 1, 1], 7)) == 2
  {
    hide RunPenalty, FinderCount, Bordered;
    FinderRunsPenalty();
    FinderBordered();
    FinderCounted();
  }

  lemma {:induction false} FinderBordered()
    ensures Bordered([0, 1, 1, 3, 1, 1], 7) == [7, 1, 1, 3, 1, 1, 7]
  {}

  lemma {:induction false} FinderCounted()
    ensures FinderCount([7, 1, 1, 3, 1, 1, 7]) == 2
  {
    var p: seq<nat> := [7, 1, 1, 3, 1, 1, 7];
    assert p[0..] == p;
    assert WindowScore(p) == 2;
    hide WindowScore;
    assert FinderCount(p[..6]) == 0;
  }

  lemma {:induction false} FinderRunsPenalty()
    ensures RunPenalty([0, 1, 1, 3, 1, 1]) == 0
  {
    assert RunPenalty([]) == 0;
    hide RunPenalty;
    RunPenaltySnoc([], 0);
    assert [] + [0] == [0];
    RunPenaltySnoc([0], 1);
    assert [0] + [1] == [0, 1];
    RunPenaltySnoc([0, 1], 1);
    assert [0, 1] + [1] == [0, 1, 1];
    RunPenaltySnoc([0, 1, 1], 3);
    assert [0, 1, 1] + [3] == [0, 1, 1, 3];
    RunPenaltySnoc([0, 1, 1, 3], 1);
    assert [0, 1, 1, 3] + [1] == [0, 1, 1, 3, 1];
    RunPenaltySnoc([0, 1, 1, 3, 1], 1);
    assert [0, 1, 1, 3, 1] + [1] == [0, 1, 1, 3, 1, 1];
  }

  /** The cells of the grid within `r` of a centre. */
  ghost function Around(size: nat, x: int, y: int, r: int): set<Cell>
  {
    set c | c in AllCells(size) && Distance(c, x, y) <= r
  }

  lemma {:induction false} InAround(size: nat, x: int, y: int, r: int)
    ensures forall c :: c in Around(size, x, y, r) <==> InGrid(c, size) && x - r <= c.x <= x + r && y - r <= c.y <= y + r
    ensures Within(Around(size, x, y, r), x - r, x + r + 1, y - r, y + r + 1)
  {
    hide AllCells;
    AllCellsSize(size);
  }

  /** The modules of the square before (cx, cy) in row order are painted. */
  ghost predicate SquareDone(m0: Grid, f0: Grid, m: Grid, f: Grid, size: nat, x: int, y: int, r: int, ink: Ink, cx: int, cy: int)
    requires Square(m0, size) && Square(f0, size) && Square(m, size) && Square(f, size)
  {
    Painted(m0, f0, m, f, size, UpTo(Around(size, x, y, r), cx, cy), ink)
  }

  lemma {:induction false} SquareStart(m: Grid, f: Grid, size: nat, x: int, y: int, r: int, ink: Ink)
    requires Square(m, size) && Square(f, size)
    ensures SquareDone(m, f, m, f, size, x, y, r, ink, x - r, y - r)
  {
    hide Painted, UpTo, Around;
    InAround(size, x, y, r);
    UpToRows(Around(size, x, y, r), x - r, x + r + 1, y - r, y + r + 1, y);
    PaintNothing(m, f, size, ink);
  }

  lemma {:induction false} SquareStep(m0: Grid, f0: Grid, m: Grid, f: Grid, size: nat, x: int, y: int, r: int, ink: Ink, c: Cell, dark: bool)
    requires Square(m0, size) && Square(f0, size) && Square(m, size) && Square(f, size)
    requires x - r <= c.x <= x + r && y - r <= c.y <= y + r && dark == ink(c)
    requires SquareDone(m0, f0, m, f, size, x, y, r, ink, c.x, c.y)
    ensures if InGrid(c, size)
            then SquareDone(m0, f0, Set(m, size, c, dark), Set(f, size, c, true), size, x, y, r, ink, c.x + 1, c.y)
            else SquareDone(m0, f0, m, f, size, x, y, r, ink, c.x + 1, c.y)
  {
    hide Painted, UpTo, Around, Set, Get;
    InAround(size, x, y, r);
    UpToNext(Around(size, x, y, r), c.x, c.y);
    if InGrid(c, size) {
      PaintMore(m0, f0, m, f, size, UpTo(Around(size, x, y, r), c.x, c.y), ink, c, dark);
    }
  }

  lemma {:induction false} SquareTurn(m0: Grid, f0: Grid, m: Grid, f: Grid, size: nat, x: int, y: int, r: int, ink: Ink, cy: int)
    requires Square(m0, size) && Square(f0, size) && Square(m, size) && Square(f, size)
    requires SquareDone(m0, f0, m, f, size, x, y, r, ink, x + r + 1, cy)
    ensures SquareDone(m0, f0, m, f, size, x, y, r, ink, x - r, cy + 1)
  {
    hide Painted, UpTo, Around;
    InAround(size, x, y, r);
    UpToRows(Around(size, x, y, r), x - r, x + r + 1, y - r, y + r + 1, cy);
  }

  lemma {:induction false} SquareEnd(m0: Grid, f0: Grid, m: Grid, f: Grid, size: nat, x: int, y: int, r: int, ink: Ink)
    requires Square(m0, size) && Square(f0, size) && Square(m, size) && Square(f, size)
    requires SquareDone(m0, f0, m, f, size, x, y, r, ink, x - r, y + r + 1)
    ensures Painted(m0, f0, m, f, size, Around(size, x, y, r), ink)
  {
    hide Painted, UpTo, Around;
    InAround(size, x, y, r);
    UpToRows(Around(size, x, y, r), x - r, x + r + 1, y - r, y + r + 1, y);
  }

  // ---------- Timing patterns ----------

  function TimingInk(): Ink
  {
    (c: Cell) => (if c.x == 6 then c.y else c.x) % 2 == 0
  }

  /** The first `i` modules of row 6 and of column 6. */
  ghost function Lines(size: nat, i: int): set<Cell>
  {
    set c | c in AllCells(size) && ((c.x == 6 && c.y < i) || (c.y == 6 && c.x < i))
  }

  lemma {:induction false} NoLines(m: Grid, f: Grid, size: nat)
    requires Square(m, size) && Square(f, size)
    ensures Painted(m, f, m, f, size, Lines(size, 0), TimingInk())
  {
    hide AllCells, TimingInk;
    AllCellsSize(size);
    assert Lines(size, 0) == {};
    hide Lines;
    PaintNothing(m, f, size, TimingInk());
  }

  lemma {:induction false} NextLines(size: nat, i: nat)
    requires i < size && size >= 7
    ensures Lines(size, i + 1) == Lines(size, i) + {Cell(6, i)} + {Cell(i, 6)}
  {
    hide AllCells;
    AllCellsSize(size);
  }

  lemma {:induction false} LinesStep(m0: Grid, f0: Grid, m: Grid, f: Grid, size: nat, i: nat)
    requires Square(m0, size) && Square(f0, size) && Square(m, size) && Square(f, size) && i < size && size >= 7
    requires Painted(m0, f0, m, f, size, Lines(size, i), TimingInk())
    ensures var dark, m1, f1 := i % 2 == 0, Set(m, size, Cell(6, i), i % 2 == 0), Set(f, size, Cell(6, i), true);
            Painted(m0, f0, Set(m1, size, Cell(i, 6), dark), Set(f1, size, Cell(i, 6), true), size, Lines(size, i + 1), TimingInk())
  {
    hide Painted, Lines, Set, Get;
    NextLines(size, i);
    var dark, m1, f1 := i % 2 == 0, Set(m, size, Cell(6, i), i % 2 == 0), Set(f, size, Cell(6, i), true);
    PaintMore(m0, f0, m, f, size, Lines(size, i), TimingInk(), Cell(6, i), dark);
    PaintMore(m0, f0, m1, f1, size, Lines(size, i) + {Cell(6, i)}, TimingInk(), Cell(i, 6), dark);
  }

  // ---------- Alignment patterns ----------

  predicate Before(a: nat, b: nat, i: nat, j: nat) { a < i || (a == i && b < j) }

  predicate DrawnBefore(version: nat, c: Cell, a: nat, b: nat, i: nat, j: nat)
    requires 2 <= version <= 40
  {
    Before(a, b, i, j) && AlignIndices(NumAlign(version), a, b) && AlignNear(version, c, a, b)
  }

  predicate AlignColour(version: nat, c: Cell, a: nat, b: nat)
    requires 2 <= version <= 40
  {
    AlignInk(AlignPos(version, a), AlignPos(version, b))(c)
  }

  /** The alignment patterns with indices before (i, j) are drawn, and nothing else. */
  ghost predicate AlignDone(m0: Grid, f0: Grid, m: Grid, f: Grid, size: nat, version: nat, i: nat, j: nat)
    requires Square(m0, size) && Square(f0, size) && Square(m, size) && Square(f, size) && 2 <= version <= 40
  {
    forall c :: InGrid(c, size) ==> AlignDoneAt(m0, f0, m, f, size, version, i, j, c)
  }

  ghost predicate AlignDoneAt(m0: Grid, f0: Grid, m: Grid, f: Grid, size: nat, version: nat, i: nat, j: nat, c: Cell)
    requires Square(m0, size) && Square(f0, size) && Square(m, size) && Square(f, size) && 2 <= version <= 40 && InGrid(c, size)
  {
    && (forall a: nat, b: nat :: DrawnBefore(version, c, a, b, i, j) ==>
          Get(m, size, c) == AlignColour(version, c, a, b) && Get(f, size, c))
    && ((forall a: nat, b: nat :: !DrawnBefore(version, c, a, b, i, j)) ==>
          Get(m, size, c) == Get(m0, size, c) && Get(f, size, c) == Get(f0, size, c))
  }

  lemma {:induction false} AlignStart(m: Grid, f: Grid, size: nat, version: nat)
    requires Square(m, size) && Square(f, size) && 2 <= version <= 40
    ensures AlignDone(m, f, m, f, size, version, 0, 0)
  {
    hide Get, NumAlign, AlignNear, AlignColour;
  }

  /** Alignment patterns do not overlap. */
  lemma {:induction false} AlignApart(version: nat, c: Cell, a: nat, b: nat, i: nat, j: nat)
    requires 2 <= version <= 40 && AlignIndices(NumAlign(version), a, b) && AlignIndices(NumAlign(version), i, j)
    requires AlignNear(version, c, a, b) && AlignNear(version, c, i, j)
    ensures a == i && b == j
  {
    hide AlignPos, NumAlign;
    if a < i { AlignPosOrder(version, a, i); }
    if i < a { AlignPosOrder(version, i, a); }
    if b < j { AlignPosOrder(version, b, j); }
    if j < b { AlignPosOrder(version, j, b); }
  }

  lemma {:induction false} AlignStep1(version: nat, c: Cell, a: nat, b: nat, i: nat, j: nat)
    requires 2 <= version <= 40
    ensures DrawnBefore(version, c, a, b, i, j + 1) <==>
            DrawnBefore(version, c, a, b, i, j) || (a == i && b == j && AlignIndices(NumAlign(version), i, j) && AlignNear(version, c, i, j))
  {}

  lemma {:induction false} AlignSkip(m0: Grid, f0: Grid, m: Grid, f: Grid, size: nat, version: nat, i: nat, j: nat)
    requires Square(m0, size) && Square(f0, size) && Square(m, size) && Square(f, size) && 2 <= version <= 40
    requires !AlignIndices(NumAlign(version), i, j) && AlignDone(m0, f0, m, f, size, version, i, j)
    ensures AlignDone(m0, f0, m, f, size, version, i, j + 1)
  {
    hide Get, DrawnBefore, AlignColour, NumAlign, AlignNear;
    forall c, a: nat, b: nat ensures DrawnBefore(version, c, a, b, i, j + 1) == DrawnBefore(version, c, a, b, i, j) {
      AlignStep1(version, c, a, b, i, j);
    }
  }

  lemma {:induction false} AlignTurn(m0: Grid, f0: Grid, m: Grid, f: Grid, size: nat, version: nat, i: nat, n: nat)
    requires Square(m0, size) && Square(f0, size) && Square(m, size) && Square(f, size) && 2 <= version <= 40
    requires n == NumAlign(version) && AlignDone(m0, f0, m, f, size, version, i, n)
    ensures AlignDone(m0, f0, m, f, size, version, i + 1, 0)
  {
    hide Get, DrawnBefore, AlignColour, NumAlign;
    forall c, a: nat, b: nat ensures DrawnBefore(version, c, a, b, i + 1, 0) == DrawnBefore(version, c, a, b, i, n) {
      RowOfIndices(version, c, a, b, i, n);
    }
  }

  lemma {:induction false} RowOfIndices(version: nat, c: Cell, a: nat, b: nat, i: nat, n: nat)
    requires 2 <= version <= 40 && n == NumAlign(version)
    ensures DrawnBefore(version, c, a, b, i + 1, 0) == DrawnBefore(version, c, a, b, i, n)
  {
    hide NumAlign, AlignNear;
  }

  lemma {:induction false} NearIsAround(version: nat, i: nat, j: nat, c: Cell, size: nat)
    requires 2 <= version <= 40 && InGrid(c, size)
    ensures c in Around(size, AlignPos(version, i), AlignPos(version, j), 2) <==> AlignNear(version, c, i, j)
  {
    hide AlignPos, Around;
    InAround(size, AlignPos(version, i), AlignPos(version, j), 2);
  }

  lemma {:induction false} AlignPattern(m0: Grid, f0: Grid, m: Grid, f: Grid, m1: Grid, f1: Grid, size: nat, version: nat, i: nat, j: nat)
    requires Square(m0, size) && Square(f0, size) && Square(m, size) && Square(f, size) && Square(m1, size) && Square(f1, size)
    requires 2 <= version <= 40 && AlignIndices(NumAlign(version), i, j)
    requires AlignDone(m0, f0, m, f, size, version, i, j)
    requires Painted(m, f, m1, f1, size, Around(size, AlignPos(version, i), AlignPos(version, j), 2), AlignInk(AlignPos(version, i), AlignPos(version, j)))
    ensures AlignDone(m0, f0, m1, f1, size, version, i, j + 1)
  {
    hide AlignDoneAt, Painted, NumAlign, AlignIndices, AlignPos, AlignInk, Around;
    forall c | InGrid(c, size) ensures AlignDoneAt(m0, f0, m1, f1, size, version, i, j + 1, c) {
      AlignPatternAt(m0, f0, m, f, m1, f1, size, version, i, j, c);
    }
  }

  lemma {:induction false} AlignPatternAt(m0: Grid, f0: Grid, m: Grid, f: Grid, m1: Grid, f1: Grid, size: nat, version: nat, i: nat, j: nat, c: Cell)
    requires Square(m0, size) && Square(f0, size) && Square(m, size) && Square(f, size) && Square(m1, size) && Square(f1, size)
    requires 2 <= version <= 40 && AlignIndices(NumAlign(version), i, j) && InGrid(c, size)
    requires AlignDoneAt(m0, f0, m, f, size, version, i, j, c)
    requires Painted(m, f, m1, f1, size, Around(size, AlignPos(version, i), AlignPos(version, j), 2), AlignInk(AlignPos(version, i), AlignPos(version, j)))
    ensures AlignDoneAt(m0, f0, m1, f1, size, version, i, j + 1, c)
  {
    hide Get, NumAlign, AlignNear, Around, AlignInk, AlignPos, AlignIndices, DrawnBefore;
    var next := j + 1;
    NearIsAround(version, i, j, c, size);
    if AlignNear(version, c, i, j) {
      forall a: nat, b: nat | DrawnBefore(version, c, a, b, i, next) ensures a == i && b == j {
        AlignStep1(version, c, a, b, i, j);
        DrawnOnce(version, c, a, b, i, j);
      }
      AlignStep1(version, c, i, j, i, j);
      assert DrawnBefore(version, c, i, j, i, next);
    } else {
      forall a: nat, b: nat ensures DrawnBefore(version, c, a, b, i, next) <==> DrawnBefore(version, c, a, b, i, j) {
        AlignStep1(version, c, a, b, i, j);
      }
    }
  }

  lemma {:induction false} DrawnOnce(version: nat, c: Cell, a: nat, b: nat, i: nat, j: nat)
    requires 2 <= version <= 40 && AlignIndices(NumAlign(version), i, j) && AlignNear(version, c, i, j)
    ensures !DrawnBefore(version, c, a, b, i, j)
  {
    hide NumAlign, AlignNear;
    if DrawnBefore(version, c, a, b, i, j) { AlignApart(version, c, a, b, i, j); }
  }

  /** All alignment patterns of a version are drawn, and nothing else. */
  ghost predicate AlignPainted(m0: Grid, f0: Grid, m: Grid, f: Grid, size: nat, version: nat)
    requires Square(m0, size) && Square(f0, size) && Square(m, size) && Square(f, size) && ValidVersion(version)
  {
    forall c :: InGrid(c, size) ==>
      && (AlignCell(c, version) ==> AlignShown(m, size, version, c) && Get(f, size, c))
      && (!AlignCell(c, version) ==> Get(m, size, c) == Get(m0, size, c) && Get(f, size, c) == Get(f0, size, c))
  }

  ghost predicate AlignShown(m: Grid, size: nat, version: nat, c: Cell)
    requires Square(m, size) && ValidVersion(version) && InGrid(c, size)
  {
    version >= 2 ==> forall i: nat, j: nat :: AlignIndices(NumAlign(version), i, j) && AlignNear(version, c, i, j) ==>
      Get(m, size, c) == AlignColour(version, c, i, j)
  }

  lemma {:induction false} AlignEnd(m0: Grid, f0: Grid, m: Grid, f: Grid, size: nat, version: nat)
    requires Square(m0, size) && Square(f0, size) && Square(m, size) && Square(f, size) && 2 <= version <= 40
    requires AlignDone(m0, f0, m, f, size, version, NumAlign(version), 0)
    ensures AlignPainted(m0, f0, m, f, size, version)
  {
    hide Get, AlignNear, AlignColour, NumAlign;
    var n := NumAlign(version);
    forall c | InGrid(c, size)
      ensures AlignCell(c, version) ==> AlignShown(m, size, version, c) && Get(f, size, c)
      ensures !AlignCell(c, version) ==> Get(m, size, c) == Get(m0, size, c) && Get(f, size, c) == Get(f0, size, c)
    {
      assert forall a: nat, b: nat :: DrawnBefore(version, c, a, b, n, 0) <==> AlignIndices(n, a, b) && AlignNear(version, c, a, b);
      if AlignCell(c, version) {
        var i: nat, j: nat :| AlignIndices(n, i, j) && AlignNear(version, c, i, j);
        assert DrawnBefore(version, c, i, j, n, 0);
      }
    }
  }

  lemma {:induction false} NoAlignmentPainted(m: Grid, f: Grid, size: nat)
    requires Square(m, size) && Square(f, size)
    ensures AlignPainted(m, f, m, f, size, 1)
  {}

  lemma {:induction false} NoCentres()
    ensures NumAlign(1) == 0
  {}

  lemma {:induction false} IndicesMeaning(n: nat, i: nat, j: nat)
    requires i < n && j < n
    ensures AlignIndices(n, i, j) <==> !((i == 0 && j == 0) || (i == 0 && j == n - 1) || (i == n - 1 && j == 0))
  {}

  lemma {:induction false} CentreInside(version: nat, i: nat)
    requires 2 <= version <= 40 && i < NumAlign(version)
    ensures 6 <= AlignPos(version, i) <= SizeOf(version) - 7
  {
    hide NumAlign;
    LastAlignPos(version);
    assert AlignPos(version, 0) == 6;
    hide AlignPos;
    if 0 < i { AlignPosOrder(version, 0, i); }
    if i < NumAlign(version) - 1 { AlignPosOrder(version, i, NumAlign(version) - 1); }
  }

  // ---------- Version information ----------

  function VersionInk(version: nat): Ink
  {
    var size, bits := SizeOf(version), VersionWord(version);
    (c: Cell) => BitOf(bits, VersionIndex(c, size))
  }

  /** The modules of the first `i` version bits. */
  ghost function VersionUpTo(version: nat, i: int): set<Cell>
  {
    set c | c in VersionSet(version) && VersionIndex(c, SizeOf(version)) < i
  }

  lemma {:induction false} InVersionSet(version: nat, c: Cell)
    requires 7 <= version <= 40
    ensures var size := SizeOf(version);
            c in VersionSet(version) <==> (size - 11 <= c.x <= size - 9 && 0 <= c.y <= 5) || (0 <= c.x <= 5 && size - 11 <= c.y <= size - 9)
  {
    hide VersionSet;
    VersionSetSize(version);
  }

  lemma {:induction false} VersionEnds(version: nat)
    requires 7 <= version <= 40
    ensures VersionUpTo(version, 0) == {} && VersionUpTo(version, 18) == VersionSet(version)
  {
    hide VersionSet;
    forall c | c in VersionSet(version) ensures 0 <= VersionIndex(c, SizeOf(version)) < 18 { InVersionSet(version, c); }
  }

  /** Bit `i` is shown by two modules. */
  lemma {:induction false} VersionModules(version: nat, i: nat, a: int, b: int)
    requires 7 <= version <= 40 && i < 18 && a == SizeOf(version) - 11 + i % 3 && b == i / 3
    ensures VersionUpTo(version, i + 1) == VersionUpTo(version, i) + {Cell(a, b)} + {Cell(b, a)}
    ensures InGrid(Cell(a, b), SizeOf(version)) && InGrid(Cell(b, a), SizeOf(version))
    ensures VersionIndex(Cell(a, b), SizeOf(version)) == i && VersionIndex(Cell(b, a), SizeOf(version)) == i
  {
    hide VersionSet;
    forall c ensures c in VersionSet(version) && VersionIndex(c, SizeOf(version)) == i <==> c == Cell(a, b) || c == Cell(b, a) {
      InVersionSet(version, c);
      VersionModule(version, i, c);
    }
  }

  lemma {:induction false} VersionModule(version: nat, i: nat, c: Cell)
    requires 7 <= version <= 40 && i < 18
    ensures var size := SizeOf(version);
            ((size - 11 <= c.x <= size - 9 && 0 <= c.y <= 5) || (0 <= c.x <= 5 && size - 11 <= c.y <= size - 9))
            && VersionIndex(c, size) == i
            <==> c == Cell(size - 11 + i % 3, i / 3) || c == Cell(i / 3, size - 11 + i % 3)
  {}

  ghost predicate VersionDone(m0: Grid, f0: Grid, m: Grid, f: Grid, size: nat, version: nat, i: int)
    requires Square(m0, size) && Square(f0, size) && Square(m, size) && Square(f, size)
  {
    Painted(m0, f0, m, f, size, VersionUpTo(version, i), VersionInk(version))
  }

  lemma {:induction false} VersionStart(m: Grid, f: Grid, size: nat, version: nat)
    requires Square(m, size) && Square(f, size) && 7 <= version <= 40
    ensures VersionDone(m, f, m, f, size, version, 0)
  {
    hide Painted, VersionUpTo, VersionInk;
    VersionEnds(version);
    PaintNothing(m, f, size, VersionInk(version));
  }

  lemma {:induction false} VersionBitDrawn(m0: Grid, f0: Grid, m: Grid, f: Grid, size: nat, version: nat, i: nat, a: int, b: int, dark: bool)
    requires Square(m0, size) && Square(f0, size) && Square(m, size) && Square(f, size) && 7 <= version <= 40 && size == SizeOf(version)
    requires i < 18 && a == size - 11 + i % 3 && b == i / 3 && dark == GetBit(VersionWord(version), i)
    requires VersionDone(m0, f0, m, f, size, version, i)
    ensures InGrid(Cell(a, b), size) && InGrid(Cell(b, a), size)
    ensures VersionDone(m0, f0, Set(Set(m, size, Cell(a, b), dark), size, Cell(b, a), dark),
                        Set(Set(f, size, Cell(a, b), true), size, Cell(b, a), true), size, version, i + 1)
  {
    hide Painted, VersionUpTo, VersionWord, GetBit, Get, Set, VersionIndex;
    VersionModules(version, i, a, b);
    var ink, s := VersionInk(version), VersionUpTo(version, i);
    PaintMore(m0, f0, m, f, size, s, ink, Cell(a, b), dark);
    PaintMore(m0, f0, Set(m, size, Cell(a, b), dark), Set(f, size, Cell(a, b), true), size, s + {Cell(a, b)}, ink, Cell(b, a), dark);
  }

  lemma {:induction false} VersionFinished(m0: Grid, f0: Grid, m: Grid, f: Grid, size: nat, version: nat)
    requires Square(m0, size) && Square(f0, size) && Square(m, size) && Square(f, size) && 7 <= version <= 40
    requires VersionDone(m0, f0, m, f, size, version, 18)
    ensures Painted(m0, f0, m, f, size, VersionSet(version), VersionInk(version))
  {
    hide Painted, VersionUpTo, VersionInk, VersionSet;
    VersionEnds(version);
  }

  lemma {:induction false} NoVersionModules(m: Grid, f: Grid, size: nat, version: nat)
    requires Square(m, size) && Square(f, size) && version < 7
    ensures Painted(m, f, m, f, size, VersionSet(version), VersionInk(version))
  {
    assert VersionSet(version) == {};
    hide VersionInk, VersionSet;
    PaintNothing(m, f, size, VersionInk(version));
  }

  // ---------- The whole picture ----------

  predicate FinderDark(c: Cell, size: nat)
  {
    FinderInk(if c.x <= 7 then 3 else size - 4, if c.y <= 7 then 3 else size - 4)(c)
  }

  ghost predicate Blank(m: Grid, f: Grid, size: nat)
    requires Square(m, size) && Square(f, size)
  {
    forall c :: InGrid(c, size) ==> !Get(m, size, c) && !Get(f, size, c)
  }

  /** Finder and timing patterns on a blank grid. */
  ghost predicate CornersShown(m: Grid, f: Grid, size: nat)
    requires Square(m, size) && Square(f, size)
  {
    forall c :: InGrid(c, size) ==>
      if FinderCell(c, size) then Get(m, size, c) == FinderDark(c, size) && Get(f, size, c)
      else if TimingCell(c) then Get(m, size, c) == TimingInk()(c) && Get(f, size, c)
      else !Get(m, size, c) && !Get(f, size, c)
  }

  lemma {:induction false} InLines(size: nat, c: Cell)
    requires InGrid(c, size)
    ensures c in Lines(size, size) <==> TimingCell(c)
  {
    hide AllCells;
    AllCellsSize(size);
  }

  lemma {:induction false} Corners(m0: Grid, f0: Grid, m1: Grid, f1: Grid, m2: Grid, f2: Grid, m3: Grid, f3: Grid, m: Grid, f: Grid, size: nat)
    requires Square(m0, size) && Square(f0, size) && Square(m1, size) && Square(f1, size) && Square(m2, size) && Square(f2, size)
    requires Square(m3, size) && Square(f3, size) && Square(m, size) && Square(f, size) && size >= 21
    requires Blank(m0, f0, size) && Painted(m0, f0, m1, f1, size, Lines(size, size), TimingInk())
    requires Painted(m1, f1, m2, f2, size, Around(size, 3, 3, 4), FinderInk(3, 3))
    requires Painted(m2, f2, m3, f3, size, Around(size, size - 4, 3, 4), FinderInk(size - 4, 3))
    requires Painted(m3, f3, m, f, size, Around(size, 3, size - 4, 4), FinderInk(3, size - 4))
    ensures CornersShown(m, f, size)
  {
    hide Get, Lines, Around, FinderInk, TimingInk;
    InAround(size, 3, 3, 4);
    InAround(size, size - 4, 3, 4);
    InAround(size, 3, size - 4, 4);
    forall c | InGrid(c, size) ensures c in Lines(size, size) <==> TimingCell(c) { InLines(size, c); }
  }

  /** Alignment patterns lie inside the grid and away from the other patterns, except for the timing patterns. */
  lemma {:induction false} AlignCellApart(version: nat, c: Cell)
    requires ValidVersion(version) && AlignCell(c, version)
    ensures InGrid(c, SizeOf(version)) && !FinderCell(c, SizeOf(version)) && !FormatCell(c, SizeOf(version)) && !VersionCell(c, version)
  {
    hide Bands, NearOneOf, NumAlign, AlignCell;
    VersionWithAlignment(version, c);
    var n := NumAlign(version);
    LastAlignPos(version);
    AlignCellIsNear(version, c, n);
    BandsNear(version, n - 1, c.x);
    BandsNear(version, n - 1, c.y);
    BandsNear(version, n - 2, c.x);
    BandsNear(version, n - 2, c.y);
    if NearOneOf(version, c.x, n - 1) && NearOneOf(version, c.y, n - 1) {
      BandsAbove(version, n - 1, c.x);
      BandsAbove(version, n - 1, c.y);
    } else if NearOneOf(version, c.y, n - 2) {
      BandsAbove(version, n - 2, c.y);
    } else {
      BandsAbove(version, n - 2, c.x);
    }
  }

  lemma {:induction false} VersionWithAlignment(version: nat, c: Cell)
    requires ValidVersion(version) && AlignCell(c, version)
    ensures version >= 2
  {}

  /** The function patterns of a version; format modules may have any colour. */
  ghost predicate PatternShownAt(m: Grid, size: nat, version: nat, c: Cell)
    requires Square(m, size) && ValidVersion(version) && InGrid(c, size)
  {
    if FinderCell(c, size) then Get(m, size, c) == FinderDark(c, size)
    else if AlignCell(c, version) then AlignShown(m, size, version, c)
    else if FormatCell(c, size) then true
    else if VersionCell(c, version) then Get(m, size, c) == VersionInk(version)(c)
    else TimingCell(c) ==> Get(m, size, c) == TimingInk()(c)
  }

  ghost predicate PatternsShown(m: Grid, size: nat, version: nat)
    requires Square(m, size) && ValidVersion(version)
  {
    forall c :: InGrid(c, size) ==> PatternShownAt(m, size, version, c)
  }

  /** The function modules are those of the version. */
  ghost predicate FunctionsMarked(f: Grid, size: nat, version: nat)
    requires Square(f, size) && ValidVersion(version)
  {
    forall c :: InGrid(c, size) ==> (Get(f, size, c) <==> FunctionCell(c, version))
  }

  ghost predicate LightElsewhere(m: Grid, size: nat, version: nat)
    requires Square(m, size) && ValidVersion(version)
  {
    forall c :: InGrid(c, size) && !FunctionCell(c, version) ==> !Get(m, size, c)
  }

  ghost predicate FormatDrawn(m0: Grid, f0: Grid, m: Grid, f: Grid, size: nat)
    requires Square(m0, size) && Square(f0, size) && Square(m, size) && Square(f, size)
  {
    forall c :: InGrid(c, size) ==>
      if FormatCell(c, size) then Get(f, size, c)
      else Get(m, size, c) == Get(m0, size, c) && Get(f, size, c) == Get(f0, size, c)
  }

  /** The function patterns in the order they are drawn. */
  lemma {:induction false} PictureAt(m0: Grid, f0: Grid, m1: Grid, f1: Grid, m2: Grid, f2: Grid, m: Grid, f: Grid, size: nat, version: nat, c: Cell)
    requires Square(m0, size) && Square(f0, size) && Square(m1, size) && Square(f1, size)
    requires Square(m2, size) && Square(f2, size) && Square(m, size) && Square(f, size)
    requires ValidVersion(version) && size == SizeOf(version) && InGrid(c, size)
    requires CornersShown(m0, f0, size) && AlignPainted(m0, f0, m1, f1, size, version) && FormatDrawn(m1, f1, m2, f2, size)
    requires Painted(m2, f2, m, f, size, VersionSet(version), VersionInk(version))
    ensures PatternShownAt(m, size, version, c)
    ensures Get(f, size, c) <==> FunctionCell(c, version)
    ensures !FunctionCell(c, version) ==> !Get(m, size, c)
    ensures FormatCell(c, size) ==> Get(m, size, c) == Get(m2, size, c)
  {
    hide Get, AlignCell, FinderDark, TimingInk, VersionInk, VersionSet;
    VersionSetSize(version);
    if AlignCell(c, version) {
      AlignCellApart(version, c);
      AlignShownSame(m1, m, size, version, c);
    }
  }

  lemma {:induction false} AlignShownSame(m: Grid, m1: Grid, size: nat, version: nat, c: Cell)
    requires Square(m, size) && Square(m1, size) && ValidVersion(version) && InGrid(c, size)
    requires Get(m, size, c) == Get(m1, size, c)
    ensures AlignShown(m, size, version, c) == AlignShown(m1, size, version, c)
  {
    hide Get, NumAlign, AlignNear, AlignColour;
  }

  lemma {:induction false} Picture(m0: Grid, f0: Grid, m1: Grid, f1: Grid, m2: Grid, f2: Grid, m: Grid, f: Grid, size: nat, version: nat)
    requires Square(m0, size) && Square(f0, size) && Square(m1, size) && Square(f1, size)
    requires Square(m2, size) && Square(f2, size) && Square(m, size) && Square(f, size)
    requires ValidVersion(version) && size == SizeOf(version)
    requires CornersShown(m0, f0, size) && AlignPainted(m0, f0, m1, f1, size, version) && FormatDrawn(m1, f1, m2, f2, size)
    requires Painted(m2, f2, m, f, size, VersionSet(version), VersionInk(version))
    ensures PatternsShown(m, size, version) && FunctionsMarked(f, size, version) && LightElsewhere(m, size, version)
    ensures forall c :: InGrid(c, size) && FormatCell(c, size) ==> Get(m, size, c) == Get(m2, size, c)
  {
    hide Get, CornersShown, AlignPainted, FormatDrawn, Painted, PatternShownAt, FunctionCell, FormatCell, VersionSet, VersionInk;
    forall c | InGrid(c, size)
      ensures PatternShownAt(m, size, version, c) && (Get(f, size, c) <==> FunctionCell(c, version))
      ensures !FunctionCell(c, version) ==> !Get(m, size, c)
      ensures FormatCell(c, size) ==> Get(m, size, c) == Get(m2, size, c)
    {
      PictureAt(m0, f0, m1, f1, m2, f2, m, f, size, version, c);
    }
  }

  /** From version 7 on, the drawn patterns tell a reader the version. */
  lemma {:induction false} VersionRoundTrip(m: Grid, size: nat, version: nat)
    requires 7 <= version <= 40 && size == SizeOf(version) && Square(m, size) && PatternsShown(m, size, version)
    ensures ReadVersion(m, size) == version
  {
    hide Get, VersionWord, GetBit, PatternsShown;
    VersionBitShown(m, size, version, Cell(size - 11, 4), 12);
    VersionBitShown(m, size, version, Cell(size - 10, 4), 13);
    VersionBitShown(m, size, version, Cell(size - 9, 4), 14);
    VersionBitShown(m, size, version, Cell(size - 11, 5), 15);
    VersionBitShown(m, size, version, Cell(size - 10, 5), 16);
    VersionBitShown(m, size, version, Cell(size - 9, 5), 17);
    VersionBits(version);
    hide *;
    FromDigits(version);
  }

  /** The modules of the version information beside the upper right finder pattern, highest bit first,
      and those of the copy above the lower left one. */
  function VersionCells(size: nat, lower: bool): (cells: seq<Cell>)
    ensures |cells| == 18
  {
    seq(18, k requires 0 <= k < 18 =>
      var long, short := 5 - k / 3, size - 9 - k % 3;
      if lower then Cell(long, short) else Cell(short, long))
  }

  lemma {:induction false} VersionCellBit(version: nat, lower: bool, k: nat)
    requires 7 <= version <= 40 && k < 18
    ensures var size, c := SizeOf(version), VersionCells(SizeOf(version), lower)[k];
            InGrid(c, size) && VersionCell(c, version) && VersionIndex(c, size) == 17 - k
  {}

  /** Each of the two copies shows all eighteen bits of the version word. */
  lemma {:induction false} BothVersionCopiesRead(m: Grid, size: nat, version: nat, lower: bool)
    requires 7 <= version <= 40 && size == SizeOf(version) && Square(m, size) && PatternsShown(m, size, version)
    ensures forall k :: 0 <= k < 18 ==> InGrid(VersionCells(size, lower)[k], size)
    ensures Collect(ReadAt(m, size, VersionCells(size, lower))) == VersionWord(version)
  {
    hide Get, GetBit, VersionWord, Collect, VersionCells, VersionCell, VersionIndex, PatternsShown;
    forall k | 0 <= k < 18 ensures InGrid(VersionCells(size, lower)[k], size) { VersionCellBit(version, lower, k); }
    var w := VersionWord(version);
    VersionWordBelow(version);
    BitsMakeWord(w, 18);
    var shown, bits := ReadAt(m, size, VersionCells(size, lower)), LeadingBits(w, 18, 18);
    forall k | 0 <= k < 18 ensures shown[k] == bits[k] {
      VersionCellBit(version, lower, k);
      VersionBitShown(m, size, version, VersionCells(size, lower)[k], 17 - k);
    }
    assert shown == bits;
  }

  lemma {:induction false} VersionBitShown(m: Grid, size: nat, version: nat, c: Cell, i: nat)
    requires 7 <= version <= 40 && size == SizeOf(version) && Square(m, size) && PatternsShown(m, size, version)
    requires InGrid(c, size) && VersionCell(c, version) && i < 18 && VersionIndex(c, size) == i
    ensures Get(m, size, c) == GetBit(VersionWord(version), i)
  {
    hide Get, VersionWord, GetBit, AlignCell;
    assert PatternShownAt(m, size, version, c);
    if AlignCell(c, version) { AlignCellApart(version, c); }
  }
}
