/** The penalty score of a whole symbol (section 7.8.3 of ISO/IEC 18004:2015). */
module Penalty {
  import opened Grids
  import opened LinePenalty
  import opened Arithmetic

  const PENALTY_N2: nat := 3
  const PENALTY_N4: nat := 10

  // ---------- Sets of cells ----------

  function DarkCells(g: Grid, size: nat): set<Cell>
    requires Square(g, size)
  {
    set c | InGrid(c, size) && c in AllCells(size) && Get(g, size, c)
  }

  predicate Uniform(g: Grid, size: nat, c: Cell)
    requires Square(g, size)
  {
    && InGrid(c, size) && InGrid(Cell(c.x + 1, c.y + 1), size)
    && g[c.y][c.x] == g[c.y][c.x + 1] == g[c.y + 1][c.x] == g[c.y + 1][c.x + 1]
  }

  /** The upper left corners of the 2 x 2 blocks of one colour. */
  function UniformBlocks(g: Grid, size: nat): set<Cell>
    requires Square(g, size)
  {
    set c | c in AllCells(size) && Uniform(g, size, c)
  }

  // ---------- The score ----------

  function Row(g: Grid, size: nat, y: nat): (line: seq<bool>)
    requires Square(g, size) && y < size
    ensures |line| == size
  {
    g[y]
  }

  function Column(g: Grid, size: nat, x: nat): (line: seq<bool>)
    requires Square(g, size) && x < size
    ensures |line| == size
  {
    seq(size, y requires 0 <= y < size => g[y][x])
  }

  /** The scores of the first `n` rows. */
  function RowScores(g: Grid, size: nat, n: nat): nat
    requires Square(g, size) && n <= size
  {
    if n == 0 then 0 else RowScores(g, size, n - 1) + LineScore(Row(g, size, n - 1))
  }

  function ColumnScores(g: Grid, size: nat, n: nat): nat
    requires Square(g, size) && n <= size
  {
    if n == 0 then 0 else ColumnScores(g, size, n - 1) + LineScore(Column(g, size, n - 1))
  }

  /** Dark modules are between (45 - 5k) and (55 + 5k) percent of all. */
  predicate Balanced(dark: nat, total: nat, k: int)
  {
    (45 - 5 * k) * total <= 100 * dark <= (55 + 5 * k) * total
  }

  /** The computed deviation step. */
  function BalanceStep(dark: nat, total: nat): int
    requires total > 0
  {
    var d := dark * 20 - total * 10;
    ((if d < 0 then -d else d) + total - 1) / total - 1
  }

  /** It is the least k >= 0 for which the symbol is balanced, and at most 9. */
  lemma {:induction false} BalanceStepIsLeast(dark: nat, total: nat)
    requires total % 2 == 1 && dark <= total
    ensures 0 <= BalanceStep(dark, total) <= 9
    ensures forall k :: k >= 0 ==> (Balanced(dark, total, k) <==> k >= BalanceStep(dark, total))
  {
    var d := dark * 20 - total * 10;
    var a := if d < 0 then -d else d;
    var q := (a + total - 1) / total;
    CeilingDivision(a, total, q);
    assert a >= 1;
    forall k | k >= 0 ensures Balanced(dark, total, k) <==> k >= q - 1 {
      BalancedMeans(dark, total, k);
      if k >= q - 1 { MultipleMonotone(q, k + 1, total); } else { MultipleMonotone(k + 1, q - 1, total); }
    }
    if q > 10 { MultipleMonotone(10, q - 1, total); }
  }

  lemma {:induction false} BalancedMeans(dark: nat, total: nat, k: int)
    ensures var d := dark * 20 - total * 10;
            Balanced(dark, total, k) <==> (if d < 0 then -d else d) <= (k + 1) * total
  {
    var t := k * total;
    assert (45 - 5 * k) * total == 45 * total - 5 * t;
    assert (55 + 5 * k) * total == 55 * total + 5 * t;
    assert (k + 1) * total == t + total;
  }

  lemma {:induction false} CeilingDivision(a: nat, t: nat, q: nat)
    requires t > 0 && q == (a + t - 1) / t
    ensures a <= q * t
    ensures a > 0 ==> q >= 1 && (q - 1) * t < a
  {
    var r := (a + t - 1) % t;
    assert a + t - 1 == q * t + r;
    assert q >= 1 ==> (q - 1) * t == q * t - t;
    assert q == 0 ==> q * t == 0;
  }

  function PenaltyScore(g: Grid, size: nat): int
    requires Square(g, size) && size > 0
  {
    assert size * size > 0;
    RowScores(g, size, size) + ColumnScores(g, size, size)
    + PENALTY_N2 * |UniformBlocks(g, size)|
    + PENALTY_N4 * BalanceStep(|DarkCells(g, size)|, size * size)
  }

  // ---------- The computation ----------

  lemma {:induction false} UniformBlocksInside(g: Grid, size: nat)
    requires Square(g, size)
    ensures Within(UniformBlocks(g, size), 0, size - 1, 0, size - 1)
  {}

  method IsUniform(modules: Grid, size: nat, x: int, y: int) returns (yes: bool)
    requires Square(modules, size) && 0 <= x < size - 1 && 0 <= y < size - 1
    ensures yes <==> Cell(x, y) in UniformBlocks(modules, size)
  {
    var color := modules[y][x];
    return color == modules[y][x + 1] && color == modules[y + 1][x] && color == modules[y + 1][x + 1];
  }

  method CountUniformBlocks(modules: Grid, size: nat) returns (count: nat)
    requires Square(modules, size) && size >= 1
    ensures count == |UniformBlocks(modules, size)|
  {
    hide *;
    ghost var s := UniformBlocks(modules, size);
    UniformBlocksInside(modules, size);
    count := 0;
    CountRows(s, 0, size - 1, 0, size - 1, 0);
    for y := 0 to size - 1
      invariant count == CountUpTo(s, 0, y)
    {
      for x := 0 to size - 1
        invariant count == CountUpTo(s, x, y)
      {
        CountNext(s, x, y);
        var uniform := IsUniform(modules, size, x, y);
        if uniform {
          count := count + 1;
        }
      }
      CountRows(s, 0, size - 1, 0, size - 1, y);
    }
  }

  method CountDark(modules: Grid, size: nat) returns (dark: nat)
    requires Square(modules, size)
    ensures dark == |DarkCells(modules, size)|
  {
    ghost var s := DarkCells(modules, size);
    DarkCellsInside(modules, size);
    hide CountUpTo, DarkCells, Within;
    dark := 0;
    CountRows(s, 0, size, 0, size, 0);
    for y := 0 to size
      invariant dark == CountUpTo(s, 0, y)
    {
      for x := 0 to size
        invariant dark == CountUpTo(s, x, y)
      {
        CountNext(s, x, y);
        IsDark(modules, size, x, y);
        if modules[y][x] {
          dark := dark + 1;
        }
      }
      CountRows(s, 0, size, 0, size, y);
    }
  }

  lemma {:induction false} DarkCellsInside(g: Grid, size: nat)
    requires Square(g, size)
    ensures Within(DarkCells(g, size), 0, size, 0, size)
  {}

  lemma {:induction false} IsDark(g: Grid, size: nat, x: nat, y: nat)
    requires Square(g, size) && x < size && y < size
    ensures Cell(x, y) in DarkCells(g, size) <==> g[y][x]
  {
    assert Get(g, size, Cell(x, y)) == g[y][x];
  }

  method GetPenaltyScore(modules: Grid, size: nat) returns (result: int)
    requires Square(modules, size) && size % 2 == 1
    ensures result == PenaltyScore(modules, size)
  {
    hide LineScore, UniformBlocks, DarkCells, BalanceStep;
    result := 0;
    for y := 0 to size
      invariant result == RowScores(modules, size, y)
    {
      var score := ScoreLine(Row(modules, size, y));
      result := result + score;
    }
    for x := 0 to size
      invariant result == RowScores(modules, size, size) + ColumnScores(modules, size, x)
    {
      var score := ScoreLine(Column(modules, size, x));
      result := result + score;
    }
    var blocks := CountUniformBlocks(modules, size);
    result := result + blocks * PENALTY_N2;
    var dark := CountDark(modules, size);
    var total := size * size;
    var k := BalanceStep(dark, total);
    result := result + k * PENALTY_N4;
  }

  // ---------- The asserted bounds ----------

  lemma {:induction false} OddSquare(size: nat)
    requires size % 2 == 1
    ensures size * size % 2 == 1
  {
    var h := size / 2;
    assert size == 2 * h + 1;
    assert size * size == 2 * (2 * h * h + 2 * h) + 1;
  }

  lemma {:induction false} LineScoresBound(g: Grid, size: nat, n: nat)
    requires Square(g, size) && n <= size
    ensures RowScores(g, size, n) <= n * (21 * size + 40)
    ensures ColumnScores(g, size, n) <= n * (21 * size + 40)
  {
    hide LineScore;
    var b := 21 * size + 40;
    if n == 0 {
    } else {
      LineScoresBound(g, size, n - 1);
      LineScoreBound(Row(g, size, n - 1));
      LineScoreBound(Column(g, size, n - 1));
      assert n * b == (n - 1) * b + b;
    }
  }

  /** What the encoder asserts of every symbol size: the balance step is between 0 and 9, and the
      score between 0 and 2568888. */
  lemma {:induction false} PenaltyScoreBounds(g: Grid, size: nat)
    requires Square(g, size) && size % 2 == 1 && size <= 177
    ensures 0 <= BalanceStep(|DarkCells(g, size)|, size * size) <= 9
    ensures 0 <= PenaltyScore(g, size) <= 2568888
  {
    var total, b := size * size, 21 * size + 40;
    var dark, blocks := DarkCells(g, size), UniformBlocks(g, size);
    AllCellsSize(size);
    SubsetSize(dark, AllCells(size));
    SubsetSize(blocks, AllCells(size));
    OddSquare(size);
    hide DarkCells, UniformBlocks, BalanceStep, RowScores, ColumnScores;
    BalanceStepIsLeast(|dark|, total);
    LineScoresBound(g, size, size);
    MultipleMonotone(size, 177, b);
    MultipleMonotone(size, 177, size);
  }

  // ---------- The score of one colour ----------

  function OneColour(size: nat, color: bool): (g: Grid)
    ensures Square(g, size)
  {
    seq(size, _ => Repeat(color, size))
  }

  lemma {:induction false} OneRun(n: nat, color: bool)
    requires n >= 1
    ensures RunsOf(Repeat(color, n)) == if color then [0, n] else [n]
  {
    var runs: seq<nat> := if color then [0, n] else [n];
    RenderNothing();
    assert Render([]) == [];
    hide Render, RunsOf;
    RenderSnoc([], n);
    RenderSnoc([0], n);
    assert [] + [n] == [n] && [0] + [n] == [0, n];
    assert Render(runs) == Repeat(color, n);
    RunsOfRender(runs);
  }

  lemma {:induction false} OneRunScore(n: nat, color: bool)
    requires n >= 5
    ensures LineScore(Repeat(color, n)) == n - 2
  {
    var runs: seq<nat> := if color then [0, n] else [n];
    OneRun(n, color);
    assert RunPenalty([]) == 0;
    hide RunsOf, RunPenalty;
    RunPenaltySnoc([], n);
    RunPenaltySnoc([], 0);
    RunPenaltySnoc([0], n);
    assert [] + [n] == [n] && [] + [0] == [0] && [0] + [n] == [0, n];
    assert |Bordered(runs, n)| < 7;
  }

  lemma {:induction false} OneColourLines(size: nat, color: bool, n: nat)
    requires size >= 5 && n <= size
    ensures RowScores(OneColour(size, color), size, n) == n * (size - 2)
    ensures ColumnScores(OneColour(size, color), size, n) == n * (size - 2)
  {
    hide LineScore;
    if n == 0 {
    } else {
      var g := OneColour(size, color);
      OneColourLines(size, color, n - 1);
      OneRunScore(size, color);
      assert Row(g, size, n - 1) == Repeat(color, size) && Column(g, size, n - 1) == Repeat(color, size);
      NextMultiple(n - 1, size - 2);
    }
  }

  lemma {:induction false} OneColourCells(size: nat, color: bool)
    requires size >= 1
    ensures |DarkCells(OneColour(size, color), size)| == if color then size * size else 0
    ensures |UniformBlocks(OneColour(size, color), size)| == (size - 1) * (size - 1)
  {
    var g := OneColour(size, color);
    hide AllCells, Rect;
    AllCellsSize(size);
    InRect(0, size - 1, 0, size - 1);
    RectSize(0, size - 1, 0, size - 1);
    assert DarkCells(g, size) == if color then AllCells(size) else {};
    assert UniformBlocks(g, size) == Rect(0, size - 1, 0, size - 1);
  }

  lemma {:induction false} OneColourBalance(total: nat)
    requires total >= 1
    ensures BalanceStep(0, total) == 9 && BalanceStep(total, total) == 9
  {
    assert (10 * total + total - 1) / total == 10 by { QuotientOf(10, total - 1, total); }
  }

  /** The score of a symbol of one colour: every row and column is one run, every block is uniform, and
      the balance is as far off as can be. */
  lemma {:induction false} OneColourScore(size: nat, color: bool)
    requires size >= 5
    ensures PenaltyScore(OneColour(size, color), size) == 2 * (size * (size - 2)) + 3 * ((size - 1) * (size - 1)) + 90
  {
    var g, total := OneColour(size, color), size * size;
    MultipleMonotone(1, size, size);
    OneColourLines(size, color, size);
    OneColourCells(size, color);
    OneColourBalance(total);
    hide OneColour, RowScores, ColumnScores, DarkCells, UniformBlocks, BalanceStep;
  }
}
