/** Square grids of modules; `true` is dark. */
module Grids {
  import opened Arithmetic

  type Grid = seq<seq<bool>>

  datatype Cell = Cell(x: int, y: int)

  predicate Square(g: Grid, size: nat)
  {
    |g| == size && forall y :: 0 <= y < size ==> |g[y]| == size
  }

  predicate InGrid(c: Cell, size: nat) { 0 <= c.x < size && 0 <= c.y < size }

  function Get(g: Grid, size: nat, c: Cell): bool
    requires Square(g, size) && InGrid(c, size)
  {
    g[c.y][c.x]
  }

  function Set(g: Grid, size: nat, c: Cell, dark: bool): (h: Grid)
    requires Square(g, size) && InGrid(c, size)
    ensures Square(h, size)
    ensures Get(h, size, c) == dark
    ensures forall d :: InGrid(d, size) && d != c ==> Get(h, size, d) == Get(g, size, d)
  {
    g[c.y := g[c.y][c.x := dark]]
  }

  lemma {:induction false} SameGrid(g: Grid, h: Grid, size: nat)
    requires Square(g, size) && Square(h, size)
    requires forall c :: InGrid(c, size) ==> Get(g, size, c) == Get(h, size, c)
    ensures g == h
  {
    forall y | 0 <= y < size ensures g[y] == h[y] {
      forall x | 0 <= x < size ensures g[y][x] == h[y][x] {
        assert Get(g, size, Cell(x, y)) == Get(h, size, Cell(x, y));
      }
    }
  }

  // ---------- Sets of cells ----------

  function Interval(a: int, b: int): (s: set<int>)
    ensures forall i :: i in s <==> a <= i < b
    decreases b - a
  {
    if a >= b then {} else Interval(a, b - 1) + {b - 1}
  }

  /** The cells with x in `xs` and y in `ys`. */
  function Product(xs: set<int>, ys: set<int>): set<Cell>
  {
    set x, y | x in xs && y in ys :: Cell(x, y)
  }

  lemma {:induction false} IntervalSize(a: int, b: int)
    requires a <= b
    ensures |Interval(a, b)| == b - a
    decreases b - a
  {
    if a == b {
      assert Interval(a, b) == {};
    } else {
      IntervalSize(a, b - 1);
      assert Interval(a, b) == Interval(a, b - 1) + {b - 1};
    }
  }

  lemma {:induction false} Element<T>(s: set<T>) returns (x: T)
    requires s != {}
    ensures x in s
  {
    x :| x in s;
  }

  lemma {:induction false} ColumnSize(xs: set<int>, y: int)
    ensures |Product(xs, {y})| == |xs|
    decreases xs
  {
    if xs == {} {
      assert Product(xs, {y}) == {};
    } else {
      var x := Element(xs);
      ColumnSize(xs - {x}, y);
      assert Product(xs, {y}) == Product(xs - {x}, {y}) + {Cell(x, y)};
    }
  }

  lemma {:induction false} ProductSplit(xs: set<int>, ys: set<int>, y: int)
    requires y in ys
    ensures Product(xs, ys) == Product(xs, ys - {y}) + Product(xs, {y})
    ensures Product(xs, ys - {y}) !! Product(xs, {y})
  {}

  lemma {:induction false} ProductSize(xs: set<int>, ys: set<int>)
    ensures |Product(xs, ys)| == |xs| * |ys|
    decreases ys
  {
    hide Product;
    if ys == {} {
      ProductEmpty(xs);
    } else {
      var y := Element(ys);
      ProductSize(xs, ys - {y});
      ColumnSize(xs, y);
      ProductSplit(xs, ys, y);
      NextMultiple(|ys - {y}|, |xs|);
    }
  }

  lemma {:induction false} ProductEmpty(xs: set<int>)
    ensures Product(xs, {}) == {}
  {}

  /** The cells with x0 <= x < x1 and y0 <= y < y1. */
  function Rect(x0: int, x1: int, y0: int, y1: int): set<Cell> { Product(Interval(x0, x1), Interval(y0, y1)) }

  lemma {:induction false} InProduct(xs: set<int>, ys: set<int>)
    ensures forall c :: c in Product(xs, ys) <==> c.x in xs && c.y in ys
  {}

  lemma {:induction false} InRect(x0: int, x1: int, y0: int, y1: int)
    ensures forall c :: c in Rect(x0, x1, y0, y1) <==> x0 <= c.x < x1 && y0 <= c.y < y1
  {
    hide Product;
    InProduct(Interval(x0, x1), Interval(y0, y1));
  }

  lemma {:induction false} RectSize(x0: int, x1: int, y0: int, y1: int)
    requires x0 <= x1 && y0 <= y1
    ensures |Rect(x0, x1, y0, y1)| == (x1 - x0) * (y1 - y0)
  {
    hide Product, Interval;
    IntervalSize(x0, x1);
    IntervalSize(y0, y1);
    ProductSize(Interval(x0, x1), Interval(y0, y1));
  }

  lemma {:induction false} UnionSize<T>(a: set<T>, b: set<T>)
    requires a !! b
    ensures |a + b| == |a| + |b|
  {}

  /** Rectangles that lie side by side or above each other share no cell. */
  lemma {:induction false} RectsApart(x0: int, x1: int, y0: int, y1: int, u0: int, u1: int, v0: int, v1: int)
    requires x1 <= u0 || u1 <= x0 || y1 <= v0 || v1 <= y0
    ensures Rect(x0, x1, y0, y1) !! Rect(u0, u1, v0, v1)
  {
    hide Rect;
    InRect(x0, x1, y0, y1);
    InRect(u0, u1, v0, v1);
  }

  /** All cells of a grid. */
  function AllCells(size: nat): set<Cell> { Rect(0, size, 0, size) }

  lemma {:induction false} AllCellsSize(size: nat)
    ensures |AllCells(size)| == size * size
    ensures forall c :: c in AllCells(size) <==> InGrid(c, size)
  {
    hide Rect;
    InRect(0, size, 0, size);
    RectSize(0, size, 0, size);
  }

  lemma {:induction false} SubsetSize(a: set<Cell>, b: set<Cell>)
    requires a <= b
    ensures |a| <= |b|
  {
    assert b == a + (b - a);
  }

  /** The cells of `s` that come before (x, y) in row order. */
  ghost function UpTo(s: set<Cell>, x: int, y: int): set<Cell>
  {
    set c | c in s && (c.y < y || (c.y == y && c.x < x))
  }

  lemma {:induction false} UpToNext(s: set<Cell>, x: int, y: int)
    ensures UpTo(s, x + 1, y) == if Cell(x, y) in s then UpTo(s, x, y) + {Cell(x, y)} else UpTo(s, x, y)
    ensures |UpTo(s, x + 1, y)| == |UpTo(s, x, y)| + (if Cell(x, y) in s then 1 else 0)
  {
    if Cell(x, y) in s {
      assert UpTo(s, x + 1, y) == UpTo(s, x, y) + {Cell(x, y)};
    } else {
      assert UpTo(s, x + 1, y) == UpTo(s, x, y);
    }
  }

  ghost predicate Within(s: set<Cell>, left: int, right: int, top: int, bottom: int)
  {
    forall c :: c in s ==> left <= c.x < right && top <= c.y < bottom
  }

  /** A scan of the rows from `top` to `bottom`, each from `left` to `right`. */
  lemma {:induction false} UpToRows(s: set<Cell>, left: int, right: int, top: int, bottom: int, y: int)
    requires Within(s, left, right, top, bottom)
    ensures UpTo(s, left, top) == {}
    ensures UpTo(s, right, y) == UpTo(s, left, y + 1)
    ensures UpTo(s, left, bottom) == s
  {}

  /** How many cells of `s` come before (x, y) in row order. */
  ghost function CountUpTo(s: set<Cell>, x: int, y: int): nat { |UpTo(s, x, y)| }

  lemma {:induction false} CountNext(s: set<Cell>, x: int, y: int)
    ensures CountUpTo(s, x + 1, y) == CountUpTo(s, x, y) + (if Cell(x, y) in s then 1 else 0)
  {
    hide UpTo;
    UpToNext(s, x, y);
  }

  lemma {:induction false} CountRows(s: set<Cell>, left: int, right: int, top: int, bottom: int, y: int)
    requires Within(s, left, right, top, bottom)
    ensures CountUpTo(s, left, top) == 0
    ensures CountUpTo(s, right, y) == CountUpTo(s, left, y + 1)
    ensures CountUpTo(s, left, bottom) == |s|
  {
    hide UpTo, Within;
    UpToRows(s, left, right, top, bottom, y);
  }
}
