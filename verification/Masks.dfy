/** The eight data masks (section 7.8.2 of ISO/IEC 18004:2015): the conditions the encoder evaluates,
    what they look like on the symbol, and the conditions a reader uses to undo them. */
module Masks {
  import opened Arithmetic

  predicate Inverts(msk: nat, x: nat, y: nat)
    requires msk < 8
  {
    match msk
    case 0 => (x + y) % 2 == 0
    case 1 => y % 2 == 0
    case 2 => x % 3 == 0
    case 3 => (x + y) % 3 == 0
    case 4 => (x / 3 + y / 2) % 2 == 0
    case 5 => x * y % 2 + x * y % 3 == 0
    case 6 => (x * y % 2 + x * y % 3) % 2 == 0
    case 7 => ((x + y) % 2 + x * y % 3) % 2 == 0
  }

  // ---------- What the masks look like ----------

  /** A chessboard whose first module is inverted. */
  lemma {:induction false} Mask0Chessboard(x: nat, y: nat)
    ensures Inverts(0, 0, 0)
    ensures Inverts(0, x + 1, y) != Inverts(0, x, y) && Inverts(0, x, y + 1) != Inverts(0, x, y)
  {}

  /** Every other row, from the first one. */
  lemma {:induction false} Mask1Rows(x: nat, y: nat)
    ensures Inverts(1, x, 0) && Inverts(1, x, y + 1) != Inverts(1, x, y) && Inverts(1, x + 1, y) == Inverts(1, x, y)
  {}

  /** Every third column, from the first one. */
  lemma {:induction false} Mask2Columns(x: nat, y: nat)
    ensures Inverts(2, 0, y) && !Inverts(2, 1, y) && !Inverts(2, 2, y)
    ensures Inverts(2, x + 3, y) == Inverts(2, x, y) && Inverts(2, x, y + 1) == Inverts(2, x, y)
  {}

  /** Every third diagonal, from the one in the corner. */
  lemma {:induction false} Mask3Diagonals(x: nat, y: nat)
    ensures Inverts(3, 0, 0) && !Inverts(3, 1, 0) && !Inverts(3, 2, 0) && Inverts(3, x + 3, 0) == Inverts(3, x, 0)
    ensures Inverts(3, x, y + 1) == Inverts(3, x + 1, y)
  {}

  /** A chessboard of blocks three wide and two high whose first block is inverted. */
  lemma {:induction false} Mask4Blocks(x: nat, y: nat)
    ensures Inverts(4, x, y) == Inverts(4, x - x % 3, y - y % 2)
    ensures Inverts(4, 0, 0) && Inverts(4, x + 3, y) != Inverts(4, x, y) && Inverts(4, x, y + 2) != Inverts(4, x, y)
  {
    assert (x - x % 3) / 3 == x / 3 && (y - y % 2) / 2 == y / 2;
    assert (x + 3) / 3 == x / 3 + 1 && (y + 2) / 2 == y / 2 + 1;
  }

  predicate ByProduct5(n: nat) { n % 2 + n % 3 == 0 }

  predicate ByProduct6(n: nat) { (n % 2 + n % 3) % 2 == 0 }

  predicate ByProduct7(s: nat, n: nat) { (s % 2 + n % 3) % 2 == 0 }

  lemma {:induction false} ProductForms(x: nat, y: nat)
    ensures Inverts(5, x, y) == ByProduct5(x * y)
    ensures Inverts(6, x, y) == ByProduct6(x * y)
    ensures Inverts(7, x, y) == ByProduct7(x + y, x * y)
  {}

  /** Masks 5 and 6 depend on the product of the coordinates, modulo 6; mask 7 on their sum as well. */
  lemma {:induction false} ProductMasks(x: nat, y: nat)
    ensures Inverts(5, x, y) <==> x * y % 6 == 0
    ensures Inverts(6, x, y) <==> x * y % 6 < 3
    ensures Inverts(7, x, y) <==> (x + y + x * y % 3) % 2 == 0
  {
    hide Inverts, ByProduct5, ByProduct6, ByProduct7;
    ProductForms(x, y);
    ModuloSix(x * y);
    ProductAndSum(x + y, x * y);
  }

  lemma {:induction false} ModuloSix(n: nat)
    ensures ByProduct5(n) <==> n % 6 == 0
    ensures ByProduct6(n) <==> n % 6 < 3
  {
    var q, r := n / 6, n % 6;
    QuotientOf(3 * q + r / 2, r % 2, 2);
    QuotientOf(2 * q + r / 3, r % 3, 3);
    assert r == 0 || r == 1 || r == 2 || r == 3 || r == 4 || r == 5;
  }

  lemma {:induction false} ProductAndSum(s: nat, n: nat)
    ensures ByProduct7(s, n) <==> (s + n % 3) % 2 == 0
  {
    SameParity(s, n % 3);
  }

  lemma {:induction false} SameParity(a: nat, b: nat)
    ensures (a % 2 + b) % 2 == (a + b) % 2
  {
    var q, r := a / 2, a % 2 + b;
    QuotientOf(q + r / 2, r % 2, 2);
  }

  // ---------- The reader's conditions ----------

  /** Whether a reader inverts a module again; `row` and `column` count from the upper left corner. */
  predicate Flipped(msk: nat, row: nat, column: nat)
    requires msk < 8
  {
    match msk
    case 0 => row % 2 == column % 2
    case 1 => row % 2 == 0
    case 2 => column % 3 == 0
    case 3 => (row % 3 + column % 3) % 3 == 0
    case 4 => (row % 4 < 2) == (column % 6 < 3)
    case 5 => row * column % 6 == 0
    case 6 => row * column % 6 < 3
    case 7 => (row + column + row * column % 3) % 2 == 0
  }

  lemma {:induction false} FlippedStripes(msk: nat, x: nat, y: nat)
    requires msk < 4
    ensures Flipped(msk, y, x) <==> Inverts(msk, x, y)
  {
    if msk == 0 {
      SameParity(x, y);
      SameParity(y, x % 2);
    } else if msk == 3 {
      SameDiagonal(x, y);
    }
  }

  lemma {:induction false} FlippedBlocks(x: nat, y: nat)
    ensures Flipped(4, y, x) <==> Inverts(4, x, y)
  {
    BlockParity(x, y);
  }

  lemma {:induction false} FlippedForms(x: nat, y: nat)
    ensures Flipped(5, y, x) == (x * y % 6 == 0)
    ensures Flipped(6, y, x) == (x * y % 6 < 3)
    ensures Flipped(7, y, x) == ((x + y + x * y % 3) % 2 == 0)
  {
    assert x * y == y * x;
  }

  /** A reader inverts exactly the modules the encoder inverts. */
  lemma {:induction false} FlippedIsInverts(msk: nat, x: nat, y: nat)
    requires msk < 8
    ensures Flipped(msk, y, x) <==> Inverts(msk, x, y)
  {
    hide Flipped, Inverts;
    if msk < 4 {
      FlippedStripes(msk, x, y);
    } else if msk == 4 {
      FlippedBlocks(x, y);
    } else {
      FlippedForms(x, y);
      ProductMasks(x, y);
    }
  }

  lemma {:induction false} SameDiagonal(x: nat, y: nat)
    ensures (x + y) % 3 == (y % 3 + x % 3) % 3
  {
    var r := y % 3 + x % 3;
    QuotientOf(x / 3 + y / 3 + r / 3, r % 3, 3);
  }

  lemma {:induction false} BlockParity(x: nat, y: nat)
    ensures (x / 3 + y / 2) % 2 == 0 <==> (y % 4 < 2) == (x % 6 < 3)
  {
    ThreeWide(x);
    TwoHigh(y);
    var a, b := x / 3, y / 2;
    SameParity(a, b);
    SameParity(b, a % 2);
  }

  lemma {:induction false} ThreeWide(x: nat)
    ensures x / 3 % 2 == 0 <==> x % 6 < 3
  {
    var q, r := x / 6, x % 6;
    QuotientOf(2 * q + r / 3, r % 3, 3);
    QuotientOf(q, r / 3, 2);
  }

  lemma {:induction false} TwoHigh(y: nat)
    ensures y / 2 % 2 == 0 <==> y % 4 < 2
  {
    var q, r := y / 4, y % 4;
    QuotientOf(2 * q + r / 2, r % 2, 2);
    QuotientOf(q, r / 2, 2);
  }
}
