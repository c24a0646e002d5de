/** Square integer matrices as values, and the seven-product identities. */
module MatrixTheory {

  type Grid = seq<seq<int>>

  predicate Rectangle(a: Grid, rows: nat, cols: nat) {
    |a| == rows && forall i :: 0 <= i < rows ==> |a[i]| == cols
  }

  predicate Square(a: Grid, n: nat) {
    Rectangle(a, n, n)
  }

  lemma SameCells(a: Grid, b: Grid, rows: nat, cols: nat)
    requires Rectangle(a, rows, cols) && Rectangle(b, rows, cols)
    requires forall i, j :: 0 <= i < rows && 0 <= j < cols ==> a[i][j] == b[i][j]
    ensures a == b
  {
    forall i | 0 <= i < rows ensures a[i] == b[i] {}
  }

  lemma SameGrid(a: Grid, b: Grid, n: nat)
    requires Square(a, n) && Square(b, n)
    requires forall i, j :: 0 <= i < n && 0 <= j < n ==> a[i][j] == b[i][j]
    ensures a == b
  {
    SameCells(a, b, n, n);
  }

  // ---------------------------------------------------------------- operations

  /** Row `i` of `a` times column `j` of `b`, over the first `m` terms. */
  function Dot(a: Grid, b: Grid, n: nat, i: nat, j: nat, m: nat): (r: int)
    requires Square(a, n) && Square(b, n) && i < n && j < n && m <= n
  {
    if m == 0 then 0 else Dot(a, b, n, i, j, m - 1) + a[i][m - 1] * b[m - 1][j]
  }

  /** The product by definition. */
  ghost function Mul(a: Grid, b: Grid, n: nat): (c: Grid)
    requires Square(a, n) && Square(b, n)
    ensures Square(c, n) && forall i, j :: 0 <= i < n && 0 <= j < n ==> c[i][j] == Dot(a, b, n, i, j, n)
  {
    seq(n, i requires 0 <= i < n => seq(n, j requires 0 <= j < n => Dot(a, b, n, i, j, n)))
  }

  function Add(x: int, y: int): int {
    x + y
  }

  function Subtract(x: int, y: int): int {
    x - y
  }

  ghost function Zip(op: (int, int) -> int, a: Grid, b: Grid, rows: nat, cols: nat): (c: Grid)
    requires Rectangle(a, rows, cols) && Rectangle(b, rows, cols)
    ensures Rectangle(c, rows, cols) && forall i, j :: 0 <= i < rows && 0 <= j < cols ==> c[i][j] == op(a[i][j], b[i][j])
  {
    seq(rows, i requires 0 <= i < rows => seq(cols, j requires 0 <= j < cols => op(a[i][j], b[i][j])))
  }

  ghost function Plus(a: Grid, b: Grid, n: nat): (c: Grid)
    requires Square(a, n) && Square(b, n)
    ensures Square(c, n)
  {
    Zip(Add, a, b, n, n)
  }

  ghost function Minus(a: Grid, b: Grid, n: nat): (c: Grid)
    requires Square(a, n) && Square(b, n)
    ensures Square(c, n)
  {
    Zip(Subtract, a, b, n, n)
  }

  /** The quarter of `a` that starts at row `r` and column `c`. */
  ghost function Quarter(a: Grid, k: nat, r: nat, c: nat): (q: Grid)
    requires Square(a, 2 * k) && r <= k && c <= k
    ensures Square(q, k) && forall i, j :: 0 <= i < k && 0 <= j < k ==> q[i][j] == a[r + i][c + j]
  {
    seq(k, i requires 0 <= i < k => seq(k, j requires 0 <= j < k => a[r + i][c + j]))
  }

  // ---------------------------------------------------------------- the identity matrix

  ghost function Identity(n: nat): (c: Grid)
    ensures Square(c, n) && forall i, j :: 0 <= i < n && 0 <= j < n ==> c[i][j] == if i == j then 1 else 0
  {
    seq(n, i requires 0 <= i < n => seq(n, j requires 0 <= j < n => if i == j then 1 else 0))
  }

  lemma {:induction false} DotIdentityLeft(a: Grid, n: nat, i: nat, j: nat, m: nat)
    requires Square(a, n) && i < n && j < n && m <= n
    ensures Dot(Identity(n), a, n, i, j, m) == if i < m then a[i][j] else 0
  {
    if m > 0 { DotIdentityLeft(a, n, i, j, m - 1); }
  }

  lemma {:induction false} DotIdentityRight(a: Grid, n: nat, i: nat, j: nat, m: nat)
    requires Square(a, n) && i < n && j < n && m <= n
    ensures Dot(a, Identity(n), n, i, j, m) == if j < m then a[i][j] else 0
  {
    if m > 0 { DotIdentityRight(a, n, i, j, m - 1); }
  }

  /** The identity matrix is neutral on both sides. */
  lemma IdentityNeutral(a: Grid, n: nat)
    requires Square(a, n)
    ensures Mul(Identity(n), a, n) == a && Mul(a, Identity(n), n) == a
  {
    forall i, j | 0 <= i < n && 0 <= j < n
      ensures Mul(Identity(n), a, n)[i][j] == a[i][j] && Mul(a, Identity(n), n)[i][j] == a[i][j]
    {
      DotIdentityLeft(a, n, i, j, n);
      DotIdentityRight(a, n, i, j, n);
    }
    SameGrid(Mul(Identity(n), a, n), a, n);
    SameGrid(Mul(a, Identity(n), n), a, n);
  }

  // ---------------------------------------------------------------- linearity of the product

  lemma DotPlusLeft(a: Grid, b: Grid, c: Grid, n: nat, i: nat, j: nat, m: nat)
    requires Square(a, n) && Square(b, n) && Square(c, n) && i < n && j < n && m <= n
    ensures Dot(Plus(a, b, n), c, n, i, j, m) == Dot(a, c, n, i, j, m) + Dot(b, c, n, i, j, m)
  {
    if m > 0 {
      DotPlusLeft(a, b, c, n, i, j, m - 1);
      var x, y, z := a[i][m - 1], b[i][m - 1], c[m - 1][j];
      assert (x + y) * z == x * z + y * z;
    }
  }

  lemma DotMinusLeft(a: Grid, b: Grid, c: Grid, n: nat, i: nat, j: nat, m: nat)
    requires Square(a, n) && Square(b, n) && Square(c, n) && i < n && j < n && m <= n
    ensures Dot(Minus(a, b, n), c, n, i, j, m) == Dot(a, c, n, i, j, m) - Dot(b, c, n, i, j, m)
  {
    if m > 0 {
      DotMinusLeft(a, b, c, n, i, j, m - 1);
      var x, y, z := a[i][m - 1], b[i][m - 1], c[m - 1][j];
      assert (x - y) * z == x * z - y * z;
    }
  }

  lemma DotPlusRight(a: Grid, b: Grid, c: Grid, n: nat, i: nat, j: nat, m: nat)
    requires Square(a, n) && Square(b, n) && Square(c, n) && i < n && j < n && m <= n
    ensures Dot(a, Plus(b, c, n), n, i, j, m) == Dot(a, b, n, i, j, m) + Dot(a, c, n, i, j, m)
  {
    if m > 0 {
      DotPlusRight(a, b, c, n, i, j, m - 1);
      var x, y, z := a[i][m - 1], b[m - 1][j], c[m - 1][j];
      assert x * (y + z) == x * y + x * z;
    }
  }

  lemma DotMinusRight(a: Grid, b: Grid, c: Grid, n: nat, i: nat, j: nat, m: nat)
    requires Square(a, n) && Square(b, n) && Square(c, n) && i < n && j < n && m <= n
    ensures Dot(a, Minus(b, c, n), n, i, j, m) == Dot(a, b, n, i, j, m) - Dot(a, c, n, i, j, m)
  {
    if m > 0 {
      DotMinusRight(a, b, c, n, i, j, m - 1);
      var x, y, z := a[i][m - 1], b[m - 1][j], c[m - 1][j];
      assert x * (y - z) == x * y - x * z;
    }
  }

  // ---------------------------------------------------------------- products by quarters

  /** The first `m <= k` terms come from the left quarter of the row and the upper one of the column. */
  lemma DotFirstHalf(a: Grid, b: Grid, k: nat, i: nat, j: nat, r: nat, c: nat, m: nat)
    requires Square(a, 2 * k) && Square(b, 2 * k) && i < k && j < k && r <= k && c <= k && m <= k
    ensures Dot(a, b, 2 * k, r + i, c + j, m) == Dot(Quarter(a, k, r, 0), Quarter(b, k, 0, c), k, i, j, m)
  {
    if m > 0 { DotFirstHalf(a, b, k, i, j, r, c, m - 1); }
  }

  lemma DotSecondHalf(a: Grid, b: Grid, k: nat, i: nat, j: nat, r: nat, c: nat, m: nat)
    requires Square(a, 2 * k) && Square(b, 2 * k) && i < k && j < k && r <= k && c <= k && m <= k
    ensures Dot(a, b, 2 * k, r + i, c + j, k + m)
         == Dot(Quarter(a, k, r, 0), Quarter(b, k, 0, c), k, i, j, k) + Dot(Quarter(a, k, r, k), Quarter(b, k, k, c), k, i, j, m)
  {
    if m == 0 { DotFirstHalf(a, b, k, i, j, r, c, k); } else { DotSecondHalf(a, b, k, i, j, r, c, m - 1); }
  }

  /** A quarter of the product is the sum of two products of quarters. */
  lemma QuarterOfProduct(a: Grid, b: Grid, k: nat, r: nat, c: nat)
    requires Square(a, 2 * k) && Square(b, 2 * k) && r <= k && c <= k
    ensures Quarter(Mul(a, b, 2 * k), k, r, c)
         == Plus(Mul(Quarter(a, k, r, 0), Quarter(b, k, 0, c), k), Mul(Quarter(a, k, r, k), Quarter(b, k, k, c), k), k)
  {
    var left := Quarter(Mul(a, b, 2 * k), k, r, c);
    var right := Plus(Mul(Quarter(a, k, r, 0), Quarter(b, k, 0, c), k), Mul(Quarter(a, k, r, k), Quarter(b, k, k, c), k), k);
    forall i, j | 0 <= i < k && 0 <= j < k ensures left[i][j] == right[i][j] {
      DotSecondHalf(a, b, k, i, j, r, c, k);
    }
    SameGrid(left, right, k);
  }

  // ---------------------------------------------------------------- the seven products

  datatype Products = Products(p1: Grid, p2: Grid, p3: Grid, p4: Grid, p5: Grid, p6: Grid, p7: Grid)

  ghost predicate AllSquare(a11: Grid, a12: Grid, a21: Grid, a22: Grid, k: nat) {
    Square(a11, k) && Square(a12, k) && Square(a21, k) && Square(a22, k)
  }

  ghost predicate SquareProducts(p: Products, k: nat) {
    && Square(p.p1, k) && Square(p.p2, k) && Square(p.p3, k) && Square(p.p4, k)
    && Square(p.p5, k) && Square(p.p6, k) && Square(p.p7, k)
  }

  ghost function Seven(a11: Grid, a12: Grid, a21: Grid, a22: Grid, b11: Grid, b12: Grid, b21: Grid, b22: Grid, k: nat): (p: Products)
    requires AllSquare(a11, a12, a21, a22, k) && AllSquare(b11, b12, b21, b22, k)
    ensures SquareProducts(p, k)
  {
    Products(
      Mul(a11, Minus(b12, b22, k), k),
      Mul(Plus(a11, a12, k), b22, k),
      Mul(Plus(a21, a22, k), b11, k),
      Mul(a22, Minus(b21, b11, k), k),
      Mul(Plus(a11, a22, k), Plus(b11, b22, k), k),
      Mul(Minus(a12, a22, k), Plus(b21, b22, k), k),
      Mul(Minus(a11, a21, k), Plus(b11, b12, k), k))
  }

  /** The four ways the products are combined. */
  ghost function C11(p: Products, k: nat): (c: Grid)
    requires SquareProducts(p, k)
    ensures Square(c, k)
  {
    Plus(Minus(Plus(p.p5, p.p4, k), p.p2, k), p.p6, k)
  }

  ghost function C12(p: Products, k: nat): (c: Grid)
    requires SquareProducts(p, k)
    ensures Square(c, k)
  {
    Plus(p.p1, p.p2, k)
  }

  ghost function C21(p: Products, k: nat): (c: Grid)
    requires SquareProducts(p, k)
    ensures Square(c, k)
  {
    Plus(p.p3, p.p4, k)
  }

  ghost function C22(p: Products, k: nat): (c: Grid)
    requires SquareProducts(p, k)
    ensures Square(c, k)
  {
    Minus(Minus(Plus(p.p1, p.p5, k), p.p3, k), p.p7, k)
  }

  /** One entry of a product of two sums. */
  lemma PlusTimesPlus(a: Grid, b: Grid, c: Grid, d: Grid, k: nat, i: nat, j: nat)
    requires AllSquare(a, b, c, d, k) && i < k && j < k
    ensures Dot(Plus(a, b, k), Plus(c, d, k), k, i, j, k)
         == Dot(a, c, k, i, j, k) + Dot(a, d, k, i, j, k) + Dot(b, c, k, i, j, k) + Dot(b, d, k, i, j, k)
  {
    DotPlusLeft(a, b, Plus(c, d, k), k, i, j, k);
    DotPlusRight(a, c, d, k, i, j, k);
    DotPlusRight(b, c, d, k, i, j, k);
  }

  lemma MinusTimesPlus(a: Grid, b: Grid, c: Grid, d: Grid, k: nat, i: nat, j: nat)
    requires AllSquare(a, b, c, d, k) && i < k && j < k
    ensures Dot(Minus(a, b, k), Plus(c, d, k), k, i, j, k)
         == Dot(a, c, k, i, j, k) + Dot(a, d, k, i, j, k) - Dot(b, c, k, i, j, k) - Dot(b, d, k, i, j, k)
  {
    DotMinusLeft(a, b, Plus(c, d, k), k, i, j, k);
    DotPlusRight(a, c, d, k, i, j, k);
    DotPlusRight(b, c, d, k, i, j, k);
  }

  lemma UpperLeft(a11: Grid, a12: Grid, a21: Grid, a22: Grid, b11: Grid, b12: Grid, b21: Grid, b22: Grid, k: nat)
    requires AllSquare(a11, a12, a21, a22, k) && AllSquare(b11, b12, b21, b22, k)
    ensures C11(Seven(a11, a12, a21, a22, b11, b12, b21, b22, k), k) == Plus(Mul(a11, b11, k), Mul(a12, b21, k), k)
  {
    var p := Seven(a11, a12, a21, a22, b11, b12, b21, b22, k);
    var left, right := C11(p, k), Plus(Mul(a11, b11, k), Mul(a12, b21, k), k);
    forall i, j | 0 <= i < k && 0 <= j < k ensures left[i][j] == right[i][j] {
      PlusTimesPlus(a11, a22, b11, b22, k, i, j);
      MinusTimesPlus(a12, a22, b21, b22, k, i, j);
      DotMinusRight(a22, b21, b11, k, i, j, k);
      DotPlusLeft(a11, a12, b22, k, i, j, k);
      hide Dot;
      assert left[i][j] == p.p5[i][j] + p.p4[i][j] - p.p2[i][j] + p.p6[i][j];
    }
    SameGrid(left, right, k);
  }

  lemma UpperRight(a11: Grid, a12: Grid, a21: Grid, a22: Grid, b11: Grid, b12: Grid, b21: Grid, b22: Grid, k: nat)
    requires AllSquare(a11, a12, a21, a22, k) && AllSquare(b11, b12, b21, b22, k)
    ensures C12(Seven(a11, a12, a21, a22, b11, b12, b21, b22, k), k) == Plus(Mul(a11, b12, k), Mul(a12, b22, k), k)
  {
    var p := Seven(a11, a12, a21, a22, b11, b12, b21, b22, k);
    var left, right := C12(p, k), Plus(Mul(a11, b12, k), Mul(a12, b22, k), k);
    forall i, j | 0 <= i < k && 0 <= j < k ensures left[i][j] == right[i][j] {
      DotMinusRight(a11, b12, b22, k, i, j, k);
      DotPlusLeft(a11, a12, b22, k, i, j, k);
      hide Dot;
      assert left[i][j] == p.p1[i][j] + p.p2[i][j];
    }
    SameGrid(left, right, k);
  }

  lemma LowerLeft(a11: Grid, a12: Grid, a21: Grid, a22: Grid, b11: Grid, b12: Grid, b21: Grid, b22: Grid, k: nat)
    requires AllSquare(a11, a12, a21, a22, k) && AllSquare(b11, b12, b21, b22, k)
    ensures C21(Seven(a11, a12, a21, a22, b11, b12, b21, b22, k), k) == Plus(Mul(a21, b11, k), Mul(a22, b21, k), k)
  {
    var p := Seven(a11, a12, a21, a22, b11, b12, b21, b22, k);
    var left, right := C21(p, k), Plus(Mul(a21, b11, k), Mul(a22, b21, k), k);
    forall i, j | 0 <= i < k && 0 <= j < k ensures left[i][j] == right[i][j] {
      DotPlusLeft(a21, a22, b11, k, i, j, k);
      DotMinusRight(a22, b21, b11, k, i, j, k);
      hide Dot;
      assert left[i][j] == p.p3[i][j] + p.p4[i][j];
    }
    SameGrid(left, right, k);
  }

  lemma LowerRight(a11: Grid, a12: Grid, a21: Grid, a22: Grid, b11: Grid, b12: Grid, b21: Grid, b22: Grid, k: nat)
    requires AllSquare(a11, a12, a21, a22, k) && AllSquare(b11, b12, b21, b22, k)
    ensures C22(Seven(a11, a12, a21, a22, b11, b12, b21, b22, k), k) == Plus(Mul(a21, b12, k), Mul(a22, b22, k), k)
  {
    var p := Seven(a11, a12, a21, a22, b11, b12, b21, b22, k);
    var left, right := C22(p, k), Plus(Mul(a21, b12, k), Mul(a22, b22, k), k);
    forall i, j | 0 <= i < k && 0 <= j < k ensures left[i][j] == right[i][j] {
      DotMinusRight(a11, b12, b22, k, i, j, k);
      PlusTimesPlus(a11, a22, b11, b22, k, i, j);
      DotPlusLeft(a21, a22, b11, k, i, j, k);
      MinusTimesPlus(a11, a21, b11, b12, k, i, j);
      hide Dot;
      assert left[i][j] == p.p1[i][j] + p.p5[i][j] - p.p3[i][j] - p.p7[i][j];
    }
    SameGrid(left, right, k);
  }

  ghost function SevenOf(a: Grid, b: Grid, k: nat): (p: Products)
    requires Square(a, 2 * k) && Square(b, 2 * k)
    ensures SquareProducts(p, k)
  {
    Seven(Quarter(a, k, 0, 0), Quarter(a, k, 0, k), Quarter(a, k, k, 0), Quarter(a, k, k, k),
          Quarter(b, k, 0, 0), Quarter(b, k, 0, k), Quarter(b, k, k, 0), Quarter(b, k, k, k), k)
  }

  /** The four combinations are the four quarters of the product. */
  lemma StrassenIdentities(a: Grid, b: Grid, k: nat)
    requires Square(a, 2 * k) && Square(b, 2 * k)
    ensures C11(SevenOf(a, b, k), k) == Quarter(Mul(a, b, 2 * k), k, 0, 0)
    ensures C12(SevenOf(a, b, k), k) == Quarter(Mul(a, b, 2 * k), k, 0, k)
    ensures C21(SevenOf(a, b, k), k) == Quarter(Mul(a, b, 2 * k), k, k, 0)
    ensures C22(SevenOf(a, b, k), k) == Quarter(Mul(a, b, 2 * k), k, k, k)
  {
    var a11, a12, a21, a22 := Quarter(a, k, 0, 0), Quarter(a, k, 0, k), Quarter(a, k, k, 0), Quarter(a, k, k, k);
    var b11, b12, b21, b22 := Quarter(b, k, 0, 0), Quarter(b, k, 0, k), Quarter(b, k, k, 0), Quarter(b, k, k, k);
    hide Quarter, Seven, C11, C12, C21, C22, Mul, Plus, Square;
    QuarterOfProduct(a, b, k, 0, 0);
    QuarterOfProduct(a, b, k, 0, k);
    QuarterOfProduct(a, b, k, k, 0);
    QuarterOfProduct(a, b, k, k, k);
    UpperLeft(a11, a12, a21, a22, b11, b12, b21, b22, k);
    UpperRight(a11, a12, a21, a22, b11, b12, b21, b22, k);
    LowerLeft(a11, a12, a21, a22, b11, b12, b21, b22, k);
    LowerRight(a11, a12, a21, a22, b11, b12, b21, b22, k);
  }

  /** A square is known by its quarters. */
  lemma QuartersDecide(a: Grid, b: Grid, k: nat)
    requires Square(a, 2 * k) && Square(b, 2 * k)
    requires Quarter(a, k, 0, 0) == Quarter(b, k, 0, 0) && Quarter(a, k, 0, k) == Quarter(b, k, 0, k)
    requires Quarter(a, k, k, 0) == Quarter(b, k, k, 0) && Quarter(a, k, k, k) == Quarter(b, k, k, k)
    ensures a == b
  {
    forall i, j | 0 <= i < 2 * k && 0 <= j < 2 * k ensures a[i][j] == b[i][j] {
      var r, c := if i < k then 0 else k, if j < k then 0 else k;
      assert Quarter(a, k, r, c)[i - r][j - c] == Quarter(b, k, r, c)[i - r][j - c];
    }
    SameGrid(a, b, 2 * k);
  }
}
