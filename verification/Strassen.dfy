/** The class matrix: a flat buffer, the triple loop, and Strassen's recursion. */
module Strassen {
  import opened Common
  import opened MatrixTheory

  // ---------------------------------------------------------------- flat indexing

  /** Where cell `(i, j)` is stored. The stride is the number of rows. */
  function Flat(rows: nat, i: int, j: int): int {
    rows * i + j
  }

  ghost predicate Cell(rows: nat, cols: nat, i: int, j: int) {
    0 <= i < rows && 0 <= j < cols
  }

  ghost predicate CellsFit(rows: nat, cols: nat) {
    forall i, j :: Cell(rows, cols, i, j) ==> 0 <= Flat(rows, i, j) < rows * cols
  }

  ghost predicate CellsApart(rows: nat, cols: nat) {
    forall i, j, a, b :: Cell(rows, cols, i, j) && Cell(rows, cols, a, b) && Flat(rows, i, j) == Flat(rows, a, b) ==>
      i == a && j == b
  }

  lemma FlatFits(n: nat, i: int, j: int)
    requires Cell(n, n, i, j)
    ensures 0 <= Flat(n, i, j) < n * n
  {
    StrideStep(n, i, n);
    StrideStep(n, -1, i);
  }

  lemma StrideStep(n: nat, a: int, i: int)
    requires a < i
    ensures n * i >= n * a + n
    decreases i - a
  {
    if i > a + 1 { StrideStep(n, a, i - 1); }
    assert n * i == n * (i - 1) + n;
  }

  lemma FlatApart(n: nat, i: int, j: int, a: int, b: int)
    requires Cell(n, n, i, j) && Cell(n, n, a, b) && Flat(n, i, j) == Flat(n, a, b)
    ensures i == a && j == b
  {
    if i > a { StrideStep(n, a, i); }
    if i < a { StrideStep(n, i, a); }
  }

  /** The layout holds every cell apart from the others exactly for squares and for single rows. */
  lemma LayoutSound(rows: nat, cols: nat)
    requires cols > 0
    ensures CellsFit(rows, cols) && CellsApart(rows, cols) <==> rows <= 1 || rows == cols
  {
    if rows == cols {
      SquareSound(rows);
    } else if rows == 1 {
      RowSound(cols);
    } else if rows > 1 {
      OtherUnsound(rows, cols);
    }
  }

  lemma SquareSound(n: nat)
    ensures CellsFit(n, n) && CellsApart(n, n)
  {
    hide Flat;
    forall i, j | Cell(n, n, i, j) ensures 0 <= Flat(n, i, j) < n * n { FlatFits(n, i, j); }
    forall i, j, a, b | Cell(n, n, i, j) && Cell(n, n, a, b) && Flat(n, i, j) == Flat(n, a, b) ensures i == a && j == b {
      FlatApart(n, i, j, a, b);
    }
  }

  lemma RowSound(cols: nat)
    ensures CellsFit(1, cols) && CellsApart(1, cols)
  {
  }

  lemma OtherUnsound(rows: nat, cols: nat)
    requires rows > 1 && cols > 0 && rows != cols
    ensures !(CellsFit(rows, cols) && CellsApart(rows, cols))
  {
    if rows < cols {
      assert Cell(rows, cols, 0, rows) && Cell(rows, cols, 1, 0);
      assert Flat(rows, 0, rows) == Flat(rows, 1, 0);
    } else {
      assert Cell(rows, cols, rows - 1, 0);
      if cols < rows - 1 { StrideStep(rows, cols, rows - 1); }
      assert Flat(rows, rows - 1, 0) >= rows * cols;
    }
  }

  /** The shapes for which the layout is sound. */
  predicate GoodShape(rows: nat, cols: nat) {
    rows <= 1 || rows == cols
  }

  lemma CellFits(rows: nat, cols: nat, i: int, j: int)
    requires GoodShape(rows, cols) && Cell(rows, cols, i, j)
    ensures 0 <= Flat(rows, i, j) < rows * cols
  {
    if rows == cols { FlatFits(rows, i, j); } else { RowSound(cols); }
  }

  lemma CellApart(rows: nat, cols: nat, i: int, j: int, a: int, b: int)
    requires GoodShape(rows, cols) && Cell(rows, cols, i, j) && Cell(rows, cols, a, b) && Flat(rows, i, j) == Flat(rows, a, b)
    ensures i == a && j == b
  {
    if rows == cols { FlatApart(rows, i, j, a, b); }
  }

  /** The matrix stored in a buffer. */
  ghost function Stored(s: seq<int>, rows: nat, cols: nat): (v: Grid)
    ensures Rectangle(v, rows, cols)
  {
    seq(rows, i requires 0 <= i < rows =>
      seq(cols, j requires 0 <= j < cols => if 0 <= Flat(rows, i, j) < |s| then s[Flat(rows, i, j)] else 0))
  }

  ghost function Put(v: Grid, rows: nat, cols: nat, i: int, j: int, x: int): (r: Grid)
    requires Rectangle(v, rows, cols) && 0 <= i < rows && 0 <= j < cols
    ensures Rectangle(r, rows, cols)
  {
    v[i := v[i][j := x]]
  }

  lemma StoredAt(s: seq<int>, rows: nat, cols: nat, i: int, j: int)
    requires |s| == rows * cols && GoodShape(rows, cols) && 0 <= i < rows && 0 <= j < cols
    ensures 0 <= Flat(rows, i, j) < |s| && Stored(s, rows, cols)[i][j] == s[Flat(rows, i, j)]
  {
    CellFits(rows, cols, i, j);
  }

  lemma StoredPut(s: seq<int>, rows: nat, cols: nat, i: int, j: int, x: int)
    requires |s| == rows * cols && GoodShape(rows, cols) && 0 <= i < rows && 0 <= j < cols && 0 <= Flat(rows, i, j) < |s|
    ensures Stored(s[Flat(rows, i, j) := x], rows, cols) == Put(Stored(s, rows, cols), rows, cols, i, j, x)
  {
    hide Flat;
    var s' := s[Flat(rows, i, j) := x];
    var left, right := Stored(s', rows, cols), Put(Stored(s, rows, cols), rows, cols, i, j, x);
    forall a, b | 0 <= a < rows && 0 <= b < cols ensures left[a][b] == right[a][b] {
      StoredAt(s, rows, cols, a, b);
      if Flat(rows, i, j) == Flat(rows, a, b) { CellApart(rows, cols, i, j, a, b); }
    }
    SameCells(left, right, rows, cols);
  }

  // ---------------------------------------------------------------- filling cell by cell

  /** The cells before `(i, j)`, row by row, are those of the target. */
  ghost predicate Filled(v: Grid, target: Grid, rows: nat, cols: nat, i: int, j: int)
    requires Rectangle(v, rows, cols) && Rectangle(target, rows, cols)
  {
    forall a, b :: 0 <= a < rows && 0 <= b < cols && (a < i || (a == i && b < j)) ==> v[a][b] == target[a][b]
  }

  lemma FillNext(v: Grid, target: Grid, rows: nat, cols: nat, i: int, j: int)
    requires Rectangle(v, rows, cols) && Rectangle(target, rows, cols) && Filled(v, target, rows, cols, i, j)
    requires 0 <= i < rows && 0 <= j < cols
    ensures Filled(Put(v, rows, cols, i, j, target[i][j]), target, rows, cols, i, j + 1)
  {
  }

  lemma FillRow(v: Grid, target: Grid, rows: nat, cols: nat, i: int)
    requires Rectangle(v, rows, cols) && Rectangle(target, rows, cols)
    ensures Filled(v, target, rows, cols, i, cols) ==> Filled(v, target, rows, cols, i + 1, 0)
    ensures Filled(v, target, rows, cols, rows, 0) ==> v == target
  {
    if Filled(v, target, rows, cols, rows, 0) { SameCells(v, target, rows, cols); }
  }

  ghost predicate JoinedAt(v: Grid, k: nat, c11: Grid, c12: Grid, c21: Grid, c22: Grid, a: int, b: int)
    requires Square(v, 2 * k) && AllSquare(c11, c12, c21, c22, k) && 0 <= a < k && 0 <= b < k
  {
    && v[a][b] == c11[a][b] && v[a][b + k] == c12[a][b]
    && v[k + a][b] == c21[a][b] && v[k + a][k + b] == c22[a][b]
  }

  ghost predicate Joined(v: Grid, k: nat, c11: Grid, c12: Grid, c21: Grid, c22: Grid, i: int, j: int)
    requires Square(v, 2 * k) && AllSquare(c11, c12, c21, c22, k)
  {
    forall a, b :: 0 <= a < k && 0 <= b < k && (a < i || (a == i && b < j)) ==> JoinedAt(v, k, c11, c12, c21, c22, a, b)
  }

  lemma JoinNext(v: Grid, k: nat, c11: Grid, c12: Grid, c21: Grid, c22: Grid, i: int, j: int)
    requires Square(v, 2 * k) && AllSquare(c11, c12, c21, c22, k) && 0 <= i < k && 0 <= j < k
    requires Joined(v, k, c11, c12, c21, c22, i, j)
    ensures Joined(Put(Put(Put(Put(v, 2 * k, 2 * k, i, j, c11[i][j]), 2 * k, 2 * k, i, j + k, c12[i][j]),
                           2 * k, 2 * k, k + i, j, c21[i][j]), 2 * k, 2 * k, k + i, k + j, c22[i][j]), k, c11, c12, c21, c22, i, j + 1)
  {
    var v1 := Put(v, 2 * k, 2 * k, i, j, c11[i][j]);
    var v2 := Put(v1, 2 * k, 2 * k, i, j + k, c12[i][j]);
    var v3 := Put(v2, 2 * k, 2 * k, k + i, j, c21[i][j]);
    var v4 := Put(v3, 2 * k, 2 * k, k + i, k + j, c22[i][j]);
    forall a, b | 0 <= a < k && 0 <= b < k && (a < i || (a == i && b < j + 1)) ensures JoinedAt(v4, k, c11, c12, c21, c22, a, b) {
      if !(a == i && b == j) { assert JoinedAt(v, k, c11, c12, c21, c22, a, b); }
    }
  }

  lemma JoinDone(v: Grid, k: nat, c11: Grid, c12: Grid, c21: Grid, c22: Grid)
    requires Square(v, 2 * k) && AllSquare(c11, c12, c21, c22, k) && Joined(v, k, c11, c12, c21, c22, k, 0)
    ensures Quarter(v, k, 0, 0) == c11 && Quarter(v, k, 0, k) == c12 && Quarter(v, k, k, 0) == c21 && Quarter(v, k, k, k) == c22
  {
    var q11, q12, q21, q22 := Quarter(v, k, 0, 0), Quarter(v, k, 0, k), Quarter(v, k, k, 0), Quarter(v, k, k, k);
    forall a, b | 0 <= a < k && 0 <= b < k
      ensures q11[a][b] == c11[a][b] && q12[a][b] == c12[a][b] && q21[a][b] == c21[a][b] && q22[a][b] == c22[a][b]
    {
      assert JoinedAt(v, k, c11, c12, c21, c22, a, b);
      assert v[a][b + k] == v[a][k + b];
    }
    SameGrid(q11, c11, k);
    SameGrid(q12, c12, k);
    SameGrid(q21, c21, k);
    SameGrid(q22, c22, k);
  }

  // ---------------------------------------------------------------- the class

  class Matrix {
    const rows: nat
    const cols: nat
    const data: array<int>

    constructor (rows: nat, cols: nat)
      ensures this.rows == rows && this.cols == cols && data.Length == rows * cols && fresh(data)
    {
      this.rows, this.cols := rows, cols;
      data := new int[rows * cols];
    }

    /** A square matrix of the given size. */
    predicate Sized(n: nat) {
      rows == n && cols == n && data.Length == n * n
    }

    /** A matrix of a shape for which the layout is sound. */
    predicate Laid() {
      data.Length == rows * cols && GoodShape(rows, cols)
    }

    ghost function Value(): (v: Grid)
      reads data
      ensures Rectangle(v, rows, cols)
    {
      Stored(data[..], rows, cols)
    }

    method Get(i: nat, j: nat) returns (x: int)
      requires Laid() && i < rows && j < cols
      ensures x == Value()[i][j]
    {
      StoredAt(data[..], rows, cols, i, j);
      x := data[Flat(rows, i, j)];
    }

    method Set(i: nat, j: nat, x: int)
      requires Laid() && i < rows && j < cols
      modifies data
      ensures Value() == Put(old(Value()), rows, cols, i, j, x)
    {
      StoredAt(data[..], rows, cols, i, j);
      StoredPut(data[..], rows, cols, i, j, x);
      ghost var before := data[..];
      data[Flat(rows, i, j)] := x;
      assert data[..] == before[Flat(rows, i, j) := x];
    }

    method Arithmetic(rhs: Matrix, op: (int, int) -> int) returns (result: Matrix)
      requires Laid() && rhs.Laid() && rhs.rows == rows && rhs.cols == cols
      ensures fresh(result) && fresh(result.data) && result.Laid() && result.rows == rows && result.cols == cols
      ensures result.Value() == Zip(op, Value(), rhs.Value(), rows, cols)
    {
      result := new Matrix(rhs.rows, rhs.cols);
      ghost var target := Zip(op, Value(), rhs.Value(), rows, cols);
      hide Stored;
      for i := 0 to result.rows
        invariant Filled(result.Value(), target, rows, cols, i, 0)
        modifies result.data
      {
        for j := 0 to result.cols
          invariant Filled(result.Value(), target, rows, cols, i, j)
          modifies result.data
        {
          var x := Get(i, j);
          var y := rhs.Get(i, j);
          FillNext(result.Value(), target, rows, cols, i, j);
          result.Set(i, j, op(x, y));
        }
        FillRow(result.Value(), target, rows, cols, i);
      }
      FillRow(result.Value(), target, rows, cols, 0);
    }

    method Sum(rhs: Matrix) returns (result: Matrix)
      requires Laid() && rhs.Laid() && rhs.rows == rows && rhs.cols == cols
      ensures fresh(result) && fresh(result.data) && result.Laid() && result.rows == rows && result.cols == cols
      ensures result.Value() == Zip(Add, Value(), rhs.Value(), rows, cols)
    {
      result := Arithmetic(rhs, Add);
    }

    method Difference(rhs: Matrix) returns (result: Matrix)
      requires Laid() && rhs.Laid() && rhs.rows == rows && rhs.cols == cols
      ensures fresh(result) && fresh(result.data) && result.Laid() && result.rows == rows && result.cols == cols
      ensures result.Value() == Zip(Subtract, Value(), rhs.Value(), rows, cols)
    {
      result := Arithmetic(rhs, Subtract);
    }

    /** The product by the triple loop. */
    method Linear(rhs: Matrix) returns (result: Matrix)
      requires Sized(rows) && rhs.Sized(rows)
      ensures fresh(result) && fresh(result.data) && result.Sized(rows)
      ensures result.Value() == Mul(Value(), rhs.Value(), rows)
    {
      result := MultiplyLinear(this, rhs, cols);
    }

    /** The product by Strassen's recursion: the same matrix. */
    method StrassenTimes(rhs: Matrix) returns (result: Matrix)
      requires Sized(rows) && rhs.Sized(rows) && PowerOfTwo(rows)
      ensures fresh(result) && fresh(result.data) && result.Sized(rows)
      ensures result.Value() == Mul(Value(), rhs.Value(), rows)
    {
      result := MultiplyStrassen(this, rhs, cols);
    }
  }

  method MultiplyLinear(lhs: Matrix, rhs: Matrix, size: nat) returns (result: Matrix)
    requires lhs.Sized(size) && rhs.Sized(size)
    ensures fresh(result) && fresh(result.data) && result.Sized(size)
    ensures result.Value() == Mul(lhs.Value(), rhs.Value(), size)
  {
    result := new Matrix(size, size);
    var sum := 0;
    ghost var a, b := lhs.Value(), rhs.Value();
    ghost var target := Mul(a, b, size);
    hide Stored;
    for i := 0 to size
      invariant Filled(result.Value(), target, size, size, i, 0) && sum == 0
      modifies result.data
    {
      for j := 0 to size
        invariant Filled(result.Value(), target, size, size, i, j) && sum == 0
        modifies result.data
      {
        for k := 0 to size
          invariant sum == Dot(a, b, size, i, j, k)
          modifies {}
        {
          var x := lhs.Get(i, k);
          var y := rhs.Get(k, j);
          sum := sum + x * y;
        }
        FillNext(result.Value(), target, size, size, i, j);
        result.Set(i, j, sum);
        sum := 0;
      }
      FillRow(result.Value(), target, size, size, i);
    }
    FillRow(result.Value(), target, size, size, 0);
  }

  /** The four quarters, copied. */
  method Split(m: Matrix, k: nat) returns (m11: Matrix, m12: Matrix, m21: Matrix, m22: Matrix)
    requires m.Sized(2 * k)
    ensures fresh(m11.data) && fresh(m12.data) && fresh(m21.data) && fresh(m22.data)
    ensures m11.Sized(k) && m12.Sized(k) && m21.Sized(k) && m22.Sized(k)
    ensures m11.Value() == Quarter(m.Value(), k, 0, 0) && m12.Value() == Quarter(m.Value(), k, 0, k)
    ensures m21.Value() == Quarter(m.Value(), k, k, 0) && m22.Value() == Quarter(m.Value(), k, k, k)
  {
    m11 := new Matrix(k, k);
    m12 := new Matrix(k, k);
    m21 := new Matrix(k, k);
    m22 := new Matrix(k, k);
    ghost var v := m.Value();
    ghost var q11, q12, q21, q22 := Quarter(v, k, 0, 0), Quarter(v, k, 0, k), Quarter(v, k, k, 0), Quarter(v, k, k, k);
    hide Stored, Put, Filled;
    FillEmpty(m11.Value(), q11, k);
    FillEmpty(m12.Value(), q12, k);
    FillEmpty(m21.Value(), q21, k);
    FillEmpty(m22.Value(), q22, k);
    for i := 0 to k
      invariant Filled(m11.Value(), q11, k, k, i, 0) && Filled(m12.Value(), q12, k, k, i, 0)
      invariant Filled(m21.Value(), q21, k, k, i, 0) && Filled(m22.Value(), q22, k, k, i, 0)
      modifies m11.data, m12.data, m21.data, m22.data
    {
      SplitRow(m, k, i, m11, m12, m21, m22);
    }
    FillRow(m11.Value(), q11, k, k, 0);
    FillRow(m12.Value(), q12, k, k, 0);
    FillRow(m21.Value(), q21, k, k, 0);
    FillRow(m22.Value(), q22, k, k, 0);
  }

  method SplitRow(m: Matrix, k: nat, i: nat, m11: Matrix, m12: Matrix, m21: Matrix, m22: Matrix)
    requires m.Sized(2 * k) && m11.Sized(k) && m12.Sized(k) && m21.Sized(k) && m22.Sized(k) && i < k
    requires m.data !in {m11.data, m12.data, m21.data, m22.data} && m11.data !in {m12.data, m21.data, m22.data}
    requires m12.data !in {m21.data, m22.data} && m21.data != m22.data
    requires Filled(m11.Value(), Quarter(m.Value(), k, 0, 0), k, k, i, 0) && Filled(m12.Value(), Quarter(m.Value(), k, 0, k), k, k, i, 0)
    requires Filled(m21.Value(), Quarter(m.Value(), k, k, 0), k, k, i, 0) && Filled(m22.Value(), Quarter(m.Value(), k, k, k), k, k, i, 0)
    modifies m11.data, m12.data, m21.data, m22.data
    ensures Filled(m11.Value(), Quarter(m.Value(), k, 0, 0), k, k, i + 1, 0) && Filled(m12.Value(), Quarter(m.Value(), k, 0, k), k, k, i + 1, 0)
    ensures Filled(m21.Value(), Quarter(m.Value(), k, k, 0), k, k, i + 1, 0) && Filled(m22.Value(), Quarter(m.Value(), k, k, k), k, k, i + 1, 0)
  {
    ghost var v := m.Value();
    ghost var q11, q12, q21, q22 := Quarter(v, k, 0, 0), Quarter(v, k, 0, k), Quarter(v, k, k, 0), Quarter(v, k, k, k);
    hide Stored, Put, Filled, Quarter;
    for j := 0 to k
      invariant Filled(m11.Value(), q11, k, k, i, j) && Filled(m12.Value(), q12, k, k, i, j)
      invariant Filled(m21.Value(), q21, k, k, i, j) && Filled(m22.Value(), q22, k, k, i, j)
    {
      SplitCell(m, k, i, j, m11, m12, m21, m22);
    }
    FillRow(m11.Value(), q11, k, k, i);
    FillRow(m12.Value(), q12, k, k, i);
    FillRow(m21.Value(), q21, k, k, i);
    FillRow(m22.Value(), q22, k, k, i);
  }

  method SplitCell(m: Matrix, k: nat, i: nat, j: nat, m11: Matrix, m12: Matrix, m21: Matrix, m22: Matrix)
    requires m.Sized(2 * k) && m11.Sized(k) && m12.Sized(k) && m21.Sized(k) && m22.Sized(k) && i < k && j < k
    requires m.data !in {m11.data, m12.data, m21.data, m22.data} && m11.data !in {m12.data, m21.data, m22.data}
    requires m12.data !in {m21.data, m22.data} && m21.data != m22.data
    requires Filled(m11.Value(), Quarter(m.Value(), k, 0, 0), k, k, i, j) && Filled(m12.Value(), Quarter(m.Value(), k, 0, k), k, k, i, j)
    requires Filled(m21.Value(), Quarter(m.Value(), k, k, 0), k, k, i, j) && Filled(m22.Value(), Quarter(m.Value(), k, k, k), k, k, i, j)
    modifies m11.data, m12.data, m21.data, m22.data
    ensures Filled(m11.Value(), Quarter(m.Value(), k, 0, 0), k, k, i, j + 1) && Filled(m12.Value(), Quarter(m.Value(), k, 0, k), k, k, i, j + 1)
    ensures Filled(m21.Value(), Quarter(m.Value(), k, k, 0), k, k, i, j + 1) && Filled(m22.Value(), Quarter(m.Value(), k, k, k), k, k, i, j + 1)
  {
    hide Stored, Put, Filled, Quarter;
    ghost var v := m.Value();
    CopyCell(m, i, j, m11, i, j, Quarter(v, k, 0, 0));
    CopyCell(m, i, k + j, m12, i, j, Quarter(v, k, 0, k));
    CopyCell(m, k + i, j, m21, i, j, Quarter(v, k, k, 0));
    CopyCell(m, k + i, k + j, m22, i, j, Quarter(v, k, k, k));
  }

  lemma FillEmpty(v: Grid, target: Grid, n: nat)
    requires Square(v, n) && Square(target, n)
    ensures Filled(v, target, n, n, 0, 0)
  {
  }

  method CopyCell(m: Matrix, r: nat, c: nat, q: Matrix, i: nat, j: nat, ghost target: Grid)
    requires m.Sized(m.rows) && r < m.rows && c < m.rows && q.Sized(q.rows) && i < q.rows && j < q.rows
    requires m.data != q.data && Square(target, q.rows) && target[i][j] == m.Value()[r][c]
    requires Filled(q.Value(), target, q.rows, q.rows, i, j)
    modifies q.data
    ensures Filled(q.Value(), target, q.rows, q.rows, i, j + 1)
  {
    hide Stored;
    var x := m.Get(r, c);
    FillNext(q.Value(), target, q.rows, q.rows, i, j);
    q.Set(i, j, x);
  }

  /** The four results put back into one matrix. */
  method Join(result: Matrix, k: nat, c11: Matrix, c12: Matrix, c21: Matrix, c22: Matrix)
    requires result.Sized(2 * k) && c11.Sized(k) && c12.Sized(k) && c21.Sized(k) && c22.Sized(k)
    requires result.data !in {c11.data, c12.data, c21.data, c22.data}
    modifies result.data
    ensures Quarter(result.Value(), k, 0, 0) == c11.Value() && Quarter(result.Value(), k, 0, k) == c12.Value()
    ensures Quarter(result.Value(), k, k, 0) == c21.Value() && Quarter(result.Value(), k, k, k) == c22.Value()
  {
    hide Stored, Put, JoinedAt;
    ghost var v11, v12, v21, v22 := c11.Value(), c12.Value(), c21.Value(), c22.Value();
    for i := 0 to k
      invariant Joined(result.Value(), k, v11, v12, v21, v22, i, 0)
    {
      for j := 0 to k
        invariant Joined(result.Value(), k, v11, v12, v21, v22, i, j)
      {
        JoinNext(result.Value(), k, v11, v12, v21, v22, i, j);
        var x := c11.Get(i, j);
        result.Set(i, j, x);
        x := c12.Get(i, j);
        result.Set(i, j + k, x);
        x := c21.Get(i, j);
        result.Set(k + i, j, x);
        x := c22.Get(i, j);
        result.Set(k + i, k + j, x);
      }
    }
    JoinDone(result.Value(), k, v11, v12, v21, v22);
  }

  method MultiplyStrassen(lhs: Matrix, rhs: Matrix, size: nat) returns (result: Matrix)
    requires lhs.Sized(size) && rhs.Sized(size) && PowerOfTwo(size)
    ensures fresh(result) && fresh(result.data) && result.Sized(size)
    ensures result.Value() == Mul(lhs.Value(), rhs.Value(), size)
    decreases size, 1
  {
    if size == 1 {
      result := MultiplyLinear(lhs, rhs, size);
    } else {
      assert size == 2 * (size / 2);
      result := MultiplyByQuarters(lhs, rhs, size / 2);
    }
  }

  /** The recursive case: split, seven products of half the size, combine, join. */
  method MultiplyByQuarters(lhs: Matrix, rhs: Matrix, k: nat) returns (result: Matrix)
    requires lhs.Sized(2 * k) && rhs.Sized(2 * k) && k > 0 && PowerOfTwo(k)
    ensures fresh(result) && fresh(result.data) && result.Sized(2 * k)
    ensures result.Value() == Mul(lhs.Value(), rhs.Value(), 2 * k)
    decreases 2 * k, 0
  {
    hide Stored, Mul, Rectangle, Quarter, Seven, C11, C12, C21, C22, SquareProducts, PowerOfTwo;
    result := new Matrix(2 * k, 2 * k);
    ghost var a, b := lhs.Value(), rhs.Value();
    var c11, c12, c21, c22 := Quarters(lhs, rhs, k);
    Join(result, k, c11, c12, c21, c22);
    JoinedProduct(a, b, k, result.Value());
  }

  method Quarters(lhs: Matrix, rhs: Matrix, k: nat) returns (c11: Matrix, c12: Matrix, c21: Matrix, c22: Matrix)
    requires lhs.Sized(2 * k) && rhs.Sized(2 * k) && k > 0 && PowerOfTwo(k)
    ensures c11.Sized(k) && c12.Sized(k) && c21.Sized(k) && c22.Sized(k)
    ensures fresh(c11.data) && fresh(c12.data) && fresh(c21.data) && fresh(c22.data)
    ensures var p := SevenOf(lhs.Value(), rhs.Value(), k);
            c11.Value() == C11(p, k) && c12.Value() == C12(p, k) && c21.Value() == C21(p, k) && c22.Value() == C22(p, k)
    decreases k, 3
  {
    hide Stored, Mul, Rectangle, Quarter, Seven, C11, C12, C21, C22, SquareProducts, PowerOfTwo;
    ghost var p := SevenOf(lhs.Value(), rhs.Value(), k);
    var a11, a12, a21, a22 := Split(lhs, k);
    var b11, b12, b21, b22 := Split(rhs, k);
    var p1, p2, p3, p4, p5, p6, p7 := SevenProducts(a11, a12, a21, a22, b11, b12, b21, b22, k);
    c11, c12, c21, c22 := Combine(p1, p2, p3, p4, p5, p6, p7, k, p);
  }

  /** A matrix whose quarters are the four combinations is the product. */
  lemma JoinedProduct(a: Grid, b: Grid, k: nat, v: Grid)
    requires Square(a, 2 * k) && Square(b, 2 * k) && Square(v, 2 * k)
    requires Quarter(v, k, 0, 0) == C11(SevenOf(a, b, k), k) && Quarter(v, k, 0, k) == C12(SevenOf(a, b, k), k)
    requires Quarter(v, k, k, 0) == C21(SevenOf(a, b, k), k) && Quarter(v, k, k, k) == C22(SevenOf(a, b, k), k)
    ensures v == Mul(a, b, 2 * k)
  {
    hide Mul, Rectangle, Quarter, Seven, C11, C12, C21, C22, SquareProducts;
    StrassenIdentities(a, b, k);
    QuartersDecide(v, Mul(a, b, 2 * k), k);
  }

  method SevenProducts(a11: Matrix, a12: Matrix, a21: Matrix, a22: Matrix, b11: Matrix, b12: Matrix, b21: Matrix, b22: Matrix, k: nat)
    returns (p1: Matrix, p2: Matrix, p3: Matrix, p4: Matrix, p5: Matrix, p6: Matrix, p7: Matrix)
    requires a11.Sized(k) && a12.Sized(k) && a21.Sized(k) && a22.Sized(k) && PowerOfTwo(k)
    requires b11.Sized(k) && b12.Sized(k) && b21.Sized(k) && b22.Sized(k)
    ensures p1.Sized(k) && p2.Sized(k) && p3.Sized(k) && p4.Sized(k) && p5.Sized(k) && p6.Sized(k) && p7.Sized(k)
    ensures Products(p1.Value(), p2.Value(), p3.Value(), p4.Value(), p5.Value(), p6.Value(), p7.Value())
         == Seven(a11.Value(), a12.Value(), a21.Value(), a22.Value(), b11.Value(), b12.Value(), b21.Value(), b22.Value(), k)
    decreases k, 2
  {
    hide Stored, Mul, Zip, Rectangle;
    var s1 := b12.Difference(b22);
    var s2 := a11.Sum(a12);
    var s3 := a21.Sum(a22);
    var s4 := b21.Difference(b11);
    var s5 := a11.Sum(a22);
    var s6 := b11.Sum(b22);
    var s7 := a12.Difference(a22);
    var s8 := b21.Sum(b22);
    var s9 := a11.Difference(a21);
    var s10 := b11.Sum(b12);
    p1 := MultiplyStrassen(a11, s1, k);
    p2 := MultiplyStrassen(s2, b22, k);
    p3 := MultiplyStrassen(s3, b11, k);
    p4 := MultiplyStrassen(a22, s4, k);
    p5 := MultiplyStrassen(s5, s6, k);
    p6 := MultiplyStrassen(s7, s8, k);
    p7 := MultiplyStrassen(s9, s10, k);
  }

  method Combine(p1: Matrix, p2: Matrix, p3: Matrix, p4: Matrix, p5: Matrix, p6: Matrix, p7: Matrix, k: nat, ghost p: Products)
    returns (c11: Matrix, c12: Matrix, c21: Matrix, c22: Matrix)
    requires p1.Sized(k) && p2.Sized(k) && p3.Sized(k) && p4.Sized(k) && p5.Sized(k) && p6.Sized(k) && p7.Sized(k)
    requires SquareProducts(p, k)
    requires Products(p1.Value(), p2.Value(), p3.Value(), p4.Value(), p5.Value(), p6.Value(), p7.Value()) == p
    ensures c11.Sized(k) && c12.Sized(k) && c21.Sized(k) && c22.Sized(k)
    ensures fresh(c11.data) && fresh(c12.data) && fresh(c21.data) && fresh(c22.data)
    ensures c11.Value() == C11(p, k) && c12.Value() == C12(p, k) && c21.Value() == C21(p, k) && c22.Value() == C22(p, k)
  {
    hide Stored, Zip, Rectangle;
    c11 := p5.Sum(p4);
    c11 := c11.Difference(p2);
    c11 := c11.Sum(p6);
    c12 := p1.Sum(p2);
    c21 := p3.Sum(p4);
    c22 := p1.Sum(p5);
    c22 := c22.Difference(p3);
    c22 := c22.Difference(p7);
  }
}
