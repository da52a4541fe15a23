/**
 * Dense matrices as Eigen stores them (column-major: cell (i, j) at j*rows + i),
 * rows, columns and transposes, and the orders in which the nodes pack the
 * cells of a matrix or of one of its triangles into a flat array.
 */
module Layout {
  /** A matrix of vars (T = node handle) or of doubles (T = real). */
  datatype Mat<T> = Mat(rows: nat, cols: nat, data: seq<T>)

  predicate Shaped<T>(m: Mat<T>)
  {
    |m.data| == m.rows * m.cols
  }

  /** Column-major position of cell (i, j) in a matrix with `rows` rows. */
  function Idx(rows: nat, i: nat, j: nat): nat
  {
    j * rows + i
  }

  lemma {:induction false} IdxBound(rows: nat, cols: nat, i: nat, j: nat)
    requires i < rows && j < cols
    ensures Idx(rows, i, j) < rows * cols
  {
    assert j * rows + i < j * rows + rows == (j + 1) * rows <= cols * rows;
  }

  /** Column j of a column-major matrix ends within its data. */
  lemma {:induction false} ColumnEnd(rows: nat, cols: nat, j: nat)
    requires j < cols
    ensures j * rows + rows <= rows * cols
  {
    assert j * rows + rows == (j + 1) * rows <= cols * rows;
  }

  /** Column-major positions grow with the column. */
  lemma {:induction false} IdxOrder(rows: nat, i: nat, j: nat, i2: nat, j2: nat)
    requires i < rows
    ensures j < j2 ==> Idx(rows, i, j) < Idx(rows, i2, j2)
  {
    if j < j2 {
      MulSucc(j, rows);
      assert (j + 1) * rows <= j2 * rows;
    }
  }

  /** Distinct cells of a matrix have distinct column-major positions. */
  lemma {:induction false} IdxInjective(rows: nat, i: nat, j: nat, i2: nat, j2: nat)
    requires i < rows && i2 < rows && Idx(rows, i, j) == Idx(rows, i2, j2)
    ensures i == i2 && j == j2
  {
    IdxOrder(rows, i, j, i2, j2);
    IdxOrder(rows, i2, j2, i, j);
  }

  function At<T>(m: Mat<T>, i: nat, j: nat): T
    requires Shaped(m) && i < m.rows && j < m.cols
  {
    IdxBound(m.rows, m.cols, i, j);
    m.data[Idx(m.rows, i, j)]
  }

  function Row<T>(m: Mat<T>, i: nat): (r: seq<T>)
    requires Shaped(m) && i < m.rows
    ensures |r| == m.cols
  {
    seq(m.cols, k requires 0 <= k < m.cols => At(m, i, k))
  }

  function Col<T>(m: Mat<T>, j: nat): (r: seq<T>)
    requires Shaped(m) && j < m.cols
    ensures |r| == m.rows
  {
    seq(m.rows, k requires 0 <= k < m.rows => At(m, k, j))
  }

  /** n copies of x. */
  function Fill<T>(n: nat, x: T): (r: seq<T>)
    ensures |r| == n && forall i :: 0 <= i < n ==> r[i] == x
  {
    seq(n, _ => x)
  }

  /** A rows x cols matrix with every cell x; a freshly constructed Eigen matrix before its cells are assigned. */
  function Constant<T>(rows: nat, cols: nat, x: T): (r: Mat<T>)
    ensures Shaped(r) && r.rows == rows && r.cols == cols
  {
    Mat(rows, cols, seq(rows * cols, _ => x))
  }

  /** The matrix with cell (i, j) replaced by x; an Eigen `m(i, j) = x`. */
  function Set<T>(m: Mat<T>, i: nat, j: nat, x: T): (r: Mat<T>)
    requires Shaped(m) && i < m.rows && j < m.cols
    ensures Shaped(r) && r.rows == m.rows && r.cols == m.cols
  {
    IdxBound(m.rows, m.cols, i, j);
    Mat(m.rows, m.cols, m.data[Idx(m.rows, i, j) := x])
  }

  /** Setting one cell leaves every other cell as it was. */
  lemma {:induction false} SetAt<T>(m: Mat<T>, i: nat, j: nat, x: T, i2: nat, j2: nat)
    requires Shaped(m) && i < m.rows && j < m.cols && i2 < m.rows && j2 < m.cols
    ensures At(Set(m, i, j, x), i2, j2) == if i2 == i && j2 == j then x else At(m, i2, j2)
  {
    IdxBound(m.rows, m.cols, i, j);
    IdxBound(m.rows, m.cols, i2, j2);
    if Idx(m.rows, i, j) == Idx(m.rows, i2, j2) {
      IdxInjective(m.rows, i, j, i2, j2);
    }
  }

  /** The columns of a matrix, in order. */
  function Columns<T>(m: Mat<T>): (r: seq<seq<T>>)
    requires Shaped(m)
    ensures |r| == m.cols && forall j :: 0 <= j < m.cols ==> r[j] == Col(m, j)
  {
    seq(m.cols, j requires 0 <= j < m.cols => Col(m, j))
  }

  /** Which cells of a matrix a packing covers: all, i >= j, or i <= j. */
  datatype View = Full | Lower | Upper

  datatype Cell = Cell(i: nat, j: nat)

  predicate InView(view: View, c: Cell)
  {
    match view
    case Full => true
    case Lower => c.i >= c.j
    case Upper => c.i <= c.j
  }

  /** First and one-past-last row of column j that the packing visits. */
  function Lo(view: View, j: nat): nat
  {
    if view == Lower then j else 0
  }

  function Hi(view: View, rows: nat, j: nat): nat
  {
    if view == Upper then (if j + 1 < rows then j + 1 else rows) else rows
  }

  function ColCells(view: View, rows: nat, j: nat): (r: seq<Cell>)
    ensures |r| == if Hi(view, rows, j) >= Lo(view, j) then Hi(view, rows, j) - Lo(view, j) else 0
  {
    var lo, hi := Lo(view, j), Hi(view, rows, j);
    seq(if hi >= lo then hi - lo else 0, t requires 0 <= t => Cell(lo + t, j))
  }

  /**
   * The cells a `for j ... for i ...` packing loop visits, in visiting order:
   * column by column, and inside each column the rows the view keeps.
   */
  function Cells(view: View, rows: nat, cols: nat): seq<Cell>
    decreases cols
  {
    if cols == 0 then [] else Cells(view, rows, cols - 1) + ColCells(view, rows, cols - 1)
  }

  /** Packing fewer columns visits a prefix of the cells that packing more columns does. */
  lemma {:induction false} CellsPrefix(view: View, rows: nat, c1: nat, c2: nat)
    requires c1 <= c2
    ensures |Cells(view, rows, c1)| <= |Cells(view, rows, c2)|
    ensures Cells(view, rows, c2)[..|Cells(view, rows, c1)|] == Cells(view, rows, c1)
    decreases c2
  {
    if c1 < c2 {
      CellsPrefix(view, rows, c1, c2 - 1);
      var prev := Cells(view, rows, c2 - 1);
      assert Cells(view, rows, c2)[..|prev|] == prev;
      assert Cells(view, rows, c2)[..|Cells(view, rows, c1)|] == prev[..|Cells(view, rows, c1)|];
    }
  }

  /** Every visited cell lies in the matrix and in the view's triangle. */
  lemma {:induction false} CellsInside(view: View, rows: nat, cols: nat, p: nat)
    requires p < |Cells(view, rows, cols)|
    ensures Cells(view, rows, cols)[p].i < rows && Cells(view, rows, cols)[p].j < cols
    ensures InView(view, Cells(view, rows, cols)[p])
    decreases cols
  {
    var prev := Cells(view, rows, cols - 1);
    if p < |prev| {
      CellsInside(view, rows, cols - 1, p);
    }
  }

  /** Column j's cells follow all cells of earlier columns. */
  lemma {:induction false} CellsColumnsBelow(view: View, rows: nat, cols: nat, p: nat)
    requires p < |Cells(view, rows, cols)|
    ensures Cells(view, rows, cols)[p].j < cols
    decreases cols
  {
    CellsInside(view, rows, cols, p);
  }

  /** No cell is visited twice. */
  lemma {:induction false} CellsDistinct(view: View, rows: nat, cols: nat, p: nat, q: nat)
    requires p < q < |Cells(view, rows, cols)|
    ensures Cells(view, rows, cols)[p] != Cells(view, rows, cols)[q]
    decreases cols
  {
    var prev := Cells(view, rows, cols - 1);
    if q < |prev| {
      CellsDistinct(view, rows, cols - 1, p, q);
    } else if p < |prev| {
      CellsInside(view, rows, cols - 1, p);
    }
  }

  /** Every cell of the view's triangle is visited. */
  lemma {:induction false} CellsCover(view: View, rows: nat, cols: nat, c: Cell)
    requires c.i < rows && c.j < cols && InView(view, c)
    ensures exists p :: 0 <= p < |Cells(view, rows, cols)| && Cells(view, rows, cols)[p] == c
    decreases cols
  {
    var prev := Cells(view, rows, cols - 1);
    if c.j < cols - 1 {
      CellsCover(view, rows, cols - 1, c);
      var p :| 0 <= p < |prev| && prev[p] == c;
      assert Cells(view, rows, cols)[p] == c;
    } else {
      var t := c.i - Lo(view, c.j);
      assert Cells(view, rows, cols)[|prev| + t] == c;
    }
  }

  /** The full packing is column-major: rows*cols cells, cell (i, j) at j*rows + i. */
  lemma {:induction false} CellsFullAt(rows: nat, cols: nat, i: nat, j: nat)
    requires i < rows && j < cols
    ensures |Cells(Full, rows, cols)| == rows * cols
    ensures Idx(rows, i, j) < rows * cols && Cells(Full, rows, cols)[Idx(rows, i, j)] == Cell(i, j)
    decreases cols
  {
    IdxBound(rows, cols, i, j);
    var c := cols - 1;
    var prev := Cells(Full, rows, c);
    CellsFullLength(rows, cols);
    CellsFullLength(rows, c);
    assert Cells(Full, rows, cols) == prev + ColCells(Full, rows, c);
    if j < c {
      CellsFullAt(rows, c, i, j);
      IdxBound(rows, c, i, j);
    } else {
      assert j == c;
      MulComm(j, rows);
      assert Idx(rows, i, j) == |prev| + i;
    }
  }

  lemma MulComm(a: int, b: int)
    ensures a * b == b * a
  {
  }

  lemma MulSucc(a: int, b: int)
    ensures (a + 1) * b == a * b + b
  {
  }

  lemma {:induction false} CellsFullLength(rows: nat, cols: nat)
    ensures |Cells(Full, rows, cols)| == rows * cols
    decreases cols
  {
    if cols > 0 {
      CellsFullLength(rows, cols - 1);
      MulSucc(cols - 1, rows);
      MulComm(cols, rows);
      MulComm(cols - 1, rows);
    }
  }

  /** 0 + 1 + ... + n, the n-th triangular number. */
  function Tri(n: nat): nat
    decreases n
  {
    if n == 0 then 0 else Tri(n - 1) + n
  }

  lemma {:induction false} TriClosedForm(n: nat)
    ensures 2 * Tri(n) == n * (n + 1)
    ensures Tri(n) == n * (n + 1) / 2
    decreases n
  {
    if n > 0 {
      TriClosedForm(n - 1);
      MulSucc(n - 1, n);
      MulComm(n - 1, n);
      assert n * (n + 1) == n * n + n;
    }
  }

  /** The first c columns of a lower triangle with m rows, plus a triangle of m - c, make Tri(m). */
  lemma {:induction false} CellsLowerLength(m: nat, c: nat)
    requires c <= m
    ensures |Cells(Lower, m, c)| + Tri(m - c) == Tri(m)
    decreases c
  {
    if c > 0 {
      CellsLowerLength(m, c - 1);
    }
  }

  /** The first c columns of an upper triangle hold Tri(c) cells. */
  lemma {:induction false} CellsUpperLength(m: nat, c: nat)
    requires c <= m
    ensures |Cells(Upper, m, c)| == Tri(c)
    decreases c
  {
    if c > 0 {
      CellsUpperLength(m, c - 1);
    }
  }

  /** Number of slots a packing of an m-by-m matrix needs: m*m, or m(m+1)/2 for a triangle. */
  function PackedSize(view: View, m: nat): nat
  {
    if view == Full then m * m else m * (m + 1) / 2
  }

  lemma {:induction false} CellsSquareLength(view: View, m: nat)
    ensures |Cells(view, m, m)| == PackedSize(view, m)
  {
    match view
    case Full => CellsFullLength(m, m);
    case Lower =>
      CellsLowerLength(m, m);
      TriClosedForm(m);
    case Upper =>
      CellsUpperLength(m, m);
      TriClosedForm(m);
  }

  /** Every visited cell has a column-major position below n. */
  predicate Addressable(cells: seq<Cell>, rows: nat, n: nat)
  {
    forall p :: 0 <= p < |cells| ==> Idx(rows, cells[p].i, cells[p].j) < n
  }

  lemma {:induction false} CellsAddressable(view: View, rows: nat, cols: nat)
    ensures Addressable(Cells(view, rows, cols), rows, rows * cols)
  {
    forall p | 0 <= p < |Cells(view, rows, cols)|
      ensures Idx(rows, Cells(view, rows, cols)[p].i, Cells(view, rows, cols)[p].j) < rows * cols
    {
      CellsInside(view, rows, cols, p);
      IdxBound(rows, cols, Cells(view, rows, cols)[p].i, Cells(view, rows, cols)[p].j);
    }
  }

  /** The entries of a column-major array s at the given cells, in the cells' order. */
  function Pick<T>(s: seq<T>, rows: nat, cells: seq<Cell>): (r: seq<T>)
    requires Addressable(cells, rows, |s|)
    ensures |r| == |cells|
  {
    seq(|cells|, p requires 0 <= p < |cells| => s[Idx(rows, cells[p].i, cells[p].j)])
  }

  /** Packing every cell is plain column-major flattening: the array itself. */
  lemma {:induction false} PickFull<T>(s: seq<T>, rows: nat, cols: nat)
    requires |s| == rows * cols
    ensures Addressable(Cells(Full, rows, cols), rows, |s|)
    ensures Pick(s, rows, Cells(Full, rows, cols)) == s
  {
    CellsAddressable(Full, rows, cols);
    CellsFullLength(rows, cols);
    var r := Pick(s, rows, Cells(Full, rows, cols));
    forall p | 0 <= p < |s| ensures r[p] == s[p] {
      PickFullAt(rows, cols, p);
    }
  }

  /** Position p of the full packing is the cell stored at position p. */
  lemma {:induction false} PickFullAt(rows: nat, cols: nat, p: nat)
    requires p < rows * cols
    ensures |Cells(Full, rows, cols)| == rows * cols
    ensures Idx(rows, Cells(Full, rows, cols)[p].i, Cells(Full, rows, cols)[p].j) == p
    decreases cols
  {
    CellsFullLength(rows, cols);
    CellsFullLength(rows, cols - 1);
    if p < rows * (cols - 1) {
      PickFullAt(rows, cols - 1, p);
    } else {
      assert rows * cols == rows * (cols - 1) + rows;
    }
  }

  /** The transpose; an Eigen `.transpose()`. */
  function Transpose<T>(m: Mat<T>): (r: Mat<T>)
    requires Shaped(m)
    ensures Shaped(r) && r.rows == m.cols && r.cols == m.rows
  {
    CellsFullLength(m.cols, m.rows);
    MulComm(m.cols, m.rows);
    Mat(m.cols, m.rows, TransposedData(m))
  }

  /** Entry p of the transpose's data: the cell the full packing puts at p, mirrored. */
  function TransposedData<T>(m: Mat<T>): (r: seq<T>)
    requires Shaped(m)
    ensures |r| == |Cells(Full, m.cols, m.rows)|
  {
    var cells := Cells(Full, m.cols, m.rows);
    seq(|cells|, p requires 0 <= p < |cells| => MirroredAt(m, cells, p))
  }

  function MirroredAt<T>(m: Mat<T>, cells: seq<Cell>, p: nat): T
    requires Shaped(m) && cells == Cells(Full, m.cols, m.rows) && p < |cells|
  {
    CellsInside(Full, m.cols, m.rows, p);
    At(m, cells[p].j, cells[p].i)
  }

  /** Cell (i, j) of the transpose is cell (j, i) of the matrix. */
  lemma {:induction false} TransposeAt<T>(m: Mat<T>, i: nat, j: nat)
    requires Shaped(m) && i < m.cols && j < m.rows
    ensures At(Transpose(m), i, j) == At(m, j, i)
  {
    var cells := Cells(Full, m.cols, m.rows);
    CellsFullAt(m.cols, m.rows, i, j);
    var p := Idx(m.cols, i, j);
    IdxBound(m.cols, m.rows, i, j);
    assert p < |cells|;
    var t := Transpose(m);
    assert t.data == TransposedData(m);
    assert t.data[p] == MirroredAt(m, cells, p);
    assert At(t, i, j) == t.data[p];
  }

  /** Transposing twice gives the matrix back. */
  lemma {:induction false} TransposeTwice<T>(m: Mat<T>)
    requires Shaped(m)
    ensures Transpose(Transpose(m)) == m
  {
    var t := Transpose(Transpose(m));
    forall p | 0 <= p < |m.data| ensures t.data[p] == m.data[p] {
      PickFullAt(m.rows, m.cols, p);
      var c := Cells(Full, m.rows, m.cols)[p];
      CellsInside(Full, m.rows, m.cols, p);
      TransposeAt(Transpose(m), c.i, c.j);
      TransposeAt(m, c.j, c.i);
    }
  }

  /** Row i of the transpose is column i. */
  lemma {:induction false} RowOfTranspose<T>(m: Mat<T>, i: nat)
    requires Shaped(m) && i < m.cols
    ensures Row(Transpose(m), i) == Col(m, i)
  {
    forall k | 0 <= k < m.rows ensures Row(Transpose(m), i)[k] == Col(m, i)[k] {
      TransposeAt(m, i, k);
    }
  }

  /**
   * Number of entries of the rows 0..m-1 of a J-column lower triangle:
   * sum over r < m of min(J, r+1).
   */
  function PackedOffset(J: nat, m: nat): nat
    decreases m
  {
    if m == 0 then 0 else PackedOffset(J, m - 1) + Min(J, m)
  }

  function Min(a: nat, b: nat): nat
  {
    if a < b then a else b
  }

  /** Up to row J every row keeps all its r+1 entries. */
  lemma {:induction false} PackedOffsetShort(J: nat, K: nat)
    requires K <= J
    ensures PackedOffset(J, K) == Tri(K)
    decreases K
  {
    if K > 0 {
      PackedOffsetShort(J, K - 1);
    }
  }

  /** Offsets never decrease from one row to the next. */
  lemma {:induction false} PackedOffsetMono(J: nat, m: nat, K: nat)
    requires m <= K
    ensures PackedOffset(J, m) <= PackedOffset(J, K)
    decreases K
  {
    if m < K {
      PackedOffsetMono(J, m, K - 1);
    }
  }

  /** From row J on every row keeps J entries. */
  lemma {:induction false} PackedOffsetLong(J: nat, K: nat)
    requires K >= J
    ensures PackedOffset(J, K) == Tri(J) + (K - J) * J
    decreases K
  {
    if K == J {
      PackedOffsetShort(J, K);
    } else {
      PackedOffsetLong(J, K - 1);
      MulSucc(K - 1 - J, J);
    }
  }

  /** The closed form that multiply_lower_tri_self_transpose uses for its packed size. */
  lemma {:induction false} PackedOffsetClosedForm(J: nat, K: nat)
    ensures PackedOffset(J, K) == if K >= J then (K - J) * J + J * (J + 1) / 2 else K * (K + 1) / 2
  {
    if K >= J {
      PackedOffsetLong(J, K);
      TriClosedForm(J);
    } else {
      PackedOffsetShort(J, K);
      TriClosedForm(K);
    }
  }
}
