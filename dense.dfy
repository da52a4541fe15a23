/**
 * The plain-double matrix arithmetic the solve nodes do between their calls
 * into the linear-algebra backend: negation, scaling and the product of a
 * matrix with the transpose of another, all on column-major arrays.
 */
module Dense {
  import opened Primal
  import opened Layout

  /** n zeros. */
  function Zeros(n: nat): (r: seq<real>)
    ensures |r| == n && forall i :: 0 <= i < n ==> r[i] == 0.0
  {
    seq(n, _ => 0.0)
  }

  /** Entry-wise negation, an Eigen unary minus. */
  function Neg(xs: seq<real>): (r: seq<real>)
    ensures |r| == |xs| && forall i :: 0 <= i < |xs| ==> r[i] == -xs[i]
  {
    seq(|xs|, i requires 0 <= i < |xs| => -xs[i])
  }

  /** Entry-wise scaling by c, an Eigen scalar-times-matrix. */
  function Scale(c: real, xs: seq<real>): (r: seq<real>)
    ensures |r| == |xs| && forall i :: 0 <= i < |xs| ==> r[i] == c * xs[i]
  {
    seq(|xs|, i requires 0 <= i < |xs| => c * xs[i])
  }

  /**
   * X * Y^T for two m-by-n column-major matrices: the m-by-m matrix whose
   * cell (i, j) is row i of X dotted with row j of Y.
   */
  function MulT(m: nat, n: nat, x: seq<real>, y: seq<real>): (r: seq<real>)
    requires |x| == m * n && |y| == m * n
    ensures |r| == m * m
  {
    CellsFullLength(m, m);
    var cells := Cells(Full, m, m);
    seq(|cells|, p requires 0 <= p < |cells| => RowsDot(m, n, x, y, cells, p))
  }

  function RowsDot(m: nat, n: nat, x: seq<real>, y: seq<real>, cells: seq<Cell>, p: nat): real
    requires |x| == m * n && |y| == m * n
    requires cells == Cells(Full, m, m) && p < |cells|
  {
    CellsInside(Full, m, m, p);
    Dot(Row(Mat(m, n, x), cells[p].i), Row(Mat(m, n, y), cells[p].j))
  }

  /** Cell (i, j) of X * Y^T. */
  lemma {:induction false} MulTAt(m: nat, n: nat, x: seq<real>, y: seq<real>, i: nat, j: nat)
    requires |x| == m * n && |y| == m * n && i < m && j < m
    ensures Idx(m, i, j) < m * m
    ensures MulT(m, n, x, y)[Idx(m, i, j)] == Dot(Row(Mat(m, n, x), i), Row(Mat(m, n, y), j))
  {
    CellsFullAt(m, m, i, j);
    var p := Idx(m, i, j);
    IdxBound(m, m, i, j);
    var cells := Cells(Full, m, m);
    assert p < |cells| && cells[p] == Cell(i, j);
    assert MulT(m, n, x, y)[p] == RowsDot(m, n, x, y, cells, p);
  }

  /** A zero left factor gives a zero product. */
  lemma {:induction false} MulTZero(m: nat, n: nat, y: seq<real>)
    requires |y| == m * n
    ensures MulT(m, n, Zeros(m * n), y) == Zeros(m * m)
  {
    var x := Zeros(m * n);
    var cells := Cells(Full, m, m);
    CellsFullLength(m, m);
    forall p | 0 <= p < m * m ensures MulT(m, n, x, y)[p] == 0.0 {
      CellsInside(Full, m, m, p);
      var row := Row(Mat(m, n, x), cells[p].i);
      assert row == Zeros(n) by {
        forall t | 0 <= t < n ensures row[t] == 0.0 {
          IdxBound(m, n, cells[p].i, t);
        }
      }
      DotZeros(Zeros(n), Row(Mat(m, n, y), cells[p].j));
      assert MulT(m, n, x, y)[p] == RowsDot(m, n, x, y, cells, p);
    }
  }

  lemma {:induction false} DotZeros(xs: seq<real>, ys: seq<real>)
    requires |xs| == |ys| && xs == Zeros(|xs|)
    ensures Dot(xs, ys) == 0.0
    decreases |xs|
  {
    if |xs| > 0 {
      var n := |xs| - 1;
      assert xs[..n] == Zeros(n);
      DotZeros(xs[..n], ys[..n]);
    }
  }
}
