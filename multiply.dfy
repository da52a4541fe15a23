/**
 * `multiply(m1, m2)` for the three combinations of var and double matrices:
 * cell (i, j) of the product is a dot product of row i of m1 and column j of
 * m2. The cells are recorded row by row, and a cell after the first of its row
 * takes over the row's operand array from cell (i, 0), a cell below the first
 * row the column's operand array from cell (0, j).
 */
module Multiply {
  import opened Wrappers
  import opened Layout
  import opened Graph
  import opened Vari
  import opened Reductions
  import opened Adjoint
  import Primal

  /** The two factors of a product: var by var, double by var, var by double. */
  datatype Factors =
    | VV(a: Mat<nat>, b: Mat<nat>)
    | DV(x: Mat<real>, b: Mat<nat>)
    | VD(a: Mat<nat>, y: Mat<real>)

  function Rows(f: Factors): nat
  {
    if f.DV? then f.x.rows else f.a.rows
  }

  function Cols(f: Factors): nat
  {
    if f.VD? then f.y.cols else f.b.cols
  }

  /** Both factors have their entries, the columns of the first match the rows of the second. */
  predicate Multiplicable(f: Factors)
  {
    match f
    case VV(a, b) => Shaped(a) && Shaped(b) && a.cols == b.rows
    case DV(x, b) => Shaped(x) && Shaped(b) && x.cols == b.rows
    case VD(a, y) => Shaped(a) && Shaped(y) && a.cols == y.rows
  }

  /** The var entries of the factors name nodes below n. */
  predicate OnTapeF(f: Factors, n: nat)
  {
    match f
    case VV(a, b) => VarMat(a, n) && VarMat(b, n)
    case DV(x, b) => VarMat(b, n)
    case VD(a, y) => VarMat(a, n)
  }

  /**
   * What cell (i, j) reduces: row i of the first factor against column j of
   * the second. A `dot_product_vd_vari` takes the var side first, so for a
   * double first factor the column comes first.
   */
  function CellReduction(f: Factors, i: nat, j: nat): Reduction
    requires Multiplicable(f) && i < Rows(f) && j < Cols(f)
  {
    match f
    case VV(a, b) => Paired(Row(a, i), Col(b, j))
    case DV(x, b) => Weighted(Col(b, j), Row(x, i))
    case VD(a, y) => Weighted(Row(a, i), Col(y, j))
  }

  /** The result matrix has the product's shape. */
  predicate Fits(res: Mat<nat>, f: Factors)
  {
    Shaped(res) && res.rows == Rows(f) && res.cols == Cols(f)
  }

  /**
   * Node h of cell (i, j) holds the operand arrays of the row's first cell and
   * the column's first cell. The var row (or, for a double first factor, the
   * double row) is the one shared along a row.
   */
  ghost predicate Shares(g: Graph, f: Factors, h: nat, res: Mat<nat>, i: nat, j: nat)
    requires Fits(res, f) && i < res.rows && j < res.cols
  {
    if f.DV? then
      (i > 0 ==> SameFirst(g, h, At(res, 0, j))) && (j > 0 ==> SameSecond(g, h, At(res, i, 0)))
    else
      (j > 0 ==> SameFirst(g, h, At(res, i, 0))) && (i > 0 ==> SameSecond(g, h, At(res, 0, j)))
  }

  /**
   * Cell (i, j) is the node recorded (i * cols + j)-th after h0, the row-major
   * position of the cell, reducing its row and column, with the sharing above.
   */
  ghost predicate ProductCell(g: Graph, res: Mat<nat>, f: Factors, h0: nat, i: nat, j: nat)
    requires Multiplicable(f) && Fits(res, f) && i < res.rows && j < res.cols
  {
    At(res, i, j) == h0 + Idx(res.cols, j, i) && Records(g, At(res, i, j), CellReduction(f, i, j)) && Shares(g, f, At(res, i, j), res, i, j)
  }

  /** Every cell before (i, j) in row-major order is filled. */
  ghost predicate Filled(g: Graph, res: Mat<nat>, f: Factors, h0: nat, i: nat, j: nat)
  {
    Multiplicable(f) && Fits(res, f)
    && forall i', j' :: 0 <= i' < res.rows && 0 <= j' < res.cols && (i' < i || (i' == i && j' < j))
         ==> ProductCell(g, res, f, h0, i', j')
  }

  lemma {:induction false} SameGrowsBoth(g: Graph, g2: Graph, h: nat, h2: nat)
    requires Grows(g, g2)
    ensures SameFirst(g, h, h2) ==> SameFirst(g2, h, h2)
    ensures SameSecond(g, h, h2) ==> SameSecond(g2, h, h2)
  {
    SameGrows(g, g2, h, h2);
  }

  /** One filled cell (i, j), recorded after the others, extends the filled part by one. */
  lemma {:induction false} FillStep(g: Graph, g2: Graph, res: Mat<nat>, f: Factors, h0: nat, i: nat, j: nat, h: nat)
    requires Filled(g, res, f, h0, i, j) && i < res.rows && j < res.cols
    requires Grows(g, g2) && |g2.vals| == |g2.kinds|
    requires h == h0 + Idx(res.cols, j, i) && Records(g2, h, CellReduction(f, i, j)) && Shares(g2, f, h, res, i, j)
    ensures Filled(g2, Set(res, i, j, h), f, h0, i, j + 1)
  {
    var res2 := Set(res, i, j, h);
    SetAt(res, i, j, h, i, j);
    if j > 0 {
      SetAt(res, i, j, h, i, 0);
    }
    if i > 0 {
      SetAt(res, i, j, h, 0, j);
    }
    assert ProductCell(g2, res2, f, h0, i, j);
    forall i', j' | 0 <= i' < res.rows && 0 <= j' < res.cols && (i' < i || (i' == i && j' < j))
      ensures ProductCell(g2, res2, f, h0, i', j')
    {
      assert ProductCell(g, res, f, h0, i', j');
      SetAt(res, i, j, h, i', j');
      SetAt(res, i, j, h, i', 0);
      SetAt(res, i, j, h, 0, j');
      var c := At(res, i', j');
      RecordsGrows(g, g2, c, CellReduction(f, i', j'));
      SameGrowsBoth(g, g2, c, At(res, i', 0));
      SameGrowsBoth(g, g2, c, At(res, 0, j'));
    }
  }

  /** The first cell of row i and the first cell of column j are filled before (i, j). */
  lemma {:induction false} FirstCells(g: Graph, res: Mat<nat>, f: Factors, h0: nat, i: nat, j: nat)
    requires Filled(g, res, f, h0, i, j) && i < res.rows && j < res.cols
    ensures j > 0 ==> Records(g, At(res, i, 0), CellReduction(f, i, 0))
    ensures i > 0 ==> Records(g, At(res, 0, j), CellReduction(f, 0, j))
  {
    if j > 0 {
      assert ProductCell(g, res, f, h0, i, 0);
    }
    if i > 0 {
      assert ProductCell(g, res, f, h0, 0, j);
    }
  }

  /** A finished row is the start of the next one. */
  lemma {:induction false} NextRow(g: Graph, res: Mat<nat>, f: Factors, h0: nat, i: nat)
    requires Filled(g, res, f, h0, i, res.cols)
    ensures Filled(g, res, f, h0, i + 1, 0)
  {
  }

  /**
   * The nested loop of the three `multiply` overloads, after the shape check:
   * cell (i, j), in row-major order, becomes a dot-product node of row i and
   * column j, sharing operand arrays as the source's NULL / `v1` / `v2`
   * arguments say.
   */
  method MultiplyCells(t: Tape, f: Factors) returns (res: Mat<nat>)
    requires t.Valid() && Multiplicable(f) && OnTapeF(f, |t.vals|)
    modifies t
    ensures t.Valid() && Appended(old(t.G()), old(t.adjs), t.G(), t.adjs)
    ensures Fits(res, f) && |t.vals| == |old(t.vals)| + Rows(f) * Cols(f)
    ensures Filled(t.G(), res, f, |old(t.vals)|, Rows(f), 0)
  {
    ghost var g0, a0 := t.G(), t.adjs;
    var h0, R, C := |t.vals|, Rows(f), Cols(f);
    res := Constant(R, C, 0);
    RowsStart(g0, a0, res, f);
    var i := 0;
    while i < R
      invariant 0 <= i <= R && t.Valid() && RowsDone(g0, a0, t.G(), t.adjs, res, f, i)
    {
      res := MultiplyRow(t, f, res, i, g0, a0);
      i := i + 1;
    }
    RowsEnd(g0, a0, t.G(), t.adjs, res, f);
  }

  /** Rows 0 to i-1 of the product are filled, by the nodes appended to g0 since. */
  ghost predicate RowsDone(g0: Graph, a0: seq<real>, g: Graph, a: seq<real>, res: Mat<nat>, f: Factors, i: nat)
  {
    Appended(g0, a0, g, a) && Filled(g, res, f, |g0.vals|, i, 0) && |g.vals| == |g0.vals| + i * res.cols
  }

  lemma {:induction false} RowsStart(g0: Graph, a0: seq<real>, res: Mat<nat>, f: Factors)
    requires |a0| == |g0.vals| && Multiplicable(f) && Fits(res, f)
    ensures RowsDone(g0, a0, g0, a0, res, f, 0)
  {
    AppendedRefl(g0, a0);
  }

  lemma {:induction false} RowsEnd(g0: Graph, a0: seq<real>, g: Graph, a: seq<real>, res: Mat<nat>, f: Factors)
    requires RowsDone(g0, a0, g, a, res, f, Rows(f))
    ensures Appended(g0, a0, g, a) && Fits(res, f) && |g.vals| == |g0.vals| + Rows(f) * Cols(f)
    ensures Filled(g, res, f, |g0.vals|, Rows(f), 0)
  {
  }

  /** The inner loop: the cells of row i, left to right. */
  method MultiplyRow(t: Tape, f: Factors, res0: Mat<nat>, i: nat, ghost g0: Graph, ghost a0: seq<real>)
      returns (res: Mat<nat>)
    requires t.Valid() && OnTapeF(f, |g0.vals|) && RowsDone(g0, a0, t.G(), t.adjs, res0, f, i) && i < res0.rows
    modifies t
    ensures t.Valid() && RowsDone(g0, a0, t.G(), t.adjs, res, f, i + 1)
  {
    var h0 := |t.vals| - i * res0.cols;
    ghost var n0 := |t.vals|;
    res := res0;
    var j := 0;
    while j < res0.cols
      invariant 0 <= j <= res0.cols && t.Valid() && Appended(g0, a0, t.G(), t.adjs) && |g0.vals| == h0
      invariant Filled(t.G(), res, f, h0, i, j) && |t.vals| == n0 + j && res.cols == res0.cols
    {
      ghost var g1, a1 := t.G(), t.adjs;
      FirstCells(t.G(), res, f, h0, i, j);
      var h := RecordCell(t, f, res, i, j);
      FillStep(g1, t.G(), res, f, h0, i, j, h);
      AppendedTrans(g0, a0, g1, a1, t.G(), t.adjs);
      res := Set(res, i, j, h);
      j := j + 1;
    }
    NextRow(t.G(), res, f, h0, i);
    MulSucc(i, res0.cols);
  }

  /** Records the node of cell (i, j), taking over the arrays of the row's and the column's first cells. */
  method RecordCell(t: Tape, f: Factors, res: Mat<nat>, i: nat, j: nat) returns (h: nat)
    requires t.Valid() && Multiplicable(f) && OnTapeF(f, |t.vals|) && Fits(res, f) && i < res.rows && j < res.cols
    requires j > 0 ==> Records(t.G(), At(res, i, 0), CellReduction(f, i, 0))
    requires i > 0 ==> Records(t.G(), At(res, 0, j), CellReduction(f, 0, j))
    modifies t
    ensures t.Valid() && h == |old(t.vals)| && |t.vals| == h + 1
    ensures Appended(old(t.G()), old(t.adjs), t.G(), t.adjs)
    ensures Records(t.G(), h, CellReduction(f, i, j)) && Shares(t.G(), f, h, res, i, j)
  {
    var rowFirst: Option<nat> := if j == 0 then None else Some(At(res, i, 0));
    var colFirst: Option<nat> := if i == 0 then None else Some(At(res, 0, j));
    match f
    case VV(a, b) =>
      RowInRange(a, i, |t.vals|);
      ColInRange(b, j, |t.vals|);
      h := RecordDot(t, Row(a, i), Col(b, j), rowFirst, colFirst);
    case DV(x, b) =>
      ColInRange(b, j, |t.vals|);
      h := RecordDotD(t, Col(b, j), Row(x, i), colFirst, rowFirst);
    case VD(a, y) =>
      RowInRange(a, i, |t.vals|);
      h := RecordDotD(t, Row(a, i), Col(y, j), rowFirst, colFirst);
  }

  /** The values of the first factor. */
  function FirstValues(vals: seq<real>, f: Factors): (r: Mat<real>)
    requires Multiplicable(f) && OnTapeF(f, |vals|)
    ensures Shaped(r) && r.rows == Rows(f)
  {
    if f.DV? then f.x else MatValues(vals, f.a)
  }

  /** The values of the second factor. */
  function SecondValues(vals: seq<real>, f: Factors): (r: Mat<real>)
    requires Multiplicable(f) && OnTapeF(f, |vals|)
    ensures Shaped(r) && r.cols == Cols(f) && r.rows == FirstValues(vals, f).cols
  {
    if f.VD? then f.y else MatValues(vals, f.b)
  }

  /** A filled cell (i, j) has the value Σₖ m1(i, k)·m2(k, j) of the two factors' values. */
  lemma {:induction false} CellValue(g: Graph, res: Mat<nat>, f: Factors, h0: nat, i: nat, j: nat)
    requires Multiplicable(f) && OnTapeF(f, |g.vals|) && Fits(res, f) && i < res.rows && j < res.cols
    requires ProductCell(g, res, f, h0, i, j)
    ensures g.vals[At(res, i, j)] == Primal.Dot(Row(FirstValues(g.vals, f), i), Col(SecondValues(g.vals, f), j))
  {
    match f
    case VV(a, b) =>
      GatherRow(g.vals, a, i);
      GatherCol(g.vals, b, j);
    case DV(x, b) =>
      GatherCol(g.vals, b, j);
      Primal.DotComm(Col(MatValues(g.vals, b), j), Row(x, i));
    case VD(a, y) =>
      GatherRow(g.vals, a, i);
  }

  /**
   * Every cell of a filled product is a node recorded after h0, reducing its
   * row and column with the sharing above, whose value is that of the matrix
   * product of the factors' values.
   */
  lemma {:induction false} ProductValues(g: Graph, res: Mat<nat>, f: Factors, h0: nat)
    requires OnTapeF(f, |g.vals|) && Filled(g, res, f, h0, Rows(f), 0)
    ensures forall i, j :: 0 <= i < Rows(f) && 0 <= j < Cols(f) ==> ProductCell(g, res, f, h0, i, j)
    ensures forall i, j :: 0 <= i < Rows(f) && 0 <= j < Cols(f) ==>
      At(res, i, j) < |g.vals| && g.vals[At(res, i, j)] == Primal.Dot(Row(FirstValues(g.vals, f), i), Col(SecondValues(g.vals, f), j))
  {
    forall i, j | 0 <= i < Rows(f) && 0 <= j < Cols(f)
      ensures ProductCell(g, res, f, h0, i, j)
      ensures At(res, i, j) < |g.vals| && g.vals[At(res, i, j)] == Primal.Dot(Row(FirstValues(g.vals, f), i), Col(SecondValues(g.vals, f), j))
    {
      CellValue(g, res, f, h0, i, j);
    }
  }

  /**
   * The three `multiply(m1, m2)` overloads: `validate_multiplicable` (a
   * domain error, leaving the tape as it was), then the cell loop.
   */
  method Product(t: Tape, f: Factors) returns (r: Result<Mat<nat>>)
    requires t.Valid() && OnTapeF(f, |t.vals|)
    requires match f
             case VV(a, b) => Shaped(a) && Shaped(b)
             case DV(x, b) => Shaped(x) && Shaped(b)
             case VD(a, y) => Shaped(a) && Shaped(y)
    modifies t
    ensures t.Valid() && Appended(old(t.G()), old(t.adjs), t.G(), t.adjs)
    ensures r.Err? <==> !Multiplicable(f)
    ensures r.Err? ==> r.error == DomainError && t.G() == old(t.G())
    ensures r.Ok? ==> Fits(r.value, f) && |t.vals| == |old(t.vals)| + Rows(f) * Cols(f)
    ensures r.Ok? ==> forall i, j :: 0 <= i < Rows(f) && 0 <= j < Cols(f) ==> ProductCell(t.G(), r.value, f, |old(t.vals)|, i, j)
    ensures r.Ok? ==> forall i, j :: 0 <= i < Rows(f) && 0 <= j < Cols(f) ==>
      At(r.value, i, j) < |t.vals| && t.vals[At(r.value, i, j)] == Primal.Dot(Row(FirstValues(t.vals, f), i), Col(SecondValues(t.vals, f), j))
  {
    if !Multiplicable(f) {
      AppendedRefl(t.G(), t.adjs);
      return Err(DomainError);
    }
    var res := MultiplyCells(t, f);
    ProductValues(t.G(), res, f, |old(t.vals)|);
    r := Ok(res);
  }
}
