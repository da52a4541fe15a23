/**
 * The builders of `agrad/matrix.hpp` that reduce vectors to one var: they
 * check shapes as the `validate_*` helpers do (a `std::domain_error` becomes
 * `Err(DomainError)`, and the tape is left as it was), record reduction nodes
 * and return the result handles. A var matrix is a `Mat<nat>` of handles, a
 * double matrix a `Mat<real>`.
 */
module Matrix {
  import opened Wrappers
  import opened Adjoint
  import Primal
  import opened Layout
  import opened Graph
  import opened Vari
  import opened Reductions

  /** A double matrix with the entries its shape promises. */
  predicate DblMat(m: Mat<real>)
  {
    Shaped(m)
  }

  /** `sum(m)`: `var(0.0)` (a new constant) for an empty matrix, else one `sum_v_vari` over all entries. */
  method Sum(t: Tape, m: Mat<nat>) returns (r: nat)
    requires t.Valid() && VarMat(m, |t.vals|)
    modifies t
    ensures t.Valid() && r == |old(t.vals)| && |t.vals| == r + 1
    ensures Appended(old(t.G()), old(t.adjs), t.G(), t.adjs)
    ensures InRange(m.data, |t.vals|) && t.vals[r] == Primal.Sum(Primal.Gather(t.vals, m.data))
    ensures |m.data| == 0 <==> t.kinds[r] == Leaf
    ensures |m.data| > 0 ==> Records(t.G(), r, Summed(m.data))
  {
    if |m.data| == 0 {
      ghost var g0, a0 := t.G(), t.adjs;
      r := t.NewLeaf(0.0);
      AppendedBy(g0, a0, [0.0], [Leaf], [], []);
      assert t.G() == Graph(g0.vals + [0.0], g0.kinds + [Leaf], g0.refs + [], g0.dbls + []);
    } else {
      r := RecordSum(t, m.data);
    }
  }

  /** `dot_self(v)`: Σ vᵢ² as one `dot_self_vari`; a non-vector argument is a domain error. */
  method DotSelf(t: Tape, v: Mat<nat>) returns (r: Result<nat>)
    requires t.Valid() && VarMat(v, |t.vals|)
    modifies t
    ensures t.Valid() && Appended(old(t.G()), old(t.adjs), t.G(), t.adjs)
    ensures r.Err? <==> !IsVector(v)
    ensures r.Err? ==> r.error == DomainError && t.G() == old(t.G())
    ensures r.Ok? ==> r.value == |old(t.vals)| && |t.vals| == r.value + 1 && Records(t.G(), r.value, Squared(v.data))
  {
    if !IsVector(v) {
      AppendedRefl(t.G(), t.adjs);
      return Err(DomainError);
    }
    var h := RecordSquares(t, v.data);
    r := Ok(h);
  }

  /** `columns_dot_self(x)`: a row vector whose entry j is a `dot_self_vari` of column j. */
  method ColumnsDotSelf(t: Tape, x: Mat<nat>) returns (ret: Mat<nat>)
    requires t.Valid() && VarMat(x, |t.vals|)
    modifies t
    ensures t.Valid() && Appended(old(t.G()), old(t.adjs), t.G(), t.adjs)
    ensures ret == Mat(1, x.cols, Range(|old(t.vals)|, x.cols)) && |t.vals| == |old(t.vals)| + x.cols
    ensures forall j :: 0 <= j < x.cols ==> Records(t.G(), ret.data[j], Squared(Col(x, j)))
  {
    var reds := seq(x.cols, j requires 0 <= j < x.cols => Squared(Col(x, j)));
    forall j | 0 <= j < x.cols ensures Recordable(reds[j], |t.vals|) {
      ColInRange(x, j, |t.vals|);
    }
    var data := RecordEach(t, reds);
    ret := Mat(1, x.cols, data);
  }

  /**
   * `columns_dot_product(v1, v2)` for two var matrices: entry j is a
   * `dot_product_vv_vari` of column j of each. Sizes that differ are a domain
   * error.
   */
  method ColumnsDotProduct(t: Tape, v1: Mat<nat>, v2: Mat<nat>) returns (r: Result<Mat<nat>>)
    requires t.Valid() && VarMat(v1, |t.vals|) && VarMat(v2, |t.vals|)
    requires |v1.data| == |v2.data| ==> v1.rows == v2.rows && v1.cols == v2.cols
    modifies t
    ensures t.Valid() && Appended(old(t.G()), old(t.adjs), t.G(), t.adjs)
    ensures r.Err? <==> |v1.data| != |v2.data|
    ensures r.Err? ==> r.error == DomainError && t.G() == old(t.G())
    ensures r.Ok? ==> r.value == Mat(1, v1.cols, Range(|old(t.vals)|, v1.cols)) && |t.vals| == |old(t.vals)| + v1.cols
    ensures r.Ok? ==> forall j :: 0 <= j < v1.cols ==> Records(t.G(), r.value.data[j], Paired(Col(v1, j), Col(v2, j)))
  {
    if |v1.data| != |v2.data| {
      AppendedRefl(t.G(), t.adjs);
      return Err(DomainError);
    }
    var reds := seq(v1.cols, j requires 0 <= j < v1.cols => Paired(Col(v1, j), Col(v2, j)));
    forall j | 0 <= j < v1.cols ensures Recordable(reds[j], |t.vals|) {
      ColInRange(v1, j, |t.vals|);
      ColInRange(v2, j, |t.vals|);
    }
    var data := RecordEach(t, reds);
    r := Ok(Mat(1, v1.cols, data));
  }

  /**
   * `columns_dot_product(v1, v2)` for a var and a double matrix: entry j is a
   * `dot_product_vd_vari` of the var column j with the double column j.
   */
  method ColumnsDotProductVD(t: Tape, v: Mat<nat>, d: Mat<real>) returns (r: Result<Mat<nat>>)
    requires t.Valid() && VarMat(v, |t.vals|) && DblMat(d)
    requires |v.data| == |d.data| ==> v.rows == d.rows && v.cols == d.cols
    modifies t
    ensures t.Valid() && Appended(old(t.G()), old(t.adjs), t.G(), t.adjs)
    ensures r.Err? <==> |v.data| != |d.data|
    ensures r.Err? ==> r.error == DomainError && t.G() == old(t.G())
    ensures r.Ok? ==> r.value == Mat(1, v.cols, Range(|old(t.vals)|, v.cols)) && |t.vals| == |old(t.vals)| + v.cols
    ensures r.Ok? ==> forall j :: 0 <= j < v.cols ==> Records(t.G(), r.value.data[j], Weighted(Col(v, j), Col(d, j)))
  {
    if |v.data| != |d.data| {
      AppendedRefl(t.G(), t.adjs);
      return Err(DomainError);
    }
    var reds := seq(v.cols, j requires 0 <= j < v.cols => Weighted(Col(v, j), Col(d, j)));
    forall j | 0 <= j < v.cols ensures Recordable(reds[j], |t.vals|) {
      ColInRange(v, j, |t.vals|);
    }
    var data := RecordEach(t, reds);
    r := Ok(Mat(1, v.cols, data));
  }

  /** `columns_dot_product(v1, v2)` for a double and a var matrix: the var columns go first. */
  method ColumnsDotProductDV(t: Tape, d: Mat<real>, v: Mat<nat>) returns (r: Result<Mat<nat>>)
    requires t.Valid() && VarMat(v, |t.vals|) && DblMat(d)
    requires |v.data| == |d.data| ==> v.rows == d.rows && v.cols == d.cols
    modifies t
    ensures t.Valid() && Appended(old(t.G()), old(t.adjs), t.G(), t.adjs)
    ensures r.Err? <==> |d.data| != |v.data|
    ensures r.Err? ==> r.error == DomainError && t.G() == old(t.G())
    ensures r.Ok? ==> r.value == Mat(1, d.cols, Range(|old(t.vals)|, d.cols)) && |t.vals| == |old(t.vals)| + d.cols
    ensures r.Ok? ==> forall j :: 0 <= j < d.cols ==> Records(t.G(), r.value.data[j], Weighted(Col(v, j), Col(d, j)))
  {
    r := ColumnsDotProductVD(t, v, d);
  }

  /**
   * `dot_product(v1, v2)` for two var vectors: one `dot_product_vv_vari`.
   * Either argument not a vector, or sizes that differ, is a domain error.
   */
  method DotProduct(t: Tape, v1: Mat<nat>, v2: Mat<nat>) returns (r: Result<nat>)
    requires t.Valid() && VarMat(v1, |t.vals|) && VarMat(v2, |t.vals|)
    modifies t
    ensures t.Valid() && Appended(old(t.G()), old(t.adjs), t.G(), t.adjs)
    ensures r.Err? <==> !(IsVector(v1) && IsVector(v2) && |v1.data| == |v2.data|)
    ensures r.Err? ==> r.error == DomainError && t.G() == old(t.G())
    ensures r.Ok? ==> r.value == |old(t.vals)| && |t.vals| == r.value + 1 && Records(t.G(), r.value, Paired(v1.data, v2.data))
  {
    if !IsVector(v1) || !IsVector(v2) || |v1.data| != |v2.data| {
      AppendedRefl(t.G(), t.adjs);
      return Err(DomainError);
    }
    var h := RecordDot(t, v1.data, v2.data, None, None);
    r := Ok(h);
  }

  /** `dot_product(v1, v2)` for a var and a double vector: one `dot_product_vd_vari`. */
  method DotProductVD(t: Tape, v1: Mat<nat>, v2: Mat<real>) returns (r: Result<nat>)
    requires t.Valid() && VarMat(v1, |t.vals|) && DblMat(v2)
    modifies t
    ensures t.Valid() && Appended(old(t.G()), old(t.adjs), t.G(), t.adjs)
    ensures r.Err? <==> !(IsVector(v1) && IsVector(v2) && |v1.data| == |v2.data|)
    ensures r.Err? ==> r.error == DomainError && t.G() == old(t.G())
    ensures r.Ok? ==> r.value == |old(t.vals)| && |t.vals| == r.value + 1 && Records(t.G(), r.value, Weighted(v1.data, v2.data))
  {
    if !IsVector(v1) || !IsVector(v2) || |v1.data| != |v2.data| {
      AppendedRefl(t.G(), t.adjs);
      return Err(DomainError);
    }
    var h := RecordDotD(t, v1.data, v2.data, None, None);
    r := Ok(h);
  }

  /** `dot_product(v1, v2)` for a double and a var vector: the var vector goes first. */
  method DotProductDV(t: Tape, v1: Mat<real>, v2: Mat<nat>) returns (r: Result<nat>)
    requires t.Valid() && DblMat(v1) && VarMat(v2, |t.vals|)
    modifies t
    ensures t.Valid() && Appended(old(t.G()), old(t.adjs), t.G(), t.adjs)
    ensures r.Err? <==> !(IsVector(v1) && IsVector(v2) && |v1.data| == |v2.data|)
    ensures r.Err? ==> r.error == DomainError && t.G() == old(t.G())
    ensures r.Ok? ==> r.value == |old(t.vals)| && |t.vals| == r.value + 1 && Records(t.G(), r.value, Weighted(v2.data, v1.data))
  {
    r := DotProductVD(t, v2, v1);
  }

  /**
   * `dot_product(v1, v2, length)` on raw arrays: the first `length` entries of
   * each, unchecked; the caller guarantees both arrays are that long.
   */
  method DotProductArrays(t: Tape, v1: seq<nat>, v2: seq<nat>, length: nat) returns (r: nat)
    requires t.Valid() && InRange(v1, |t.vals|) && InRange(v2, |t.vals|) && length <= |v1| && length <= |v2|
    modifies t
    ensures t.Valid() && Appended(old(t.G()), old(t.adjs), t.G(), t.adjs)
    ensures r == |old(t.vals)| && |t.vals| == r + 1 && Records(t.G(), r, Paired(v1[..length], v2[..length]))
  {
    r := RecordDot(t, v1[..length], v2[..length], None, None);
  }

  /** `dot_product(v1, v2, length)` on a var and a double array. */
  method DotProductArraysVD(t: Tape, v1: seq<nat>, v2: seq<real>, length: nat) returns (r: nat)
    requires t.Valid() && InRange(v1, |t.vals|) && length <= |v1| && length <= |v2|
    modifies t
    ensures t.Valid() && Appended(old(t.G()), old(t.adjs), t.G(), t.adjs)
    ensures r == |old(t.vals)| && |t.vals| == r + 1 && Records(t.G(), r, Weighted(v1[..length], v2[..length]))
  {
    r := RecordDotD(t, v1[..length], v2[..length], None, None);
  }

  /** `dot_product(v1, v2, length)` on a double and a var array: the var array goes first. */
  method DotProductArraysDV(t: Tape, v1: seq<real>, v2: seq<nat>, length: nat) returns (r: nat)
    requires t.Valid() && InRange(v2, |t.vals|) && length <= |v1| && length <= |v2|
    modifies t
    ensures t.Valid() && Appended(old(t.G()), old(t.adjs), t.G(), t.adjs)
    ensures r == |old(t.vals)| && |t.vals| == r + 1 && Records(t.G(), r, Weighted(v2[..length], v1[..length]))
  {
    r := DotProductArraysVD(t, v2, v1, length);
  }

  /** `dot_product(v1, v2)` on two `std::vector<var>`: sizes that differ are a domain error. */
  method DotProductStd(t: Tape, v1: seq<nat>, v2: seq<nat>) returns (r: Result<nat>)
    requires t.Valid() && InRange(v1, |t.vals|) && InRange(v2, |t.vals|)
    modifies t
    ensures t.Valid() && Appended(old(t.G()), old(t.adjs), t.G(), t.adjs)
    ensures r.Err? <==> |v1| != |v2|
    ensures r.Err? ==> r.error == DomainError && t.G() == old(t.G())
    ensures r.Ok? ==> r.value == |old(t.vals)| && |t.vals| == r.value + 1 && Records(t.G(), r.value, Paired(v1, v2))
  {
    if |v1| != |v2| {
      AppendedRefl(t.G(), t.adjs);
      return Err(DomainError);
    }
    var h := DotProductArrays(t, v1, v2, |v1|);
    assert v1[..|v1|] == v1 && v2[..|v1|] == v2;
    r := Ok(h);
  }

  /** `dot_product(v1, v2)` on a `std::vector<var>` and a `std::vector<double>`. */
  method DotProductStdVD(t: Tape, v1: seq<nat>, v2: seq<real>) returns (r: Result<nat>)
    requires t.Valid() && InRange(v1, |t.vals|)
    modifies t
    ensures t.Valid() && Appended(old(t.G()), old(t.adjs), t.G(), t.adjs)
    ensures r.Err? <==> |v1| != |v2|
    ensures r.Err? ==> r.error == DomainError && t.G() == old(t.G())
    ensures r.Ok? ==> r.value == |old(t.vals)| && |t.vals| == r.value + 1 && Records(t.G(), r.value, Weighted(v1, v2))
  {
    if |v1| != |v2| {
      AppendedRefl(t.G(), t.adjs);
      return Err(DomainError);
    }
    var h := DotProductArraysVD(t, v1, v2, |v1|);
    assert v1[..|v1|] == v1 && v2[..|v1|] == v2;
    r := Ok(h);
  }

  /** `dot_product(v1, v2)` on a `std::vector<double>` and a `std::vector<var>`. */
  method DotProductStdDV(t: Tape, v1: seq<real>, v2: seq<nat>) returns (r: Result<nat>)
    requires t.Valid() && InRange(v2, |t.vals|)
    modifies t
    ensures t.Valid() && Appended(old(t.G()), old(t.adjs), t.G(), t.adjs)
    ensures r.Err? <==> |v1| != |v2|
    ensures r.Err? ==> r.error == DomainError && t.G() == old(t.G())
    ensures r.Ok? ==> r.value == |old(t.vals)| && |t.vals| == r.value + 1 && Records(t.G(), r.value, Weighted(v2, v1))
  {
    if |v1| != |v2| {
      AppendedRefl(t.G(), t.adjs);
      return Err(DomainError);
    }
    var h := DotProductArraysDV(t, v1, v2, |v1|);
    assert v1[..|v1|] == v1 && v2[..|v1|] == v2;
    r := Ok(h);
  }

  /**
   * `multiply(rv, v)` of a row vector and a column vector: their
   * `dot_product`. The size check comes first (an explicit test for two var
   * vectors, `validate_multiplicable` otherwise; for these shapes the two agree).
   */
  method MultiplyRowCol(t: Tape, rv: Mat<nat>, v: Mat<nat>) returns (r: Result<nat>)
    requires t.Valid() && VarMat(rv, |t.vals|) && VarMat(v, |t.vals|) && rv.rows == 1 && v.cols == 1
    modifies t
    ensures t.Valid() && Appended(old(t.G()), old(t.adjs), t.G(), t.adjs)
    ensures r.Err? <==> rv.cols != v.rows
    ensures r.Err? ==> r.error == DomainError && t.G() == old(t.G())
    ensures r.Ok? ==> r.value == |old(t.vals)| && |t.vals| == r.value + 1 && Records(t.G(), r.value, Paired(rv.data, v.data))
  {
    if |rv.data| != |v.data| {
      AppendedRefl(t.G(), t.adjs);
      return Err(DomainError);
    }
    r := DotProduct(t, rv, v);
  }

  /** `multiply(rv, v)` of a double row vector and a var column vector. */
  method MultiplyRowColDV(t: Tape, rv: Mat<real>, v: Mat<nat>) returns (r: Result<nat>)
    requires t.Valid() && DblMat(rv) && VarMat(v, |t.vals|) && rv.rows == 1 && v.cols == 1
    modifies t
    ensures t.Valid() && Appended(old(t.G()), old(t.adjs), t.G(), t.adjs)
    ensures r.Err? <==> rv.cols != v.rows
    ensures r.Err? ==> r.error == DomainError && t.G() == old(t.G())
    ensures r.Ok? ==> r.value == |old(t.vals)| && |t.vals| == r.value + 1 && Records(t.G(), r.value, Weighted(v.data, rv.data))
  {
    if rv.cols != v.rows {
      AppendedRefl(t.G(), t.adjs);
      return Err(DomainError);
    }
    r := DotProductDV(t, rv, v);
  }

  /** `multiply(rv, v)` of a var row vector and a double column vector. */
  method MultiplyRowColVD(t: Tape, rv: Mat<nat>, v: Mat<real>) returns (r: Result<nat>)
    requires t.Valid() && VarMat(rv, |t.vals|) && DblMat(v) && rv.rows == 1 && v.cols == 1
    modifies t
    ensures t.Valid() && Appended(old(t.G()), old(t.adjs), t.G(), t.adjs)
    ensures r.Err? <==> rv.cols != v.rows
    ensures r.Err? ==> r.error == DomainError && t.G() == old(t.G())
    ensures r.Ok? ==> r.value == |old(t.vals)| && |t.vals| == r.value + 1 && Records(t.G(), r.value, Weighted(rv.data, v.data))
  {
    if rv.cols != v.rows {
      AppendedRefl(t.G(), t.adjs);
      return Err(DomainError);
    }
    r := DotProductVD(t, rv, v);
  }
}
