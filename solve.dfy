/**
 * `mdivide_left(A, b)`, `mdivide_left_tri<view>(A, b)`, `determinant(A)` and
 * `log_determinant(A)`: after the shape checks (a `std::domain_error`
 * becomes `Err(DomainError)`, with the tape left as it was) each records one
 * node; a solve also records the result nodes, whose handles it copies into
 * the result matrix column by column.
 */
module Solvers {
  import opened Wrappers
  import opened Adjoint
  import opened Layout
  import opened Graph
  import opened Vari
  import opened Reductions
  import opened Multiply
  import opened Dense
  import Primal

  /** The columns of A. */
  function ACols(f: Factors): nat
  {
    if f.DV? then f.x.cols else f.a.cols
  }

  /** A, flattened column-major: `_A`, and for a var A the handles `_variRefA` is packed from. */
  function AOperand(f: Factors): (r: Operand)
  {
    if f.DV? then Consts(f.x.data) else Vars(f.a.data)
  }

  /** b, flattened column-major. */
  function BOperand(f: Factors): (r: Operand)
  {
    if f.VD? then Consts(f.y.data) else Vars(f.b.data)
  }

  /** `validate_square(A)` and `validate_multiplicable(A, b)` both pass. */
  predicate Solvable(f: Factors)
  {
    Multiplicable(f) && Rows(f) == ACols(f)
  }

  /** The operands of a solvable system have the sizes a solve node expects. */
  lemma {:induction false} SolvableSizes(f: Factors, n: nat)
    requires Solvable(f) && OnTapeF(f, n)
    ensures Size(AOperand(f)) == Rows(f) * Rows(f) && Size(BOperand(f)) == Rows(f) * Cols(f)
    ensures OnTape(AOperand(f), n) && OnTape(BOperand(f), n)
    ensures AOperand(f).Vars? || BOperand(f).Vars?
  {
  }

  /**
   * The copy loop `res(i, j).vi_ = _variRefC[pos++]`, j outer and i inner:
   * the handles of the `vari*` array refC become the cells of a rows x cols
   * matrix, column-major.
   */
  method CopyResult(t: Tape, refC: Slice, rows: nat, cols: nat) returns (res: Mat<nat>)
    requires Within(refC, |t.refs|) && refC.len == rows * cols
    ensures Shaped(res) && res.rows == rows && res.cols == cols && res.data == SliceOf(t.refs, refC)
  {
    ghost var src := SliceOf(t.refs, refC);
    res := Constant(rows, cols, 0);
    var pos, j := 0, 0;
    while j < cols
      invariant 0 <= j <= cols && pos == j * rows && Shaped(res) && res.rows == rows && res.cols == cols
      invariant res.data[..pos] == src[..pos]
    {
      ColumnEnd(rows, cols, j);
      var i := 0;
      while i < rows
        invariant 0 <= i <= rows && pos == j * rows + i && Shaped(res) && res.rows == rows && res.cols == cols
        invariant res.data[..pos] == src[..pos]
      {
        IdxBound(rows, cols, i, j);
        PrefixUpdate(res.data, src, pos, t.refs[refC.start + pos]);
        res := Set(res, i, j, t.refs[refC.start + pos]);
        pos, i := pos + 1, i + 1;
      }
      MulSucc(j, rows);
      j := j + 1;
    }
    MulComm(cols, rows);
    assert res.data == res.data[..pos] && src == src[..pos];
  }

  /** Writing the next entry of b into a extends the prefix the two share. */
  lemma {:induction false} PrefixUpdate<T>(a: seq<T>, b: seq<T>, pos: nat, x: T)
    requires |a| == |b| && pos < |a| && a[..pos] == b[..pos] && x == b[pos]
    ensures a[pos := x][..pos + 1] == b[..pos + 1]
  {
    assert a[pos := x][..pos + 1] == a[..pos] + [x];
    assert b[..pos + 1] == b[..pos] + [b[pos]];
  }

  /**
   * `mdivide_left(A, b)` (view Full) and `mdivide_left_tri<view>(A, b)` (view
   * Lower or Upper), for the three combinations of var and double operands:
   * A must be square and multiplicable with b. The solve node k (value 0) is
   * followed by the m*n result nodes; cell (i, j) of the result is
   * `_variRefC[j * m + i]`, the result node of value C(i, j) where A C = b is
   * solved by the view's kernel.
   */
  method MdivideLeft(t: Tape, be: Backend, view: View, f: Factors) returns (r: Result<Mat<nat>>)
    requires t.Valid() && Conforms(be) && OnTapeF(f, |t.vals|)
    requires match f
             case VV(a, b) => Shaped(a) && Shaped(b)
             case DV(x, b) => Shaped(x) && Shaped(b)
             case VD(a, y) => Shaped(a) && Shaped(y)
    modifies t
    ensures t.Valid() && Appended(old(t.G()), old(t.adjs), t.G(), t.adjs)
    ensures r.Err? <==> !Solvable(f)
    ensures r.Err? ==> r.error == DomainError && t.G() == old(t.G())
    ensures r.Ok? ==> Solvable(f) && |t.vals| == |old(t.vals)| + 1 + Rows(f) * Cols(f)
    ensures r.Ok? ==> r.value == Mat(Rows(f), Cols(f), Range(|old(t.vals)| + 1, Rows(f) * Cols(f)))
    ensures r.Ok? ==> t.kinds[|old(t.vals)|] == SolveKind(view, Rows(f), Cols(f), AOperand(f), BOperand(f), |old(t.refs)|, |old(t.dbls)|)
    ensures r.Ok? ==> Within(t.kinds[|old(t.vals)|].refC, |t.refs|) && SliceOf(t.refs, t.kinds[|old(t.vals)|].refC) == r.value.data
    ensures r.Ok? ==> t.vals[|old(t.vals)| + 1..] == be.solve(view, Rows(f), Values(old(t.vals), AOperand(f)), Values(old(t.vals), BOperand(f)))
  {
    if !(Multiplicable(f) && Rows(f) == ACols(f)) {
      AppendedRefl(t.G(), t.adjs);
      return Err(DomainError);
    }
    var m, n := Rows(f), Cols(f);
    SolvableSizes(f, |t.vals|);
    var k := RecordSolveNode(t, be, view, m, n, AOperand(f), BOperand(f));
    var res := CopyResult(t, t.kinds[k].refC, m, n);
    r := Ok(res);
  }

  /**
   * `new mdivide_left_*_vari(A, b)`: the solve node k and its m*n result
   * nodes, whose handles `_variRefC` holds, of the values the kernel solves for.
   */
  method RecordSolveNode(t: Tape, be: Backend, view: View, m: nat, n: nat, a: Operand, b: Operand) returns (k: nat)
    requires t.Valid() && Conforms(be)
    requires Size(a) == m * m && Size(b) == m * n && OnTape(a, |t.vals|) && OnTape(b, |t.vals|) && (a.Vars? || b.Vars?)
    modifies t
    ensures t.Valid() && Appended(old(t.G()), old(t.adjs), t.G(), t.adjs)
    ensures k == |old(t.vals)| && |t.vals| == k + 1 + m * n
    ensures t.kinds[k] == SolveKind(view, m, n, a, b, |old(t.refs)|, |old(t.dbls)|)
    ensures Within(t.kinds[k].refC, |t.refs|) && SliceOf(t.refs, t.kinds[k].refC) == Range(k + 1, m * n)
    ensures t.vals[k + 1..] == be.solve(view, m, Values(old(t.vals), a), Values(old(t.vals), b))
  {
    ghost var g0, adj0 := t.G(), t.adjs;
    ghost var c := be.solve(view, m, Values(g0.vals, a), Values(g0.vals, b));
    ghost var node, pa, pb := SolveKind(view, m, n, a, b, |g0.refs|, |g0.dbls|), PackedRefs(view, m, a), RhsRefs(b);
    assert |c| == m * n;
    assert node.Solve? && node.refC == Slice(|g0.refs| + |pa| + |pb|, |c|);
    k := t.NewSolve(be, view, m, n, a, b);
    ghost var g1, adj1 := t.G(), t.adjs;
    assert g1.vals == g0.vals + [0.0] + c && g1.kinds == g0.kinds + [node] + Leaves(|c|);
    assert g1.refs == g0.refs + pa + pb + Range(|g0.vals| + 1, |c|) && adj1 == adj0 + Zeros(1 + |c|);
    SolveRecorded(g0, adj0, g1, adj1, node, c, pa, pb, Values(g0.vals, a) + c);
  }

  /**
   * The tape a solve node's constructor leaves behind, on graph values: the
   * node, its result nodes of values c, and the handles of those after the
   * operands' handles pa and pb.
   */
  lemma {:induction false} SolveRecorded(g0: Graph, adj0: seq<real>, g: Graph, adj: seq<real>, node: Kind, c: seq<real>,
                                         pa: seq<nat>, pb: seq<nat>, ds: seq<real>)
    requires |adj0| == |g0.vals| == |g0.kinds| && node.Solve? && node.refC == Slice(|g0.refs| + |pa| + |pb|, |c|)
    requires g.vals == g0.vals + [0.0] + c && g.kinds == g0.kinds + [node] + Leaves(|c|)
    requires g.refs == g0.refs + pa + pb + Range(|g0.vals| + 1, |c|) && g.dbls == g0.dbls + ds
    requires adj == adj0 + Zeros(1 + |c|)
    ensures Appended(g0, adj0, g, adj) && |g.vals| == |g0.vals| + 1 + |c| && g.kinds[|g0.vals|] == node
    ensures Within(node.refC, |g.refs|) && SliceOf(g.refs, node.refC) == Range(|g0.vals| + 1, |c|)
    ensures g.vals[|g0.vals| + 1..] == c
  {
    assert g.vals[..|g0.vals|] == g0.vals;
    assert g.kinds[..|g0.kinds|] == g0.kinds;
    assert g.refs[..|g0.refs|] == g0.refs;
    assert g.dbls[..|g0.dbls|] == g0.dbls;
    assert g.refs == g0.refs + (pa + pb + Range(|g0.vals| + 1, |c|));
    SolveRefC(g0.refs, pa, pb, |g0.vals| + 1, |c|);
  }

  lemma {:induction false} SolveRefC(r0: seq<nat>, pa: seq<nat>, pb: seq<nat>, first: nat, len: nat)
    ensures Within(Slice(|r0| + |pa| + |pb|, len), |r0 + (pa + pb + Range(first, len))|)
    ensures SliceOf(r0 + (pa + pb + Range(first, len)), Slice(|r0| + |pa| + |pb|, len)) == Range(first, len)
  {
    var refs := r0 + (pa + pb + Range(first, len));
    forall p | 0 <= p < len ensures SliceOf(refs, Slice(|r0| + |pa| + |pb|, len))[p] == Range(first, len)[p] {
      assert refs[|r0| + |pa| + |pb| + p] == Range(first, len)[p];
    }
  }

  /**
   * `determinant(A)`: a square var matrix A gets one `determinant_vari`,
   * whose `_A` holds A's values and `_adjARef` its handles, column-major, and
   * whose value is the kernel's determinant of A's values.
   */
  method Determinant(t: Tape, be: Backend, A: Mat<nat>) returns (r: Result<nat>)
    requires t.Valid() && VarMat(A, |t.vals|)
    modifies t
    ensures t.Valid() && Appended(old(t.G()), old(t.adjs), t.G(), t.adjs)
    ensures r.Err? <==> A.rows != A.cols
    ensures r.Err? ==> r.error == DomainError && t.G() == old(t.G())
    ensures r.Ok? ==> r.value == |old(t.vals)| && |t.vals| == r.value + 1
    ensures r.Ok? ==> t.vals[r.value] == be.determinant(A.rows, Primal.Gather(old(t.vals), A.data))
    ensures r.Ok? ==> t.kinds[r.value] == Det(A.rows, Slice(|old(t.dbls)|, |A.data|), Slice(|old(t.refs)|, |A.data|))
    ensures r.Ok? ==> t.refs == old(t.refs) + A.data && t.dbls == old(t.dbls) + Primal.Gather(old(t.vals), A.data)
  {
    if A.rows != A.cols {
      AppendedRefl(t.G(), t.adjs);
      return Err(DomainError);
    }
    ghost var g0, a0 := t.G(), t.adjs;
    var h := t.NewDeterminant(be, A.rows, A.data);
    AppendedBy(g0, a0, [t.vals[h]], [t.kinds[h]], A.data, Primal.Gather(g0.vals, A.data));
    assert t.G() == Graph(g0.vals + [t.vals[h]], g0.kinds + [t.kinds[h]], g0.refs + A.data, g0.dbls + Primal.Gather(g0.vals, A.data));
    r := Ok(h);
  }

  /** `log_determinant(A)`: as `determinant`, with one `log_determinant_vari` of value log |det A|. */
  method LogDeterminant(t: Tape, be: Backend, A: Mat<nat>) returns (r: Result<nat>)
    requires t.Valid() && VarMat(A, |t.vals|)
    modifies t
    ensures t.Valid() && Appended(old(t.G()), old(t.adjs), t.G(), t.adjs)
    ensures r.Err? <==> A.rows != A.cols
    ensures r.Err? ==> r.error == DomainError && t.G() == old(t.G())
    ensures r.Ok? ==> r.value == |old(t.vals)| && |t.vals| == r.value + 1
    ensures r.Ok? ==> t.vals[r.value] == be.logAbsDeterminant(A.rows, Primal.Gather(old(t.vals), A.data))
    ensures r.Ok? ==> t.kinds[r.value] == LogDet(A.rows, Slice(|old(t.dbls)|, |A.data|), Slice(|old(t.refs)|, |A.data|))
    ensures r.Ok? ==> t.refs == old(t.refs) + A.data && t.dbls == old(t.dbls) + Primal.Gather(old(t.vals), A.data)
  {
    if A.rows != A.cols {
      AppendedRefl(t.G(), t.adjs);
      return Err(DomainError);
    }
    ghost var g0, a0 := t.G(), t.adjs;
    var h := t.NewLogDeterminant(be, A.rows, A.data);
    AppendedBy(g0, a0, [t.vals[h]], [t.kinds[h]], A.data, Primal.Gather(g0.vals, A.data));
    assert t.G() == Graph(g0.vals + [t.vals[h]], g0.kinds + [t.kinds[h]], g0.refs + A.data, g0.dbls + Primal.Gather(g0.vals, A.data));
    r := Ok(h);
  }
}
